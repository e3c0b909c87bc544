/** One entry of the conversation as it travels between browser, server and the
    generative model: `{ role, parts: [{ text }] }`. */
module Turns {

  datatype Role = User | Model

  /** A turn keeps the texts of its parts in order; the browser always sends one part. */
  datatype Turn = Turn(role: Role, parts: seq<string>)

  /** The single-part turn `{ role, parts: [{ text }] }`. */
  function TextTurn(role: Role, text: string): Turn
  {
    Turn(role, [text])
  }
}

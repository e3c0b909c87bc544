/** How the browser's transcript meets the server's choice of message. */
module Protocol {
  import opened Options
  import opened Turns
  import Server
  import opened QuizClient

  /** An answered call makes the server send exactly the answer turn's text;
      the first call of a quiz, on an empty history, makes it send the start sentinel. */
  lemma AnswerIsSentMessage(history: seq<Turn>, answer: string)
    requires answer != ""
    ensures Server.UserMessage(Sent(history, Some(answer))) == Some(AnswerPrefix + answer)
    ensures Server.UserMessage(Sent([], None)) == Some(Server.StartMessage)
  {
  }

  /** Were a quiz started again without clearing the history, the server would
      send the last model turn's JSON text back to the model as the user's message.
      The page never gets there: the first click hides the start button
      (public/script.js:11), and it is shown again only right after the history
      is emptied (public/script.js:89-91, public/script.js:140-142). This lemma
      states what `startQuiz` as written would do, not a reachable fault. */
  lemma {:induction false} StartWithoutResetResendsReply(first: Data, rounds: seq<(string, Data)>)
    requires forall j :: 0 <= j < |rounds| ==> rounds[j].0 != ""
    ensures Server.UserMessage(Sent(Session(first, rounds), None)) ==
      Some(Serialized(if rounds == [] then first else rounds[|rounds| - 1].1))
  {
    SessionShape(first, rounds);
  }
}

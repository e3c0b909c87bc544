/** The browser side of the quiz: the module-level `conversationHistory` array,
    the calls that push to it or reset it, and what the page shows after each
    call. The network round trip is an input (`Reply`); the page is reduced to
    which screen it ends on. */
module QuizClient {
  import opened Options
  import opened Turns

  /** Prefix of every answer turn. */
  const AnswerPrefix: string := "My answer is: "

  /** What `response.json()` produced: JSON `null`, or any other value, given by
      its `type` property when that is a string (`None` otherwise) and by its
      `JSON.stringify` text. */
  datatype Data = JsonNull | Value(typeField: Option<string>, json: string)

  /** The outcome of one `fetch` to the quiz endpoint: a failure (network error,
      non-2xx status, body that is not JSON) or the parsed body. */
  datatype Reply = Failed | Received(data: Data)

  /** Where the page ends after a call. `StillLoading` is the loading text left
      in place when the reply's type is neither "question" nor "result". */
  datatype Screen = QuestionShown(startOver: bool) | ResultShown | StillLoading | ErrorShown

  /** JavaScript truthiness of the answer argument: `null` and "" are falsy. */
  predicate Truthy(answer: Option<string>) {
    answer.Some? && answer.value != ""
  }

  function AnswerTurn(answer: string): Turn {
    TextTurn(User, AnswerPrefix + answer)
  }

  /** `JSON.stringify(data)`. */
  function Serialized(data: Data): string {
    match data
    case JsonNull => "null"
    case Value(_, json) => json
  }

  function ReplyTurn(data: Data): Turn {
    TextTurn(Model, Serialized(data))
  }

  /** The history a call sends: the old history, extended by the answer turn
      exactly when the answer is truthy. */
  function Sent(history: seq<Turn>, answer: Option<string>): (s: seq<Turn>)
    ensures history <= s
    ensures |s| == |history| + (if Truthy(answer) then 1 else 0)
    ensures Truthy(answer) ==> s[|history|] == AnswerTurn(answer.value)
  {
    if Truthy(answer) then history + [AnswerTurn(answer.value)] else history
  }

  /** The history after a call: what was sent, then one model turn when a reply was received. */
  function AfterStep(history: seq<Turn>, answer: Option<string>, reply: Reply): (r: seq<Turn>)
    ensures history <= r
    ensures |r| == |history| + (if Truthy(answer) then 1 else 0) + (if reply.Received? then 1 else 0)
    ensures Truthy(answer) ==> r[|history|] == AnswerTurn(answer.value)
    ensures reply.Received? ==> r[|r| - 1] == ReplyTurn(reply.data)
  {
    Sent(history, answer) + if reply.Received? then [ReplyTurn(reply.data)] else []
  }

  /** The start-over control is offered once the history holds more than two turns. */
  predicate StartOverShown(history: seq<Turn>) {
    |history| > 2
  }

  /** The screen after a call, given the history as it stands after the model
      turn was pushed. Reading `type` off JSON `null` throws inside the `try`,
      so that case ends on the error screen although its turn was pushed. */
  function ScreenAfter(history: seq<Turn>, reply: Reply): (s: Screen)
    ensures s.QuestionShown? <==> reply.Received? && reply.data.Value? && reply.data.typeField == Some("question")
    ensures s.QuestionShown? ==> (s.startOver <==> |history| > 2)
    ensures s.ResultShown? <==> reply.Received? && reply.data.Value? && reply.data.typeField == Some("result")
    ensures s.ErrorShown? <==> reply.Failed? || reply.data.JsonNull?
  {
    match reply
    case Failed => ErrorShown
    case Received(JsonNull) => ErrorShown
    case Received(Value(t, _)) =>
      if t == Some("question") then QuestionShown(StartOverShown(history))
      else if t == Some("result") then ResultShown
      else StillLoading
  }

  class Client {
    /** The transcript: the only record of where the quiz stands. */
    var conversationHistory: seq<Turn>

    constructor ()
      ensures conversationHistory == []
    {
      conversationHistory := [];
    }

    /** `getNextStep`: push the answer turn (truthy answers only), then, on a
        received reply, push the model turn and branch on the reply's type. A
        failure leaves the answer turn in place. */
    method GetNextStep(userAnswer: Option<string>, reply: Reply) returns (screen: Screen)
      modifies this
      ensures conversationHistory == AfterStep(old(conversationHistory), userAnswer, reply)
      ensures screen == ScreenAfter(conversationHistory, reply)
    {
      if Truthy(userAnswer) {
        conversationHistory := conversationHistory + [AnswerTurn(userAnswer.value)];
      }
      match reply {
        case Failed =>
          screen := ErrorShown;
        case Received(data) =>
          conversationHistory := conversationHistory + [ReplyTurn(data)];
          match data {
            case JsonNull =>
              screen := ErrorShown;
            case Value(t, _) =>
              if t == Some("question") {
                screen := QuestionShown(StartOverShown(conversationHistory));
              } else if t == Some("result") {
                screen := ResultShown;
              } else {
                screen := StillLoading;
              }
          }
      }
    }

    /** `startQuiz`: a call without an answer; it does not clear the history. */
    method StartQuiz(reply: Reply) returns (screen: Screen)
      modifies this
      ensures conversationHistory == old(conversationHistory) + AfterStep([], None, reply)
      ensures screen == ScreenAfter(conversationHistory, reply)
    {
      screen := GetNextStep(None, reply);
    }

    /** The start-over button: the history is emptied. */
    method StartOver()
      modifies this
      ensures conversationHistory == []
    {
      conversationHistory := [];
    }

    /** The retake button on the result screen: the history is emptied. */
    method Retake()
      modifies this
      ensures conversationHistory == []
    {
      conversationHistory := [];
    }
  }

  // ---------------------------------------------------------------------------
  // Properties of the transcript
  // ---------------------------------------------------------------------------

  /** A failed call with a truthy answer keeps the answer turn, adds no model
      turn and ends on the error screen. */
  lemma FailedCallKeepsAnswer(history: seq<Turn>, answer: string)
    requires answer != ""
    ensures AfterStep(history, Some(answer), Failed) == history + [AnswerTurn(answer)]
    ensures ScreenAfter(AfterStep(history, Some(answer), Failed), Failed) == ErrorShown
  {
  }

  /** The history after a first call without an answer and then one answered
      call per entry of `rounds`, every reply received. */
  function Session(first: Data, rounds: seq<(string, Data)>): seq<Turn>
    decreases |rounds|
  {
    if rounds == [] then AfterStep([], None, Received(first))
    else
      var last := rounds[|rounds| - 1];
      AfterStep(Session(first, rounds[..|rounds| - 1]), Some(last.0), Received(last.1))
  }

  /** From an empty history: the first call leaves one model turn, and each
      answered call adds its answer turn and its model turn, in that order. */
  lemma {:induction false} SessionShape(first: Data, rounds: seq<(string, Data)>)
    requires forall j :: 0 <= j < |rounds| ==> rounds[j].0 != ""
    ensures var h := Session(first, rounds);
      |h| == 1 + 2 * |rounds| && h[0] == ReplyTurn(first) &&
      forall j :: 0 <= j < |rounds| ==>
        h[2 * j + 1] == AnswerTurn(rounds[j].0) && h[2 * j + 2] == ReplyTurn(rounds[j].1)
    decreases |rounds|
  {
    if rounds != [] {
      var n := |rounds| - 1;
      var prefix := rounds[..n];
      SessionShape(first, prefix);
      var p := Session(first, prefix);
      var h := Session(first, rounds);
      var sent := Sent(p, Some(rounds[n].0));
      assert sent == p + [AnswerTurn(rounds[n].0)];
      assert h == sent + [ReplyTurn(rounds[n].1)];
      assert h == p + [AnswerTurn(rounds[n].0), ReplyTurn(rounds[n].1)];
      forall j | 0 <= j < |rounds|
        ensures h[2 * j + 1] == AnswerTurn(rounds[j].0) && h[2 * j + 2] == ReplyTurn(rounds[j].1)
      {
        if j < n {
          assert prefix[j] == rounds[j];
          assert h[2 * j + 1] == p[2 * j + 1] && h[2 * j + 2] == p[2 * j + 2];
        } else {
          assert 2 * j + 1 == |p|;
        }
      }
    }
  }

  /** In such a session the roles alternate, model turns at even positions. */
  lemma {:induction false} SessionAlternates(first: Data, rounds: seq<(string, Data)>)
    requires forall j :: 0 <= j < |rounds| ==> rounds[j].0 != ""
    ensures var h := Session(first, rounds);
      forall i :: 0 <= i < |h| ==> h[i].role == if i % 2 == 0 then Model else User
  {
    SessionShape(first, rounds);
    var h := Session(first, rounds);
    forall i | 0 <= i < |h| ensures h[i].role == if i % 2 == 0 then Model else User {
      if i > 0 {
        var j := (i - 1) / 2;
        assert 0 <= j < |rounds|;
        if i % 2 == 1 {
          assert i == 2 * j + 1;
          assert h[i] == AnswerTurn(rounds[j].0);
        } else {
          assert i == 2 * j + 2;
          assert h[i] == ReplyTurn(rounds[j].1);
        }
      }
    }
  }

  /** The start-over control is suppressed on the first question of a session
      and offered on every later one. */
  lemma {:induction false} StartOverAfterFirstQuestion(first: Data, rounds: seq<(string, Data)>)
    requires forall j :: 0 <= j < |rounds| ==> rounds[j].0 != ""
    ensures StartOverShown(Session(first, rounds)) <==> |rounds| >= 1
  {
    SessionShape(first, rounds);
  }
}

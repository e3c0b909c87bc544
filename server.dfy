/** The request handler of `POST /api/quiz`, minus the framework and the model
    service: which message is sent to the model, which history goes with it,
    and how a candidate JSON text is cut out of the model's free-form reply. */
module Server {
  import opened Options
  import opened JsStrings
  import opened Turns

  /** Opens a fenced code block tagged as JSON; seven characters long. */
  const FenceOpen: string := "```json"
  /** Closes a fenced code block. */
  const FenceClose: string := "```"
  /** The message sent when the caller's history is empty. */
  const StartMessage: string := "Start the quiz."
  /** The canned model turn that follows the quiz prompt in every outbound history. */
  const CannedReply: string := "I understand. I am ready to be the Spirit Animal Quiz Master. Let's begin."

  // ---------------------------------------------------------------------------
  // Outbound message and history
  // ---------------------------------------------------------------------------

  /** The message sent to the model: the first part's text of the last turn of
      the caller's history, or the start sentinel for an empty history. `None`
      is the TypeError JavaScript raises when that last turn has no part, which
      the handler turns into its generic HTTP 500 reply. */
  function UserMessage(history: seq<Turn>): (m: Option<string>)
    ensures history == [] ==> m == Some(StartMessage)
    ensures history != [] ==> (m.Some? <==> history[|history| - 1].parts != [])
    ensures history != [] && m.Some? ==> m.value == history[|history| - 1].parts[0]
  {
    if |history| > 0 then
      var last := history[|history| - 1];
      if |last.parts| > 0 then Some(last.parts[0]) else None
    else Some(StartMessage)
  }

  /** The history the chat is started with: the quiz prompt as a user turn, the
      canned acknowledgement as a model turn, then the caller's turns unchanged. */
  function OutboundHistory(quizPrompt: string, history: seq<Turn>): (out: seq<Turn>)
    ensures |out| == |history| + 2
    ensures out[0] == TextTurn(User, quizPrompt) && out[1] == TextTurn(Model, CannedReply)
    ensures forall i :: 0 <= i < |history| ==> out[i + 2] == history[i]
  {
    [TextTurn(User, quizPrompt), TextTurn(Model, CannedReply)] + history
  }

  /** The message sent for a non-empty history is already the last turn of the
      history the chat was started with, so the model receives it twice in a row;
      for an empty history the chat holds only the two fixed turns. */
  lemma MessageRepeatsLastTurn(quizPrompt: string, history: seq<Turn>)
    ensures var out := OutboundHistory(quizPrompt, history);
      match UserMessage(history)
      case Some(m) =>
        if history == [] then m == StartMessage && |out| == 2
        else out[|out| - 1].role == history[|history| - 1].role && m == out[|out| - 1].parts[0]
      case None => history != [] && out[|out| - 1].parts == []
  {
    var out := OutboundHistory(quizPrompt, history);
    if history != [] {
      assert out[|out| - 1] == history[|history| - 1];
    }
  }

  // ---------------------------------------------------------------------------
  // Brace depth
  // ---------------------------------------------------------------------------

  /** How one character moves the brace counter. */
  function Delta(c: char): int {
    if c == '{' then 1 else if c == '}' then -1 else 0
  }

  /** The brace counter after scanning all of `s`: opening minus closing braces,
      string literals not excepted. */
  function Depth(s: string): int {
    if s == [] then 0 else Depth(s[..|s| - 1]) + Delta(s[|s| - 1])
  }

  /** Scanning `text` from `start` up to (not including) `e` brings the counter back to 0. */
  ghost predicate ClosesAt(text: string, start: nat, e: int)
    requires start <= |text|
  {
    start < e <= |text| && Depth(text[start..e]) == 0
  }

  /** `e` is the first position after `start` at which the counter is back to 0. */
  ghost predicate FirstClose(text: string, start: nat, e: int)
    requires start <= |text|
  {
    ClosesAt(text, start, e) && forall k :: start < k < e ==> !ClosesAt(text, start, k)
  }

  /** The counter never returns to 0 once the scan from `start` has begun. */
  ghost predicate NeverCloses(text: string, start: nat)
    requires start <= |text|
  {
    forall k :: !ClosesAt(text, start, k)
  }

  /** A text that is one balanced object: it opens with `{` and the counter
      first returns to 0 at its last character. */
  ghost predicate BalancedObject(x: string) {
    x != [] && x[0] == '{' && FirstClose(x, 0, |x|)
  }

  lemma DepthStep(text: string, start: nat, i: nat)
    requires start <= i < |text|
    ensures Depth(text[start..i + 1]) == Depth(text[start..i]) + Delta(text[i])
  {
    assert text[start..i + 1][..i - start] == text[start..i];
  }

  lemma FirstCloseUnique(text: string, start: nat, e1: int, e2: int)
    requires start <= |text|
    requires FirstClose(text, start, e1) && FirstClose(text, start, e2)
    ensures e1 == e2
  {
  }

  /** The scan of a span that opens with `{` and has not closed yet stays strictly positive. */
  lemma {:induction false} OpenSpanPositive(s: string, n: nat)
    requires 0 < n <= |s| && s[0] == '{'
    requires forall k :: 0 < k <= n ==> Depth(s[..k]) != 0
    ensures Depth(s[..n]) > 0
  {
    if n == 1 {
      assert s[..1][..0] == [];
    } else {
      OpenSpanPositive(s, n - 1);
      assert s[..n][..n - 1] == s[..n - 1];
    }
  }

  // ---------------------------------------------------------------------------
  // The brace scan
  // ---------------------------------------------------------------------------

  /** The scan loop written as a function: the position after the character at
      which the counter (already `count` at `i`) reaches 0, or `start` when it never does. */
  function ScanFrom(text: string, start: nat, i: nat, count: int): (e: nat)
    requires start <= i <= |text|
    ensures e == start || i < e <= |text|
    decreases |text| - i
  {
    if i == |text| then start
    else if count + Delta(text[i]) == 0 then i + 1
    else ScanFrom(text, start, i + 1, count + Delta(text[i]))
  }

  /** Where the brace scan started at `start` ends. */
  function BraceEnd(text: string, start: nat): (e: nat)
    requires start <= |text|
    ensures start <= e <= |text|
  {
    ScanFrom(text, start, start, 0)
  }

  lemma {:induction false} ScanFromSpec(text: string, start: nat, i: nat, count: int)
    requires start <= i <= |text|
    requires count == Depth(text[start..i])
    requires forall k :: start < k <= i ==> !ClosesAt(text, start, k)
    ensures var e := ScanFrom(text, start, i, count);
      (e == start && NeverCloses(text, start)) || FirstClose(text, start, e)
    decreases |text| - i
  {
    if i < |text| {
      DepthStep(text, start, i);
      if count + Delta(text[i]) != 0 {
        ScanFromSpec(text, start, i + 1, count + Delta(text[i]));
      }
    }
  }

  /** The scan ends right after the first position at which the counter is back
      to 0, and stays at `start` exactly when that never happens. */
  lemma BraceEndSpec(text: string, start: nat)
    requires start <= |text|
    ensures var e := BraceEnd(text, start);
      (e == start && NeverCloses(text, start)) || FirstClose(text, start, e)
  {
    assert text[start..start] == [];
    ScanFromSpec(text, start, start, 0);
  }

  /** The `for` loop of the handler: counts braces from `start` and stops at the
      first position where the count is back to 0; `end` stays at `start` if it never is. */
  method ScanBraces(text: string, start: nat) returns (end: nat)
    requires start <= |text|
    ensures (end == start && NeverCloses(text, start)) || FirstClose(text, start, end)
  {
    var braceCount := 0;
    end := start;
    var i := start;
    while i < |text|
      invariant start <= i <= |text|
      invariant braceCount == Depth(text[start..i])
      invariant forall k :: start < k <= i ==> !ClosesAt(text, start, k)
    {
      DepthStep(text, start, i);
      if text[i] == '{' { braceCount := braceCount + 1; }
      if text[i] == '}' { braceCount := braceCount - 1; }
      if braceCount == 0 {
        end := i + 1;
        break;
      }
      i := i + 1;
    }
  }

  // ---------------------------------------------------------------------------
  // Extraction
  // ---------------------------------------------------------------------------

  /** What the fence branch keeps of the text after the opening marker: the
      trimmed text up to the next closing fence, or all of it trimmed. */
  function FencedBody(remaining: string): string {
    var end := IndexOf(remaining, FenceClose);
    if end != -1 then Trim(remaining[..end]) else Trim(remaining)
  }

  /** The candidate JSON text the handler hands to `JSON.parse`. */
  function Extracted(text: string): string {
    if Includes(text, FenceOpen) then FencedBody(text[IndexOf(text, FenceOpen) + 7..])
    else if Includes(text, "{") then
      var start := IndexOf(text, "{");
      text[start..BraceEnd(text, start)]
    else text
  }

  /** The extraction as the handler runs it. */
  method Extract(text: string) returns (jsonText: string)
    ensures jsonText == Extracted(text)
  {
    jsonText := text;
    if Includes(text, FenceOpen) {
      var start := IndexOf(text, FenceOpen) + 7;
      var remaining := text[start..];
      var end := IndexOf(remaining, FenceClose);
      if end != -1 {
        jsonText := Trim(remaining[..end]);
      } else {
        jsonText := Trim(remaining);
      }
    } else if Includes(text, "{") {
      var start := IndexOf(text, "{");
      var end := ScanBraces(text, start);
      BraceEndSpec(text, start);
      if end != start || BraceEnd(text, start) != start {
        FirstCloseUnique(text, start, end, BraceEnd(text, start));
      }
      jsonText := text[start..end];
    }
  }

  // ---------------------------------------------------------------------------
  // Properties of the extraction
  // ---------------------------------------------------------------------------

  /** A text without backticks contains no opening fence. */
  lemma NoBacktickNoFence(s: string)
    requires forall i :: 0 <= i < |s| ==> s[i] != '`'
    ensures !Includes(s, FenceOpen)
  {
    forall i ensures !OccursAt(s, FenceOpen, i) {
      if 0 <= i && i + 7 <= |s| {
        assert s[i..i + 7][0] == s[i];
      }
    }
  }

  /** A balanced object ends with `}` and its counter is positive on every proper prefix. */
  lemma BalancedObjectShape(x: string)
    requires BalancedObject(x)
    ensures x[|x| - 1] == '}'
    ensures forall k :: 0 < k < |x| ==> Depth(x[..k]) > 0
  {
    forall k | 0 < k < |x| ensures Depth(x[..k]) > 0 {
      forall j | 0 < j <= k ensures Depth(x[..j]) != 0 {
        assert x[0..j] == x[..j];
        assert !ClosesAt(x, 0, j);
      }
      OpenSpanPositive(x, k);
    }
    assert x[0..|x|] == x;
    if |x| > 1 {
      assert x[..|x|][..|x| - 1] == x[..|x| - 1];
    }
  }

  /** With an opening fence present, the result is the trimmed text between the
      first "```json" and the first "```" after it (`g`), or up to the end of
      the text (`g == |text|`) when no closing fence follows. */
  lemma {:induction false} FenceBranch(text: string, f: nat, g: nat)
    requires OccursAt(text, FenceOpen, f)
    requires forall i :: 0 <= i < f ==> !OccursAt(text, FenceOpen, i)
    requires f + 7 <= g <= |text|
    requires g == |text| || OccursAt(text, FenceClose, g)
    requires forall j :: f + 7 <= j < g ==> !OccursAt(text, FenceClose, j)
    ensures Extracted(text) == Trim(text[f + 7..g])
  {
    assert IndexOf(text, FenceOpen) == f;
    var rem := text[f + 7..];
    assert Extracted(text) == FencedBody(rem);
    CloseAfterFence(text, f + 7, g);
    FencedBodyUpTo(rem, g - (f + 7));
    SliceOfSuffix(text, f + 7, g);
  }

  lemma SliceOfSuffix(s: string, a: nat, b: nat)
    requires a <= b <= |s|
    ensures s[a..][..b - a] == s[a..b]
  {
  }

  /** The fence branch keeps the trimmed text before the first closing fence,
      or all of it trimmed when there is none (`e == |remaining|`). */
  lemma FencedBodyUpTo(remaining: string, e: nat)
    requires e <= |remaining|
    requires IndexOf(remaining, FenceClose) == if e < |remaining| then e else -1
    ensures FencedBody(remaining) == Trim(remaining[..e])
  {
    assert e == |remaining| ==> remaining[..e] == remaining;
  }

  /** In the text after position `from`, the first closing fence sits where it sits in the whole text. */
  lemma {:induction false} CloseAfterFence(text: string, from: nat, g: nat)
    requires from <= g <= |text|
    requires g == |text| || OccursAt(text, FenceClose, g)
    requires forall j :: from <= j < g ==> !OccursAt(text, FenceClose, j)
    ensures IndexOf(text[from..], FenceClose) == if g < |text| then g - from else -1
  {
    var rem := text[from..];
    forall j | 0 <= j ensures OccursAt(rem, FenceClose, j) <==> OccursAt(text, FenceClose, j + from) {
      if j + 3 <= |rem| {
        assert rem[j..j + 3] == text[j + from..j + from + 3];
      }
    }
    var e := IndexOf(rem, FenceClose);
    if g < |text| {
      assert OccursAt(rem, FenceClose, g - from);
      assert e != -1 && OccursAt(text, FenceClose, e + from);
    }
  }

  /** Prefixing noise free of backticks shifts the first opening fence by the noise's length. */
  lemma {:induction false} FenceShifted(noise: string, text: string)
    requires Includes(text, FenceOpen)
    requires forall i :: 0 <= i < |noise| ==> noise[i] != '`'
    ensures IndexOf(noise + text, FenceOpen) == |noise| + IndexOf(text, FenceOpen)
  {
    var t := noise + text;
    var f := IndexOf(text, FenceOpen);
    var n := |noise|;
    assert t[n + f..n + f + 7] == text[f..f + 7];
    assert OccursAt(t, FenceOpen, n + f);
    forall i | 0 <= i < n + f ensures !OccursAt(t, FenceOpen, i) {
      if i + 7 <= |t| {
        if i < n {
          assert t[i..i + 7][0] == t[i] == noise[i];
        } else {
          assert t[i..i + 7] == text[i - n..i - n + 7];
          assert !OccursAt(text, FenceOpen, i - n);
        }
      }
    }
  }

  /** Fence priority: once the text holds an opening fence, prefixing it with
      any noise free of backticks (braces included) changes nothing. */
  lemma {:induction false} FencePriority(noise: string, text: string)
    requires Includes(text, FenceOpen)
    requires forall i :: 0 <= i < |noise| ==> noise[i] != '`'
    ensures Extracted(noise + text) == Extracted(text)
  {
    var f := IndexOf(text, FenceOpen);
    FenceShifted(noise, text);
    SuffixOfConcat(noise, text, f + 7);
    FenceBranchTaken(noise + text);
    FenceBranchTaken(text);
  }

  lemma FenceBranchTaken(text: string)
    requires IndexOf(text, FenceOpen) != -1
    ensures Extracted(text) == FencedBody(text[IndexOf(text, FenceOpen) + 7..])
  {
  }

  lemma SuffixOfConcat(a: string, b: string, k: nat)
    requires k <= |b|
    ensures (a + b)[|a| + k..] == b[k..]
  {
  }

  /** Without an opening fence and with a `{` whose scan closes, the result is
      the span of the text from its first `{` to the `}` where the count first
      returns to 0: a balanced object whose count is positive on every proper
      prefix, i.e. the shortest balanced span from the first `{`. */
  lemma BraceBranchBalanced(text: string)
    requires !Includes(text, FenceOpen) && Includes(text, "{")
    requires !NeverCloses(text, IndexOf(text, "{"))
    ensures var b := IndexOf(text, "{");
      var r := Extracted(text);
      b + |r| <= |text| && r == text[b..b + |r|] && BalancedObject(r)
    ensures var r := Extracted(text);
      r[|r| - 1] == '}' && forall k :: 0 < k < |r| ==> Depth(r[..k]) > 0
  {
    var b := IndexOf(text, "{");
    var e := BraceEnd(text, b);
    BraceEndSpec(text, b);
    var r := text[b..e];
    assert r[0] == text[b] == '{' by { assert text[b..b + 1] == "{"; }
    forall k | 0 < k <= |r| ensures ClosesAt(r, 0, k) <==> ClosesAt(text, b, b + k) {
      assert r[0..k] == text[b..b + k];
    }
    assert FirstClose(r, 0, |r|);
    BalancedObjectShape(r);
  }

  /** Without an opening fence and with a `{`, the result is empty exactly when
      the count started at the first `{` never returns to 0. */
  lemma BraceBranchUnbalanced(text: string)
    requires !Includes(text, FenceOpen) && Includes(text, "{")
    ensures Extracted(text) == [] <==> NeverCloses(text, IndexOf(text, "{"))
  {
    BraceEndSpec(text, IndexOf(text, "{"));
  }

  /** A text with neither an opening fence nor a `{` passes through unchanged. */
  lemma NoMatchUnchanged(text: string)
    requires !Includes(text, FenceOpen) && !Includes(text, "{")
    ensures Extracted(text) == text
  {
  }

  /** A text that is itself one balanced object and holds no opening fence is
      returned unchanged. */
  lemma BareObjectUnchanged(x: string)
    requires BalancedObject(x) && !Includes(x, FenceOpen)
    ensures Extracted(x) == x
  {
    assert OccursAt(x, "{", 0) by { assert x[0..1] == [x[0]]; }
    BraceEndSpec(x, 0);
    assert !NeverCloses(x, 0) by { assert ClosesAt(x, 0, |x|); }
    FirstCloseUnique(x, 0, BraceEnd(x, 0), |x|);
  }

  /** A text free of backticks, wrapped in a JSON fence, extracts to its trimmed self. */
  lemma FenceWrapped(x: string)
    requires forall i :: 0 <= i < |x| ==> x[i] != '`'
    ensures Extracted(FenceOpen + x + FenceClose) == Trim(x)
  {
    var t := FenceOpen + x + FenceClose;
    var g := 7 + |x|;
    assert OccursAt(t, FenceOpen, 0) by { assert t[0..7] == FenceOpen; }
    assert OccursAt(t, FenceClose, g) by { assert t[g..g + 3] == FenceClose; }
    forall j | 7 <= j < g ensures !OccursAt(t, FenceClose, j) {
      if j + 3 <= |t| {
        assert t[j..j + 3][0] == t[j] == x[j - 7];
      }
    }
    FenceBranch(t, 0, g);
    assert t[7..g] == x;
  }

  /** Wrapping a bare object (free of backticks) in a JSON fence and extracting
      gives back the object, which is also what extracting the bare object gives. */
  lemma FencedObjectUnchanged(x: string)
    requires BalancedObject(x)
    requires forall i :: 0 <= i < |x| ==> x[i] != '`'
    ensures Extracted(FenceOpen + x + FenceClose) == x == Extracted(x)
  {
    FenceWrapped(x);
    BalancedObjectShape(x);
    TrimKeepsTrimmed(x);
    NoBacktickNoFence(x);
    BareObjectUnchanged(x);
  }

  /** An object with prose before it (prose free of braces) and anything after it
      (a later object included) yields exactly that object, provided the reply
      holds no backtick and so no fence. */
  lemma ProseAroundObject(before: string, x: string, after: string)
    requires BalancedObject(x)
    requires forall i :: 0 <= i < |before| ==> before[i] != '{' && before[i] != '`'
    requires forall i :: 0 <= i < |x| ==> x[i] != '`'
    requires forall i :: 0 <= i < |after| ==> after[i] != '`'
    ensures Extracted(before + x + after) == x
  {
    var t := before + x + after;
    var b := |before|;
    forall i | 0 <= i < |t| ensures t[i] != '`' {
      if i < b { assert t[i] == before[i]; }
      else if i < b + |x| { assert t[i] == x[i - b]; }
      else { assert t[i] == after[i - b - |x|]; }
    }
    NoBacktickNoFence(t);
    ObjectAfterProse(before, x, after);
    BraceEndSpec(t, b);
    ObjectSpanCloses(before, x, after);
    if BraceEnd(t, b) != b {
      FirstCloseUnique(t, b, BraceEnd(t, b), b + |x|);
    }
    assert t[b..b + |x|] == x;
  }

  /** The first `{` of the reply is the one that opens the object. */
  lemma ObjectAfterProse(before: string, x: string, after: string)
    requires x != [] && x[0] == '{'
    requires forall i :: 0 <= i < |before| ==> before[i] != '{'
    ensures IndexOf(before + x + after, "{") == |before|
  {
    var t := before + x + after;
    assert t[|before|] == x[0];
    assert t[|before|..|before| + 1] == "{";
    assert OccursAt(t, "{", |before|);
    forall i | 0 <= i < |before| ensures !OccursAt(t, "{", i) {
      assert t[i..i + 1] == [before[i]];
    }
  }

  /** Scanning from the object's `{`, the count first returns to 0 at the object's end. */
  lemma ObjectSpanCloses(before: string, x: string, after: string)
    requires BalancedObject(x)
    ensures var t := before + x + after;
      FirstClose(t, |before|, |before| + |x|)
  {
    var t := before + x + after;
    var b := |before|;
    forall k | b < k <= b + |x| ensures ClosesAt(t, b, k) <==> ClosesAt(x, 0, k - b) {
      assert t[b..k] == x[0..k - b];
    }
  }
}

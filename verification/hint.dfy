/**
 * The end-of-turn hint hook (pack/dotclaude/hooks/after_stop_hint.py): find
 * the last user message in the session transcript and, when its first line
 * starts with one of the workflow commands, suggest the next one.
 *
 * The transcript is given already split into lines and decoded: each line
 * is an `Event`. Reading the file and printing the JSON answer are left to
 * the caller.
 */
module Hint {
  import opened Wrappers
  import opened Text

  // ---------------------------------------------------------------------------
  // Choosing the hint

  /** The workflow commands, in the order they are tried. */
  const Commands: seq<string> := ["/prime", "/plan", "/execute", "/review", "/prepare-commit"]

  /** The hint for each command, index for index. */
  const Hints: seq<string> := [
    "Next: /plan \"<key>\" to map & plan, or /execute \"<key>\" if a plan exists.",
    "Next: /execute \"<key>\" \U{2014} tests first, smallest viable diff.",
    "Next: /review \"<key>\" \U{2014} aim APPROVE; then /prepare-commit.",
    "Next: /prepare-commit \U{2014} human reviews & commits.",
    "Reminder: human commits; keep diffs tight and messages clear."
  ]

  /** The text before the first line boundary (`str.splitlines()[0]`). */
  function FirstLine(t: string): (r: string)
    ensures |r| <= |t| && r == t[..|r|]
    ensures forall i :: 0 <= i < |r| ==> !PyLineBreak(r[i])
    ensures |r| < |t| ==> PyLineBreak(t[|r|])
    decreases |t|
  {
    if |t| == 0 || PyLineBreak(t[0]) then "" else [t[0]] + FirstLine(t[1..])
  }

  /** The line `hint_for` looks at: the first line of the stripped text,
      stripped again. */
  function Head(text: string): string {
    Trim(FirstLine(Trim(text, PySpace)), PySpace)
  }

  /** The hint of the first command `line` starts with, trying from index `k`. */
  function HintFrom(line: string, k: nat): (r: Option<string>)
    requires k <= |Commands|
    ensures r.Some? ==> r.value in Hints
    ensures r.Some? <==> exists i :: k <= i < |Commands| && HasPrefix(line, Commands[i])
    ensures r.Some? ==> exists i :: k <= i < |Commands| && HasPrefix(line, Commands[i]) && r.value == Hints[i]
                                    && forall j :: k <= j < i ==> !HasPrefix(line, Commands[j])
    decreases |Commands| - k
  {
    if k == |Commands| then None
    else if HasPrefix(line, Commands[k]) then Some(Hints[k])
    else HintFrom(line, k + 1)
  }

  /** `hint_for`. */
  function HintFor(text: string): (r: Option<string>)
    ensures Trim(text, PySpace) == "" ==> r.None?
    ensures r.Some? ==> r.value in Hints
    ensures r.Some? <==> exists i :: 0 <= i < |Commands| && HasPrefix(Head(text), Commands[i])
    ensures r.Some? ==> exists i :: 0 <= i < |Commands| && HasPrefix(Head(text), Commands[i]) && r.value == Hints[i]
                                    && forall j :: 0 <= j < i ==> !HasPrefix(Head(text), Commands[j])
  {
    var t := Trim(text, PySpace);
    if t == "" then
      assert Head(text) == "" by {
        assert FirstLine(t) == "";
      }
      assert forall i :: 0 <= i < |Commands| ==> |Commands[i]| > 0;
      None
    else HintFrom(Head(text), 0)
  }

  /** A line with no white space at either end and no line boundary. */
  predicate Line(line: string) {
    |line| > 0 && !PySpace(line[0]) && !PySpace(line[|line| - 1])
    && forall i :: 0 <= i < |line| ==> !PyLineBreak(line[i])
  }

  lemma TrimOfLine(line: string)
    requires Line(line)
    ensures TrimLeft(line, PySpace) == line && TrimRight(line, PySpace) == line
    ensures Trim(line, PySpace) == line
  {
  }

  /** The first line of a text that starts with `line` and then breaks. */
  lemma {:induction false} FirstLineOf(line: string, x: string)
    requires forall i :: 0 <= i < |line| ==> !PyLineBreak(line[i])
    requires x == [] || PyLineBreak(x[0])
    ensures FirstLine(line + x) == line
    decreases |line|
  {
    if |line| > 0 {
      assert (line + x)[1..] == line[1..] + x;
      FirstLineOf(line[1..], x);
      assert [line[0]] + line[1..] == line;
    }
  }

  lemma HeadOfLine(line: string)
    requires Line(line)
    ensures Head(line) == line
  {
    TrimOfLine(line);
    FirstLineOf(line, []);
    assert line + [] == line;
  }

  /** Only the first line counts: whatever follows a line break is ignored. */
  lemma OnlyFirstLine(line: string, brk: char, rest: string)
    requires Line(line) && PyLineBreak(brk)
    ensures Head(line + [brk] + rest) == line
    ensures HintFor(line + [brk] + rest) == HintFor(line)
  {
    var s := line + [brk] + rest;
    assert s[0] == line[0];
    assert TrimLeft(s, PySpace) == s;
    var t := TrimRight(s, PySpace);
    assert s[|line| - 1] == line[|line| - 1];
    assert |t| >= |line|;
    var x := t[|line|..];
    assert t == line + x;
    assert x == [] || x[0] == brk;
    FirstLineOf(line, x);
    TrimOfLine(line);
    HeadOfLine(line);
  }

  /** Each command, alone on its line, gets its own hint. */
  lemma {:induction false} CommandHints(i: nat, arg: string)
    requires i < |Commands|
    requires Line(Commands[i] + arg)
    ensures HintFor(Commands[i] + arg) == Some(Hints[i])
  {
    var line := Commands[i] + arg;
    HeadOfLine(line);
    assert HasPrefix(line, Commands[i]) by {
      assert line[..|Commands[i]|] == Commands[i];
    }
    forall j | 0 <= j < i
      ensures !HasPrefix(line, Commands[j])
    {
      NotEarlier(i, j, line);
    }
  }

  /** No command starts with an earlier one, so the order of the tries only
      matters for texts that are not a command. */
  lemma NotEarlier(i: nat, j: nat, line: string)
    requires j < i < |Commands| && HasPrefix(line, Commands[i])
    ensures !HasPrefix(line, Commands[j])
  {
    assert Commands[i][1] == line[1] && Commands[i][2] == line[2];
    if i == 4 {
      assert Commands[i][3] == line[3];
    }
  }

  // ---------------------------------------------------------------------------
  // Reading the transcript

  /** An entry of a list-valued `content`. */
  datatype Block =
    | TextBlock(text: string)    // {"type": "text", "text": ...}; a missing text reads as ""
    | NonStringText              // {"type": "text"} whose text is not a string
    | OtherBlock                 // any other block, or a value that is not an object

  datatype Content = Str(s: string) | Blocks(bs: seq<Block>) | OtherContent

  /** What `ev.get("message") or {}` finds. */
  datatype Message =
    | Absent                     // missing or falsy (0, false, "", [], {}): treated as `{}`
    | Malformed                  // present, truthy and not an object
    | Msg(role: string, content: Content)

  /** One transcript line. */
  datatype Event =
    | Garbled                    // not JSON: skipped
    | NonObject                  // JSON, but not an object
    | Entry(message: Message)

  /** An event that raises inside the reading loop, which ends the read. */
  predicate Halts(e: Event) {
    match e
    case Garbled => false
    case NonObject => true
    case Entry(Absent) => false
    case Entry(Malformed) => true
    case Entry(Msg(role, content)) => role == "user" && content.Blocks? && NonStringText in content.bs
  }

  /** The text blocks' texts, in order. */
  function Texts(bs: seq<Block>): (r: seq<string>)
    ensures |r| <= |bs|
    ensures |r| == 0 <==> forall i :: 0 <= i < |bs| ==> !bs[i].TextBlock?
    decreases |bs|
  {
    if |bs| == 0 then []
    else
      var rest := Texts(bs[1..]);
      assert forall i :: 1 <= i < |bs| ==> bs[i] == bs[1..][i - 1];
      if bs[0].TextBlock? then [bs[0].text] + rest else rest
  }

  /** The text a non-halting event sets as the latest user text, if any: a
      user string, or the user's text blocks joined by newlines. */
  function UserText(e: Event): (r: Option<string>)
    ensures r.Some? ==> e.Entry? && e.message.Msg? && e.message.role == "user"
    ensures e.Entry? && e.message.Msg? && e.message.role == "user" && e.message.content.Str? ==>
              r == Some(e.message.content.s)
    ensures e.Entry? && e.message.Msg? && e.message.content.Blocks? ==>
              (r.Some? <==> e.message.role == "user" && exists i :: 0 <= i < |e.message.content.bs| && e.message.content.bs[i].TextBlock?)
    ensures e.Entry? && e.message.Msg? && e.message.content.OtherContent? ==> r.None?
    // a user's block list yields its collected texts joined by newlines
    ensures e.Entry? && e.message.Msg? && e.message.role == "user" && e.message.content.Blocks? && r.Some? ==>
              r.value == JoinWith(Texts(e.message.content.bs), '\n')
  {
    match e
    case Entry(Msg(role, content)) =>
      if role != "user" then None
      else (
        match content
        case Str(s) => Some(s)
        case Blocks(bs) => if |Texts(bs)| > 0 then Some(JoinWith(Texts(bs), '\n')) else None
        case OtherContent => None)
    case _ => None
  }

  /** Text blocks are collected in order: collecting distributes over
      concatenation, one text block gives its text, any other block nothing. */
  lemma {:induction false} TextsAppend(a: seq<Block>, b: seq<Block>)
    ensures Texts(a + b) == Texts(a) + Texts(b)
    decreases |a|
  {
    if |a| > 0 {
      assert (a + b)[0] == a[0];
      assert (a + b)[1..] == a[1..] + b;
      TextsAppend(a[1..], b);
    } else {
      assert a + b == b;
    }
  }

  /** A string is collected iff some text block carries it. */
  lemma {:induction false} TextsMembers(bs: seq<Block>)
    ensures forall t :: t in Texts(bs) <==> TextBlock(t) in bs
    decreases |bs|
  {
    if |bs| > 0 {
      TextsMembers(bs[1..]);
      assert bs == [bs[0]] + bs[1..];
    }
  }

  lemma TextsOne(b: Block)
    ensures Texts([b]) == (if b.TextBlock? then [b.text] else [])
  {
  }

  /** Blocks of text, with any non-text blocks between them, give back their
      texts joined by newlines. */
  lemma {:induction false} UserTextJoinsBlocks(ts: seq<string>, gaps: seq<Block>)
    requires |ts| > 0
    requires forall i :: 0 <= i < |gaps| ==> gaps[i] == OtherBlock
    ensures UserText(Entry(Msg("user", Blocks(Interleave(ts, gaps))))) == Some(JoinWith(ts, '\n'))
  {
    InterleaveTexts(ts, gaps);
  }

  /** Each text as a block, followed by the given non-text blocks. */
  function Interleave(ts: seq<string>, gaps: seq<Block>): (r: seq<Block>)
    ensures |r| == |ts| * (1 + |gaps|)
    decreases |ts|
  {
    if |ts| == 0 then [] else [TextBlock(ts[0])] + gaps + Interleave(ts[1..], gaps)
  }

  lemma {:induction false} InterleaveTexts(ts: seq<string>, gaps: seq<Block>)
    requires forall i :: 0 <= i < |gaps| ==> gaps[i] == OtherBlock
    ensures Texts(Interleave(ts, gaps)) == ts
    decreases |ts|
  {
    if |ts| > 0 {
      InterleaveTexts(ts[1..], gaps);
      GapsSilent(gaps);
      TextsAppend([TextBlock(ts[0])] + gaps, Interleave(ts[1..], gaps));
      TextsAppend([TextBlock(ts[0])], gaps);
      TextsOne(TextBlock(ts[0]));
      assert ts == [ts[0]] + ts[1..];
    }
  }

  lemma GapsSilent(gaps: seq<Block>)
    requires forall i :: 0 <= i < |gaps| ==> gaps[i] == OtherBlock
    ensures Texts(gaps) == []
  {
  }

  /** The reading loop: later user text replaces earlier; the first event
      that raises ends it with what was read so far. */
  function Scan(events: seq<Event>, last: string): (r: string)
    ensures r == last || exists i :: 0 <= i < |events| && UserText(events[i]) == Some(r)
    decreases |events|
  {
    if |events| == 0 then last
    else if Halts(events[0]) then last
    else
      var next := if UserText(events[0]).Some? then UserText(events[0]).value else last;
      var r := Scan(events[1..], next);
      assert forall i :: 1 <= i < |events| ==> events[i] == events[1..][i - 1];
      r
  }

  /** `read_last_user_text`: `None` stands for a missing path or file. */
  function ReadLastUserText(transcript: Option<seq<Event>>): (r: string)
    ensures transcript.None? ==> r == ""
    ensures |r| > 0 ==> !PySpace(r[0]) && !PySpace(r[|r| - 1])
  {
    match transcript
    case None => ""
    case Some(events) => Trim(Scan(events, ""), PySpace)
  }

  predicate Smooth(events: seq<Event>) {
    forall i :: 0 <= i < |events| ==> !Halts(events[i])
  }

  /** Reading on after a run of events that do not raise. */
  lemma {:induction false} ScanAppend(a: seq<Event>, b: seq<Event>, last: string)
    requires Smooth(a)
    ensures Scan(a + b, last) == Scan(b, Scan(a, last))
    decreases |a|
  {
    if |a| > 0 {
      assert (a + b)[0] == a[0] && !Halts(a[0]);
      assert (a + b)[1..] == a[1..] + b;
      assert Smooth(a[1..]) by {
        assert forall i :: 0 <= i < |a| - 1 ==> a[1..][i] == a[i + 1];
      }
      var next := if UserText(a[0]).Some? then UserText(a[0]).value else last;
      assert Scan(a + b, last) == Scan(a[1..] + b, next);
      assert Scan(a, last) == Scan(a[1..], next);
      ScanAppend(a[1..], b, next);
    } else {
      assert a + b == b;
    }
  }

  /** Events that say nothing from the user leave the text as it was. */
  lemma {:induction false} ScanSilent(events: seq<Event>, last: string)
    requires Smooth(events) && forall i :: 0 <= i < |events| ==> UserText(events[i]).None?
    ensures Scan(events, last) == last
    decreases |events|
  {
    if |events| > 0 {
      ScanSilent(events[1..], last);
    }
  }

  /** The last user message wins over earlier ones and over anything else
      that follows it. */
  lemma LastUserWins(before: seq<Event>, e: Event, after: seq<Event>, last: string)
    requires Smooth(before) && !Halts(e) && UserText(e).Some?
    requires Smooth(after) && forall i :: 0 <= i < |after| ==> UserText(after[i]).None?
    ensures Scan(before + [e] + after, last) == UserText(e).value
  {
    ScanAppend(before + [e], after, last);
    ScanAppend(before, [e], last);
    ScanSilent(after, UserText(e).value);
  }

  /** An event that raises ends the read: nothing after it counts. */
  lemma HaltKeepsEarlier(before: seq<Event>, e: Event, after: seq<Event>, last: string)
    requires Smooth(before) && Halts(e)
    ensures Scan(before + [e] + after, last) == Scan(before, last)
  {
    assert before + [e] + after == before + ([e] + after);
    ScanAppend(before, [e] + after, last);
  }

  /** A user message made only of non-text blocks keeps the earlier text. */
  lemma NoTextBlocksKeepEarlier(bs: seq<Block>, last: string)
    requires forall i :: 0 <= i < |bs| ==> bs[i] == OtherBlock
    ensures Scan([Entry(Msg("user", Blocks(bs)))], last) == last
  {
    assert NonStringText !in bs;
  }

  // ---------------------------------------------------------------------------
  // The hook

  /** `main`: the hint to emit as `systemMessage`, if any. `None` for the
      input is stdin that is not JSON. */
  function Main(input: Option<Option<seq<Event>>>): (r: Option<string>)
    ensures input.None? ==> r.None?
    ensures r.Some? ==> r.value in Hints
    // otherwise the hint of the last user text, a missing transcript reading as ""
    ensures input.Some? ==> r == HintFor(ReadLastUserText(input.value))
  {
    match input
    case None => None
    case Some(transcript) =>
      var msg := HintFor(ReadLastUserText(transcript));
      if msg.Some? then Some(msg.value) else None
  }

  /** After `/plan <key>` as the last user message the hook suggests
      `/execute`. */
  lemma AfterPlan(before: seq<Event>, key: string)
    requires Smooth(before) && Line("/plan " + key)
    ensures Main(Some(Some(before + [Entry(Msg("user", Str("/plan " + key)))]))) == Some(Hints[1])
  {
    var line := "/plan " + key;
    var e := Entry(Msg("user", Str(line)));
    assert before + [e] == before + [e] + [];
    LastUserWins(before, e, [], "");
    TrimOfLine(line);
    assert Commands[1] + (" " + key) == line;
    CommandHints(1, " " + key);
  }
}

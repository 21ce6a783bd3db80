/**
  The decoder against the event stream format of the HTML standard (section 9.2.6, "Interpreting an event stream"):
  which lines there are, which events they dispatch, and which reconnection times they set.
 */
module SseFormat {
  import opened Lists
  import opened Text
  import opened Sse
  import opened SseEvents

  // ---- the format ----------------------------------------------------------

  /** A final line break, CR included, ends a line and starts no other. */
  function FormatLines(s: string): seq<string> { DropBlank(Split(Normalise(s)), false) }

  datatype Message = Message(event: string, data: string, id: string)

  /** The buffers of the format; `data` has a newline after each value. */
  datatype Stream = Stream(event: string, data: string, id: string, messages: seq<Message>)

  /** One line: a blank one dispatches if there is data, and an unfinished event is never dispatched. */
  function FormatStep(f: Stream, line: string): Stream {
    var name, value := FieldName(line), FieldValue(line);
    if line == "" then
      if f.data == "" then f.(event := "")
      else
        var message := Message(if f.event == "" then "message" else f.event, f.data[..|f.data| - 1], f.id);
        Stream("", "", f.id, f.messages + [message])
    else if line[0] == ':' then f
    else if name == "event" then f.(event := value)
    else if name == "data" then f.(data := f.data + value + "\n")
    else if name == "id" && '\0' !in value then f.(id := value)
    else f
  }

  function FormatFold(lines: seq<string>): Stream {
    if lines == [] then Stream("", "", "", [])
    else FormatStep(FormatFold(lines[..|lines| - 1]), lines[|lines| - 1])
  }

  // ---- lines ---------------------------------------------------------------

  /** The decoder's lines are those of the format, with a blank one more exactly after a final CR. */
  lemma LinesBeyondFormat(s: string)
    ensures StreamLines(s) == FormatLines(s) + if EndsInCr(s) then [""] else []
    ensures StreamLines(s) == FormatLines(s) <==> !EndsInCr(s)
  {
    if EndsInCr(s) {
      FinalCr(s);
    }
  }

  /** After a final CR the event in progress, if any, is dispatched as well. */
  lemma EventsBeyondLines(s: string, limit: Option<nat>, parseInt: string -> Option<int>)
    ensures var f := Fold(EMPTY, FormatLines(s), limit, parseInt);
      Fold(EMPTY, StreamLines(s), limit, parseInt).events
        == f.events + if EndsInCr(s) && !f.failed && f.draft.pending then [Complete(f.draft)] else []
  {
    LinesBeyondFormat(s);
    BlankLine(FormatLines(s), limit, parseInt);
  }

  lemma BlankLine(lines: seq<string>, limit: Option<nat>, parseInt: string -> Option<int>)
    ensures var f := Fold(EMPTY, lines, limit, parseInt);
      Fold(EMPTY, lines + [""], limit, parseInt).events
        == f.events + if !f.failed && f.draft.pending then [Complete(f.draft)] else []
    ensures lines + [] == lines
  {
    assert (lines + [""])[..|lines|] == lines;
  }

  // ---- events --------------------------------------------------------------

  /** What a receiver of the format sees of the program's events. */
  function Heard(events: seq<Event>): (ms: seq<Message>)
    ensures |ms| == |events|
  {
    if events == [] then []
    else
      var e := events[|events| - 1];
      Heard(events[..|events| - 1]) + [Message(e.event, e.data, e.id)]
  }

  lemma HeardMore(events: seq<Event>, e: Event)
    ensures Heard(events + [e]) == Heard(events) + [Message(e.event, e.data, e.id)]
  {
    assert (events + [e])[..|events|] == events;
  }

  /** A blank line finds an event in progress that has no data line. */
  predicate Dataless(d: Draft, line: string) { line == "" && d.pending && d.data == [] }

  /** How many events without data the program dispatches. */
  function DatalessCount(lines: seq<string>, parseInt: string -> Option<int>): nat {
    if lines == [] then 0
    else
      var before, line := lines[..|lines| - 1], lines[|lines| - 1];
      DatalessCount(before, parseInt) + if Dataless(Fold(EMPTY, before, None, parseInt).draft, line) then 1 else 0
  }

  /** The events the program dispatches with data. */
  function WithData(lines: seq<string>, parseInt: string -> Option<int>): seq<Event> {
    if lines == [] then []
    else
      var before, line := lines[..|lines| - 1], lines[|lines| - 1];
      var d := Fold(EMPTY, before, None, parseInt).draft;
      WithData(before, parseInt) + if line == "" && d.pending && d.data != [] then [Complete(d)] else []
  }

  /** The draft of the program and the buffers of the format hold the same. */
  ghost predicate Same(d: Draft, f: Stream) {
    && f.event == d.event && f.id == d.lastId
    && f.data == (if d.data == [] then "" else JoinLines(d.data) + "\n")
    && (!d.pending ==> d.event == "" && d.data == [])
  }

  lemma DataLine(data: seq<string>, value: string)
    ensures JoinLines(data + [value]) == if data == [] then value else JoinLines(data) + "\n" + value
  {
    assert (data + [value])[..|data|] == data;
  }

  lemma {:induction false} SameStep(d: Draft, f: Stream, line: string, parseInt: string -> Option<int>)
    requires Same(d, f)
    ensures Same(OneLine(d, line, None, parseInt).draft, FormatStep(f, line))
  {
    if line == "" {
      SameBlank(d, f, parseInt);
    } else if line[0] == ':' {
      assert OneLine(d, line, None, parseInt).draft == d && FormatStep(f, line) == f;
    } else {
      var counted := d.(size := d.size + ByteLen(line));
      assert OneLine(d, line, None, parseInt).draft == Field(counted, line, parseInt);
      SameField(counted, f, line, parseInt);
    }
  }

  lemma {:induction false} SameBlank(d: Draft, f: Stream, parseInt: string -> Option<int>)
    requires Same(d, f)
    ensures Same(OneLine(d, "", None, parseInt).draft, FormatStep(f, ""))
  {
  }

  lemma SameField(d: Draft, f: Stream, line: string, parseInt: string -> Option<int>)
    requires Same(d, f) && line != "" && line[0] != ':'
    ensures Same(Field(d, line, parseInt), FormatStep(f, line))
  {
    if FieldName(line) == "data" {
      DataLine(d.data, FieldValue(line));
    }
  }

  lemma MessageStep(d: Draft, f: Stream, line: string)
    requires Same(d, f)
    ensures FormatStep(f, line).messages == f.messages
      + if line == "" && d.pending && d.data != [] then [Message(Complete(d).event, Complete(d).data, d.lastId)] else []
  {
  }

  /** The messages of the format are exactly the program's events with data. */
  lemma {:induction false} MessagesHaveData(lines: seq<string>, parseInt: string -> Option<int>)
    ensures Same(Fold(EMPTY, lines, None, parseInt).draft, FormatFold(lines))
    ensures FormatFold(lines).messages == Heard(WithData(lines, parseInt))
  {
    if lines != [] {
      var before, line := lines[..|lines| - 1], lines[|lines| - 1];
      var d, f := Fold(EMPTY, before, None, parseInt).draft, FormatFold(before);
      MessagesHaveData(before, parseInt);
      NeverTooLarge(EMPTY, before, parseInt);
      SameStep(d, f, line, parseInt);
      MessageStep(d, f, line);
      var kept := WithData(before, parseInt);
      if line == "" && d.pending && d.data != [] {
        HeardMore(kept, Complete(d));
      } else {
        assert kept + [] == kept && f.messages + [] == f.messages;
      }
    }
  }

  /** The program's events are those with data, and those without it in between. */
  lemma {:induction false} EventsCount(lines: seq<string>, parseInt: string -> Option<int>)
    ensures var events := Fold(EMPTY, lines, None, parseInt).events;
      && |events| == |WithData(lines, parseInt)| + DatalessCount(lines, parseInt)
      && (DatalessCount(lines, parseInt) == 0 ==> events == WithData(lines, parseInt))
  {
    if lines != [] {
      EventsCount(lines[..|lines| - 1], parseInt);
      NeverTooLarge(EMPTY, lines[..|lines| - 1], parseInt);
    }
  }

  /**
    The program's events are those of the format if and only if no event without data is dispatched, and no CR ends
    the stream inside an event.
   */
  lemma FormatExactly(s: string, parseInt: string -> Option<int>)
    ensures var lines := FormatLines(s);
      (Heard(Fold(EMPTY, StreamLines(s), None, parseInt).events) == FormatFold(lines).messages)
      <==> (DatalessCount(lines, parseInt) == 0 && !(EndsInCr(s) && Fold(EMPTY, lines, None, parseInt).draft.pending))
  {
    var lines := FormatLines(s);
    var events := Fold(EMPTY, lines, None, parseInt).events;
    EventsBeyondLines(s, None, parseInt);
    NeverTooLarge(EMPTY, lines, parseInt);
    EventsCount(lines, parseInt);
    MessagesHaveData(lines, parseInt);
    assert events + [] == events;
  }

  // ---- reconnection times --------------------------------------------------

  predicate Digits(value: string) { value != "" && forall i :: 0 <= i < |value| ==> '0' <= value[i] <= '9' }

  function Number(value: string): nat
    requires forall i :: 0 <= i < |value| ==> '0' <= value[i] <= '9'
  {
    if value == "" then 0 else 10 * Number(value[..|value| - 1]) + (value[|value| - 1] as int - '0' as int)
  }

  /** The reconnection time a line sets, by the format and by the program. */
  function FormatTime(line: string): Option<int> {
    if FieldName(line) == "retry" && Digits(FieldValue(line)) then Some(Number(FieldValue(line))) else None
  }

  function ProgramTime(line: string, parseInt: string -> Option<int>): Option<int> {
    if FieldName(line) == "retry" then parseInt(FieldValue(line)) else None
  }

  /** The draft's time changes exactly with the lines that set one, until the event is dispatched. */
  lemma TimeIsSet(d: Draft, line: string, parseInt: string -> Option<int>)
    ensures var t := OneLine(d, line, None, parseInt).draft.retry;
      t == if ProgramTime(line, parseInt).Some? then ProgramTime(line, parseInt)
           else if line == "" && d.pending then None else d.retry
  {
  }

  /** The times set by the lines of a stream, in order. */
  function Times(lines: seq<string>, time: string -> Option<int>): seq<int> {
    if lines == [] then []
    else
      var t := time(lines[|lines| - 1]);
      Times(lines[..|lines| - 1], time) + if t.Some? then [t.value] else []
  }

  /**
    The times set are those of the format, at every point of the stream, if and only if `int` takes exactly the retry
    values that are all digits, each for its number.
   */
  lemma TimesExactly(lines: seq<string>, parseInt: string -> Option<int>)
    ensures (forall k: nat :: k <= |lines| ==>
        Times(lines[..k], l => ProgramTime(l, parseInt)) == Times(lines[..k], FormatTime))
      <==> (forall i :: 0 <= i < |lines| ==> ProgramTime(lines[i], parseInt) == FormatTime(lines[i]))
  {
    var program := l => ProgramTime(l, parseInt);
    if forall i :: 0 <= i < |lines| ==> ProgramTime(lines[i], parseInt) == FormatTime(lines[i]) {
      forall k: nat | k <= |lines| ensures Times(lines[..k], program) == Times(lines[..k], FormatTime) {
        SameTimes(lines[..k], program, FormatTime);
      }
    } else {
      var i :| 0 <= i < |lines| && ProgramTime(lines[i], parseInt) != FormatTime(lines[i]);
      OtherTimes(lines, i, program, FormatTime);
    }
  }

  lemma {:induction false} SameTimes(lines: seq<string>, a: string -> Option<int>, b: string -> Option<int>)
    requires forall i :: 0 <= i < |lines| ==> a(lines[i]) == b(lines[i])
    ensures Times(lines, a) == Times(lines, b)
  {
    if lines != [] {
      SameTimes(lines[..|lines| - 1], a, b);
    }
  }

  lemma OtherTimes(lines: seq<string>, i: nat, a: string -> Option<int>, b: string -> Option<int>)
    requires i < |lines| && a(lines[i]) != b(lines[i])
    ensures exists k: nat :: k <= |lines| && Times(lines[..k], a) != Times(lines[..k], b)
  {
    var before := lines[..i];
    TimesMore(before, lines[i], a);
    TimesMore(before, lines[i], b);
    assert lines[..i + 1] == before + [lines[i]];
    if Times(before, a) == Times(before, b) {
      OneDiffers(Times(before, a), a(lines[i]), b(lines[i]));
      assert Times(lines[..i + 1], a) != Times(lines[..i + 1], b);
    }
  }

  lemma TimesMore(lines: seq<string>, line: string, time: string -> Option<int>)
    ensures Times(lines + [line], time) == Times(lines, time) + if time(line).Some? then [time(line).value] else []
  {
    assert (lines + [line])[..|lines|] == lines;
  }

  lemma OneDiffers(times: seq<int>, a: Option<int>, b: Option<int>)
    requires a != b
    ensures times + (if a.Some? then [a.value] else []) != times + (if b.Some? then [b.value] else [])
  {
    var x, y := times + (if a.Some? then [a.value] else []), times + (if b.Some? then [b.value] else []);
    assert |x| == |y| ==> x[|times|] != y[|times|];
  }

  // ---- inputs on which the two differ --------------------------------------

  lemma {:induction false} ColonAt(line: string, n: nat)
    requires n < |line| && line[n] == ':' && forall i :: 0 <= i < n ==> line[i] != ':'
    ensures Colon(line) == n
  {
    if n > 0 {
      ColonAt(line[1..], n - 1);
    }
  }

  lemma {:induction false} NothingToNormalise(s: string)
    requires '\r' !in s
    ensures Normalise(s) == s
  {
    if s != "" {
      NothingToNormalise(s[1..]);
      assert s == [s[0]] + s[1..];
    }
  }

  /** A stream of one line that ends in CR. */
  lemma LinesOfOne(line: string)
    requires '\r' !in line && '\n' !in line
    ensures FormatLines(line + "\r") == [line]
  {
    assert Body(line + "\r") == line;
    NothingToNormalise(line);
    SplitParts(line);
    FinalCr(line + "\r");
  }

  /** A stream of one line and a blank one. */
  lemma LinesOfBlock(line: string)
    requires '\r' !in line && '\n' !in line
    ensures FormatLines(line + "\n" + "\n") == [line, ""]
  {
    var s := line + "\n" + "\n";
    NothingToNormalise(s);
    SplitParts(line);
    assert s[..|s| - 1] == line + "\n" && (line + "\n")[..|line|] == line;
    assert Split(line + "\n") == [line] + [""];
    assert Split(s) == [line] + [""] + [""];
  }

  lemma OneDataLine(value: string, parseInt: string -> Option<int>)
    ensures var f := Fold(EMPTY, ["data: " + value], None, parseInt);
      f.events == [] && !f.failed && f.draft.pending && Complete(f.draft) == Event("message", value, "", None)
    ensures FormatFold(["data: " + value]).messages == []
  {
    var line := "data: " + value;
    ColonAt(line, 4);
    assert FieldName(line) == "data" && FieldValue(line) == value;
    assert [line][..0] == [] && [value][..0] == [] && [] + [value] == [value];
  }

  /** A stream cut off after the CR of the CR LF that ends "data: value": the unfinished event is dispatched. */
  lemma UnfinishedEventDispatched(value: string, parseInt: string -> Option<int>)
    requires '\r' !in value && '\n' !in value
    ensures var s := "data: " + value + "\r";
      && FormatFold(FormatLines(s)).messages == []
      && Fold(EMPTY, StreamLines(s), None, parseInt).events == [Event("message", value, "", None)]
  {
    var line := "data: " + value;
    LinesOfOne(line);
    OneDataLine(value, parseInt);
    EventsBeyondLines(line + "\r", None, parseInt);
  }

  /** A field line that puts an event in progress without data, and a blank line. */
  lemma DatalessBlock(line: string, parseInt: string -> Option<int>)
    requires '\r' !in line && '\n' !in line && line != "" && line[0] != ':'
    requires FieldName(line) == "event" || (FieldName(line) == "retry" && parseInt(FieldValue(line)).Some?)
    ensures var s := line + "\n" + "\n";
      && FormatFold(FormatLines(s)).messages == []
      && Fold(EMPTY, StreamLines(s), None, parseInt).events
        == [Complete(Field(EMPTY.(size := ByteLen(line)), line, parseInt))]
  {
    var s := line + "\n" + "\n";
    LinesOfBlock(line);
    LinesBeyondFormat(s);
    assert FormatLines(s) + [] == [line, ""];
    BlockFolds(line, parseInt);
  }

  lemma BlockFolds(line: string, parseInt: string -> Option<int>)
    requires line != "" && line[0] != ':'
    requires FieldName(line) == "event" || (FieldName(line) == "retry" && parseInt(FieldValue(line)).Some?)
    ensures FormatFold([line, ""]).messages == []
    ensures Fold(EMPTY, [line, ""], None, parseInt).events
      == [Complete(Field(EMPTY.(size := ByteLen(line)), line, parseInt))]
  {
    FormatOfTwo(line, "");
    BlockDispatches(line, parseInt);
  }

  lemma {:induction false} BlockDispatches(line: string, parseInt: string -> Option<int>)
    requires line != "" && line[0] != ':' && Field(EMPTY.(size := ByteLen(line)), line, parseInt).pending
    ensures Fold(EMPTY, [line, ""], None, parseInt).events
      == [Complete(Field(EMPTY.(size := ByteLen(line)), line, parseInt))]
  {
    FoldOfTwo(line, "", parseInt);
    var d := Field(EMPTY.(size := ByteLen(line)), line, parseInt);
    assert OneLine(EMPTY, line, None, parseInt) == SseEvents.Step(d, Quiet);
    BlankDispatches(d, parseInt);
  }

  lemma {:induction false} BlankDispatches(d: Draft, parseInt: string -> Option<int>)
    requires d.pending
    ensures NextLine(Outcome(d, [], false), "", None, parseInt).events == [Complete(d)]
  {
    assert [] + [Complete(d)] == [Complete(d)];
  }

  lemma FoldOfOne(line: string, parseInt: string -> Option<int>)
    ensures Fold(EMPTY, [line], None, parseInt) == NextLine(Outcome(EMPTY, [], false), line, None, parseInt)
  {
    assert [line][..0] == [];
  }

  lemma FoldOfTwo(a: string, b: string, parseInt: string -> Option<int>)
    ensures Fold(EMPTY, [a, b], None, parseInt)
      == NextLine(NextLine(Outcome(EMPTY, [], false), a, None, parseInt), b, None, parseInt)
  {
    FoldOfOne(a, parseInt);
    assert [a, b][..1] == [a];
  }

  lemma FormatOfTwo(a: string, b: string)
    ensures FormatFold([a, b]) == FormatStep(FormatStep(Stream("", "", "", []), a), b)
  {
    assert FormatFold([a]) == FormatStep(Stream("", "", "", []), a) by { assert [a][..0] == []; }
    var lines := [a, b];
    assert lines[..1] == [a] && lines[|lines| - 1] == b;
  }

  /** An event field alone dispatches an event without data, which the format drops. */
  lemma EventWithoutData(name: string, parseInt: string -> Option<int>)
    requires '\r' !in name && '\n' !in name && name != ""
    ensures var s := "event: " + name + "\n" + "\n";
      && FormatFold(FormatLines(s)).messages == []
      && Fold(EMPTY, StreamLines(s), None, parseInt).events == [Event(name, "", "", None)]
  {
    var line := "event: " + name;
    ColonAt(line, 5);
    assert FieldName(line) == "event" && FieldValue(line) == name;
    DatalessBlock(line, parseInt);
  }

  /** A retry value that `int` takes and that is not all digits, such as "-5": the format ignores it. */
  lemma OddRetry(value: string, n: int, parseInt: string -> Option<int>)
    requires '\r' !in value && '\n' !in value && !Digits(value) && parseInt(value) == Some(n)
    ensures FormatTime("retry: " + value) == None && ProgramTime("retry: " + value, parseInt) == Some(n)
    ensures var s := "retry: " + value + "\n" + "\n";
      && FormatFold(FormatLines(s)).messages == []
      && Fold(EMPTY, StreamLines(s), None, parseInt).events == [Event("message", "", "", Some(n))]
  {
    var line := "retry: " + value;
    ColonAt(line, 5);
    assert FieldName(line) == "retry" && FieldValue(line) == value;
    DatalessBlock(line, parseInt);
  }

  // ---- the byte order mark -------------------------------------------------

  const MARK: string := "\U{FEFF}"

  /** The first line of a marked stream names no field the program knows, so it is ignored. */
  lemma MarkedLineIgnored(line: string, rest: seq<string>, parseInt: string -> Option<int>)
    ensures Fold(EMPTY, [MARK + line] + rest, None, parseInt).events == Fold(EMPTY, rest, None, parseInt).events
  {
    var first: string := MARK + line;
    MarkedIsUnknown(line);
    FoldOfOne(first, parseInt);
    assert Field(EMPTY.(size := ByteLen(first)), first, parseInt) == EMPTY.(size := ByteLen(first));
    var f := Fold(EMPTY, [first], None, parseInt);
    assert f == Outcome(EMPTY.(size := ByteLen(first)), [], false);
    FoldConcat(EMPTY, [first], rest, None, parseInt);
    SizeIsOnlyCounted(EMPTY, ByteLen(first), rest, parseInt);
  }

  /**
    A stream that begins with a mark: the program's events are those of the lines after the first, while the format
    drops the mark and reads them all.
   */
  lemma MarkedStream(s: string, parseInt: string -> Option<int>)
    ensures var lines := StreamLines(s);
      Fold(EMPTY, StreamLines(MARK + s), None, parseInt).events
        == Fold(EMPTY, if lines == [] then [] else lines[1..], None, parseInt).events
  {
    MarkedLines(s);
    var lines := StreamLines(s);
    MarkedLineIgnored(Split(Normalise(s))[0], if lines == [] then [] else lines[1..], parseInt);
  }

  lemma {:induction false} MarkedLines(s: string)
    ensures var lines := StreamLines(s);
      StreamLines(MARK + s) == [MARK + Split(Normalise(s))[0]] + if lines == [] then [] else lines[1..]
  {
    MarkedParts(s);
    OtherFirst(Split(Normalise(s)), MARK + Split(Normalise(s))[0], EndsInCr(s));
  }

  lemma {:induction false} OtherFirst(parts: seq<string>, first: string, keep: bool)
    requires parts != [] && first != ""
    ensures var lines := DropBlank(parts, keep);
      DropBlank([first] + parts[1..], keep) == [first] + if lines == [] then [] else lines[1..]
  {
    if |parts| == 1 {
      assert [first] + parts[1..] == [first] && parts[..0] == [] && parts[1..] == [];
    } else {
      var n, marked := |parts| - 1, [first] + parts[1..];
      assert marked[n] == parts[n];
      assert marked[..n] == [first] + parts[1..n] && parts[..n][1..] == parts[1..n];
    }
  }

  lemma {:induction false} MarkedParts(s: string)
    ensures var parts := Split(Normalise(s));
      && Split(Normalise(MARK + s)) == [MARK + parts[0]] + parts[1..]
      && MARK + parts[0] != "" && EndsInCr(MARK + s) == EndsInCr(s)
  {
    assert MARK[0] == '\U{FEFF}';
    MarkAlone();
    NormaliseConcat(MARK, s);
    SplitConcat(MARK, Normalise(s));
    assert s != "" ==> (MARK + s)[|MARK + s| - 1] == s[|s| - 1];
  }

  lemma MarkAlone()
    ensures Normalise(MARK) == MARK && Split(MARK) == [MARK]
  {
    assert '\r' !in MARK && '\n' !in MARK;
    NothingToNormalise(MARK);
    SplitParts(MARK);
  }

  lemma MarkedIsUnknown(line: string)
    ensures var first := MARK + line;
      && first != "" && first[0] != ':'
      && FieldName(first) != "event" && FieldName(first) != "data" && FieldName(first) != "id"
      && FieldName(first) != "retry"
  {
    var first := MARK + line;
    assert first[0] == '\U{FEFF}';
    var name := FieldName(first);
    assert name != "" && name[0] == first[0];
    assert "event"[0] == 'e' && "data"[0] == 'd' && "id"[0] == 'i' && "retry"[0] == 'r';
  }

  /** Without a limit the size plays no part. */
  lemma {:induction false} SizeIsOnlyCounted(d: Draft, n: nat, lines: seq<string>, parseInt: string -> Option<int>)
    ensures SameButSize(Fold(d, lines, None, parseInt), Fold(d.(size := n), lines, None, parseInt))
  {
    if lines != [] {
      var before, line := lines[..|lines| - 1], lines[|lines| - 1];
      SizeIsOnlyCounted(d, n, before, parseInt);
      SizeInLine(Fold(d, before, None, parseInt), Fold(d.(size := n), before, None, parseInt), line, parseInt);
    }
  }

  ghost predicate SameButSize(a: Outcome, b: Outcome) {
    !a.failed && !b.failed && a.events == b.events && b.draft == a.draft.(size := b.draft.size)
  }

  lemma {:induction false} SizeInLine(a: Outcome, b: Outcome, line: string, parseInt: string -> Option<int>)
    requires SameButSize(a, b)
    ensures SameButSize(NextLine(a, line, None, parseInt), NextLine(b, line, None, parseInt))
  {
  }
}

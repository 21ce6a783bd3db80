/** From lines to events (`_SSEEventDecoder` and `_SSEParser` in `_sse.py`), and the size limit on both. */
module SseEvents {
  import opened Lists
  import opened Text
  import opened Sse

  datatype Event = Event(event: string, data: string, id: string, retry: Option<int>)

  /** The event being put together. `size` counts the bytes of its field lines. */
  datatype Draft = Draft(event: string, data: seq<string>, size: nat, lastId: string, retry: Option<int>, pending: bool)

  const EMPTY := Draft("", [], 0, "", None, false)

  datatype LineResult = Quiet | Dispatch(event: Event) | TooLarge

  /** `str.join` with newlines. */
  function JoinLines(lines: seq<string>): string {
    if lines == [] then ""
    else if |lines| == 1 then lines[0]
    else JoinLines(lines[..|lines| - 1]) + "\n" + lines[|lines| - 1]
  }

  /** Position of the first colon, or the length. */
  function Colon(line: string): (n: nat)
    ensures n <= |line| && (n < |line| ==> line[n] == ':') && forall i :: 0 <= i < n ==> line[i] != ':'
  {
    if line == "" || line[0] == ':' then 0 else 1 + Colon(line[1..])
  }

  function FieldName(line: string): string { line[..Colon(line)] }

  /** The text after the first colon, without one leading space. */
  function FieldValue(line: string): string {
    var rest := if Colon(line) == |line| then "" else line[Colon(line) + 1..];
    if rest != "" && rest[0] == ' ' then rest[1..] else rest
  }

  predicate Exceeds(limit: Option<nat>, size: nat) { limit.Some? && size > limit.value }

  datatype Step = Step(draft: Draft, result: LineResult)

  /** A field line whose size has been counted. `parseInt` is Python's `int`, with `None` for `ValueError`. */
  function Field(d: Draft, line: string, parseInt: string -> Option<int>): Draft {
    var name, value := FieldName(line), FieldValue(line);
    if name == "event" then d.(event := value, pending := true)
    else if name == "data" then d.(data := d.data + [value], pending := true)
    else if name == "id" then (if '\0' in value then d else d.(lastId := value, pending := true))
    else if name == "retry" then (if parseInt(value).None? then d else d.(retry := parseInt(value), pending := true))
    else d
  }

  function Complete(d: Draft): Event {
    Event(if d.event == "" then "message" else d.event, JoinLines(d.data), d.lastId, d.retry)
  }

  function OneLine(d: Draft, line: string, limit: Option<nat>, parseInt: string -> Option<int>): Step {
    if line == "" then
      if !d.pending then Step(d.(size := 0), Quiet)
      else Step(Draft("", [], 0, d.lastId, None, false), Dispatch(Complete(d)))
    else if line[0] == ':' then Step(d, Quiet)
    else
      var counted := d.(size := d.size + ByteLen(line));
      if Exceeds(limit, counted.size) then Step(counted, TooLarge) else Step(Field(counted, line, parseInt), Quiet)
  }

  datatype Outcome = Outcome(draft: Draft, events: seq<Event>, failed: bool)

  /** The fold over lines; it ends at the first line that makes the event too large. */
  function Fold(d: Draft, lines: seq<string>, limit: Option<nat>, parseInt: string -> Option<int>): Outcome {
    if lines == [] then Outcome(d, [], false)
    else
      NextLine(Fold(d, lines[..|lines| - 1], limit, parseInt), lines[|lines| - 1], limit, parseInt)
  }

  function NextLine(before: Outcome, line: string, limit: Option<nat>, parseInt: string -> Option<int>): Outcome {
    if before.failed then before
    else
      var step := OneLine(before.draft, line, limit, parseInt);
      match step.result
      case Quiet => before.(draft := step.draft)
      case Dispatch(e) => before.(draft := step.draft, events := before.events + [e])
      case TooLarge => before.(draft := step.draft, failed := true)
  }

  /** Events dispatched earlier do not change what a line does. */
  lemma NextLineAfter(earlier: seq<Event>, o: Outcome, line: string, limit: Option<nat>,
                                         parseInt: string -> Option<int>)
    ensures var n := NextLine(o, line, limit, parseInt);
      NextLine(o.(events := earlier + o.events), line, limit, parseInt) == n.(events := earlier + n.events)
  {
    var step := OneLine(o.draft, line, limit, parseInt);
    if step.result.Dispatch? {
      Associates(earlier, o.events, [step.result.event]);
    }
  }

  lemma {:induction false} FoldConcat(d: Draft, a: seq<string>, b: seq<string>, limit: Option<nat>,
      parseInt: string -> Option<int>)
    requires !Fold(d, a, limit, parseInt).failed
    ensures var f, g := Fold(d, a, limit, parseInt), Fold(Fold(d, a, limit, parseInt).draft, b, limit, parseInt);
      Fold(d, a + b, limit, parseInt) == Outcome(g.draft, f.events + g.events, g.failed)
  {
    if b == [] {
      assert a + b == a;
    } else {
      var f := Fold(d, a, limit, parseInt);
      FoldConcat(d, a, b[..|b| - 1], limit, parseInt);
      assert (a + b)[..|a + b| - 1] == a + b[..|b| - 1];
      NextLineAfter(f.events, Fold(f.draft, b[..|b| - 1], limit, parseInt), b[|b| - 1], limit, parseInt);
    }
  }

  /** Without a limit nothing is too large. */
  lemma {:induction false} NeverTooLarge(d: Draft, lines: seq<string>, parseInt: string -> Option<int>)
    ensures !Fold(d, lines, None, parseInt).failed
  {
    if lines != [] {
      NeverTooLarge(d, lines[..|lines| - 1], parseInt);
    }
  }

  // ---- the size of an event ------------------------------------------------

  /** Bytes of the data lines with one newline each. */
  function DataCost(lines: seq<string>): nat {
    if lines == [] then 0 else DataCost(lines[..|lines| - 1]) + ByteLen(lines[|lines| - 1]) + 1
  }

  lemma {:induction false} JoinedSize(lines: seq<string>)
    ensures lines != [] ==> ByteLen(JoinLines(lines)) + 1 == DataCost(lines)
    ensures lines == [] ==> JoinLines(lines) == ""
  {
    if |lines| == 1 {
      assert lines[..0] == [];
    } else if |lines| > 1 {
      var init, last := lines[..|lines| - 1], lines[|lines| - 1];
      JoinedSize(init);
      ByteLenConcat(JoinLines(init) + "\n", last);
      ByteLenConcat(JoinLines(init), "\n");
      assert "\n"[..0] == "";
      assert ByteLen("\n") == 1;
    }
  }

  /** A field line is longer than the value taken from it. */
  lemma ValueFits(line: string)
    requires FieldName(line) != ""
    ensures ByteLen(FieldValue(line)) + 1 <= ByteLen(line)
  {
    var n := Colon(line);
    ByteLenSplit(line, n);
    ByteLenPositive(line[..n]);
    if n < |line| {
      ByteLenSplit(line, n + 1);
      var after := line[n + 1..];
      if after != "" && after[0] == ' ' {
        ByteLenSplit(after, 1);
      }
    }
  }

  lemma ByteLenSplit(s: string, n: nat)
    requires n <= |s|
    ensures ByteLen(s) == ByteLen(s[..n]) + ByteLen(s[n..])
  {
    assert s == s[..n] + s[n..];
    ByteLenConcat(s[..n], s[n..]);
  }

  lemma ByteLenPositive(s: string)
    requires s != ""
    ensures ByteLen(s) >= 1
  {
  }

  /** What holds of a draft until a line is too large: its data fits in what was counted, and that in the limit. */
  ghost predicate Bounded(d: Draft, limit: Option<nat>) {
    DataCost(d.data) <= d.size && (d.data != [] ==> d.pending) && !Exceeds(limit, d.size)
  }

  lemma OneLineBounded(d: Draft, line: string, limit: Option<nat>, parseInt: string -> Option<int>)
    requires Bounded(d, limit)
    ensures var s := OneLine(d, line, limit, parseInt);
      && (!s.result.TooLarge? ==> Bounded(s.draft, limit))
      && (s.result.Dispatch? && limit.Some? ==> ByteLen(s.result.event.data) <= limit.value)
  {
    if line == "" {
      JoinedSize(d.data);
    } else if line[0] != ':' && !Exceeds(limit, d.size + ByteLen(line)) {
      FieldBounded(d.(size := d.size + ByteLen(line)), d.size, line, limit, parseInt);
    }
  }

  lemma FieldBounded(d: Draft, before: nat, line: string, limit: Option<nat>, parseInt: string -> Option<int>)
    requires d.size == before + ByteLen(line) && !Exceeds(limit, d.size)
    requires DataCost(d.data) <= before && (d.data != [] ==> d.pending)
    ensures Bounded(Field(d, line, parseInt), limit)
  {
    if FieldName(line) == "data" {
      ValueFits(line);
      DataMore(d.data, FieldValue(line));
    }
  }

  lemma DataMore(lines: seq<string>, value: string)
    ensures DataCost(lines + [value]) == DataCost(lines) + ByteLen(value) + 1
  {
    assert (lines + [value])[..|lines|] == lines;
  }

  /** Every event dispatched under a limit has data within it, although joining adds newlines. */
  lemma {:induction false} FoldBounded(d: Draft, lines: seq<string>, limit: Option<nat>,
      parseInt: string -> Option<int>)
    requires Bounded(d, limit)
    ensures var f := Fold(d, lines, limit, parseInt);
      && (!f.failed ==> Bounded(f.draft, limit))
      && (limit.Some? ==> forall i :: 0 <= i < |f.events| ==> ByteLen(f.events[i].data) <= limit.value)
  {
    if lines != [] {
      FoldBounded(d, lines[..|lines| - 1], limit, parseInt);
      var before := Fold(d, lines[..|lines| - 1], limit, parseInt);
      if !before.failed {
        OneLineBounded(before.draft, lines[|lines| - 1], limit, parseInt);
      }
    }
  }

  /** More lines after those decoded so far, and the events they dispatch. */
  lemma FoldOn(done: seq<string>, more: seq<string>, limit: Option<nat>, parseInt: string -> Option<int>)
    requires !Fold(EMPTY, done, limit, parseInt).failed
    ensures var f := Fold(EMPTY, done, limit, parseInt); var g := Fold(f.draft, more, limit, parseInt);
      && Fold(EMPTY, done + more, limit, parseInt) == Outcome(g.draft, f.events + g.events, g.failed)
      && (limit.Some? ==> forall i :: 0 <= i < |g.events| ==> ByteLen(g.events[i].data) <= limit.value)
  {
    FoldConcat(EMPTY, done, more, limit, parseInt);
    FoldBounded(EMPTY, done, limit, parseInt);
    FoldBounded(Fold(EMPTY, done, limit, parseInt).draft, more, limit, parseInt);
  }

  // ---- the decoder objects -------------------------------------------------

  class EventDecoder {
    const maxEventSize: Option<nat>
    const parseInt: string -> Option<int>
    var event: string
    var data: seq<string>
    var eventSize: nat
    var lastEventId: string
    var retry: Option<int>
    var pending: bool

    function View(): Draft
      reads this
    {
      Draft(event, data, eventSize, lastEventId, retry, pending)
    }

    constructor (maxEventSize: Option<nat>, parseInt: string -> Option<int>)
      ensures View() == EMPTY && this.maxEventSize == maxEventSize && this.parseInt == parseInt
    {
      this.maxEventSize, this.parseInt := maxEventSize, parseInt;
      event, data, eventSize, lastEventId, retry, pending := "", [], 0, "", None, false;
    }

    method Decode(line: string) returns (r: LineResult)
      modifies this
      ensures Step(View(), r) == OneLine(old(View()), line, maxEventSize, parseInt)
    {
      if line == "" {
        eventSize := 0;
        if !pending {
          return Quiet;
        }
        r := Dispatch(Event(if event != "" then event else "message", JoinLines(data), lastEventId, retry));
        event, data, retry, pending := "", [], None, false;
        return;
      }
      if line[0] == ':' {
        return Quiet;
      }
      eventSize := eventSize + ByteLen(line);
      if Exceeds(maxEventSize, eventSize) {
        return TooLarge;
      }
      var name, value := FieldName(line), FieldValue(line);
      if name == "event" {
        event, pending := value, true;
      } else if name == "data" {
        data, pending := data + [value], true;
      } else if name == "id" {
        if '\0' !in value {
          lastEventId, pending := value, true;
        }
      } else if name == "retry" {
        if parseInt(value).Some? {
          retry, pending := parseInt(value), true;
        }
      }
      return Quiet;
    }

    /** The unfinished line counts as well. */
    method CheckPending(pendingSize: nat) returns (ok: bool)
      ensures ok == !Exceeds(maxEventSize, eventSize + pendingSize)
    {
      ok := !Exceeds(maxEventSize, eventSize + pendingSize);
    }
  }

  class Parser {
    const events: EventDecoder
    const lines: LineDecoder

    /** After `text`, `out` has been emitted without error. */
    ghost predicate Parsed(text: string, done: seq<string>, out: seq<Event>)
      reads events, lines
    {
      && lines.Valid() && lines.Holds(text, done)
      && Fold(EMPTY, done, events.maxEventSize, events.parseInt) == Outcome(events.View(), out, false)
    }

    /** What is buffered stays within the limit: field bytes and unfinished line together. */
    ghost predicate WithinLimit()
      reads events, lines
    {
      && lines.pendingSize == ByteLen(Concat(lines.parts))
      && !Exceeds(events.maxEventSize, events.eventSize + lines.pendingSize)
    }

    constructor (maxEventSize: Option<nat>, parseInt: string -> Option<int>)
      ensures fresh(events) && fresh(lines) && Parsed("", [], []) && WithinLimit()
      ensures events.maxEventSize == maxEventSize && events.parseInt == parseInt
    {
      events := new EventDecoder(maxEventSize, parseInt);
      lines := new LineDecoder();
      new;
      assert Concat(lines.parts) == "" by {
        assert Split(Normalise(Body(""))) == [""];
        assert [] + [Concat(lines.parts)] == [Concat(lines.parts)];
      }
    }

    /** The lines are decoded one by one, up to the first that is too large. */
    method DecodeLines(ls: seq<string>) returns (out: seq<Event>, ok: bool)
      modifies events
      ensures Outcome(events.View(), out, !ok) == Fold(old(events.View()), ls, events.maxEventSize, events.parseInt)
    {
      out, ok := [], true;
      for i := 0 to |ls|
        invariant Outcome(events.View(), out, !ok)
          == Fold(old(events.View()), ls[..i], events.maxEventSize, events.parseInt)
        invariant ok
      {
        assert ls[..i + 1][..i] == ls[..i];
        var r := events.Decode(ls[i]);
        match r {
          case Quiet =>
          case Dispatch(e) => out := out + [e];
          case TooLarge =>
            FoldFailed(old(events.View()), ls, i + 1, events.maxEventSize, events.parseInt);
            return out, false;
        }
      }
      assert ls[..|ls|] == ls;
    }

    /** More lines: the events so far and these are the fold over all lines so far. */
    method DecodeMore(ls: seq<string>, ghost done: seq<string>, ghost before: seq<Event>)
        returns (out: seq<Event>, ok: bool)
      requires Fold(EMPTY, done, events.maxEventSize, events.parseInt) == Outcome(events.View(), before, false)
      modifies events
      ensures Fold(EMPTY, done + ls, events.maxEventSize, events.parseInt) == Outcome(events.View(), before + out, !ok)
      ensures events.maxEventSize.Some? ==>
        forall i :: 0 <= i < |out| ==> ByteLen(out[i].data) <= events.maxEventSize.value
      ensures events.maxEventSize.None? ==> ok
    {
      FoldOn(done, ls, events.maxEventSize, events.parseInt);
      if events.maxEventSize.None? { NeverTooLarge(events.View(), ls, events.parseInt); }
      out, ok := DecodeLines(ls);
    }

    /** One chunk. On success the limit holds of what is buffered; in any case every event emitted is within it. */
    method Decode(chunk: string, ghost text: string, ghost done: seq<string>, ghost before: seq<Event>)
        returns (out: seq<Event>, ok: bool, ghost more: seq<string>)
      requires Parsed(text, done, before)
      modifies events, lines
      ensures ok ==> Parsed(text + chunk, done + more, before + out) && WithinLimit()
      ensures events.maxEventSize.Some? ==>
        forall i :: 0 <= i < |out| ==> ByteLen(out[i].data) <= events.maxEventSize.value
      ensures events.maxEventSize.None? ==> ok
    {
      var ls := lines.Decode(chunk, text, done);
      more := ls;
      out, ok := DecodeMore(ls, done, before);
      if ok {
        ok := events.CheckPending(lines.pendingSize);
      }
    }

    /** The end of the stream: without an error, all events are those of the whole text. */
    method Flush(ghost text: string, ghost done: seq<string>, ghost before: seq<Event>)
        returns (out: seq<Event>, ok: bool)
      requires Parsed(text, done, before)
      modifies events, lines
      ensures Outcome(events.View(), before + out, !ok)
        == Fold(EMPTY, StreamLines(text), events.maxEventSize, events.parseInt)
      ensures events.maxEventSize.Some? ==>
        forall i :: 0 <= i < |out| ==> ByteLen(out[i].data) <= events.maxEventSize.value
    {
      ghost var all := StreamLines(text);
      var ls := lines.Flush(text, done);
      assert done + ls == all;
      out, ok := DecodeMore(ls, done, before);
    }
  }

  lemma {:induction false} FoldFailed(d: Draft, lines: seq<string>, k: nat, limit: Option<nat>,
      parseInt: string -> Option<int>)
    requires k <= |lines| && Fold(d, lines[..k], limit, parseInt).failed
    ensures Fold(d, lines, limit, parseInt) == Fold(d, lines[..k], limit, parseInt)
    decreases |lines| - k
  {
    if k == |lines| {
      assert lines[..k] == lines;
    } else {
      assert lines[..k + 1][..k] == lines[..k];
      FoldFailed(d, lines, k + 1, limit, parseInt);
    }
  }

  /**
    The events of a stream. Without a limit they are the fold over the lines of the whole text, however it is cut.
    Under a limit every event has data within it, and if no chunk is refused the result is that same fold.
   */
  method Events(chunks: seq<string>, limit: Option<nat>, parseInt: string -> Option<int>)
      returns (events: seq<Event>, ok: bool)
    ensures limit.None? ==> ok && events == Fold(EMPTY, StreamLines(Concat(chunks)), None, parseInt).events
    ensures ok ==> events == Fold(EMPTY, StreamLines(Concat(chunks)), limit, parseInt).events
    ensures limit.Some? ==> forall i :: 0 <= i < |events| ==> ByteLen(events[i].data) <= limit.value
  {
    var parser := new Parser(limit, parseInt);
    events, ok := [], true;
    ghost var done: seq<string> := [];
    for k := 0 to |chunks|
      invariant fresh(parser) && fresh(parser.events) && fresh(parser.lines)
      invariant parser.events.maxEventSize == limit && parser.events.parseInt == parseInt
      invariant ok && parser.Parsed(Concat(chunks[..k]), done, events)
      invariant limit.Some? ==> forall i :: 0 <= i < |events| ==> ByteLen(events[i].data) <= limit.value
    {
      ConcatStep(chunks, k);
      ghost var more;
      var out;
      out, ok, more := parser.Decode(chunks[k], Concat(chunks[..k]), done, events);
      events := events + out;
      if !ok {
        return;
      }
      done := done + more;
    }
    assert chunks[..|chunks|] == chunks;
    if limit.None? { NeverTooLarge(EMPTY, StreamLines(Concat(chunks)), parseInt); }
    var out;
    out, ok := parser.Flush(Concat(chunks), done, events);
    events := events + out;
  }
}

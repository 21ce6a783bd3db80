/**
  Message reassembly in the WebSocket background reader (`websockets/_api.py`): fragments are buffered until a
  message is finished, with a limit on the bytes buffered; control events pass in between (section 5.4 of RFC 6455).
 */
module WebSocket {
  import opened Lists
  import Text
  import Sse

  datatype Kind = TEXT | BINARY

  /** One character of a text message or one byte of a binary one. */
  datatype Unit = Char(c: char) | Octet(b: bv8)

  datatype Event =
    | Ping(payload: seq<bv8>, answered: bool)
    | Pong(payload: seq<bv8>)
    | CloseConnection(code: nat)
    | Message(kind: Kind, data: seq<Unit>, finished: bool)
    | Other(tag: nat)

  /** What is put on the queue of the user. */
  datatype Item = Received(kind: Kind, data: seq<Unit>) | Closed(code: nat) | Passed(tag: nat) | TooBig | NetworkError

  function UnitBytes(u: Unit): nat { if u.Char? then Sse.CharBytes(u.c) else 1 }

  /** Size in bytes, text as UTF-8. */
  function Size(data: seq<Unit>): nat {
    if data == [] then 0 else Size(data[..|data| - 1]) + UnitBytes(data[|data| - 1])
  }

  lemma {:induction false} SizeConcat(a: seq<Unit>, b: seq<Unit>)
    ensures Size(a + b) == Size(a) + Size(b)
  {
    if b == [] {
      assert a + b == a;
    } else {
      SizeConcat(a, b[..|b| - 1]);
      assert (a + b)[..|a + b| - 1] == a + b[..|b| - 1];
    }
  }

  // ---- the reference: data frames grouped into messages --------------------

  /** The data frames among the events. */
  function Frames(events: seq<Event>): (fs: seq<Event>)
    ensures forall i :: 0 <= i < |fs| ==> fs[i].Message?
  {
    if events == [] then []
    else Frames(events[..|events| - 1]) + (var e := events[|events| - 1]; if e.Message? then [e] else [])
  }

  /** The fragments since the last finished message. */
  function OpenGroup(frames: seq<Event>): (g: seq<Event>)
    requires forall i :: 0 <= i < |frames| ==> frames[i].Message?
    ensures forall i :: 0 <= i < |g| ==> g[i].Message?
  {
    if frames == [] || frames[|frames| - 1].finished then []
    else OpenGroup(frames[..|frames| - 1]) + [frames[|frames| - 1]]
  }

  /** A group of fragments as one message; its kind is that of the frame that finishes it. */
  function Join(group: seq<Event>): Item
    requires group != [] && forall i :: 0 <= i < |group| ==> group[i].Message?
  {
    Received(group[|group| - 1].kind, Data(group))
  }

  function Data(group: seq<Event>): seq<Unit>
    requires forall i :: 0 <= i < |group| ==> group[i].Message?
  {
    if group == [] then [] else Data(group[..|group| - 1]) + group[|group| - 1].data
  }

  /** The messages of a stream of data frames: every finished group, in order. */
  function Messages(frames: seq<Event>): seq<Item>
    requires forall i :: 0 <= i < |frames| ==> frames[i].Message?
  {
    if frames == [] then []
    else
      var before, last := frames[..|frames| - 1], frames[|frames| - 1];
      if last.finished then Messages(before) + [Join(OpenGroup(before) + [last])] else Messages(before)
  }

  // ---- what is queued ------------------------------------------------------

  /** The bytes buffered for the message in progress. */
  function Buffered(events: seq<Event>): nat { Size(Data(OpenGroup(Frames(events)))) }

  /** After `events`, `e` makes the message in progress too large. */
  predicate Overflows(events: seq<Event>, e: Event, limit: nat) {
    e.Message? && Buffered(events) + Size(e.data) > limit
  }

  /** `e` ends the reader in the middle of a batch: it overflows, or the answer to a ping cannot be written. */
  predicate Breaks(events: seq<Event>, e: Event, limit: nat) {
    Overflows(events, e, limit) || (e.Ping? && !e.answered)
  }

  predicate Broken(events: seq<Event>, limit: nat) {
    events != []
    && (Broken(events[..|events| - 1], limit) || Breaks(events[..|events| - 1], events[|events| - 1], limit))
  }

  /** What one event puts on the queue. */
  function Put(events: seq<Event>, e: Event, limit: nat): seq<Item> {
    if Broken(events, limit) then []
    else if Overflows(events, e, limit) then [TooBig]
    else
      match e
      case Message(_, _, _) => Finishes(events, e)
      case CloseConnection(code) => [Closed(code)]
      case Ping(_, answered) => if answered then [] else [NetworkError]
      case Pong(_) => []
      case Other(tag) => [Passed(tag)]
  }

  /** The queue after `events`. */
  function Queue(events: seq<Event>, limit: nat): seq<Item> {
    if events == [] then []
    else Queue(events[..|events| - 1], limit) + Put(events[..|events| - 1], events[|events| - 1], limit)
  }

  /** The events up to the one that ended the reader, or all of them. */
  function Accepted(events: seq<Event>, limit: nat): seq<Event> {
    if events == [] then []
    else if Broken(events, limit) then Accepted(events[..|events| - 1], limit)
    else events
  }

  function ReceivedOnly(q: seq<Item>): seq<Item> {
    if q == [] then []
    else ReceivedOnly(q[..|q| - 1]) + (if q[|q| - 1].Received? then [q[|q| - 1]] else [])
  }

  lemma {:induction false} ReceivedConcat(a: seq<Item>, b: seq<Item>)
    ensures ReceivedOnly(a + b) == ReceivedOnly(a) + ReceivedOnly(b)
  {
    if b == [] {
      assert a + b == a;
    } else {
      var init, last := b[..|b| - 1], b[|b| - 1];
      ReceivedConcat(a, init);
      assert (a + b)[..|a + b| - 1] == a + init;
      if last.Received? {
        Text.Associates(ReceivedOnly(a), ReceivedOnly(init), [last]);
      }
    }
  }

  /** The message a data frame finishes, if it finishes one. */
  function Finishes(events: seq<Event>, e: Event): seq<Item>
    requires e.Message?
  {
    if e.finished then [Join(OpenGroup(Frames(events)) + [e])] else []
  }

  lemma FramesMore(events: seq<Event>, e: Event)
    ensures Frames(events + [e]) == Frames(events) + (if e.Message? then [e] else [])
    ensures e.Message? ==>
      OpenGroup(Frames(events + [e])) == (if e.finished then [] else OpenGroup(Frames(events)) + [e])
    ensures e.Message? ==> Messages(Frames(events + [e])) == Messages(Frames(events)) + Finishes(events, e)
    ensures !e.Message? ==> Frames(events + [e]) == Frames(events)
  {
    assert (events + [e])[..|events|] == events;
    if e.Message? {
      var fs := Frames(events) + [e];
      assert fs[..|fs| - 1] == Frames(events);
    }
  }

  lemma DataMore(group: seq<Event>, e: Event)
    requires e.Message? && forall i :: 0 <= i < |group| ==> group[i].Message?
    ensures Data(group + [e]) == Data(group) + e.data
    ensures Size(Data(group + [e])) == Size(Data(group)) + Size(e.data)
  {
    assert (group + [e])[..|group|] == group;
    SizeConcat(Data(group), e.data);
  }

  /**
    The messages queued are, in order, the joined groups of the data frames accepted before the reader breaks off,
    however control events are interleaved.
   */
  lemma {:induction false} QueuedMessages(events: seq<Event>, limit: nat)
    ensures ReceivedOnly(Queue(events, limit)) == Messages(Frames(Accepted(events, limit)))
  {
    if events != [] {
      var before, e := events[..|events| - 1], events[|events| - 1];
      assert before + [e] == events;
      QueuedMessages(before, limit);
      ReceivedConcat(Queue(before, limit), Put(before, e, limit));
      AcceptedMore(before, e, limit);
    }
  }

  /** The messages one more event puts on the queue. */
  lemma PutReceived(events: seq<Event>, e: Event, limit: nat)
    ensures ReceivedOnly(Put(events, e, limit))
      == if e.Message? && !Broken(events, limit) && !Overflows(events, e, limit) then Finishes(events, e) else []
  {
    var put := Put(events, e, limit);
    if put != [] {
      assert put == [put[0]] && put[..0] == [];
    }
  }

  lemma AcceptedMore(before: seq<Event>, e: Event, limit: nat)
    ensures Messages(Frames(Accepted(before + [e], limit)))
      == Messages(Frames(Accepted(before, limit))) + ReceivedOnly(Put(before, e, limit))
  {
    PutReceived(before, e, limit);
    assert (before + [e])[..|before|] == before;
    if !Broken(before, limit) && !Breaks(before, e, limit) {
      FramesMore(before, e);
    }
  }

  /** No queued message exceeds the limit. */
  lemma {:induction false} QueuedWithinLimit(events: seq<Event>, limit: nat, i: nat)
    requires i < |Queue(events, limit)| && Queue(events, limit)[i].Received?
    ensures Size(Queue(events, limit)[i].data) <= limit
  {
    var before, e := events[..|events| - 1], events[|events| - 1];
    if i < |Queue(before, limit)| {
      QueuedWithinLimit(before, limit, i);
    } else if e.Message? && !Broken(before, limit) && !Overflows(before, e, limit) {
      DataMore(OpenGroup(Frames(before)), e);
    }
  }

  /** After an overflow or a failed answer nothing more is queued, and its notice is the last item. */
  lemma {:induction false} NothingAfterBreak(events: seq<Event>, more: seq<Event>, limit: nat)
    requires Broken(events, limit)
    ensures Broken(events + more, limit) && Queue(events + more, limit) == Queue(events, limit)
    ensures Queue(events, limit) != [] && Queue(events, limit)[|Queue(events, limit)| - 1] in {TooBig, NetworkError}
    decreases |events| + |more|
  {
    if more != [] {
      NothingAfterBreak(events, more[..|more| - 1], limit);
      assert (events + more)[..|events + more| - 1] == events + more[..|more| - 1];
    } else {
      assert events + more == events;
      var before := events[..|events| - 1];
      if Broken(before, limit) {
        NothingAfterBreak(before, [], limit);
        assert before + [] == before;
      }
    }
  }

  // ---- the reader ----------------------------------------------------------

  /** Some event so far ends the session. */
  predicate Stops(events: seq<Event>, limit: nat) {
    Broken(events, limit) || exists i :: 0 <= i < |events| && events[i].CloseConnection?
  }

  lemma StopsMore(events: seq<Event>, e: Event, limit: nat)
    ensures Stops(events + [e], limit) <==>
      Stops(events, limit) || Broken(events + [e], limit) || e.CloseConnection?
  {
    var all := events + [e];
    assert all[..|events|] == events && all[|events|] == e;
    if i :| 0 <= i < |events| && events[i].CloseConnection? {
      assert all[i].CloseConnection?;
    }
    if i :| 0 <= i < |all| && all[i].CloseConnection? {
      assert i < |events| ==> events[i].CloseConnection?;
    }
  }

  /** The reference after one more event of a batch. */
  lemma NextEvent(events: seq<Event>, batch: seq<Event>, i: nat, limit: nat)
    requires i < |batch| && !Broken(events + batch[..i], limit)
    ensures var seen, e := events + batch[..i], batch[i];
      && seen + [e] == events + batch[..i + 1]
      && Queue(seen + [e], limit) == Queue(seen, limit) + Put(seen, e, limit)
      && (Broken(seen + [e], limit) <==> Breaks(seen, e, limit))
      && (Stops(seen + [e], limit) <==> Stops(seen, limit) || Breaks(seen, e, limit) || e.CloseConnection?)
      && (!e.Message? ==> OpenGroup(Frames(seen + [e])) == OpenGroup(Frames(seen)))
  {
    var seen, e := events + batch[..i], batch[i];
    TakeStep(batch, i);
    assert (seen + [e])[..|seen|] == seen;
    FramesMore(seen, e);
    StopsMore(seen, e, limit);
  }

  /** What follows the break in the same batch changes nothing. */
  lemma RestIgnored(events: seq<Event>, batch: seq<Event>, i: nat, limit: nat)
    requires i < |batch| && Broken(events + batch[..i + 1], limit)
    ensures Broken(events + batch, limit) && Stops(events + batch, limit)
    ensures Queue(events + batch, limit) == Queue(events + batch[..i + 1], limit)
  {
    assert events + batch == (events + batch[..i + 1]) + batch[i + 1..];
    NothingAfterBreak(events + batch[..i + 1], batch[i + 1..], limit);
  }

  /** The local variables of the reader: the data buffered for the message in progress, if any, and its size. */
  datatype Locals = Locals(buffer: Option<seq<Unit>>, size: nat)

  function InProgress(events: seq<Event>): Locals { LocalsOf(OpenGroup(Frames(events))) }

  function LocalsOf(group: seq<Event>): Locals
    requires forall i :: 0 <= i < |group| ==> group[i].Message?
  {
    Locals(if group == [] then None else Some(Data(group)), Size(Data(group)))
  }

  function Extended(l: Locals, e: Event): seq<Unit>
    requires e.Message?
  {
    if l.buffer.None? then e.data else l.buffer.value + e.data
  }

  /** One more data frame, in terms of the local variables. */
  lemma InProgressMore(events: seq<Event>, e: Event)
    requires e.Message?
    ensures var l := InProgress(events);
      InProgress(events + [e])
        == if e.finished then Locals(None, 0) else Locals(Some(Extended(l, e)), l.size + Size(e.data))
  {
    FramesMore(events, e);
    GroupMore(OpenGroup(Frames(events)), e);
  }

  lemma GroupMore(group: seq<Event>, e: Event)
    requires e.Message? && forall i :: 0 <= i < |group| ==> group[i].Message?
    ensures var l := LocalsOf(group);
      && Join(group + [e]) == Received(e.kind, Extended(l, e))
      && LocalsOf(group + [e]) == Locals(Some(Extended(l, e)), l.size + Size(e.data))
  {
    DataMore(group, e);
    if group == [] {
      assert Data(group + [e]) == e.data;
    } else {
      assert (group + [e])[|group|] == e;
    }
  }

  /** Other events leave the message in progress alone; a close and an unanswered ping put their notice on the queue. */
  lemma OtherEvent(events: seq<Event>, e: Event, limit: nat)
    ensures !e.Message? && !Broken(events, limit) ==>
      && InProgress(events + [e]) == InProgress(events)
      && Put(events, e, limit)
        == if e.CloseConnection? then [Closed(e.code)]
           else if e.Other? then [Passed(e.tag)]
           else if Breaks(events, e, limit) then [NetworkError] else []
  {
    FramesMore(events, e);
  }

  /** What a data frame puts on the queue, in terms of the local variables. */
  lemma MessageEvent(events: seq<Event>, e: Event, limit: nat)
    requires e.Message? && !Broken(events, limit)
    ensures var l := InProgress(events); var overflow := l.size + Size(e.data) > limit;
      && Breaks(events, e, limit) == overflow
      && Put(events, e, limit)
        == if overflow then [TooBig] else if e.finished then [Received(e.kind, Extended(l, e))] else []
  {
    GroupMore(OpenGroup(Frames(events)), e);
    assert Buffered(events) == InProgress(events).size;
  }

  class Session {
    var queue: seq<Item>
    var shouldClose: bool

    constructor ()
      ensures queue == [] && !shouldClose
    {
      queue, shouldClose := [], false;
    }

    /** One data frame: buffered, queued whole, or too large. */
    method HandleMessage(e: Event, limit: nat, l0: Locals) returns (l: Locals, overflow: bool)
      requires e.Message?
      modifies this
      ensures overflow == (l0.size + Size(e.data) > limit)
      ensures shouldClose == (old(shouldClose) || overflow)
      ensures overflow ==> queue == old(queue) + [TooBig]
      ensures !overflow && e.finished ==>
        queue == old(queue) + [Received(e.kind, Extended(l0, e))] && l == Locals(None, 0)
      ensures !overflow && !e.finished ==>
        queue == old(queue) && l == Locals(Some(Extended(l0, e)), l0.size + Size(e.data))
    {
      var buffer, size := l0.buffer, l0.size + Size(e.data);
      overflow := false;
      if size > limit {
        shouldClose := true;
        queue := queue + [TooBig];
        return Locals(buffer, size), true;
      }
      if !e.finished {
        buffer := Some(if buffer.None? then e.data else buffer.value + e.data);
      } else if buffer.None? {
        size := 0;
        queue := queue + [Received(e.kind, e.data)];
      } else {
        queue := queue + [Received(e.kind, buffer.value + e.data)];
        buffer, size := None, 0;
      }
      l := Locals(buffer, size);
    }

    /** One event of any sort; pings are answered, and neither pings nor pongs are queued. */
    method HandleEvent(e: Event, limit: nat, l0: Locals, ghost events: seq<Event>) returns (l: Locals, broken: bool)
      requires !Broken(events, limit) && l0 == InProgress(events)
      modifies this
      ensures broken == Breaks(events, e, limit) && queue == old(queue) + Put(events, e, limit)
      ensures shouldClose == (old(shouldClose) || broken || e.CloseConnection?)
      ensures !broken ==> l == InProgress(events + [e])
    {
      l, broken := l0, false;
      OtherEvent(events, e, limit);
      match e {
        case Ping(_, answered) =>
          if answered {
            assert queue + [] == queue;
          } else {
            shouldClose, broken := true, true;
            queue := queue + [NetworkError];
          }
        case Pong(_) => assert queue + [] == queue;
        case CloseConnection(code) =>
          shouldClose := true;
          queue := queue + [Closed(code)];
        case Message(_, _, _) =>
          MessageEvent(events, e, limit);
          InProgressMore(events, e);
          l, broken := HandleMessage(e, limit, l0);
        case Other(tag) => queue := queue + [Passed(tag)];
      }
    }

    /**
      One batch of events, after `events` have been handled. The queue and the buffer are what the reference says;
      only an overflow or an unanswered ping leaves the batch early.
     */
    method HandleBatch(batch: seq<Event>, limit: nat, l0: Locals, ghost events: seq<Event>) returns (l: Locals)
      requires queue == Queue(events, limit) && shouldClose == Stops(events, limit)
      requires !Broken(events, limit) && l0 == InProgress(events)
      modifies this
      ensures queue == Queue(events + batch, limit) && shouldClose == Stops(events + batch, limit)
      ensures !Broken(events + batch, limit) ==> l == InProgress(events + batch)
    {
      l := l0;
      assert batch[..0] == [] && events + [] == events;
      for i := 0 to |batch|
        invariant !Broken(events + batch[..i], limit)
        invariant queue == Queue(events + batch[..i], limit) && shouldClose == Stops(events + batch[..i], limit)
        invariant l == InProgress(events + batch[..i])
      {
        NextEvent(events, batch, i, limit);
        var broken;
        l, broken := HandleEvent(batch[i], limit, l, events + batch[..i]);
        if broken {
          RestIgnored(events, batch, i, limit);
          return;
        }
      }
      assert batch[..|batch|] == batch;
    }

    /**
      The reader, over the batches the network delivers and a final failure to read, if any. It handles batches
      until one ends the session, and the queue is that of the events handled.
     */
    method BackgroundReceive(batches: seq<seq<Event>>, fails: bool, limit: nat) returns (used: nat)
      requires queue == [] && !shouldClose
      modifies this
      ensures used <= |batches|
      ensures forall k :: 0 <= k < used ==> !Stops(Text.Concat(batches[..k]), limit)
      ensures used < |batches| ==> Stops(Text.Concat(batches[..used]), limit)
      ensures var events := Text.Concat(batches[..used]);
        queue == Queue(events, limit) + (if fails && !Stops(events, limit) then [NetworkError] else [])
    {
      var locals := Locals(None, 0);
      used := 0;
      assert batches[..0] == [];
      while !shouldClose && used < |batches|
        invariant used <= |batches|
        invariant forall k :: 0 <= k < used ==> !Stops(Text.Concat(batches[..k]), limit)
        invariant queue == Queue(Text.Concat(batches[..used]), limit)
        invariant shouldClose == Stops(Text.Concat(batches[..used]), limit)
        invariant !shouldClose ==> locals == InProgress(Text.Concat(batches[..used]))
        decreases |batches| - used
      {
        Text.ConcatStep(batches, used);
        locals := HandleBatch(batches[used], limit, locals, Text.Concat(batches[..used]));
        used := used + 1;
      }
      if !shouldClose && fails {
        shouldClose := true;
        queue := queue + [NetworkError];
      }
    }
  }
}

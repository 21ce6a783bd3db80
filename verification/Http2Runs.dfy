/** Whole runs of a shared HTTP/2 connection: every interleaving of its tasks and of what the server sends. */
module Http2Runs {
  import opened Http2
  import Lists
  import Text

  datatype Step =
    | EnterStep
    | AcquireStep
    | CancelStep
    | CheckStep
    | OpenStep
    | SettingsStep(value: nat)
    | DispatchStep(incoming: Incoming)
    | TakeStep(id: StreamId)
    | CloseStep(id: StreamId)

  /** Which reader owns a stream: the one waiting for the response headers, then the one yielding the body. */
  datatype Reader = AwaitingHeaders | ReadingBody | Finished

  /** What has happened on one stream since its registration. */
  datatype Log = Log(
    received: seq<Event>,   // events that arrived for it
    handed: seq<Event>,     // events its readers have taken
    acked: nat,             // bytes acknowledged to the peer
    reader: Reader,
    returned: nat)          // permits given back on its behalf

  /** The connection together with the history of every stream ever opened on it. */
  datatype World = World(conn: Connection, logs: map<StreamId, Log>)

  function Next(c: Connection, step: Step): Connection {
    match step
    case EnterStep => Enter(c)
    case AcquireStep => Acquire(c)
    case CancelStep => CancelWaiter(c)
    case CheckStep => CheckDeficit(c)
    case OpenStep => OpenStream(c)
    case SettingsStep(value) => ApplySettings(c, value)
    case DispatchStep(e) => Dispatch(c, e)
    case TakeStep(id) => Pop(c, id)
    case CloseStep(id) => ResponseClosed(c, id)
  }

  // ---- admission -----------------------------------------------------------

  /** Which streams are open after each step that touches the table of queues. */
  lemma OpenStreams(c: Connection, step: Step)
    ensures !step.OpenStep? && !step.CloseStep? ==> Next(c, step).events.Keys == c.events.Keys
    ensures step.OpenStep? && c.admitted > 0 ==> Next(c, step).events.Keys == c.events.Keys + {c.nextId}
    ensures step.CloseStep? ==> Next(c, step).events.Keys == c.events.Keys - {step.id}
  {
  }

  lemma OpenKeepsValid(c: Connection)
    requires c.Valid()
    ensures OpenStream(c).Valid()
  {
    OpenStreams(c, OpenStep);
    assert c.admitted > 0 ==> c.nextId !in c.events.Keys;
  }

  lemma CloseKeepsValid(c: Connection, id: StreamId)
    requires c.Valid()
    ensures ResponseClosed(c, id).Valid()
  {
    CloseLeavesQueues(c, id);
    var d := ResponseClosed(c, id);
    assert d.events.Keys == c.events.Keys - {id};
    if id in c.events {
      assert |d.events| == |c.events| - 1;
    }
  }

  lemma SettingsKeepValid(c: Connection, value: nat)
    requires c.Valid()
    ensures ApplySettings(c, value).Valid()
  {
  }

  /** Steps that leave the counters alone, or move a permit in transit. */
  lemma OtherStepKeepsValid(c: Connection, step: Step)
    requires c.Valid() && !step.OpenStep? && !step.CloseStep? && !step.SettingsStep?
    ensures Next(c, step).Valid()
  {
    OpenStreams(c, step);
    assert |Next(c, step).events.Keys| == |c.events.Keys|;
  }

  lemma StepKeepsValid(c: Connection, step: Step)
    requires c.Valid()
    ensures Next(c, step).Valid()
  {
    match step
    case OpenStep => OpenKeepsValid(c);
    case CloseStep(id) => CloseKeepsValid(c, id);
    case SettingsStep(value) => SettingsKeepValid(c, value);
    case _ => OtherStepKeepsValid(c, step);
  }

  /** A waiter is cancelled with a permit in hand while permits are owed. */
  predicate Slips(c: Connection, step: Step) { step.CancelStep? && c.taken > 0 && c.deficit > 0 }

  /** Exact counters stay exact in every step but that one. */
  lemma ExactStep(c: Connection, step: Step)
    requires c.Exact()
    ensures Next(c, step).Exact() <==> !Slips(c, step)
  {
    StepKeepsValid(c, step);
    if step.CloseStep? {
      CloseKeepsExact(c, step.id);
    }
  }

  lemma CloseKeepsExact(c: Connection, id: StreamId)
    requires c.Exact()
    ensures ResponseClosed(c, id).Exact()
  {
    CloseKeepsValid(c, id);
  }

  lemma LocalMaxStays(c: Connection, step: Step)
    ensures Next(c, step).localMax == c.localMax
  {
  }

  /** The same step under the plain rule: no counters, only a limit and who holds a permit. */
  function RuleNext(r: Rule, step: Step, next: StreamId): Rule {
    match step
    case AcquireStep => if r.Held() < r.limit then r.(taken := r.taken + 1) else r
    case CancelStep => if r.taken == 0 then r else r.(taken := r.taken - 1)
    case CheckStep =>
      if r.taken == 0 then r
      else if r.Held() <= r.limit then r.(taken := r.taken - 1, admitted := r.admitted + 1)
      else r.(taken := r.taken - 1)
    case OpenStep => if r.admitted == 0 then r else r.(admitted := r.admitted - 1, open := r.open + {next})
    case SettingsStep(value) => if Min(value, r.localMax) == 0 then r else r.(limit := Min(value, r.localMax))
    case CloseStep(id) => r.(open := r.open - {id})
    case EnterStep => r
    case DispatchStep(_) => r
    case TakeStep(_) => r
  }

  /** The semaphore and the deficit counter refine the plain rule, step by step. */
  lemma CountersRefineRule(c: Connection, step: Step)
    requires c.Exact()
    ensures Abstract(Next(c, step)) == RuleNext(Abstract(c), step, c.nextId)
  {
    OpenStreams(c, step);
    if step.CloseStep? {
      CloseRefines(c, step.id);
    } else if step.AcquireStep? || step.CheckStep? {
      PermitsRefine(c, step);
    }
  }

  lemma PermitsRefine(c: Connection, step: Step)
    requires c.Exact() && (step.AcquireStep? || step.CheckStep?)
    ensures Abstract(Next(c, step)) == RuleNext(Abstract(c), step, c.nextId)
  {
    CountersFollowRule(c);
    assert Abstract(c).Held() == c.Held();
  }

  lemma CloseRefines(c: Connection, id: StreamId)
    ensures var d := ResponseClosed(c, id);
      d.taken == c.taken && d.admitted == c.admitted && d.maxStreams == c.maxStreams && d.localMax == c.localMax
  {
  }

  /** The connection after a run. */
  function RunConn(localMax: nat, steps: seq<Step>): (c: Connection)
    requires localMax >= 1
    ensures c.Valid() && c.localMax == localMax
    decreases |steps|
  {
    if steps == [] then Initial(localMax)
    else
      var c := RunConn(localMax, steps[..|steps| - 1]);
      StepKeepsValid(c, steps[|steps| - 1]);
      LocalMaxStays(c, steps[|steps| - 1]);
      Next(c, steps[|steps| - 1])
  }

  /** No waiter of the run is cancelled with a permit in hand while permits are owed. */
  predicate Smooth(localMax: nat, steps: seq<Step>)
    requires localMax >= 1
  {
    steps == []
    || var before := steps[..|steps| - 1];
       Smooth(localMax, before) && !Slips(RunConn(localMax, before), steps[|steps| - 1])
  }

  /** The counters are exact after each prefix of a run. */
  ghost predicate ExactAlong(localMax: nat, steps: seq<Step>)
    requires localMax >= 1
  {
    forall k: nat :: k <= |steps| ==> RunConn(localMax, steps[..k]).Exact()
  }

  lemma {:induction false} ExactAlongMore(localMax: nat, steps: seq<Step>)
    requires localMax >= 1 && steps != []
    ensures ExactAlong(localMax, steps)
      <==> ExactAlong(localMax, steps[..|steps| - 1]) && RunConn(localMax, steps).Exact()
  {
    var n, before := |steps| - 1, steps[..|steps| - 1];
    assert forall k: nat :: k <= n ==> steps[..k] == before[..k];
    assert steps[..n + 1] == steps;
  }

  /** The counters are exact all along a run if and only if the run is smooth. */
  lemma {:induction false} SmoothExactly(localMax: nat, steps: seq<Step>)
    requires localMax >= 1
    ensures Smooth(localMax, steps) <==> ExactAlong(localMax, steps)
  {
    if steps == [] {
      assert forall k: nat :: k <= |steps| ==> steps[..k] == [];
    } else {
      var before := steps[..|steps| - 1];
      SmoothExactly(localMax, before);
      ExactAlongMore(localMax, steps);
      ExactAlongEnds(localMax, before);
      if RunConn(localMax, before).Exact() {
        ExactStep(RunConn(localMax, before), steps[|steps| - 1]);
      }
    }
  }

  lemma {:induction false} ExactAlongEnds(localMax: nat, steps: seq<Step>)
    requires localMax >= 1
    ensures ExactAlong(localMax, steps) ==> RunConn(localMax, steps).Exact()
  {
    assert steps[..|steps|] == steps;
  }

  lemma {:induction false} SmoothIsExact(localMax: nat, steps: seq<Step>)
    requires localMax >= 1 && Smooth(localMax, steps)
    ensures RunConn(localMax, steps).Exact()
  {
    SmoothExactly(localMax, steps);
    ExactAlongEnds(localMax, steps);
  }

  /**
    In every reachable state the permits add up and the semaphore stays within its bound. After a smooth run the
    counters say exactly how far the permits held are below or above the limit, and without holders everything is
    free.
   */
  lemma {:induction false} AdmissionInvariant(localMax: nat, steps: seq<Step>)
    requires localMax >= 1
    ensures var c := RunConn(localMax, steps);
      && c.localMax == localMax && c.free + c.Held() == c.maxStreams + c.deficit <= localMax
      && (Smooth(localMax, steps) ==> Balanced(c))
  {
    if Smooth(localMax, steps) {
      SmoothIsExact(localMax, steps);
      BalancedWhenExact(RunConn(localMax, steps));
    }
  }

  ghost predicate Balanced(c: Connection) {
    && c.free == Max(0, c.maxStreams - c.Held()) && c.deficit == Max(0, c.Held() - c.maxStreams)
    && c.free <= c.maxStreams <= c.localMax
    && (c.Held() == 0 ==> c.free == c.maxStreams && c.deficit == 0)
  }

  lemma BalancedWhenExact(c: Connection)
    requires c.Exact()
    ensures Balanced(c)
  {
    CountersFollowRule(c);
  }

  /**
    In every run a request that passes the deficit check is within the limit, counting its own permit, and one that
    does not gives its permit up. It passes exactly if it is within the limit, unless permits are owed and at least as
    many are free, which does not happen in a smooth run.
   */
  lemma {:induction false} AdmittedWithinLimit(localMax: nat, steps: seq<Step>)
    requires localMax >= 1 && RunConn(localMax, steps).taken > 0
    ensures var c := RunConn(localMax, steps); var d := Next(c, CheckStep);
      && (d.admitted > c.admitted ==> c.Held() <= c.maxStreams && d.Held() == c.Held() && d.deficit == c.deficit == 0)
      && (d.admitted <= c.admitted ==> d.Held() == c.Held() - 1 && d.free == c.free)
      && ((d.admitted > c.admitted <==> c.Held() <= c.maxStreams) <==> !(0 < c.deficit <= c.free))
      && (Smooth(localMax, steps) ==> !(0 < c.deficit <= c.free))
  {
    if Smooth(localMax, steps) {
      SmoothIsExact(localMax, steps);
    }
  }

  // ---- a free permit while some are owed -----------------------------------

  lemma {:induction false} ConnMore(localMax: nat, steps: seq<Step>, step: Step)
    requires localMax >= 1
    ensures RunConn(localMax, steps + [step]) == Next(RunConn(localMax, steps), step)
  {
    assert (steps + [step])[..|steps|] == steps;
  }

  /** Some run ends in this state. */
  ghost predicate Reached(localMax: nat, c: Connection)
    requires localMax >= 1
  {
    exists steps: seq<Step> :: RunConn(localMax, steps) == c
  }

  lemma {:induction false} ReachNext(localMax: nat, c: Connection, step: Step) returns (d: Connection)
    requires localMax >= 1 && Reached(localMax, c)
    ensures d == Next(c, step) && Reached(localMax, d)
  {
    var steps :| RunConn(localMax, steps) == c;
    ConnMore(localMax, steps, step);
    d := Next(c, step);
  }

  lemma {:induction false} OpenOne(localMax: nat, c0: Connection) returns (c: Connection)
    requires localMax >= 1 && Reached(localMax, c0)
    ensures c == OpenStream(CheckDeficit(Acquire(Enter(c0)))) && Reached(localMax, c)
  {
    c := ReachNext(localMax, c0, EnterStep);
    c := ReachNext(localMax, c, AcquireStep);
    c := ReachNext(localMax, c, CheckStep);
    c := ReachNext(localMax, c, OpenStep);
  }

  lemma {:induction false} ThreeOpen(localMax: nat) returns (c: Connection)
    requires localMax >= 3
    ensures c == Connection(localMax, 3, 0, 0, 0, 0, 7, map[1 := [], 3 := [], 5 := []], Lists.None, ACTIVE)
    ensures Reached(localMax, c)
  {
    c := Initial(localMax);
    assert RunConn(localMax, []) == c;
    c := ReachNext(localMax, c, SettingsStep(3));
    assert c == Connection(localMax, 3, 0, 3, 0, 0, 1, map[], Lists.None, IDLE);
    c := OpenOne(localMax, c);
    assert c == Connection(localMax, 3, 0, 2, 0, 0, 3, map[1 := []], Lists.None, ACTIVE);
    c := OpenOne(localMax, c);
    assert c == Connection(localMax, 3, 0, 1, 0, 0, 5, map[1 := [], 3 := []], Lists.None, ACTIVE);
    c := OpenOne(localMax, c);
  }

  /** A stream closes, and its permit goes to a waiter. */
  lemma {:induction false} OneHanded(localMax: nat) returns (c: Connection)
    requires localMax >= 3
    ensures c == Connection(localMax, 3, 0, 0, 1, 0, 7, map[3 := [], 5 := []], Lists.None, ACTIVE)
    ensures Reached(localMax, c)
  {
    c := ThreeOpen(localMax);
    c := ReachNext(localMax, c, CloseStep(1));
    assert c == Connection(localMax, 3, 0, 1, 0, 0, 7, map[3 := [], 5 := []], Lists.None, ACTIVE);
    c := ReachNext(localMax, c, AcquireStep);
  }

  /** So does another. */
  lemma {:induction false} TwoHanded(localMax: nat) returns (c: Connection)
    requires localMax >= 3
    ensures c == Connection(localMax, 3, 0, 0, 2, 0, 7, map[5 := []], Lists.None, ACTIVE)
    ensures Reached(localMax, c)
  {
    c := OneHanded(localMax);
    c := ReachNext(localMax, c, CloseStep(3));
    assert c == Connection(localMax, 3, 0, 1, 1, 0, 7, map[5 := []], Lists.None, ACTIVE);
    c := ReachNext(localMax, c, AcquireStep);
  }

  /**
    The server lowers the limit to one, and both waiters are cancelled before they run. Two permits are then free
    although two are owed, and the stream that is left fills the limit.
   */
  lemma {:induction false} FreeWhileOwed(localMax: nat) returns (c: Connection)
    requires localMax >= 3
    ensures c == Connection(localMax, 1, 2, 2, 0, 0, 7, map[5 := []], Lists.None, ACTIVE)
    ensures Reached(localMax, c) && !c.Exact()
  {
    c := TwoHanded(localMax);
    c := ReachNext(localMax, c, SettingsStep(1));
    c := ReachNext(localMax, c, CancelStep);
    c := ReachNext(localMax, c, CancelStep);
  }

  /** A request then takes a free permit, the last stream closes, and the request is alone: yet it is sent back. */
  lemma {:induction false} SentBackWithinLimit(localMax: nat) returns (c: Connection)
    requires localMax >= 3
    ensures Reached(localMax, c) && c.taken == 1 && c.Held() == c.maxStreams == 1
    ensures Next(c, CheckStep).admitted == c.admitted
  {
    c := FreeWhileOwed(localMax);
    c := ReachNext(localMax, c, AcquireStep);
    c := ReachNext(localMax, c, CloseStep(5));
    assert c == Connection(localMax, 1, 1, 1, 1, 0, 7, map[], Lists.None, IDLE);
  }

  // ---- one permit per stream, and the event queues ------------------------

  function Flow(events: seq<Event>): nat {
    if events == [] then 0
    else Flow(events[..|events| - 1]) + (var e := events[|events| - 1]; if e.DataReceived? then e.flow else 0)
  }

  /** What the body reader consumes of the events handed out: everything after the first response. */
  function BodyEvents(events: seq<Event>): seq<Event> {
    if events == [] then []
    else
      var before, e := events[..|events| - 1], events[|events| - 1];
      if Responded(before) then BodyEvents(before) + [e] else []
  }

  function Responded(events: seq<Event>): bool {
    exists i :: 0 <= i < |events| && events[i].ResponseReceived?
  }

  /** A reader takes event `e` of its stream; the body reader acknowledges data as it takes it. */
  function Take(log: Log, e: Event): Log {
    Log(log.received,
        log.handed + [e],
        if log.reader == ReadingBody && e.DataReceived? then log.acked + e.flow else log.acked,
        if e.StreamReset? then Finished
        else if log.reader == AwaitingHeaders then (if e.ResponseReceived? then ReadingBody else AwaitingHeaders)
        else if e.StreamEnded? then Finished else ReadingBody,
        log.returned)
  }

  /** A reader of `id` may take an event: the stream is open, its queue is not empty and the reader is not done. */
  predicate MayTake(w: World, id: StreamId) {
    id in w.conn.events && w.conn.events[id] != [] && id in w.logs && w.logs[id].reader != Finished
  }

  function NextLogs(w: World, step: Step): map<StreamId, Log> {
    match step
    case OpenStep =>
      if w.conn.admitted == 0 then w.logs else w.logs[w.conn.nextId := Log([], [], 0, AwaitingHeaders, 0)]
    case DispatchStep(e) =>
      if e.OnStream? && e.id in w.conn.events && e.id in w.logs
      then w.logs[e.id := w.logs[e.id].(received := w.logs[e.id].received + [e.event])] else w.logs
    case TakeStep(id) =>
      if MayTake(w, id) then w.logs[id := Take(w.logs[id], w.conn.events[id][0])] else w.logs
    case CloseStep(id) =>
      if id in w.conn.events && id in w.logs
      then w.logs[id := w.logs[id].(returned := w.logs[id].returned + 1)] else w.logs
    case _ => w.logs
  }

  function NextWorld(w: World, step: Step): World {
    if step.TakeStep? && !MayTake(w, step.id) then w
    else World(Next(w.conn, step), NextLogs(w, step))
  }

  ghost predicate Inv(w: World) {
    && w.conn.Valid()
    && (forall id: StreamId :: id in w.conn.events ==> id in w.logs)
    && (forall id: StreamId :: id in w.logs ==> id < w.conn.nextId && Kept(w, id))
  }

  /** What is known of one stream ever opened. */
  ghost predicate Kept(w: World, id: StreamId)
    requires id in w.logs
  {
    if id in w.conn.events then
      w.logs[id].returned == 0 && Accounted(w.logs[id]) && w.logs[id].received == w.logs[id].handed + w.conn.events[id]
    else
      w.logs[id].returned == 1 && Accounted(w.logs[id])
  }

  ghost predicate Accounted(log: Log) {
    && log.handed <= log.received
    && log.acked == Flow(BodyEvents(log.handed))
    && (log.reader == AwaitingHeaders ==> !Responded(log.handed))
    && (log.reader == ReadingBody ==> Responded(log.handed))
  }

  lemma HandOver(events: seq<Event>, e: Event)
    ensures BodyEvents(events + [e]) == if Responded(events) then BodyEvents(events) + [e] else []
    ensures Responded(events + [e]) <==> Responded(events) || e.ResponseReceived?
  {
    assert (events + [e])[..|events|] == events;
    assert forall i :: 0 <= i < |events| ==> (events + [e])[i] == events[i];
    assert (events + [e])[|events|] == e;
    if Responded(events) {
      var i :| 0 <= i < |events| && events[i].ResponseReceived?;
      assert (events + [e])[i].ResponseReceived?;
    }
  }

  lemma FlowStep(events: seq<Event>, e: Event)
    ensures Flow(events + [e]) == Flow(events) + (if e.DataReceived? then e.flow else 0)
  {
    assert (events + [e])[..|events|] == events;
  }

  lemma NothingBeforeResponse(events: seq<Event>)
    requires !Responded(events)
    ensures BodyEvents(events) == []
  {
    if events != [] {
      var before := events[..|events| - 1];
      assert forall i :: 0 <= i < |before| ==> before[i] == events[i];
    }
  }

  /** The acknowledged total after one more event is handed over. */
  lemma AckStep(log: Log, e: Event)
    requires Accounted(log) && log.reader != Finished
    ensures Take(log, e).acked == Flow(BodyEvents(log.handed + [e]))
  {
    HandOver(log.handed, e);
    if Responded(log.handed) {
      FlowStep(BodyEvents(log.handed), e);
    } else {
      NothingBeforeResponse(log.handed);
    }
  }

  lemma TakeAccounted(log: Log, queue: seq<Event>)
    requires Accounted(log) && log.received == log.handed + queue && queue != [] && log.reader != Finished
    ensures var t := Take(log, queue[0]); Accounted(t) && t.received == t.handed + queue[1..]
  {
    AckStep(log, queue[0]);
    HandOver(log.handed, queue[0]);
    Text.HeadMoved(log.handed, queue);
  }

  lemma DispatchKeeps(w: World, e: Incoming, id: StreamId)
    requires id in w.logs && Kept(w, id)
    ensures var w' := NextWorld(w, DispatchStep(e)); id in w'.logs && Kept(w', id)
  {
    if e.OnStream? && e.id == id && id in w.conn.events {
      Delivered(w, e.event, id);
    } else {
      DeliveredElsewhere(w, e, id);
    }
  }

  lemma DeliveredElsewhere(w: World, e: Incoming, id: StreamId)
    requires id in w.logs && Kept(w, id) && !(e.OnStream? && e.id == id && id in w.conn.events)
    ensures var w' := NextWorld(w, DispatchStep(e)); id in w'.logs && Kept(w', id)
  {
    var w' := NextWorld(w, DispatchStep(e));
    assert w'.logs[id] == w.logs[id];
    assert if id in w.conn.events then id in w'.conn.events && w'.conn.events[id] == w.conn.events[id]
           else id !in w'.conn.events;
  }

  lemma Delivered(w: World, event: Event, id: StreamId)
    requires id in w.logs && id in w.conn.events && Kept(w, id)
    ensures var w' := NextWorld(w, DispatchStep(OnStream(id, event))); id in w'.logs && Kept(w', id)
  {
    var log, queue := w.logs[id], w.conn.events[id];
    Text.Associates(log.handed, queue, [event]);
    var w' := NextWorld(w, DispatchStep(OnStream(id, event)));
    assert w'.conn.events[id] == queue + [event] && w'.logs[id] == log.(received := log.received + [event]);
  }

  lemma TakeKeeps(w: World, x: StreamId, id: StreamId)
    requires id in w.logs && Kept(w, id) && MayTake(w, x)
    ensures var w' := NextWorld(w, TakeStep(x)); id in w'.logs && Kept(w', id)
  {
    if x == id {
      OwnTaken(w, id);
    } else {
      OtherTaken(w, x, id);
    }
  }

  lemma OwnTaken(w: World, id: StreamId)
    requires id in w.logs && MayTake(w, id) && Kept(w, id)
    ensures var w' := NextWorld(w, TakeStep(id)); id in w'.logs && Kept(w', id)
  {
    TakeAccounted(w.logs[id], w.conn.events[id]);
    var w' := NextWorld(w, TakeStep(id));
    assert w'.logs[id] == Take(w.logs[id], w.conn.events[id][0]) && w'.conn.events[id] == w.conn.events[id][1..];
  }

  lemma OtherTaken(w: World, x: StreamId, id: StreamId)
    requires id in w.logs && MayTake(w, x) && x != id && Kept(w, id)
    ensures var w' := NextWorld(w, TakeStep(x)); id in w'.logs && Kept(w', id)
  {
    var w' := NextWorld(w, TakeStep(x));
    assert w'.logs[id] == w.logs[id];
    assert id in w'.conn.events <==> id in w.conn.events;
  }

  lemma CloseKeeps(w: World, x: StreamId, id: StreamId)
    requires id in w.logs && Kept(w, id)
    ensures var w' := NextWorld(w, CloseStep(x)); id in w'.logs && Kept(w', id)
  {
    CloseLeavesQueues(w.conn, x);
    ClosedLog(w, World(ResponseClosed(w.conn, x), NextLogs(w, CloseStep(x))), x, id);
  }

  lemma ClosedLog(w: World, w': World, x: StreamId, id: StreamId)
    requires id in w.logs && Kept(w, id)
    requires w'.conn.events == w.conn.events - {x} && w'.logs == NextLogs(w, CloseStep(x))
    ensures id in w'.logs && Kept(w', id)
  {
  }

  lemma CloseLeavesQueues(c: Connection, x: StreamId)
    ensures ResponseClosed(c, x).events == c.events - {x}
  {
    assert x !in c.events ==> c.events - {x} == c.events;
  }

  lemma OpenKeeps(w: World, id: StreamId)
    requires Inv(w) && id in NextWorld(w, OpenStep).logs
    ensures var w' := NextWorld(w, OpenStep); id < w'.conn.nextId && Kept(w', id)
  {
    if id in w.logs {
      assert Kept(w, id);
    }
  }

  /** Each step keeps what is known of each stream. */
  lemma StepKeeps(w: World, step: Step, id: StreamId)
    requires Inv(w) && id in NextWorld(w, step).logs
    ensures id < NextWorld(w, step).conn.nextId && Kept(NextWorld(w, step), id)
  {
    NextIdGrows(w.conn, step);
    assert id in w.logs ==> Kept(w, id);
    match step
    case OpenStep => OpenKeeps(w, id);
    case DispatchStep(e) => DispatchKeeps(w, e, id);
    case TakeStep(x) => if MayTake(w, x) { TakeKeeps(w, x, id); }
    case CloseStep(x) => CloseKeeps(w, x, id);
    case EnterStep => Untouched(w, step, id);
    case AcquireStep => Untouched(w, step, id);
    case CancelStep => Untouched(w, step, id);
    case CheckStep => Untouched(w, step, id);
    case SettingsStep(_) => Untouched(w, step, id);
  }

  lemma NextIdGrows(c: Connection, step: Step)
    ensures c.nextId <= Next(c, step).nextId
  {
  }

  lemma Untouched(w: World, step: Step, id: StreamId)
    requires id in w.logs && Kept(w, id)
    requires step.EnterStep? || step.AcquireStep? || step.CancelStep? || step.CheckStep? || step.SettingsStep?
    ensures NextWorld(w, step).logs == w.logs && Kept(NextWorld(w, step), id)
  {
    assert Next(w.conn, step).events == w.conn.events;
  }

  lemma OpenAreLogged(w: World, step: Step)
    requires forall id: StreamId :: id in w.conn.events ==> id in w.logs
    ensures forall id: StreamId :: id in NextWorld(w, step).conn.events ==> id in NextWorld(w, step).logs
  {
    OpenStreams(w.conn, step);
    assert forall id: StreamId :: id in w.logs ==> id in NextLogs(w, step);
    if step.OpenStep? && w.conn.admitted > 0 {
      assert w.conn.nextId in NextLogs(w, step);
    }
  }

  lemma StepKeepsInv(w: World, step: Step)
    requires Inv(w)
    ensures Inv(NextWorld(w, step))
  {
    StepKeepsValid(w.conn, step);
    OpenAreLogged(w, step);
    forall id: StreamId | id in NextWorld(w, step).logs
      ensures id < NextWorld(w, step).conn.nextId && Kept(NextWorld(w, step), id)
    {
      StepKeeps(w, step, id);
    }
  }

  function Run(localMax: nat, steps: seq<Step>): (w: World)
    requires localMax >= 1
    ensures Inv(w)
    decreases |steps|
  {
    if steps == [] then World(Initial(localMax), map[])
    else
      var w := Run(localMax, steps[..|steps| - 1]);
      StepKeepsInv(w, steps[|steps| - 1]);
      NextWorld(w, steps[|steps| - 1])
  }

  /** The streams ever opened whose permit has not been given back. */
  function Outstanding(w: World): set<StreamId> {
    set id | id in w.logs && w.logs[id].returned == 0
  }

  /**
    The ledger of permits: each admitted stream takes one and gives it back once. In every reachable state the free
    permits, those in transit and those of streams that have not given theirs back are the limit plus the deficit.
   */
  lemma PermitReturnedOnce(localMax: nat, steps: seq<Step>)
    requires localMax >= 1
    ensures var w := Run(localMax, steps); var c := w.conn;
      && c.free + c.taken + c.admitted + |Outstanding(w)| == c.maxStreams + c.deficit
      && (forall id: StreamId :: id in w.logs ==> w.logs[id].returned <= 1)
      && (forall id: StreamId :: id in Outstanding(w) <==> id in c.events)
  {
    var w := Run(localMax, steps);
    forall id: StreamId | id in w.logs ensures w.logs[id].returned == if id in w.conn.events then 0 else 1 {
      assert Kept(w, id);
    }
    assert Outstanding(w) == w.conn.events.Keys;
  }

  /** A close gives one permit back, to the deficit first, if the stream is open; closing again changes nothing. */
  lemma CloseOnce(c: Connection, id: StreamId)
    requires c.Valid()
    ensures var d := Next(c, CloseStep(id)); var e := Next(d, CloseStep(id));
      && d.free - d.deficit == c.free - c.deficit + (if id in c.events then 1 else 0)
      && d.deficit <= c.deficit && (d.deficit > 0 ==> d.free == c.free)
      && id !in d.events && e.free == d.free && e.deficit == d.deficit && e.events == d.events
  {
    CloseLeavesQueues(c, id);
    CloseLeavesQueues(Next(c, CloseStep(id)), id);
  }

  /** What an open stream's readers were handed, followed by its queue, is what was received for it, in order. */
  lemma NothingLostOrReordered(localMax: nat, steps: seq<Step>, id: StreamId)
    requires localMax >= 1 && id in Run(localMax, steps).conn.events
    ensures var w := Run(localMax, steps);
      id in w.logs && w.logs[id].handed + w.conn.events[id] == w.logs[id].received
  {
    assert Kept(Run(localMax, steps), id);
  }

  /** The bytes acknowledged are the flow-controlled length of the data the body reader consumed. */
  lemma AcknowledgedIsConsumed(localMax: nat, steps: seq<Step>, id: StreamId)
    requires localMax >= 1 && id in Run(localMax, steps).logs
    ensures var log := Run(localMax, steps).logs[id];
      log.handed <= log.received && log.acked == Flow(BodyEvents(log.handed))
  {
    assert Kept(Run(localMax, steps), id);
  }
}

/**
  An HTTP/2 connection as its tasks share it (`_async/http2.py`): stream admission by a semaphore with a deficit
  counter, and one event queue per stream. Everything between two awaits is one step.
 */
module Http2 {
  import opened Lists

  type StreamId = nat

  /** What the peer sends on a stream; `flow` is the flow-controlled length of a DATA frame. */
  datatype Event =
    | ResponseReceived
    | DataReceived(data: seq<bv8>, flow: nat)
    | StreamEnded
    | StreamReset

  datatype Incoming =
    | OnStream(id: StreamId, event: Event)
    | RemoteSettingsChanged(maxStreams: Option<nat>)
    | ConnectionTerminated(lastStreamId: nat)
    | Other

  datatype ConnectionState = ACTIVE | IDLE | CLOSED

  /**
    The shared state. `taken` permits are held between `acquire` and the deficit check, `admitted` ones between
    that check and the registration of the stream; a registered stream holds one permit.
   */
  datatype Connection = Connection(
    localMax: nat,
    maxStreams: nat,
    deficit: nat,
    free: nat,
    taken: nat,
    admitted: nat,
    nextId: StreamId,
    events: map<StreamId, seq<Event>>,
    terminated: Option<nat>,
    state: ConnectionState)
  {
    function Held(): nat { taken + admitted + |events| }

    /** The permits add up, and the semaphore never needs more than its bound. */
    ghost predicate Valid() {
      && free + Held() == maxStreams + deficit
      && 1 <= maxStreams <= maxStreams + deficit <= localMax
      && forall id :: id in events ==> id < nextId
    }

    /** No permit is free while some are owed. */
    ghost predicate Exact() {
      Valid() && (deficit > 0 ==> free == 0)
    }
  }

  function Max(a: int, b: int): int { if a >= b then a else b }

  function Min(a: int, b: int): (m: int)
    ensures m <= a && m <= b && (m == a || m == b)
  {
    if a <= b then a else b
  }

  /** The first request of a connection sets the limit to one until the server states its own. */
  function Initial(localMax: nat): Connection
    requires localMax >= 1
  {
    Connection(localMax, 1, 0, 1, 0, 0, 1, map[], None, IDLE)
  }

  /** The limit in force after the server announces `value`; zero is ignored. */
  function NewLimit(c: Connection, value: nat): nat {
    var n := Min(value, c.localMax);
    if n == 0 then c.maxStreams else n
  }

  /** Raising the limit cancels what is owed first; lowering it takes free permits first. */
  function ApplySettings(c: Connection, value: nat): Connection {
    var n := NewLimit(c, value);
    if n >= c.maxStreams then Raised(c, n - c.maxStreams) else Lowered(c, c.maxStreams - n)
  }

  function Raised(c: Connection, k: nat): Connection {
    c.(maxStreams := c.maxStreams + k, free := c.free + Max(0, k - c.deficit), deficit := Max(0, c.deficit - k))
  }

  function Lowered(c: Connection, k: nat): Connection
    requires k <= c.maxStreams
  {
    c.(maxStreams := c.maxStreams - k, free := Max(0, c.free - k), deficit := c.deficit + Max(0, k - c.free))
  }

  function Enter(c: Connection): Connection {
    if c.state == CLOSED then c else c.(state := ACTIVE)
  }

  function Acquire(c: Connection): Connection {
    if c.free > 0 then c.(free := c.free - 1, taken := c.taken + 1) else c
  }

  /** A waiter cancelled with a permit in hand, before `acquire` returns: the library puts the permit back. */
  function CancelWaiter(c: Connection): Connection {
    if c.taken == 0 then c else c.(taken := c.taken - 1, free := c.free + 1)
  }

  /** The deficit check: admit, or swallow the permit and wait again. */
  function CheckDeficit(c: Connection): Connection {
    if c.taken == 0 then c
    else if c.deficit == 0 then c.(taken := c.taken - 1, admitted := c.admitted + 1)
    else c.(taken := c.taken - 1, deficit := c.deficit - 1)
  }

  /** Reserve the next stream id, register its queue and send the headers. */
  function OpenStream(c: Connection): Connection {
    if c.admitted == 0 then c
    else c.(admitted := c.admitted - 1, nextId := c.nextId + 2, events := c.events[c.nextId := []])
  }

  function GiveBack(c: Connection): Connection {
    if c.deficit > 0 then c.(deficit := c.deficit - 1) else c.(free := c.free + 1)
  }

  function ReleaseStream(c: Connection, id: StreamId): Connection {
    if id in c.events then GiveBack(c).(events := c.events - {id}) else c
  }

  function ResponseClosed(c: Connection, id: StreamId): Connection {
    var d := ReleaseStream(c, id);
    if d.terminated.Some? && d.events == map[] then d.(state := CLOSED)
    else if d.state == ACTIVE && d.events == map[] then d.(state := IDLE)
    else d
  }

  /** Dispatch of one incoming event; settings have been applied when the bytes were read. */
  function Dispatch(c: Connection, e: Incoming): Connection {
    match e
    case OnStream(id, event) =>
      if id in c.events then c.(events := c.events[id := c.events[id] + [event]]) else c
    case ConnectionTerminated(last) => c.(terminated := Some(last))
    case RemoteSettingsChanged(_) => c
    case Other => c
  }

  function DispatchAll(c: Connection, batch: seq<Incoming>): Connection {
    if batch == [] then c else Dispatch(DispatchAll(c, batch[..|batch| - 1]), batch[|batch| - 1])
  }

  function ApplyAll(c: Connection, batch: seq<Incoming>): Connection {
    if batch == [] then c
    else
      var d, e := ApplyAll(c, batch[..|batch| - 1]), batch[|batch| - 1];
      if e.RemoteSettingsChanged? && e.maxStreams.Some? then ApplySettings(d, e.maxStreams.value) else d
  }

  /** One read from the network: settings first, under the state lock, then the rest in order. */
  function Receive(c: Connection, batch: seq<Incoming>): Connection {
    DispatchAll(ApplyAll(c, batch), batch)
  }

  function Pop(c: Connection, id: StreamId): Connection {
    if id in c.events && c.events[id] != [] then c.(events := c.events[id := c.events[id][1..]]) else c
  }

  // ---- the plain rule ------------------------------------------------------

  /** What the two counters implement: a limit and the permits held, nothing else. */
  datatype Rule = Rule(localMax: nat, limit: nat, taken: nat, admitted: nat, open: set<StreamId>) {
    function Held(): nat { taken + admitted + |open| }
  }

  function Abstract(c: Connection): Rule {
    Rule(c.localMax, c.maxStreams, c.taken, c.admitted, c.events.Keys)
  }

  /** Exact counters are determined by the limit and the number of permits held. */
  lemma CountersFollowRule(c: Connection)
    requires c.Exact()
    ensures c.free == Max(0, c.maxStreams - c.Held()) && c.deficit == Max(0, c.Held() - c.maxStreams)
    ensures c.free <= c.maxStreams <= c.localMax
    ensures c.Held() == 0 ==> c.free == c.maxStreams && c.deficit == 0
  {
  }
}

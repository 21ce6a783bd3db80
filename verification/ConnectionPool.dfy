/**
  The scheduling pass of the connection pool (`_async/connection_pool.py`).

  Connections are named by identities handed out in creation order, as object
  identity does in the program. What a pass may ask of a connection is a
  snapshot: the pass contains no await.
 */
module ConnectionPool {
  import opened Lists

  type ConnId = nat

  datatype Origin = Origin(scheme: string, host: string, port: nat)

  /** The answers of the `is_*` and `has_expired` queries during one pass. */
  datatype Flags = Flags(closed: bool, connected: bool, expired: bool, idle: bool, available: bool, multiplex: bool)

  datatype Limits = Limits(maxConnections: int, maxKeepalive: int)

  datatype PoolRequest = PoolRequest(id: nat, origin: Origin, connection: Option<ConnId>) {
    predicate IsQueued() { connection.None? }
  }

  datatype PoolState = PoolState(
    connections: seq<ConnId>,
    requests: seq<PoolRequest>,
    next: ConnId,
    origins: map<ConnId, Origin>)
  {
    /** Every connection ever created has an origin; no connection is listed twice. */
    ghost predicate Valid() {
      && Distinct(connections)
      && (forall c :: c in origins <==> 0 <= c < next)
      && (forall c :: c in connections ==> c in origins)
      && (forall i :: 0 <= i < |requests| && requests[i].connection.Some? ==> requests[i].connection.value in origins)
    }
  }

  /** Connections referenced by some request, `{r.connection for r in requests}`. */
  function Reserved(rs: seq<PoolRequest>): (s: set<ConnId>)
    ensures forall c :: c in s <==> exists i :: 0 <= i < |rs| && rs[i].connection == Some(c)
  {
    var s := set i | 0 <= i < |rs| && rs[i].connection.Some? :: rs[i].connection.value;
    assert forall c :: c in s ==> exists i :: 0 <= i < |rs| && rs[i].connection == Some(c);
    assert forall i :: 0 <= i < |rs| && rs[i].connection.Some? ==> rs[i].connection.value in s;
    s
  }

  // ---- clean-up and keep-alive limit -------------------------------------

  predicate Dropped(c: ConnId, reserved: set<ConnId>, flags: map<ConnId, Flags>)
    requires c in flags
  {
    flags[c].closed || !(flags[c].connected || c in reserved)
  }

  predicate Expires(c: ConnId, reserved: set<ConnId>, flags: map<ConnId, Flags>)
    requires c in flags
  {
    !Dropped(c, reserved, flags) && c !in reserved && flags[c].expired
  }

  predicate Covers(cs: seq<ConnId>, flags: map<ConnId, Flags>) {
    forall c :: c in cs ==> c in flags
  }

  function ExpiredSet(cs: seq<ConnId>, reserved: set<ConnId>, flags: map<ConnId, Flags>): set<ConnId>
    requires Covers(cs, flags)
  {
    set c | c in cs && Expires(c, reserved, flags)
  }

  function RetainedSet(cs: seq<ConnId>, reserved: set<ConnId>, flags: map<ConnId, Flags>): set<ConnId>
    requires Covers(cs, flags)
  {
    set c | c in cs && !Dropped(c, reserved, flags) && !Expires(c, reserved, flags)
  }

  /** Idle connections that no request has reserved. */
  function SpareSet(cs: seq<ConnId>, reserved: set<ConnId>, flags: map<ConnId, Flags>): set<ConnId>
    requires Covers(cs, flags)
  {
    set c | c in cs && flags[c].idle && c !in reserved
  }

  datatype Trimmed = Trimmed(kept: seq<ConnId>, closed: seq<ConnId>)

  /** Gives up spare connections in pool order until `surplus` of them are gone. */
  function Trim(cs: seq<ConnId>, spare: set<ConnId>, surplus: int): (t: Trimmed)
    ensures |t.kept| + |t.closed| == |cs|
    ensures forall c :: c in t.kept || c in t.closed <==> c in cs
    ensures forall c :: c in t.closed ==> c in spare
  {
    if cs == [] then Trimmed([], [])
    else
      var t, last := Trim(cs[..|cs| - 1], spare, surplus), cs[|cs| - 1];
      assert cs == cs[..|cs| - 1] + [last];
      if surplus - |t.closed| > 0 && last in spare then t.(closed := t.closed + [last])
      else t.(kept := t.kept + [last])
  }

  /** How many connections must go for at most `maxKeepalive` spare ones to stay; none if not above zero. */
  function SurplusCount(cs: seq<ConnId>, maxKeepalive: int, reserved: set<ConnId>, flags: map<ConnId, Flags>): int
    requires Covers(cs, flags)
  {
    |Select(cs, SpareSet(cs, reserved, flags))| - maxKeepalive
  }

  function Surplus(cs: seq<ConnId>, maxKeepalive: int, reserved: set<ConnId>, flags: map<ConnId, Flags>): Trimmed
    requires Covers(cs, flags)
  {
    Trim(cs, SpareSet(cs, reserved, flags), SurplusCount(cs, maxKeepalive, reserved, flags))
  }

  lemma {:induction false} TrimDistinct(cs: seq<ConnId>, spare: set<ConnId>, surplus: int)
    requires Distinct(cs)
    ensures var t := Trim(cs, spare, surplus);
      Distinct(t.kept) && Distinct(t.closed) && forall c :: c in t.closed ==> c !in t.kept
  {
    if cs != [] {
      TrimDistinct(cs[..|cs| - 1], spare, surplus);
      assert cs[|cs| - 1] !in cs[..|cs| - 1];
    }
  }

  /** The spare connections kept and the ones given up add up; fewer than `surplus` go only if all of them go. */
  lemma {:induction false} TrimCount(cs: seq<ConnId>, spare: set<ConnId>, surplus: int)
    ensures var t := Trim(cs, spare, surplus);
      && |Select(t.kept, spare)| + |t.closed| == |Select(cs, spare)|
      && (|t.closed| <= surplus || |t.closed| == 0)
      && (|t.closed| < surplus ==> Select(t.kept, spare) == [])
  {
    if cs != [] {
      TrimCount(cs[..|cs| - 1], spare, surplus);
      SelectStep(cs, |cs| - 1, spare);
      assert cs[..|cs|] == cs;
      SelectAppend(Trim(cs[..|cs| - 1], spare, surplus).kept, cs[|cs| - 1], spare);
    }
  }

  /** Connections a queued request may be given in this pass. */
  function AvailableSet(cs: seq<ConnId>, reserved: set<ConnId>, flags: map<ConnId, Flags>): set<ConnId>
    requires Covers(cs, flags)
  {
    set c | c in cs && flags[c].available && !(flags[c].idle && c in reserved && !flags[c].multiplex)
  }

  // ---- matching queued requests ------------------------------------------

  datatype Matching = Matching(
    connections: seq<ConnId>,
    closing: seq<ConnId>,
    available: seq<ConnId>,
    budget: int,
    next: ConnId,
    origins: map<ConnId, Origin>,
    requests: seq<PoolRequest>)   // the queue scanned so far, with its new assignments

  function Serving(available: seq<ConnId>, origins: map<ConnId, Origin>, origin: Origin): set<ConnId> {
    set c | c in available && c in origins && origins[c] == origin
  }

  function Idle(available: seq<ConnId>, flags: map<ConnId, Flags>): set<ConnId> {
    set c | c in available && c in flags && flags[c].idle
  }

  /** Open a new connection for `r`. */
  function Create(m: Matching, r: PoolRequest): Matching {
    m.(connections := m.connections + [m.next],
       budget := m.budget - 1,
       next := m.next + 1,
       origins := m.origins[m.next := r.origin],
       requests := m.requests + [r.(connection := Some(m.next))])
  }

  /** Give `r` the available connection at `idx`. */
  function Reuse(m: Matching, r: PoolRequest, idx: nat, flags: map<ConnId, Flags>): Matching
    requires idx < |m.available| && m.available[idx] in flags
  {
    var c := m.available[idx];
    m.(available := if flags[c].idle && !flags[c].multiplex then DeleteAt(m.available, idx) else m.available,
       requests := m.requests + [r.(connection := Some(c))])
  }

  /** Close the idle connection at `idx` to make room. */
  function Evict(m: Matching, idx: nat): Matching
    requires idx < |m.available| && m.available[idx] in m.connections
  {
    var c := m.available[idx];
    m.(available := DeleteAt(m.available, idx),
       connections := Remove(m.connections, c),
       closing := m.closing + [c],
       budget := m.budget + 1)
  }

  /** What the scan does with one request. */
  function MatchOne(m: Matching, r: PoolRequest, flags: map<ConnId, Flags>): Matching
    requires forall c :: c in m.available ==> c in flags && c in m.connections
  {
    if !r.IsQueued() then m.(requests := m.requests + [r])
    else
      match FirstIn(m.available, Serving(m.available, m.origins, r.origin))
      case Some(i) => Reuse(m, r, i, flags)
      case None =>
        if m.budget > 0 then Create(m, r)
        else
          match FirstIn(m.available, Idle(m.available, flags))
          case Some(i) => Create(Evict(m, i), r)
          case None => m.(requests := m.requests + [r])
  }

  /** The whole scan, without the early exit. */
  ghost function MatchAll(m: Matching, rs: seq<PoolRequest>, flags: map<ConnId, Flags>): (r: Matching)
    requires Sound(m, flags)
    ensures Sound(r, flags)
    ensures |r.requests| == |m.requests| + |rs|
    ensures m.next <= r.next
    decreases |rs|
  {
    if rs == [] then m
    else
      var p := MatchAll(m, rs[..|rs| - 1], flags);
      MatchKeepsSound(p, rs[|rs| - 1], flags);
      MatchOne(p, rs[|rs| - 1], flags)
  }

  /** Well-formedness of the scan: lists hold no repeats, and identities are below `next`. */
  ghost predicate Sound(m: Matching, flags: map<ConnId, Flags>) {
    && Distinct(m.connections) && Distinct(m.closing) && Distinct(m.available)
    && (forall c :: c in m.closing ==> c !in m.connections)
    && (forall c :: c in m.available ==> c in flags && c in m.connections)
    && (forall c :: c in m.connections || c in m.closing ==> c < m.next)
    && (forall c :: c in m.origins <==> 0 <= c < m.next)
  }

  lemma EvictKeepsSound(m: Matching, i: nat, flags: map<ConnId, Flags>)
    requires Sound(m, flags) && i < |m.available|
    ensures var e := Evict(m, i); var c := m.available[i];
      && Sound(e, flags)
      && (forall x :: x in e.connections <==> x in m.connections && x != c)
      && (forall x :: x in e.available <==> x in m.available && x != c)
  {
    DeleteAtDistinct(m.available, i);
    RemoveDistinct(m.connections, m.available[i]);
  }

  lemma CreateKeepsSound(m: Matching, r: PoolRequest, flags: map<ConnId, Flags>)
    requires Sound(m, flags)
    ensures Sound(Create(m, r), flags)
  {
    assert m.next !in m.connections;
  }

  lemma MatchKeepsSound(m: Matching, r: PoolRequest, flags: map<ConnId, Flags>)
    requires Sound(m, flags)
    ensures Sound(MatchOne(m, r, flags), flags)
    ensures |MatchOne(m, r, flags).requests| == |m.requests| + 1
    ensures m.next <= MatchOne(m, r, flags).next
  {
    match FirstIn(m.available, Serving(m.available, m.origins, r.origin))
    case Some(i) => DeleteAtDistinct(m.available, i);
    case None =>
      match FirstIn(m.available, Idle(m.available, flags))
      case Some(i) =>
        EvictKeepsSound(m, i, flags);
        CreateKeepsSound(Evict(m, i), r, flags);
        CreateKeepsSound(m, r, flags);
      case None =>
        CreateKeepsSound(m, r, flags);
  }

  // ---- the pass ------------------------------------------------------------

  datatype PassResult = PassResult(pool: PoolState, closing: seq<ConnId>)

  /** Clean-up and keep-alive limit: the state in which the scan of the queue starts. */
  function Start(p: PoolState, limits: Limits, flags: map<ConnId, Flags>): Matching
    requires Covers(p.connections, flags)
  {
    var reserved := Reserved(p.requests);
    var swept := Select(p.connections, RetainedSet(p.connections, reserved, flags));
    var trimmed := Surplus(swept, limits.maxKeepalive, reserved, flags);
    var kept := trimmed.kept;
    Matching(
      kept,
      Select(p.connections, ExpiredSet(p.connections, reserved, flags)) + trimmed.closed,
      Select(kept, AvailableSet(kept, reserved, flags)),
      limits.maxConnections - |kept|,
      p.next,
      p.origins,
      [])
  }

  lemma StartSound(p: PoolState, limits: Limits, flags: map<ConnId, Flags>)
    requires p.Valid() && Covers(p.connections, flags)
    ensures Sound(Start(p, limits, flags), flags)
  {
    var reserved := Reserved(p.requests);
    var swept := Select(p.connections, RetainedSet(p.connections, reserved, flags));
    var trimmed := Surplus(swept, limits.maxKeepalive, reserved, flags);
    var kept := trimmed.kept;
    SelectDistinct(p.connections, RetainedSet(p.connections, reserved, flags));
    SelectDistinct(p.connections, ExpiredSet(p.connections, reserved, flags));
    TrimDistinct(swept, SpareSet(swept, reserved, flags), SurplusCount(swept, limits.maxKeepalive, reserved, flags));
    SelectDistinct(kept, AvailableSet(kept, reserved, flags));
    ConcatDistinct(Select(p.connections, ExpiredSet(p.connections, reserved, flags)), trimmed.closed);
  }

  /** The end of the scan. */
  ghost function Scan(p: PoolState, limits: Limits, flags: map<ConnId, Flags>): (m: Matching)
    requires p.Valid() && Covers(p.connections, flags)
    ensures Sound(m, flags) && |m.requests| == |p.requests|
  {
    StartSound(p, limits, flags);
    MatchAll(Start(p, limits, flags), p.requests, flags)
  }

  function Outcome(m: Matching): PassResult {
    PassResult(PoolState(m.connections, m.requests, m.next, m.origins), m.closing)
  }

  ghost function Pass(p: PoolState, limits: Limits, flags: map<ConnId, Flags>): PassResult
    requires p.Valid() && Covers(p.connections, flags)
  {
    Outcome(Scan(p, limits, flags))
  }
}

/** The guarantees of a whole pass, in terms of the pool before and after it. */
module PoolTheorems {
  import opened Lists
  import opened ConnectionPool
  import opened PoolPass

  /** The answers a pass may rely on: at least the listed connections, and only connections that exist. */
  ghost predicate Snapshot(p: PoolState, flags: map<ConnId, Flags>) {
    Covers(p.connections, flags) && forall c :: c in flags ==> c < p.next
  }

  /** What clean-up and the keep-alive limit leave to the scan, connection by connection. */
  ghost predicate Begins(p: PoolState, flags: map<ConnId, Flags>, reserved: set<ConnId>, m: Matching)
    requires Covers(p.connections, flags)
  {
    && Sound(m, flags) && m.next == p.next && m.origins == p.origins && m.requests == []
    && (forall c :: c in m.closing || c in m.connections <==> (c in p.connections && !Dropped(c, reserved, flags)))
    && (forall c :: c in m.closing ==> c !in reserved)
    && (forall c :: c in m.available <==>
          (c in m.connections && flags[c].available && !(flags[c].idle && c in reserved && !flags[c].multiplex)))
  }

  lemma StartBegins(p: PoolState, limits: Limits, flags: map<ConnId, Flags>)
    requires p.Valid() && Covers(p.connections, flags)
    ensures var m := Start(p, limits, flags);
      && Begins(p, flags, Reserved(p.requests), m)
      && m.budget == limits.maxConnections - |m.connections| && |m.connections| <= |p.connections|
  {
    StartSound(p, limits, flags);
    var reserved := Reserved(p.requests);
    var swept := Select(p.connections, RetainedSet(p.connections, reserved, flags));
    var m := Start(p, limits, flags);
    forall c ensures c in m.closing || c in m.connections <==> (c in p.connections && !Dropped(c, reserved, flags)) {
      assert c in m.closing || c in m.connections
        <==> c in swept || c in Select(p.connections, ExpiredSet(p.connections, reserved, flags));
    }
  }

  /** Each pass theorem is proved for any start of the scan; this gives them one. */
  lemma PassScan(p: PoolState, limits: Limits, flags: map<ConnId, Flags>) returns (m0: Matching, m: Matching)
    requires p.Valid() && Covers(p.connections, flags)
    ensures Begins(p, flags, Reserved(p.requests), m0)
    ensures m == MatchAll(m0, p.requests, flags) && Progress(m0, m, flags)
    ensures Pass(p, limits, flags) == Outcome(m)
    ensures m0.budget == limits.maxConnections - |m0.connections| && |m0.connections| <= |p.connections|
  {
    StartBegins(p, limits, flags);
    m0 := Start(p, limits, flags);
    m := MatchAll(m0, p.requests, flags);
    ScanProgress(m0, p.requests, flags);
  }

  /** Requests keep their identity and any connection they had; new assignments serve the origin asked for. */
  lemma PassAssigns(p: PoolState, limits: Limits, flags: map<ConnId, Flags>, i: nat)
    requires p.Valid() && Covers(p.connections, flags) && i < |p.requests|
    ensures |Pass(p, limits, flags).pool.requests| == |p.requests|
    ensures Assigned(p, p.requests[i], Pass(p, limits, flags).pool, Pass(p, limits, flags).pool.requests[i], flags)
  {
    var m0, m := PassScan(p, limits, flags);
    ScanDecides(m0, p.requests, i, flags);
    AssignedFrom(p, m0, m, p.requests[i], m.requests[i], flags);
  }

  ghost predicate Assigned(p: PoolState, before: PoolRequest, p': PoolState, after: PoolRequest,
                           flags: map<ConnId, Flags>)
    requires Covers(p.connections, flags)
  {
    && after.id == before.id && after.origin == before.origin
    && (!before.IsQueued() ==> after == before)
    && (before.IsQueued() && !after.IsQueued() ==>
          var c := after.connection.value;
          && c in p'.origins && p'.origins[c] == before.origin
          && ((c in p.connections && flags[c].available) || p.next <= c < p'.next))
  }

  lemma AssignedFrom(p: PoolState, m0: Matching, m: Matching, r: PoolRequest, r': PoolRequest,
                     flags: map<ConnId, Flags>)
    requires Covers(p.connections, flags) && Begins(p, flags, Reserved(p.requests), m0) && Decides(m0, r, m, r', flags)
    ensures Assigned(p, r, Outcome(m).pool, r', flags)
  {
  }

  /** Every old connection is dropped, closed or kept, never two of these; the rest of the new list is new. */
  lemma PassPartition(p: PoolState, limits: Limits, flags: map<ConnId, Flags>)
    requires p.Valid() && Covers(p.connections, flags)
    ensures var r := Pass(p, limits, flags);
      && r.pool.Valid() && Distinct(r.closing) && p.next <= r.pool.next
      && (forall c :: c in r.closing ==> c in p.connections && c !in r.pool.connections)
      && (forall c :: c in p.connections ==>
            (Dropped(c, Reserved(p.requests), flags) <==> c !in r.closing && c !in r.pool.connections))
      && (forall c :: c in r.pool.connections && c !in p.connections <==> p.next <= c < r.pool.next)
      && (forall c :: c in p.origins ==> c in r.pool.origins && r.pool.origins[c] == p.origins[c])
  {
    var m0, m := PassScan(p, limits, flags);
    forall i | 0 <= i < |m.requests| && m.requests[i].connection.Some?
      ensures m.requests[i].connection.value in m.origins
    {
      PassAssigns(p, limits, flags, i);
    }
  }

  /** The pool never grows past its limit. */
  lemma PassCapacity(p: PoolState, limits: Limits, flags: map<ConnId, Flags>)
    requires p.Valid() && Covers(p.connections, flags)
    ensures var n := |Pass(p, limits, flags).pool.connections|; n <= limits.maxConnections || n <= |p.connections|
  {
    var m0, m := PassScan(p, limits, flags);
  }

  /** Reservations survive a pass. */
  lemma ReservedGrows(p: PoolState, limits: Limits, flags: map<ConnId, Flags>)
    requires p.Valid() && Covers(p.connections, flags)
    ensures Reserved(p.requests) <= Reserved(Pass(p, limits, flags).pool.requests)
  {
    var r := Pass(p, limits, flags);
    forall c | c in Reserved(p.requests) ensures c in Reserved(r.pool.requests) {
      var i :| 0 <= i < |p.requests| && p.requests[i].connection == Some(c);
      PassAssigns(p, limits, flags, i);
      assert r.pool.requests[i].connection == Some(c);
    }
  }

  /** At the end of the scan no request refers to a single connection that is on offer or being closed. */
  lemma EndExclusive(p: PoolState, flags: map<ConnId, Flags>, m0: Matching)
    requires p.Valid() && Snapshot(p, flags) && Begins(p, flags, Reserved(p.requests), m0)
    ensures var m := MatchAll(m0, p.requests, flags); Exclusive(m.requests, p.requests, Loose(m), flags)
  {
    var n := |p.requests|;
    forall i | 0 <= i < n && p.requests[i].connection.Some? && p.requests[i].connection.value in Loose(m0)
      ensures !Single(p.requests[i].connection.value, flags)
    {
      assert p.requests[i].connection.value in Reserved(p.requests);
    }
    ScanExclusive(m0, p.requests, n, flags);
    assert p.requests[..n] == p.requests;
    assert MatchAll(m0, p.requests, flags).requests + p.requests[n..] == MatchAll(m0, p.requests, flags).requests;
  }

  /** A connection good for one request only ends up with two requests only if it already had both. */
  lemma PassExclusive(p: PoolState, limits: Limits, flags: map<ConnId, Flags>, i: nat, j: nat)
    requires p.Valid() && Snapshot(p, flags) && i < j < |p.requests|
    requires var rs := Pass(p, limits, flags).pool.requests;
      (|rs| == |p.requests| && rs[i].connection.Some? && rs[i].connection == rs[j].connection
       && Single(rs[i].connection.value, flags))
    ensures p.requests[i].connection == p.requests[j].connection == Pass(p, limits, flags).pool.requests[i].connection
  {
    var m0, m := PassScan(p, limits, flags);
    EndExclusive(p, flags, m0);
  }

  /** A reserved idle connection that cannot multiplex stays in the pool. */
  lemma PassReservation(p: PoolState, limits: Limits, flags: map<ConnId, Flags>, c: ConnId)
    requires p.Valid() && Snapshot(p, flags)
    requires c in p.connections && c in Reserved(p.requests) && Single(c, flags) && !flags[c].closed
    ensures c in Pass(p, limits, flags).pool.connections && c !in Pass(p, limits, flags).closing
  {
    var m0, m := PassScan(p, limits, flags);
  }

  /** A connection the pass closes is held by a request only if it is idle, available and multiplexing. */
  lemma ClosedIsUnassigned(p: PoolState, limits: Limits, flags: map<ConnId, Flags>, c: ConnId)
    requires p.Valid() && Snapshot(p, flags)
    requires c in Pass(p, limits, flags).closing && c in Reserved(Pass(p, limits, flags).pool.requests)
    ensures c in flags && flags[c].idle && flags[c].multiplex && flags[c].available
  {
    var m0, m := PassScan(p, limits, flags);
    EndExclusive(p, flags, m0);
    var i :| 0 <= i < |m.requests| && m.requests[i].connection == Some(c);
    assert c in Loose(m);
    ScanDecides(m0, p.requests, i, flags);
    if p.requests[i].connection == Some(c) {
      assert c in Reserved(p.requests);
    }
  }

  /** An old connection a request could still be given: available, and not an idle single one held by a request. */
  ghost predicate OnOffer(c: ConnId, p: PoolState, after: PoolState, flags: map<ConnId, Flags>)
    requires Covers(p.connections, flags)
  {
    && c in after.connections && c in p.connections && c in p.origins
    && flags[c].available && !(Single(c, flags) && c in Reserved(after.requests))
  }

  lemma OnOfferAvailable(p: PoolState, flags: map<ConnId, Flags>, m0: Matching, m: Matching, c: ConnId)
    requires p.Valid() && Covers(p.connections, flags) && Begins(p, flags, Reserved(p.requests), m0)
    requires m == MatchAll(m0, p.requests, flags) && Progress(m0, m, flags)
    requires Reserved(p.requests) <= Reserved(m.requests)
    requires OnOffer(c, p, Outcome(m).pool, flags)
    ensures c in m.available && m.origins[c] == p.origins[c]
  {
    ScanConsumes(m0, p.requests, c, flags);
  }

  /**
    A pass closes nothing but expired and idle connections, and one that a request holds only if it is idle,
    available and multiplexing.
   */
  lemma PassClosesOnlyUnused(p: PoolState, limits: Limits, flags: map<ConnId, Flags>, c: ConnId)
    requires p.Valid() && Covers(p.connections, flags) && c in Pass(p, limits, flags).closing
    ensures c in p.connections && (flags[c].expired || flags[c].idle)
    ensures c in Reserved(p.requests) ==> flags[c].idle && flags[c].available && flags[c].multiplex
  {
    PassPartition(p, limits, flags);
    StartBegins(p, limits, flags);
    ScanProgress(Start(p, limits, flags), p.requests, flags);
    if c in Start(p, limits, flags).closing {
      StartClosesUnused(p, limits, flags, c);
    }
  }

  /** Clean-up and the keep-alive limit close unreserved connections only. */
  lemma StartClosesUnused(p: PoolState, limits: Limits, flags: map<ConnId, Flags>, c: ConnId)
    requires p.Valid() && Covers(p.connections, flags) && c in Start(p, limits, flags).closing
    ensures c in p.connections && c !in Reserved(p.requests) && (flags[c].expired || flags[c].idle)
  {
  }

  /** Work conservation: with a request still queued, the pool is full and nothing on offer is idle or serves it. */
  lemma PassWorkConserving(p: PoolState, limits: Limits, flags: map<ConnId, Flags>, i: nat, c: ConnId)
    requires p.Valid() && Covers(p.connections, flags) && i < |p.requests|
    requires var rs := Pass(p, limits, flags).pool.requests; i < |rs| && rs[i].IsQueued()
    ensures |Pass(p, limits, flags).pool.connections| >= limits.maxConnections
    ensures OnOffer(c, p, Pass(p, limits, flags).pool, flags) ==>
      !flags[c].idle && p.origins[c] != p.requests[i].origin
  {
    var m0, m := PassScan(p, limits, flags);
    ReservedGrows(p, limits, flags);
    StuckFrom(m0, p.requests, i, flags);
    if OnOffer(c, p, Outcome(m).pool, flags) {
      OnOfferAvailable(p, flags, m0, m, c);
    }
  }

  lemma StuckFrom(m0: Matching, rs: seq<PoolRequest>, i: nat, flags: map<ConnId, Flags>)
    requires Sound(m0, flags) && m0.requests == [] && i < |rs| && MatchAll(m0, rs, flags).requests[i].IsQueued()
    ensures Stuck(MatchAll(m0, rs, flags), rs[i].origin, flags)
  {
    assert |m0.requests| + i == i;
    ScanStuck(m0, rs, i, flags);
  }

  /** Opening a connection is the second choice: nothing on offer serves a request that got a new one. */
  lemma PassReusesFirst(p: PoolState, limits: Limits, flags: map<ConnId, Flags>, i: nat, c: ConnId)
    requires p.Valid() && Covers(p.connections, flags) && i < |p.requests| && p.requests[i].IsQueued()
    requires var rs := Pass(p, limits, flags).pool.requests;
      i < |rs| && rs[i].connection.Some? && rs[i].connection.value >= p.next
    ensures OnOffer(c, p, Pass(p, limits, flags).pool, flags) ==> p.origins[c] != p.requests[i].origin
  {
    var m0, m := PassScan(p, limits, flags);
    ReservedGrows(p, limits, flags);
    UnservedFrom(m0, p.requests, i, flags);
    if OnOffer(c, p, Outcome(m).pool, flags) {
      OnOfferAvailable(p, flags, m0, m, c);
    }
  }

  lemma UnservedFrom(m0: Matching, rs: seq<PoolRequest>, i: nat, flags: map<ConnId, Flags>)
    requires Sound(m0, flags) && m0.requests == [] && i < |rs| && rs[i].IsQueued()
    requires var c := MatchAll(m0, rs, flags).requests[i].connection; c.Some? && c.value >= m0.next
    ensures Unserved(MatchAll(m0, rs, flags), rs[i].origin)
  {
    assert |m0.requests| + i == i;
    ScanUnserved(m0, rs, i, flags);
  }

  /** Eviction is the last choice: beyond expiry and surplus, a pass closes idle connections of a full pool only. */
  lemma PassEvictsLast(p: PoolState, limits: Limits, flags: map<ConnId, Flags>, c: ConnId)
    requires p.Valid() && Covers(p.connections, flags)
    requires c in Pass(p, limits, flags).closing && c !in Start(p, limits, flags).closing
    ensures c in flags && flags[c].idle && flags[c].available
    ensures |Pass(p, limits, flags).pool.connections| >= limits.maxConnections
  {
    StartBegins(p, limits, flags);
    ScanProgress(Start(p, limits, flags), p.requests, flags);
  }

  /** Fairness: a later request of the same origin is never assigned ahead of one left queued. */
  lemma PassFair(p: PoolState, limits: Limits, flags: map<ConnId, Flags>, i: nat, j: nat)
    requires p.Valid() && Covers(p.connections, flags) && i < j < |p.requests|
    requires p.requests[i].origin == p.requests[j].origin && p.requests[j].IsQueued()
    requires var rs := Pass(p, limits, flags).pool.requests; j < |rs| && rs[i].IsQueued()
    ensures Pass(p, limits, flags).pool.requests[j].IsQueued()
  {
    var m0, m := PassScan(p, limits, flags);
    FairFrom(m0, p.requests, i, j, flags);
  }

  lemma FairFrom(m0: Matching, rs: seq<PoolRequest>, i: nat, j: nat, flags: map<ConnId, Flags>)
    requires Sound(m0, flags) && m0.requests == [] && i < j < |rs| && rs[i].origin == rs[j].origin && rs[j].IsQueued()
    requires MatchAll(m0, rs, flags).requests[i].IsQueued()
    ensures MatchAll(m0, rs, flags).requests[j].IsQueued()
  {
    assert |m0.requests| + i == i && |m0.requests| + j == j;
    ScanFair(m0, rs, i, j, flags);
  }

  /**
    The protection of assigned connections does not extend to idle multiplexing ones. Take a pool that is full after
    clean-up, with a request no available connection can serve, and an assigned connection that is the only idle
    one: it is closed under the request that holds it exactly if it multiplexes.
   */
  lemma IdleMultiplexingEvicted(p: PoolState, limits: Limits, flags: map<ConnId, Flags>,
                                                   c: ConnId, j: nat)
    requires p.Valid() && Snapshot(p, flags) && |Start(p, limits, flags).connections| >= limits.maxConnections
    requires c in p.connections && c in Reserved(p.requests)
    requires !flags[c].closed && flags[c].idle && flags[c].available
    requires forall x :: x in p.connections && flags[x].idle ==> x == c
    requires j < |p.requests| && p.requests[j].IsQueued()
    requires forall x :: x in p.connections && flags[x].available ==> p.origins[x] != p.requests[j].origin
    ensures c in Pass(p, limits, flags).closing <==> flags[c].multiplex
  {
    ReservedGrows(p, limits, flags);
    if c in Pass(p, limits, flags).closing {
      ClosedIsUnassigned(p, limits, flags, c);
    } else if flags[c].multiplex {
      PassPartition(p, limits, flags);
      PassAssigns(p, limits, flags, j);
      var after := Pass(p, limits, flags).pool;
      if after.requests[j].IsQueued() {
        PassWorkConserving(p, limits, flags, j, c);
      } else {
        FullPoolCloses(p, limits, flags, after.requests[j].connection.value);
      }
    }
  }

  /** A pool that is full after clean-up opens a connection only in exchange for an idle one. */
  lemma FullPoolCloses(p: PoolState, limits: Limits, flags: map<ConnId, Flags>, d: ConnId)
    requires p.Valid() && Covers(p.connections, flags) && |Start(p, limits, flags).connections| >= limits.maxConnections
    requires d in Pass(p, limits, flags).pool.connections && d >= p.next
    ensures exists x :: x in Pass(p, limits, flags).closing && x in p.connections && flags[x].idle
  {
    StartBegins(p, limits, flags);
    ScanProgress(Start(p, limits, flags), p.requests, flags);
    var x := Displaced(Start(p, limits, flags), Scan(p, limits, flags), flags, d);
    PassClosesOnlyUnused(p, limits, flags, x);
  }

  lemma Displaced(m0: Matching, m: Matching, flags: map<ConnId, Flags>, d: ConnId) returns (x: ConnId)
    requires Sound(m0, flags) && Progress(m0, m, flags) && m0.budget <= 0
    requires d in m.connections && d >= m0.next
    ensures x in m.closing && x in flags && flags[x].idle
  {
    assert |m.connections| <= |m0.connections|;
    OneMoreMember(m0.connections, m.connections, d);
    x :| x in m0.connections && x !in m.connections;
  }

  /** Such a pool exists. */
  lemma EvictionExample() returns (p: PoolState, flags: map<ConnId, Flags>)
    ensures p.Valid() && Snapshot(p, flags) && 0 in Reserved(p.requests) && 0 in Pass(p, Limits(1, 1), flags).closing
  {
    var a, b := Origin("https", "a", 443), Origin("https", "b", 443);
    assert a.host[0] != b.host[0];
    p := PoolState([0], [PoolRequest(0, a, Some(0)), PoolRequest(1, b, None)], 1, map[0 := a]);
    flags := map[0 := Flags(false, true, false, true, true, true)];
    assert p.requests[0].connection == Some(0);
    StartKeepsHeld(p, Limits(1, 1), flags, 0);
    IdleMultiplexingEvicted(p, Limits(1, 1), flags, 0, 1);
  }

  lemma StartKeepsHeld(p: PoolState, limits: Limits, flags: map<ConnId, Flags>, c: ConnId)
    requires p.Valid() && Covers(p.connections, flags)
    requires c in p.connections && c in Reserved(p.requests) && !flags[c].closed
    ensures c in Start(p, limits, flags).connections
  {
    StartBegins(p, limits, flags);
  }

  // ---- the keep-alive limit ------------------------------------------------

  function AtLeastZero(n: int): nat { if n >= 0 then n else 0 }

  /** After the surplus is given up, the idle unreserved connections left are a list no longer than the limit. */
  lemma SurplusLeaves(cs: seq<ConnId>, maxKeepalive: int, reserved: set<ConnId>, flags: map<ConnId, Flags>)
      returns (left: seq<ConnId>)
    requires Covers(cs, flags) && Distinct(cs)
    ensures Distinct(left) && |left| <= AtLeastZero(maxKeepalive)
    ensures forall c :: c in Surplus(cs, maxKeepalive, reserved, flags).kept && flags[c].idle && c !in reserved ==>
      c in left
  {
    var spare, n := SpareSet(cs, reserved, flags), SurplusCount(cs, maxKeepalive, reserved, flags);
    TrimCount(cs, spare, n);
    TrimDistinct(cs, spare, n);
    left := Select(Trim(cs, spare, n).kept, spare);
    SelectDistinct(Trim(cs, spare, n).kept, spare);
  }

  function IdleUnreserved(p: PoolState, flags: map<ConnId, Flags>): set<ConnId> {
    set c | c in p.connections && c in flags && flags[c].idle && c !in Reserved(p.requests)
  }

  /** After a pass at most `max_keepalive` connections are idle without a request. */
  lemma PassKeepalive(p: PoolState, limits: Limits, flags: map<ConnId, Flags>)
    requires p.Valid() && Snapshot(p, flags)
    ensures |IdleUnreserved(Pass(p, limits, flags).pool, flags)| <= AtLeastZero(limits.maxKeepalive)
  {
    var after := Pass(p, limits, flags).pool;
    ReservedGrows(p, limits, flags);
    var left := IdleLeft(p, limits, flags, after.connections);
    ElementsOfDistinct(left);
    SubsetSize(IdleUnreserved(after, flags), Elements(left));
  }

  lemma IdleLeft(p: PoolState, limits: Limits, flags: map<ConnId, Flags>, cs: seq<ConnId>) returns (left: seq<ConnId>)
    requires p.Valid() && Snapshot(p, flags)
    requires cs == Pass(p, limits, flags).pool.connections
    ensures Distinct(left) && |left| <= AtLeastZero(limits.maxKeepalive)
    ensures forall c :: c in cs && c in flags && flags[c].idle && c !in Reserved(p.requests) ==> c in left
  {
    var reserved := Reserved(p.requests);
    var swept := Select(p.connections, RetainedSet(p.connections, reserved, flags));
    SelectDistinct(p.connections, RetainedSet(p.connections, reserved, flags));
    left := SurplusLeaves(swept, limits.maxKeepalive, reserved, flags);
    StartBegins(p, limits, flags);
    ScanProgress(Start(p, limits, flags), p.requests, flags);
    forall c | c in cs && c in flags && flags[c].idle && c !in reserved ensures c in left {
      assert c in Start(p, limits, flags).connections;
    }
  }
}

/** What one pass of the pool scheduler guarantees, whatever the connections answer. */
module PoolPass {
  import opened Lists
  import opened ConnectionPool

  // ---- one scan step at a time ---------------------------------------------

  /** How the lists of the scan relate to those it started from. */
  ghost predicate Progress(m0: Matching, m: Matching, flags: map<ConnId, Flags>) {
    && m0.next <= m.next
    && (forall c :: c in m.connections || c in m.closing <==>
                    c in m0.connections || c in m0.closing || m0.next <= c < m.next)
    && (forall c :: m0.next <= c < m.next ==> c in m.connections)
    && (forall c :: c in m0.closing ==> c in m.closing)
    && (forall c :: c in m.closing && c !in m0.closing ==>
          c in m0.available && c in flags && flags[c].idle && m.budget <= 0)
    && (forall c :: c in m.available ==> c in m0.available)
    && (forall c :: c in m0.origins ==> c in m.origins && m.origins[c] == m0.origins[c])
    && m.budget + |m.connections| == m0.budget + |m0.connections|
    && m.budget <= m0.budget && (m.budget >= 0 || m.budget == m0.budget)
  }

  lemma ProgressTrans(a: Matching, b: Matching, c: Matching, flags: map<ConnId, Flags>)
    requires Progress(a, b, flags) && Progress(b, c, flags)
    requires forall x :: x in a.connections || x in a.closing ==> x < a.next
    requires forall x :: x in a.available ==> x in a.connections
    ensures Progress(a, c, flags)
  {
    forall x ensures x in c.connections || x in c.closing <==>
        x in a.connections || x in a.closing || a.next <= x < c.next {
    }
  }

  lemma CreateProgress(m: Matching, r: PoolRequest, flags: map<ConnId, Flags>)
    requires Sound(m, flags) && m.budget > 0
    ensures Progress(m, Create(m, r), flags)
  {
  }

  lemma EvictCreateProgress(m: Matching, i: nat, r: PoolRequest, flags: map<ConnId, Flags>)
    requires Sound(m, flags) && i < |m.available| && flags[m.available[i]].idle && m.budget <= 0
    ensures Progress(m, Create(Evict(m, i), r), flags)
  {
    EvictKeepsSound(m, i, flags);
    var e := Evict(m, i);
    assert forall x :: x in e.closing <==> x in m.closing || x == m.available[i];
    var c := Create(e, r);
    assert forall x :: x in c.connections <==> x in e.connections || x == m.next;
  }

  lemma StepProgress(m: Matching, r: PoolRequest, flags: map<ConnId, Flags>)
    requires Sound(m, flags)
    ensures Progress(m, MatchOne(m, r, flags), flags)
  {
    match FirstIn(m.available, Serving(m.available, m.origins, r.origin))
    case Some(i) => DeleteAtDistinct(m.available, i);
    case None =>
      if m.budget > 0 {
        CreateProgress(m, r, flags);
      } else {
        match FirstIn(m.available, Idle(m.available, flags))
        case Some(i) => EvictCreateProgress(m, i, r, flags);
        case None =>
      }
  }

  lemma {:induction false} ScanProgress(m0: Matching, rs: seq<PoolRequest>, flags: map<ConnId, Flags>)
    requires Sound(m0, flags)
    ensures Progress(m0, MatchAll(m0, rs, flags), flags)
    decreases |rs|
  {
    if rs != [] {
      var p := MatchAll(m0, rs[..|rs| - 1], flags);
      ScanProgress(m0, rs[..|rs| - 1], flags);
      StepProgress(p, rs[|rs| - 1], flags);
      ProgressTrans(m0, p, MatchOne(p, rs[|rs| - 1], flags), flags);
    }
  }

  /** What one scan step decides for its request. */
  ghost predicate Decides(m: Matching, r: PoolRequest, m': Matching, r': PoolRequest, flags: map<ConnId, Flags>) {
    && r'.id == r.id && r'.origin == r.origin
    && (!r.IsQueued() ==> r' == r)
    && (r.IsQueued() && !r'.IsQueued() ==>
          var c := r'.connection.value;
          && (c in m.available || m.next <= c < m'.next)
          && c in m'.origins && m'.origins[c] == r.origin)
  }

  lemma StepDecides(m: Matching, r: PoolRequest, flags: map<ConnId, Flags>)
    requires Sound(m, flags)
    ensures var m' := MatchOne(m, r, flags);
      && |m'.requests| == |m.requests| + 1
      && m'.requests[..|m.requests|] == m.requests
      && Decides(m, r, m', m'.requests[|m.requests|], flags)
  {
  }

  /** Requests keep their place, origin and any connection they already had; a new one serves their origin. */
  lemma {:induction false} ScanDecides(m0: Matching, rs: seq<PoolRequest>, i: nat, flags: map<ConnId, Flags>)
    requires Sound(m0, flags) && i < |rs|
    ensures var m := MatchAll(m0, rs, flags); Decides(m0, rs[i], m, m.requests[|m0.requests| + i], flags)
    decreases |rs|
  {
    var before, r := rs[..|rs| - 1], rs[|rs| - 1];
    var p := MatchAll(m0, before, flags);
    if i < |before| {
      ScanDecides(m0, before, i, flags);
      DecidedBefore(m0, p, rs[i], |m0.requests| + i, r, flags);
    } else {
      ScanProgress(m0, before, flags);
      StepDecides(p, r, flags);
      DecidesFrom(m0, p, MatchOne(p, r, flags), r, MatchOne(p, r, flags).requests[|p.requests|], flags);
    }
  }

  /** A decision stands through the next step. */
  lemma DecidedBefore(m0: Matching, p: Matching, r0: PoolRequest, k: nat, r: PoolRequest, flags: map<ConnId, Flags>)
    requires Sound(p, flags) && k < |p.requests| && Decides(m0, r0, p, p.requests[k], flags)
    ensures var m := MatchOne(p, r, flags); k < |m.requests| && Decides(m0, r0, m, m.requests[k], flags)
  {
    var m := MatchOne(p, r, flags);
    StepDecides(p, r, flags);
    StepProgress(p, r, flags);
    EarlierRequest(p.requests, m.requests, k);
    DecidesLater(m0, p, m, r0, p.requests[k], flags);
  }

  lemma EarlierRequest(before: seq<PoolRequest>, after: seq<PoolRequest>, k: nat)
    requires k < |before| <= |after| && after[..|before|] == before
    ensures after[k] == before[k]
  {
  }

  lemma DecidesLater(m0: Matching, p: Matching, m: Matching, r: PoolRequest, r': PoolRequest, flags: map<ConnId, Flags>)
    requires Decides(m0, r, p, r', flags) && Progress(p, m, flags)
    ensures Decides(m0, r, m, r', flags)
  {
  }

  lemma DecidesFrom(m0: Matching, p: Matching, m: Matching, r: PoolRequest, r': PoolRequest, flags: map<ConnId, Flags>)
    requires Progress(m0, p, flags) && Decides(p, r, m, r', flags)
    ensures Decides(m0, r, m, r', flags)
  {
  }

  /** No connection the scan may still hand out can help a request for `origin`, and none may be opened. */
  ghost predicate Stuck(m: Matching, origin: Origin, flags: map<ConnId, Flags>) {
    && m.budget <= 0
    && (forall c :: c in m.available ==>
          !(c in flags && flags[c].idle) && !(c in m.origins && m.origins[c] == origin))
  }

  lemma StuckStays(m: Matching, r: PoolRequest, origin: Origin, flags: map<ConnId, Flags>)
    requires Sound(m, flags) && Stuck(m, origin, flags)
    ensures Stuck(MatchOne(m, r, flags), origin, flags)
    ensures r.origin == origin && r.IsQueued() ==> MatchOne(m, r, flags).requests == m.requests + [r]
  {
  }

  /** A request the scan leaves queued had no way to be served. */
  lemma StepStuck(m: Matching, r: PoolRequest, flags: map<ConnId, Flags>)
    requires Sound(m, flags)
    ensures var m' := MatchOne(m, r, flags);
      |m'.requests| == |m.requests| + 1 && (m'.requests[|m.requests|].IsQueued() ==> Stuck(m', r.origin, flags))
  {
  }

  /** A request left queued had no way to be served, then or later in the scan. */
  lemma {:induction false} ScanStuck(m0: Matching, rs: seq<PoolRequest>, i: nat, flags: map<ConnId, Flags>)
    requires Sound(m0, flags) && i < |rs|
    requires MatchAll(m0, rs, flags).requests[|m0.requests| + i].IsQueued()
    ensures Stuck(MatchAll(m0, rs, flags), rs[i].origin, flags)
    decreases |rs|
  {
    var p, r := MatchAll(m0, rs[..|rs| - 1], flags), rs[|rs| - 1];
    StepStuck(p, r, flags);
    if i < |rs| - 1 {
      StepDecides(p, r, flags);
      assert MatchOne(p, r, flags).requests[|m0.requests| + i] == p.requests[|m0.requests| + i];
      ScanStuck(m0, rs[..|rs| - 1], i, flags);
      StuckStays(p, r, rs[i].origin, flags);
    }
  }

  /** None of the connections on offer serves `origin`. */
  ghost predicate Unserved(m: Matching, origin: Origin) {
    forall c :: c in m.available ==> !(c in m.origins && m.origins[c] == origin)
  }

  lemma StepUnserved(m: Matching, r: PoolRequest, origin: Origin, flags: map<ConnId, Flags>)
    requires Sound(m, flags)
    ensures var m' := MatchOne(m, r, flags);
      && |m'.requests| == |m.requests| + 1
      && (Unserved(m, origin) ==> Unserved(m', origin))
      && (r.IsQueued() && m'.requests[|m.requests|].connection == Some(m.next) ==> Unserved(m', r.origin))
  {
    StepProgress(m, r, flags);
  }

  /** A connection is opened for a request only when nothing on offer serves it. */
  lemma {:induction false} ScanUnserved(m0: Matching, rs: seq<PoolRequest>, i: nat, flags: map<ConnId, Flags>)
    requires Sound(m0, flags) && i < |rs| && rs[i].IsQueued()
    requires var c := MatchAll(m0, rs, flags).requests[|m0.requests| + i].connection; c.Some? && c.value >= m0.next
    ensures Unserved(MatchAll(m0, rs, flags), rs[i].origin)
    decreases |rs|
  {
    var p, r := MatchAll(m0, rs[..|rs| - 1], flags), rs[|rs| - 1];
    ScanProgress(m0, rs[..|rs| - 1], flags);
    StepDecides(p, r, flags);
    StepProgress(p, r, flags);
    StepUnserved(p, r, rs[i].origin, flags);
    if i < |rs| - 1 {
      EarlierRequest(p.requests, MatchOne(p, r, flags).requests, |m0.requests| + i);
      ScanUnserved(m0, rs[..|rs| - 1], i, flags);
    } else {
      StepFresh(p, r, flags);
    }
  }

  lemma StepFresh(m: Matching, r: PoolRequest, flags: map<ConnId, Flags>)
    requires Sound(m, flags)
    ensures var m' := MatchOne(m, r, flags);
      && |m'.requests| == |m.requests| + 1
      && (r.IsQueued() && m'.requests[|m.requests|].connection.Some? ==>
            var c := m'.requests[|m.requests|].connection; c.value in m.available || c == Some(m.next))
  {
  }

  /** A later request of the same origin is not served ahead of one that stays queued. */
  lemma {:induction false} ScanFair(m0: Matching, rs: seq<PoolRequest>, i: nat, j: nat, flags: map<ConnId, Flags>)
    requires Sound(m0, flags) && i < j < |rs| && rs[i].origin == rs[j].origin && rs[j].IsQueued()
    requires MatchAll(m0, rs, flags).requests[|m0.requests| + i].IsQueued()
    ensures MatchAll(m0, rs, flags).requests[|m0.requests| + j].IsQueued()
    decreases |rs|
  {
    var p, r := MatchAll(m0, rs[..|rs| - 1], flags), rs[|rs| - 1];
    StepDecides(p, r, flags);
    var m := MatchOne(p, r, flags);
    assert m.requests[|m0.requests| + i] == p.requests[|m0.requests| + i];
    if j < |rs| - 1 {
      assert m.requests[|m0.requests| + j] == p.requests[|m0.requests| + j];
      ScanFair(m0, rs[..|rs| - 1], i, j, flags);
    } else {
      ScanStuck(m0, rs[..|rs| - 1], i, flags);
      StuckStays(p, r, r.origin, flags);
    }
  }

  /** A connection that can take one request only: freshly opened, or idle and not multiplexing. */
  predicate Single(c: ConnId, flags: map<ConnId, Flags>) {
    c in flags ==> flags[c].idle && !flags[c].multiplex
  }

  /** No request of `cur` refers to a loose single connection; requests that share one already shared it in `all`. */
  ghost predicate Exclusive(cur: seq<PoolRequest>, all: seq<PoolRequest>, loose: seq<ConnId>,
                            flags: map<ConnId, Flags>)
  {
    && |cur| == |all|
    && (forall i :: 0 <= i < |cur| && cur[i].connection.Some? && cur[i].connection.value in loose ==>
          !Single(cur[i].connection.value, flags))
    && (forall i, j :: 0 <= i < j < |cur| && cur[i].connection.Some? && cur[i].connection == cur[j].connection
                       && Single(cur[i].connection.value, flags) ==>
          all[i].connection == all[j].connection == cur[i].connection)
  }

  /** Changing one queued request to a connection no one refers to keeps exclusivity. */
  lemma AssignKeepsExclusive(cur: seq<PoolRequest>, all: seq<PoolRequest>, available: seq<ConnId>,
                             k: nat, r: PoolRequest, available': seq<ConnId>, flags: map<ConnId, Flags>)
    requires Exclusive(cur, all, available, flags) && k < |cur|
    requires forall c :: c in available' ==> c in available
    requires r.connection.Some? && r.connection.value in available' ==> !Single(r.connection.value, flags)
    requires r.connection == cur[k].connection
      || (r.connection.Some? && (Single(r.connection.value, flags) ==>
            forall i :: 0 <= i < |cur| ==> cur[i].connection != r.connection))
    ensures Exclusive(cur[k := r], all, available', flags)
  {
  }

  /** Connections that no request may hold if they are single: those still on offer and those being closed. */
  function Loose(m: Matching): seq<ConnId> { m.available + m.closing }

  /** One scan step keeps exclusivity of the current queue `m.requests + tail`. */
  lemma StepExclusive(m: Matching, r: PoolRequest, tail: seq<PoolRequest>, all: seq<PoolRequest>,
                      flags: map<ConnId, Flags>)
    requires Sound(m, flags) && forall c :: c in flags ==> c < m.next
    requires Exclusive(m.requests + [r] + tail, all, Loose(m), flags)
    requires Referenced(m.requests + [r] + tail, m.next)
    ensures var m' := MatchOne(m, r, flags);
      Exclusive(m'.requests + tail, all, Loose(m'), flags) && Referenced(m'.requests + tail, m'.next)
  {
    var cur, k := m.requests + [r] + tail, |m.requests|;
    assert cur[k] == r;
    StepUnshared(m, r, flags);
    StepDecides(m, r, flags);
    StepProgress(m, r, flags);
    var m' := MatchOne(m, r, flags);
    var r' := m'.requests[k];
    ReplaceAt(m.requests, r, tail, r');
    assert m'.requests == m.requests + [r'];
    assert forall c :: c in Loose(m') ==> c in Loose(m);
    AssignKeepsExclusive(cur, all, Loose(m), k, r', Loose(m'), flags);
  }

  lemma ReplaceAt(done: seq<PoolRequest>, r: PoolRequest, tail: seq<PoolRequest>, r': PoolRequest)
    ensures (done + [r] + tail)[|done| := r'] == done + [r'] + tail
  {
  }

  ghost predicate Referenced(rs: seq<PoolRequest>, next: ConnId) {
    forall i :: 0 <= i < |rs| && rs[i].connection.Some? ==> rs[i].connection.value < next
  }

  lemma NextOfQueue(done: seq<PoolRequest>, all: seq<PoolRequest>, n: nat)
    requires 1 <= n <= |all|
    ensures done + all[n - 1..] == done + [all[n - 1]] + all[n..]
  {
  }

  lemma {:induction false} ScanExclusive(m0: Matching, all: seq<PoolRequest>, n: nat, flags: map<ConnId, Flags>)
    requires Sound(m0, flags) && m0.requests == [] && n <= |all|
    requires forall c :: c in flags ==> c < m0.next
    requires Exclusive(all, all, Loose(m0), flags)
    requires Referenced(all, m0.next)
    ensures var m := MatchAll(m0, all[..n], flags);
      Exclusive(m.requests + all[n..], all, Loose(m), flags) && Referenced(m.requests + all[n..], m.next)
    decreases n
  {
    if n == 0 {
      assert m0.requests + all[0..] == all;
    } else {
      ScanExclusive(m0, all, n - 1, flags);
      assert all[..n][..n - 1] == all[..n - 1];
      var p := MatchAll(m0, all[..n - 1], flags);
      NextOfQueue(p.requests, all, n);
      ScanProgress(m0, all[..n - 1], flags);
      StepExclusive(p, all[n - 1], all[n..], all, flags);
    }
  }

  /** The connection a queued request gets is, when single, no longer on offer and not being closed. */
  lemma StepUnshared(m: Matching, r: PoolRequest, flags: map<ConnId, Flags>)
    requires Sound(m, flags)
    requires forall c :: c in flags ==> c < m.next
    requires r.connection.Some? && r.connection.value in Loose(m) ==> !Single(r.connection.value, flags)
    ensures var m' := MatchOne(m, r, flags); var r' := m'.requests[|m.requests|];
      && (r'.connection.Some? && r'.connection.value in Loose(m') ==> !Single(r'.connection.value, flags))
      && (forall c :: c in Loose(m') ==> c in Loose(m))
  {
    match FirstIn(m.available, Serving(m.available, m.origins, r.origin))
    case Some(i) => DeleteAtDistinct(m.available, i);
    case None =>
      match FirstIn(m.available, Idle(m.available, flags))
      case Some(i) => EvictKeepsSound(m, i, flags);
      case None =>
  }

  /** A connection leaves the available list only by being closed or, if single, by being given to a request. */
  lemma {:induction false} ScanConsumes(m0: Matching, rs: seq<PoolRequest>, c: ConnId, flags: map<ConnId, Flags>)
    requires Sound(m0, flags) && c in m0.available
    ensures var m := MatchAll(m0, rs, flags);
      c in m.available || c in m.closing || (Single(c, flags) && c in Reserved(m.requests))
    decreases |rs|
  {
    if rs != [] {
      ScanConsumes(m0, rs[..|rs| - 1], c, flags);
      StepConsumes(MatchAll(m0, rs[..|rs| - 1], flags), rs[|rs| - 1], c, flags);
    }
  }

  lemma StepConsumes(m: Matching, r: PoolRequest, c: ConnId, flags: map<ConnId, Flags>)
    requires Sound(m, flags)
    requires c in m.available || c in m.closing || (Single(c, flags) && c in Reserved(m.requests))
    ensures var m' := MatchOne(m, r, flags);
      c in m'.available || c in m'.closing || (Single(c, flags) && c in Reserved(m'.requests))
  {
    var m' := MatchOne(m, r, flags);
    StepProgress(m, r, flags);
    StepDecides(m, r, flags);
    if c in Reserved(m.requests) {
      var i :| 0 <= i < |m.requests| && m.requests[i].connection == Some(c);
      assert m'.requests[i].connection == Some(c);
    }
    if c in m.available {
      match FirstIn(m.available, Serving(m.available, m.origins, r.origin))
      case Some(i) =>
        DeleteAtDistinct(m.available, i);
        if r.IsQueued() {
          assert m'.requests[|m.requests|].connection == Some(m.available[i]);
        }
      case None =>
        match FirstIn(m.available, Idle(m.available, flags))
        case Some(i) => EvictKeepsSound(m, i, flags);
        case None =>
    }
  }

  /** Once nothing is available and nothing may be opened, the rest of the queue is left as it is. */
  lemma {:induction false} EarlyStop(m: Matching, rs: seq<PoolRequest>, flags: map<ConnId, Flags>)
    requires Sound(m, flags) && m.available == [] && m.budget <= 0
    ensures MatchAll(m, rs, flags) == m.(requests := m.requests + rs)
    decreases |rs|
  {
    if rs != [] {
      var rest, r := rs[..|rs| - 1], rs[|rs| - 1];
      EarlyStop(m, rest, flags);
      assert rs == rest + [r];
    }
  }

  lemma {:induction false} MatchAllAppend(m: Matching, a: seq<PoolRequest>, b: seq<PoolRequest>,
                                          flags: map<ConnId, Flags>)
    requires Sound(m, flags)
    ensures MatchAll(m, a + b, flags) == MatchAll(MatchAll(m, a, flags), b, flags)
    decreases |b|
  {
    if b == [] {
      assert a + b == a;
    } else {
      MatchAllAppend(m, a, b[..|b| - 1], flags);
      assert (a + b)[..|a + b| - 1] == a + b[..|b| - 1];
    }
  }

  lemma ScanNext(m0: Matching, all: seq<PoolRequest>, k: nat, flags: map<ConnId, Flags>)
    requires Sound(m0, flags) && k < |all|
    ensures Sound(MatchAll(m0, all[..k], flags), flags)
    ensures MatchAll(m0, all[..k + 1], flags) == MatchOne(MatchAll(m0, all[..k], flags), all[k], flags)
    ensures Sound(MatchAll(m0, all[..k + 1], flags), flags)
  {
    assert all[..k + 1][..k] == all[..k];
  }

  lemma Rejoin<T>(s: seq<T>, t: seq<T>, k: nat)
    requires k <= |s| == |t| && forall j :: k <= j < |s| ==> s[j] == t[j]
    ensures s[..k] + t[k..] == s
  {
  }

  /** If the scan may stop at `k`, the queue as it stands is the result of scanning all of it. */
  lemma {:induction false} StopsEarly(m0: Matching, all: seq<PoolRequest>, k: nat, current: seq<PoolRequest>,
                                      flags: map<ConnId, Flags>)
    requires Sound(m0, flags) && k <= |all| == |current| && forall j :: k <= j < |all| ==> current[j] == all[j]
    requires var m := MatchAll(m0, all[..k], flags);
      m.requests == current[..k] && (k == |all| || (m.available == [] && m.budget <= 0))
    ensures MatchAll(m0, all, flags) == MatchAll(m0, all[..k], flags).(requests := current)
  {
    Rejoin(all, all, k);
    Rejoin(current, all, k);
    if k == |all| {
      assert all[..k] == all && current[..k] == current;
    } else {
      EarlyStop(MatchAll(m0, all[..k], flags), all[k..], flags);
      MatchAllAppend(m0, all[..k], all[k..], flags);
    }
  }
}

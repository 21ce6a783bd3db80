/** The pool object: the pass as the program runs it, in place and with its early exit. */
module Pool {
  import opened Lists
  import opened ConnectionPool
  import opened PoolPass

  const SYS_MAXSIZE := 0x7fff_ffff_ffff_ffff

  /** Clean-up, in a single pass over the connections. */
  method SweepConnections(cs: seq<ConnId>, reserved: set<ConnId>, flags: map<ConnId, Flags>)
      returns (retained: seq<ConnId>, closing: seq<ConnId>)
    requires Covers(cs, flags)
    ensures retained == Select(cs, RetainedSet(cs, reserved, flags))
    ensures closing == Select(cs, ExpiredSet(cs, reserved, flags))
  {
    retained, closing := [], [];
    ghost var keep, gone := RetainedSet(cs, reserved, flags), ExpiredSet(cs, reserved, flags);
    for i := 0 to |cs|
      invariant retained == Select(cs[..i], keep) && closing == Select(cs[..i], gone)
    {
      var c := cs[i];
      SweepStep(cs, i, reserved, flags);
      if flags[c].closed {
      } else if !(flags[c].connected || c in reserved) {
      } else if c !in reserved && flags[c].expired {
        closing := closing + [c];
      } else {
        retained := retained + [c];
      }
    }
    assert cs[..|cs|] == cs;
  }

  lemma SweepStep(cs: seq<ConnId>, i: nat, reserved: set<ConnId>, flags: map<ConnId, Flags>)
    requires Covers(cs, flags) && i < |cs|
    ensures var keep, gone := RetainedSet(cs, reserved, flags), ExpiredSet(cs, reserved, flags);
      var dropped, expires := Dropped(cs[i], reserved, flags), Expires(cs[i], reserved, flags);
      && Select(cs[..i + 1], keep)
           == (if dropped || expires then Select(cs[..i], keep) else Select(cs[..i], keep) + [cs[i]])
      && Select(cs[..i + 1], gone) == (if expires then Select(cs[..i], gone) + [cs[i]] else Select(cs[..i], gone))
  {
    SelectStep(cs, i, RetainedSet(cs, reserved, flags));
    SelectStep(cs, i, ExpiredSet(cs, reserved, flags));
  }

  /** How many connections are idle without a request. */
  method CountSpare(cs: seq<ConnId>, reserved: set<ConnId>, flags: map<ConnId, Flags>) returns (n: nat)
    requires Covers(cs, flags)
    ensures n == |Select(cs, SpareSet(cs, reserved, flags))|
  {
    n := 0;
    for i := 0 to |cs|
      invariant n == |Select(cs[..i], SpareSet(cs, reserved, flags))|
    {
      SelectStep(cs, i, SpareSet(cs, reserved, flags));
      if flags[cs[i]].idle && cs[i] !in reserved {
        n := n + 1;
      }
    }
    assert cs[..|cs|] == cs;
  }

  /** Gives up the first spare connections, as many as exceed the limit. */
  method CloseSurplus(cs: seq<ConnId>, maxKeepalive: int, reserved: set<ConnId>, flags: map<ConnId, Flags>)
      returns (kept: seq<ConnId>, closed: seq<ConnId>)
    requires Covers(cs, flags)
    ensures Trimmed(kept, closed) == Surplus(cs, maxKeepalive, reserved, flags)
  {
    var count := CountSpare(cs, reserved, flags);
    var surplus := count - maxKeepalive;
    if surplus > 0 {
      kept, closed := CloseSpare(cs, surplus, reserved, flags);
    } else {
      kept, closed := cs, [];
      TrimNothing(cs, SpareSet(cs, reserved, flags), surplus);
    }
  }

  method CloseSpare(cs: seq<ConnId>, surplus0: int, reserved: set<ConnId>, flags: map<ConnId, Flags>)
      returns (kept: seq<ConnId>, closed: seq<ConnId>)
    requires Covers(cs, flags)
    ensures Trimmed(kept, closed) == Trim(cs, SpareSet(cs, reserved, flags), surplus0)
  {
    ghost var spare := SpareSet(cs, reserved, flags);
    var surplus := surplus0;
    kept, closed := [], [];
    for i := 0 to |cs|
      invariant Trimmed(kept, closed) == Trim(cs[..i], spare, surplus0)
      invariant surplus == surplus0 - |closed|
    {
      var c := cs[i];
      TrimStep(cs, i, spare, surplus0);
      if surplus > 0 && flags[c].idle && c !in reserved {
        closed := closed + [c];
        surplus := surplus - 1;
      } else {
        kept := kept + [c];
      }
    }
    assert cs[..|cs|] == cs;
  }

  lemma TrimStep(cs: seq<ConnId>, i: nat, spare: set<ConnId>, surplus: int)
    requires i < |cs|
    ensures var t := Trim(cs[..i], spare, surplus);
      Trim(cs[..i + 1], spare, surplus)
        == if surplus - |t.closed| > 0 && cs[i] in spare then t.(closed := t.closed + [cs[i]])
           else t.(kept := t.kept + [cs[i]])
  {
    assert cs[..i + 1][..i] == cs[..i];
  }

  lemma {:induction false} TrimNothing(cs: seq<ConnId>, spare: set<ConnId>, surplus: int)
    requires surplus <= 0
    ensures Trim(cs, spare, surplus) == Trimmed(cs, [])
  {
    if cs != [] {
      var init, last := cs[..|cs| - 1], cs[|cs| - 1];
      TrimNothing(init, spare, surplus);
      assert Trim(cs, spare, surplus) == Trimmed(init + [last], []);
      assert cs == init + [last];
    }
  }

  class Pool {
    const limits: Limits
    var connections: seq<ConnId>
    var requests: seq<PoolRequest>
    var next: ConnId
    var origins: map<ConnId, Origin>

    ghost function View(): PoolState
      reads this
    {
      PoolState(connections, requests, next, origins)
    }

    constructor (maxConnections: Option<int>, maxKeepalive: Option<int>)
      ensures View() == PoolState([], [], 0, map[]) && View().Valid()
      ensures limits.maxConnections == (if maxConnections.Some? then maxConnections.value else SYS_MAXSIZE)
      ensures var keep := if maxKeepalive.Some? then maxKeepalive.value else SYS_MAXSIZE;
        limits.maxKeepalive == if keep < limits.maxConnections then keep else limits.maxConnections
    {
      var most := if maxConnections.Some? then maxConnections.value else SYS_MAXSIZE;
      var keep := if maxKeepalive.Some? then maxKeepalive.value else SYS_MAXSIZE;
      limits := Limits(most, if keep < most then keep else most);
      connections, requests, next, origins := [], [], 0, map[];
    }

    /** `create_connection`: a new identity with the origin asked for. */
    method CreateConnection(origin: Origin) returns (c: ConnId)
      modifies this`next, this`origins
      ensures c == old(next) && next == c + 1 && origins == old(origins)[c := origin]
    {
      c := next;
      next := next + 1;
      origins := origins[c := origin];
    }

    /** Clean-up, keep-alive limit and the snapshot of what the scan may hand out. */
    method CleanUp(flags: map<ConnId, Flags>) returns (closing: seq<ConnId>, available: seq<ConnId>, budget: int)
      requires View().Valid() && Covers(connections, flags)
      modifies this`connections
      ensures Matching(connections, closing, available, budget, next, origins, []) == Start(old(View()), limits, flags)
    {
      var reserved := Reserved(requests);
      var retained, expired := SweepConnections(connections, reserved, flags);
      var kept, surplus := CloseSurplus(retained, limits.maxKeepalive, reserved, flags);
      closing := expired + surplus;
      assert Covers(kept, flags) && Trimmed(kept, surplus).kept == kept;
      connections := kept;
      available := CollectAvailable(connections, reserved, flags);
      budget := limits.maxConnections - |connections|;
    }

    /** One pass, as the program makes it, is exactly `Pass`: in particular the early exit loses nothing. */
    method AssignRequestsToConnections(flags: map<ConnId, Flags>) returns (closing: seq<ConnId>)
      requires View().Valid() && Covers(connections, flags)
      modifies this
      ensures PassResult(View(), closing) == Pass(old(View()), limits, flags)
    {
      ghost var m0 := Start(View(), limits, flags);
      StartSound(View(), limits, flags);
      var available, budget;
      closing, available, budget := CleanUp(flags);
      closing := ScanQueue(closing, available, budget, flags, m0);
    }

    method ScanQueue(closing0: seq<ConnId>, available0: seq<ConnId>, budget0: int,
                     flags: map<ConnId, Flags>, ghost m0: Matching) returns (closing: seq<ConnId>)
      requires Sound(m0, flags) && m0 == Matching(connections, closing0, available0, budget0, next, origins, [])
      modifies this
      ensures PassResult(View(), closing) == Outcome(MatchAll(m0, old(requests), flags))
    {
      var available, budget := available0, budget0;
      closing := closing0;
      ghost var all, m := requests, m0;
      var k := 0;
      assert all[..0] == [];
      while k < |requests|
        invariant 0 <= k <= |requests| == |all|
        invariant Sound(m, flags) && m == MatchAll(m0, all[..k], flags)
        invariant m == Matching(connections, closing, available, budget, next, origins, requests[..k])
        invariant forall j :: k <= j < |all| ==> requests[j] == all[j]
        decreases |all| - k
      {
        if available == [] && budget <= 0 {
          break;
        }
        closing, available, budget := ConsiderRequest(k, closing, available, budget, flags, m);
        ScanNext(m0, all, k, flags);
        m := MatchOne(m, all[k], flags);
        k := k + 1;
      }
      StopsEarly(m0, all, k, requests, flags);
    }

    /** One turn of the loop: a request that already has a connection is skipped. */
    method ConsiderRequest(k: nat, closing0: seq<ConnId>, available0: seq<ConnId>, budget0: int,
                           flags: map<ConnId, Flags>, ghost m: Matching)
        returns (closing: seq<ConnId>, available: seq<ConnId>, budget: int)
      requires k < |requests| && Sound(m, flags)
      requires m == Matching(connections, closing0, available0, budget0, next, origins, requests[..k])
      modifies this
      ensures |requests| == old(|requests|) && forall j :: k < j < |requests| ==> requests[j] == old(requests[j])
      ensures Matching(connections, closing, available, budget, next, origins, requests[..k + 1])
           == MatchOne(m, old(requests[k]), flags)
    {
      TakeStep(requests, k);
      closing, available, budget := closing0, available0, budget0;
      if requests[k].IsQueued() {
        closing, available, budget := ServeRequest(k, closing, available, budget, flags, m);
        TakeStep(requests, k);
      }
    }

    /** The three cases for one queued request, on the pool's own lists. */
    method ServeRequest(k: nat, closing0: seq<ConnId>, available0: seq<ConnId>, budget0: int,
                        flags: map<ConnId, Flags>, ghost m: Matching)
        returns (closing: seq<ConnId>, available: seq<ConnId>, budget: int)
      requires k < |requests| && requests[k].IsQueued() && Sound(m, flags)
      requires m == Matching(connections, closing0, available0, budget0, next, origins, requests[..k])
      modifies this
      ensures |requests| == old(|requests|) && requests[..k] == old(requests[..k])
      ensures forall j :: k < j < |requests| ==> requests[j] == old(requests[j])
      ensures Matching(connections, closing, available, budget, next, origins, old(requests[..k]) + [requests[k]])
           == MatchOne(m, old(requests[k]), flags)
    {
      closing, available, budget := closing0, available0, budget0;
      var r := requests[k];
      var idx := FindServing(available, r.origin);
      if idx.Some? {
        var c := available[idx.value];
        requests := requests[k := r.(connection := Some(c))];
        if flags[c].idle && !flags[c].multiplex {
          available := DeleteAt(available, idx.value);
        }
      } else if budget > 0 {
        var c := CreateConnection(r.origin);
        connections := connections + [c];
        requests := requests[k := r.(connection := Some(c))];
        budget := budget - 1;
      } else {
        var victim := FindIdle(available, flags);
        if victim.Some? {
          var c := available[victim.value];
          available := DeleteAt(available, victim.value);
          connections := Remove(connections, c);
          closing := closing + [c];
          c := CreateConnection(r.origin);
          connections := connections + [c];
          requests := requests[k := r.(connection := Some(c))];
        }
      }
    }

    method FindServing(available: seq<ConnId>, origin: Origin) returns (r: Option<nat>)
      ensures r == FirstIn(available, Serving(available, origins, origin))
    {
      for i := 0 to |available|
        invariant forall j :: 0 <= j < i ==> available[j] !in Serving(available, origins, origin)
      {
        if available[i] in origins && origins[available[i]] == origin {
          return Some(i);
        }
      }
      return None;
    }
  }

  method FindIdle(available: seq<ConnId>, flags: map<ConnId, Flags>) returns (r: Option<nat>)
    ensures r == FirstIn(available, Idle(available, flags))
  {
    for i := 0 to |available|
      invariant forall j :: 0 <= j < i ==> available[j] !in Idle(available, flags)
    {
      if available[i] in flags && flags[available[i]].idle {
        return Some(i);
      }
    }
    return None;
  }

  method CollectAvailable(cs: seq<ConnId>, reserved: set<ConnId>, flags: map<ConnId, Flags>)
      returns (available: seq<ConnId>)
    requires Covers(cs, flags)
    ensures available == Select(cs, AvailableSet(cs, reserved, flags))
  {
    available := [];
    for i := 0 to |cs|
      invariant available == Select(cs[..i], AvailableSet(cs, reserved, flags))
    {
      var c := cs[i];
      SelectStep(cs, i, AvailableSet(cs, reserved, flags));
      if flags[c].available && !(flags[c].idle && c in reserved && !flags[c].multiplex) {
        available := available + [c];
      }
    }
    assert cs[..|cs|] == cs;
  }
}

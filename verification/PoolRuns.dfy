/**
  Whole runs of a pool of direct HTTP/1.1 connections that is never closed as a whole: requests arrive, passes run
  at any moment, connections are established, used, expire, fail and close, requests are abandoned, in any order.
 */
module PoolRuns {
  import opened Lists
  import opened ConnectionPool
  import opened PoolTheorems
  import opened PoolPass
  import opened Http11

  /** A request waits for its turn, has started on its connection, or is over but still listed. */
  datatype Phase = Waiting | InFlight | Over

  datatype System = System(
    pool: PoolState,
    net: map<ConnId, Net>,
    phases: seq<Phase>,           // one per listed request
    detached: set<ConnId>,        // removed from the pool, still to be closed
    nextRequest: nat)

  datatype Step =
    | Submit(origin: Origin)
    | RunPass(expired: set<ConnId>)
    | CloseDetached(c: ConnId)
    | Connect(i: nat, ok: bool)
    | StartRequest(i: nat)
    | EndResponse(i: nat, bothDone: bool)
    | Abandon(i: nat)
    | Forget(i: nat)

  const INITIAL := System(PoolState([], [], 0, map[]), map[], [], {}, 0)

  ghost predicate WellFormed(s: System) {
    s.pool.Valid() && s.net.Keys == s.pool.origins.Keys && |s.phases| == |s.pool.requests|
  }

  function FlagsNow(s: System, expired: set<ConnId>): map<ConnId, Flags>
    requires forall c :: c in s.pool.connections ==> c in s.net
  {
    map c | c in s.pool.connections :: FlagsOf(s.net[c], c in expired)
  }

  /** The request at `i` has a connection and is in phase `ph`. */
  predicate Holds(s: System, i: nat, ph: Phase) {
    && i < |s.phases| && i < |s.pool.requests| && s.phases[i] == ph
    && s.pool.requests[i].connection.Some? && s.pool.requests[i].connection.value in s.net
  }

  function NetOf(s: System, i: nat): Net
    requires i < |s.pool.requests| && s.pool.requests[i].connection.Some?
      && s.pool.requests[i].connection.value in s.net
  {
    s.net[s.pool.requests[i].connection.value]
  }

  function SetNet(s: System, i: nat, n: Net, ph: Phase): System
    requires i < |s.phases| && i < |s.pool.requests| && s.pool.requests[i].connection.Some?
  {
    s.(net := s.net[s.pool.requests[i].connection.value := n], phases := s.phases[i := ph])
  }

  ghost function AfterPass(s: System, limits: Limits, expired: set<ConnId>): System
    requires WellFormed(s)
  {
    var r := Pass(s.pool, limits, FlagsNow(s, expired));
    s.(pool := r.pool,
       net := map c | 0 <= c < r.pool.next :: if c in s.net then s.net[c] else Connecting,
       detached := s.detached + (set c | c in r.closing))
  }

  /** `StartRequest` sends if the connection accepts, and otherwise is `clear_connection`. */
  function AfterStart(s: System, i: nat): System
    requires Holds(s, i, Waiting)
  {
    if CanStart(NetOf(s, i)) then SetNet(s, i, Started(NetOf(s, i)), InFlight)
    else s.(pool := s.pool.(requests := s.pool.requests[i := s.pool.requests[i].(connection := None)]))
  }

  /** The effect of one step; a step that is not enabled does nothing. */
  ghost function Next(s: System, limits: Limits, step: Step): System
    requires WellFormed(s)
  {
    match step
    case Submit(origin) =>
      s.(pool := s.pool.(requests := s.pool.requests + [PoolRequest(s.nextRequest, origin, None)]),
         phases := s.phases + [Waiting], nextRequest := s.nextRequest + 1)
    case RunPass(expired) => AfterPass(s, limits, expired)
    case CloseDetached(c) =>
      if c in s.detached && c in s.net then s.(net := s.net[c := Shut(s.net[c])], detached := s.detached - {c}) else s
    case Connect(i, ok) =>
      if Holds(s, i, Waiting) && NetOf(s, i) == Connecting
      then SetNet(s, i, if ok then Open(NEW) else Failed, if ok then Waiting else Over) else s
    case StartRequest(i) =>
      if Holds(s, i, Waiting) && NetOf(s, i).Open? then AfterStart(s, i) else s
    case EndResponse(i, bothDone) =>
      if Holds(s, i, InFlight) then SetNet(s, i, Ended(bothDone), Over) else s
    case Abandon(i) =>
      if i < |s.phases| && s.phases[i] == Waiting then s.(phases := s.phases[i := Over]) else s
    case Forget(i) =>
      if i < |s.phases| && s.phases[i] == Over
      then s.(pool := s.pool.(requests := DeleteAt(s.pool.requests, i)), phases := DeleteAt(s.phases, i)) else s
  }

  /** What every reachable state satisfies. */
  ghost predicate Inv(s: System, limits: Limits) {
    && WellFormed(s)
    && OneHolder(s.pool.requests)
    && (forall i :: 0 <= i < |s.phases| ==> Healthy(s, i))
    && (forall c :: c in s.detached ==> c < s.pool.next && c !in s.pool.connections)
    && (|s.pool.connections| <= limits.maxConnections || s.pool.connections == [])
  }

  /** No two listed requests have the same connection. */
  ghost predicate OneHolder(rs: seq<PoolRequest>) {
    forall i, j :: 0 <= i < j < |rs| && rs[i].connection.Some? ==> rs[i].connection != rs[j].connection
  }

  /** A waiting request's connection can still be started; a started one is active; neither is about to be closed. */
  ghost predicate Healthy(s: System, i: nat)
    requires WellFormed(s) && i < |s.phases|
  {
    var r := s.pool.requests[i];
    && r.id < s.nextRequest
    && (r.connection.None? ==> s.phases[i] != InFlight)
    && (r.connection.Some? ==>
          && r.connection.value !in s.detached
          && s.pool.origins[r.connection.value] == r.origin
          && (s.phases[i] == Waiting ==> NetOf(s, i) == Connecting || CanStart(NetOf(s, i)))
          && (s.phases[i] == InFlight ==> NetOf(s, i) == Open(ACTIVE)))
  }

  lemma PassKeepsOneHolder(s: System, limits: Limits, expired: set<ConnId>, i: nat, j: nat)
    requires Inv(s, limits) && i < j < |s.phases|
    ensures var rs := AfterPass(s, limits, expired).pool.requests;
      |rs| == |s.phases| && (rs[i].connection.Some? ==> rs[i].connection != rs[j].connection)
  {
    var flags := FlagsNow(s, expired);
    PassAssigns(s.pool, limits, flags, i);
    PassAssigns(s.pool, limits, flags, j);
    var rs := Pass(s.pool, limits, flags).pool.requests;
    if rs[i].connection.Some? && rs[i].connection == rs[j].connection {
      assert Single(rs[i].connection.value, flags);
      PassExclusive(s.pool, limits, flags, i, j);
    }
  }

  lemma PassKeepsHealthy(s: System, limits: Limits, expired: set<ConnId>, i: nat)
    requires Inv(s, limits) && i < |s.phases|
    ensures WellFormed(AfterPass(s, limits, expired)) && Healthy(AfterPass(s, limits, expired), i)
  {
    var flags := FlagsNow(s, expired);
    var r := Pass(s.pool, limits, flags);
    PassPartition(s.pool, limits, flags);
    PassAssigns(s.pool, limits, flags, i);
    var s' := AfterPass(s, limits, expired);
    assert s'.net.Keys == s'.pool.origins.Keys;
    assert Healthy(s, i);
    if r.pool.requests[i].connection.Some? {
      var c := r.pool.requests[i].connection.value;
      if c in r.closing {
        assert r.pool.requests[i].connection == Some(c);
        ClosedIsUnassigned(s.pool, limits, flags, c);
      }
    }
  }

  lemma PassKeepsInv(s: System, limits: Limits, expired: set<ConnId>)
    requires Inv(s, limits)
    ensures Inv(AfterPass(s, limits, expired), limits)
  {
    var flags, s' := FlagsNow(s, expired), AfterPass(s, limits, expired);
    PassPartition(s.pool, limits, flags);
    PassCapacity(s.pool, limits, flags);
    assert s'.net.Keys == s'.pool.origins.Keys;
    LengthKept(s.pool, limits, flags);
    forall i, j | 0 <= i < j < |s'.pool.requests| && s'.pool.requests[i].connection.Some?
      ensures s'.pool.requests[i].connection != s'.pool.requests[j].connection
    {
      PassKeepsOneHolder(s, limits, expired, i, j);
    }
    forall i | 0 <= i < |s'.phases| ensures Healthy(s', i) {
      PassKeepsHealthy(s, limits, expired, i);
    }
  }

  lemma LengthKept(p: PoolState, limits: Limits, flags: map<ConnId, Flags>)
    requires p.Valid() && Covers(p.connections, flags)
    ensures |Pass(p, limits, flags).pool.requests| == |p.requests|
  {
  }

  /** Changing the connection of one request leaves all other requests alone. */
  lemma SetNetKeepsInv(s: System, limits: Limits, i: nat, n: Net, ph: Phase)
    requires Inv(s, limits) && i < |s.phases| && s.pool.requests[i].connection.Some?
    requires ph == Waiting ==> n == Connecting || CanStart(n)
    requires ph == InFlight ==> n == Open(ACTIVE)
    ensures Inv(SetNet(s, i, n, ph), limits)
  {
    var s' := SetNet(s, i, n, ph);
    forall j | 0 <= j < |s'.phases| ensures Healthy(s', j) {
      assert Healthy(s, j);
    }
  }

  lemma ForgetKeepsInv(s: System, limits: Limits, i: nat)
    requires Inv(s, limits) && i < |s.phases| && s.phases[i] == Over
    ensures Inv(Next(s, limits, Forget(i)), limits)
  {
    var s' := Next(s, limits, Forget(i));
    var rs, rs' := s.pool.requests, s'.pool.requests;
    forall j | 0 <= j < |rs'| ensures rs'[j] == rs[if j < i then j else j + 1] && Healthy(s', j) {
      assert Healthy(s, if j < i then j else j + 1);
    }
  }

  /** The invariant is kept by every step. */
  lemma StepKeepsInv(s: System, limits: Limits, step: Step)
    requires Inv(s, limits)
    ensures Inv(Next(s, limits, step), limits)
  {
    var s' := Next(s, limits, step);
    match step
    case Submit(origin) =>
      forall j | 0 <= j < |s'.phases| ensures Healthy(s', j) {
        if j < |s.phases| { assert Healthy(s, j); }
      }
    case RunPass(expired) => PassKeepsInv(s, limits, expired);
    case CloseDetached(c) =>
      forall j | 0 <= j < |s'.phases| ensures Healthy(s', j) {
        assert Healthy(s, j);
      }
    case Connect(i, ok) =>
      if Holds(s, i, Waiting) && NetOf(s, i) == Connecting {
        SetNetKeepsInv(s, limits, i, if ok then Open(NEW) else Failed, if ok then Waiting else Over);
      }
    case StartRequest(i) =>
      if Holds(s, i, Waiting) && NetOf(s, i).Open? {
        assert Healthy(s, i);
        SetNetKeepsInv(s, limits, i, Open(ACTIVE), InFlight);
      }
    case EndResponse(i, bothDone) =>
      if Holds(s, i, InFlight) {
        SetNetKeepsInv(s, limits, i, Ended(bothDone), Over);
      }
    case Abandon(i) =>
      forall j | 0 <= j < |s'.phases| ensures Healthy(s', j) {
        assert Healthy(s, j);
      }
    case Forget(i) =>
      if i < |s.phases| && s.phases[i] == Over {
        ForgetKeepsInv(s, limits, i);
      }
  }

  /** A connection is active only while a request that started on it is in flight. */
  ghost predicate ActiveHeld(s: System) {
    forall c :: c in s.net && s.net[c] == Open(ACTIVE) ==> UsedBy(s, c)
  }

  ghost predicate UsedBy(s: System, c: ConnId) {
    exists i: nat :: Holds(s, i, InFlight) && s.pool.requests[i].connection == Some(c)
  }

  lemma SetNetKeepsActive(s: System, limits: Limits, i: nat, n: Net, ph: Phase)
    requires Inv(s, limits) && ActiveHeld(s) && i < |s.phases| && s.pool.requests[i].connection.Some?
    requires n == Open(ACTIVE) ==> ph == InFlight
    ensures ActiveHeld(SetNet(s, i, n, ph))
  {
    var s', c0 := SetNet(s, i, n, ph), s.pool.requests[i].connection.value;
    forall c | c in s'.net && s'.net[c] == Open(ACTIVE) ensures UsedBy(s', c) {
      if c == c0 {
        assert Holds(s', i, InFlight);
      } else {
        var k: nat :| Holds(s, k, InFlight) && s.pool.requests[k].connection == Some(c);
        assert Holds(s', k, InFlight);
      }
    }
  }

  /** Steps that end no exchange leave the holders of active connections in place. */
  lemma HoldersKept(s: System, s': System)
    requires ActiveHeld(s)
    requires forall c :: c in s'.net && s'.net[c] == Open(ACTIVE) ==> c in s.net && s.net[c] == Open(ACTIVE)
    requires forall k: nat, c :: Holds(s, k, InFlight) && s.pool.requests[k].connection == Some(c) && c in s'.net ==>
      UsedBy(s', c)
    ensures ActiveHeld(s')
  {
    forall c | c in s'.net && s'.net[c] == Open(ACTIVE) ensures UsedBy(s', c) {
      var k: nat :| Holds(s, k, InFlight) && s.pool.requests[k].connection == Some(c);
    }
  }

  lemma PassKeepsActive(s: System, limits: Limits, expired: set<ConnId>)
    requires Inv(s, limits) && ActiveHeld(s)
    ensures ActiveHeld(AfterPass(s, limits, expired))
  {
    var s' := AfterPass(s, limits, expired);
    forall k: nat, c | Holds(s, k, InFlight) && s.pool.requests[k].connection == Some(c) && c in s'.net
      ensures UsedBy(s', c)
    {
      PassAssigns(s.pool, limits, FlagsNow(s, expired), k);
      assert Holds(s', k, InFlight);
    }
    HoldersKept(s, s');
  }

  lemma ForgetKeepsActive(s: System, limits: Limits, i: nat)
    requires Inv(s, limits) && ActiveHeld(s) && i < |s.phases| && s.phases[i] == Over
    ensures ActiveHeld(Next(s, limits, Forget(i)))
  {
    var s' := Next(s, limits, Forget(i));
    forall k: nat, c | Holds(s, k, InFlight) && s.pool.requests[k].connection == Some(c) && c in s'.net
      ensures UsedBy(s', c)
    {
      assert Holds(s', if k < i then k else k - 1, InFlight);
    }
    HoldersKept(s, s');
  }

  lemma StepKeepsActive(s: System, limits: Limits, step: Step)
    requires Inv(s, limits) && ActiveHeld(s)
    ensures ActiveHeld(Next(s, limits, step))
  {
    var s' := Next(s, limits, step);
    match step
    case RunPass(expired) => PassKeepsActive(s, limits, expired);
    case Connect(i, ok) =>
      if Holds(s, i, Waiting) && NetOf(s, i) == Connecting {
        SetNetKeepsActive(s, limits, i, if ok then Open(NEW) else Failed, if ok then Waiting else Over);
      }
    case StartRequest(i) =>
      if Holds(s, i, Waiting) && NetOf(s, i).Open? {
        assert Healthy(s, i);
        SetNetKeepsActive(s, limits, i, Open(ACTIVE), InFlight);
      }
    case EndResponse(i, bothDone) =>
      if Holds(s, i, InFlight) {
        SetNetKeepsActive(s, limits, i, Ended(bothDone), Over);
      }
    case Forget(i) =>
      if i < |s.phases| && s.phases[i] == Over {
        ForgetKeepsActive(s, limits, i);
      }
    case _ => QuietStepKeepsActive(s, limits, step);
  }

  lemma QuietStepKeepsActive(s: System, limits: Limits, step: Step)
    requires Inv(s, limits) && ActiveHeld(s) && (step.Submit? || step.CloseDetached? || step.Abandon?)
    ensures ActiveHeld(Next(s, limits, step))
  {
    var s' := Next(s, limits, step);
    forall k: nat, c | Holds(s, k, InFlight) && s.pool.requests[k].connection == Some(c) && c in s'.net
      ensures UsedBy(s', c)
    {
      assert Holds(s', k, InFlight);
    }
    HoldersKept(s, s');
  }

  /** The state after a run from the empty pool. */
  ghost function Run(limits: Limits, steps: seq<Step>): (s: System)
    ensures Inv(s, limits) && ActiveHeld(s)
    decreases |steps|
  {
    if steps == [] then INITIAL
    else
      var s := Run(limits, steps[..|steps| - 1]);
      StepKeepsInv(s, limits, steps[|steps| - 1]);
      StepKeepsActive(s, limits, steps[|steps| - 1]);
      Next(s, limits, steps[|steps| - 1])
  }

  lemma RunMore(limits: Limits, steps: seq<Step>, step: Step)
    ensures Run(limits, steps + [step]) == Next(Run(limits, steps), limits, step)
  {
    assert (steps + [step])[..|steps|] == steps;
  }

  /** In every reachable state no connection carries two requests at once, nor is any shared at all. */
  lemma AtMostOneRequestPerConnection(limits: Limits, steps: seq<Step>, i: nat, j: nat)
    requires var s := Run(limits, steps); i < |s.phases| && j < |s.phases| && i != j
    ensures var rs := Run(limits, steps).pool.requests;
      |rs| == |Run(limits, steps).phases| && (rs[i].connection.Some? ==> rs[i].connection != rs[j].connection)
  {
    var s := Run(limits, steps);
    assert Inv(s, limits);
  }

  /** A request that starts on its assigned connection finds it new or idle: it is never refused. */
  lemma NeverRefused(limits: Limits, steps: seq<Step>, i: nat)
    requires var s := Run(limits, steps); Holds(s, i, Waiting) && NetOf(s, i).Open?
    ensures var s := Run(limits, steps); var s' := Next(s, limits, StartRequest(i));
      && CanStart(NetOf(s, i))
      && Holds(s', i, InFlight) && NetOf(s', i) == Open(ACTIVE)
      && s'.pool == s.pool
  {
    var s := Run(limits, steps);
    assert Healthy(s, i);
  }

  /** No request's connection is closed or handed to another origin while the request waits for it or uses it. */
  lemma HeldConnectionsStayUsable(limits: Limits, steps: seq<Step>, i: nat)
    requires var s := Run(limits, steps); i < |s.phases| && s.phases[i] != Over && i < |s.pool.requests|
    requires Run(limits, steps).pool.requests[i].connection.Some?
    ensures var s := Run(limits, steps); var c := s.pool.requests[i].connection.value;
      && c in s.net && s.net[c] != Failed && s.net[c] != Open(CLOSED) && c !in s.detached
      && c in s.pool.origins && s.pool.origins[c] == s.pool.requests[i].origin
  {
    assert Healthy(Run(limits, steps), i);
  }

  /** In every reachable state the pool respects `max_connections`. */
  lemma CapacityRespected(limits: Limits, steps: seq<Step>)
    ensures |Run(limits, steps).pool.connections| <= AtLeastZero(limits.maxConnections)
  {
    assert Inv(Run(limits, steps), limits);
  }
}

/**
  What becomes of connections that no request holds any more: those never used stay for ever, all others can still be
  released. Enough of the former end all service.
 */
module PoolStranded {
  import opened Lists
  import opened ConnectionPool
  import opened PoolTheorems
  import opened PoolPass
  import opened Http11
  import opened PoolRuns

  ghost predicate Unheld(s: System, c: ConnId) {
    forall i :: 0 <= i < |s.pool.requests| ==> s.pool.requests[i].connection != Some(c)
  }

  /** An established connection that was never used and that no request holds. */
  ghost predicate Stranded(s: System, c: ConnId)
    requires WellFormed(s)
  {
    c in s.pool.connections && c in s.net && s.net[c] == Open(NEW) && c !in s.detached && Unheld(s, c)
  }

  // ---- which connections are stranded --------------------------------------

  /** No step uses, drops or closes a stranded connection. */
  lemma StrandedStep(s: System, limits: Limits, step: Step, c: ConnId)
    requires Inv(s, limits) && Stranded(s, c)
    ensures WellFormed(Next(s, limits, step)) && Stranded(Next(s, limits, step), c)
  {
    StepKeepsInv(s, limits, step);
    if step.RunPass? {
      StrandedPass(s, limits, step.expired, c);
    }
  }

  lemma StrandedPass(s: System, limits: Limits, expired: set<ConnId>, c: ConnId)
    requires Inv(s, limits) && Stranded(s, c)
    requires WellFormed(AfterPass(s, limits, expired))
    ensures Stranded(AfterPass(s, limits, expired), c)
  {
    var flags := FlagsNow(s, expired);
    var r := Pass(s.pool, limits, flags);
    PassPartition(s.pool, limits, flags);
    if c in r.closing {
      PassClosesOnlyUnused(s.pool, limits, flags, c);
    }
    LengthKept(s.pool, limits, flags);
    forall i | 0 <= i < |r.pool.requests| ensures r.pool.requests[i].connection != Some(c) {
      PassAssigns(s.pool, limits, flags, i);
    }
  }

  /**
    A request abandoned after its connection is established but before it starts leaves a connection that nothing
    in the pool will ever use, drop or close: it keeps its slot in every continuation of the run.
   */
  lemma {:induction false} StrandedForever(limits: Limits, steps: seq<Step>, more: seq<Step>, c: ConnId)
    requires Stranded(Run(limits, steps), c)
    ensures Stranded(Run(limits, steps + more), c)
    decreases |more|
  {
    if more == [] {
      assert steps + more == steps;
    } else {
      StrandedForever(limits, steps, more[..|more| - 1], c);
      LastStep(steps, more);
      StrandedMore(limits, steps + more[..|more| - 1], more[|more| - 1], c);
    }
  }

  lemma StrandedMore(limits: Limits, steps: seq<Step>, step: Step, c: ConnId)
    requires Stranded(Run(limits, steps), c)
    ensures Stranded(Run(limits, steps + [step]), c)
  {
    StrandedStep(Run(limits, steps), limits, step, c);
    RunMore(limits, steps, step);
  }

  lemma LastStep(steps: seq<Step>, more: seq<Step>)
    requires more != []
    ensures steps + more[..|more| - 1] + [more[|more| - 1]] == steps + more
  {
  }

  /** Any other connection that no request holds is gone after a pass that finds it expired. */
  lemma UnheldIsReleased(s: System, limits: Limits, c: ConnId)
    requires Inv(s, limits) && ActiveHeld(s)
    requires c in s.pool.connections && Unheld(s, c) && s.net[c] != Open(NEW)
    ensures c !in AfterPass(s, limits, {c}).pool.connections
  {
    var flags := FlagsNow(s, {c});
    assert s.net[c] != Open(ACTIVE);
    assert c !in Reserved(s.pool.requests);
    PassPartition(s.pool, limits, flags);
    if !Dropped(c, Reserved(s.pool.requests), flags) {
      ExpiredIsClosed(s.pool, limits, flags, c);
    }
  }

  lemma ExpiredIsClosed(p: PoolState, limits: Limits, flags: map<ConnId, Flags>, c: ConnId)
    requires p.Valid() && Covers(p.connections, flags)
    requires c in p.connections && Expires(c, Reserved(p.requests), flags)
    ensures c in Pass(p, limits, flags).closing
  {
    StartBegins(p, limits, flags);
    ScanProgress(Start(p, limits, flags), p.requests, flags);
  }

  /** A listed connection that no request holds survives every continuation exactly if it is new: never used. */
  lemma StrandedExactly(limits: Limits, steps: seq<Step>, c: ConnId)
    requires c in Run(limits, steps).pool.connections && Unheld(Run(limits, steps), c)
    ensures c in Run(limits, steps).net
    ensures (forall more: seq<Step> :: c in Run(limits, steps + more).pool.connections)
      <==> Run(limits, steps).net[c] == Open(NEW)
  {
    var s := Run(limits, steps);
    if s.net[c] == Open(NEW) {
      forall more: seq<Step> ensures c in Run(limits, steps + more).pool.connections {
        StrandedForever(limits, steps, more, c);
      }
    } else {
      UnheldIsReleased(s, limits, c);
      RunMore(limits, steps, RunPass({c}));
      assert c !in Run(limits, steps + [RunPass({c})]).pool.connections;
    }
  }

  // ---- how connections are stranded ----------------------------------------

  /** All listed connections are stranded, but for those in `except`. */
  ghost predicate Filled(s: System, except: set<ConnId>) {
    WellFormed(s) && forall c :: c in s.pool.connections && c !in except ==> Stranded(s, c)
  }

  lemma StepKeepsFilled(s: System, limits: Limits, step: Step, except: set<ConnId>)
    requires Inv(s, limits) && Filled(s, except) && !step.RunPass?
    ensures Filled(Next(s, limits, step), except) && Next(s, limits, step).pool.connections == s.pool.connections
  {
    StepKeepsInv(s, limits, step);
    forall c | c in s.pool.connections && c !in except ensures Stranded(Next(s, limits, step), c) {
      StrandedStep(s, limits, step, c);
    }
  }

  lemma PassKeepsStranded(s: System, limits: Limits, expired: set<ConnId>)
    requires Inv(s, limits) && Filled(s, {})
    ensures var s' := AfterPass(s, limits, expired); WellFormed(s') && Distinct(s'.pool.connections)
    ensures forall c :: c in s.pool.connections ==> Stranded(AfterPass(s, limits, expired), c)
  {
    PassKeepsInv(s, limits, expired);
    forall c | c in s.pool.connections ensures Stranded(AfterPass(s, limits, expired), c) {
      StrandedPass(s, limits, expired, c);
    }
  }

  /** With room and nothing available, a single queued request gets a new connection. */
  lemma OpensOne(p: PoolState, limits: Limits, flags: map<ConnId, Flags>)
    requires p.Valid() && Covers(p.connections, flags) && |p.connections| < limits.maxConnections
    requires forall c :: c in p.connections ==> !flags[c].available
    requires |p.requests| == 1 && p.requests[0].IsQueued()
    ensures var p' := Pass(p, limits, flags).pool;
      && |p'.requests| == 1 && p'.requests[0].connection == Some(p.next) && p'.next == p.next + 1
      && p.next in p'.connections
  {
    var m0, m := PassScan(p, limits, flags);
    var r := p.requests[0];
    assert p.requests == [r] && [r][..0] == [];
    assert m == MatchOne(m0, r, flags);
  }

  // One round, step by step: the request is submitted, assigned, connected, abandoned and forgotten.

  /** Only stranded connections, no request. */
  ghost predicate Idles(s: System, size: nat) {
    Filled(s, {}) && |s.phases| == 0 && |s.pool.connections| == size
  }

  ghost predicate OneQueued(s: System, size: nat) {
    Filled(s, {}) && s.phases == [Waiting] && s.pool.requests[0].IsQueued() && |s.pool.connections| == size
  }

  /** One request is listed, for connection `c`; all other connections are stranded. */
  ghost predicate OneHolds(s: System, c: ConnId, n: Net, ph: Phase, size: nat) {
    && Filled(s, {c}) && |s.phases| == 1 && Holds(s, 0, ph) && NetOf(s, 0) == n
    && s.pool.requests[0].connection == Some(c) && c in s.pool.connections && |s.pool.connections| > size
  }

  lemma RoundSubmit(limits: Limits, steps: seq<Step>, origin: Origin, size: nat)
    requires Idles(Run(limits, steps), size)
    ensures OneQueued(Run(limits, steps + [Submit(origin)]), size)
  {
    StepKeepsFilled(Run(limits, steps), limits, Submit(origin), {});
    RunMore(limits, steps, Submit(origin));
  }

  lemma RoundPass(limits: Limits, steps: seq<Step>, size: nat)
    requires OneQueued(Run(limits, steps), size) && size < limits.maxConnections
    ensures OneHolds(Run(limits, steps + [RunPass({})]), Run(limits, steps).pool.next, Connecting, Waiting, size)
  {
    RunMore(limits, steps, RunPass({}));
    PassOpensOne(Run(limits, steps), limits, size);
  }

  lemma PassOpensOne(s: System, limits: Limits, size: nat)
    requires Inv(s, limits) && OneQueued(s, size) && size < limits.maxConnections
    ensures OneHolds(AfterPass(s, limits, {}), s.pool.next, Connecting, Waiting, size)
  {
    PassKeepsStranded(s, limits, {});
    OpensOne(s.pool, limits, FlagsNow(s, {}));
    PassFills(s, limits);
  }

  lemma PassFills(s: System, limits: Limits)
    requires Inv(s, limits) && Filled(s, {})
    requires var p' := AfterPass(s, limits, {}).pool; p'.next == s.pool.next + 1 && s.pool.next in p'.connections
    ensures Filled(AfterPass(s, limits, {}), {s.pool.next})
    ensures |AfterPass(s, limits, {}).pool.connections| > |s.pool.connections|
  {
    PassKeepsStranded(s, limits, {});
    PassPartition(s.pool, limits, FlagsNow(s, {}));
    PassGrows(s.pool.connections, AfterPass(s, limits, {}).pool.connections, s.pool.next);
  }

  lemma PassGrows(before: seq<ConnId>, after: seq<ConnId>, c: ConnId)
    requires Distinct(before) && (forall x :: x in before ==> x in after && x != c) && c in after
    ensures |after| > |before|
  {
    OneLonger(before, after, c);
  }

  lemma RoundConnect(limits: Limits, steps: seq<Step>, c: ConnId, size: nat)
    requires OneHolds(Run(limits, steps), c, Connecting, Waiting, size)
    ensures OneHolds(Run(limits, steps + [Connect(0, true)]), c, Open(NEW), Waiting, size)
  {
    StepKeepsFilled(Run(limits, steps), limits, Connect(0, true), {c});
    RunMore(limits, steps, Connect(0, true));
  }

  lemma RoundAbandon(limits: Limits, steps: seq<Step>, c: ConnId, size: nat)
    requires OneHolds(Run(limits, steps), c, Open(NEW), Waiting, size)
    ensures OneHolds(Run(limits, steps + [Abandon(0)]), c, Open(NEW), Over, size)
  {
    StepKeepsFilled(Run(limits, steps), limits, Abandon(0), {c});
    RunMore(limits, steps, Abandon(0));
  }

  lemma RoundForget(limits: Limits, steps: seq<Step>, c: ConnId, size: nat)
    requires OneHolds(Run(limits, steps), c, Open(NEW), Over, size)
    ensures var s := Run(limits, steps + [Forget(0)]); |s.pool.connections| > size && Idles(s, |s.pool.connections|)
  {
    StepKeepsFilled(Run(limits, steps), limits, Forget(0), {c});
    RunMore(limits, steps, Forget(0));
    assert Stranded(Run(limits, steps + [Forget(0)]), c);
  }

  /** The five steps that strand a connection: a request is cancelled once connected and before it starts. */
  function Round(origin: Origin): seq<Step> {
    [Submit(origin)] + [RunPass({})] + [Connect(0, true)] + [Abandon(0)] + [Forget(0)]
  }

  lemma RoundStrands(limits: Limits, steps: seq<Step>, origin: Origin, size: nat)
    requires Idles(Run(limits, steps), size) && size < limits.maxConnections
    ensures var s := Run(limits, steps + Round(origin)); |s.pool.connections| > size && Idles(s, |s.pool.connections|)
  {
    var c := RoundOpens(limits, steps, origin, size);
    var open := steps + [Submit(origin)] + [RunPass({})] + [Connect(0, true)];
    RoundAbandon(limits, open, c, size);
    RoundForget(limits, open + [Abandon(0)], c, size);
    RoundSplit(steps, origin);
  }

  lemma RoundOpens(limits: Limits, steps: seq<Step>, origin: Origin, size: nat) returns (c: ConnId)
    requires Idles(Run(limits, steps), size) && size < limits.maxConnections
    ensures var open := steps + [Submit(origin)] + [RunPass({})] + [Connect(0, true)];
      OneHolds(Run(limits, open), c, Open(NEW), Waiting, size)
  {
    RoundSubmit(limits, steps, origin, size);
    c := Run(limits, steps + [Submit(origin)]).pool.next;
    RoundPass(limits, steps + [Submit(origin)], size);
    RoundConnect(limits, steps + [Submit(origin)] + [RunPass({})], c, size);
  }

  lemma RoundSplit(steps: seq<Step>, origin: Origin)
    ensures steps + Round(origin)
      == steps + [Submit(origin)] + [RunPass({})] + [Connect(0, true)] + [Abandon(0)] + [Forget(0)]
  {
  }

  /** A run that strands a connection, with the queue empty afterwards. */
  lemma StrandedRun(limits: Limits, origin: Origin)
    requires limits.maxConnections >= 1
    ensures var s := Run(limits, Round(origin));
      |s.pool.connections| >= 1 && Stranded(s, s.pool.connections[0]) && |s.pool.requests| == 0
  {
    assert Run(limits, []) == INITIAL;
    RoundStrands(limits, [], origin, 0);
    assert [] + Round(origin) == Round(origin);
  }

  // ---- the end of service --------------------------------------------------

  /** Stranded connections take up the whole pool. */
  ghost predicate Dead(s: System, limits: Limits) {
    Filled(s, {}) && |s.pool.connections| >= limits.maxConnections
  }

  /** The requests that have been given a connection. */
  function AssignedIds(s: System): set<nat> {
    set i | 0 <= i < |s.pool.requests| && s.pool.requests[i].connection.Some? :: s.pool.requests[i].id
  }

  lemma DeadPass(s: System, limits: Limits, expired: set<ConnId>)
    requires Inv(s, limits) && Dead(s, limits)
    ensures WellFormed(AfterPass(s, limits, expired)) && Dead(AfterPass(s, limits, expired), limits)
    ensures AssignedIds(AfterPass(s, limits, expired)) <= AssignedIds(s)
  {
    var s', flags := AfterPass(s, limits, expired), FlagsNow(s, expired);
    PassKeepsStranded(s, limits, expired);
    PassCapacity(s.pool, limits, flags);
    forall c | c in s'.pool.connections ensures c in s.pool.connections {
      if c !in s.pool.connections {
        OneMoreMember(s.pool.connections, s'.pool.connections, c);
      }
    }
    NoneMissing(s.pool.connections, s'.pool.connections, {});
    DeadPassAssigns(s, limits, expired);
  }

  lemma DeadPassAssigns(s: System, limits: Limits, expired: set<ConnId>)
    requires Inv(s, limits) && Filled(s, {})
    requires forall c :: c in AfterPass(s, limits, expired).pool.connections ==> c in s.pool.connections
    ensures AssignedIds(AfterPass(s, limits, expired)) <= AssignedIds(s)
  {
    var s', flags := AfterPass(s, limits, expired), FlagsNow(s, expired);
    LengthKept(s.pool, limits, flags);
    PassPartition(s.pool, limits, flags);
    forall i | 0 <= i < |s'.pool.requests| && s'.pool.requests[i].connection.Some?
      ensures s.pool.requests[i].id == s'.pool.requests[i].id && s.pool.requests[i].connection.Some?
    {
      PassAssigns(s.pool, limits, flags, i);
    }
  }

  lemma DeadStep(s: System, limits: Limits, step: Step)
    requires Inv(s, limits) && Dead(s, limits)
    ensures var s' := Next(s, limits, step);
      Dead(s', limits) && AssignedIds(s') <= AssignedIds(s) && s.nextRequest <= s'.nextRequest
  {
    StepKeepsInv(s, limits, step);
    if step.RunPass? {
      DeadPass(s, limits, step.expired);
    } else {
      StepKeepsFilled(s, limits, step, {});
      NothingAssigned(s, limits, step);
    }
  }

  /** Only a pass assigns connections. */
  lemma NothingAssigned(s: System, limits: Limits, step: Step)
    requires WellFormed(s) && !step.RunPass?
    ensures AssignedIds(Next(s, limits, step)) <= AssignedIds(s)
  {
    var rs, rs' := s.pool.requests, Next(s, limits, step).pool.requests;
    forall i | 0 <= i < |rs'| && rs'[i].connection.Some? ensures rs'[i].id in AssignedIds(s) {
      var k := if step.Forget? && |rs'| < |rs| && i >= step.i then i + 1 else i;
      assert k < |rs| && rs[k] == rs'[i];
    }
  }

  /** In a dead pool no request is given a connection any more. */
  lemma {:induction false} DeadForever(limits: Limits, steps: seq<Step>, more: seq<Step>)
    requires Dead(Run(limits, steps), limits)
    ensures Dead(Run(limits, steps + more), limits)
    ensures AssignedIds(Run(limits, steps + more)) <= AssignedIds(Run(limits, steps))
    ensures Run(limits, steps).nextRequest <= Run(limits, steps + more).nextRequest
    decreases |more|
  {
    if more == [] {
      assert steps + more == steps;
    } else {
      var init, last := more[..|more| - 1], more[|more| - 1];
      DeadForever(limits, steps, init);
      DeadStep(Run(limits, steps + init), limits, last);
      RunMore(limits, steps + init, last);
      LastStep(steps, more);
    }
  }

  /** A request submitted to a dead pool stays queued for as long as it is listed. */
  lemma LaterRequestsStarve(limits: Limits, steps: seq<Step>, more: seq<Step>, i: nat)
    requires Dead(Run(limits, steps), limits)
    requires var s' := Run(limits, steps + more);
      i < |s'.pool.requests| && s'.pool.requests[i].id >= Run(limits, steps).nextRequest
    ensures Run(limits, steps + more).pool.requests[i].IsQueued()
  {
    DeadForever(limits, steps, more);
    AssignedAreOld(Run(limits, steps), limits);
    AssignedAll(Run(limits, steps + more));
  }

  lemma AssignedAll(s: System)
    ensures forall i :: 0 <= i < |s.pool.requests| && s.pool.requests[i].connection.Some? ==>
      s.pool.requests[i].id in AssignedIds(s)
  {
  }

  lemma AssignedAreOld(s: System, limits: Limits)
    requires Inv(s, limits)
    ensures forall id :: id in AssignedIds(s) ==> id < s.nextRequest
  {
    forall i | 0 <= i < |s.pool.requests| ensures s.pool.requests[i].id < s.nextRequest {
      assert Healthy(s, i);
    }
  }

  /** Every pool can be killed, whatever its limit: a run of such rounds fills it, one connection at a time. */
  lemma PoolDies(limits: Limits, origin: Origin) returns (steps: seq<Step>)
    ensures Dead(Run(limits, steps), limits) && |Run(limits, steps).pool.requests| == 0
  {
    steps := [];
    assert Run(limits, steps) == INITIAL;
    var size := 0;
    while size < limits.maxConnections
      invariant Idles(Run(limits, steps), size)
      decreases limits.maxConnections - size
    {
      RoundStrands(limits, steps, origin, size);
      steps := steps + Round(origin);
      size := |Run(limits, steps).pool.connections|;
    }
  }
}

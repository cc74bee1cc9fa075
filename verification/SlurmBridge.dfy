// Resume's admission branch, suspend and sweep as the source writes them: loops
// over nodes and instances that update the hold store in place.

module SlurmBridge {
  import opened CohortTypes
  import opened HoldLedger
  import opened SweepRules
  import HoldRaces

  datatype StopMode = StopWarm | StopHibernate

  datatype Teardown = Terminate(id: EntityID) | Stop(id: EntityID, mode: StopMode)

  // A partition's warm pool decides between stopping and terminating.
  function SuspendAction(hibernated: int, stopped: int, id: EntityID): Teardown {
    if hibernated > 0 then Stop(id, StopHibernate)
    else if stopped > 0 then Stop(id, StopWarm)
    else Terminate(id)
  }

  // What one node's teardown and reconcile meet.
  datatype NodeAnswers = NodeAnswers(torn: bool, answers: Answers)

  // The ledger steps of a suspend over the first n nodes.
  function SuspendOps(nodes: seq<EntityID>, env: nat -> NodeAnswers, n: nat): seq<Op>
    requires n <= |nodes|
  {
    seq(n, k requires 0 <= k < n => TearDown(nodes[k], env(k).torn, env(k).answers))
  }

  function FailedNodes(nodes: seq<EntityID>, env: nat -> NodeAnswers, n: nat): seq<EntityID>
    requires n <= |nodes|
  {
    if n == 0 then [] else FailedNodes(nodes, env, n - 1) + if env(n - 1).torn then [] else [nodes[n - 1]]
  }

  // The nodes named failed are those whose call failed, and as many.
  lemma {:induction false} FailedNodesAre(nodes: seq<EntityID>, env: nat -> NodeAnswers, n: nat)
    requires n <= |nodes|
    ensures forall k: nat :: k < n && !env(k).torn ==> nodes[k] in FailedNodes(nodes, env, n)
    ensures forall id :: id in FailedNodes(nodes, env, n) ==> exists k: nat :: k < n && nodes[k] == id && !env(k).torn
    ensures |FailedNodes(nodes, env, n)| == FailuresIn(env, n)
  {
    if n > 0 {
      FailedNodesAre(nodes, env, n - 1);
      var before := FailedNodes(nodes, env, n - 1);
      var all := FailedNodes(nodes, env, n);
      assert forall id :: id in all <==> id in before || (id == nodes[n - 1] && !env(n - 1).torn);
    }
  }

  function FailuresIn(env: nat -> NodeAnswers, n: nat): nat {
    if n == 0 then 0 else FailuresIn(env, n - 1) + if env(n - 1).torn then 0 else 1
  }

  // Warm capacity decides: hibernated nodes are wanted before stopped ones, and with
  // neither the node is terminated.
  lemma SuspendActionIs(hibernated: int, stopped: int, id: EntityID)
    ensures SuspendAction(hibernated, stopped, id) == Stop(id, StopHibernate) <==> hibernated > 0
    ensures SuspendAction(hibernated, stopped, id) == Stop(id, StopWarm) <==> hibernated <= 0 && stopped > 0
    ensures SuspendAction(hibernated, stopped, id) == Terminate(id) <==> hibernated <= 0 && stopped <= 0
  {
  }

  // The ledger steps of a sweep: one teardown for each reaped position, in order.
  function SweepOps(f: Fleet, env: nat -> NodeAnswers, reaped: seq<nat>): seq<Op> {
    seq(|reaped|, k requires 0 <= k < |reaped| =>
      if reaped[k] < |f.instances| then
        TearDown(f.instances[reaped[k]].entity, env(reaped[k]).torn, env(reaped[k]).answers)
      else TearDown("", false, env(reaped[k]).answers))
  }

  lemma ApplyNext(l: Ledger, ops: seq<Op>, op: Op)
    ensures ApplyAll(l, ops + [op]) == Apply(ApplyAll(l, ops), op)
  {
    assert (ops + [op])[..|ops|] == ops;
  }

  lemma NextSuspendOp(l: Ledger, nodes: seq<EntityID>, env: nat -> NodeAnswers, k: nat)
    requires k < |nodes|
    ensures ApplyAll(l, SuspendOps(nodes, env, k + 1))
         == if env(k).torn then HoldLedger.ReconcileHold(ApplyAll(l, SuspendOps(nodes, env, k)), nodes[k], env(k).answers)
            else ApplyAll(l, SuspendOps(nodes, env, k))
  {
    var op := TearDown(nodes[k], env(k).torn, env(k).answers);
    assert SuspendOps(nodes, env, k + 1) == SuspendOps(nodes, env, k) + [op];
    ApplyNext(l, SuspendOps(nodes, env, k), op);
    hide ApplyAll, HoldLedger.ReconcileHold;
  }

  lemma NextSweepOp(l: Ledger, f: Fleet, env: nat -> NodeAnswers, reaped: seq<nat>, i: nat)
    requires i < |f.instances|
    ensures ApplyAll(l, SweepOps(f, env, reaped + [i]))
         == if env(i).torn then
              HoldLedger.ReconcileHold(ApplyAll(l, SweepOps(f, env, reaped)), f.instances[i].entity, env(i).answers)
            else ApplyAll(l, SweepOps(f, env, reaped))
  {
    var op := TearDown(f.instances[i].entity, env(i).torn, env(i).answers);
    assert SweepOps(f, env, reaped + [i]) == SweepOps(f, env, reaped) + [op];
    ApplyNext(l, SweepOps(f, env, reaped), op);
    hide ApplyAll, HoldLedger.ReconcileHold;
  }

  class Bridge {
    // The hold store, and its history.
    var holds: map<EntityID, Stored>
    ghost var issued: seq<Hold>
    ghost var charges: seq<Charge>
    ghost var stuck: seq<nat>
    var nextSerial: nat

    ghost function Books(): Ledger
      reads this
    {
      Ledger(holds, issued, charges, stuck)
    }

    ghost predicate Valid()
      reads this
    {
      nextSerial == |issued|
    }

    constructor ()
      ensures Books() == EMPTY && Valid()
    {
      holds, issued, charges, stuck, nextSerial := map[], [], [], [], 0;
    }

    method PutHold(h: Hold, ok: bool)
      requires Valid()
      modifies this
      ensures Valid() && Books() == Put(old(Books()), h, ok)
    {
      if !ok || h.entity == "" {
        return;
      }
      holds := holds[h.entity := Stored(nextSerial, h)];
      nextSerial := nextSerial + 1;
      issued := issued + [h];
    }

    method DeleteHold(id: EntityID, ok: bool)
      requires Valid() && id in holds
      modifies this
      ensures Valid() && Books() == Delete(old(Books()), id, ok)
    {
      if ok {
        holds := holds - {id};
      } else {
        stuck := stuck + [holds[id].serial];
      }
    }

    // Close one torn-down node's hold: charge rate x runtime, then remove it; a
    // failure at any point leaves the rest undone.
    method ReconcileHold(id: EntityID, a: Answers)
      requires Valid()
      modifies this
      ensures Valid() && Books() == HoldLedger.ReconcileHold(old(Books()), id, a)
    {
      if id !in holds || !a.readOk {
        return;
      }
      var h := holds[id].hold;
      if !a.canReconcile {
        DeleteHold(id, a.deleteOk);
        return;
      }
      var runtime := if a.now - h.startedAt < 0 then 0 else a.now - h.startedAt;
      var runtimeHours := runtime as real / HOUR as real;
      var actualCost := h.hourlyRate * runtimeHours;
      assert runtimeHours == 0.0 ==> actualCost == 0.0;
      assert actualCost == Amount(h, a.now);
      if !a.reconcileOk {
        return;
      }
      charges := charges + [Charge(holds[id].serial, h.transactionID, h.account, actualCost, a.now)];
      DeleteHold(id, a.deleteOk);
    }

    method PersistHolds(nodes: seq<EntityID>, txn: string, account: string, partition: string, estimatedCost: real,
                        now: Time, putOk: nat -> bool)
      requires Valid()
      modifies this
      ensures Valid()
      ensures Books() ==
              if txn == "" then old(Books())
              else ApplyAll(old(Books()), PersistOps(nodes, txn, account, partition, PerNode(estimatedCost, |nodes|), now, putOk))
    {
      if txn == "" {
        return;
      }
      var perNodeRate := 0.0;
      if |nodes| > 0 {
        perNodeRate := estimatedCost / |nodes| as real;
      }
      ghost var ops := PersistOps(nodes, txn, account, partition, perNodeRate, now, putOk);
      for k := 0 to |nodes|
        invariant Valid() && Books() == ApplyAll(old(Books()), ops[..k])
      {
        assert ops[..k + 1] == ops[..k] + [ops[k]];
        ApplyNext(old(Books()), ops[..k], ops[k]);
        PutHold(Hold(nodes[k], txn, account, partition, perNodeRate, now), putOk(k));
      }
      assert ops[..|nodes|] == ops;
    }

    // Resume up to the launch: refused nodes are not launched and store nothing.
    method AdmitNodes(nodes: seq<EntityID>, v: Verdict, mode: FailMode, account: string, partition: string, now: Time,
                      putOk: nat -> bool)
      returns (refused: bool)
      requires Valid()
      modifies this
      ensures Valid() && Books() == AfterCall(old(Books()), Resumed(nodes, v, mode, account, partition, now, putOk))
      ensures refused <==> v.Denied? || (v.AdmitError? && mode == FailStrict)
    {
      match CheckAdmission(v, mode) {
        case RefusedNodes =>
          return true;
        case AdmittedWith(cost, txn) =>
          PersistHolds(nodes, txn, account, partition, cost, now, putOk);
          return false;
      }
    }

    // Every node of the hostlist gets one teardown call, past failures; a hold is
    // reconciled only after its node's call succeeded.
    method Suspend(nodes: seq<EntityID>, hibernated: int, stopped: int, env: nat -> NodeAnswers)
      returns (calls: seq<Teardown>, failed: seq<EntityID>)
      requires Valid()
      modifies this
      ensures Valid() && Books() == AfterCall(old(Books()), Suspended(nodes, env))
      ensures |calls| == |nodes| && forall k :: 0 <= k < |nodes| ==> calls[k] == SuspendAction(hibernated, stopped, nodes[k])
      ensures failed == FailedNodes(nodes, env, |nodes|)
    {
      assert AfterCall(Books(), Suspended(nodes, env)) == ApplyAll(Books(), SuspendOps(nodes, env, |nodes|));
      hide AfterCall, ApplyAll, SuspendOps, SuspendAction, HoldLedger.ReconcileHold;
      calls, failed := [], [];
      for k := 0 to |nodes|
        invariant AfterCall(old(Books()), Suspended(nodes, env)) == ApplyAll(old(Books()), SuspendOps(nodes, env, |nodes|))
        invariant Valid() && Books() == ApplyAll(old(Books()), SuspendOps(nodes, env, k))
        invariant |calls| == k && forall j :: 0 <= j < k ==> calls[j] == SuspendAction(hibernated, stopped, nodes[j])
        invariant failed == FailedNodes(nodes, env, k)
      {
        NextSuspendOp(old(Books()), nodes, env, k);
        calls := calls + [SuspendAction(hibernated, stopped, nodes[k])];
        if !env(k).torn {
          failed := failed + [nodes[k]];
          continue;
        }
        ReconcileHold(nodes[k], env(k).answers);
      }
    }

    // Decide every described instance in order. Without a current generation the
    // sweep is refused; a dry run reports and touches nothing.
    method Sweep(f: Fleet, dryRun: bool, env: nat -> NodeAnswers)
      returns (refused: bool, reaped: seq<nat>, spared: seq<(nat, Reason)>, terminated: seq<EntityID>)
      requires Valid()
      modifies this
      ensures Valid() && Books() == AfterCall(old(Books()), Swept(f, dryRun, env))
      ensures refused <==> f.current == ""
      ensures refused ==> reaped == [] && spared == [] && terminated == []
      ensures !refused ==>
                && reaped == Positions(f, true, |f.instances|)
                && |spared| == |Positions(f, false, |f.instances|)|
                && (forall k :: 0 <= k < |spared| ==>
                      var i := spared[k].0;
                      i == Positions(f, false, |f.instances|)[k] && i < |f.instances|
                      && spared[k].1 == Decide(f.instances[i], f.current, f.grace, f.now(i)))
                && (dryRun ==> terminated == [])
                && (!dryRun ==>
                      && |terminated| == |reaped|
                      && (forall k :: 0 <= k < |reaped| ==>
                            reaped[k] < |f.instances| && terminated[k] == f.instances[reaped[k]].entity))
    {
      assert ApplyAll(Books(), SweepOps(f, env, [])) == Books();
      hide ApplyAll, SweepOps, HoldLedger.ReconcileHold;
      reaped, spared, terminated := [], [], [];
      if f.current == "" {
        return true, reaped, spared, terminated;
      }
      refused := false;
      for i := 0 to |f.instances|
        invariant Valid()
        invariant reaped == Positions(f, true, i) && |spared| == |Positions(f, false, i)|
        invariant forall k :: 0 <= k < |spared| ==>
                    spared[k].0 == Positions(f, false, i)[k] && spared[k].0 < |f.instances|
                    && spared[k].1 == Decide(f.instances[spared[k].0], f.current, f.grace, f.now(spared[k].0))
        invariant dryRun ==> terminated == [] && Books() == old(Books())
        invariant !dryRun ==>
                    |terminated| == |reaped|
                    && (forall k :: 0 <= k < |reaped| ==>
                          reaped[k] < |f.instances| && terminated[k] == f.instances[reaped[k]].entity)
                    && Books() == ApplyAll(old(Books()), SweepOps(f, env, reaped))
      {
        var inst := f.instances[i];
        var why := Decide(inst, f.current, f.grace, f.now(i));
        if why != Stale {
          spared := spared + [(i, why)];
          continue;
        }
        if !dryRun {
          NextSweepOp(old(Books()), f, env, reaped, i);
          terminated := terminated + [inst.entity];
          if env(i).torn {
            ReconcileHold(inst.entity, env(i).answers);
          }
        }
        reaped := reaped + [i];
      }
    }
  }

  // ---- whole runs of the bridge ------------------------------------------------------

  datatype Call =
    | Resumed(nodes: seq<EntityID>, v: Verdict, mode: FailMode, account: string, partition: string, now: HoldLedger.Time,
              putOk: nat -> bool)
    | Suspended(nodes: seq<EntityID>, env: nat -> NodeAnswers)
    | Swept(f: Fleet, dryRun: bool, env: nat -> NodeAnswers)

  // What a call does to the ledger, as the methods above promise it.
  function AfterCall(l: Ledger, call: Call): Ledger {
    match call
    case Resumed(nodes, v, mode, account, partition, now, putOk) => Resume(l, nodes, v, mode, account, partition, now, putOk)
    case Suspended(nodes, env) => ApplyAll(l, SuspendOps(nodes, env, |nodes|))
    case Swept(f, dryRun, env) =>
      if f.current == "" || dryRun then l else ApplyAll(l, SweepOps(f, env, Positions(f, true, |f.instances|)))
  }

  function AfterCalls(l: Ledger, calls: seq<Call>): Ledger {
    if calls == [] then l else AfterCall(AfterCalls(l, calls[..|calls| - 1]), calls[|calls| - 1])
  }

  // The hold store never fails to remove a file.
  ghost predicate SureRemovals(call: Call) {
    !call.Resumed? ==> forall k: nat :: call.env(k).answers.deleteOk
  }

  // A call as ledger steps, and a run of calls as one run of steps.
  function OpsOf(call: Call): seq<Op> {
    match call
    case Resumed(nodes, v, mode, account, partition, now, putOk) =>
      (match CheckAdmission(v, mode)
       case RefusedNodes => []
       case AdmittedWith(cost, txn) =>
         if txn == "" then [] else PersistOps(nodes, txn, account, partition, PerNode(cost, |nodes|), now, putOk))
    case Suspended(nodes, env) => SuspendOps(nodes, env, |nodes|)
    case Swept(f, dryRun, env) =>
      if f.current == "" || dryRun then [] else SweepOps(f, env, Positions(f, true, |f.instances|))
  }

  function AllOps(calls: seq<Call>): seq<Op> {
    if calls == [] then [] else AllOps(calls[..|calls| - 1]) + OpsOf(calls[|calls| - 1])
  }

  lemma CallIsOps(l: Ledger, call: Call)
    ensures AfterCall(l, call) == ApplyAll(l, OpsOf(call))
    ensures SureRemovals(call) ==> RemovalsSucceed(OpsOf(call))
  {
  }

  // Suspending different nodes: each one's hold is closed on its own answers, a failed
  // teardown leaving it alone, and the holds of other entities are not touched.
  lemma SuspendCloses(l: Ledger, nodes: seq<EntityID>, env: nat -> NodeAnswers, k: nat, other: EntityID)
    requires BooksFine(l) && k < |nodes| && other !in nodes
    requires forall i, j :: 0 <= i < j < |nodes| ==> nodes[i] != nodes[j]
    ensures var after := AfterCall(l, Suspended(nodes, env));
            ClosedRight(l, after, nodes[k], env(k).torn, env(k).answers) && Untouched(l, after, other)
  {
    var ops := SuspendOps(nodes, env, |nodes|);
    TearDownsClose(l, ops, k);
    TearDownsElsewhere(l, ops, other);
    hide BooksFine, ClosedRight, Untouched, ApplyAll;
  }

  // Sweeping, where no two instances share an entity tag: a reaped instance's hold is
  // closed on its own answers, and those of entities that are not reaped, or in a dry
  // run or a refused one any, are not touched.
  lemma SweepCloses(l: Ledger, f: Fleet, dryRun: bool, env: nat -> NodeAnswers, i: nat, other: EntityID)
    requires BooksFine(l) && UniqueTags(f) && i < |f.instances| && ReapAt(f, i)
    requires forall j: nat :: j < |f.instances| && ReapAt(f, j) ==> f.instances[j].entity != other
    ensures var after, id := AfterCall(l, Swept(f, dryRun, env)), f.instances[i].entity;
            if f.current == "" || dryRun then after == l
            else ClosedRight(l, after, id, env(i).torn, env(i).answers) && Untouched(l, after, other)
  {
    if f.current != "" && !dryRun {
      var reaped := Positions(f, true, |f.instances|);
      PositionsExact(f, true, |f.instances|);
      var ops := SweepOps(f, env, reaped);
      assert i in reaped;
      var k :| 0 <= k < |reaped| && reaped[k] == i;
      ReapedDiffer(f, env);
      hide Positions, BooksFine, ClosedRight, Untouched, ApplyAll;
      TearDownsClose(l, ops, k);
      TearDownsElsewhere(l, ops, other);
    }
  }

  lemma ReapedDiffer(f: Fleet, env: nat -> NodeAnswers)
    requires UniqueTags(f)
    ensures var reaped := Positions(f, true, |f.instances|);
            var ops := SweepOps(f, env, reaped);
            && AllTearDowns(ops)
            && (forall k :: 0 <= k < |reaped| ==>
                  reaped[k] < |f.instances| && ReapAt(f, reaped[k]) && ops[k].id == f.instances[reaped[k]].entity
                  && ops[k].torn == env(reaped[k]).torn && ops[k].a == env(reaped[k]).answers)
            && (forall j, k :: 0 <= j < k < |ops| ==> ops[j].id != ops[k].id)
  {
    var reaped := Positions(f, true, |f.instances|);
    PositionsExact(f, true, |f.instances|);
    hide Positions;
    assert forall k :: 0 <= k < |reaped| ==> reaped[k] in reaped;
    assert forall k :: 0 <= k < |reaped| ==> f.instances[reaped[k]].entity != "";
  }

  lemma {:induction false} CallsAreOneRun(calls: seq<Call>)
    ensures AfterCalls(EMPTY, calls) == ApplyAll(EMPTY, AllOps(calls))
    ensures (forall i :: 0 <= i < |calls| ==> SureRemovals(calls[i])) ==> RemovalsSucceed(AllOps(calls))
  {
    hide AfterCall, SureRemovals, OpsOf;
    if calls != [] {
      var before, last := calls[..|calls| - 1], calls[|calls| - 1];
      CallsAreOneRun(before);
      CallIsOps(AfterCalls(EMPTY, before), last);
      hide ApplyAll;
      ApplyAllConcat(EMPTY, AllOps(before), OpsOf(last));
    }
  }

  // Over any run of resumes, suspends and sweeps that follow one another, on any
  // answers of the environment: hold number k is charged its rate times its runtime, once if it
  // left the store by a charge and once for every accepted charge whose removal
  // failed, and not otherwise. If removals do not fail that is at most once, and
  // never while it is stored or after it was overwritten.
  lemma EveryRunChargesOnce(calls: seq<Call>, k: nat)
    ensures var l, ops := AfterCalls(EMPTY, calls), AllOps(calls);
            && BooksFine(l)
            && l == ApplyAll(EMPTY, ops)
            && (FateOf(ops, k) == InHand <==> InStore(l, k))
            && ChargesOf(l.charges, k) == KeptCharges(ops, k) + (if FateOf(ops, k) == Settled then 1 else 0)
            && ((forall i :: 0 <= i < |calls| ==> SureRemovals(calls[i])) ==>
                  ChargesOf(l.charges, k) == if FateOf(ops, k) == Settled then 1 else 0)
            && (forall i :: 0 <= i < |l.charges| && l.charges[i].serial == k ==>
                  k < |l.issued| && l.charges[i].amount == Amount(l.issued[k], l.charges[i].at)
                  && l.charges[i].transactionID == l.issued[k].transactionID)
            && ChargesOf(l.charges, k) <= Times(l.stuck, k) + (if InStore(l, k) then 0 else 1)
  {
    var ops := AllOps(calls);
    CallsAreOneRun(calls);
    RunFine(ops);
    ChargedAtMostOnce(ops, k);
    ChargedExactly(ops, k);
    hide AfterCalls, AllOps, ApplyAll, BooksFine, FateOf, KeptCharges, ChargesOf, InStore;
  }

  // The methods above run one after the other: that is the case of HoldRaces in
  // which no two invocations overlap, and the ledger comes out the same.
  lemma CallsOneAtATime(calls: seq<Call>)
    ensures var run := HoldRaces.OneAtATime(AllOps(calls));
            && HoldRaces.NoOverlap(run) && HoldRaces.AllIdle(HoldRaces.After(run))
            && HoldRaces.After(run).l == AfterCalls(EMPTY, calls)
  {
    CallsAreOneRun(calls);
    HoldRaces.OneAtATimeIsAtomic(AllOps(calls));
  }
}

// The budget-hold ledger: resume stores one hold per node, teardown charges and
// removes it. Money and rates are reals, time an integer count of nanoseconds.

module HoldLedger {
  import opened CohortTypes

  type Time = int

  const HOUR: int := 3_600_000_000_000

  datatype Hold = Hold(entity: EntityID, transactionID: string, account: string, partition: string,
                       hourlyRate: real, startedAt: Time)

  // `serial` numbers the stored holds, so that a hold can be told from a later
  // one for the same entity; no operation reads it.
  datatype Stored = Stored(serial: nat, hold: Hold)

  datatype Charge = Charge(serial: nat, transactionID: string, account: string, amount: real, at: Time)

  // `holds` is the store. The rest is history: every hold ever stored, every
  // charge the budget service accepted, and the serials whose removal failed.
  datatype Ledger = Ledger(holds: map<EntityID, Stored>, issued: seq<Hold>, charges: seq<Charge>, stuck: seq<nat>)

  const EMPTY := Ledger(map[], [], [], [])

  // A store write: an empty entity is refused, an existing hold is overwritten.
  function Put(l: Ledger, h: Hold, ok: bool): Ledger {
    if !ok || h.entity == "" then l
    else l.(holds := l.holds[h.entity := Stored(|l.issued|, h)], issued := l.issued + [h])
  }

  function Delete(l: Ledger, id: EntityID, ok: bool): Ledger
    requires id in l.holds
  {
    if ok then l.(holds := l.holds - {id}) else l.(stuck := l.stuck + [l.holds[id].serial])
  }

  function Hours(start: Time, now: Time): real {
    (now - start) as real / HOUR as real
  }

  function Cost(rate: real, hours: real): real {
    rate * hours
  }

  // rate x runtime, a negative runtime counting as none.
  function Amount(h: Hold, now: Time): real {
    if now < h.startedAt then 0.0 else Cost(h.hourlyRate, Hours(h.startedAt, now))
  }

  // What the environment answers while one node's hold is reconciled.
  datatype Answers = Answers(readOk: bool, canReconcile: bool, reconcileOk: bool, deleteOk: bool, now: Time)

  function ReconcileHold(l: Ledger, id: EntityID, a: Answers): Ledger {
    if id !in l.holds || !a.readOk then l
    else if !a.canReconcile then Delete(l, id, a.deleteOk)
    else if !a.reconcileOk then l
    else
      var Stored(serial, h) := l.holds[id];
      Delete(l.(charges := l.charges + [Charge(serial, h.transactionID, h.account, Amount(h, a.now), a.now)]), id, a.deleteOk)
  }

  // One step of the ledger: a hold is put, or a node is torn down, successfully
  // or not. Suspend and sweep reconcile only after a successful teardown.
  datatype Op = PutHold(h: Hold, ok: bool) | TearDown(id: EntityID, torn: bool, a: Answers)

  function Apply(l: Ledger, op: Op): Ledger {
    match op
    case PutHold(h, ok) => Put(l, h, ok)
    case TearDown(id, torn, a) => if torn then ReconcileHold(l, id, a) else l
  }

  function ApplyAll(l: Ledger, ops: seq<Op>): Ledger {
    if ops == [] then l else Apply(ApplyAll(l, ops[..|ops| - 1]), ops[|ops| - 1])
  }

  // ---- at most one charge a hold ----------------------------------------------------

  function ChargesOf(charges: seq<Charge>, k: nat): nat {
    if charges == [] then 0
    else ChargesOf(charges[..|charges| - 1], k) + if charges[|charges| - 1].serial == k then 1 else 0
  }

  function Times(s: seq<nat>, k: nat): nat {
    if s == [] then 0 else Times(s[..|s| - 1], k) + if s[|s| - 1] == k then 1 else 0
  }

  // Hold number k is in the store.
  predicate InStore(l: Ledger, k: nat) {
    k < |l.issued| && l.issued[k].entity in l.holds && l.holds[l.issued[k].entity].serial == k
  }

  ghost predicate BooksFine(l: Ledger) {
    && (forall id :: id in l.holds ==>
          l.holds[id].serial < |l.issued| && l.issued[l.holds[id].serial] == l.holds[id].hold && l.holds[id].hold.entity == id)
    && (forall i :: 0 <= i < |l.charges| ==>
          && l.charges[i].serial < |l.issued|
          && l.charges[i].amount == Amount(l.issued[l.charges[i].serial], l.charges[i].at)
          && l.charges[i].transactionID == l.issued[l.charges[i].serial].transactionID
          && l.charges[i].account == l.issued[l.charges[i].serial].account)
    && (forall i :: 0 <= i < |l.stuck| ==> l.stuck[i] < |l.issued|)
    && (forall k: nat :: ChargesOf(l.charges, k) <= Times(l.stuck, k) + if InStore(l, k) then 0 else 1)
  }

  lemma {:induction false} UnknownSerial(l: Ledger, k: nat)
    requires BooksFine(l) && k >= |l.issued|
    ensures ChargesOf(l.charges, k) == 0
  {
    NoChargeOf(l.charges, k);
  }

  lemma {:induction false} NoChargeOf(charges: seq<Charge>, k: nat)
    requires forall i :: 0 <= i < |charges| ==> charges[i].serial != k
    ensures ChargesOf(charges, k) == 0
  {
    if charges != [] {
      NoChargeOf(charges[..|charges| - 1], k);
    }
  }

  lemma PutFine(l: Ledger, h: Hold, ok: bool)
    requires BooksFine(l)
    ensures BooksFine(Put(l, h, ok))
  {
    var l' := Put(l, h, ok);
    forall k: nat ensures ChargesOf(l'.charges, k) <= Times(l'.stuck, k) + if InStore(l', k) then 0 else 1 {
      if k >= |l.issued| {
        UnknownSerial(l, k);
      }
    }
  }

  lemma ReconcileFine(l: Ledger, id: EntityID, a: Answers)
    requires BooksFine(l)
    ensures BooksFine(ReconcileHold(l, id, a))
  {
    var l' := ReconcileHold(l, id, a);
    if id in l.holds && a.readOk {
      var serial := l.holds[id].serial;
      assert l'.stuck == l.stuck || l'.stuck == l.stuck + [serial];
      forall k: nat ensures ChargesOf(l'.charges, k) <= Times(l'.stuck, k) + if InStore(l', k) then 0 else 1 {
        assert ChargesOf(l.charges, k) <= Times(l.stuck, k) + if InStore(l, k) then 0 else 1;
        if |l'.charges| > |l.charges| {
          assert l'.charges[..|l.charges|] == l.charges;
        }
        if |l'.stuck| > |l.stuck| {
          assert l'.stuck[..|l.stuck|] == l.stuck;
        }
      }
    }
  }

  lemma {:induction false} RunFine(ops: seq<Op>)
    ensures BooksFine(ApplyAll(EMPTY, ops))
  {
    if ops != [] {
      var before := ApplyAll(EMPTY, ops[..|ops| - 1]);
      RunFine(ops[..|ops| - 1]);
      match ops[|ops| - 1]
      case PutHold(h, ok) => PutFine(before, h, ok);
      case TearDown(id, torn, a) => ReconcileFine(before, id, a);
    }
  }

  ghost predicate RemovalsSucceed(ops: seq<Op>) {
    forall i :: 0 <= i < |ops| && ops[i].TearDown? ==> ops[i].a.deleteOk
  }

  lemma {:induction false} NothingStuck(ops: seq<Op>)
    requires RemovalsSucceed(ops)
    ensures ApplyAll(EMPTY, ops).stuck == []
  {
    if ops != [] {
      NothingStuck(ops[..|ops| - 1]);
    }
  }

  // Over any run of puts and teardowns: a stored hold is charged at most once
  // more than its removal failed, so once if removals succeed; one still stored
  // is charged only as often as its removal failed; and every charge is the
  // hold's rate times its runtime, under its own transaction.
  lemma ChargedAtMostOnce(ops: seq<Op>, k: nat)
    ensures var l := ApplyAll(EMPTY, ops);
            && ChargesOf(l.charges, k) <= Times(l.stuck, k) + (if InStore(l, k) then 0 else 1)
            && (RemovalsSucceed(ops) ==> ChargesOf(l.charges, k) <= 1 && (InStore(l, k) ==> ChargesOf(l.charges, k) == 0))
            && (forall i :: 0 <= i < |l.charges| && l.charges[i].serial == k ==>
                  && k < |l.issued| && l.charges[i].amount == Amount(l.issued[k], l.charges[i].at)
                  && l.charges[i].transactionID == l.issued[k].transactionID)
  {
    RunFine(ops);
    if RemovalsSucceed(ops) {
      NothingStuck(ops);
    }
  }

  lemma {:induction false} ApplyAllConcat(l: Ledger, ops: seq<Op>, more: seq<Op>)
    ensures ApplyAll(ApplyAll(l, ops), more) == ApplyAll(l, ops + more)
  {
    hide Apply;
    var whole := ops + more;
    if more == [] {
      assert whole == ops;
    } else {
      var n := |more| - 1;
      assert whole[..|ops| + n] == ops + more[..n] && whole[|ops| + n] == more[n];
      ApplyAllConcat(l, ops, more[..n]);
    }
  }

  // ---- exactly how often ---------------------------------------------------------------

  // What became of a hold: still stored; charged and removed; removed because
  // nobody could be charged; or replaced by a later hold of its entity.
  datatype Fate = NotIssued | InHand | Settled | Dropped | Overwritten

  function FateOf(ops: seq<Op>, k: nat): Fate {
    if ops == [] then NotIssued
    else
      var before, op := ops[..|ops| - 1], ops[|ops| - 1];
      var after := ApplyAll(EMPTY, ops);
      match FateOf(before, k)
      case NotIssued => if k < |after.issued| then InHand else NotIssued
      case InHand =>
        if InStore(after, k) then InHand
        else if op.PutHold? then Overwritten
        else if op.a.canReconcile then Settled else Dropped
      case fate => fate
  }

  // The budget service accepts a charge for hold k.
  predicate Accepts(l: Ledger, op: Op, k: nat) {
    && op.TearDown? && op.torn && InStore(l, k) && op.id == l.issued[k].entity
    && op.a.readOk && op.a.canReconcile && op.a.reconcileOk
  }

  // Accepted charges of hold k after which its removal failed.
  function KeptCharges(ops: seq<Op>, k: nat): nat {
    if ops == [] then 0
    else
      var before, op := ops[..|ops| - 1], ops[|ops| - 1];
      KeptCharges(before, k) + if Accepts(ApplyAll(EMPTY, before), op, k) && !op.a.deleteOk then 1 else 0
  }

  lemma AcceptedIsCharged(l: Ledger, op: Op, k: nat)
    requires BooksFine(l)
    ensures ChargesOf(Apply(l, op).charges, k) == ChargesOf(l.charges, k) + if Accepts(l, op, k) then 1 else 0
  {
    var after := Apply(l, op).charges;
    if |after| > |l.charges| {
      assert after[..|l.charges|] == l.charges;
    }
  }

  // How a hold leaves the store.
  lemma Leaves(l: Ledger, op: Op, k: nat)
    requires BooksFine(l)
    ensures InStore(l, k) && !InStore(Apply(l, op), k) && op.TearDown? ==>
              op.torn && op.a.deleteOk && (if op.a.canReconcile then Accepts(l, op, k) else !Accepts(l, op, k))
    ensures Accepts(l, op, k) && op.a.deleteOk ==> !InStore(Apply(l, op), k)
    ensures !InStore(l, k) && k < |l.issued| ==> !InStore(Apply(l, op), k)
    ensures k >= |l.issued| ==> (InStore(Apply(l, op), k) <==> k < |Apply(l, op).issued|)
  {
  }

  // The exact count over any run: a hold is charged once if its departure was a
  // charge, and not at all if it is still stored, was overwritten or had nobody
  // to charge it; and once more for every accepted charge whose removal failed,
  // so never more than that when removals succeed.
  lemma {:induction false} ChargedExactly(ops: seq<Op>, k: nat)
    ensures var l := ApplyAll(EMPTY, ops);
            && ChargesOf(l.charges, k) == KeptCharges(ops, k) + (if FateOf(ops, k) == Settled then 1 else 0)
            && (FateOf(ops, k) == NotIssued <==> k >= |l.issued|)
            && (FateOf(ops, k) == InHand <==> InStore(l, k))
    ensures RemovalsSucceed(ops) ==> KeptCharges(ops, k) == 0
  {
    if ops != [] {
      var before, op := ops[..|ops| - 1], ops[|ops| - 1];
      var l := ApplyAll(EMPTY, before);
      ChargedExactly(before, k);
      RunFine(before);
      AcceptedIsCharged(l, op, k);
      Leaves(l, op, k);
      assert |Apply(l, op).issued| >= |l.issued|;
      hide BooksFine, ChargesOf, Apply, InStore;
    }
  }

  function RetriedTearDown(h: Hold, now: Time): seq<Op> {
    var again := Answers(true, true, true, false, now);
    [PutHold(h, true), TearDown(h.entity, true, again), TearDown(h.entity, true, again.(deleteOk := true))]
  }

  lemma ApplyThree(l: Ledger, a: Op, b: Op, c: Op)
    ensures ApplyAll(l, [a, b, c]) == Apply(Apply(Apply(l, a), b), c)
  {
    hide Apply;
    assert [a][..0] == [] && [a, b][..1] == [a] && [a, b, c][..2] == [a, b];
    assert ApplyAll(l, []) == l && ApplyAll(l, [a]) == Apply(l, a);
    assert ApplyAll(l, [a, b]) == Apply(Apply(l, a), b);
  }

  // The extra charge does happen: removal fails once, and the retry charges again.
  lemma FailedRemovalChargesTwice(h: Hold, now: Time)
    requires h.entity != ""
    ensures ChargesOf(ApplyAll(EMPTY, RetriedTearDown(h, now)).charges, 0) == 2
  {
    hide Amount, ApplyAll;
    var ops := RetriedTearDown(h, now);
    ApplyThree(EMPTY, ops[0], ops[1], ops[2]);
    assert ops == [ops[0], ops[1], ops[2]];
    var c := Charge(0, h.transactionID, h.account, Amount(h, now), now);
    assert ApplyAll(EMPTY, ops).charges == [c] + [c];
    hide Apply, RetriedTearDown;
    assert ([c] + [c])[..1] == [c] && [c][..0] == [];
    assert ChargesOf([], 0) == 0;
    assert ChargesOf([c], 0) == 1;
  }

  // A hold leaves the store in two ways only: its own entity was torn down and
  // its charge accepted (or nobody could be asked), or a later resume of the same
  // entity overwrote it. A failed reconcile keeps it.
  lemma HoldLeavesOnly(l: Ledger, op: Op, k: nat)
    requires BooksFine(l) && InStore(l, k) && !InStore(Apply(l, op), k)
    ensures match op
            case TearDown(id, torn, a) =>
              torn && id == l.issued[k].entity && a.deleteOk && (a.canReconcile ==> a.reconcileOk)
              && (a.canReconcile ==> |Apply(l, op).charges| == |l.charges| + 1
                                     && Apply(l, op).charges[|l.charges|].serial == k)
            case PutHold(h, ok) => ok && h.entity == l.issued[k].entity
  {
  }

  // ---- admission ----------------------------------------------------------------------

  datatype Verdict = AdmitError | Allowed(estimatedCost: real, transactionID: string) | Denied

  datatype FailMode = FailGraceful | FailStrict

  datatype Admission = RefusedNodes | AdmittedWith(estimatedCost: real, transactionID: string)

  // An unreachable gate refuses in strict mode, else admits without a hold.
  function CheckAdmission(v: Verdict, mode: FailMode): Admission {
    match v
    case AdmitError => if mode == FailStrict then RefusedNodes else AdmittedWith(0.0, "")
    case Denied => RefusedNodes
    case Allowed(cost, txn) => AdmittedWith(cost, txn)
  }

  function PerNode(cost: real, n: nat): real {
    if n > 0 then cost / n as real else 0.0
  }

  // The holds one admission stores, node by node; write k may fail.
  function PersistOps(nodes: seq<EntityID>, txn: string, account: string, partition: string, rate: real, now: Time,
                      putOk: nat -> bool): (ops: seq<Op>)
    ensures |ops| == |nodes|
  {
    seq(|nodes|, k requires 0 <= k < |nodes| => PutHold(Hold(nodes[k], txn, account, partition, rate, now), putOk(k)))
  }

  // What resume does to the ledger before it launches anything.
  function Resume(l: Ledger, nodes: seq<EntityID>, v: Verdict, mode: FailMode, account: string, partition: string, now: Time,
                  putOk: nat -> bool): Ledger
  {
    match CheckAdmission(v, mode)
    case RefusedNodes => l
    case AdmittedWith(cost, txn) =>
      if txn == "" then l
      else ApplyAll(l, PersistOps(nodes, txn, account, partition, PerNode(cost, |nodes|), now, putOk))
  }

  // Only an admission that placed a hold stores any.
  lemma OnlyPlacedHoldsAreStored(l: Ledger, nodes: seq<EntityID>, v: Verdict, mode: FailMode, account: string,
                                 partition: string, now: Time, putOk: nat -> bool)
    ensures Resume(l, nodes, v, mode, account, partition, now, putOk) != l ==>
              v.Allowed? && v.transactionID != "" && exists k :: 0 <= k < |nodes| && putOk(k) && nodes[k] != ""
  {
    if v.Allowed? && !(exists k :: 0 <= k < |nodes| && putOk(k) && nodes[k] != "") {
      IdlePuts(l, PersistOps(nodes, v.transactionID, account, partition, PerNode(v.estimatedCost, |nodes|), now, putOk));
    }
  }

  lemma {:induction false} IdlePuts(l: Ledger, ops: seq<Op>)
    requires forall k :: 0 <= k < |ops| ==> ops[k].PutHold? && (!ops[k].ok || ops[k].h.entity == "")
    ensures ApplyAll(l, ops) == l
  {
    if ops != [] {
      IdlePuts(l, ops[..|ops| - 1]);
    }
  }

  // ---- what is stored and what is charged -------------------------------------------------

  // A charge is the hourly rate for each of the 3600000000000 nanoseconds of an hour,
  // and nothing for a clock that went back.
  lemma AmountIs(h: Hold, now: Time)
    ensures Amount(h, now) * 3_600_000_000_000.0 == if now <= h.startedAt then 0.0 else h.hourlyRate * (now - h.startedAt) as real
  {
    var x := (now - h.startedAt) as real;
    if now >= h.startedAt {
      assert Amount(h, now) == h.hourlyRate * (x / 3_600_000_000_000.0);
      InverseCancels(h.hourlyRate, x, 3_600_000_000_000.0);
    }
  }

  lemma InverseCancels(rate: real, x: real, hour: real)
    requires hour > 0.0
    ensures rate * (x / hour) * hour == rate * x
  {
    var q := x / hour;
    assert q * hour == x;
    assert rate * q * hour == rate * (q * hour);
  }

  // A write for this entity succeeds.
  ghost predicate WrittenFor(nodes: seq<EntityID>, putOk: nat -> bool, id: EntityID) {
    id != "" && exists k :: 0 <= k < |nodes| && nodes[k] == id && putOk(k)
  }

  lemma {:induction false} PersistedHolds(l: Ledger, nodes: seq<EntityID>, txn: string, account: string, partition: string,
                                          rate: real, now: Time, putOk: nat -> bool)
    ensures var after := ApplyAll(l, PersistOps(nodes, txn, account, partition, rate, now, putOk));
            && after.charges == l.charges && after.stuck == l.stuck
            && (forall id :: id in after.holds <==> id in l.holds || WrittenFor(nodes, putOk, id))
            && (forall id :: WrittenFor(nodes, putOk, id) ==>
                  after.holds[id].hold == Hold(id, txn, account, partition, rate, now))
            && (forall id :: id in l.holds && !WrittenFor(nodes, putOk, id) ==> after.holds[id] == l.holds[id])
  {
    if nodes != [] {
      var n := |nodes| - 1;
      var ops := PersistOps(nodes, txn, account, partition, rate, now, putOk);
      PersistedHolds(l, nodes[..n], txn, account, partition, rate, now, putOk);
      assert ops[..n] == PersistOps(nodes[..n], txn, account, partition, rate, now, putOk);
      WrittenMore(nodes, putOk);
      hide WrittenFor;
    }
  }

  lemma WrittenMore(nodes: seq<EntityID>, putOk: nat -> bool)
    requires nodes != []
    ensures var n := |nodes| - 1;
            forall id :: WrittenFor(nodes, putOk, id)
              <==> WrittenFor(nodes[..n], putOk, id) || (id != "" && nodes[n] == id && putOk(n))
  {
    var n := |nodes| - 1;
    forall id ensures WrittenFor(nodes, putOk, id) <==> WrittenFor(nodes[..n], putOk, id) || (id != "" && nodes[n] == id && putOk(n)) {
      if WrittenFor(nodes[..n], putOk, id) {
        var k :| 0 <= k < |nodes[..n]| && nodes[..n][k] == id && putOk(k);
        assert nodes[k] == id;
      }
      if WrittenFor(nodes, putOk, id) && !(nodes[n] == id && putOk(n)) {
        var k :| 0 <= k < |nodes| && nodes[k] == id && putOk(k);
        assert nodes[..n][k] == id;
      }
    }
  }

  // What an admission leaves in the store: for each node whose write succeeds a hold
  // under the admission's transaction, the partition's account and name, at an equal
  // share of the estimate from this instant on, and all else as it was; and nothing
  // but an allowance with a transaction leaves anything.
  lemma AdmissionStores(l: Ledger, nodes: seq<EntityID>, v: Verdict, mode: FailMode, account: string, partition: string,
                        now: Time, putOk: nat -> bool)
    ensures var after := Resume(l, nodes, v, mode, account, partition, now, putOk);
            if v.Allowed? && v.transactionID != "" then
              && after.charges == l.charges && after.stuck == l.stuck
              && (forall id :: id in after.holds <==> id in l.holds || WrittenFor(nodes, putOk, id))
              && (forall id :: WrittenFor(nodes, putOk, id) ==>
                    var h := after.holds[id].hold;
                    && h.entity == id && h.transactionID == v.transactionID && h.account == account && h.partition == partition
                    && h.startedAt == now && Shares(|nodes|, h.hourlyRate) == v.estimatedCost)
              && (forall id :: id in l.holds && !WrittenFor(nodes, putOk, id) ==> after.holds[id] == l.holds[id])
            else after == l
  {
    if v.Allowed? && v.transactionID != "" {
      var rate := PerNode(v.estimatedCost, |nodes|);
      PersistedHolds(l, nodes, v.transactionID, account, partition, rate, now, putOk);
      if nodes != [] {
        ShareOfAll(v.estimatedCost, |nodes|);
      }
      hide ApplyAll, PerNode, Shares;
    }
  }

  lemma ShareOfAll(cost: real, n: nat)
    requires n > 0
    ensures Shares(n, PerNode(cost, n)) == cost
  {
  }

  // What becomes of one entity's hold when it is torn down like this.
  ghost predicate ClosedRight(l: Ledger, after: Ledger, id: EntityID, torn: bool, a: Answers) {
    if id !in l.holds then id !in after.holds
    else
      var k := l.holds[id].serial;
      var reached := torn && a.readOk && (!a.canReconcile || a.reconcileOk);
      && (if reached && a.deleteOk then id !in after.holds else id in after.holds && after.holds[id] == l.holds[id])
      && ChargesOf(after.charges, k)
         == ChargesOf(l.charges, k) + if torn && a.readOk && a.canReconcile && a.reconcileOk then 1 else 0
  }

  // Nothing about this entity's hold has changed.
  ghost predicate Untouched(l: Ledger, after: Ledger, id: EntityID) {
    && after.issued == l.issued
    && (id in after.holds <==> id in l.holds) && (id in l.holds ==> after.holds[id] == l.holds[id])
    && (forall k :: 0 <= k < |l.issued| && l.issued[k].entity == id ==> ChargesOf(after.charges, k) == ChargesOf(l.charges, k))
  }

  lemma ApplyCloses(l: Ledger, op: Op, id: EntityID)
    requires BooksFine(l) && op.TearDown?
    ensures op.id == id ==> ClosedRight(l, Apply(l, op), id, op.torn, op.a)
    ensures op.id != id ==> Untouched(l, Apply(l, op), id)
    ensures BooksFine(Apply(l, op)) && Apply(l, op).issued == l.issued
  {
    ReconcileFine(l, op.id, op.a);
    hide ClosedRight, Untouched, BooksFine;
    if op.id == id {
      ClosesOwn(l, op);
    } else {
      ClosesNoOther(l, op, id);
    }
  }

  lemma ClosesOwn(l: Ledger, op: Op)
    requires BooksFine(l) && op.TearDown?
    ensures ClosedRight(l, Apply(l, op), op.id, op.torn, op.a)
  {
    SerialsDiffer(l);
    if op.id in l.holds {
      AcceptedIsCharged(l, op, l.holds[op.id].serial);
    }
    hide ChargesOf, Amount, BooksFine;
  }

  lemma ClosesNoOther(l: Ledger, op: Op, id: EntityID)
    requires BooksFine(l) && op.TearDown? && op.id != id
    ensures Untouched(l, Apply(l, op), id)
  {
    AcceptedAreCharged(l, op);
    hide ChargesOf, Amount, BooksFine;
  }

  lemma AcceptedAreCharged(l: Ledger, op: Op)
    requires BooksFine(l)
    ensures forall k: nat :: ChargesOf(Apply(l, op).charges, k) == ChargesOf(l.charges, k) + if Accepts(l, op, k) then 1 else 0
  {
    forall k: nat
      ensures ChargesOf(Apply(l, op).charges, k) == ChargesOf(l.charges, k) + if Accepts(l, op, k) then 1 else 0
    {
      AcceptedIsCharged(l, op, k);
    }
  }

  // A stored hold is under its own entity.
  lemma SerialsDiffer(l: Ledger)
    requires BooksFine(l)
    ensures forall id :: id in l.holds ==> l.holds[id].serial < |l.issued| && l.issued[l.holds[id].serial].entity == id
  {
  }

  lemma ClosedBetween(l: Ledger, l1: Ledger, l2: Ledger, l3: Ledger, id: EntityID, torn: bool, a: Answers)
    requires BooksFine(l) && Untouched(l, l1, id) && ClosedRight(l1, l2, id, torn, a) && Untouched(l2, l3, id)
    requires l2.issued == l.issued
    ensures ClosedRight(l, l3, id, torn, a)
  {
    hide ChargesOf, Amount;
  }

  ghost predicate AllTearDowns(ops: seq<Op>) {
    forall k :: 0 <= k < |ops| ==> ops[k].TearDown?
  }

  lemma {:induction false} TearDownsElsewhere(l: Ledger, ops: seq<Op>, id: EntityID)
    requires BooksFine(l) && AllTearDowns(ops) && forall k :: 0 <= k < |ops| ==> ops[k].id != id
    ensures BooksFine(ApplyAll(l, ops)) && Untouched(l, ApplyAll(l, ops), id) && ApplyAll(l, ops).issued == l.issued
  {
    if ops != [] {
      var n := |ops| - 1;
      TearDownsElsewhere(l, ops[..n], id);
      ApplyCloses(ApplyAll(l, ops[..n]), ops[n], id);
      hide BooksFine, ChargesOf, Apply;
    }
  }

  lemma AppliedAround(l: Ledger, ops: seq<Op>, k: nat)
    requires k < |ops|
    ensures ApplyAll(l, ops) == ApplyAll(Apply(ApplyAll(l, ops[..k]), ops[k]), ops[k + 1..])
  {
    hide Apply;
    var head := ops[..k + 1];
    assert head[..k] == ops[..k] && head[k] == ops[k];
    assert ApplyAll(l, head) == Apply(ApplyAll(l, ops[..k]), ops[k]);
    hide ApplyAll;
    ApplyAllConcat(l, head, ops[k + 1..]);
    assert head + ops[k + 1..] == ops;
  }

  // Teardowns of different entities: each closes its own hold and touches no other.
  lemma TearDownsClose(l: Ledger, ops: seq<Op>, k: nat)
    requires BooksFine(l) && AllTearDowns(ops) && k < |ops|
    requires forall i, j :: 0 <= i < j < |ops| ==> ops[i].id != ops[j].id
    ensures ClosedRight(l, ApplyAll(l, ops), ops[k].id, ops[k].torn, ops[k].a)
  {
    hide BooksFine, ChargesOf, Apply, ApplyAll, ClosedRight, Untouched;
    var before, after, id := ops[..k], ops[k + 1..], ops[k].id;
    var l1 := ApplyAll(l, before);
    var l2 := Apply(l1, ops[k]);
    TearDownsElsewhere(l, before, id);
    ApplyCloses(l1, ops[k], id);
    TearDownsElsewhere(l2, after, id);
    AppliedAround(l, ops, k);
    ClosedBetween(l, l1, l2, ApplyAll(l, ops), id, ops[k].torn, ops[k].a);
  }

  // ---- conservation of a fleet's cost ----------------------------------------------------

  function Total(charges: seq<Charge>): real {
    if charges == [] then 0.0 else Total(charges[..|charges| - 1]) + charges[|charges| - 1].amount
  }

  ghost predicate NoRepeats(s: seq<EntityID>) {
    forall i, j :: 0 <= i < j < |s| ==> s[i] != s[j]
  }

  lemma {:induction false} PutsStore(l: Ledger, ops: seq<Op>, rate: real, now: Time)
    requires forall k :: 0 <= k < |ops| ==>
               ops[k].PutHold? && ops[k].ok && ops[k].h.entity != "" && ops[k].h.hourlyRate == rate && ops[k].h.startedAt == now
    ensures var l' := ApplyAll(l, ops);
            && l'.charges == l.charges
            && forall k :: 0 <= k < |ops| ==>
                 ops[k].h.entity in l'.holds && l'.holds[ops[k].h.entity].hold.hourlyRate == rate
                 && l'.holds[ops[k].h.entity].hold.startedAt == now
  {
    if ops != [] {
      var before := ops[..|ops| - 1];
      PutsStore(l, before, rate, now);
      forall k | 0 <= k < |before| ensures ops[k] == before[k] {}
    }
  }

  // Tear these nodes down one after the other, all at one instant and well.
  function TearDowns(nodes: seq<EntityID>, at: Time): seq<Op> {
    seq(|nodes|, k requires 0 <= k < |nodes| => TearDown(nodes[k], true, Answers(true, true, true, true, at)))
  }

  // n shares of x.
  function Shares(n: nat, x: real): real {
    n as real * x
  }

  lemma OneMoreShare(n: nat, x: real)
    ensures Shares(0, x) == 0.0 && Shares(n + 1, x) == Shares(n, x) + x
  {
  }

  // One of them: the stored hold is charged and removed.
  lemma TearDownCharges(l: Ledger, id: EntityID, at: Time)
    requires id in l.holds && l.holds[id].hold.startedAt <= at
    ensures var l' := Apply(l, TearDown(id, true, Answers(true, true, true, true, at)));
            && l'.holds == l.holds - {id}
            && Total(l'.charges) == Total(l.charges) + Cost(l.holds[id].hold.hourlyRate, Hours(l.holds[id].hold.startedAt, at))
  {
    hide Cost, Hours;
    var l' := Apply(l, TearDown(id, true, Answers(true, true, true, true, at)));
    assert l'.charges[..|l.charges|] == l.charges;
  }

  lemma {:induction false} TearDownsCharge(l: Ledger, downs: seq<EntityID>, rate: real, start: Time, at: Time)
    requires NoRepeats(downs) && start <= at
    requires forall k :: 0 <= k < |downs| ==>
               downs[k] in l.holds && l.holds[downs[k]].hold.hourlyRate == rate && l.holds[downs[k]].hold.startedAt == start
    ensures var l' := ApplyAll(l, TearDowns(downs, at));
            && Total(l'.charges) == Total(l.charges) + Shares(|downs|, Cost(rate, Hours(start, at)))
            && (forall id :: id in l.holds && id !in downs ==> id in l'.holds && l'.holds[id] == l.holds[id])
  {
    hide Cost, Hours, Shares;
    var x := Cost(rate, Hours(start, at));
    OneMoreShare(if downs == [] then 0 else |downs| - 1, x);
    if downs != [] {
      var n := |downs| - 1;
      var ops := TearDowns(downs, at);
      var before := ApplyAll(l, TearDowns(downs[..n], at));
      TearDownsCharge(l, downs[..n], rate, start, at);
      assert ops[..n] == TearDowns(downs[..n], at);
      assert ApplyAll(l, ops) == Apply(before, ops[n]);
      assert downs[n] !in downs[..n];
      TearDownCharges(before, downs[n], at);
      hide ApplyAll, Apply, Total, NoRepeats;
    }
  }

  // The whole fleet resumed on one admission, its distinct nodes torn down at one
  // instant: each is charged the estimate's share over the runtime.
  lemma FleetCost(l: Ledger, nodes: seq<EntityID>, downs: seq<EntityID>, cost: real, txn: string, mode: FailMode,
                  account: string, partition: string, start: Time, at: Time)
    requires txn != "" && nodes != [] && start <= at && (forall k :: 0 <= k < |nodes| ==> nodes[k] != "")
    requires NoRepeats(downs) && forall id :: id in downs <==> id in nodes
    ensures var up := Resume(l, nodes, Allowed(cost, txn), mode, account, partition, start, _ => true);
            Total(ApplyAll(up, TearDowns(downs, at)).charges)
            == Total(l.charges) + Shares(|downs|, Cost(PerNode(cost, |nodes|), Hours(start, at)))
  {
    hide Cost, Hours, Shares, PerNode, Total;
    var rate := PerNode(cost, |nodes|);
    var ops := PersistOps(nodes, txn, account, partition, rate, start, _ => true);
    PutsStore(l, ops, rate, start);
    var up := ApplyAll(l, ops);
    forall k | 0 <= k < |downs|
      ensures downs[k] in up.holds && up.holds[downs[k]].hold.hourlyRate == rate && up.holds[downs[k]].hold.startedAt == start
    {
      assert downs[k] in nodes;
      var i :| 0 <= i < |nodes| && nodes[i] == downs[k];
      assert ops[i].h.entity == downs[k];
    }
    hide ApplyAll;
    TearDownsCharge(up, downs, rate, start, at);
  }

  // So the fleet's cost is conserved exactly when the node list repeats no node
  // (for a fleet that costs something and runs for a while).
  lemma FleetCostConservedIff(l: Ledger, nodes: seq<EntityID>, downs: seq<EntityID>, cost: real, txn: string,
                              mode: FailMode, account: string, partition: string, start: Time, at: Time)
    requires txn != "" && nodes != [] && start < at && cost != 0.0 && (forall k :: 0 <= k < |nodes| ==> nodes[k] != "")
    requires NoRepeats(downs) && forall id :: id in downs <==> id in nodes
    ensures var up := Resume(l, nodes, Allowed(cost, txn), mode, account, partition, start, _ => true);
            Total(ApplyAll(up, TearDowns(downs, at)).charges) == Total(l.charges) + Cost(cost, Hours(start, at))
            <==> NoRepeats(nodes)
  {
    FleetCost(l, nodes, downs, cost, txn, mode, account, partition, start, at);
    DistinctCount(nodes, downs);
    assert Hours(start, at) > 0.0;
    SharesOfWhole(cost, |nodes|, |downs|, Hours(start, at));
    hide *;
  }

  lemma SharesOfWhole(cost: real, n: nat, k: nat, hours: real)
    requires n > 0 && cost != 0.0 && hours > 0.0
    ensures Shares(k, Cost(PerNode(cost, n), hours)) == Cost(cost, hours) <==> k == n
  {
    var x := cost / n as real * hours;
    assert n as real * x == cost * hours;
    assert x != 0.0;
    assert k as real * x - n as real * x == (k - n) as real * x;
    if k != n {
      assert (k - n) as real * x != 0.0;
    }
  }

  function Elements(s: seq<EntityID>): set<EntityID> {
    set x | x in s
  }

  lemma {:induction false} ElementCount(s: seq<EntityID>)
    ensures |Elements(s)| <= |s|
    ensures |Elements(s)| == |s| <==> NoRepeats(s)
  {
    if s != [] {
      var n := |s| - 1;
      var before := s[..n];
      ElementCount(before);
      assert Elements(s) == Elements(before) + {s[n]};
      if s[n] in before {
        var i :| 0 <= i < n && before[i] == s[n];
        assert s[i] == s[n];
        assert Elements(s) == Elements(before);
        assert !NoRepeats(s);
      } else {
        assert |Elements(s)| == |Elements(before)| + 1;
        if NoRepeats(before) {
          forall i, j | 0 <= i < j < |s| ensures s[i] != s[j] {
            assert before[i] == s[i];
            if j < n {
              assert before[j] == s[j];
            }
          }
        } else {
          var i, j :| 0 <= i < j < n && before[i] == before[j];
          assert s[i] == s[j];
        }
      }
    }
  }

  lemma DistinctCount(nodes: seq<EntityID>, downs: seq<EntityID>)
    requires NoRepeats(downs) && forall id :: id in downs <==> id in nodes
    ensures |downs| == |nodes| <==> NoRepeats(nodes)
  {
    ElementCount(nodes);
    ElementCount(downs);
    assert Elements(nodes) == Elements(downs);
  }
}

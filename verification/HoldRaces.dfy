// Invocations that overlap: closing a hold reads it, has it charged and removes it
// in separate steps, between which other invocations take theirs.

module HoldRaces {
  import opened CohortTypes
  import opened HoldLedger

  // What an invocation has in hand while it closes one torn-down node's hold: the
  // hold it read, and then whether that was charged.
  datatype Proc = Idle | Seen(id: EntityID, stored: Stored) | ToRemove(id: EntityID, stored: Stored, charged: bool)

  // The shared store and budget service, and the invocations by number; one that
  // is not listed is idle.
  datatype World = World(l: Ledger, procs: map<nat, Proc>)

  const START := World(EMPTY, map[])

  function At(w: World, p: nat): Proc {
    if p in w.procs then w.procs[p] else Idle
  }

  // A read follows a successful teardown. Nobody to charge counts as no charge but
  // goes on to the removal.
  datatype Step =
    | PutStep(h: Hold, ok: bool)
    | ReadStep(p: nat, id: EntityID, ok: bool)
    | ChargeStep(p: nat, canReconcile: bool, ok: bool, now: Time)
    | RemoveStep(p: nat, ok: bool)

  predicate Can(w: World, st: Step) {
    match st
    case PutStep(_, _) => true
    case ReadStep(p, _, _) => At(w, p).Idle?
    case ChargeStep(p, _, _, _) => At(w, p).Seen?
    case RemoveStep(p, _) => At(w, p).ToRemove?
  }

  function ChargeFor(stored: Stored, now: Time): Charge {
    Charge(stored.serial, stored.hold.transactionID, stored.hold.account, Amount(stored.hold, now), now)
  }

  // A charge says whose hold it is for, and how much.
  lemma ChargeIs(stored: Stored, now: Time)
    ensures var c := ChargeFor(stored, now);
            && c.serial == stored.serial && c.at == now
            && c.transactionID == stored.hold.transactionID && c.account == stored.hold.account
            && c.amount * 3_600_000_000_000.0
               == if now <= stored.hold.startedAt then 0.0 else stored.hold.hourlyRate * (now - stored.hold.startedAt) as real
  {
    AmountIs(stored.hold, now);
  }

  // A step whose invocation is elsewhere does nothing. The removal goes by the
  // entity's name, whatever is stored under it by then.
  function Take(w: World, st: Step): World {
    if !Can(w, st) then w
    else
      match st
      case PutStep(h, ok) => w.(l := Put(w.l, h, ok))
      case ReadStep(p, id, ok) =>
        if ok && id in w.l.holds then w.(procs := w.procs[p := Seen(id, w.l.holds[id])]) else w
      case ChargeStep(p, canReconcile, ok, now) =>
        var at := At(w, p);
        if !canReconcile then w.(procs := w.procs[p := ToRemove(at.id, at.stored, false)])
        else if !ok then w.(procs := w.procs[p := Idle])
        else World(w.l.(charges := w.l.charges + [ChargeFor(at.stored, now)]), w.procs[p := ToRemove(at.id, at.stored, true)])
      case RemoveStep(p, ok) =>
        var at := At(w, p);
        World(if ok then w.l.(holds := w.l.holds - {at.id}) else w.l.(stuck := w.l.stuck + [at.stored.serial]),
              w.procs[p := Idle])
  }

  function TakeAll(w: World, run: seq<Step>): World {
    if run == [] then w else Take(TakeAll(w, run[..|run| - 1]), run[|run| - 1])
  }

  function After(run: seq<Step>): World {
    TakeAll(START, run)
  }

  lemma {:induction false} TakeAllConcat(w: World, run: seq<Step>, more: seq<Step>)
    ensures TakeAll(TakeAll(w, run), more) == TakeAll(w, run + more)
  {
    hide Take;
    var whole := run + more;
    if more == [] {
      assert whole == run;
    } else {
      var n := |more| - 1;
      assert whole[..|run| + n] == run + more[..n] && whole[|run| + n] == more[n];
      TakeAllConcat(w, run, more[..n]);
    }
  }

  // ---- what every step keeps -----------------------------------------------------------

  ghost predicate StoredFine(l: Ledger, id: EntityID, stored: Stored) {
    id != "" && stored.serial < |l.issued| && l.issued[stored.serial] == stored.hold && stored.hold.entity == id
  }

  ghost predicate WorldFine(w: World) {
    && (forall id :: id in w.l.holds ==> StoredFine(w.l, id, w.l.holds[id]))
    && (forall p :: p in w.procs && !w.procs[p].Idle? ==> StoredFine(w.l, w.procs[p].id, w.procs[p].stored))
    && (forall i :: 0 <= i < |w.l.charges| ==>
          && w.l.charges[i].serial < |w.l.issued|
          && w.l.charges[i] == ChargeFor(Stored(w.l.charges[i].serial, w.l.issued[w.l.charges[i].serial]), w.l.charges[i].at))
  }

  lemma TakeFine(w: World, st: Step)
    requires WorldFine(w)
    ensures WorldFine(Take(w, st))
  {
    hide Amount;
  }

  lemma {:induction false} WorldRunFine(run: seq<Step>)
    ensures WorldFine(After(run))
  {
    if run != [] {
      WorldRunFine(run[..|run| - 1]);
      TakeFine(After(run[..|run| - 1]), run[|run| - 1]);
      hide WorldFine, Take;
    }
  }

  // ---- charges are reads ------------------------------------------------------------------

  // Invocation p's last read found hold number k.
  ghost predicate ReadHold(run: seq<Step>, p: nat, k: nat) {
    if run == [] then false
    else
      var before, st := run[..|run| - 1], run[|run| - 1];
      if st.ReadStep? && st.p == p && Can(After(before), st) then
        st.ok && st.id in After(before).l.holds && After(before).l.holds[st.id].serial == k
      else ReadHold(before, p, k)
  }

  // Accepted charges made by invocations whose read had found hold number k.
  ghost function AcceptedAfterRead(run: seq<Step>, k: nat): nat {
    if run == [] then 0
    else
      var before, st := run[..|run| - 1], run[|run| - 1];
      AcceptedAfterRead(before, k)
      + if st.ChargeStep? && Can(After(before), st) && st.canReconcile && st.ok && ReadHold(before, st.p, k) then 1 else 0
  }

  lemma {:induction false} BusyHasRead(run: seq<Step>, p: nat, k: nat)
    requires !At(After(run), p).Idle?
    ensures ReadHold(run, p, k) <==> At(After(run), p).stored.serial == k
  {
    if run != [] {
      var before, st := run[..|run| - 1], run[|run| - 1];
      if !At(After(before), p).Idle? {
        BusyHasRead(before, p, k);
      }
    }
  }

  lemma ChargesAppended(charges: seq<Charge>, c: Charge, k: nat)
    ensures ChargesOf(charges + [c], k) == ChargesOf(charges, k) + if c.serial == k then 1 else 0
  {
    assert (charges + [c])[..|charges|] == charges;
  }

  // However invocations overlap: hold number k is charged as often as invocations
  // that had read it had a charge accepted, and each charge is that hold's rate
  // times its runtime, under its transaction.
  lemma {:induction false} ChargesAreReads(run: seq<Step>, k: nat)
    ensures ChargesOf(After(run).l.charges, k) == AcceptedAfterRead(run, k)
    ensures forall i :: 0 <= i < |After(run).l.charges| && After(run).l.charges[i].serial == k ==>
              k < |After(run).l.issued| && After(run).l.charges[i] == ChargeFor(Stored(k, After(run).l.issued[k]), After(run).l.charges[i].at)
  {
    WorldRunFine(run);
    if run != [] {
      var before, st := run[..|run| - 1], run[|run| - 1];
      ChargesAreReads(before, k);
      var w := After(before);
      hide WorldFine;
      if st.ChargeStep? && Can(w, st) {
        BusyHasRead(before, st.p, k);
        ChargesAppended(w.l.charges, ChargeFor(At(w, st.p).stored, st.now), k);
      }
      hide ChargesOf, ReadHold, Amount;
    }
  }

  // ---- how a hold leaves ---------------------------------------------------------------------

  // However invocations overlap, a hold leaves the store exactly when a later hold
  // of its entity is put, or a removal under its entity's name succeeds; which need
  // not be one by an invocation that had read it.
  lemma LeavesIff(w: World, st: Step, k: nat)
    requires WorldFine(w) && InStore(w.l, k)
    ensures !InStore(Take(w, st).l, k)
            <==> match st
                 case PutStep(h, ok) => ok && h.entity == w.l.issued[k].entity
                 case RemoveStep(p, ok) => ok && Can(w, st) && At(w, p).id == w.l.issued[k].entity
                 case _ => false
  {
    hide Amount;
  }

  // What became of hold number k: settled only if the invocation that removed it
  // had charged it.
  function FateIn(run: seq<Step>, k: nat): Fate {
    if run == [] then NotIssued
    else
      var before, st := run[..|run| - 1], run[|run| - 1];
      match FateIn(before, k)
      case NotIssued => if k < |After(run).l.issued| then InHand else NotIssued
      case InHand =>
        if InStore(After(run).l, k) then InHand
        else if st.PutStep? then Overwritten
        else if st.RemoveStep? && Charged(At(After(before), st.p), k) then Settled else Dropped
      case fate => fate
  }

  // Has charged hold number k and not yet tried to remove it.
  predicate Charged(at: Proc, k: nat) {
    at.ToRemove? && at.charged && at.stored.serial == k
  }

  // Removals that failed after their invocation had charged hold number k.
  function KeptIn(run: seq<Step>, k: nat): nat {
    if run == [] then 0
    else
      var before, st := run[..|run| - 1], run[|run| - 1];
      KeptIn(before, k) + if st.RemoveStep? && !st.ok && Charged(At(After(before), st.p), k) then 1 else 0
  }

  ghost predicate SureRemoves(run: seq<Step>) {
    forall i :: 0 <= i < |run| && run[i].RemoveStep? ==> run[i].ok
  }

  lemma {:induction false} NothingKept(run: seq<Step>, k: nat)
    requires SureRemoves(run)
    ensures KeptIn(run, k) == 0
  {
    if run != [] {
      NothingKept(run[..|run| - 1], k);
    }
  }

  // ---- invocations that do not overlap on an entity --------------------------------------------

  ghost predicate BusyOn(w: World, id: EntityID) {
    exists p :: p in w.procs && !w.procs[p].Idle? && w.procs[p].id == id
  }

  // Neither a hold is put for, nor read under, an entity that is being closed.
  ghost predicate Apart(w: World, st: Step) {
    match st
    case PutStep(h, _) => !BusyOn(w, h.entity)
    case ReadStep(_, id, _) => !BusyOn(w, id)
    case _ => true
  }

  ghost predicate NoOverlap(run: seq<Step>) {
    run == [] || (NoOverlap(run[..|run| - 1]) && Apart(After(run[..|run| - 1]), run[|run| - 1]))
  }

  // Who is busy has the stored hold in hand, and is alone with it.
  ghost predicate ApartFine(w: World) {
    && (forall p :: p in w.procs && !w.procs[p].Idle? ==>
          w.procs[p].id in w.l.holds && w.l.holds[w.procs[p].id] == w.procs[p].stored)
    && (forall p, q :: p in w.procs && q in w.procs && p != q && !w.procs[p].Idle? && !w.procs[q].Idle? ==>
          w.procs[p].id != w.procs[q].id)
  }

  lemma ApartKept(w: World, st: Step)
    requires WorldFine(w) && ApartFine(w) && Apart(w, st)
    ensures ApartFine(Take(w, st))
  {
    hide Amount, WorldFine;
  }

  ghost predicate Pending(w: World, k: nat) {
    exists p :: p in w.procs && Charged(w.procs[p], k)
  }

  // The step has a charge of hold number k accepted.
  predicate ChargesNow(w: World, st: Step, k: nat) {
    st.ChargeStep? && Can(w, st) && st.canReconcile && st.ok && At(w, st.p).stored.serial == k
  }

  // The step tries to remove what its invocation charged hold number k for.
  predicate RemovesNow(w: World, st: Step, k: nat) {
    st.RemoveStep? && Charged(At(w, st.p), k)
  }

  // Nobody else is at hold number k.
  lemma AloneWith(w: World, p: nat, q: nat, k: nat)
    requires WorldFine(w) && ApartFine(w) && !At(w, p).Idle? && !At(w, q).Idle?
    requires At(w, p).stored.serial == k && At(w, q).stored.serial == k
    ensures p == q && InStore(w.l, k) && w.l.issued[k].entity == At(w, p).id
  {
    hide Amount;
  }

  lemma PendingAfter(w: World, st: Step, k: nat)
    requires WorldFine(w) && ApartFine(w)
    ensures Pending(Take(w, st), k) <==> ChargesNow(w, st, k) || (Pending(w, k) && !RemovesNow(w, st, k))
    ensures ChargesNow(w, st, k) ==> !Pending(w, k)
    ensures RemovesNow(w, st, k) ==> Pending(w, k) && InStore(w.l, k) && (st.ok <==> !InStore(Take(w, st).l, k))
  {
    hide WorldFine, ApartFine, Amount;
    var w' := Take(w, st);
    if st.PutStep? || !Can(w, st) {
      assert w'.procs == w.procs;
    } else {
      var p := st.p;
      if q :| q in w.procs && Charged(w.procs[q], k) {
        if ChargesNow(w, st, k) || RemovesNow(w, st, k) {
          AloneWith(w, p, q, k);
        }
        assert q != p ==> q in w'.procs && w'.procs[q] == w.procs[q];
      }
      if ChargesNow(w, st, k) {
        assert Charged(w'.procs[p], k);
      }
      if RemovesNow(w, st, k) {
        AloneWith(w, p, p, k);
        if q :| q in w'.procs && Charged(w'.procs[q], k) {
          assert q != p && w'.procs[q] == w.procs[q];
          AloneWith(w, p, q, k);
        }
      }
    }
  }

  lemma TakeCharges(w: World, st: Step, k: nat)
    ensures ChargesOf(Take(w, st).l.charges, k) == ChargesOf(w.l.charges, k) + if ChargesNow(w, st, k) then 1 else 0
  {
    if st.ChargeStep? && Can(w, st) {
      ChargesAppended(w.l.charges, ChargeFor(At(w, st.p).stored, st.now), k);
    }
    hide ChargesOf, Amount;
  }

  // How the store changes under hold number k.
  lemma TakeStores(w: World, st: Step, k: nat)
    requires WorldFine(w)
    ensures |Take(w, st).l.issued| >= |w.l.issued|
    ensures k >= |w.l.issued| ==> (InStore(Take(w, st).l, k) <==> k < |Take(w, st).l.issued|)
    ensures k < |w.l.issued| && !InStore(w.l, k) ==> !InStore(Take(w, st).l, k)
    ensures InStore(w.l, k) && !InStore(Take(w, st).l, k) ==> st.PutStep? || (st.RemoveStep? && st.ok)
  {
    hide Amount;
  }

  // However invocations overlap, the fate tells whether a hold is stored.
  lemma {:induction false} FateTracks(run: seq<Step>, k: nat)
    ensures FateIn(run, k) == NotIssued <==> k >= |After(run).l.issued|
    ensures FateIn(run, k) == InHand <==> InStore(After(run).l, k)
  {
    if run != [] {
      var before, st := run[..|run| - 1], run[|run| - 1];
      FateTracks(before, k);
      WorldRunFine(before);
      assert After(run) == Take(After(before), st);
      TakeStores(After(before), st, k);
      hide WorldFine, InStore, Take, After;
    }
  }

  // Without overlap the count of one-at-a-time runs holds: hold number k is charged
  // once if it left by a charge, once for each removal that failed after a charge,
  // and once if an invocation has charged it and is still to remove it.
  lemma {:induction false} NoOverlapCharges(run: seq<Step>, k: nat)
    requires NoOverlap(run)
    ensures var w := After(run);
            && WorldFine(w) && ApartFine(w)
            && (FateIn(run, k) == NotIssued <==> k >= |w.l.issued|)
            && (FateIn(run, k) == InHand <==> InStore(w.l, k))
            && ChargesOf(w.l.charges, k)
               == KeptIn(run, k) + (if FateIn(run, k) == Settled then 1 else 0) + (if Pending(w, k) then 1 else 0)
    ensures SureRemoves(run) ==> KeptIn(run, k) == 0
  {
    WorldRunFine(run);
    FateTracks(run, k);
    if run != [] {
      var before, st := run[..|run| - 1], run[|run| - 1];
      NoOverlapCharges(before, k);
      var w := After(before);
      assert After(run) == Take(w, st);
      ApartKept(w, st);
      PendingAfter(w, st, k);
      TakeCharges(w, st, k);
      TakeStores(w, st, k);
      hide WorldFine, ApartFine, ChargesOf, InStore, Take, Pending, ChargesNow, After, Apart, Charged;
      if SureRemoves(run) {
        NothingKept(run, k);
      }
    } else {
      assert ChargesOf([], k) == 0;
    }
  }

  ghost predicate AllIdle(w: World) {
    forall p :: p in w.procs ==> w.procs[p].Idle?
  }

  // So with sure removals, and nobody in the middle of closing it, a hold has been
  // charged once if it left by a charge and else never.
  lemma NoOverlapChargesOnce(run: seq<Step>, k: nat)
    requires NoOverlap(run) && SureRemoves(run) && AllIdle(After(run))
    ensures ChargesOf(After(run).l.charges, k) == if FateIn(run, k) == Settled then 1 else 0
  {
    NoOverlapCharges(run, k);
  }

  // ---- one invocation at a time ------------------------------------------------------------------

  // The steps an undisturbed teardown takes.
  function StepsOf(l: Ledger, op: Op): seq<Step> {
    match op
    case PutHold(h, ok) => [PutStep(h, ok)]
    case TearDown(id, torn, a) =>
      if !torn then []
      else if id !in l.holds || !a.readOk then [ReadStep(0, id, a.readOk)]
      else if a.canReconcile && !a.reconcileOk then [ReadStep(0, id, true), ChargeStep(0, true, false, a.now)]
      else [ReadStep(0, id, true), ChargeStep(0, a.canReconcile, a.reconcileOk, a.now), RemoveStep(0, a.deleteOk)]
  }

  function OneAtATime(ops: seq<Op>): seq<Step> {
    if ops == [] then []
    else OneAtATime(ops[..|ops| - 1]) + StepsOf(ApplyAll(EMPTY, ops[..|ops| - 1]), ops[|ops| - 1])
  }

  lemma AfterThree(w: World, a: Step, b: Step, c: Step)
    ensures TakeAll(w, []) == w && TakeAll(w, [a]) == Take(w, a) && TakeAll(w, [a, b]) == Take(Take(w, a), b)
    ensures TakeAll(w, [a, b, c]) == Take(Take(Take(w, a), b), c)
  {
    hide Take;
    assert [a][..0] == [] && [a, b][..1] == [a] && [a, b, c][..2] == [a, b];
  }

  lemma ReadThenCharge(w: World, id: EntityID, a: Answers)
    requires AllIdle(w) && id in w.l.holds && a.readOk
    ensures var read := Take(w, ReadStep(0, id, true));
            var charge := Take(read, ChargeStep(0, a.canReconcile, a.reconcileOk, a.now));
            var end := if a.canReconcile && !a.reconcileOk then charge else Take(charge, RemoveStep(0, a.deleteOk));
            AllIdle(end) && end.l == ReconcileHold(w.l, id, a)
  {
    hide Amount;
  }

  lemma StepsAreApply(w: World, op: Op)
    requires AllIdle(w)
    ensures TakeAll(w, StepsOf(w.l, op)).l == Apply(w.l, op) && AllIdle(TakeAll(w, StepsOf(w.l, op)))
  {
    match op
    case PutHold(h, ok) =>
      AfterThree(w, PutStep(h, ok), PutStep(h, ok), PutStep(h, ok));
      hide TakeAll, Amount;
    case TearDown(id, torn, a) =>
      var charge := ChargeStep(0, a.canReconcile, a.reconcileOk, a.now);
      AfterThree(w, ReadStep(0, id, a.readOk), charge, RemoveStep(0, a.deleteOk));
      hide TakeAll, Amount;
      if torn && id in w.l.holds && a.readOk {
        ReadThenCharge(w, id, a);
        hide Take, AllIdle, ReconcileHold;
      }
  }

  lemma ApartFirst(run: seq<Step>, more: seq<Step>)
    requires NoOverlap(run) && AllIdle(After(run))
    requires forall i :: 0 < i < |more| ==> !more[i].PutStep? && !more[i].ReadStep?
    ensures NoOverlap(run + more)
    decreases |more|
  {
    if more == [] {
      assert run + more == run;
    } else {
      var n := |more| - 1;
      ApartFirst(run, more[..n]);
      assert (run + more)[..|run| + n] == run + more[..n];
      if n == 0 {
        assert run + more[..n] == run;
      }
      assert Apart(After(run + more[..n]), more[n]);
    }
  }

  // Then nothing overlaps, and the ledger is that of the operations in one piece.
  lemma {:induction false} OneAtATimeIsAtomic(ops: seq<Op>)
    ensures After(OneAtATime(ops)).l == ApplyAll(EMPTY, ops) && AllIdle(After(OneAtATime(ops)))
    ensures NoOverlap(OneAtATime(ops))
  {
    if ops != [] {
      var before := ops[..|ops| - 1];
      OneAtATimeIsAtomic(before);
      var w := After(OneAtATime(before));
      StepsAreApply(w, ops[|ops| - 1]);
      TakeAllConcat(START, OneAtATime(before), StepsOf(w.l, ops[|ops| - 1]));
      ApartFirst(OneAtATime(before), StepsOf(w.l, ops[|ops| - 1]));
      hide TakeAll, StepsOf, Apply, AllIdle, NoOverlap;
    }
  }

  // ---- runs that overlap ---------------------------------------------------------------------------

  // Every step is one its invocation can take.
  ghost predicate Possible(run: seq<Step>) {
    run == [] || (Possible(run[..|run| - 1]) && Can(After(run[..|run| - 1]), run[|run| - 1]))
  }

  lemma OneMore(run: seq<Step>, st: Step)
    ensures After(run + [st]) == Take(After(run), st)
    ensures Possible(run) && Can(After(run), st) ==> Possible(run + [st])
    ensures SureRemoves(run) && (st.RemoveStep? ==> st.ok) ==> SureRemoves(run + [st])
  {
    assert (run + [st])[..|run|] == run;
  }

  // Invocations p < read have read the stored hold, those below `charged` have
  // charged it, those below `removed` are through.
  ghost predicate Racing(w: World, h: Hold, read: nat, charged: nat, removed: nat) {
    && removed <= charged <= read && w.l.issued == [h]
    && (forall p: nat :: At(w, p) ==
          if p < removed || p >= read then Idle
          else if p < charged then ToRemove(h.entity, Stored(0, h), true) else Seen(h.entity, Stored(0, h)))
    && ChargesOf(w.l.charges, 0) == charged
    && (removed == 0 ==> h.entity in w.l.holds && w.l.holds[h.entity] == Stored(0, h))
  }

  // The step that brings the race one on.
  function RaceStep(h: Hold, now: Time, read: nat, charged: nat, removed: nat): Step {
    if removed > 0 then RemoveStep(removed - 1, true)
    else if charged > 0 then ChargeStep(charged - 1, true, true, now)
    else if read > 0 then ReadStep(read - 1, h.entity, true)
    else PutStep(h, true)
  }

  lemma RaceStarts(h: Hold)
    requires h.entity != ""
    ensures Racing(Take(START, PutStep(h, true)), h, 0, 0, 0)
  {
    assert ChargesOf([], 0) == 0;
  }

  // Only the invocation that takes a step is moved by it.
  lemma OthersStay(w: World, st: Step)
    ensures forall p: nat {:trigger At(Take(w, st), p)} ::
              At(Take(w, st), p) == At(w, p) || (Can(w, st) && !st.PutStep? && p == st.p)
  {
  }

  lemma RaceReads(w: World, h: Hold, read: nat)
    requires Racing(w, h, read, 0, 0)
    ensures Can(w, ReadStep(read, h.entity, true)) && Racing(Take(w, ReadStep(read, h.entity, true)), h, read + 1, 0, 0)
  {
    OthersStay(w, ReadStep(read, h.entity, true));
    hide ChargesOf;
  }

  lemma RaceCharges(w: World, h: Hold, now: Time, read: nat, charged: nat)
    requires Racing(w, h, read, charged, 0) && charged < read
    ensures var st := ChargeStep(charged, true, true, now);
            Can(w, st) && Racing(Take(w, st), h, read, charged + 1, 0)
  {
    assert At(w, charged) == Seen(h.entity, Stored(0, h));
    OthersStay(w, ChargeStep(charged, true, true, now));
    ChargesAppended(w.l.charges, ChargeFor(Stored(0, h), now), 0);
    hide ChargesOf, Amount;
  }

  lemma RaceRemoves(w: World, h: Hold, read: nat, removed: nat)
    requires Racing(w, h, read, read, removed) && removed < read
    ensures Can(w, RemoveStep(removed, true)) && Racing(Take(w, RemoveStep(removed, true)), h, read, read, removed + 1)
  {
    assert At(w, removed) == ToRemove(h.entity, Stored(0, h), true);
    OthersStay(w, RemoveStep(removed, true));
    hide ChargesOf;
  }

  lemma {:induction false} Race(h: Hold, now: Time, read: nat, charged: nat, removed: nat) returns (run: seq<Step>)
    requires h.entity != "" && removed <= charged <= read && (removed > 0 ==> charged == read)
    ensures Possible(run) && SureRemoves(run) && Racing(After(run), h, read, charged, removed)
    decreases read + charged + removed
  {
    var before := [];
    assert After(before) == START && Possible(before) && SureRemoves(before);
    hide After, Possible, Take, Can, Racing, SureRemoves;
    if removed > 0 {
      before := Race(h, now, read, charged, removed - 1);
      RaceRemoves(After(before), h, read, removed - 1);
    } else if charged > 0 {
      before := Race(h, now, read, charged - 1, 0);
      RaceCharges(After(before), h, now, read, charged - 1);
    } else if read > 0 {
      before := Race(h, now, read - 1, 0, 0);
      RaceReads(After(before), h, read - 1);
    } else {
      RaceStarts(h);
    }
    OneMore(before, RaceStep(h, now, read, charged, removed));
    run := before + [RaceStep(h, now, read, charged, removed)];
  }

  // Without the condition there is no bound: for every n, n overlapping invocations
  // can charge one hold n times although no removal fails.
  lemma OverlapChargesAgain(h: Hold, now: Time, n: nat) returns (run: seq<Step>)
    requires h.entity != ""
    ensures Possible(run) && SureRemoves(run) && AllIdle(After(run)) && ChargesOf(After(run).l.charges, 0) == n
  {
    run := Race(h, now, n, n, n);
    assert forall p :: p in After(run).procs ==> After(run).procs[p] == At(After(run), p);
  }

  // And a hold put while an older one of its entity is being closed is removed with
  // it, uncharged.
  lemma NewerHoldIsLost(h: Hold, newer: Hold, now: Time) returns (run: seq<Step>)
    requires h.entity == newer.entity != ""
    ensures Possible(run) && SureRemoves(run) && AllIdle(After(run))
    ensures var l := After(run).l;
            && |l.issued| == 2 && l.issued[1] == newer && !InStore(l, 1) && ChargesOf(l.charges, 1) == 0
            && FateIn(run, 1) == Dropped
  {
    var race := Race(h, now, 1, 1, 0);
    var put := race + [PutStep(newer, true)];
    run := put + [RemoveStep(0, true)];
    OneMore(race, PutStep(newer, true));
    OneMore(put, RemoveStep(0, true));
    FateTracks(put, 1);
    WorldRunFine(race);
    NewerRemoved(After(race), h, newer);
    assert run[..|put|] == put;
    hide Racing, Possible, After, Take, AllIdle, InStore, ChargesOf, WorldFine;
  }

  lemma NewerRemoved(w: World, h: Hold, newer: Hold)
    requires WorldFine(w) && Racing(w, h, 1, 1, 0) && h.entity == newer.entity != ""
    ensures var put := Take(w, PutStep(newer, true));
            var end := Take(put, RemoveStep(0, true));
            && Can(put, RemoveStep(0, true)) && At(put, 0) == ToRemove(h.entity, Stored(0, h), true)
            && InStore(put.l, 1) && !InStore(end.l, 1) && AllIdle(end)
            && end.l.issued == [h, newer] && ChargesOf(end.l.charges, 1) == 0
  {
    assert At(w, 0) == ToRemove(h.entity, Stored(0, h), true);
    var put := Take(w, PutStep(newer, true));
    var end := Take(put, RemoveStep(0, true));
    forall p | p in end.procs ensures end.procs[p].Idle? {
      assert p != 0 ==> At(w, p) == Idle;
    }
    NoChargeOf(w.l.charges, 1);
    hide ChargesOf, Amount;
  }
}

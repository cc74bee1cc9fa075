// What Reconcile does once every goroutine is over: check the parent context,
// count the gate, drain, assemble, and write one record per member.

module CohortSettle {
  import opened Options
  import opened CohortTypes

  // `drained` lists the Terminate calls in order, `assembled` the member lists
  // handed to the Assembler.
  datatype Settled = Settled(trackers: seq<Tracker>, ready: bool, drained: seq<EntityID>, assembled: seq<seq<Observation>>)

  function EnrolledIn(trs: seq<Tracker>): nat {
    if trs == [] then 0 else (if trs[0].enrolled then 1 else 0) + EnrolledIn(trs[1..])
  }

  // Has a known instance and has not failed.
  predicate Survives(t: Tracker) {
    t.terminal.None? && t.obs.providerID != ""
  }

  function Survivors(trs: seq<Tracker>): seq<EntityID> {
    if trs == [] then [] else (if Survives(trs[0]) then [trs[0].intent.id] else []) + Survivors(trs[1..])
  }

  function EnrolledObs(trs: seq<Tracker>): seq<Observation> {
    if trs == [] then [] else (if trs[0].enrolled then [trs[0].obs] else []) + EnrolledObs(trs[1..])
  }

  lemma {:induction false} EnrolledAppend(trs: seq<Tracker>, t: Tracker)
    ensures EnrolledIn(trs + [t]) == EnrolledIn(trs) + if t.enrolled then 1 else 0
    ensures EnrolledObs(trs + [t]) == EnrolledObs(trs) + if t.enrolled then [t.obs] else []
  {
    if trs != [] {
      EnrolledAppend(trs[1..], t);
      assert (trs + [t])[1..] == trs[1..] + [t];
    }
  }

  // What happens to the members that have not failed; the failed ones are kept.
  datatype Mark = ParentGone(err: CtxErr) | BlameCulprit(culprit: CulpritInfo) | FailAll(phase: Phase, fault: Fault) | MakeReady

  function Marked(t: Tracker, mark: Mark): Tracker {
    if t.terminal.Some? then t
    else
      match mark
      case ParentGone(err) => t.(parentCancelled := Some(ParentCancelInfo(t.phase, err)))
      case BlameCulprit(culprit) => t.(cohortCancelled := Some(CohortCancelInfo(culprit, t.phase)))
      case FailAll(phase, fault) => t.(phase := phase, terminal := Some(fault))
      case MakeReady => t.(phase := PhaseReady)
  }

  function MarkAll(trs: seq<Tracker>, mark: Mark): seq<Tracker> {
    seq(|trs|, i requires 0 <= i < |trs| => Marked(trs[i], mark))
  }

  const DISALLOWED := FailAll(PhaseCohortBarrier, Fault(FaultTerminal, AssemblyDisallowed, false))

  function AssemblyFailure(error: string): Mark {
    FailAll(PhaseCohortAssembly, Fault(FaultTerminal, AssemblyFailed(error), false))
  }

  predicate GateMet(c: Cohort, trs: seq<Tracker>) {
    EnrolledIn(trs) >= c.Need()
  }

  predicate TakesFallback(c: Cohort, trs: seq<Tracker>, culprit: CulpritInfo, parent: CtxErr) {
    parent == Live && !GateMet(c, trs) && culprit.id == ""
  }

  // `parent` is ctx.Err() at the check; `asm` answers the Assemble call, with an
  // error or without one.
  function Settle(c: Cohort, hasAssembler: bool, trs: seq<Tracker>, culprit: CulpritInfo, parent: CtxErr,
                  asm: seq<Observation> -> Option<string>): Settled
  {
    if parent != Live then
      Settled(MarkAll(trs, ParentGone(parent)), false, Survivors(trs), [])
    else if !GateMet(c, trs) then
      Settled(MarkAll(trs, if culprit.id != "" then BlameCulprit(culprit) else ParentGone(Canceled)),
              false, Survivors(trs), [])
    else if c.noAssembly && hasAssembler then
      Settled(MarkAll(trs, DISALLOWED), false, [], [])
    else if c.IsCollective() && hasAssembler then
      var members := EnrolledObs(trs);
      var error := asm(members);
      if error.Some? then Settled(MarkAll(trs, AssemblyFailure(error.value)), false, [], [members])
      else Settled(MarkAll(trs, MakeReady), true, [], [members])
    else
      Settled(MarkAll(trs, MakeReady), true, [], [])
  }

  // One mark is given on every exit path, and blame only to a recorded culprit.
  lemma SettleMarks(c: Cohort, hasAssembler: bool, trs: seq<Tracker>, culprit: CulpritInfo, parent: CtxErr,
                    asm: seq<Observation> -> Option<string>)
    returns (mark: Mark)
    ensures var r := Settle(c, hasAssembler, trs, culprit, parent, asm);
            r.trackers == MarkAll(trs, mark) && (r.ready <==> mark.MakeReady?)
            && (mark.BlameCulprit? ==> mark.culprit == culprit && culprit.id != "" && parent == Live && !GateMet(c, trs))
            && (r.ready ==> parent == Live && GateMet(c, trs))
  {
    mark :=
      if parent != Live then ParentGone(parent)
      else if !GateMet(c, trs) then
        if culprit.id != "" then BlameCulprit(culprit) else ParentGone(Canceled)
      else if c.noAssembly && hasAssembler then DISALLOWED
      else if c.IsCollective() && hasAssembler && asm(EnrolledObs(trs)).Some? then
        AssemblyFailure(asm(EnrolledObs(trs)).value)
      else MakeReady;
  }

  function BuildRecord(t: Tracker, cohort: string): Record {
    Record(t.intent.id, t.intent.generation, cohort, t.phase, t.attempts, t.terminal, t.cohortCancelled, t.parentCancelled)
  }

  // The records map, filled in member order: of two members with one id the
  // later one is kept.
  function Records(trs: seq<Tracker>, cohort: string): map<EntityID, Record> {
    if trs == [] then map[]
    else
      var t := trs[|trs| - 1];
      Records(trs[..|trs| - 1], cohort)[t.intent.id := BuildRecord(t, cohort)]
  }

  ghost predicate DistinctIDs(trs: seq<Tracker>) {
    forall i, j :: 0 <= i < j < |trs| ==> trs[i].intent.id != trs[j].intent.id
  }

  lemma {:induction false} RecordsComplete(trs: seq<Tracker>, cohort: string)
    ensures forall i :: 0 <= i < |trs| ==> trs[i].intent.id in Records(trs, cohort)
    ensures forall id :: id in Records(trs, cohort) ==>
              exists i :: 0 <= i < |trs| && trs[i].intent.id == id && Records(trs, cohort)[id] == BuildRecord(trs[i], cohort)
    ensures DistinctIDs(trs) ==>
              forall i :: 0 <= i < |trs| ==> Records(trs, cohort)[trs[i].intent.id] == BuildRecord(trs[i], cohort)
  {
    if trs != [] {
      var n := |trs| - 1;
      var before := trs[..n];
      RecordsComplete(before, cohort);
      forall id | id in Records(trs, cohort)
        ensures exists i :: 0 <= i < |trs| && trs[i].intent.id == id && Records(trs, cohort)[id] == BuildRecord(trs[i], cohort)
      {
        if id == trs[n].intent.id {
          assert Records(trs, cohort)[id] == BuildRecord(trs[n], cohort);
        } else {
          assert id in Records(before, cohort);
          var i :| 0 <= i < n && before[i].intent.id == id && Records(before, cohort)[id] == BuildRecord(before[i], cohort);
          assert trs[i] == before[i];
        }
      }
      forall i | 0 <= i < |trs|
        ensures trs[i].intent.id in Records(trs, cohort)
        ensures DistinctIDs(trs) ==> Records(trs, cohort)[trs[i].intent.id] == BuildRecord(trs[i], cohort)
      {
        if i < n {
          assert before[i] == trs[i];
        }
      }
    }
  }

  // Of the members with one id the last one's record is kept.
  lemma {:induction false} LaterRecordKept(trs: seq<Tracker>, cohort: string, i: nat)
    requires i < |trs| && forall j :: i < j < |trs| ==> trs[j].intent.id != trs[i].intent.id
    ensures trs[i].intent.id in Records(trs, cohort) && Records(trs, cohort)[trs[i].intent.id] == BuildRecord(trs[i], cohort)
  {
    var n := |trs| - 1;
    if i < n {
      assert trs[..n][i] == trs[i];
      LaterRecordKept(trs[..n], cohort, i);
    }
  }

  lemma OneOutcome(t: Tracker, mark: Mark, cohort: string)
    requires t.Unlabelled()
    ensures BuildRecord(Marked(t, mark), cohort).Outcomes() == 1
  {
  }

  // Every record of every exit path claims exactly one outcome. Needed of the
  // members: nobody carries a cancel label yet, which the concurrent part keeps.
  lemma ExactlyOneOutcome(c: Cohort, hasAssembler: bool, trs: seq<Tracker>, culprit: CulpritInfo, parent: CtxErr,
                          asm: seq<Observation> -> Option<string>)
    requires forall i :: 0 <= i < |trs| ==> trs[i].Unlabelled()
    ensures var records := Records(Settle(c, hasAssembler, trs, culprit, parent, asm).trackers, c.id);
            forall id :: id in records ==> records[id].Outcomes() == 1
  {
    var mark := SettleMarks(c, hasAssembler, trs, culprit, parent, asm);
    hide Settle;
    var done := MarkAll(trs, mark);
    RecordsComplete(done, c.id);
    forall i | 0 <= i < |done| ensures BuildRecord(done[i], c.id).Outcomes() == 1 {
      OneOutcome(trs[i], mark, c.id);
    }
    hide Records, BuildRecord, Marked;
  }

  // A cohort-cancelled record blames the culprit the settling was given; when
  // member k is that culprit, its own record says so too.
  lemma BlamedRecord(c: Cohort, hasAssembler: bool, trs: seq<Tracker>, culprit: CulpritInfo, parent: CtxErr,
                     asm: seq<Observation> -> Option<string>, k: nat, id: EntityID)
    requires k < |trs| && trs[k].terminal == Some(culprit.fault) && trs[k].phase == culprit.phase
    requires trs[k].intent.id == culprit.id
    requires DistinctIDs(trs) && forall i :: 0 <= i < |trs| ==> trs[i].Unlabelled()
    requires var records := Records(Settle(c, hasAssembler, trs, culprit, parent, asm).trackers, c.id);
             id in records && records[id].WasCohortCancelled()
    ensures var records := Records(Settle(c, hasAssembler, trs, culprit, parent, asm).trackers, c.id);
            && records[id].cohortCancelled.value.culprit == culprit && culprit.id != id && culprit.id in records
            && records[culprit.id].terminal == Some(culprit.fault) && records[culprit.id].reachedPhase == culprit.phase
  {
    var mark := SettleMarks(c, hasAssembler, trs, culprit, parent, asm);
    hide Settle, GateMet;
    var done := MarkAll(trs, mark);
    RecordsComplete(done, c.id);
    hide Records, DistinctIDs;
    var i :| 0 <= i < |done| && done[i].intent.id == id && Records(done, c.id)[id] == BuildRecord(done[i], c.id);
    assert done[i] == Marked(trs[i], mark) && trs[i].Unlabelled();
    assert trs[i].terminal.None? && mark.BlameCulprit?;
    assert done[k] == trs[k] && DistinctIDs(done) by { MarkedIDs(trs, mark); }
  }

  lemma MarkedIDs(trs: seq<Tracker>, mark: Mark)
    ensures DistinctIDs(MarkAll(trs, mark)) <==> DistinctIDs(trs)
  {
    assert forall i :: 0 <= i < |trs| ==> MarkAll(trs, mark)[i].intent.id == trs[i].intent.id;
  }

  // The drain list names the survivors, each position once, in member order.
  lemma {:induction false} SurvivorsExact(trs: seq<Tracker>)
    ensures forall id :: id in Survivors(trs) <==> exists i :: 0 <= i < |trs| && Survives(trs[i]) && trs[i].intent.id == id
    ensures DistinctIDs(trs) ==> forall i, j :: 0 <= i < j < |Survivors(trs)| ==> Survivors(trs)[i] != Survivors(trs)[j]
  {
    if trs != [] {
      var rest := trs[1..];
      SurvivorsExact(rest);
      forall id | id in Survivors(trs)
        ensures exists i :: 0 <= i < |trs| && Survives(trs[i]) && trs[i].intent.id == id
      {
        if id in Survivors(rest) {
          var i :| 0 <= i < |rest| && Survives(rest[i]) && rest[i].intent.id == id;
          assert Survives(trs[i + 1]);
        } else {
          assert Survives(trs[0]);
        }
      }
      forall i | 0 <= i < |trs| && Survives(trs[i]) ensures trs[i].intent.id in Survivors(trs) {
        if i > 0 {
          assert rest[i - 1] == trs[i];
        }
      }
      if DistinctIDs(trs) {
        assert DistinctIDs(rest);
        forall id | id in Survivors(rest) ensures id != trs[0].intent.id {
          var i :| 0 <= i < |rest| && Survives(rest[i]) && rest[i].intent.id == id;
          assert trs[i + 1].intent.id == id;
        }
        if Survives(trs[0]) {
          assert Survivors(trs) == [trs[0].intent.id] + Survivors(rest);
          NewHead(trs[0].intent.id, Survivors(rest));
        } else {
          assert Survivors(trs) == Survivors(rest);
        }
      }
    }
  }

  lemma NewHead(id: EntityID, ids: seq<EntityID>)
    requires id !in ids && forall i, j :: 0 <= i < j < |ids| ==> ids[i] != ids[j]
    ensures forall i, j :: 0 <= i < j < |[id] + ids| ==> ([id] + ids)[i] != ([id] + ids)[j]
  {
  }

  // Enrolment and failure exclude each other, so both cannot pass the membership.
  lemma {:induction false} EnrolledAtMost(trs: seq<Tracker>)
    ensures EnrolledIn(trs) <= |trs|
    ensures (forall i :: 0 <= i < |trs| ==> trs[i].enrolled) ==>
              EnrolledIn(trs) == |trs| == |EnrolledObs(trs)|
              && forall i :: 0 <= i < |trs| ==> EnrolledObs(trs)[i] == trs[i].obs
  {
    if trs != [] {
      EnrolledAtMost(trs[1..]);
    }
  }
}

// What a reconcile returns, member by member, in terms of the finished run: who
// is labelled how, what is assembled, and when the cohort is ready.

module CohortOutcome {
  import opened Options
  import opened CohortTypes
  import opened MemberSteps
  import opened CohortMachine
  import opened CohortSettle
  import opened CohortTheorems

  // The members flagged enrolled.
  function Flagged(s: State): set<nat> {
    set i: nat | i < |s.ms| && s.ms[i].tr.enrolled
  }

  function FlaggedAmong(trs: seq<Tracker>): set<nat> {
    set i: nat | i < |trs| && trs[i].enrolled
  }

  // minViable members, or all of them when it is 0, must be flagged.
  predicate EnoughEnrolled(c: Cohort, s: State) {
    |Flagged(s)| >= if c.minViable == 0 then |c.members| else c.minViable
  }

  lemma {:induction false} EnrolledInCounts(trs: seq<Tracker>)
    ensures EnrolledIn(trs) == |FlaggedAmong(trs)|
  {
    if trs != [] {
      var n := |trs| - 1;
      var before := trs[..n];
      EnrolledInCounts(before);
      EnrolledAppend(before, trs[n]);
      assert before + [trs[n]] == trs;
      hide EnrolledIn, EnrolledObs;
      FlaggedSnoc(before, trs[n]);
    }
  }

  lemma FlaggedSnoc(trs: seq<Tracker>, t: Tracker)
    ensures |FlaggedAmong(trs + [t])| == |FlaggedAmong(trs)| + if t.enrolled then 1 else 0
  {
    var n := |trs|;
    assert FlaggedAmong(trs + [t]) == FlaggedAmong(trs) + if t.enrolled then {n} else {};
    assert n !in FlaggedAmong(trs);
  }

  lemma GateIsEnough(c: Cohort, e: bool, run: seq<Step>, s: State)
    requires Reaches(c, e, run, s)
    ensures GateMet(c, Trackers(s)) <==> EnoughEnrolled(c, s)
  {
    EnrolledInCounts(Trackers(s));
    assert FlaggedAmong(Trackers(s)) == Flagged(s);
  }

  // Assembly is called for, behind the gate.
  predicate Assembles(c: Cohort, hasAssembler: bool) {
    hasAssembler && !c.noAssembly && |c.members| > 1
  }

  // The label a member that did not fail in the run ends with.
  datatype Ending =
    | ByParent(cause: CtxErr)
    | ByCulprit(culprit: CulpritInfo)
    | ByFault(phase: Phase, detail: FaultDetail)
    | AsReady

  ghost predicate EndsWith(r: Record, before: Tracker, ending: Ending) {
    && r.attempts == before.attempts
    && match ending
       case ByParent(cause) =>
         && r.parentCancelled == Some(ParentCancelInfo(before.phase, cause)) && r.cohortCancelled.None?
         && r.terminal.None? && r.reachedPhase == before.phase
       case ByCulprit(culprit) =>
         && r.cohortCancelled == Some(CohortCancelInfo(culprit, before.phase)) && r.parentCancelled.None?
         && r.terminal.None? && r.reachedPhase == before.phase
       case ByFault(phase, detail) =>
         && r.terminal == Some(Fault(FaultTerminal, detail, false)) && r.reachedPhase == phase
         && r.cohortCancelled.None? && r.parentCancelled.None?
       case AsReady =>
         r.terminal.None? && r.cohortCancelled.None? && r.parentCancelled.None? && r.reachedPhase == PhaseReady
  }

  // A failure of the member's own stands.
  ghost predicate Stands(r: Record, before: Tracker) {
    && r.terminal == before.terminal && r.reachedPhase == before.phase && r.attempts == before.attempts
    && r.cohortCancelled.None? && r.parentCancelled.None?
  }

  // Else: a dead caller's context comes first, whoever else failed; then, the gate
  // not met, the recorded culprit, and only without one the caller again; then an
  // Assembler the cohort must not have; then an assembly that failed.
  ghost predicate RightEnding(r: Record, before: Tracker, c: Cohort, hasAssembler: bool, enough: bool, culprit: CulpritInfo,
                              parent: CtxErr, error: Option<string>)
  {
    && (before.terminal.Some? ==> Stands(r, before))
    && (before.terminal.None? && parent != Live ==> EndsWith(r, before, ByParent(parent)))
    && (before.terminal.None? && parent == Live && !enough && culprit.id != "" ==> EndsWith(r, before, ByCulprit(culprit)))
    && (before.terminal.None? && parent == Live && !enough && culprit.id == "" ==> EndsWith(r, before, ByParent(Canceled)))
    && (before.terminal.None? && parent == Live && enough ==>
          && (c.noAssembly && hasAssembler ==> EndsWith(r, before, ByFault(PhaseCohortBarrier, AssemblyDisallowed)))
          && (Assembles(c, hasAssembler) && error.Some? ==>
                EndsWith(r, before, ByFault(PhaseCohortAssembly, AssemblyFailed(error.value))))
          && (Assembles(c, hasAssembler) && error.None? ==> EndsWith(r, before, AsReady))
          && (!Assembles(c, hasAssembler) && !(c.noAssembly && hasAssembler) ==> EndsWith(r, before, AsReady)))
  }

  lemma SettlesRight(c: Cohort, hasAssembler: bool, trs: seq<Tracker>, culprit: CulpritInfo, parent: CtxErr,
                     asm: seq<Observation> -> Option<string>, i: nat)
    requires i < |trs| && trs[i].Unlabelled()
    ensures var out := Settle(c, hasAssembler, trs, culprit, parent, asm);
            && |out.trackers| == |trs| && out.trackers[i].intent == trs[i].intent
            && RightEnding(BuildRecord(out.trackers[i], c.id), trs[i], c, hasAssembler, EnrolledIn(trs) >= c.Need(), culprit,
                           parent, asm(EnrolledObs(trs)))
  {
    hide EnrolledIn, EnrolledObs, Survivors;
  }

  // What every member of every finished run has as its record.
  lemma RecordOfEach(c: Cohort, e: bool, hasAssembler: bool, run: seq<Step>, s: State,
                     asm: seq<Observation> -> Option<string>, i: nat)
    requires Waited(c, e, run, s) && i < |c.members|
    requires forall j, k :: 0 <= j < k < |c.members| ==> c.members[j].id != c.members[k].id
    ensures |s.ms| == |c.members|
    ensures var records := Records(Outcome(c, hasAssembler, s, asm).trackers, c.id);
            && c.members[i].id in records
            && var r := records[c.members[i].id];
            && r.entity == c.members[i].id && r.generation == c.members[i].generation && r.cohort == c.id
            && RightEnding(r, s.ms[i].tr, c, hasAssembler, EnoughEnrolled(c, s), s.culprit, s.parent,
                           asm(EnrolledObs(Trackers(s))))
  {
    GateIsEnough(c, e, run, s);
    ReachedTrackers(c, e, run, s);
    ReachedInv(c, e, run, s);
    assert Disciplined(s.ms[i], c.members[i]) && SameEntity(s.ms[i], c.members[i]);
    hide Reaches, Inv, Disciplined, RightEnding, EnoughEnrolled, EnrolledObs;
    SettlesRight(c, hasAssembler, Trackers(s), s.culprit, s.parent, asm, i);
    var done := Outcome(c, hasAssembler, s, asm).trackers;
    SettledIDs(c, hasAssembler, Trackers(s), s.culprit, s.parent, asm);
    hide Settle;
    assert forall j :: 0 <= j < |done| ==> done[j].intent.id == c.members[j].id;
    assert DistinctIDs(done);
    RecordsComplete(done, c.id);
    hide Records;
  }

  lemma SettledIDs(c: Cohort, hasAssembler: bool, trs: seq<Tracker>, culprit: CulpritInfo, parent: CtxErr,
                   asm: seq<Observation> -> Option<string>)
    ensures var done := Settle(c, hasAssembler, trs, culprit, parent, asm).trackers;
            |done| == |trs| && forall i :: 0 <= i < |trs| ==> done[i].intent == trs[i].intent
  {
    var mark := SettleMarks(c, hasAssembler, trs, culprit, parent, asm);
  }

  // So a record blames the culprit in these runs exactly, naming it and the phase
  // the member had reached.
  lemma CohortCancelledIff(c: Cohort, e: bool, hasAssembler: bool, run: seq<Step>, s: State,
                           asm: seq<Observation> -> Option<string>, i: nat)
    requires Waited(c, e, run, s) && i < |c.members|
    requires forall j, k :: 0 <= j < k < |c.members| ==> c.members[j].id != c.members[k].id
    ensures |s.ms| == |c.members|
    ensures var records := Records(Outcome(c, hasAssembler, s, asm).trackers, c.id);
            && c.members[i].id in records
            && var r := records[c.members[i].id];
            && (r.cohortCancelled.Some?
                <==> s.parent == Live && !EnoughEnrolled(c, s) && s.culprit.id != "" && s.ms[i].tr.terminal.None?)
            && (r.cohortCancelled.Some? ==>
                  r.cohortCancelled.value == CohortCancelInfo(s.culprit, s.ms[i].tr.phase) && r.parentCancelled.None?)
            && (r.parentCancelled.Some?
                <==> s.ms[i].tr.terminal.None? && (s.parent != Live || (!EnoughEnrolled(c, s) && s.culprit.id == "")))
            && (r.parentCancelled.Some? ==>
                  r.parentCancelled.value
                  == ParentCancelInfo(s.ms[i].tr.phase, if s.parent != Live then s.parent else Canceled))
  {
    RecordOfEach(c, e, hasAssembler, run, s, asm, i);
    hide Records, Outcome, Waited, EnrolledObs, EnoughEnrolled;
  }

  // ---- the cohort as a whole --------------------------------------------------------------

  // The observations handed over are those of the flagged members, in member order.
  lemma {:induction false} EnrolledObsAre(trs: seq<Tracker>)
    ensures |EnrolledObs(trs)| == EnrolledIn(trs)
    ensures forall i :: 0 <= i < |trs| && trs[i].enrolled ==>
              EnrolledIn(trs[..i]) < EnrolledIn(trs) && EnrolledObs(trs)[EnrolledIn(trs[..i])] == trs[i].obs
  {
    if trs != [] {
      var n := |trs| - 1;
      var before := trs[..n];
      EnrolledObsAre(before);
      EnrolledAppend(before, trs[n]);
      assert before + [trs[n]] == trs;
      forall i | 0 <= i < |trs| && trs[i].enrolled
        ensures EnrolledIn(trs[..i]) < EnrolledIn(trs) && EnrolledObs(trs)[EnrolledIn(trs[..i])] == trs[i].obs
      {
        if i < n {
          assert before[i] == trs[i] && before[..i] == trs[..i];
        }
      }
    }
  }

  // How many members before i are flagged.
  function FlaggedBelow(s: State, i: nat): nat {
    |set j: nat | j < |s.ms| && j < i && s.ms[j].tr.enrolled|
  }

  // Ready exactly when the caller is live, enough are enrolled, no Assembler meets
  // NoAssembly, and assembly, where it is called for, reports no error. It is called
  // once, behind the gate, on the flagged members' observations in member order.
  lemma CohortOutcomeIs(c: Cohort, e: bool, hasAssembler: bool, run: seq<Step>, s: State,
                        asm: seq<Observation> -> Option<string>)
    requires Waited(c, e, run, s)
    ensures |s.ms| == |c.members|
    ensures var out := Outcome(c, hasAssembler, s, asm);
            && (out.ready <==> s.parent == Live && EnoughEnrolled(c, s) && !(c.noAssembly && hasAssembler)
                               && (Assembles(c, hasAssembler) ==> out.assembled != [] && asm(out.assembled[0]).None?))
            && (if s.parent == Live && EnoughEnrolled(c, s) && Assembles(c, hasAssembler) then
                  && |out.assembled| == 1 && |out.assembled[0]| == |Flagged(s)|
                  && forall i: nat :: i < |s.ms| && s.ms[i].tr.enrolled ==>
                       FlaggedBelow(s, i) < |Flagged(s)| && out.assembled[0][FlaggedBelow(s, i)] == s.ms[i].tr.obs
                else out.assembled == [])
  {
    GateIsEnough(c, e, run, s);
    ReachedTrackers(c, e, run, s);
    var trs := Trackers(s);
    EnrolledObsAre(trs);
    EnrolledInCounts(trs);
    assert FlaggedAmong(trs) == Flagged(s);
    forall i: nat | i < |s.ms| ensures EnrolledIn(trs[..i]) == FlaggedBelow(s, i) {
      EnrolledInCounts(trs[..i]);
      assert FlaggedAmong(trs[..i]) == set j: nat | j < |s.ms| && j < i && s.ms[j].tr.enrolled;
    }
    hide Reaches, EnrolledIn, EnrolledObs, FlaggedBelow, Flagged, FlaggedAmong, EnoughEnrolled, GateMet, MarkAll;
  }
}

// How fast a cancelled cohort stops, what it drains, and what its members keep.

module CohortPromptness {
  import opened Options
  import opened CohortTypes
  import opened RungLadder
  import opened MemberSteps
  import opened CohortMachine
  import opened CohortSettle
  import opened CohortTheorems

  // ---- prompt stop --------------------------------------------------------------

  function CallsStarted(run: seq<Step>, i: nat): nat {
    if run == [] then 0 else (if run[0] == Call(i) then 1 else 0) + CallsStarted(run[1..], i)
  }

  // Once a fast-fail or parent cancel is visible a goroutine starts at most one
  // more port call, and only if it had already read its context live.
  lemma {:induction false} AtMostOneLateCall(c: Cohort, e: bool, s: State, run: seq<Step>, i: nat)
    requires s.scope != Live && Valid(c, e, s, run) && i < |s.ms|
    ensures CallsStarted(run, i) <= if s.ms[i].pc == AtCall then 1 else 0
    decreases |run|
  {
    if run != [] {
      var s' := Next(c, e, s, run[0]);
      assert s'.scope != Live && |s'.ms| == |s.ms|;
      assert s.ms[i].pc != AtCall ==> s'.ms[i].pc != AtCall;
      assert run[0] == Call(i) ==> s'.ms[i].pc != AtCall;
      AtMostOneLateCall(c, e, s', run[1..], i);
    }
  }

  // How many steps a member can still take under a dead scope.
  function StepsLeft(pc: Pc): nat {
    match pc
    case AtCall => 7
    case InCall => 6
    case AtCheck => 5
    case Returned => 4
    case Naming => 3
    case Firing => 2
    case Unlocking => 1
    case Finished => 0
  }

  function AllStepsLeft(ms: seq<Member>): nat {
    if ms == [] then 0 else StepsLeft(ms[0].pc) + AllStepsLeft(ms[1..])
  }

  lemma {:induction false} StepsLeftUpdate(ms: seq<Member>, i: nat, m: Member)
    requires i < |ms|
    ensures AllStepsLeft(ms[i := m]) + StepsLeft(ms[i].pc) == AllStepsLeft(ms) + StepsLeft(m.pc)
    ensures AllStepsLeft(ms) <= 7 * |ms|
  {
    if i == 0 {
      assert ms[i := m][1..] == ms[1..];
      if |ms| > 1 {
        StepsLeftUpdate(ms[1..], 0, m);
      }
    } else {
      StepsLeftUpdate(ms[1..], i - 1, m);
      assert ms[i := m][1..] == ms[1..][i - 1 := m];
    }
  }

  function Measure(s: State): nat {
    AllStepsLeft(s.ms) + if s.parent == Live then 1 else 0
  }

  // The goroutine that moves gets nearer to its end; the others stay put.
  lemma PcMovesOn(c: Cohort, e: bool, s: State, st: Step)
    requires s.scope != Live && Enabled(s, st) && !st.ParentDone?
    ensures var s' := Next(c, e, s, st);
            && st.i < |s.ms| == |s'.ms| && s'.ms == s.ms[st.i := s'.ms[st.i]] && s'.parent == s.parent
            && StepsLeft(s'.ms[st.i].pc) < StepsLeft(s.ms[st.i].pc)
  {
    hide NextRung, Satisfiable, Fail;
  }

  lemma StepCostsMeasure(c: Cohort, e: bool, s: State, st: Step)
    requires s.scope != Live && Enabled(s, st)
    ensures Measure(Next(c, e, s, st)) < Measure(s)
  {
    if !st.ParentDone? {
      PcMovesOn(c, e, s, st);
      hide Next, Enabled, StepsLeft;
      StepsLeftUpdate(s.ms, st.i, Next(c, e, s, st).ms[st.i]);
      hide AllStepsLeft;
    }
  }

  lemma {:induction false} RunIsShort(c: Cohort, e: bool, s: State, run: seq<Step>)
    requires s.scope != Live && Valid(c, e, s, run)
    ensures |run| <= Measure(s)
    decreases |run|
  {
    if run != [] {
      StepCostsMeasure(c, e, s, run[0]);
      assert Next(c, e, s, run[0]).scope != Live;
      hide Next, Measure;
      RunIsShort(c, e, Next(c, e, s, run[0]), run[1..]);
    }
  }

  // While a goroutine is not over, some goroutine has a step: in-flight calls
  // return, and the mutex is never held by one that cannot go on.
  lemma SomebodyMoves(c: Cohort, s: State)
    requires Inv(c, s) && !AllFinished(s)
    ensures exists st :: Enabled(s, st) && !st.ParentDone?
  {
    hide Disciplined, ScopeFine, CountFine;
    if s.mu.Some? {
      var h := s.mu.value;
      assert Disciplined(s.ms[h], c.members[h]);
      var st := if s.ms[h].pc == Naming then Name(h) else if s.ms[h].pc == Firing then Fire(h) else Unlock(h);
      assert UnderMutex(s.ms[h].pc);
      assert Enabled(s, st);
    } else {
      var i :| 0 <= i < |s.ms| && s.ms[i].pc != Finished;
      assert !UnderMutex(s.ms[i].pc);
      var m := s.ms[i];
      assert m.tr.phase.Ord() <= 2 by {
        assert Disciplined(m, c.members[i]);
        InRange(m, c.members[i]);
      }
      var reply :=
        if m.tr.phase == PhaseLaunchAcked then Acked(NO_OBSERVATION)
        else if m.tr.phase == PhaseRunning then Observed([]) else ProbeFailed;
      var st :=
        if m.pc == AtCheck then Check(i)
        else if m.pc == AtCall then Call(i)
        else if m.pc == InCall then Answer(i, reply)
        else if m.tr.terminal.None? then Exit(i) else Count(i);
      assert Enabled(s, st);
    }
  }

  lemma InRange(m: Member, intent: EntityIntent)
    requires Disciplined(m, intent)
    ensures m.tr.phase.Ord() <= 2
  {
  }

  // From any reachable state whose scope is dead, every continuation has at most
  // 7 steps a member plus the parent's, and does not stop before Wait can return.
  lemma CancelledRunCompletes(c: Cohort, e: bool, before: seq<Step>, s: State, run: seq<Step>)
    requires Reaches(c, e, before, s) && s.scope != Live && Valid(c, e, s, run)
    ensures |run| <= 7 * |c.members| + 1
    ensures var end := Exec(c, e, s, run);
            AllFinished(end) || exists st :: Enabled(end, st) && !st.ParentDone?
  {
    ReachedInv(c, e, before, s);
    RunIsShort(c, e, s, run);
    if s.ms != [] {
      StepsLeftUpdate(s.ms, 0, s.ms[0]);
    }
    ExecInv(c, e, s, run);
    var end := Exec(c, e, s, run);
    if !AllFinished(end) {
      SomebodyMoves(c, end);
    }
  }

  // Such a continuation can always be had, without the caller's doing.
  lemma {:induction false} Completes(c: Cohort, e: bool, s: State) returns (rest: seq<Step>)
    requires Inv(c, s) && s.scope != Live
    ensures Valid(c, e, s, rest) && AllFinished(Exec(c, e, s, rest)) && Exec(c, e, s, rest).parent == s.parent
    decreases Measure(s)
  {
    if AllFinished(s) {
      rest := [];
    } else {
      SomebodyMoves(c, s);
      var st :| Enabled(s, st) && !st.ParentDone?;
      var s' := Next(c, e, s, st);
      assert s'.scope != Live && s'.parent == s.parent;
      StepInv(c, e, s, st);
      StepCostsMeasure(c, e, s, st);
      hide Next, Inv, Enabled, AllFinished, Measure;
      var more := Completes(c, e, s');
      rest := [st] + more;
      assert rest[1..] == more;
    }
  }

  // ---- what the ports reported ----------------------------------------------------

  // `good(i, id, providerID)` is a caller's assumption about what the ports report
  // for member i.
  predicate ReportsWell(st: Step, good: (nat, EntityID, string) -> bool) {
    st.Answer? ==>
      match st.a
      case Acked(obs) => good(st.i, obs.id, obs.providerID)
      case Observed(seen) => seen == [] || good(st.i, seen[0].id, seen[0].providerID)
      case _ => true
  }

  ghost predicate ObsGood(s: State, good: (nat, EntityID, string) -> bool) {
    forall i :: 0 <= i < |s.ms| && s.ms[i].tr.phase != PhaseLaunchAcked ==>
      good(i, s.ms[i].tr.obs.id, s.ms[i].tr.obs.providerID)
  }

  lemma StepObsGood(c: Cohort, e: bool, s: State, st: Step, good: (nat, EntityID, string) -> bool)
    requires Enabled(s, st) && ObsGood(s, good) && ReportsWell(st, good)
    ensures ObsGood(Next(c, e, s, st), good)
  {
    if st.Answer? {
      AnswerObsGood(s.ms[st.i], st.a, st.i, good);
    }
    hide OnAnswer;
  }

  lemma AnswerObsGood(m: Member, a: MemberSteps.Answer, i: nat, good: (nat, EntityID, string) -> bool)
    requires Fits(m.tr.phase, a) && ReportsWell(Step.Answer(i, a), good)
    requires m.tr.phase != PhaseLaunchAcked ==> good(i, m.tr.obs.id, m.tr.obs.providerID)
    ensures var t := OnAnswer(m, a).tr;
            t.phase != PhaseLaunchAcked ==> good(i, t.obs.id, t.obs.providerID)
  {
  }

  lemma {:induction false} ExecObsGood(c: Cohort, e: bool, s: State, run: seq<Step>, good: (nat, EntityID, string) -> bool)
    requires Valid(c, e, s, run) && ObsGood(s, good) && forall k :: 0 <= k < |run| ==> ReportsWell(run[k], good)
    ensures ObsGood(Exec(c, e, s, run), good)
    decreases |run|
  {
    if run != [] {
      StepObsGood(c, e, s, run[0], good);
      hide Next, ReportsWell;
      ExecObsGood(c, e, Next(c, e, s, run[0]), run[1..], good);
    }
  }

  // ---- the drain ------------------------------------------------------------------

  // The instance an answer reports, if any, and else what was known.
  function Report(a: MemberSteps.Answer, known: string): string {
    match a
    case Acked(obs) => obs.providerID
    case Observed(seen) => if seen == [] then known else seen[0].providerID
    case _ => known
  }

  // The instance the ports last reported for member i over a run, starting from
  // what was known before.
  function LastReported(run: seq<Step>, i: nat, known: string): string
    decreases |run|
  {
    if run == [] then known
    else LastReported(run[1..], i, if run[0].Answer? && run[0].i == i then Report(run[0].a, known) else known)
  }

  lemma AnswerReported(m: Member, a: MemberSteps.Answer)
    requires Fits(m.tr.phase, a)
    ensures OnAnswer(m, a).tr.obs.providerID == Report(a, m.tr.obs.providerID)
  {
    hide NextRung;
  }

  lemma StepReported(c: Cohort, e: bool, s: State, st: Step, i: nat)
    requires Enabled(s, st) && i < |s.ms|
    ensures |Next(c, e, s, st).ms| == |s.ms|
    ensures Next(c, e, s, st).ms[i].tr.obs.providerID
         == if st.Answer? && st.i == i then Report(st.a, s.ms[i].tr.obs.providerID) else s.ms[i].tr.obs.providerID
  {
    if st.Answer? {
      AnswerReported(s.ms[st.i], st.a);
    }
    hide OnAnswer, Report, Satisfiable;
  }

  lemma {:induction false} ExecReported(c: Cohort, e: bool, s: State, run: seq<Step>, i: nat)
    requires Valid(c, e, s, run) && i < |s.ms|
    ensures |Exec(c, e, s, run).ms| == |s.ms|
    ensures Exec(c, e, s, run).ms[i].tr.obs.providerID == LastReported(run, i, s.ms[i].tr.obs.providerID)
    decreases |run|
  {
    if run != [] {
      StepReported(c, e, s, run[0], i);
      hide Next, Enabled, Report;
      ExecReported(c, e, Next(c, e, s, run[0]), run[1..], i);
    }
  }

  // The drain list in terms of the members, whose ids differ.
  lemma MembersDrained(c: Cohort, trs: seq<Tracker>)
    requires |trs| == |c.members| && forall i :: 0 <= i < |trs| ==> trs[i].intent.id == c.members[i].id
    requires forall i, j :: 0 <= i < j < |c.members| ==> c.members[i].id != c.members[j].id
    ensures forall i :: 0 <= i < |trs| ==> (c.members[i].id in Survivors(trs) <==> Survives(trs[i]))
    ensures forall id :: id in Survivors(trs) ==> exists i :: 0 <= i < |c.members| && c.members[i].id == id
    ensures forall i, j :: 0 <= i < j < |Survivors(trs)| ==> Survivors(trs)[i] != Survivors(trs)[j]
  {
    assert DistinctIDs(trs);
    SurvivorsExact(trs);
    hide Survivors, Survives, DistinctIDs;
    forall i | 0 <= i < |trs| ensures c.members[i].id in Survivors(trs) <==> Survives(trs[i]) {
      if c.members[i].id in Survivors(trs) {
        var j :| 0 <= j < |trs| && Survives(trs[j]) && trs[j].intent.id == c.members[i].id;
        assert c.members[j].id == c.members[i].id;
      } else {
        assert trs[i].intent.id == c.members[i].id;
      }
    }
    forall id | id in Survivors(trs) ensures exists i :: 0 <= i < |c.members| && c.members[i].id == id {
      var j :| 0 <= j < |trs| && Survives(trs[j]) && trs[j].intent.id == id;
      assert c.members[j].id == id;
    }
  }

  // On parent cancel and on gate failure, and on no other path, exactly the
  // non-failed members whose last report named an instance are terminated, each
  // once, and nobody else. If the ports never report a blank instance, that is
  // every launched survivor.
  lemma ExactDrain(c: Cohort, e: bool, hasAssembler: bool, run: seq<Step>, s: State,
                   asm: seq<Observation> -> Option<string>)
    requires Waited(c, e, run, s) && (forall i, j :: 0 <= i < j < |c.members| ==> c.members[i].id != c.members[j].id)
    ensures var r := Outcome(c, hasAssembler, s, asm);
            && |s.ms| == |c.members|
            && (s.parent == Live && GateMet(c, Trackers(s)) ==> r.drained == [])
            && (s.parent != Live || !GateMet(c, Trackers(s)) ==>
                  forall i :: 0 <= i < |c.members| ==>
                    && (c.members[i].id in r.drained <==> Survives(Trackers(s)[i]))
                    && (c.members[i].id in r.drained <==> s.ms[i].tr.terminal.None? && LastReported(run, i, "") != ""))
            && (forall id :: id in r.drained ==> exists i :: 0 <= i < |c.members| && c.members[i].id == id)
            && (forall i, j :: 0 <= i < j < |r.drained| ==> r.drained[i] != r.drained[j])
    ensures (forall k :: 0 <= k < |run| ==> ReportsWell(run[k], (i, id, providerID) => providerID != "")) ==>
              forall i :: 0 <= i < |c.members| && Trackers(s)[i].phase != PhaseLaunchAcked ==>
                (Survives(Trackers(s)[i]) <==> Trackers(s)[i].terminal.None?)
  {
    ReachedTrackers(c, e, run, s);
    MembersDrained(c, Trackers(s));
    forall i | 0 <= i < |c.members| ensures s.ms[i].tr.obs.providerID == LastReported(run, i, "") {
      ExecReported(c, e, Init(c), run, i);
    }
    DrainedAre(c, hasAssembler, Trackers(s), s.culprit, s.parent, asm);
    hide LastReported, Survivors, Reaches, GateMet, Settle;
    if forall k :: 0 <= k < |run| ==> ReportsWell(run[k], (i, id, providerID) => providerID != "") {
      NoBlankReports(c, e, run, s);
    }
  }

  lemma DrainedAre(c: Cohort, hasAssembler: bool, trs: seq<Tracker>, culprit: CulpritInfo, parent: CtxErr,
                   asm: seq<Observation> -> Option<string>)
    ensures Settle(c, hasAssembler, trs, culprit, parent, asm).drained
         == if parent != Live || !GateMet(c, trs) then Survivors(trs) else []
  {
  }

  lemma NoBlankReports(c: Cohort, e: bool, run: seq<Step>, s: State)
    requires Reaches(c, e, run, s)
    requires forall k :: 0 <= k < |run| ==> ReportsWell(run[k], (i, id, providerID) => providerID != "")
    ensures forall i :: 0 <= i < |s.ms| && s.ms[i].tr.phase != PhaseLaunchAcked ==> s.ms[i].tr.obs.providerID != ""
  {
    var named := (i: nat, id: EntityID, providerID: string) => providerID != "";
    forall k | 0 <= k < |run| ensures ReportsWell(run[k], named) {
      assert ReportsWell(run[k], (i, id, providerID) => providerID != "");
    }
    assert ObsGood(Init(c), named);
    ExecObsGood(c, e, Init(c), run, named);
  }

  // ---- records over time ------------------------------------------------------------

  // A member's phase never goes back, step by step, nor does settling take it back.
  lemma PhasesNeverDecrease(c: Cohort, e: bool, s: State, st: Step, i: nat)
    requires Inv(c, s) && Enabled(s, st) && i < |s.ms|
    ensures |Next(c, e, s, st).ms| == |s.ms|
    ensures s.ms[i].tr.phase.Ord() <= Next(c, e, s, st).ms[i].tr.phase.Ord()
  {
    assert Disciplined(s.ms[i], c.members[i]);
    if (st.Check? || st.Call? || st.Answer?) && st.i == i {
      MoveDisciplined(s.ms[i], MoveOf(s, st), e, c.members[i]);
    }
    hide Disciplined, OnCheck, OnCall, OnAnswer;
  }

  // What a record says of a member in the end: a failure before the barrier is
  // its last attempt, in its phase; the phase reached in the run is never taken
  // back; and when the chain repeats no rung the attempts are the ladder's shape.
  lemma RecordTellsTheRun(c: Cohort, e: bool, hasAssembler: bool, run: seq<Step>, s: State,
                          asm: seq<Observation> -> Option<string>, i: nat)
    requires Waited(c, e, run, s) && i < |c.members|
    ensures var r := Outcome(c, hasAssembler, s, asm);
            && |r.trackers| == |c.members| == |s.ms|
            && var t, before := r.trackers[i], s.ms[i].tr;
            && t.attempts == before.attempts && before.phase.Ord() <= t.phase.Ord()
            && (before.terminal.Some? ==>
                  t == before && |t.attempts| > 0
                  && t.attempts[|t.attempts| - 1] == Attempt(t.intent.rung, t.phase, t.terminal))
            && (Climbable(c.members[i]) ==> AttemptShape(before, Ladder(c.members[i]), s.ms[i].climbed))
  {
    ReachedInv(c, e, run, s);
    assert Disciplined(s.ms[i], c.members[i]);
    var mark := SettleMarks(c, hasAssembler, Trackers(s), s.culprit, s.parent, asm);
    MarkMovesOn(c, hasAssembler, Trackers(s), s.culprit, s.parent, asm, i);
    hide Settle, AttemptShape, Reaches, LaunchBudget;
  }

  lemma MarkMovesOn(c: Cohort, hasAssembler: bool, trs: seq<Tracker>, culprit: CulpritInfo, parent: CtxErr,
                    asm: seq<Observation> -> Option<string>, i: nat)
    requires i < |trs| && trs[i].phase.Ord() <= 2
    ensures var done := Settle(c, hasAssembler, trs, culprit, parent, asm).trackers;
            && |done| == |trs| && trs[i].phase.Ord() <= done[i].phase.Ord() && done[i].attempts == trs[i].attempts
            && (trs[i].terminal.Some? ==> done[i] == trs[i])
  {
  }
}

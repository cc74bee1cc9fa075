// Runs that exist: they show where the source's comments claim more than its
// code does, and that the conditions of the theorems are the right ones.

module CohortWitnesses {
  import opened Options
  import opened CohortTypes
  import opened MemberSteps
  import opened CohortMachine
  import opened CohortSettle
  import opened CohortTheorems

  ghost predicate Reachable(c: Cohort, e: bool, s: State) {
    exists run :: Reaches(c, e, run, s)
  }

  lemma StartReachable(c: Cohort, e: bool)
    ensures Reachable(c, e, Init(c))
  {
    assert Reaches(c, e, [], Init(c));
  }

  lemma JustOne(c: Cohort, e: bool, s: State, st: Step)
    requires Enabled(s, st)
    ensures Valid(c, e, s, [st]) && Exec(c, e, s, [st]) == Next(c, e, s, st)
  {
    var run, s' := [st], Next(c, e, s, st);
    assert run[0] == st && run[1..] == [];
    hide Next, Enabled;
    assert Valid(c, e, s', []) && Exec(c, e, s', []) == s';
  }

  lemma StepReachable(c: Cohort, e: bool, s: State, st: Step) returns (s': State)
    requires Reachable(c, e, s) && Enabled(s, st)
    ensures s' == Next(c, e, s, st) && Reachable(c, e, s')
  {
    s' := Next(c, e, s, st);
    var run :| Reaches(c, e, run, s);
    JustOne(c, e, s, st);
    hide Next, Enabled;
    ExecConcat(c, e, Init(c), run, [st]);
    assert Reaches(c, e, run + [st], s');
  }

  // ---- pieces of runs ---------------------------------------------------------------

  const RUNNING := Observation("", StateRunning, "", "")

  // One pass of a phase loop: the context is live and the port answers.
  lemma OnePass(c: Cohort, e: bool, s: State, i: nat, a: MemberSteps.Answer) returns (s': State)
    requires Reachable(c, e, s) && i < |s.ms| && s.scope == Live && s.ms[i].pc == AtCheck && !s.ms[i].expired
    requires Fits(s.ms[i].tr.phase, a) && (s.ms[i].tr.phase == PhaseEnrolled ==> e)
    ensures Reachable(c, e, s')
    ensures s' == s.(ms := s.ms[i := OnAnswer(s.ms[i].(pc := InCall), a)])
  {
    hide OnAnswer;
    s' := StepReachable(c, e, s, Check(i));
    s' := StepReachable(c, e, s', Call(i));
    s' := StepReachable(c, e, s', Answer(i, a));
  }

  // One member goes all the way up and ends without failing.
  lemma MemberSucceeds(c: Cohort, e: bool, s: State, i: nat) returns (s': State)
    requires Reachable(c, e, s) && s.scope == Live && i < |s.ms| == |c.members| && s.ms[i] == NewMember(c.members[i])
    ensures Reachable(c, e, s') && |s'.ms| == |s.ms| && s' == s.(ms := s.ms[i := s'.ms[i]])
    ensures s'.ms[i].pc == Finished && s'.ms[i].tr.terminal.None? && s'.ms[i].tr.enrolled
  {
    hide Reachable;
    s' := OnePass(c, e, s, i, Acked(RUNNING));
    s' := OnePass(c, e, s', i, Observed([RUNNING]));
    if e {
      s' := OnePass(c, e, s', i, Probed(true, true, ""));
    } else {
      s' := StepReachable(c, e, s', Check(i));
      s' := StepReachable(c, e, s', Call(i));
    }
    s' := StepReachable(c, e, s', Exit(i));
  }

  // All members can: then nobody failed and no culprit was recorded.
  lemma {:induction false} EveryoneSucceeds(c: Cohort, e: bool, k: nat) returns (s: State)
    requires k <= |c.members|
    ensures Reachable(c, e, s) && |s.ms| == |c.members|
    ensures s == Init(c).(ms := s.ms)
    ensures forall i :: 0 <= i < k ==> s.ms[i].pc == Finished && s.ms[i].tr.enrolled
    ensures forall i :: k <= i < |s.ms| ==> s.ms[i] == NewMember(c.members[i])
  {
    if k == 0 {
      StartReachable(c, e);
      s := Init(c);
    } else {
      var before := EveryoneSucceeds(c, e, k - 1);
      s := MemberSucceeds(c, e, before, k - 1);
    }
  }

  // A member's deadline fires at the head of a phase loop, and it returns failed.
  lemma Expires(c: Cohort, e: bool, s: State, i: nat) returns (s': State)
    requires Reachable(c, e, s) && i < |s.ms| && s.ms[i].pc == AtCheck && !s.ms[i].expired && s.scope == Live
    ensures Reachable(c, e, s')
    ensures var m := s.ms[i];
            s' == s.(ms := s.ms[i := FailWith(m.(expired := true), DeadlineFault(m.tr.phase))])
  {
    hide Reachable;
    s' := StepReachable(c, e, s, Expire(i));
    s' := StepReachable(c, e, s', Check(i));
  }

  // A failure the gate tolerates is counted.
  lemma IsCounted(c: Cohort, e: bool, s: State, i: nat) returns (s': State)
    requires Reachable(c, e, s) && i < |s.ms| && s.ms[i].pc == Returned && s.ms[i].tr.terminal.Some? && s.mu.None?
    requires Satisfiable(c, s.failed + 1)
    ensures Reachable(c, e, s')
    ensures s' == s.(ms := s.ms[i := s.ms[i].(pc := Finished)], failed := s.failed + 1, order := s.order + [i])
  {
    hide Reachable;
    s' := StepReachable(c, e, s, Count(i));
    s' := StepReachable(c, e, s', Unlock(i));
  }

  // One it does not tolerate is recorded as the culprit, and cancels the rest.
  lemma IsBlamed(c: Cohort, e: bool, s: State, i: nat) returns (s': State)
    requires Reachable(c, e, s) && i < |s.ms| && s.ms[i].pc == Returned && s.ms[i].tr.terminal.Some? && s.mu.None?
    requires !Satisfiable(c, s.failed + 1) && s.culprit.id == "" && s.scope == Live
    ensures Reachable(c, e, s')
    ensures var tr := s.ms[i].tr;
            s' == s.(ms := s.ms[i := s.ms[i].(pc := Finished)], failed := s.failed + 1, order := s.order + [i],
                     culprit := CulpritInfo(tr.intent.id, tr.terminal.value, tr.phase),
                     named := if s.named.None? then Some(i) else s.named, scope := Canceled, fired := true)
  {
    hide Reachable;
    s' := StepReachable(c, e, s, Count(i));
    s' := StepReachable(c, e, s', Name(i));
    s' := StepReachable(c, e, s', Fire(i));
    s' := StepReachable(c, e, s', Unlock(i));
  }

  // A member that reads the cancel leaves and ends.
  lemma Quits(c: Cohort, e: bool, s: State, i: nat) returns (s': State)
    requires Reachable(c, e, s) && i < |s.ms| && s.ms[i].pc == AtCheck && !s.ms[i].expired && s.ms[i].tr.terminal.None?
    requires s.scope == Canceled
    ensures Reachable(c, e, s') && s' == s.(ms := s.ms[i := Leave(s.ms[i]).(pc := Finished)])
  {
    hide Reachable;
    s' := StepReachable(c, e, s, Check(i));
    s' := StepReachable(c, e, s', Exit(i));
  }

  // ---- the defensive fallback, exactly -------------------------------------------

  // Member m's place among the members other than i.
  function PlaceBeside(i: nat, m: nat): nat
    requires m != i
  {
    if m < i then m else m - 1
  }

  predicate Gone(m: Member) {
    m.pc == Finished && !m.tr.enrolled
  }

  // The first k members other than i have failed and been counted; all others
  // have not started.
  ghost predicate FailedBeside(c: Cohort, s: State, i: nat, k: nat) {
    && |s.ms| == |c.members| && s == Init(c).(ms := s.ms, failed := k, order := s.order)
    && (forall m :: 0 <= m < |s.ms| ==>
          if m != i && PlaceBeside(i, m) < k then Gone(s.ms[m]) else s.ms[m] == NewMember(c.members[m]))
  }

  lemma {:induction false} FailBeside(c: Cohort, e: bool, i: nat, k: nat) returns (s: State)
    requires i < |c.members| && c.Need() >= 1 && k <= |c.members| - c.Need()
    ensures Reachable(c, e, s) && FailedBeside(c, s, i, k)
  {
    if k == 0 {
      StartReachable(c, e);
      s := Init(c);
    } else {
      s := FailBeside(c, e, i, k - 1);
      var m := if k - 1 < i then k - 1 else k;
      assert PlaceBeside(i, m) == k - 1;
      hide Reachable;
      s := Expires(c, e, s, m);
      s := IsCounted(c, e, s, m);
    }
  }

  // After the cancel, everybody who has not started leaves.
  lemma {:induction false} QuitAll(c: Cohort, e: bool, s: State, k: nat) returns (s': State)
    requires Reachable(c, e, s) && k <= |s.ms| == |c.members| && s.scope == Canceled
    requires forall m :: 0 <= m < |s.ms| ==> Gone(s.ms[m]) || s.ms[m] == NewMember(c.members[m])
    ensures Reachable(c, e, s') && |s'.ms| == |s.ms| && s' == s.(ms := s'.ms)
    ensures forall m :: 0 <= m < k ==> Gone(s'.ms[m])
    ensures forall m :: k <= m < |s.ms| ==> s'.ms[m] == s.ms[m]
  {
    hide Reachable;
    if k == 0 {
      s' := s;
    } else {
      s' := QuitAll(c, e, s, k - 1);
      if !Gone(s'.ms[k - 1]) {
        s' := Quits(c, e, s', k - 1);
      }
    }
  }

  lemma {:induction false} NobodyEnrolled(trs: seq<Tracker>)
    requires forall i :: 0 <= i < |trs| ==> !trs[i].enrolled
    ensures EnrolledIn(trs) == 0
  {
    if trs != [] {
      NobodyEnrolled(trs[1..]);
    }
  }

  // A member with an empty id whose failure is the first intolerable one is
  // recorded as nobody: the fallback label is given although the cancel was fired.
  lemma EmptyNameHidesCulprit(c: Cohort, e: bool, i: nat) returns (run: seq<Step>, s: State)
    requires i < |c.members| && c.members[i].id == "" && 1 <= c.Need() <= |c.members|
    ensures Waited(c, e, run, s) && s.fired && TakesFallback(c, Trackers(s), s.culprit, s.parent)
  {
    s := FailBeside(c, e, i, |c.members| - c.Need());
    hide Reachable, Reaches;
    s := Expires(c, e, s, i);
    s := IsBlamed(c, e, s, i);
    s := QuitAll(c, e, s, |s.ms|);
    NobodyEnrolled(Trackers(s));
    run := RunTo(c, e, s);
  }

  lemma RunTo(c: Cohort, e: bool, s: State) returns (run: seq<Step>)
    requires Reachable(c, e, s)
    ensures Reaches(c, e, run, s)
  {
    run :| Reaches(c, e, run, s);
  }

  // The fallback label needs a gate nobody can meet, or one that can fail with an
  // empty id among the members.
  predicate FallbackPossible(c: Cohort) {
    c.Need() > |c.members| || (c.Need() >= 1 && exists i :: 0 <= i < |c.members| && c.members[i].id == "")
  }

  // It can be reached by exactly these cohorts.
  lemma FallbackIff(c: Cohort, e: bool)
    ensures (exists run, s :: Waited(c, e, run, s) && TakesFallback(c, Trackers(s), s.culprit, s.parent))
            <==> FallbackPossible(c)
  {
    if c.Need() > |c.members| {
      var s := EveryoneSucceeds(c, e, |c.members|);
      var run := RunTo(c, e, s);
      assert Waited(c, e, run, s);
      EnrolledAtMost(Trackers(s));
      assert TakesFallback(c, Trackers(s), s.culprit, s.parent);
    } else if FallbackPossible(c) {
      var i: nat :| i < |c.members| && c.members[i].id == "";
      var run, s := EmptyNameHidesCulprit(c, e, i);
    } else {
      forall run, s | Waited(c, e, run, s)
        ensures !TakesFallback(c, Trackers(s), s.culprit, s.parent)
      {
        if c.Need() >= 1 {
          FallbackUnreachable(c, e, run, s);
        }
      }
    }
  }

  // ---- when a cohort can come out ready -----------------------------------------------

  // The gate asks for no more than it can get, and assembly is not ruled out.
  predicate CanBeReady(c: Cohort, hasAssembler: bool) {
    c.Need() <= |c.members| && !(c.noAssembly && hasAssembler)
  }

  // Ready is within reach of exactly these cohorts.
  lemma ReadyIff(c: Cohort, e: bool, hasAssembler: bool)
    ensures (exists run, s, asm :: Waited(c, e, run, s) && Outcome(c, hasAssembler, s, asm).ready) <==> CanBeReady(c, hasAssembler)
  {
    if CanBeReady(c, hasAssembler) {
      var s := EveryoneSucceeds(c, e, |c.members|);
      var run :| Reaches(c, e, run, s);
      assert Waited(c, e, run, s);
      EnrolledAtMost(Trackers(s));
      hide Reaches;
      var asm := (members: seq<Observation>) => None;
      assert Outcome(c, hasAssembler, s, asm).ready;
    }
    forall run, s, asm | Waited(c, e, run, s) && Outcome(c, hasAssembler, s, asm).ready
      ensures CanBeReady(c, hasAssembler)
    {
      ReachedTrackers(c, e, run, s);
      EnrolledAtMost(Trackers(s));
    }
  }

  // ---- runs against the comments -------------------------------------------------------

  // A cohort of two, both needed.
  function Pair(first: EntityID, second: EntityID): Cohort {
    var rung := Rung("t", "", CapacityOnDemand, "", false);
    Cohort("c", [EntityIntent(first, "", rung, []), EntityIntent(second, "", rung, [])], 2, false)
  }

  // The first member fails, fires the fast-fail and ends.
  lemma FirstFails(first: EntityID, second: EntityID, e: bool, s: State) returns (s': State)
    requires Reachable(Pair(first, second), e, s) && |s.ms| == 2 && s.ms[0] == NewMember(Pair(first, second).members[0])
    requires s.scope == Live && s.parent == Live && s.mu.None? && s.failed == 0 && s.culprit == NO_CULPRIT
    ensures Reachable(Pair(first, second), e, s') && |s'.ms| == 2 && s'.ms[1] == s.ms[1]
    ensures s'.ms[0].pc == Finished && s'.ms[0].tr.terminal.Some? && !s'.ms[0].tr.enrolled
    ensures s'.scope == Canceled && s'.parent == Live && s'.fired && s'.culprit.id == first
  {
    hide Reachable;
    s' := Expires(Pair(first, second), e, s, 0);
    s' := IsBlamed(Pair(first, second), e, s', 0);
  }

  // Against the comment in reconcileEntity: a member cancelled while waiting to be
  // enrolled is flagged enrolled. The gate is still sound, by GateSound's count.
  lemma CancelledYetEnrolled() returns (run: seq<Step>, s: State)
    ensures var c := Pair("a", "b");
            Waited(c, true, run, s) && |s.ms| == 2 && s.ms[1].tr.enrolled && !s.ms[1].verified && !GateMet(c, Trackers(s))
  {
    var c := Pair("a", "b");
    StartReachable(c, true);
    s := Init(c);
    s := OnePass(c, true, s, 1, Acked(RUNNING));
    s := OnePass(c, true, s, 1, Observed([RUNNING]));
    s := FirstFails("a", "b", true, s);
    s := Quits(c, true, s, 1);
    run := RunTo(c, true, s);
    hide Reachable, Reaches;
    assert Trackers(s) == [s.ms[0].tr, s.ms[1].tr];
    assert EnrolledIn([s.ms[1].tr]) <= 1;
    assert EnrolledIn(Trackers(s)) <= 1;
  }

  // A survivor whose last describe missed has no instance id left: it was
  // launched and did not fail, and it is not drained.
  lemma DescribeMissEscapesDrain() returns (run: seq<Step>, s: State)
    ensures var c := Pair("a", "b");
            && Waited(c, true, run, s) && |s.ms| == 2 && s.ms[1].tr.terminal.None? && s.ms[1].tr.phase == PhaseRunning
            && forall hasAssembler, asm :: "b" !in Outcome(c, hasAssembler, s, asm).drained
  {
    var c := Pair("a", "b");
    var launched, missed := Observation("b", StateLaunching, "i-1", ""), Observation("b", StateUnknown, "", "");
    StartReachable(c, true);
    s := Init(c);
    s := OnePass(c, true, s, 1, Acked(launched));
    s := OnePass(c, true, s, 1, Observed([missed]));
    s := FirstFails("a", "b", true, s);
    s := Quits(c, true, s, 1);
    run := RunTo(c, true, s);
    hide Reachable, Reaches;
    assert Trackers(s) == [s.ms[0].tr, s.ms[1].tr];
    SurvivorsExact(Trackers(s));
  }
}

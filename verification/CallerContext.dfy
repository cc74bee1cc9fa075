// What becomes of the members when the caller's own context ends, by a cancel or
// by a deadline.

module CallerContext {
  import opened Options
  import opened CohortTypes
  import opened RungLadder
  import opened MemberSteps
  import opened CohortMachine
  import opened CohortSettle
  import opened CohortTheorems
  import opened CohortPromptness

  // The error a member's phase context reads once its scope is dead.
  function OwnErr(m: Member, err: CtxErr): CtxErr {
    if m.expired then DeadlineExceeded else err
  }

  // The call in flight is answered, and unless that ends the member it reads its
  // dead context next.
  function AfterAnswer(m: Member, a: MemberSteps.Answer, err: CtxErr): Tracker
    requires Fits(m.tr.phase, a)
  {
    var m' := OnAnswer(m, a);
    if m'.pc == Returned then m'.tr else OnCheck(m', OwnErr(m', err)).tr
  }

  // How a member can come out of the loops from here: at a loop head it reads the
  // context; past it, it makes its one call and takes any answer; else it is done.
  ghost predicate EndsAs(m: Member, hasEnroller: bool, err: CtxErr, t: Tracker) {
    match m.pc
    case AtCheck => t == OnCheck(m, OwnErr(m, err)).tr
    case AtCall =>
      var asked := OnCall(m, hasEnroller);
      if asked.pc == Returned then t == asked.tr
      else exists a :: Fits(m.tr.phase, a) && t == AfterAnswer(asked, a, err)
    case InCall => exists a :: Fits(m.tr.phase, a) && t == AfterAnswer(m, a, err)
    case _ => t == m.tr
  }

  lemma EndsBack(c: Cohort, e: bool, s: State, st: Step, i: nat, err: CtxErr, t: Tracker)
    requires s.scope == err != Live && Enabled(s, st) && i < |s.ms|
    ensures var s' := Next(c, e, s, st);
            && s'.scope == err && |s'.ms| == |s.ms|
            && (EndsAs(s'.ms[i], e, err, t) ==> EndsAs(s.ms[i], e, err, t))
  {
    hide OnAnswer, OnCheck, Satisfiable;
    if !st.ParentDone? && st.i == i && (st.Check? || st.Answer?) {
      LeavesLoop(s.ms[i], err, st);
    }
  }

  lemma LeavesLoop(m: Member, err: CtxErr, st: Step)
    requires err != Live
    ensures OnCheck(m, OwnErr(m, err)).pc == Returned
  {
  }

  lemma {:induction false} ExecEnds(c: Cohort, e: bool, s: State, run: seq<Step>, i: nat, err: CtxErr)
    requires s.scope == err != Live && Valid(c, e, s, run) && i < |s.ms| == |Exec(c, e, s, run).ms|
    requires Exec(c, e, s, run).ms[i].pc == Finished
    ensures EndsAs(s.ms[i], e, err, Exec(c, e, s, run).ms[i].tr)
    decreases |run|
  {
    if run != [] {
      EndsBack(c, e, s, run[0], i, err, Exec(c, e, s, run).ms[i].tr);
      hide Next, EndsAs, Enabled;
      ExecEnds(c, e, Next(c, e, s, run[0]), run[1..], i, err);
    }
  }

  // A continuation that ends all goroutines.
  ghost predicate Completed(c: Cohort, e: bool, s: State, rest: seq<Step>) {
    Valid(c, e, s, rest) && AllFinished(Exec(c, e, s, rest))
  }

  // Each of these ends does come about: once nothing is left to be answered, any
  // completion gives the one there is.
  lemma SettledEndHappens(c: Cohort, e: bool, s: State, i: nat, err: CtxErr) returns (rest: seq<Step>)
    requires Inv(c, s) && s.scope == err != Live && i < |s.ms| && s.ms[i].pc != AtCall && s.ms[i].pc != InCall
    ensures Completed(c, e, s, rest) && |Exec(c, e, s, rest).ms| == |s.ms|
    ensures EndsAs(s.ms[i], e, err, Exec(c, e, s, rest).ms[i].tr)
  {
    rest := Completes(c, e, s);
    ExecInv(c, e, s, rest);
    hide EndsAs;
    ExecEnds(c, e, s, rest, i, err);
  }

  lemma AnsweredEndHappens(c: Cohort, e: bool, s: State, i: nat, a: MemberSteps.Answer, err: CtxErr) returns (rest: seq<Step>)
    requires Inv(c, s) && s.scope == err != Live && i < |s.ms| && s.ms[i].pc == InCall && Fits(s.ms[i].tr.phase, a)
    ensures Completed(c, e, s, rest) && |Exec(c, e, s, rest).ms| == |s.ms|
    ensures Exec(c, e, s, rest).ms[i].tr == AfterAnswer(s.ms[i], a, err)
  {
    var st := Step.Answer(i, a);
    assert Enabled(s, st);
    StepInv(c, e, s, st);
    var s' := Next(c, e, s, st);
    assert s'.ms[i] == OnAnswer(s.ms[i], a) && |s'.ms| == |s.ms| && s'.scope == err;
    hide Inv, OnAnswer, OnCheck, Enabled, Next;
    var more := SettledEndHappens(c, e, s', i, err);
    rest := StepFirst(c, e, s, st, more);
    hide Completed;
  }

  lemma StepFirst(c: Cohort, e: bool, s: State, st: Step, more: seq<Step>) returns (rest: seq<Step>)
    requires Enabled(s, st) && Completed(c, e, Next(c, e, s, st), more)
    ensures Completed(c, e, s, rest) && Exec(c, e, s, rest) == Exec(c, e, Next(c, e, s, st), more)
  {
    rest := [st] + more;
    assert rest[0] == st && rest[1..] == more;
  }

  lemma EndHappens(c: Cohort, e: bool, s: State, i: nat, err: CtxErr, t: Tracker) returns (rest: seq<Step>)
    requires Inv(c, s) && s.scope == err != Live && i < |s.ms| && EndsAs(s.ms[i], e, err, t)
    ensures Completed(c, e, s, rest) && |Exec(c, e, s, rest).ms| == |s.ms|
    ensures Exec(c, e, s, rest).ms[i].tr == t
  {
    var m := s.ms[i];
    hide Inv, OnAnswer, OnCheck, AfterAnswer, Completed;
    if m.pc == AtCall {
      var st := Call(i);
      assert Enabled(s, st);
      StepInv(c, e, s, st);
      var s' := Next(c, e, s, st);
      assert s'.ms[i] == OnCall(m, e) && |s'.ms| == |s.ms| && s'.scope == err;
      hide Enabled, Next;
      var more;
      if s'.ms[i].pc == Returned {
        more := SettledEndHappens(c, e, s', i, err);
      } else {
        var a :| Fits(m.tr.phase, a) && t == AfterAnswer(s'.ms[i], a, err);
        more := AnsweredEndHappens(c, e, s', i, a, err);
      }
      rest := StepFirst(c, e, s, st, more);
    } else if m.pc == InCall {
      var a :| Fits(m.tr.phase, a) && t == AfterAnswer(m, a, err);
      rest := AnsweredEndHappens(c, e, s, i, a, err);
    } else {
      rest := SettledEndHappens(c, e, s, i, err);
    }
  }

  function Struck(c: Cohort, e: bool, s: State, err: CtxErr): State
    requires Enabled(s, ParentDone(err))
  {
    Next(c, e, s, ParentDone(err))
  }

  // A run of which this is the tracker member i ends with.
  ghost predicate Leads(c: Cohort, e: bool, s: State, rest: seq<Step>, i: nat, t: Tracker) {
    Completed(c, e, s, rest) && i < |Exec(c, e, s, rest).ms| && Exec(c, e, s, rest).ms[i].tr == t
  }

  // The caller's context ends in any reachable state with a live scope. Wherever a
  // member is then, it can come out exactly as EndsAs says.
  lemma CallerEndsIff(c: Cohort, e: bool, before: seq<Step>, s: State, err: CtxErr, i: nat, t: Tracker)
    requires Reaches(c, e, before, s) && s.scope == Live && Enabled(s, ParentDone(err)) && i < |s.ms|
    ensures (exists rest :: Leads(c, e, Struck(c, e, s, err), rest, i, t)) <==> EndsAs(s.ms[i], e, err, t)
  {
    ReachedInv(c, e, before, s);
    StepInv(c, e, s, ParentDone(err));
    var struck := Struck(c, e, s, err);
    assert struck.scope == err != Live && struck.ms == s.ms;
    hide Inv, Reaches, EndsAs, Next, Enabled;
    if EndsAs(s.ms[i], e, err, t) {
      var rest := EndHappens(c, e, struck, i, err, t);
      assert Leads(c, e, struck, rest, i, t);
    }
    if rest :| Leads(c, e, struck, rest, i, t) {
      SameMembers(c, e, struck, rest);
      ExecEnds(c, e, struck, rest, i, err);
    }
  }

  lemma SameMembers(c: Cohort, e: bool, s: State, run: seq<Step>)
    requires Inv(c, s) && Valid(c, e, s, run)
    ensures |Exec(c, e, s, run).ms| == |s.ms|
  {
    ExecInv(c, e, s, run);
  }

  // What that makes of the member's outcome. Whoever does not come out failed is
  // labelled parent-cancelled with the caller's error. At a loop head, its own
  // context live, that is so exactly when the caller cancelled, a caller's deadline
  // being taken for the phase's own; with its call in flight, a deadline spares only
  // a member that is confirmed in phase 3; and one out of the loops it leaves as is.
  lemma ParentCauseDecides(c: Cohort, e: bool, hasAssembler: bool, before: seq<Step>, s: State, err: CtxErr, rest: seq<Step>,
                           asm: seq<Observation> -> Option<string>, i: nat)
    requires Reaches(c, e, before, s) && s.scope == Live && Enabled(s, ParentDone(err)) && i < |s.ms|
    requires Completed(c, e, Struck(c, e, s, err), rest)
    ensures var end := Exec(c, e, Struck(c, e, s, err), rest);
            var done := Outcome(c, hasAssembler, end, asm).trackers;
            && i < |end.ms| && i < |done|
            && done[i] == Marked(end.ms[i].tr, ParentGone(err)) && EndsAs(s.ms[i], e, err, end.ms[i].tr)
            && (done[i].parentCancelled.Some? <==> end.ms[i].tr.terminal.None?)
            && (done[i].parentCancelled.Some? ==> done[i].parentCancelled.value.cause == err)
            && (s.ms[i].pc == AtCheck && !s.ms[i].expired ==>
                  && (done[i].parentCancelled.Some? <==> err == Canceled)
                  && done[i] == if err == Canceled then
                                  s.ms[i].tr.(parentCancelled := Some(ParentCancelInfo(s.ms[i].tr.phase, Canceled)),
                                              enrolled := s.ms[i].tr.phase == PhaseEnrolled)
                                else Fail(s.ms[i].tr, s.ms[i].tr.phase, DeadlineFault(s.ms[i].tr.phase)))
            && (InLoop(s.ms[i].pc) && err == DeadlineExceeded && done[i].parentCancelled.Some? ==>
                  s.ms[i].pc != AtCheck && s.ms[i].tr.phase == PhaseEnrolled)
            && (!InLoop(s.ms[i].pc) ==> end.ms[i].tr == s.ms[i].tr)
  {
    ReachedInv(c, e, before, s);
    StepInv(c, e, s, ParentDone(err));
    var m, struck := s.ms[i], Struck(c, e, s, err);
    assert struck.scope == err != Live && struck.parent == err && struck.ms == s.ms;
    assert Disciplined(m, c.members[i]) && Coherent(m);
    hide Reaches, Disciplined, Next, Enabled;
    SameMembers(c, e, struck, rest);
    ExecEnds(c, e, struck, rest, i, err);
    ParentStays(c, e, struck, rest);
    var end := Exec(c, e, struck, rest);
    ExecInv(c, e, struck, rest);
    UnlabelledEnd(c, end, i);
    hide Inv, Exec, Valid;
    StruckOutcome(c, hasAssembler, Trackers(end), end.culprit, err, asm, i);
    EndsFailed(m, e, err, end.ms[i].tr);
    hide EndsAs, Settle;
  }

  lemma UnlabelledEnd(c: Cohort, s: State, i: nat)
    requires Inv(c, s) && i < |s.ms|
    ensures s.ms[i].tr.Unlabelled()
  {
    assert Disciplined(s.ms[i], c.members[i]) && Coherent(s.ms[i]);
  }

  lemma {:induction false} ParentStays(c: Cohort, e: bool, s: State, run: seq<Step>)
    requires s.parent != Live && Valid(c, e, s, run)
    ensures Exec(c, e, s, run).parent == s.parent
    decreases |run|
  {
    if run != [] {
      assert Next(c, e, s, run[0]).parent == s.parent;
      hide Next, Enabled;
      ParentStays(c, e, Next(c, e, s, run[0]), run[1..]);
    }
  }

  // Which of the ends are failures.
  lemma EndsFailed(m: Member, e: bool, err: CtxErr, t: Tracker)
    requires Coherent(m) && EndsAs(m, e, err, t) && err != Live
    ensures m.pc == AtCheck && !m.expired ==>
              t == if err == Canceled then m.tr.(enrolled := m.tr.phase == PhaseEnrolled)
                   else Fail(m.tr, m.tr.phase, DeadlineFault(m.tr.phase))
    ensures InLoop(m.pc) && err == DeadlineExceeded && t.terminal.None? ==> m.pc != AtCheck && m.tr.phase == PhaseEnrolled
    ensures !InLoop(m.pc) ==> t == m.tr
  {
    hide NextRung;
  }

  lemma StruckOutcome(c: Cohort, hasAssembler: bool, trs: seq<Tracker>, culprit: CulpritInfo, err: CtxErr,
                      asm: seq<Observation> -> Option<string>, i: nat)
    requires i < |trs| && err != Live
    ensures var done := Settle(c, hasAssembler, trs, culprit, err, asm).trackers;
            |done| == |trs| && done[i] == Marked(trs[i], ParentGone(err))
  {
  }

  // Member i's outcome is what the caller's context did to it in phase 1.
  predicate ByCaller(c: Cohort, hasAssembler: bool, s: State, asm: seq<Observation> -> Option<string>, i: nat) {
    var done := Outcome(c, hasAssembler, s, asm).trackers;
    && i < |done|
    && (done[i].parentCancelled.Some? <==> s.parent == Canceled)
    && done[i].terminal == (if s.parent == Canceled then None else Some(DeadlineFault(PhaseLaunchAcked)))
  }

  lemma StruckAtOnce(c: Cohort, e: bool, err: CtxErr, rest: seq<Step>, hasAssembler: bool,
                     asm: seq<Observation> -> Option<string>, i: nat)
    requires err != Live && Completed(c, e, Struck(c, e, Init(c), err), rest) && i < |c.members|
    requires Exec(c, e, Struck(c, e, Init(c), err), rest).parent == err
    ensures ByCaller(c, hasAssembler, Exec(c, e, Struck(c, e, Init(c), err), rest), asm, i)
  {
    var start := Init(c);
    assert Reaches(c, e, [], start);
    assert start.ms[i] == NewMember(c.members[i]);
    hide Valid, Exec, Reaches, Settle, EndsAs, Completed;
    ParentCauseDecides(c, e, hasAssembler, [], start, err, rest, asm, i);
  }

  // Both happen to every member of every cohort: a run whose first step ends the
  // caller's context and which then goes on to its end.
  lemma ParentCauseRun(c: Cohort, e: bool, err: CtxErr) returns (run: seq<Step>, s: State)
    requires err != Live
    ensures Waited(c, e, run, s) && s.parent == err
    ensures forall hasAssembler, asm, i: nat :: i < |c.members| ==> ByCaller(c, hasAssembler, s, asm, i)
  {
    var start := Init(c);
    assert Enabled(start, ParentDone(err));
    var struck := Struck(c, e, start, err);
    InitInv(c);
    StepInv(c, e, start, ParentDone(err));
    assert struck.scope == err && struck.parent == err;
    hide Inv, Init;
    var rest := Completes(c, e, struck);
    run := [ParentDone(err)] + rest;
    assert run[0] == ParentDone(err) && run[1..] == rest;
    s := Exec(c, e, struck, rest);
    hide Next, Enabled, ByCaller;
    forall hasAssembler, asm, i: nat | i < |c.members| ensures ByCaller(c, hasAssembler, s, asm, i) {
      StruckAtOnce(c, e, err, rest, hasAssembler, asm, i);
    }
  }
}

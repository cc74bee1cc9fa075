// The concurrent part of Reconcile: one goroutine per member, a mutex-guarded
// failure count, a recorded culprit and a fast-fail cancel. Every interleaving
// of the steps below is a run; ports, deadlines and the parent context are
// adversaries.

module CohortMachine {
  import opened Options
  import opened CohortTypes
  import opened MemberSteps

  // `mu` is the member holding the bookkeeping mutex; `scope` is the error of
  // fastFailCtx, which every phase context inherits; `parent` that of the caller's
  // context. `order` lists the members counted as failed, in order, `named` the
  // member whose naming set the culprit first, and `fired` says that the fast-fail
  // cancel was called; no step reads those three.
  datatype State = State(
    ms: seq<Member>,
    mu: Option<nat>,
    failed: nat,
    culprit: CulpritInfo,
    scope: CtxErr,
    parent: CtxErr,
    order: seq<nat>,
    named: Option<nat>,
    fired: bool)

  function Init(c: Cohort): State {
    State(seq(|c.members|, i requires 0 <= i < |c.members| => NewMember(c.members[i])),
          None, 0, NO_CULPRIT, Live, Live, [], None, false)
  }

  datatype Step =
    | Check(i: nat)                // a goroutine reads its phase context
    | Call(i: nat)                 // ... starts its next port call
    | Answer(i: nat, a: MemberSteps.Answer) // ... gets the port's answer
    | Expire(i: nat)               // a member's own phase deadline fires
    | Exit(i: nat)                 // a non-terminal goroutine ends
    | Count(i: nat)                // a terminal one takes the mutex and is counted
    | Name(i: nat)                 // ... records itself as the culprit
    | Fire(i: nat)                 // ... cancels the fast-fail context
    | Unlock(i: nat)               // ... releases the mutex and ends
    | ParentDone(err: CtxErr)      // the caller's context is cancelled or times out

  // ctx.Err() of member i's phase context: its own deadline if that came first,
  // else what it inherits.
  function Err(s: State, i: nat): CtxErr
    requires i < |s.ms|
  {
    if s.ms[i].expired then DeadlineExceeded else s.scope
  }

  predicate Holds(s: State, i: nat, pc: Pc) {
    i < |s.ms| && s.ms[i].pc == pc
  }

  predicate Enabled(s: State, st: Step) {
    match st
    case Check(i) => Holds(s, i, AtCheck)
    case Call(i) => Holds(s, i, AtCall)
    case Answer(i, a) => Holds(s, i, InCall) && Fits(s.ms[i].tr.phase, a)
    case Expire(i) => i < |s.ms| && InLoop(s.ms[i].pc) && Err(s, i) == Live
    case Exit(i) => Holds(s, i, Returned) && s.ms[i].tr.terminal.None?
    case Count(i) => Holds(s, i, Returned) && s.ms[i].tr.terminal.Some? && s.mu.None?
    case Name(i) => Holds(s, i, Naming) && s.ms[i].tr.terminal.Some?
    case Fire(i) => Holds(s, i, Firing)
    case Unlock(i) => Holds(s, i, Unlocking)
    case ParentDone(err) => s.parent == Live && err != Live
  }

  // The gate can still be met after this many failures.
  predicate Satisfiable(c: Cohort, failed: nat) {
    |c.members| - failed >= c.Need()
  }

  function With(s: State, i: nat, m: Member): State
    requires i < |s.ms|
  {
    s.(ms := s.ms[i := m])
  }

  function Next(c: Cohort, hasEnroller: bool, s: State, st: Step): State
    requires Enabled(s, st)
  {
    match st
    case Check(i) => With(s, i, OnCheck(s.ms[i], Err(s, i)))
    case Call(i) => With(s, i, OnCall(s.ms[i], hasEnroller))
    case Answer(i, a) => With(s, i, OnAnswer(s.ms[i], a))
    case Expire(i) => With(s, i, s.ms[i].(expired := true))
    case Exit(i) => With(s, i, s.ms[i].(pc := Finished))
    case Count(i) =>
      var blame := !Satisfiable(c, s.failed + 1) && s.culprit.id == "";
      With(s, i, s.ms[i].(pc := if blame then Naming else Unlocking))
        .(mu := Some(i), failed := s.failed + 1, order := s.order + [i])
    case Name(i) =>
      var tr := s.ms[i].tr;
      With(s, i, s.ms[i].(pc := Firing))
        .(culprit := CulpritInfo(tr.intent.id, tr.terminal.value, tr.phase),
          named := if s.named.None? then Some(i) else s.named)
    case Fire(i) =>
      With(s, i, s.ms[i].(pc := Unlocking)).(scope := if s.scope == Live then Canceled else s.scope, fired := true)
    case Unlock(i) => With(s, i, s.ms[i].(pc := Finished)).(mu := None)
    case ParentDone(err) => s.(parent := err, scope := if s.scope == Live then err else s.scope)
  }

  // Every step of `run` is possible when its turn comes.
  ghost predicate Valid(c: Cohort, hasEnroller: bool, s: State, run: seq<Step>)
    decreases |run|
  {
    run == [] || (Enabled(s, run[0]) && Valid(c, hasEnroller, Next(c, hasEnroller, s, run[0]), run[1..]))
  }

  ghost function Exec(c: Cohort, hasEnroller: bool, s: State, run: seq<Step>): State
    requires Valid(c, hasEnroller, s, run)
    decreases |run|
  {
    if run == [] then s else Exec(c, hasEnroller, Next(c, hasEnroller, s, run[0]), run[1..])
  }

  ghost predicate Reaches(c: Cohort, hasEnroller: bool, run: seq<Step>, s: State) {
    Valid(c, hasEnroller, Init(c), run) && Exec(c, hasEnroller, Init(c), run) == s
  }

  lemma {:induction false} ExecConcat(c: Cohort, e: bool, s: State, run: seq<Step>, more: seq<Step>)
    requires Valid(c, e, s, run) && Valid(c, e, Exec(c, e, s, run), more)
    ensures Valid(c, e, s, run + more)
    ensures Exec(c, e, s, run + more) == Exec(c, e, Exec(c, e, s, run), more)
    decreases |run|
  {
    if run == [] {
      assert run + more == more;
    } else {
      assert (run + more)[1..] == run[1..] + more && (run + more)[0] == run[0];
      hide Next, Enabled;
      ExecConcat(c, e, Next(c, e, s, run[0]), run[1..], more);
    }
  }

  // errgroup's Wait has returned: every goroutine is over.
  predicate AllFinished(s: State) {
    forall i :: 0 <= i < |s.ms| ==> s.ms[i].pc == Finished
  }

  // ---- counting ---------------------------------------------------------------

  // Has been counted in failedCount.
  predicate Counted(m: Member) {
    m.pc == Naming || m.pc == Firing || m.pc == Unlocking || (m.pc == Finished && m.tr.terminal.Some?)
  }

  function CountedIn(ms: seq<Member>): nat {
    if ms == [] then 0 else (if Counted(ms[0]) then 1 else 0) + CountedIn(ms[1..])
  }

  lemma {:induction false} CountedUpdate(ms: seq<Member>, i: nat, m: Member)
    requires i < |ms|
    ensures CountedIn(ms[i := m]) + (if Counted(ms[i]) then 1 else 0) == CountedIn(ms) + (if Counted(m) then 1 else 0)
  {
    if i == 0 {
      assert ms[i := m][1..] == ms[1..];
    } else {
      CountedUpdate(ms[1..], i - 1, m);
      assert ms[i := m][1..] == ms[1..][i - 1 := m];
    }
  }

  lemma {:induction false} NobodyCounted(ms: seq<Member>)
    requires forall i :: 0 <= i < |ms| ==> !Counted(ms[i])
    ensures CountedIn(ms) == 0
  {
    if ms != [] {
      NobodyCounted(ms[1..]);
    }
  }

  // ---- the invariant ------------------------------------------------------------

  ghost predicate MembersFine(c: Cohort, s: State) {
    |s.ms| == |c.members| && forall i :: 0 <= i < |s.ms| ==> Disciplined(s.ms[i], c.members[i])
  }

  predicate UnderMutex(pc: Pc) {
    pc == Naming || pc == Firing || pc == Unlocking
  }

  // Only a counted failure passes through the mutex, and one at a time.
  ghost predicate MutexFine(s: State) {
    && (forall i :: 0 <= i < |s.ms| ==> (UnderMutex(s.ms[i].pc) <==> s.mu == Some(i)))
    && (forall i :: 0 <= i < |s.ms| && UnderMutex(s.ms[i].pc) ==> s.ms[i].tr.terminal.Some?)
    && (s.mu.Some? ==> s.mu.value < |s.ms|)
  }

  ghost predicate CountFine(s: State) {
    s.failed == CountedIn(s.ms) && s.failed == |s.order|
  }

  // A dead scope has a cause, and nobody loses its enrolment check before that.
  ghost predicate ScopeFine(c: Cohort, s: State) {
    && (s.fired ==> !Satisfiable(c, s.failed) && s.failed > 0)
    && (forall i :: 0 <= i < |s.ms| && (s.ms[i].pc == Naming || s.ms[i].pc == Firing) ==>
          !Satisfiable(c, s.failed) && s.failed > 0)
    && (s.scope != Live ==> s.fired || s.parent != Live)
    && (s.scope == Live ==> s.parent == Live && !s.fired)
    && (s.scope == Live ==> forall i :: 0 <= i < |s.ms| && !InLoop(s.ms[i].pc) && s.ms[i].tr.terminal.None? ==> s.ms[i].verified)
  }

  ghost predicate Inv(c: Cohort, s: State) {
    MembersFine(c, s) && MutexFine(s) && CountFine(s) && ScopeFine(c, s)
  }

  lemma InitInv(c: Cohort)
    ensures Inv(c, Init(c))
  {
    var s := Init(c);
    forall i | 0 <= i < |s.ms| ensures Disciplined(s.ms[i], c.members[i]) {
      NewMemberDisciplined(c.members[i]);
    }
    NobodyCounted(s.ms);
  }

  // The move a Check, Call or Answer step makes its member take.
  function MoveOf(s: State, st: Step): Move
    requires Enabled(s, st) && (st.Check? || st.Call? || st.Answer?)
  {
    match st
    case Check(i) => ReadCtx(Err(s, i))
    case Call(_) => StartCall
    case Answer(_, a) => TakeAnswer(a)
  }

  lemma StepMoves(c: Cohort, e: bool, s: State, st: Step)
    requires MembersFine(c, s) && Enabled(s, st) && (st.Check? || st.Call? || st.Answer?)
    ensures var m' := Next(c, e, s, st).ms[st.i];
            && Next(c, e, s, st) == With(s, st.i, m')
            && InLoop(s.ms[st.i].pc) && (InLoop(m'.pc) || m'.pc == Returned)
            && (m'.pc == Returned && m'.tr.terminal.None? && (st.Check? ==> Err(s, st.i) != Canceled) ==> m'.verified)
  {
    MoveReturns(s.ms[st.i], MoveOf(s, st), e);
    hide AttemptShape, LaunchBudget, Climbable, Coherent;
  }

  // A step changes one member at most.
  lemma StepChangesOne(c: Cohort, e: bool, s: State, st: Step)
    requires MembersFine(c, s) && Enabled(s, st)
    ensures st.ParentDone? ==> Next(c, e, s, st).ms == s.ms
    ensures !st.ParentDone? ==>
              && st.i < |s.ms| && |Next(c, e, s, st).ms| == |s.ms|
              && Next(c, e, s, st).ms == s.ms[st.i := Next(c, e, s, st).ms[st.i]]
              && Disciplined(Next(c, e, s, st).ms[st.i], c.members[st.i])
  {
    hide Disciplined, OnCheck, OnCall, OnAnswer;
    if st.Check? || st.Call? || st.Answer? {
      MoveDisciplined(s.ms[st.i], MoveOf(s, st), e, c.members[st.i]);
    } else if !st.ParentDone? {
      var m' := Next(c, e, s, st).ms[st.i];
      BookkeepingDisciplined(s.ms[st.i], m'.pc, m'.expired, c.members[st.i]);
    }
  }

  lemma StepMembersFine(c: Cohort, e: bool, s: State, st: Step)
    requires MembersFine(c, s) && Enabled(s, st)
    ensures MembersFine(c, Next(c, e, s, st))
  {
    StepChangesOne(c, e, s, st);
    hide Disciplined, Next, Enabled;
  }

  // How a step moves the member it names through the mutex.
  lemma StepLocks(c: Cohort, e: bool, s: State, st: Step)
    requires MembersFine(c, s) && Enabled(s, st) && !st.ParentDone?
    ensures var s', m, m' := Next(c, e, s, st), s.ms[st.i], Next(c, e, s, st).ms[st.i];
            && s'.ms == s.ms[st.i := m']
            && (UnderMutex(m'.pc) ==> (st.Count? || UnderMutex(m.pc)) && m'.tr.terminal.Some? == m.tr.terminal.Some?)
            && (st.Count? ==> s.mu.None? && UnderMutex(m'.pc) && m.tr.terminal.Some?)
            && (UnderMutex(m.pc) ==> (if st.Unlock? then !UnderMutex(m'.pc) else UnderMutex(m'.pc)))
            && s'.mu == (if st.Count? then Some(st.i) else if st.Unlock? then None else s.mu)
            && (st.Unlock? ==> UnderMutex(m.pc))
  {
    if st.Check? || st.Call? || st.Answer? {
      StepMoves(c, e, s, st);
    }
    hide Disciplined, OnCheck, OnCall, OnAnswer, Fits, Err, Satisfiable;
  }

  // A member may take the mutex when it is free, keep it, or give it up.
  lemma MutexHandedOn(s: State, s': State, i: nat)
    requires MutexFine(s) && i < |s.ms| == |s'.ms| && s'.ms == s.ms[i := s'.ms[i]]
    requires UnderMutex(s'.ms[i].pc) ==> s'.ms[i].tr.terminal.Some? && (UnderMutex(s.ms[i].pc) || s.mu.None?)
    requires s'.mu == if UnderMutex(s'.ms[i].pc) then Some(i) else if UnderMutex(s.ms[i].pc) then None else s.mu
    ensures MutexFine(s')
  {
    hide UnderMutex;
  }

  lemma StepMutexFine(c: Cohort, e: bool, s: State, st: Step)
    requires MembersFine(c, s) && MutexFine(s) && Enabled(s, st)
    ensures MutexFine(Next(c, e, s, st))
  {
    if !st.ParentDone? {
      StepLocks(c, e, s, st);
      assert UnderMutex(s.ms[st.i].pc) ==> s.ms[st.i].tr.terminal.Some? && s.mu == Some(st.i);
      hide Next, MembersFine, UnderMutex, Enabled, MutexFine;
      MutexHandedOn(s, Next(c, e, s, st), st.i);
    }
  }

  lemma StepCountFine(c: Cohort, e: bool, s: State, st: Step)
    requires MembersFine(c, s) && MutexFine(s) && CountFine(s) && Enabled(s, st)
    ensures CountFine(Next(c, e, s, st))
  {
    if st.Check? || st.Call? || st.Answer? {
      StepMoves(c, e, s, st);
    }
    hide Disciplined, OnCheck, OnCall, OnAnswer;
    if !st.ParentDone? {
      CountedUpdate(s.ms, st.i, Next(c, e, s, st).ms[st.i]);
    }
  }

  // A move of a goroutine leaves the shared state alone.
  lemma MoveScopeFine(c: Cohort, s: State, i: nat, m': Member)
    requires Inv(c, s) && i < |s.ms| && InLoop(s.ms[i].pc) && (InLoop(m'.pc) || m'.pc == Returned)
    requires m'.pc == Returned && m'.tr.terminal.None? && s.scope != Canceled ==> m'.verified
    ensures ScopeFine(c, With(s, i, m'))
  {
    hide Disciplined, CountedIn, UnderMutex, Satisfiable;
  }

  lemma StepScopeFine(c: Cohort, e: bool, s: State, st: Step)
    requires Inv(c, s) && Enabled(s, st)
    ensures ScopeFine(c, Next(c, e, s, st))
  {
    if st.Check? || st.Call? || st.Answer? {
      StepMoves(c, e, s, st);
      hide Next, Inv, ScopeFine;
      MoveScopeFine(c, s, st.i, Next(c, e, s, st).ms[st.i]);
    } else {
      BookkeepingScopeFine(c, e, s, st);
    }
  }

  // Exit, the steps under the mutex, and the adversary's.
  lemma BookkeepingScopeFine(c: Cohort, e: bool, s: State, st: Step)
    requires Inv(c, s) && Enabled(s, st) && !st.Check? && !st.Call? && !st.Answer?
    ensures ScopeFine(c, Next(c, e, s, st))
  {
    hide Disciplined, MutexFine, CountFine, UnderMutex;
    match st
    case Count(i) =>
    case Name(i) =>
    case Fire(i) =>
    case Unlock(i) =>
    case _ =>
  }

  lemma StepInv(c: Cohort, e: bool, s: State, st: Step)
    requires Inv(c, s) && Enabled(s, st)
    ensures Inv(c, Next(c, e, s, st))
  {
    StepMembersFine(c, e, s, st);
    StepMutexFine(c, e, s, st);
    StepCountFine(c, e, s, st);
    StepScopeFine(c, e, s, st);
  }

  lemma {:induction false} ExecInv(c: Cohort, e: bool, s: State, run: seq<Step>)
    requires Inv(c, s) && Valid(c, e, s, run)
    ensures Inv(c, Exec(c, e, s, run))
    decreases |run|
  {
    if run != [] {
      StepInv(c, e, s, run[0]);
      ExecInv(c, e, Next(c, e, s, run[0]), run[1..]);
    }
  }
}

// One member of a cohort, as the steps its goroutine takes: read the phase
// context, start a port call, take the port's answer. Ports are adversaries:
// every answer the port types allow may come back.

module MemberSteps {
  import opened Options
  import opened CohortTypes
  import opened RungLadder

  const MAX_CONSISTENCY_RETRIES: nat := 5

  // AtCheck: about to read ctx.Err(). AtCall: read it live, call not started yet.
  // InCall: waiting for the port. Returned: reconcileEntity is over. The last
  // four are the bookkeeping that follows under the shared mutex.
  datatype Pc = AtCheck | AtCall | InCall | Returned | Naming | Firing | Unlocking | Finished

  predicate InLoop(pc: Pc) {
    pc == AtCheck || pc == AtCall || pc == InCall
  }

  datatype LaunchCall = LaunchCall(rung: Rung, throttled: bool)

  // What a port may answer; a fault is what the Classifier made of the port's error.
  datatype Answer =
    | Acked(obs: Observation)
    | Refused(fault: Fault)
    | Observed(seen: seq<Observation>)
    | ObserveFailed(fault: Fault)
    | Probed(enrolled: bool, operational: bool, detail: string)
    | ProbeFailed

  predicate Fits(phase: Phase, a: Answer) {
    match phase
    case PhaseLaunchAcked => a.Acked? || a.Refused?
    case PhaseRunning => a.Observed? || a.ObserveFailed?
    case PhaseEnrolled => a.Probed? || a.ProbeFailed?
    case _ => false
  }

  // `retries` is doLaunch's consistencyAttempt; `expired` says that the current
  // phase's own deadline has fired. The last three fields are bookkeeping that
  // no step reads: whether readiness was really confirmed, how many rungs were
  // used up, and every answered Launch or Start call.
  datatype Member = Member(
    tr: Tracker,
    pc: Pc,
    retries: nat,
    expired: bool,
    verified: bool,
    climbed: nat,
    launches: seq<LaunchCall>)

  function NewMember(intent: EntityIntent): Member {
    Member(NewTracker(intent), AtCheck, 0, false, false, 0, [])
  }

  function DeadlineFault(p: Phase): Fault {
    Fault(FaultTerminal, PhaseBudgetExceeded(p), false)
  }

  function InstanceFault(s: LifecycleState): Fault {
    Fault(FaultTerminal, InstanceFailed(s), false)
  }

  // addAttempt on the current rung, then setTerminal.
  function Fail(tr: Tracker, phase: Phase, f: Fault): Tracker {
    tr.(attempts := tr.attempts + [Attempt(tr.intent.rung, phase, Some(f))], phase := phase, terminal := Some(f))
  }

  // reconcileEntity returns. In phase 3 it flags every non-terminal member
  // enrolled, a cancelled one included.
  function Leave(m: Member): Member {
    m.(pc := Returned,
       tr := if m.tr.phase == PhaseEnrolled && m.tr.terminal.None? then m.tr.(enrolled := true) else m.tr)
  }

  function FailWith(m: Member, f: Fault): Member {
    m.(pc := Returned, tr := Fail(m.tr, m.tr.phase, f))
  }

  function OnCheck(m: Member, err: CtxErr): Member {
    match err
    case Live => m.(pc := AtCall)
    case Canceled => Leave(m)
    case DeadlineExceeded => FailWith(m, DeadlineFault(m.tr.phase))
  }

  // Without an Enroller phase 3 makes no call and counts as enrolled at once.
  function OnCall(m: Member, hasEnroller: bool): Member {
    if m.tr.phase == PhaseEnrolled && !hasEnroller then Leave(m.(verified := true))
    else m.(pc := InCall)
  }

  function OnLaunchAnswer(m: Member, a: Answer): Member
    requires Fits(PhaseLaunchAcked, a)
  {
    var here := m.tr.intent.rung;
    match a
    case Acked(obs) =>
      m.(tr := m.tr.(obs := obs, phase := PhaseRunning,
                     attempts := m.tr.attempts + [Attempt(here, PhaseLaunchAcked, None)]),
         pc := AtCheck, expired := false, launches := m.launches + [LaunchCall(here, false)])
    case Refused(f) =>
      var asked := m.(launches := m.launches + [LaunchCall(here, f.class_ == FaultThrottle)]);
      match f.class_
      case FaultRetryableConsistency =>
        if m.retries + 1 > MAX_CONSISTENCY_RETRIES then FailWith(asked.(retries := m.retries + 1), f)
        else asked.(retries := m.retries + 1, pc := AtCheck)
      case FaultThrottle => asked.(pc := AtCheck)
      case FaultCapacityExhausted =>
        var next := NextRung(here, m.tr.intent.fallbackChain);
        if next.None? then FailWith(asked, f)
        else asked.(tr := m.tr.(intent := m.tr.intent.(rung := next.value),
                                attempts := m.tr.attempts + [Attempt(here, PhaseLaunchAcked, Some(f))]),
                    pc := AtCheck, retries := 0, climbed := m.climbed + 1)
      case FaultAmbiguous => FailWith(asked, f.(detail := AmbiguousReachedReconciler))
      case _ => FailWith(asked, f)
  }

  function OnObserveAnswer(m: Member, a: Answer): Member
    requires Fits(PhaseRunning, a)
  {
    match a
    case ObserveFailed(f) =>
      if f.class_ == FaultTerminal then FailWith(m, f) else m.(pc := AtCheck)
    case Observed(seen) =>
      if seen == [] then m.(pc := AtCheck)
      else
        var m' := m.(tr := m.tr.(obs := seen[0]));
        match seen[0].state
        case StateRunning => m'.(tr := m'.tr.(phase := PhaseEnrolled), pc := AtCheck, expired := false)
        case StateFailed => FailWith(m', InstanceFault(StateFailed))
        case StateDraining => FailWith(m', InstanceFault(StateDraining))
        case _ => m'.(pc := AtCheck)
  }

  function OnProbeAnswer(m: Member, a: Answer): Member
    requires Fits(PhaseEnrolled, a)
  {
    if a.Probed? && a.enrolled && a.operational then
      Leave(m.(verified := true, tr := m.tr.(obs := m.tr.obs.(address := a.detail))))
    else m.(pc := AtCheck)
  }

  function OnAnswer(m: Member, a: Answer): (m': Member)
    requires Fits(m.tr.phase, a)
    ensures m'.pc == Returned || (m'.pc == AtCheck && (m'.tr.phase == m.tr.phase || NextPhase(m.tr.phase, m'.tr.phase)))
  {
    match m.tr.phase
    case PhaseLaunchAcked => OnLaunchAnswer(m, a)
    case PhaseRunning => OnObserveAnswer(m, a)
    case PhaseEnrolled => OnProbeAnswer(m, a)
  }

  predicate NextPhase(p: Phase, q: Phase) {
    (p == PhaseLaunchAcked && q == PhaseRunning) || (p == PhaseRunning && q == PhaseEnrolled)
  }

  // ---- one loop iteration at a time -----------------------------------------

  datatype Move = ReadCtx(err: CtxErr) | StartCall | TakeAnswer(a: Answer)

  predicate CanMove(m: Member, mv: Move) {
    match mv
    case ReadCtx(_) => m.pc == AtCheck
    case StartCall => m.pc == AtCall
    case TakeAnswer(a) => m.pc == InCall && Fits(m.tr.phase, a)
  }

  function Moved(m: Member, mv: Move, hasEnroller: bool): Member
    requires CanMove(m, mv)
  {
    match mv
    case ReadCtx(err) => OnCheck(m, err)
    case StartCall => OnCall(m, hasEnroller)
    case TakeAnswer(a) => OnAnswer(m, a)
  }

  // What one pass around a phase loop meets: the context error at the loop head,
  // and the answer its call gets when the context is live.
  datatype Turn = Turn(err: CtxErr, answer: Answer)

  // A phase runs under a deadline, so it makes finitely many passes; `last` is
  // the context error that ends it when no pass decided.
  datatype PhaseScript = PhaseScript(turns: seq<Turn>, last: CtxErr)

  predicate Playable(phase: Phase, s: PhaseScript) {
    s.last != Live && forall i :: 0 <= i < |s.turns| ==> Fits(phase, s.turns[i].answer)
  }

  // A whole phase loop, until the member returns or moves to the next phase.
  function RunPhase(m: Member, s: PhaseScript, hasEnroller: bool): (r: Member)
    requires m.pc == AtCheck && Playable(m.tr.phase, s)
    ensures r.pc == Returned || (r.pc == AtCheck && NextPhase(m.tr.phase, r.tr.phase))
    decreases |s.turns|
  {
    var err := if s.turns == [] then s.last else s.turns[0].err;
    if err != Live then OnCheck(m, err)
    else
      var asked := OnCall(OnCheck(m, Live), hasEnroller);
      if asked.pc == Returned then asked
      else
        var m' := OnAnswer(asked, s.turns[0].answer);
        if m'.pc == Returned || m'.tr.phase != m.tr.phase then m'
        else RunPhase(m', s.(turns := s.turns[1..]), hasEnroller)
  }

  // reconcileEntity: the three phase loops in order.
  function RunEntity(m: Member, launch: PhaseScript, running: PhaseScript, enrolled: PhaseScript, hasEnroller: bool): Member
    requires m.pc == AtCheck && m.tr.phase == PhaseLaunchAcked
    requires Playable(PhaseLaunchAcked, launch) && Playable(PhaseRunning, running) && Playable(PhaseEnrolled, enrolled)
  {
    var m1 := RunPhase(m, launch, hasEnroller);
    if m1.pc == Returned then m1
    else
      var m2 := RunPhase(m1, running, hasEnroller);
      if m2.pc == Returned then m2 else RunPhase(m2, enrolled, hasEnroller)
  }

  // ---- what every step keeps ------------------------------------------------

  // The approved rungs in order: the fallback chain, or the single intended rung.
  function Ladder(intent: EntityIntent): seq<Rung> {
    if intent.fallbackChain == [] then [intent.rung] else intent.fallbackChain
  }

  // Every intent that resume builds starts on the first rung of its chain.
  ghost predicate Climbable(intent: EntityIntent) {
    NoDuplicates(Ladder(intent)) && intent.rung == Ladder(intent)[0]
  }

  ghost predicate SameEntity(m: Member, intent: EntityIntent) {
    m.tr.intent.id == intent.id && m.tr.intent.generation == intent.generation
    && m.tr.intent.fallbackChain == intent.fallbackChain
  }

  ghost predicate Coherent(m: Member) {
    && m.tr.Unlabelled()
    && m.tr.phase.Ord() <= 2
    && (InLoop(m.pc) ==> m.tr.terminal.None? && !m.tr.enrolled && !m.verified)
    && (m.tr.enrolled ==> m.tr.terminal.None? && m.tr.phase == PhaseEnrolled)
    && (m.verified ==> m.tr.enrolled)
    // Whoever left phase 3 without failing is flagged.
    && (!InLoop(m.pc) && m.tr.terminal.None? && m.tr.phase == PhaseEnrolled ==> m.tr.enrolled)
    // Enrolment is only ever flagged on a member last observed running.
    && (m.tr.phase == PhaseEnrolled ==> m.tr.obs.state == StateRunning)
    // A failure is the last attempt, in the phase it ended.
    && (m.tr.terminal.Some? ==> m.tr.attempts != [])
    && (m.tr.terminal.Some? ==>
          m.tr.attempts[|m.tr.attempts| - 1] == Attempt(m.tr.intent.rung, m.tr.phase, m.tr.terminal))
  }

  predicate IsCapacity(a: Attempt, rung: Rung) {
    a.rung == rung && a.phase == PhaseLaunchAcked && a.fault.Some? && a.fault.value.class_ == FaultCapacityExhausted
  }

  // Attempts read as: a capacity fault on each rung used up, in ladder order;
  // then nothing more, a launch acknowledged on the current rung, the fault that
  // ended the launch there, or an acknowledged launch and the later fault.
  ghost predicate AttemptShape(tr: Tracker, ladder: seq<Rung>, k: nat) {
    && k < |ladder| && tr.intent.rung == ladder[k] && |tr.attempts| >= k
    && (forall j :: 0 <= j < k ==> IsCapacity(tr.attempts[j], ladder[j]))
    && if tr.phase == PhaseLaunchAcked then
         if tr.terminal.None? then |tr.attempts| == k
         else |tr.attempts| == k + 1 && tr.attempts[k] == Attempt(ladder[k], PhaseLaunchAcked, tr.terminal)
       else
         && |tr.attempts| == k + (if tr.terminal.None? then 1 else 2)
         && tr.attempts[k] == Attempt(ladder[k], PhaseLaunchAcked, None)
         && (tr.terminal.Some? ==> tr.attempts[k + 1] == Attempt(ladder[k], tr.phase, tr.terminal))
  }

  function Unthrottled(calls: seq<LaunchCall>): nat {
    if calls == [] then 0
    else Unthrottled(calls[..|calls| - 1]) + if calls[|calls| - 1].throttled then 0 else 1
  }

  // The unthrottled calls that named this rung.
  function On(calls: seq<LaunchCall>, rung: Rung): nat {
    if calls == [] then 0
    else
      var last := calls[|calls| - 1];
      On(calls[..|calls| - 1], rung) + if !last.throttled && last.rung == rung then 1 else 0
  }

  // The rungs called, with immediate repetitions collapsed.
  function RungsCalled(calls: seq<LaunchCall>): seq<Rung> {
    if calls == [] then []
    else
      var before, last := calls[..|calls| - 1], calls[|calls| - 1].rung;
      if before != [] && before[|before| - 1].rung == last then RungsCalled(before) else RungsCalled(before) + [last]
  }

  // The calls went to the first n rungs of the ladder, in order and without
  // going back, and the last of them to rung n - 1.
  ghost predicate CalledInOrder(calls: seq<LaunchCall>, ladder: seq<Rung>, n: nat) {
    && n <= |ladder| && RungsCalled(calls) == ladder[..n]
    && (calls == [] <==> n == 0)
    && (calls != [] ==> calls[|calls| - 1].rung == ladder[n - 1])
  }

  // Six unthrottled calls at most on each rung, none beyond the current one, and
  // while launching as many on that as there were retries.
  ghost predicate LaunchBudget(m: Member, ladder: seq<Rung>) {
    && m.climbed < |ladder|
    && (CalledInOrder(m.launches, ladder, m.climbed) || CalledInOrder(m.launches, ladder, m.climbed + 1))
    && (InLoop(m.pc) && m.tr.phase == PhaseLaunchAcked ==>
          m.retries <= MAX_CONSISTENCY_RETRIES && On(m.launches, ladder[m.climbed]) == m.retries)
    && (forall j :: 0 <= j < |ladder| ==>
          On(m.launches, ladder[j]) <= if j <= m.climbed then MAX_CONSISTENCY_RETRIES + 1 else 0)
  }

  ghost predicate Disciplined(m: Member, intent: EntityIntent) {
    && SameEntity(m, intent) && Coherent(m)
    && (Climbable(intent) ==>
          AttemptShape(m.tr, Ladder(intent), m.climbed) && LaunchBudget(m, Ladder(intent)))
  }

  lemma NewMemberDisciplined(intent: EntityIntent)
    ensures Disciplined(NewMember(intent), intent)
  {
    assert CalledInOrder([], Ladder(intent), 0);
  }

  // Successful climbing takes exactly the next rung of the ladder.
  lemma NextOnLadder(intent: EntityIntent, k: nat)
    requires Climbable(intent) && k < |Ladder(intent)|
    ensures NextRung(Ladder(intent)[k], intent.fallbackChain)
         == if k + 1 < |Ladder(intent)| then Some(Ladder(intent)[k + 1]) else None
  {
    if intent.fallbackChain != [] {
      var chain := intent.fallbackChain;
      NextRungIsEarliest(chain[k], chain);
      assert chain[k] !in chain[..k];
    }
  }

  lemma LogCall(calls: seq<LaunchCall>, c: LaunchCall)
    ensures Unthrottled(calls + [c]) == Unthrottled(calls) + if c.throttled then 0 else 1
    ensures RungsCalled(calls + [c])
         == if calls != [] && calls[|calls| - 1].rung == c.rung then RungsCalled(calls) else RungsCalled(calls) + [c.rung]
  {
    assert (calls + [c])[..|calls|] == calls;
  }

  lemma CallInOrder(calls: seq<LaunchCall>, c: LaunchCall, ladder: seq<Rung>, k: nat)
    requires k < |ladder| && NoDuplicates(ladder) && c.rung == ladder[k]
    requires CalledInOrder(calls, ladder, k) || CalledInOrder(calls, ladder, k + 1)
    ensures CalledInOrder(calls + [c], ladder, k + 1)
  {
    LogCall(calls, c);
    assert ladder[..k] + [ladder[k]] == ladder[..k + 1];
  }

  // One more call on rung k, which has had this many.
  lemma CallCounted(calls: seq<LaunchCall>, c: LaunchCall, ladder: seq<Rung>, k: nat)
    requires k < |ladder| && NoDuplicates(ladder) && c.rung == ladder[k]
    ensures forall j :: 0 <= j < |ladder| ==>
              On(calls + [c], ladder[j]) == On(calls, ladder[j]) + if j == k && !c.throttled then 1 else 0
  {
    forall j | 0 <= j < |ladder|
      ensures On(calls + [c], ladder[j]) == On(calls, ladder[j]) + if j == k && !c.throttled then 1 else 0
    {
      LogOn(calls, c, ladder[j]);
    }
  }

  lemma BudgetKept(m: Member, a: Answer, intent: EntityIntent)
    requires Climbable(intent) && SameEntity(m, intent) && m.pc == InCall && m.tr.phase == PhaseLaunchAcked
    requires LaunchBudget(m, Ladder(intent)) && m.tr.intent.rung == Ladder(intent)[m.climbed]
    requires Fits(PhaseLaunchAcked, a)
    ensures LaunchBudget(OnLaunchAnswer(m, a), Ladder(intent))
  {
    hide RungsCalled, Unthrottled, On, NextRung, CalledInOrder;
    var m', ladder, k := OnLaunchAnswer(m, a), Ladder(intent), m.climbed;
    NextOnLadder(intent, k);
    var c := LaunchCall(ladder[k], a.Refused? && a.fault.class_ == FaultThrottle);
    CallInOrder(m.launches, c, ladder, k);
    CallCounted(m.launches, c, ladder, k);
    hide NoDuplicates;
    assert m'.launches == m.launches + [c];
  }

  lemma ShapeKept(m: Member, a: Answer, intent: EntityIntent)
    requires Climbable(intent) && SameEntity(m, intent) && m.pc == InCall && m.tr.phase == PhaseLaunchAcked
    requires Coherent(m) && AttemptShape(m.tr, Ladder(intent), m.climbed)
    requires Fits(PhaseLaunchAcked, a)
    ensures AttemptShape(OnLaunchAnswer(m, a).tr, Ladder(intent), OnLaunchAnswer(m, a).climbed)
  {
    hide NoDuplicates, NextRung;
    NextOnLadder(intent, m.climbed);
    if a.Refused? {
      match a.fault.class_
      case FaultCapacityExhausted =>
      case _ =>
    }
  }

  // Every move keeps a member's identity, its flags, the shape of its attempt
  // trace, and its launch budget; and it never takes the phase back.
  lemma MoveDisciplined(m: Member, mv: Move, hasEnroller: bool, intent: EntityIntent)
    requires Disciplined(m, intent) && CanMove(m, mv)
    ensures Disciplined(Moved(m, mv, hasEnroller), intent)
    ensures m.tr.phase.Ord() <= Moved(m, mv, hasEnroller).tr.phase.Ord()
  {
    MoveCoherent(m, mv, hasEnroller, intent);
    if Climbable(intent) {
      if mv.TakeAnswer? && m.tr.phase == PhaseLaunchAcked {
        BudgetKept(m, mv.a, intent);
        ShapeKept(m, mv.a, intent);
      } else {
        LaterShapeKept(m, mv, hasEnroller, Ladder(intent));
        LaterBudgetKept(m, mv, hasEnroller, Ladder(intent));
      }
    }
  }

  lemma MoveCoherent(m: Member, mv: Move, hasEnroller: bool, intent: EntityIntent)
    requires SameEntity(m, intent) && Coherent(m) && CanMove(m, mv)
    ensures var m' := Moved(m, mv, hasEnroller);
            SameEntity(m', intent) && Coherent(m') && m.tr.phase.Ord() <= m'.tr.phase.Ord()
  {
    if mv.TakeAnswer? && m.tr.phase == PhaseLaunchAcked {
      LaunchCoherent(m, mv.a, intent);
      hide OnLaunchAnswer, Coherent;
    }
    hide NextRung;
  }

  lemma LaunchCoherent(m: Member, a: Answer, intent: EntityIntent)
    requires SameEntity(m, intent) && Coherent(m) && m.pc == InCall && m.tr.phase == PhaseLaunchAcked
    requires Fits(PhaseLaunchAcked, a)
    ensures var m' := OnLaunchAnswer(m, a);
            SameEntity(m', intent) && Coherent(m') && m.tr.phase.Ord() <= m'.tr.phase.Ord()
  {
    hide NextRung;
  }

  // Bookkeeping after the loops, and a deadline firing, leave all that as it is.
  lemma BookkeepingDisciplined(m: Member, pc: Pc, expired: bool, intent: EntityIntent)
    requires Disciplined(m, intent) && (pc == m.pc || (!InLoop(m.pc) && !InLoop(pc)))
    ensures Disciplined(m.(pc := pc, expired := expired), intent)
  {
    hide NoDuplicates, CalledInOrder, On, IsCapacity;
  }

  // A member that returns non-terminal without having seen a cancel did get a
  // confirmed readiness, or had no Enroller to ask.
  lemma MoveReturns(m: Member, mv: Move, hasEnroller: bool)
    requires Coherent(m) && CanMove(m, mv)
    ensures var m' := Moved(m, mv, hasEnroller);
            && (InLoop(m'.pc) || m'.pc == Returned)
            && (m'.pc == Returned && m'.tr.terminal.None? && mv != ReadCtx(Canceled) ==> m'.verified)
  {
    hide NextRung;
  }

  lemma LaterShapeKept(m: Member, mv: Move, hasEnroller: bool, ladder: seq<Rung>)
    requires Coherent(m) && AttemptShape(m.tr, ladder, m.climbed) && CanMove(m, mv)
    requires mv.TakeAnswer? ==> m.tr.phase != PhaseLaunchAcked
    ensures var m' := Moved(m, mv, hasEnroller);
            AttemptShape(m'.tr, ladder, m'.climbed)
  {
    hide NextRung, OnLaunchAnswer;
  }

  lemma LaterBudgetKept(m: Member, mv: Move, hasEnroller: bool, ladder: seq<Rung>)
    requires LaunchBudget(m, ladder) && CanMove(m, mv)
    requires mv.TakeAnswer? ==> m.tr.phase != PhaseLaunchAcked
    ensures LaunchBudget(Moved(m, mv, hasEnroller), ladder)
  {
    hide CalledInOrder, On, RungsCalled, NextRung, OnLaunchAnswer, Fail;
  }

  // A run of the three loops under any port answers: rung discipline, the call
  // bound and the attempt trace, for a chain without repeats started at its head.
  lemma {:induction false} RunPhaseDisciplined(m: Member, s: PhaseScript, hasEnroller: bool, intent: EntityIntent)
    requires m.pc == AtCheck && Playable(m.tr.phase, s) && Disciplined(m, intent)
    ensures Disciplined(RunPhase(m, s, hasEnroller), intent)
    decreases |s.turns|
  {
    var err := if s.turns == [] then s.last else s.turns[0].err;
    MoveDisciplined(m, ReadCtx(err), hasEnroller, intent);
    if err == Live {
      var checked := OnCheck(m, Live);
      MoveDisciplined(checked, StartCall, hasEnroller, intent);
      var asked := OnCall(checked, hasEnroller);
      if asked.pc != Returned {
        MoveDisciplined(asked, TakeAnswer(s.turns[0].answer), hasEnroller, intent);
        var m' := OnAnswer(asked, s.turns[0].answer);
        if m'.pc != Returned && m'.tr.phase == m.tr.phase {
          RunPhaseDisciplined(m', s.(turns := s.turns[1..]), hasEnroller, intent);
        }
      }
    }
  }

  lemma RunEntityDisciplined(intent: EntityIntent, launch: PhaseScript, running: PhaseScript, enrolled: PhaseScript,
                             hasEnroller: bool)
    requires Playable(PhaseLaunchAcked, launch) && Playable(PhaseRunning, running) && Playable(PhaseEnrolled, enrolled)
    ensures Disciplined(RunEntity(NewMember(intent), launch, running, enrolled, hasEnroller), intent)
  {
    hide Playable;
    var m := NewMember(intent);
    NewMemberDisciplined(intent);
    hide Disciplined;
    RunPhaseDisciplined(m, launch, hasEnroller, intent);
    var m1 := RunPhase(m, launch, hasEnroller);
    if m1.pc != Returned {
      RunPhaseDisciplined(m1, running, hasEnroller, intent);
      var m2 := RunPhase(m1, running, hasEnroller);
      if m2.pc != Returned {
        RunPhaseDisciplined(m2, enrolled, hasEnroller, intent);
      }
    }
  }

  // ---- from the bound on each rung to the bound on all ------------------------

  lemma {:induction false} CalledIsListed(calls: seq<LaunchCall>)
    ensures forall i :: 0 <= i < |calls| ==> calls[i].rung in RungsCalled(calls)
    ensures calls != [] ==> RungsCalled(calls) != [] && RungsCalled(calls)[|RungsCalled(calls)| - 1] == calls[|calls| - 1].rung
  {
    if calls != [] {
      CalledIsListed(calls[..|calls| - 1]);
    }
  }

  function OnAll(calls: seq<LaunchCall>, rungs: seq<Rung>): nat {
    if rungs == [] then 0 else On(calls, rungs[0]) + OnAll(calls, rungs[1..])
  }

  lemma {:induction false} OnAllLogs(calls: seq<LaunchCall>, c: LaunchCall, rungs: seq<Rung>)
    requires NoDuplicates(rungs)
    ensures OnAll(calls + [c], rungs) == OnAll(calls, rungs) + if !c.throttled && c.rung in rungs then 1 else 0
  {
    if rungs != [] {
      var first, rest := rungs[0], rungs[1..];
      assert NoDuplicates(rest) && first !in rest;
      assert rungs == [first] + rest;
      hide NoDuplicates, On;
      OnAllLogs(calls, c, rest);
      LogOn(calls, c, first);
    }
  }

  lemma LogOn(calls: seq<LaunchCall>, c: LaunchCall, rung: Rung)
    ensures On(calls + [c], rung) == On(calls, rung) + if !c.throttled && c.rung == rung then 1 else 0
  {
    assert (calls + [c])[..|calls|] == calls;
  }

  // Calls on distinct rungs add up.
  lemma {:induction false} UnthrottledIsOnAll(calls: seq<LaunchCall>, rungs: seq<Rung>)
    requires NoDuplicates(rungs) && forall i :: 0 <= i < |calls| ==> calls[i].rung in rungs
    ensures Unthrottled(calls) == OnAll(calls, rungs)
  {
    if calls == [] {
      NothingOn(rungs);
    } else {
      var n := |calls| - 1;
      UnthrottledIsOnAll(calls[..n], rungs);
      OnAllLogs(calls[..n], calls[n], rungs);
      assert calls[..n] + [calls[n]] == calls;
    }
  }

  lemma {:induction false} NothingOn(rungs: seq<Rung>)
    ensures OnAll([], rungs) == 0
  {
    if rungs != [] {
      NothingOn(rungs[1..]);
    }
  }

  lemma {:induction false} OnAllAtMost(calls: seq<LaunchCall>, rungs: seq<Rung>, most: nat)
    requires forall j :: 0 <= j < |rungs| ==> On(calls, rungs[j]) <= most
    ensures OnAll(calls, rungs) <= most * |rungs|
  {
    if rungs != [] {
      OnAllAtMost(calls, rungs[1..], most);
      assert most * |rungs| == most + most * |rungs[1..]|;
    }
  }

  lemma CallsBounded(r: Member, intent: EntityIntent)
    requires Disciplined(r, intent) && Climbable(intent)
    ensures RungsCalled(r.launches) <= Ladder(intent) && AttemptShape(r.tr, Ladder(intent), r.climbed)
    ensures forall j :: 0 <= j < |Ladder(intent)| ==> On(r.launches, Ladder(intent)[j]) <= MAX_CONSISTENCY_RETRIES + 1
    ensures forall i :: 0 <= i < |r.launches| ==> r.launches[i].rung in Ladder(intent)
    ensures Unthrottled(r.launches) <= (MAX_CONSISTENCY_RETRIES + 1) * |Ladder(intent)|
  {
    hide RungsCalled, Unthrottled, On, NoDuplicates, AttemptShape, Coherent;
    var ladder := Ladder(intent);
    assert LaunchBudget(r, ladder) && RungsCalled(r.launches) <= ladder;
    CalledIsListed(r.launches);
    UnthrottledIsOnAll(r.launches, ladder);
    OnAllAtMost(r.launches, ladder, MAX_CONSISTENCY_RETRIES + 1);
  }

  // A member's whole run, whatever the ports answer: the rungs called are the
  // ladder's first entries in order, at most six unthrottled calls go to each and
  // so at most six times the ladder's length to all, and the attempts are the
  // trace AttemptShape describes.
  lemma EntityRunDiscipline(intent: EntityIntent, launch: PhaseScript, running: PhaseScript, enrolled: PhaseScript,
                            hasEnroller: bool)
    requires Playable(PhaseLaunchAcked, launch) && Playable(PhaseRunning, running) && Playable(PhaseEnrolled, enrolled)
    requires Climbable(intent)
    ensures var r := RunEntity(NewMember(intent), launch, running, enrolled, hasEnroller);
            && AttemptShape(r.tr, Ladder(intent), r.climbed)
            && RungsCalled(r.launches) <= Ladder(intent)
            && (forall j :: 0 <= j < |Ladder(intent)| ==> On(r.launches, Ladder(intent)[j]) <= MAX_CONSISTENCY_RETRIES + 1)
            && (forall i :: 0 <= i < |r.launches| ==> r.launches[i].rung in Ladder(intent))
            && Unthrottled(r.launches) <= (MAX_CONSISTENCY_RETRIES + 1) * |Ladder(intent)|
  {
    RunEntityDisciplined(intent, launch, running, enrolled, hasEnroller);
    CallsBounded(RunEntity(NewMember(intent), launch, running, enrolled, hasEnroller), intent);
  }

  // ---- the launch bound is attained -----------------------------------------

  const STALE := Refused(Fault(FaultRetryableConsistency, Provider("", ""), true))
  const FULL := Refused(Fault(FaultCapacityExhausted, Provider("", ""), true))

  // A member that has spent every call so far: six on each rung used up.
  ghost predicate Spent(m: Member, intent: EntityIntent) {
    && SameEntity(m, intent) && m.pc == AtCheck && m.tr.phase == PhaseLaunchAcked
    && m.climbed < |Ladder(intent)| && m.tr.intent.rung == Ladder(intent)[m.climbed]
    && m.retries <= MAX_CONSISTENCY_RETRIES
    && Unthrottled(m.launches) == (MAX_CONSISTENCY_RETRIES + 1) * m.climbed + m.retries
  }

  // What those two answers do to a member waiting for its launch.
  lemma StaleAnswered(m: Member)
    requires m.tr.phase == PhaseLaunchAcked
    ensures var m' := OnLaunchAnswer(m, STALE);
            && m'.launches == m.launches + [LaunchCall(m.tr.intent.rung, false)]
            && (m'.pc == Returned <==> m.retries >= MAX_CONSISTENCY_RETRIES)
            && (m'.pc != Returned ==> m'.pc == AtCheck && m'.tr == m.tr && m'.climbed == m.climbed && m'.retries == m.retries + 1)
  {
  }

  lemma FullAnswered(m: Member, next: Rung)
    requires m.tr.phase == PhaseLaunchAcked && NextRung(m.tr.intent.rung, m.tr.intent.fallbackChain) == Some(next)
    ensures var m' := OnLaunchAnswer(m, FULL);
            && m'.launches == m.launches + [LaunchCall(m.tr.intent.rung, false)]
            && m'.pc == AtCheck && m'.tr.intent == m.tr.intent.(rung := next) && m'.tr.phase == PhaseLaunchAcked
            && m'.climbed == m.climbed + 1 && m'.retries == 0
  {
  }

  // The answer that uses a call up without ending the run early.
  function Spending(m: Member, rungs: nat): Answer {
    if m.retries == MAX_CONSISTENCY_RETRIES && m.climbed + 1 < rungs then FULL else STALE
  }

  lemma SpendOne(m: Member, hasEnroller: bool, intent: EntityIntent)
    requires Climbable(intent) && Spent(m, intent)
    ensures var m' := OnAnswer(OnCall(OnCheck(m, Live), hasEnroller), Spending(m, |Ladder(intent)|));
            if m'.pc == Returned then Unthrottled(m'.launches) == (MAX_CONSISTENCY_RETRIES + 1) * |Ladder(intent)|
            else Spent(m', intent) && m'.climbed >= m.climbed && (m'.climbed == m.climbed ==> m'.retries == m.retries + 1)
  {
    var asked := m.(pc := InCall);
    assert OnCall(OnCheck(m, Live), hasEnroller) == asked;
    var a := Spending(m, |Ladder(intent)|);
    assert OnAnswer(asked, a) == OnLaunchAnswer(asked, a);
    hide OnAnswer, OnCall, OnCheck;
    if a == FULL {
      SpendFull(asked, intent);
    } else {
      SpendStale(asked, intent);
    }
  }

  lemma SpendStale(asked: Member, intent: EntityIntent)
    requires Spent(asked.(pc := AtCheck), intent)
    requires asked.retries == MAX_CONSISTENCY_RETRIES ==> asked.climbed + 1 == |Ladder(intent)|
    ensures var m' := OnLaunchAnswer(asked, STALE);
            if m'.pc == Returned then Unthrottled(m'.launches) == (MAX_CONSISTENCY_RETRIES + 1) * |Ladder(intent)|
            else Spent(m', intent) && m'.climbed == asked.climbed && m'.retries == asked.retries + 1
  {
    StaleAnswered(asked);
    LogCall(asked.launches, LaunchCall(asked.tr.intent.rung, false));
    hide OnLaunchAnswer, Unthrottled;
  }

  lemma SpendFull(asked: Member, intent: EntityIntent)
    requires Climbable(intent) && Spent(asked.(pc := AtCheck), intent)
    requires asked.retries == MAX_CONSISTENCY_RETRIES && asked.climbed + 1 < |Ladder(intent)|
    ensures Spent(OnLaunchAnswer(asked, FULL), intent) && OnLaunchAnswer(asked, FULL).climbed == asked.climbed + 1
  {
    NextOnLadder(intent, asked.climbed);
    FullAnswered(asked, Ladder(intent)[asked.climbed + 1]);
    LogCall(asked.launches, LaunchCall(asked.tr.intent.rung, false));
    hide OnLaunchAnswer, Unthrottled, NoDuplicates, NextRung;
  }

  lemma {:induction false} SpendAll(m: Member, hasEnroller: bool, intent: EntityIntent) returns (s: PhaseScript)
    requires Climbable(intent) && Spent(m, intent)
    ensures Playable(PhaseLaunchAcked, s)
    ensures Unthrottled(RunPhase(m, s, hasEnroller).launches) == (MAX_CONSISTENCY_RETRIES + 1) * |Ladder(intent)|
    decreases |Ladder(intent)| - m.climbed, MAX_CONSISTENCY_RETRIES - m.retries
  {
    SpendOne(m, hasEnroller, intent);
    var a := Spending(m, |Ladder(intent)|);
    var m' := OnAnswer(OnCall(OnCheck(m, Live), hasEnroller), a);
    hide Climbable, OnAnswer, Unthrottled;
    if m'.pc == Returned {
      s := PhaseScript([Turn(Live, a)], Canceled);
    } else {
      var rest := SpendAll(m', hasEnroller, intent);
      s := rest.(turns := [Turn(Live, a)] + rest.turns);
      assert s.turns[1..] == rest.turns;
    }
  }

  // For every chain there are port answers that make all six calls on each rung.
  lemma LaunchBoundAttained(intent: EntityIntent, hasEnroller: bool) returns (s: PhaseScript)
    requires Climbable(intent)
    ensures Playable(PhaseLaunchAcked, s)
    ensures Unthrottled(RunPhase(NewMember(intent), s, hasEnroller).launches)
         == (MAX_CONSISTENCY_RETRIES + 1) * |Ladder(intent)|
  {
    s := SpendAll(NewMember(intent), hasEnroller, intent);
  }

  // ---- launches are bounded for repeat-free chains only ------------------------

  // `count` capacity faults, one after the other.
  function Faults(count: nat): PhaseScript {
    PhaseScript(seq(count, _ => Turn(Live, FULL)), Canceled)
  }

  lemma AnotherRung(chain: seq<Rung>, n: nat)
    requires chain != [] && !WalkEnds(chain) && RungAfter(chain[0], chain, n).Some?
    ensures RungAfter(chain[0], chain, n + 1).Some?
    ensures RungAfter(chain[0], chain, n + 1) == NextRung(RungAfter(chain[0], chain, n).value, chain)
  {
  }

  // A launching member whose rung is n capacity faults down an endless walk.
  ghost predicate Endless(m: Member, n: nat) {
    && m.pc == AtCheck && m.tr.phase == PhaseLaunchAcked && m.tr.intent.fallbackChain != []
    && !WalkEnds(m.tr.intent.fallbackChain)
    && RungAfter(m.tr.intent.fallbackChain[0], m.tr.intent.fallbackChain, n) == Some(m.tr.intent.rung)
  }

  lemma {:induction false} FaultsGoOn(m: Member, hasEnroller: bool, n: nat, count: nat)
    requires Endless(m, n)
    ensures m.pc == AtCheck && m.tr.phase == PhaseLaunchAcked && Playable(PhaseLaunchAcked, Faults(count))
    ensures Unthrottled(RunPhase(m, Faults(count), hasEnroller).launches) == Unthrottled(m.launches) + count
    decreases count
  {
    if count == 0 {
      NoMorePasses(m, hasEnroller);
      hide *;
    } else {
      FaultClimbs(m, n);
      FaultPass(m, hasEnroller, count);
      hide *;
      FaultsGoOn(OnLaunchAnswer(m.(pc := InCall), FULL), hasEnroller, n + 1, count - 1);
    }
  }

  lemma NoMorePasses(m: Member, hasEnroller: bool)
    requires m.pc == AtCheck && m.tr.phase == PhaseLaunchAcked
    ensures Playable(PhaseLaunchAcked, Faults(0)) && RunPhase(m, Faults(0), hasEnroller).launches == m.launches
  {
  }

  // One of those passes: the fault climbs a rung further down the walk.
  lemma FaultClimbs(m: Member, n: nat)
    requires Endless(m, n)
    ensures m.pc == AtCheck && m.tr.phase == PhaseLaunchAcked
    ensures var m' := OnLaunchAnswer(m.(pc := InCall), FULL);
            && Endless(m', n + 1) && m'.pc == AtCheck && m'.tr.phase == PhaseLaunchAcked
            && Unthrottled(m'.launches) == Unthrottled(m.launches) + 1
  {
    var chain := m.tr.intent.fallbackChain;
    AnotherRung(chain, n);
    hide WalkEnds, RungAfter, NextRung;
    FullAnswered(m.(pc := InCall), RungAfter(chain[0], chain, n + 1).value);
    LogCall(m.launches, LaunchCall(m.tr.intent.rung, false));
    hide OnLaunchAnswer, Unthrottled;
  }

  lemma FaultPass(m: Member, hasEnroller: bool, count: nat)
    requires m.pc == AtCheck && m.tr.phase == PhaseLaunchAcked && count > 0
    requires var m' := OnLaunchAnswer(m.(pc := InCall), FULL);
             m'.pc == AtCheck && m'.tr.phase == PhaseLaunchAcked
    ensures Playable(PhaseLaunchAcked, Faults(count)) && Playable(PhaseLaunchAcked, Faults(count - 1))
    ensures RunPhase(m, Faults(count), hasEnroller)
         == RunPhase(OnLaunchAnswer(m.(pc := InCall), FULL), Faults(count - 1), hasEnroller)
  {
    hide OnLaunchAnswer, NextRung;
    assert Faults(count).(turns := Faults(count).turns[1..]) == Faults(count - 1);
  }

  ghost predicate LaunchesAtMost(intent: EntityIntent, hasEnroller: bool, most: nat) {
    forall s :: Playable(PhaseLaunchAcked, s) ==> Unthrottled(RunPhase(NewMember(intent), s, hasEnroller).launches) <= most
  }

  // Started at the head of its chain, a member's unthrottled launches have a
  // bound exactly when the chain repeats no rung; else, for every number, some
  // answers of the ports make more, and only the deadline stops them.
  lemma LaunchesBoundedIff(intent: EntityIntent, hasEnroller: bool)
    requires intent.rung == Ladder(intent)[0]
    ensures (exists most: nat :: LaunchesAtMost(intent, hasEnroller, most)) <==> NoDuplicates(Ladder(intent))
  {
    var m := NewMember(intent);
    if NoDuplicates(Ladder(intent)) {
      forall s | Playable(PhaseLaunchAcked, s)
        ensures Unthrottled(RunPhase(m, s, hasEnroller).launches) <= (MAX_CONSISTENCY_RETRIES + 1) * |Ladder(intent)|
      {
        NewMemberDisciplined(intent);
        RunPhaseDisciplined(m, s, hasEnroller, intent);
        CallsBounded(RunPhase(m, s, hasEnroller), intent);
      }
      assert LaunchesAtMost(intent, hasEnroller, (MAX_CONSISTENCY_RETRIES + 1) * |Ladder(intent)|);
    } else {
      var chain := intent.fallbackChain;
      assert chain != [] && Ladder(intent) == chain;
      WalkEndsIffNoDuplicates(chain);
      assert RungAfter(chain[0], chain, 0) == Some(intent.rung);
      assert Endless(m, 0);
      hide RunPhase, NoDuplicates, WalkEnds, Endless;
      forall most: nat ensures !LaunchesAtMost(intent, hasEnroller, most) {
        FaultsGoOn(m, hasEnroller, 0, most + 1);
      }
    }
  }
}

// The phase loops as the source writes them: one tracker object per entity,
// updated in place. Each loop is proved to take exactly the member steps.

module EntityLoops {
  import opened Options
  import opened CohortTypes
  import opened RungLadder
  import opened MemberSteps
  import opened PhaseOutcomes

  class EntityTracker {
    var intent: EntityIntent
    var phase: Phase
    var enrolled: bool
    var attempts: seq<Attempt>
    var terminal: Option<Fault>
    var cohortCancelled: Option<CohortCancelInfo>
    var parentCancelled: Option<ParentCancelInfo>
    var obs: Observation

    function State(): Tracker
      reads this
    {
      Tracker(intent, phase, enrolled, attempts, terminal, cohortCancelled, parentCancelled, obs)
    }

    constructor (intent: EntityIntent)
      ensures State() == NewTracker(intent)
    {
      this.intent := intent;
      phase := PhaseLaunchAcked;
      enrolled := false;
      attempts := [];
      terminal := None;
      cohortCancelled := None;
      parentCancelled := None;
      obs := NO_OBSERVATION;
    }

    method AddAttempt(phase: Phase, f: Option<Fault>)
      modifies this`attempts
      ensures attempts == old(attempts) + [Attempt(intent.rung, phase, f)]
    {
      attempts := attempts + [Attempt(intent.rung, phase, f)];
    }

    method SetTerminal(phase: Phase, f: Fault)
      modifies this`phase, this`terminal
      ensures this.phase == phase && terminal == Some(f)
    {
      this.phase := phase;
      terminal := Some(f);
    }

    method SetCohortCancelled(culprit: CulpritInfo)
      modifies this`cohortCancelled
      ensures cohortCancelled == Some(CohortCancelInfo(culprit, phase))
    {
      cohortCancelled := Some(CohortCancelInfo(culprit, phase));
    }

    method SetParentCancelled(cause: CtxErr)
      modifies this`parentCancelled
      ensures parentCancelled == Some(ParentCancelInfo(phase, cause))
    {
      parentCancelled := Some(ParentCancelInfo(phase, cause));
    }

    // The next rung of the approved chain, selected in place.
    method AdvanceRung(chain: seq<Rung>) returns (advanced: bool)
      modifies this`intent
      ensures var next := NextRung(old(intent.rung), chain);
              advanced == next.Some? && intent == if advanced then old(intent).(rung := next.value) else old(intent)
    {
      NextRungIsEarliest(intent.rung, chain);
      if |chain| == 0 {
        return false;
      }
      for i := 0 to |chain|
        invariant intent == old(intent)
        invariant forall j :: 0 <= j < i && j < |chain| - 1 ==> chain[j] != intent.rung
      {
        if chain[i] == intent.rung && i + 1 < |chain| {
          assert intent.rung !in chain[..i];
          intent := intent.(rung := chain[i + 1]);
          return true;
        }
      }
      return false;
    }

    method RecordDeadline(p: Phase)
      modifies this
      ensures State() == Fail(old(State()), p, DeadlineFault(p))
    {
      AddAttempt(p, Some(DeadlineFault(p)));
      SetTerminal(p, DeadlineFault(p));
    }
  }

  // The member a tracker is at the head of a phase loop.
  function AtLoopHead(tr: Tracker): Member {
    Member(tr, AtCheck, 0, false, false, 0, [])
  }

  // The loop did what the member steps do.
  ghost predicate LaunchAgrees(tr: Tracker, s: PhaseScript, acked: bool, after: Tracker, issued: seq<LaunchCall>)
    requires tr.phase == PhaseLaunchAcked && Playable(PhaseLaunchAcked, s)
  {
    var r := RunPhase(AtLoopHead(tr), s, true);
    && acked == (r.pc == AtCheck) && after.phase == PhaseLaunchAcked
    && (if acked then after.(phase := PhaseRunning) else after) == r.tr
    && issued == r.launches
  }

  lemma LaunchSettled(tr: Tracker, s: PhaseScript)
    requires tr.phase == PhaseLaunchAcked && Playable(PhaseLaunchAcked, s)
    ensures forall acked, after, issued {:trigger LaunchDone(tr, s, acked, after, issued)} ::
              LaunchAgrees(tr, s, acked, after, issued) ==> LaunchDone(tr, s, acked, after, issued)
  {
    var j := LaunchOutcome(AtLoopHead(tr), s, true);
    hide RunPhase, LaunchDone, LaunchLeaves, FirstEnd, CallsBy, RungAt;
  }

  ghost predicate RunningAgrees(tr: Tracker, s: PhaseScript, running: bool, after: Tracker)
    requires tr.phase == PhaseRunning && Playable(PhaseRunning, s)
  {
    var r := RunPhase(AtLoopHead(tr), s, true);
    && running == (r.pc == AtCheck) && after.phase == PhaseRunning
    && (if running then after.(phase := PhaseEnrolled) else after) == r.tr
  }

  lemma RunningSettled(tr: Tracker, s: PhaseScript)
    requires tr.phase == PhaseRunning && Playable(PhaseRunning, s)
    ensures forall running, after {:trigger RunningDone(tr, s, running, after)} ::
              RunningAgrees(tr, s, running, after) ==> RunningDone(tr, s, running, after)
  {
    var j := RunningOutcome(AtLoopHead(tr), s, true);
    hide RunPhase, RunningDone, FirstDecision;
  }

  // Launch or Start until acknowledged, refused for good, cancelled or out of
  // time. `issued` lists the calls, each on the rung it named. It is acknowledged
  // exactly when an acknowledgement under a live context comes before any pass that
  // ends the loop; the last clause says what the first such pass leaves.
  method DoLaunch(tr: EntityTracker, s: PhaseScript) returns (acked: bool, issued: seq<LaunchCall>)
    requires Playable(PhaseLaunchAcked, s)
    requires tr.phase == PhaseLaunchAcked
    modifies tr
    ensures LaunchAgrees(old(tr.State()), s, acked, tr.State(), issued)
    ensures LaunchDone(old(tr.State()), s, acked, tr.State(), issued)
  {
    LaunchSettled(tr.State(), s);
    hide RunPhase, LaunchDone, OnObserveAnswer, OnProbeAnswer, Leave, NextRung;
    ghost var start := AtLoopHead(tr.State());
    ghost var m := start;
    var consistencyAttempt := 0;
    var i := 0;
    issued := [];
    assert Rest(s, 0) == s;
    while true
      invariant i <= |s.turns| && tr.phase == PhaseLaunchAcked
      invariant m.pc == AtCheck && m.tr == tr.State() && m.retries == consistencyAttempt && m.launches == issued
      invariant Playable(PhaseLaunchAcked, Rest(s, i))
      invariant RunPhase(m, Rest(s, i), true) == RunPhase(start, s, true)
      decreases |s.turns| - i
    {
      OnePass(m, s, i, true);
      var ctxErr := if i < |s.turns| then s.turns[i].err else s.last;
      if ctxErr != Live {
        if ctxErr == Canceled {
          return false, issued;
        }
        tr.RecordDeadline(PhaseLaunchAcked);
        return false, issued;
      }
      var answer := s.turns[i].answer;
      m := OnAnswer(OnCall(OnCheck(m, Live), true), answer);
      i := i + 1;
      issued := issued + [LaunchCall(tr.intent.rung, answer.Refused? && answer.fault.class_ == FaultThrottle)];
      if answer.Acked? {
        tr.obs := answer.obs;
        tr.AddAttempt(PhaseLaunchAcked, None);
        return true, issued;
      }
      var f := answer.fault;
      match f.class_ {
        case FaultRetryableConsistency =>
          consistencyAttempt := consistencyAttempt + 1;
          if consistencyAttempt > MAX_CONSISTENCY_RETRIES {
            tr.AddAttempt(PhaseLaunchAcked, Some(f));
            tr.SetTerminal(PhaseLaunchAcked, f);
            return false, issued;
          }
        case FaultThrottle =>
        case FaultCapacityExhausted =>
          tr.AddAttempt(PhaseLaunchAcked, Some(f));
          var advanced := tr.AdvanceRung(tr.intent.fallbackChain);
          if !advanced {
            tr.SetTerminal(PhaseLaunchAcked, f);
            return false, issued;
          }
          consistencyAttempt := 0;
        case FaultAmbiguous =>
          f := f.(detail := AmbiguousReachedReconciler);
          tr.AddAttempt(PhaseLaunchAcked, Some(f));
          tr.SetTerminal(PhaseLaunchAcked, f);
          return false, issued;
        case _ =>
          tr.AddAttempt(PhaseLaunchAcked, Some(f));
          tr.SetTerminal(PhaseLaunchAcked, f);
          return false, issued;
      }
    }
  }

  // Poll the Observer. It succeeds exactly when the first deciding pass saw the
  // entity running under a live context.
  method WaitRunning(tr: EntityTracker, s: PhaseScript) returns (running: bool)
    requires Playable(PhaseRunning, s)
    requires tr.phase == PhaseRunning
    modifies tr
    ensures RunningAgrees(old(tr.State()), s, running, tr.State())
    ensures RunningDone(old(tr.State()), s, running, tr.State())
  {
    RunningSettled(tr.State(), s);
    hide RunningDone, RunPhase, NextRung, OnLaunchAnswer, OnProbeAnswer;
    ghost var start := AtLoopHead(tr.State());
    ghost var m := start;
    var i := 0;
    assert Rest(s, 0) == s;
    while true
      invariant i <= |s.turns| && tr.phase == PhaseRunning
      invariant m == AtLoopHead(tr.State())
      invariant Playable(PhaseRunning, Rest(s, i))
      invariant RunPhase(m, Rest(s, i), true) == RunPhase(start, s, true)
      decreases |s.turns| - i
    {
      OnePass(m, s, i, true);
      var ctxErr := if i < |s.turns| then s.turns[i].err else s.last;
      if ctxErr != Live {
        if ctxErr == Canceled {
          return false;
        }
        tr.RecordDeadline(PhaseRunning);
        return false;
      }
      var answer := s.turns[i].answer;
      m := OnAnswer(OnCall(OnCheck(m, Live), true), answer);
      i := i + 1;
      if answer.ObserveFailed? {
        if answer.fault.class_ == FaultTerminal {
          tr.AddAttempt(PhaseRunning, Some(answer.fault));
          tr.SetTerminal(PhaseRunning, answer.fault);
          return false;
        }
        continue;
      }
      if |answer.seen| > 0 {
        tr.obs := answer.seen[0];
        match answer.seen[0].state {
          case StateRunning =>
            return true;
          case StateFailed | StateDraining =>
            var f := InstanceFault(answer.seen[0].state);
            tr.AddAttempt(PhaseRunning, Some(f));
            tr.SetTerminal(PhaseRunning, f);
            return false;
          case _ =>
        }
      }
    }
  }

  // Some pass got a ready answer, every pass up to it under a live context.
  ghost predicate Confirmed(s: PhaseScript) {
    exists j :: 0 <= j < |s.turns| && Confirms(s.turns[j].answer) && (forall k :: 0 <= k <= j ==> s.turns[k].err == Live)
  }

  // Poll the Enroller until it confirms readiness. The caller flags the entity
  // enrolled whenever this leaves it non-terminal, so the flag does not say that
  // readiness was confirmed: only the last clause does.
  method WaitEnrolled(tr: EntityTracker, s: PhaseScript, hasEnroller: bool)
    requires Playable(PhaseEnrolled, s)
    requires tr.phase == PhaseEnrolled && tr.terminal.None?
    modifies tr
    ensures var r := RunPhase(AtLoopHead(old(tr.State())), s, hasEnroller);
            && r.pc == Returned
            && (if tr.terminal.None? then tr.State().(enrolled := true) else tr.State()) == r.tr
            && (hasEnroller ==> (r.verified <==> Confirmed(s)))
    ensures exists j :: FirstEnrolEnd(s, hasEnroller, j)
                        && EnrolLeaves(old(tr.State()), s, hasEnroller, j,
                                       if tr.terminal.None? then tr.State().(enrolled := true) else tr.State())
  {
    ghost var end := EnrolOutcome(AtLoopHead(tr.State()), s, hasEnroller);
    hide RunPhase, FirstEnrolEnd, EnrolLeaves;
    ghost var start := AtLoopHead(tr.State());
    ghost var m := start;
    var i := 0;
    assert Rest(s, 0) == s;
    while true
      invariant i <= |s.turns| && tr.phase == PhaseEnrolled && tr.terminal.None?
      invariant m == AtLoopHead(tr.State())
      invariant Playable(PhaseEnrolled, Rest(s, i))
      invariant RunPhase(m, Rest(s, i), hasEnroller) == RunPhase(start, s, hasEnroller)
      invariant hasEnroller ==> forall k :: 0 <= k < i ==> s.turns[k].err == Live && !Confirms(s.turns[k].answer)
      decreases |s.turns| - i
    {
      OnePass(m, s, i, hasEnroller);
      var ctxErr := if i < |s.turns| then s.turns[i].err else s.last;
      if ctxErr != Live {
        if ctxErr == Canceled {
          return;
        }
        tr.RecordDeadline(PhaseEnrolled);
        return;
      }
      if hasEnroller {
        var answer := s.turns[i].answer;
        if Confirms(answer) {
          tr.obs := tr.obs.(address := answer.detail);
          return;
        }
      } else {
        return;
      }
      i := i + 1;
    }
  }

  lemma LaunchAnswersAgree(m: Member, n: Member, a: Answer)
    requires Fits(PhaseLaunchAcked, a) && m.tr == n.tr && m.tr.terminal.None? && m.retries == n.retries
    ensures var m', n' := OnLaunchAnswer(m, a), OnLaunchAnswer(n, a);
            m'.tr == n'.tr && m'.pc == n'.pc && m'.retries == n'.retries && (m'.pc == AtCheck ==> m'.tr.terminal.None?)
  {
    hide NextRung, Fail;
    if a.Refused? {
      match a.fault.class_
      case FaultRetryableConsistency =>
      case FaultThrottle =>
      case FaultCapacityExhausted =>
      case _ =>
    }
  }

  lemma AnswersAgree(m: Member, n: Member, a: Answer)
    requires Fits(m.tr.phase, a) && m.tr == n.tr && m.tr.terminal.None?
    requires m.tr.phase == PhaseLaunchAcked ==> m.retries == n.retries
    ensures var m', n' := OnAnswer(m, a), OnAnswer(n, a);
            && m'.tr == n'.tr && m'.pc == n'.pc && (m.tr.phase == PhaseLaunchAcked ==> m'.retries == n'.retries)
            && (m'.pc == AtCheck ==> m'.tr.terminal.None?)
  {
    if m.tr.phase == PhaseLaunchAcked {
      LaunchAnswersAgree(m, n, a);
    }
    hide OnLaunchAnswer;
  }

  lemma HeadsAgree(m: Member, n: Member, err: CtxErr, e: bool, e': bool)
    requires m.pc == AtCheck && n.pc == AtCheck && m.tr == n.tr && m.tr.terminal.None?
    requires m.tr.phase == PhaseEnrolled ==> e == e'
    ensures var r, r' := OnCheck(m, err), OnCheck(n, err);
            && r.tr == r'.tr && r.pc == r'.pc && (err != Live ==> r.pc == Returned)
            && (err == Live ==>
                  var a, a' := OnCall(r, e), OnCall(r', e');
                  && a.tr == a'.tr && a.pc == a'.pc && a.retries == m.retries && a'.retries == n.retries
                  && (a.pc != Returned ==> a.tr == m.tr))
  {
    hide Fail;
  }

  lemma {:induction false} UnreadFrom(m: Member, n: Member, s: PhaseScript, i: nat, e: bool, e': bool)
    requires m.pc == AtCheck && n.pc == AtCheck && m.tr == n.tr && Playable(m.tr.phase, s) && m.tr.terminal.None?
    requires m.tr.phase == PhaseLaunchAcked ==> m.retries == n.retries
    requires m.tr.phase == PhaseEnrolled ==> e == e'
    requires i <= |s.turns| && Playable(m.tr.phase, Rest(s, i))
    ensures var r, r' := RunPhase(m, Rest(s, i), e), RunPhase(n, Rest(s, i), e');
            r.tr == r'.tr && r.pc == r'.pc && (r.pc == AtCheck ==> r.tr.terminal.None?)
    decreases |s.turns| - i
  {
    OnePass(m, s, i, e);
    OnePass(n, s, i, e');
    HeadsAgree(m, n, if i < |s.turns| then s.turns[i].err else s.last, e, e');
    hide RunPhase, OnCheck, OnCall;
    if i < |s.turns| && s.turns[i].err == Live {
      var asked, asked' := OnCall(OnCheck(m, Live), e), OnCall(OnCheck(n, Live), e');
      if asked.pc != Returned {
        AnswersAgree(asked, asked', s.turns[i].answer);
        hide OnAnswer;
        var m', n' := OnAnswer(asked, s.turns[i].answer), OnAnswer(asked', s.turns[i].answer);
        if m'.pc != Returned && m'.tr.phase == m.tr.phase {
          OnePass(m', s, i + 1, e);
          UnreadFrom(m', n', s, i + 1, e, e');
        }
      }
    }
  }

  // A phase run depends on the tracker alone: the bookkeeping fields are unread,
  // the retry count matters to launching only and the Enroller to phase 3 only.
  lemma BookkeepingUnread(m: Member, n: Member, s: PhaseScript, e: bool, e': bool)
    requires m.pc == AtCheck && n.pc == AtCheck && m.tr == n.tr && Playable(m.tr.phase, s) && m.tr.terminal.None?
    requires m.tr.phase == PhaseLaunchAcked ==> m.retries == n.retries
    requires m.tr.phase == PhaseEnrolled ==> e == e'
    ensures var r, r' := RunPhase(m, s, e), RunPhase(n, s, e');
            r.tr == r'.tr && r.pc == r'.pc && (r.pc == AtCheck ==> r.tr.terminal.None?)
  {
    hide RunPhase;
    assert Rest(s, 0) == s;
    UnreadFrom(m, n, s, 0, e, e');
  }

  // reconcileEntity is RunEntity, updates in place included.
  method ReconcileEntity(tr: EntityTracker, launch: PhaseScript, running: PhaseScript, enrolled: PhaseScript, hasEnroller: bool)
    requires Playable(PhaseLaunchAcked, launch) && Playable(PhaseRunning, running) && Playable(PhaseEnrolled, enrolled)
    requires tr.phase == PhaseLaunchAcked && tr.terminal.None? && tr.enrolled == false
    modifies tr
    ensures tr.State() == RunEntity(AtLoopHead(old(tr.State())), launch, running, enrolled, hasEnroller).tr
  {
    hide RunPhase, Playable;
    ghost var m := AtLoopHead(tr.State());
    ghost var m1 := RunPhase(m, launch, hasEnroller);
    BookkeepingUnread(m, m, launch, true, hasEnroller);
    var acked, _ := DoLaunch(tr, launch);
    if !acked {
      return;
    }
    tr.phase := PhaseRunning;
    BookkeepingUnread(AtLoopHead(tr.State()), m1, running, true, hasEnroller);
    var isRunning := WaitRunning(tr, running);
    if !isRunning {
      return;
    }
    tr.phase := PhaseEnrolled;
    BookkeepingUnread(AtLoopHead(tr.State()), RunPhase(m1, running, hasEnroller), enrolled, hasEnroller, hasEnroller);
    WaitEnrolled(tr, enrolled, hasEnroller);
    if tr.terminal.None? {
      tr.enrolled := true;
    }
  }
}

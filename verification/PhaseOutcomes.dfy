// How each phase loop ends, in terms of what it met: the first pass that decides,
// and the tracker that pass leaves.

module PhaseOutcomes {
  import opened Options
  import opened CohortTypes
  import opened RungLadder
  import opened MemberSteps

  function Rest(s: PhaseScript, i: nat): PhaseScript
    requires i <= |s.turns|
  {
    s.(turns := s.turns[i..])
  }

  // One pass of a phase loop, unfolded from the script it is run against.
  lemma OnePass(m: Member, s: PhaseScript, i: nat, hasEnroller: bool)
    requires i <= |s.turns| && m.pc == AtCheck && Playable(m.tr.phase, s)
    ensures Playable(m.tr.phase, Rest(s, i))
    ensures var err := if i < |s.turns| then s.turns[i].err else s.last;
            RunPhase(m, Rest(s, i), hasEnroller) ==
              if err != Live then OnCheck(m, err)
              else
                var asked := OnCall(OnCheck(m, Live), hasEnroller);
                if asked.pc == Returned then asked
                else
                  var m' := OnAnswer(asked, s.turns[i].answer);
                  if m'.pc == Returned || m'.tr.phase != m.tr.phase then m'
                  else RunPhase(m', Rest(s, i + 1), hasEnroller)
  {
    var t := Rest(s, i);
    if i < |s.turns| {
      assert t.turns[0] == s.turns[i];
      assert t.turns[1..] == s.turns[i + 1..];
    }
  }

  // ---- launching -----------------------------------------------------------------------

  predicate RefusedFor(t: Turn, class_: FaultClass) {
    t.answer.Refused? && t.answer.fault.class_ == class_
  }

  // Capacity refusals among the first k passes.
  function Climbs(turns: seq<Turn>, k: nat): nat
    requires k <= |turns|
  {
    if k == 0 then 0 else Climbs(turns, k - 1) + if RefusedFor(turns[k - 1], FaultCapacityExhausted) then 1 else 0
  }

  // Consistency refusals among the first k passes, since the last capacity refusal.
  function SinceClimb(turns: seq<Turn>, k: nat): nat
    requires k <= |turns|
  {
    if k == 0 || RefusedFor(turns[k - 1], FaultCapacityExhausted) then 0
    else SinceClimb(turns, k - 1) + if RefusedFor(turns[k - 1], FaultRetryableConsistency) then 1 else 0
  }

  // The rung pass k is on: so many capacity refusals down the approved chain.
  function RungAt(intent: EntityIntent, turns: seq<Turn>, k: nat): Option<Rung>
    requires k <= |turns|
  {
    RungAfter(intent.rung, intent.fallbackChain, Climbs(turns, k))
  }

  // Pass k ends the loop: its context is dead, or the call is acknowledged, or it is
  // refused for good. A throttle never is; a consistency fault as the sixth on its
  // rung; a capacity fault when no rung is left; any other at once.
  predicate EndsLaunch(intent: EntityIntent, turns: seq<Turn>, k: nat)
    requires k < |turns|
  {
    turns[k].err != Live || turns[k].answer.Acked?
    || (turns[k].answer.Refused?
        && match turns[k].answer.fault.class_
           case FaultThrottle => false
           case FaultRetryableConsistency => SinceClimb(turns, k) >= 5
           case FaultCapacityExhausted => RungAt(intent, turns, k + 1).None?
           case _ => true)
  }

  ghost predicate NoneEnds(intent: EntityIntent, turns: seq<Turn>, k: nat)
    requires k <= |turns|
  {
    forall j :: 0 <= j < k ==> !EndsLaunch(intent, turns, j)
  }

  // The attempts logged on the way: each capacity refusal, on its rung.
  function Trail(intent: EntityIntent, turns: seq<Turn>, k: nat): seq<Attempt>
    requires k <= |turns|
  {
    if k == 0 then []
    else
      var rung := RungAt(intent, turns, k - 1);
      Trail(intent, turns, k - 1)
      + if RefusedFor(turns[k - 1], FaultCapacityExhausted) && rung.Some? then
          [Attempt(rung.value, PhaseLaunchAcked, Some(turns[k - 1].answer.fault))]
        else []
  }

  function Calls(intent: EntityIntent, turns: seq<Turn>, k: nat): seq<LaunchCall>
    requires k <= |turns|
  {
    if k == 0 then []
    else
      var rung := RungAt(intent, turns, k - 1);
      Calls(intent, turns, k - 1)
      + if rung.Some? then [LaunchCall(rung.value, RefusedFor(turns[k - 1], FaultThrottle))] else []
  }

  // The tracker at the head of pass k: only capacity refusals have left a mark.
  function HeadAt(tr: Tracker, turns: seq<Turn>, k: nat): Tracker
    requires k <= |turns| && RungAt(tr.intent, turns, k).Some?
  {
    tr.(intent := tr.intent.(rung := RungAt(tr.intent, turns, k).value), attempts := tr.attempts + Trail(tr.intent, turns, k))
  }

  function MemberAt(m: Member, turns: seq<Turn>, k: nat): Member
    requires k <= |turns| && RungAt(m.tr.intent, turns, k).Some?
  {
    m.(tr := HeadAt(m.tr, turns, k), retries := SinceClimb(turns, k), climbed := m.climbed + Climbs(turns, k),
       launches := m.launches + Calls(m.tr.intent, turns, k))
  }

  // One more pass that does not end the loop.
  lemma LaunchPass(m: Member, s: PhaseScript, hasEnroller: bool, k: nat)
    requires m.pc == AtCheck && m.tr.phase == PhaseLaunchAcked && m.retries == 0 && Playable(PhaseLaunchAcked, s)
    requires k < |s.turns| && RungAt(m.tr.intent, s.turns, k).Some? && SinceClimb(s.turns, k) <= 5
    requires !EndsLaunch(m.tr.intent, s.turns, k)
    ensures RungAt(m.tr.intent, s.turns, k + 1).Some? && SinceClimb(s.turns, k + 1) <= 5
    ensures RunPhase(MemberAt(m, s.turns, k), Rest(s, k), hasEnroller)
         == RunPhase(MemberAt(m, s.turns, k + 1), Rest(s, k + 1), hasEnroller)
  {
    var intent, turns := m.tr.intent, s.turns;
    var here := MemberAt(m, turns, k);
    OnePass(here, s, k, hasEnroller);
    var answer := turns[k].answer;
    assert Fits(PhaseLaunchAcked, answer);
    assert OnCall(OnCheck(here, Live), hasEnroller) == here.(pc := InCall);
    PassedOn(m, turns, k);
    hide RunPhase, NextRung, RungAfter, OnLaunchAnswer;
  }

  // What a refusal at pass k adds to the reckoning.
  lemma Reckoned(intent: EntityIntent, turns: seq<Turn>, k: nat)
    requires k < |turns| && RungAt(intent, turns, k).Some?
    ensures var capacity := RefusedFor(turns[k], FaultCapacityExhausted);
            var rung := RungAt(intent, turns, k).value;
            && Climbs(turns, k + 1) == Climbs(turns, k) + (if capacity then 1 else 0)
            && RungAt(intent, turns, k + 1) == (if capacity then NextRung(rung, intent.fallbackChain) else Some(rung))
            && SinceClimb(turns, k + 1) == (if capacity then 0
                 else SinceClimb(turns, k) + if RefusedFor(turns[k], FaultRetryableConsistency) then 1 else 0)
            && Trail(intent, turns, k + 1) == Trail(intent, turns, k)
                 + (if capacity then [Attempt(rung, PhaseLaunchAcked, Some(turns[k].answer.fault))] else [])
            && Calls(intent, turns, k + 1) == Calls(intent, turns, k) + [LaunchCall(rung, RefusedFor(turns[k], FaultThrottle))]
  {
    hide NextRung;
  }

  lemma PassedOn(m: Member, turns: seq<Turn>, k: nat)
    requires m.pc == AtCheck && m.tr.phase == PhaseLaunchAcked && m.retries == 0
    requires k < |turns| && RungAt(m.tr.intent, turns, k).Some? && SinceClimb(turns, k) <= 5
    requires turns[k].answer.Refused? && !EndsLaunch(m.tr.intent, turns, k)
    ensures RungAt(m.tr.intent, turns, k + 1).Some? && SinceClimb(turns, k + 1) <= 5
    ensures OnLaunchAnswer(MemberAt(m, turns, k).(pc := InCall), turns[k].answer) == MemberAt(m, turns, k + 1)
  {
    var intent := m.tr.intent;
    Reckoned(intent, turns, k);
    hide NextRung, Climbs, RungAt, SinceClimb, Trail, Calls, FailWith;
    var c := LaunchCall(RungAt(intent, turns, k).value, RefusedFor(turns[k], FaultThrottle));
    assert m.launches + Calls(intent, turns, k + 1) == m.launches + Calls(intent, turns, k) + [c];
    assert Trail(intent, turns, k) + [] == Trail(intent, turns, k);
    match turns[k].answer.fault.class_
    case FaultThrottle =>
    case FaultRetryableConsistency =>
    case FaultCapacityExhausted =>
      assert m.tr.attempts + Trail(intent, turns, k + 1)
          == m.tr.attempts + Trail(intent, turns, k) + [Attempt(c.rung, PhaseLaunchAcked, Some(turns[k].answer.fault))];
  }

  lemma {:induction false} LaunchRuns(m: Member, s: PhaseScript, hasEnroller: bool, k: nat)
    requires m.pc == AtCheck && m.tr.phase == PhaseLaunchAcked && m.retries == 0 && Playable(PhaseLaunchAcked, s)
    requires k <= |s.turns| && NoneEnds(m.tr.intent, s.turns, k)
    ensures RungAt(m.tr.intent, s.turns, k).Some? && SinceClimb(s.turns, k) <= 5
    ensures RunPhase(m, s, hasEnroller) == RunPhase(MemberAt(m, s.turns, k), Rest(s, k), hasEnroller)
  {
    if k == 0 {
      assert Rest(s, 0) == s && m.launches + [] == m.launches && m.tr.attempts + [] == m.tr.attempts;
    } else {
      assert !EndsLaunch(m.tr.intent, s.turns, k - 1);
      LaunchRuns(m, s, hasEnroller, k - 1);
      LaunchPass(m, s, hasEnroller, k - 1);
      hide RunPhase, MemberAt, EndsLaunch;
    }
  }

  // The failure is logged on the current rung and ends the entity in this phase.
  predicate FailedAs(before: Tracker, after: Tracker, phase: Phase, f: Fault) {
    after == before.(attempts := before.attempts + [Attempt(before.intent.rung, phase, Some(f))], phase := phase,
                     terminal := Some(f))
  }

  // What pass j, or the end of the script, leaves of the tracker: on a cancel what
  // it was at the pass's head; past the deadline the phase's budget fault; the
  // acknowledged observation; or the fault it was refused for, an ambiguous one
  // under a name of its own.
  predicate LaunchLeaves(tr: Tracker, s: PhaseScript, j: nat, acked: bool, after: Tracker)
    requires j <= |s.turns| && RungAt(tr.intent, s.turns, j).Some?
  {
    var head := HeadAt(tr, s.turns, j);
    match if j < |s.turns| then s.turns[j].err else s.last
    case Canceled => !acked && after == head
    case DeadlineExceeded =>
      !acked && FailedAs(head, after, PhaseLaunchAcked, Fault(FaultTerminal, PhaseBudgetExceeded(PhaseLaunchAcked), false))
    case Live =>
      j < |s.turns|
      && match s.turns[j].answer
         case Acked(obs) =>
           acked && after == head.(obs := obs, attempts := head.attempts + [Attempt(head.intent.rung, PhaseLaunchAcked, None)])
         case Refused(f) =>
           && !acked
           && FailedAs(head, after, PhaseLaunchAcked,
                       if f.class_ == FaultAmbiguous then f.(detail := AmbiguousReachedReconciler) else f)
         case _ => false
  }

  // Pass j is the first that ends the loop, or none of them does.
  ghost predicate FirstEnd(intent: EntityIntent, s: PhaseScript, j: nat) {
    j <= |s.turns| && NoneEnds(intent, s.turns, j) && (j < |s.turns| ==> EndsLaunch(intent, s.turns, j))
  }

  // As many calls as passes read a live context.
  function CallsBy(intent: EntityIntent, s: PhaseScript, j: nat): seq<LaunchCall>
    requires j <= |s.turns|
  {
    Calls(intent, s.turns, if j < |s.turns| && s.turns[j].err == Live then j + 1 else j)
  }

  lemma LaunchEnds(m: Member, s: PhaseScript, hasEnroller: bool, j: nat)
    requires m.pc == AtCheck && m.tr.phase == PhaseLaunchAcked && m.retries == 0 && Playable(PhaseLaunchAcked, s)
    requires FirstEnd(m.tr.intent, s, j)
    ensures RungAt(m.tr.intent, s.turns, j).Some?
    ensures var r := RunPhase(m, s, hasEnroller);
            && LaunchLeaves(m.tr, s, j, r.pc == AtCheck, if r.pc == AtCheck then r.tr.(phase := PhaseLaunchAcked) else r.tr)
            && r.launches == m.launches + CallsBy(m.tr.intent, s, j)
            && (r.pc == AtCheck || r.pc == Returned) && (r.pc == AtCheck ==> r.tr.phase == PhaseRunning)
  {
    LaunchRuns(m, s, hasEnroller, j);
    var head := MemberAt(m, s.turns, j);
    OnePass(head, s, j, hasEnroller);
    if j < |s.turns| && s.turns[j].err == Live {
      assert Fits(PhaseLaunchAcked, s.turns[j].answer);
      Reckoned(m.tr.intent, s.turns, j);
      assert OnCall(OnCheck(head, Live), hasEnroller) == head.(pc := InCall);
      LaunchAnswered(m, s, j);
    }
    hide RunPhase, Climbs, RungAt, SinceClimb, Trail, Calls, OnLaunchAnswer, NextRung;
  }

  lemma LaunchAnswered(m: Member, s: PhaseScript, j: nat)
    requires m.pc == AtCheck && m.tr.phase == PhaseLaunchAcked && m.retries == 0 && Playable(PhaseLaunchAcked, s)
    requires j < |s.turns| && EndsLaunch(m.tr.intent, s.turns, j) && s.turns[j].err == Live
    requires RungAt(m.tr.intent, s.turns, j).Some? && SinceClimb(s.turns, j) <= 5
    ensures Fits(PhaseLaunchAcked, s.turns[j].answer)
    ensures var r := OnLaunchAnswer(MemberAt(m, s.turns, j).(pc := InCall), s.turns[j].answer);
            && LaunchLeaves(m.tr, s, j, r.pc == AtCheck, if r.pc == AtCheck then r.tr.(phase := PhaseLaunchAcked) else r.tr)
            && r.launches == m.launches + Calls(m.tr.intent, s.turns, j + 1)
            && (r.pc == Returned || (r.pc == AtCheck && r.tr.phase == PhaseRunning))
  {
    Reckoned(m.tr.intent, s.turns, j);
    hide NextRung, Climbs, RungAt, SinceClimb, Trail, Calls;
    match s.turns[j].answer {
      case Acked(_) =>
      case Refused(f) =>
        if f.class_ == FaultAmbiguous {
        } else if f.class_ == FaultCapacityExhausted {
        }
    }
    var c := LaunchCall(RungAt(m.tr.intent, s.turns, j).value, RefusedFor(s.turns[j], FaultThrottle));
    assert m.launches + Calls(m.tr.intent, s.turns, j + 1) == m.launches + Calls(m.tr.intent, s.turns, j) + [c];
  }

  lemma {:induction false} SomeEnd(intent: EntityIntent, s: PhaseScript, k: nat) returns (j: nat)
    requires k <= |s.turns| && NoneEnds(intent, s.turns, k)
    ensures FirstEnd(intent, s, j)
    decreases |s.turns| - k
  {
    hide EndsLaunch;
    if k == |s.turns| || EndsLaunch(intent, s.turns, k) {
      j := k;
    } else {
      j := SomeEnd(intent, s, k + 1);
    }
  }

  // An acknowledgement under a live context, and no earlier pass ends the loop.
  ghost predicate AckedFirst(intent: EntityIntent, s: PhaseScript) {
    exists j :: 0 <= j < |s.turns| && s.turns[j].err == Live && s.turns[j].answer.Acked? && NoneEnds(intent, s.turns, j)
  }

  // A whole launch loop, from the tracker it starts on: whether it is acknowledged,
  // what the first pass that ends it leaves, and which calls it made.
  ghost predicate LaunchDone(tr: Tracker, s: PhaseScript, acked: bool, after: Tracker, issued: seq<LaunchCall>) {
    && (acked <==> AckedFirst(tr.intent, s))
    && exists j :: FirstEnd(tr.intent, s, j) && RungAt(tr.intent, s.turns, j).Some?
                   && LaunchLeaves(tr, s, j, acked, after) && issued == CallsBy(tr.intent, s, j)
  }

  lemma LaunchOutcome(m: Member, s: PhaseScript, hasEnroller: bool) returns (j: nat)
    requires m.pc == AtCheck && m.tr.phase == PhaseLaunchAcked && m.retries == 0 && Playable(PhaseLaunchAcked, s)
    ensures FirstEnd(m.tr.intent, s, j) && RungAt(m.tr.intent, s.turns, j).Some?
    ensures var r := RunPhase(m, s, hasEnroller);
            && (r.pc == AtCheck <==> AckedFirst(m.tr.intent, s))
            && LaunchLeaves(m.tr, s, j, r.pc == AtCheck, if r.pc == AtCheck then r.tr.(phase := PhaseLaunchAcked) else r.tr)
            && r.launches == m.launches + CallsBy(m.tr.intent, s, j)
            && (r.pc == AtCheck ==> r.tr.phase == PhaseRunning)
            && (m.launches == [] && r.pc != AtCheck ==> LaunchDone(m.tr, s, false, r.tr, r.launches))
            && (m.launches == [] && r.pc == AtCheck ==>
                  LaunchDone(m.tr, s, true, r.tr.(phase := PhaseLaunchAcked), r.launches))
  {
    j := SomeEnd(m.tr.intent, s, 0);
    LaunchEnds(m, s, hasEnroller, j);
    hide RunPhase, RungAt, HeadAt, CallsBy;
    if i :| 0 <= i < |s.turns| && s.turns[i].err == Live && s.turns[i].answer.Acked? && NoneEnds(m.tr.intent, s.turns, i) {
      assert EndsLaunch(m.tr.intent, s.turns, i);
      assert i == j;
    }
  }

  // ---- waiting to run -------------------------------------------------------------------

  predicate HeadIs(a: Answer, st: LifecycleState) {
    a.Observed? && a.seen != [] && a.seen[0].state == st
  }

  // A pass of waitRunning after which the loop does not go round again.
  predicate Decides(t: Turn) {
    t.err != Live || HeadIs(t.answer, StateRunning) || HeadIs(t.answer, StateFailed) || HeadIs(t.answer, StateDraining)
    || (t.answer.ObserveFailed? && t.answer.fault.class_ == FaultTerminal)
  }

  // The last observation among the first k passes, or the one there was.
  function SeenBy(obs: Observation, turns: seq<Turn>, k: nat): Observation
    requires k <= |turns|
  {
    if k == 0 then obs
    else if turns[k - 1].answer.Observed? && turns[k - 1].answer.seen != [] then turns[k - 1].answer.seen[0]
    else SeenBy(obs, turns, k - 1)
  }

  // Pass j is the first that decides, or none of them does.
  ghost predicate FirstDecision(s: PhaseScript, j: nat) {
    j <= |s.turns| && (forall k :: 0 <= k < j ==> !Decides(s.turns[k])) && (j < |s.turns| ==> Decides(s.turns[j]))
  }

  // On a cancel the tracker has the last observation and is else unchanged; past the
  // deadline it has failed by the phase's budget; a terminal fault is its failure; an
  // instance seen failed or draining is its failure too; one seen running lets it on.
  predicate RunningLeaves(tr: Tracker, s: PhaseScript, j: nat, running: bool, after: Tracker)
    requires j <= |s.turns|
  {
    var head := tr.(obs := SeenBy(tr.obs, s.turns, j));
    match if j < |s.turns| then s.turns[j].err else s.last
    case Canceled => !running && after == head
    case DeadlineExceeded =>
      !running && FailedAs(head, after, PhaseRunning, Fault(FaultTerminal, PhaseBudgetExceeded(PhaseRunning), false))
    case Live =>
      j < |s.turns|
      && match s.turns[j].answer
         case ObserveFailed(f) => !running && FailedAs(head, after, PhaseRunning, f)
         case Observed(seen) =>
           seen != []
           && var now := tr.(obs := seen[0]);
              (match seen[0].state
               case StateRunning => running && after == now
               case StateFailed | StateDraining =>
                 !running && FailedAs(now, after, PhaseRunning, Fault(FaultTerminal, InstanceFailed(seen[0].state), false))
               case _ => false)
         case _ => false
  }

  // A pass saw the instance running under a live context, and no earlier one decides.
  ghost predicate RunsFirst(s: PhaseScript) {
    exists j :: 0 <= j < |s.turns| && s.turns[j].err == Live && HeadIs(s.turns[j].answer, StateRunning)
                && (forall k :: 0 <= k < j ==> !Decides(s.turns[k]))
  }

  ghost predicate RunningDone(tr: Tracker, s: PhaseScript, running: bool, after: Tracker) {
    (running <==> RunsFirst(s))
    && exists j :: FirstDecision(s, j) && RunningLeaves(tr, s, j, running, after)
  }

  // What one answer does to the tracker: no decision, and the two that fail it.
  lemma ObserveUndecided(m: Member, t: Turn)
    requires m.pc == InCall && m.tr.phase == PhaseRunning && Fits(PhaseRunning, t.answer) && !Decides(t)
    ensures OnAnswer(m, t.answer) == m.(pc := AtCheck, tr := m.tr.(obs := SeenBy(m.tr.obs, [t], 1)))
  {
    assert SeenBy(m.tr.obs, [t], 0) == m.tr.obs;
    hide FailWith;
  }

  lemma {:induction false} SeenByMore(obs: Observation, turns: seq<Turn>, k: nat)
    requires k < |turns|
    ensures SeenBy(obs, turns, k + 1) == SeenBy(SeenBy(obs, turns, k), [turns[k]], 1)
  {
    assert SeenBy(SeenBy(obs, turns, k), [turns[k]], 0) == SeenBy(obs, turns, k);
  }

  lemma ObserveDecided(m: Member, s: PhaseScript, j: nat)
    requires m.pc == InCall && m.tr.phase == PhaseRunning && j < |s.turns| && Fits(PhaseRunning, s.turns[j].answer)
    requires Decides(s.turns[j]) && s.turns[j].err == Live
    ensures var r := OnAnswer(m.(tr := m.tr.(obs := SeenBy(m.tr.obs, s.turns, j))), s.turns[j].answer);
            && RunningLeaves(m.tr, s, j, r.pc == AtCheck, if r.pc == AtCheck then r.tr.(phase := PhaseRunning) else r.tr)
            && (r.pc == Returned || (r.pc == AtCheck && r.tr.phase == PhaseEnrolled))
  {
    hide SeenBy;
  }

  // The member at the head of pass k.
  function Waiting(m: Member, turns: seq<Turn>, k: nat): Member
    requires k <= |turns|
  {
    m.(tr := m.tr.(obs := SeenBy(m.tr.obs, turns, k)))
  }

  lemma RunningPass(m: Member, s: PhaseScript, hasEnroller: bool, k: nat)
    requires m.pc == AtCheck && m.tr.phase == PhaseRunning && Playable(PhaseRunning, s)
    requires k < |s.turns| && !Decides(s.turns[k])
    ensures RunPhase(Waiting(m, s.turns, k), Rest(s, k), hasEnroller)
         == RunPhase(Waiting(m, s.turns, k + 1), Rest(s, k + 1), hasEnroller)
  {
    assert Fits(PhaseRunning, s.turns[k].answer);
    var head := Waiting(m, s.turns, k);
    OnePass(head, s, k, hasEnroller);
    ObserveUndecided(head.(pc := InCall), s.turns[k]);
    SeenByMore(m.tr.obs, s.turns, k);
    assert OnCall(OnCheck(head, Live), hasEnroller) == head.(pc := InCall);
    hide RunPhase, OnAnswer, SeenBy, OnCall, OnCheck;
  }

  lemma {:induction false} RunningRuns(m: Member, s: PhaseScript, hasEnroller: bool, k: nat)
    requires m.pc == AtCheck && m.tr.phase == PhaseRunning && Playable(PhaseRunning, s)
    requires k <= |s.turns| && forall j :: 0 <= j < k ==> !Decides(s.turns[j])
    ensures RunPhase(m, s, hasEnroller) == RunPhase(Waiting(m, s.turns, k), Rest(s, k), hasEnroller)
  {
    if k == 0 {
      assert Rest(s, 0) == s && Waiting(m, s.turns, 0) == m;
    } else {
      hide RunPhase, Waiting, Decides;
      RunningRuns(m, s, hasEnroller, k - 1);
      RunningPass(m, s, hasEnroller, k - 1);
    }
  }

  lemma {:induction false} SomeDecision(s: PhaseScript, k: nat) returns (j: nat)
    requires k <= |s.turns| && forall i :: 0 <= i < k ==> !Decides(s.turns[i])
    ensures FirstDecision(s, j)
    decreases |s.turns| - k
  {
    if k == |s.turns| || Decides(s.turns[k]) {
      j := k;
    } else {
      j := SomeDecision(s, k + 1);
    }
  }

  lemma RunsFirstIs(s: PhaseScript, j: nat)
    requires FirstDecision(s, j)
    ensures RunsFirst(s) <==> j < |s.turns| && s.turns[j].err == Live && HeadIs(s.turns[j].answer, StateRunning)
  {
    if i :| 0 <= i < |s.turns| && s.turns[i].err == Live && HeadIs(s.turns[i].answer, StateRunning)
            && forall k :: 0 <= k < i ==> !Decides(s.turns[k]) {
      assert Decides(s.turns[i]) && i == j;
    }
  }

  // A whole wait for the instance to run.
  lemma RunningOutcome(m: Member, s: PhaseScript, hasEnroller: bool) returns (j: nat)
    requires m.pc == AtCheck && m.tr.phase == PhaseRunning && Playable(PhaseRunning, s)
    ensures FirstDecision(s, j)
    ensures var r := RunPhase(m, s, hasEnroller);
            && (r.pc != AtCheck ==> RunningDone(m.tr, s, false, r.tr))
            && (r.pc == AtCheck ==> RunningDone(m.tr, s, true, r.tr.(phase := PhaseRunning)))
  {
    j := SomeDecision(s, 0);
    RunningRuns(m, s, hasEnroller, j);
    var head := m.(tr := m.tr.(obs := SeenBy(m.tr.obs, s.turns, j)));
    OnePass(head, s, j, hasEnroller);
    hide RunPhase, SeenBy, OnAnswer, FirstDecision;
    if j < |s.turns| && s.turns[j].err == Live {
      assert Fits(PhaseRunning, s.turns[j].answer);
      ObserveDecided(m.(pc := InCall), s, j);
      assert OnCall(OnCheck(head, Live), hasEnroller) == head.(pc := InCall);
    }
    RunsFirstIs(s, j);
  }

  // ---- waiting to be enrolled --------------------------------------------------------------

  predicate Confirms(a: Answer) {
    a.Probed? && a.enrolled && a.operational
  }

  // Pass k ends the loop.
  predicate EndsWait(s: PhaseScript, hasEnroller: bool, k: nat)
    requires k < |s.turns|
  {
    s.turns[k].err != Live || !hasEnroller || Confirms(s.turns[k].answer)
  }

  ghost predicate FirstEnrolEnd(s: PhaseScript, hasEnroller: bool, j: nat) {
    && j <= |s.turns| && (forall k :: 0 <= k < j ==> !EndsWait(s, hasEnroller, k))
    && (j < |s.turns| ==> EndsWait(s, hasEnroller, j))
  }

  // A cancel and a missing Enroller flag the entity enrolled as it is; a ready answer
  // does with the address it gives; past the deadline the entity has failed by the
  // phase's budget. No other answer leaves a mark.
  predicate EnrolLeaves(tr: Tracker, s: PhaseScript, hasEnroller: bool, j: nat, after: Tracker)
    requires j <= |s.turns|
  {
    match if j < |s.turns| then s.turns[j].err else s.last
    case Canceled => after == tr.(enrolled := true)
    case DeadlineExceeded =>
      FailedAs(tr, after, PhaseEnrolled, Fault(FaultTerminal, PhaseBudgetExceeded(PhaseEnrolled), false))
    case Live =>
      j < |s.turns|
      && if hasEnroller then
           Confirms(s.turns[j].answer)
           && after == tr.(enrolled := true, obs := tr.obs.(address := s.turns[j].answer.detail))
         else after == tr.(enrolled := true)
  }

  lemma {:induction false} EnrolRuns(m: Member, s: PhaseScript, hasEnroller: bool, k: nat)
    requires m.pc == AtCheck && m.tr.phase == PhaseEnrolled && m.tr.terminal.None? && Playable(PhaseEnrolled, s)
    requires k <= |s.turns| && forall j :: 0 <= j < k ==> !EndsWait(s, hasEnroller, j)
    ensures RunPhase(m, s, hasEnroller) == RunPhase(m, Rest(s, k), hasEnroller)
  {
    if k == 0 {
      assert Rest(s, 0) == s;
    } else {
      EnrolRuns(m, s, hasEnroller, k - 1);
      assert !EndsWait(s, hasEnroller, k - 1) && Fits(PhaseEnrolled, s.turns[k - 1].answer);
      OnePass(m, s, k - 1, hasEnroller);
      hide RunPhase;
    }
  }

  lemma {:induction false} SomeEnrolEnd(s: PhaseScript, hasEnroller: bool, k: nat) returns (j: nat)
    requires k <= |s.turns| && forall i :: 0 <= i < k ==> !EndsWait(s, hasEnroller, i)
    ensures FirstEnrolEnd(s, hasEnroller, j)
    decreases |s.turns| - k
  {
    if k == |s.turns| || EndsWait(s, hasEnroller, k) {
      j := k;
    } else {
      j := SomeEnrolEnd(s, hasEnroller, k + 1);
    }
  }

  // A whole wait for readiness.
  lemma EnrolOutcome(m: Member, s: PhaseScript, hasEnroller: bool) returns (j: nat)
    requires m.pc == AtCheck && m.tr.phase == PhaseEnrolled && m.tr.terminal.None? && Playable(PhaseEnrolled, s)
    ensures FirstEnrolEnd(s, hasEnroller, j)
    ensures EnrolLeaves(m.tr, s, hasEnroller, j, RunPhase(m, s, hasEnroller).tr)
  {
    j := SomeEnrolEnd(s, hasEnroller, 0);
    EnrolRuns(m, s, hasEnroller, j);
    OnePass(m, s, j, hasEnroller);
    hide RunPhase;
    if j < |s.turns| {
      assert Fits(PhaseEnrolled, s.turns[j].answer);
    }
  }

  // ---- all three phases -----------------------------------------------------------------------

  // No pass ends the wait by a deadline.
  ghost predicate NotLate(s: PhaseScript, hasEnroller: bool) {
    exists j: nat :: FirstEnrolEnd(s, hasEnroller, j) && (if j < |s.turns| then s.turns[j].err else s.last) != DeadlineExceeded
  }

  // How far an entity comes: it stays in its launch unless that is acknowledged first,
  // waits to run unless it is seen running first, and is flagged enrolled exactly when
  // it comes to the third phase and its deadline does not end that.
  lemma EntityReaches(m: Member, launch: PhaseScript, running: PhaseScript, enrolled: PhaseScript, hasEnroller: bool)
    requires m.pc == AtCheck && m.tr.phase == PhaseLaunchAcked && m.retries == 0 && m.tr.terminal.None? && !m.tr.enrolled
    requires Playable(PhaseLaunchAcked, launch) && Playable(PhaseRunning, running) && Playable(PhaseEnrolled, enrolled)
    ensures var t := RunEntity(m, launch, running, enrolled, hasEnroller).tr;
            var intent := m.tr.intent;
            && t.phase == (if !AckedFirst(intent, launch) then PhaseLaunchAcked
                           else if !RunsFirst(running) then PhaseRunning else PhaseEnrolled)
            && (t.enrolled <==> AckedFirst(intent, launch) && RunsFirst(running) && NotLate(enrolled, hasEnroller))
  {
    hide RunPhase;
    var j := LaunchOutcome(m, launch, hasEnroller);
    var m1 := RunPhase(m, launch, hasEnroller);
    hide AckedFirst, FirstEnd, RungAt, CallsBy, LaunchDone;
    if m1.pc == AtCheck {
      var k := RunningOutcome(m1, running, hasEnroller);
      var m2 := RunPhase(m1, running, hasEnroller);
      hide RunsFirst, FirstDecision;
      if m2.pc == AtCheck {
        var i := EnrolOutcome(m2, enrolled, hasEnroller);
        OneEnrolEnd(enrolled, hasEnroller, i);
        hide NotLate, FirstEnrolEnd;
      }
    }
  }

  lemma OneEnrolEnd(s: PhaseScript, hasEnroller: bool, i: nat)
    requires FirstEnrolEnd(s, hasEnroller, i)
    ensures NotLate(s, hasEnroller) <==> (if i < |s.turns| then s.turns[i].err else s.last) != DeadlineExceeded
  {
    if j: nat :| FirstEnrolEnd(s, hasEnroller, j) && (if j < |s.turns| then s.turns[j].err else s.last) != DeadlineExceeded {
      assert j < |s.turns| ==> EndsWait(s, hasEnroller, j);
      assert i < |s.turns| ==> EndsWait(s, hasEnroller, i);
      assert j == i;
    }
  }
}

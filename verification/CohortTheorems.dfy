// Whole-run results: any interleaving of the members, followed by the settling
// of the cohort.

module CohortTheorems {
  import opened Options
  import opened CohortTypes
  import opened RungLadder
  import opened MemberSteps
  import opened CohortMachine
  import opened CohortSettle

  function Trackers(s: State): seq<Tracker> {
    seq(|s.ms|, i requires 0 <= i < |s.ms| => s.ms[i].tr)
  }

  // Wait has returned in state s after `run`.
  ghost predicate Waited(c: Cohort, hasEnroller: bool, run: seq<Step>, s: State) {
    Reaches(c, hasEnroller, run, s) && AllFinished(s)
  }

  function Outcome(c: Cohort, hasAssembler: bool, s: State, asm: seq<Observation> -> Option<string>): Settled {
    Settle(c, hasAssembler, Trackers(s), s.culprit, s.parent, asm)
  }

  lemma ReachedInv(c: Cohort, e: bool, run: seq<Step>, s: State)
    requires Reaches(c, e, run, s)
    ensures Inv(c, s)
  {
    InitInv(c);
    ExecInv(c, e, Init(c), run);
  }

  // ---- the gate -------------------------------------------------------------

  function VerifiedIn(ms: seq<Member>): nat {
    if ms == [] then 0 else (if ms[0].verified then 1 else 0) + VerifiedIn(ms[1..])
  }

  function TrackersOf(ms: seq<Member>): seq<Tracker> {
    seq(|ms|, i requires 0 <= i < |ms| => ms[i].tr)
  }

  // Enrolled members and counted failures never add up to more than the
  // membership, and to exactly that when nobody left without being verified.
  lemma {:induction false} EnrolledPlusCounted(ms: seq<Member>)
    requires forall i :: 0 <= i < |ms| ==> ms[i].pc == Finished && Coherent(ms[i])
    ensures EnrolledIn(TrackersOf(ms)) + CountedIn(ms) <= |ms|
    ensures (forall i :: 0 <= i < |ms| && ms[i].tr.terminal.None? ==> ms[i].verified) ==>
              EnrolledIn(TrackersOf(ms)) + CountedIn(ms) == |ms| && VerifiedIn(ms) == EnrolledIn(TrackersOf(ms))
  {
    if ms != [] {
      EnrolledPlusCounted(ms[1..]);
      assert TrackersOf(ms)[1..] == TrackersOf(ms[1..]);
    }
  }

  // A gate that passes under a live parent: no fast-fail ever fired, and every
  // member that has not failed really got a confirmed readiness, although the
  // enrolled flag by itself does not say so.
  lemma GateSound(c: Cohort, e: bool, run: seq<Step>, s: State)
    requires Waited(c, e, run, s) && s.parent == Live && GateMet(c, Trackers(s))
    ensures !s.fired && s.scope == Live
    ensures VerifiedIn(s.ms) >= c.Need()
    ensures forall i :: 0 <= i < |s.ms| ==> (s.ms[i].verified <==> s.ms[i].tr.terminal.None?)
    ensures forall i :: 0 <= i < |s.ms| ==> (s.ms[i].tr.enrolled <==> s.ms[i].tr.terminal.None?)
  {
    ReachedInv(c, e, run, s);
    assert forall i :: 0 <= i < |s.ms| ==> Disciplined(s.ms[i], c.members[i]);
    hide AttemptShape, LaunchBudget, Climbable;
    assert forall i :: 0 <= i < |s.ms| ==> Coherent(s.ms[i]);
    EnrolledPlusCounted(s.ms);
    assert TrackersOf(s.ms) == Trackers(s);
  }

  // ---- what being verified means ------------------------------------------------

  // Member i's Enroller call is answered: enrolled and operational.
  predicate ConfirmsMember(st: Step, i: nat) {
    st.Answer? && st.i == i && st.a.Probed? && st.a.enrolled && st.a.operational
  }

  ghost predicate ConfirmedIn(run: seq<Step>, i: nat) {
    exists k :: 0 <= k < |run| && ConfirmsMember(run[k], i)
  }

  lemma StepVerifies(c: Cohort, s: State, st: Step, i: nat)
    requires Enabled(s, st) && i < |s.ms|
    ensures |Next(c, true, s, st).ms| == |s.ms|
    ensures Next(c, true, s, st).ms[i].verified <==> s.ms[i].verified || ConfirmsMember(st, i)
  {
    hide NextRung, Satisfiable;
  }

  lemma {:induction false} ExecVerifies(c: Cohort, s: State, run: seq<Step>, i: nat)
    requires Valid(c, true, s, run) && i < |s.ms|
    ensures |Exec(c, true, s, run).ms| == |s.ms|
    ensures Exec(c, true, s, run).ms[i].verified <==> s.ms[i].verified || ConfirmedIn(run, i)
    decreases |run|
  {
    if run != [] {
      StepVerifies(c, s, run[0], i);
      hide Next, Enabled, ConfirmsMember;
      ExecVerifies(c, Next(c, true, s, run[0]), run[1..], i);
      assert forall k :: 0 < k < |run| ==> run[k] == run[1..][k - 1];
      assert ConfirmedIn(run[1..], i) ==> ConfirmedIn(run, i) by {
        if ConfirmedIn(run[1..], i) {
          var k :| 0 <= k < |run[1..]| && ConfirmsMember(run[1..][k], i);
          assert ConfirmsMember(run[k + 1], i);
        }
      }
    }
  }

  // With an Enroller a member is verified exactly when the run holds its ready
  // answer; once all is over it is flagged enrolled exactly when it left phase 3
  // without failing, so flagged but unverified exactly when it did that without
  // a ready answer.
  lemma VerifiedIffConfirmed(c: Cohort, run: seq<Step>, s: State, i: nat)
    requires Reaches(c, true, run, s) && i < |c.members|
    ensures |s.ms| == |c.members| && (s.ms[i].verified <==> ConfirmedIn(run, i))
    ensures AllFinished(s) ==>
              (s.ms[i].tr.enrolled && !s.ms[i].verified
               <==> s.ms[i].tr.terminal.None? && s.ms[i].tr.phase == PhaseEnrolled && !ConfirmedIn(run, i))
  {
    ExecVerifies(c, Init(c), run, i);
    ReachedInv(c, true, run, s);
    assert Disciplined(s.ms[i], c.members[i]) && Coherent(s.ms[i]);
    hide Valid, Exec, Inv;
  }

  // That ready answer gave this address.
  ghost predicate ConfirmedAt(run: seq<Step>, i: nat, address: string) {
    exists k :: 0 <= k < |run| && ConfirmsMember(run[k], i) && run[k].a.detail == address
  }

  lemma StepConfirms(c: Cohort, s: State, st: Step, i: nat)
    requires MembersFine(c, s) && Enabled(s, st) && i < |s.ms|
    ensures var s' := Next(c, true, s, st);
            && |s'.ms| == |s.ms|
            && (s.ms[i].verified ==> s'.ms[i].verified && s'.ms[i].tr.obs == s.ms[i].tr.obs)
            && (s'.ms[i].verified && !s.ms[i].verified ==>
                  ConfirmsMember(st, i) && s'.ms[i].tr.obs.address == st.a.detail)
  {
    assert Disciplined(s.ms[i], c.members[i]) && Coherent(s.ms[i]);
    hide Disciplined, NextRung, Satisfiable, Fail;
  }

  lemma {:induction false} ExecConfirms(c: Cohort, s: State, run: seq<Step>, i: nat)
    requires Inv(c, s) && Valid(c, true, s, run) && i < |s.ms|
    ensures |Exec(c, true, s, run).ms| == |s.ms|
    ensures var end := Exec(c, true, s, run).ms[i];
            && (s.ms[i].verified ==> end.verified && end.tr.obs == s.ms[i].tr.obs)
            && (end.verified && !s.ms[i].verified ==> ConfirmedAt(run, i, end.tr.obs.address))
    decreases |run|
  {
    if run != [] {
      StepConfirms(c, s, run[0], i);
      StepInv(c, true, s, run[0]);
      var s' := Next(c, true, s, run[0]);
      hide Next, Enabled, ConfirmsMember, Inv;
      ExecConfirms(c, s', run[1..], i);
      var address := Exec(c, true, s, run).ms[i].tr.obs.address;
      if ConfirmedAt(run[1..], i, address) {
        var k :| 0 <= k < |run[1..]| && ConfirmsMember(run[1..][k], i) && run[1..][k].a.detail == address;
        assert ConfirmsMember(run[k + 1], i) && run[k + 1].a.detail == address;
      }
    }
  }

  // A confirmed member's address is the one its ready answer gave.
  lemma AddressIsConfirmed(c: Cohort, run: seq<Step>, s: State, i: nat)
    requires Reaches(c, true, run, s) && i < |c.members|
    ensures |s.ms| == |c.members| && (s.ms[i].verified ==> ConfirmedAt(run, i, s.ms[i].tr.obs.address))
  {
    InitInv(c);
    ExecConfirms(c, Init(c), run, i);
    ReachedTrackers(c, true, run, s);
  }

  lemma ReachedTrackers(c: Cohort, e: bool, run: seq<Step>, s: State)
    requires Reaches(c, e, run, s)
    ensures |s.ms| == |c.members| == |Trackers(s)|
    ensures forall i :: 0 <= i < |c.members| ==>
              && Trackers(s)[i].Unlabelled() && Trackers(s)[i].intent.id == c.members[i].id
              && Trackers(s)[i].phase.Ord() <= 2
  {
    ReachedInv(c, e, run, s);
    forall i | 0 <= i < |s.ms|
      ensures s.ms[i].tr.Unlabelled() && s.ms[i].tr.intent.id == c.members[i].id && s.ms[i].tr.phase.Ord() <= 2
    {
      assert Disciplined(s.ms[i], c.members[i]) && Coherent(s.ms[i]) && SameEntity(s.ms[i], c.members[i]);
    }
  }

  // Outcome.Ready: the parent was live at the check, no fast-fail fired, at least
  // minViable members were confirmed ready, and a member's record says succeeded
  // exactly when that member was.
  lemma ReadyIsSound(c: Cohort, e: bool, hasAssembler: bool, run: seq<Step>, s: State, asm: seq<Observation> -> Option<string>)
    requires Waited(c, e, run, s) && Outcome(c, hasAssembler, s, asm).ready
    ensures s.parent == Live && !s.fired && VerifiedIn(s.ms) >= c.Need()
    ensures var done := Outcome(c, hasAssembler, s, asm).trackers;
            |done| == |s.ms| && forall i :: 0 <= i < |s.ms| ==> (BuildRecord(done[i], c.id).Succeeded() <==> s.ms[i].verified)
  {
    var mark := SettleMarks(c, hasAssembler, Trackers(s), s.culprit, s.parent, asm);
    GateSound(c, e, run, s);
    ReachedTrackers(c, e, run, s);
    hide Settle, Reaches;
    var done := MarkAll(Trackers(s), mark);
    forall i | 0 <= i < |s.ms| ensures BuildRecord(done[i], c.id).Succeeded() <==> s.ms[i].verified {
      assert Trackers(s)[i] == s.ms[i].tr;
    }
  }

  // In terms of the run: with an Enroller, the members of a ready cohort whose
  // records say succeeded are those that got a ready answer.
  lemma ReadyIsConfirmed(c: Cohort, hasAssembler: bool, run: seq<Step>, s: State, asm: seq<Observation> -> Option<string>)
    requires Waited(c, true, run, s) && Outcome(c, hasAssembler, s, asm).ready
    ensures var done := Outcome(c, hasAssembler, s, asm).trackers;
            |done| == |c.members|
            && forall i :: 0 <= i < |done| ==> (BuildRecord(done[i], c.id).Succeeded() <==> ConfirmedIn(run, i))
  {
    ReadyIsSound(c, true, hasAssembler, run, s, asm);
    ReachedTrackers(c, true, run, s);
    forall i | 0 <= i < |c.members| ensures s.ms[i].verified <==> ConfirmedIn(run, i) {
      VerifiedIffConfirmed(c, run, s, i);
    }
    hide Waited, Outcome, ConfirmedIn;
  }

  // Every record of every run claims exactly one outcome.
  lemma EveryRecordHasOneOutcome(c: Cohort, e: bool, hasAssembler: bool, run: seq<Step>, s: State,
                                 asm: seq<Observation> -> Option<string>)
    requires Waited(c, e, run, s)
    ensures var records := Records(Outcome(c, hasAssembler, s, asm).trackers, c.id);
            forall id :: id in records ==> records[id].Outcomes() == 1
  {
    ReachedTrackers(c, e, run, s);
    hide Reaches, Settle;
    ExactlyOneOutcome(c, hasAssembler, Trackers(s), s.culprit, s.parent, asm);
  }

  // And every member has one.
  lemma EveryMemberHasRecord(c: Cohort, e: bool, hasAssembler: bool, run: seq<Step>, s: State,
                             asm: seq<Observation> -> Option<string>, i: nat)
    requires Waited(c, e, run, s) && i < |c.members|
    ensures c.members[i].id in Records(Outcome(c, hasAssembler, s, asm).trackers, c.id)
  {
    ReachedTrackers(c, e, run, s);
    var mark := SettleMarks(c, hasAssembler, Trackers(s), s.culprit, s.parent, asm);
    hide Settle, Reaches;
    RecordsComplete(MarkAll(Trackers(s), mark), c.id);
    hide Records, BuildRecord;
    assert MarkAll(Trackers(s), mark)[i].intent.id == c.members[i].id;
  }

  // ---- the culprit ------------------------------------------------------------

  ghost predicate NamedMembers(c: Cohort) {
    forall i :: 0 <= i < |c.members| ==> c.members[i].id != ""
  }

  // How many failures the gate tolerates; the next one is to blame.
  function Tolerated(c: Cohort): nat {
    if c.Need() <= |c.members| then |c.members| - c.Need() else 0
  }

  ghost predicate OrderFine(s: State) {
    && (forall k :: 0 <= k < |s.order| ==> s.order[k] < |s.ms| && Counted(s.ms[s.order[k]]))
    && (forall j, k :: 0 <= j < k < |s.order| ==> s.order[j] != s.order[k])
  }

  // The recorded culprit is the first intolerable failure, as it ended.
  ghost predicate CulpritFine(c: Cohort, s: State) {
    && (s.named.None? ==> s.culprit == NO_CULPRIT && !s.fired)
    && (s.named.Some? ==>
          var k := s.named.value;
          && k < |s.ms| && k < |c.members| && Counted(s.ms[k]) && s.ms[k].tr.terminal.Some?
          && s.culprit == CulpritInfo(c.members[k].id, s.ms[k].tr.terminal.value, s.ms[k].tr.phase)
          && |s.order| > Tolerated(c) && s.order[Tolerated(c)] == k)
    && (HolderAt(s, Firing) ==> s.named.Some?)
  }

  // The member holding the mutex is at this point of the bookkeeping.
  predicate HolderAt(s: State, pc: Pc) {
    s.mu.Some? && s.mu.value < |s.ms| && s.ms[s.mu.value].pc == pc
  }

  // An unsatisfiable gate has a culprit, or one about to be recorded.
  ghost predicate BlameFine(c: Cohort, s: State) {
    && (HolderAt(s, Naming) ==>
          s.named.None? && |s.order| == Tolerated(c) + 1 && s.order[Tolerated(c)] == s.mu.value)
    && (s.failed > 0 && !Satisfiable(c, s.failed) && s.named.None? ==> HolderAt(s, Naming))
  }

  ghost predicate FullInv(c: Cohort, s: State) {
    Inv(c, s) && OrderFine(s) && CulpritFine(c, s) && BlameFine(c, s)
  }

  // A member that has been counted keeps its tracker.
  lemma CountedStays(c: Cohort, e: bool, s: State, st: Step, k: nat)
    requires MembersFine(c, s) && MutexFine(s) && Enabled(s, st) && k < |s.ms| && Counted(s.ms[k])
    ensures var s' := Next(c, e, s, st);
            |s'.ms| == |s.ms| && Counted(s'.ms[k]) && s'.ms[k].tr == s.ms[k].tr
  {
    assert Disciplined(s.ms[k], c.members[k]);
    hide AttemptShape, LaunchBudget, Climbable, OnCheck, OnCall, OnAnswer, Fits;
  }

  lemma StepOrderFine(c: Cohort, e: bool, s: State, st: Step)
    requires Inv(c, s) && OrderFine(s) && Enabled(s, st)
    ensures OrderFine(Next(c, e, s, st))
  {
    var s' := Next(c, e, s, st);
    forall k | 0 <= k < |s.order| ensures s.order[k] < |s'.ms| && Counted(s'.ms[s.order[k]]) {
      CountedStays(c, e, s, st, s.order[k]);
    }
    if st.Count? {
      assert s'.order == s.order + [st.i] && Counted(s'.ms[st.i]) && !Counted(s.ms[st.i]);
    } else {
      assert s'.order == s.order;
    }
    hide Next, Enabled, Inv, Counted;
  }

  // A step that neither names nor fires keeps what is recorded; a count may only
  // add to the order.
  lemma KeepsCulprit(c: Cohort, s: State, s': State)
    requires CulpritFine(c, s) && |s'.ms| == |s.ms|
    requires s.named.Some? && s.named.value < |s.ms| && Counted(s.ms[s.named.value]) ==>
               Counted(s'.ms[s.named.value]) && s'.ms[s.named.value].tr == s.ms[s.named.value].tr
    requires s'.named == s.named && s'.culprit == s.culprit && (s'.fired == s.fired || s.named.Some?)
    requires |s'.order| >= |s.order| && s'.order[..|s.order|] == s.order
    requires HolderAt(s', Firing) ==> HolderAt(s, Firing)
    ensures CulpritFine(c, s')
  {
    hide Counted, Tolerated, HolderAt;
    assert forall k :: 0 <= k < |s.order| ==> s'.order[k] == s'.order[..|s.order|][k];
  }

  // The member that names itself is the first intolerable failure.
  lemma NamingCulpritFine(c: Cohort, e: bool, s: State, i: nat)
    requires NamedMembers(c) && FullInv(c, s) && Enabled(s, Name(i))
    ensures CulpritFine(c, Next(c, e, s, Name(i)))
  {
    assert Disciplined(s.ms[i], c.members[i]) && SameEntity(s.ms[i], c.members[i]);
    assert UnderMutex(s.ms[i].pc) && s.mu == Some(i) && HolderAt(s, Naming);
    assert s.named.None? && |s.order| == Tolerated(c) + 1 && s.order[Tolerated(c)] == i;
    hide FullInv, NamedMembers, Disciplined, SameEntity, Tolerated, BlameFine;
  }

  lemma MoveCulpritFine(c: Cohort, s: State, i: nat, m': Member)
    requires CulpritFine(c, s) && i < |s.ms| && InLoop(s.ms[i].pc) && (InLoop(m'.pc) || m'.pc == Returned)
    ensures CulpritFine(c, With(s, i, m'))
  {
    assert s.order[..|s.order|] == s.order;
    hide Tolerated;
    KeepsCulprit(c, s, With(s, i, m'));
  }

  lemma LaterCulpritFine(c: Cohort, e: bool, s: State, st: Step)
    requires MutexFine(s) && CulpritFine(c, s) && Enabled(s, st)
    requires !st.Check? && !st.Call? && !st.Answer? && !st.Name?
    ensures CulpritFine(c, Next(c, e, s, st))
  {
    var s' := Next(c, e, s, st);
    assert s'.order[..|s.order|] == s.order;
    assert st.Fire? ==> HolderAt(s, Firing);
    hide Tolerated, Satisfiable, Err, MutexFine;
    KeepsCulprit(c, s, s');
  }

  lemma StepCulpritFine(c: Cohort, e: bool, s: State, st: Step)
    requires NamedMembers(c) && FullInv(c, s) && Enabled(s, st)
    ensures CulpritFine(c, Next(c, e, s, st))
  {
    if st.Name? {
      NamingCulpritFine(c, e, s, st.i);
    } else if st.Check? || st.Call? || st.Answer? {
      StepMoves(c, e, s, st);
      hide Next, CulpritFine;
      MoveCulpritFine(c, s, st.i, Next(c, e, s, st).ms[st.i]);
    } else {
      hide Next, CulpritFine;
      LaterCulpritFine(c, e, s, st);
    }
  }

  // A move of a goroutine is none of the bookkeeping's business.
  lemma MoveBlameFine(c: Cohort, s: State, i: nat, m': Member)
    requires FullInv(c, s) && i < |s.ms| && InLoop(s.ms[i].pc) && (InLoop(m'.pc) || m'.pc == Returned)
    ensures BlameFine(c, With(s, i, m'))
  {
    hide MembersFine, MutexFine, CountFine, ScopeFine, OrderFine, CulpritFine, Tolerated, Satisfiable;
  }

  lemma StepBlameFine(c: Cohort, e: bool, s: State, st: Step)
    requires NamedMembers(c) && FullInv(c, s) && Enabled(s, st)
    ensures BlameFine(c, Next(c, e, s, st))
  {
    if st.Check? || st.Call? || st.Answer? {
      StepMoves(c, e, s, st);
      hide Next, FullInv, BlameFine;
      MoveBlameFine(c, s, st.i, Next(c, e, s, st).ms[st.i]);
    } else if st.Count? {
      CountBlameFine(c, e, s, st.i);
    } else {
      LaterBlameFine(c, e, s, st);
    }
  }

  // Naming, what follows it, and the steps outside the mutex.
  lemma LaterBlameFine(c: Cohort, e: bool, s: State, st: Step)
    requires NamedMembers(c) && FullInv(c, s) && Enabled(s, st) && !st.Check? && !st.Call? && !st.Answer? && !st.Count?
    ensures BlameFine(c, Next(c, e, s, st))
  {
    hide MembersFine, CountFine, CountedIn, ScopeFine, OrderFine, Counted, Tolerated, Satisfiable;
  }

  // The count that makes the gate unsatisfiable sends its member on to be named.
  lemma CountBlameFine(c: Cohort, e: bool, s: State, i: nat)
    requires NamedMembers(c) && FullInv(c, s) && Enabled(s, Count(i))
    ensures BlameFine(c, Next(c, e, s, Count(i)))
  {
    hide MembersFine, MutexFine, CountedIn, ScopeFine, OrderFine, Counted;
  }

  lemma {:induction false} ExecFullInv(c: Cohort, e: bool, s: State, run: seq<Step>)
    requires NamedMembers(c) && FullInv(c, s) && Valid(c, e, s, run)
    ensures FullInv(c, Exec(c, e, s, run))
    decreases |run|
  {
    if run != [] {
      StepInv(c, e, s, run[0]);
      StepOrderFine(c, e, s, run[0]);
      StepCulpritFine(c, e, s, run[0]);
      StepBlameFine(c, e, s, run[0]);
      ExecFullInv(c, e, Next(c, e, s, run[0]), run[1..]);
    }
  }

  lemma ReachedFullInv(c: Cohort, e: bool, run: seq<Step>, s: State)
    requires NamedMembers(c) && Reaches(c, e, run, s)
    ensures FullInv(c, s)
  {
    InitInv(c);
    ExecFullInv(c, e, Init(c), run);
  }

  // In every state of every run: once a cancel that did not come from the caller
  // is visible, the culprit has been written, and it is the member whose failure
  // was the first that the gate could not tolerate.
  lemma CulpritBeforeCancel(c: Cohort, e: bool, run: seq<Step>, s: State)
    requires NamedMembers(c) && Reaches(c, e, run, s)
    ensures s.scope != Live && s.parent == Live ==> s.culprit.id != ""
    ensures s.culprit.id != "" ==>
              && s.named.Some? && |s.order| > Tolerated(c) && s.order[Tolerated(c)] == s.named.value < |c.members|
              && s.culprit.id == c.members[s.named.value].id
    ensures forall j, k :: 0 <= j < k < |s.order| ==> s.order[j] != s.order[k]
  {
    ReachedFullInv(c, e, run, s);
  }

  // Who has been named fires, and a fired cancel is seen.
  ghost predicate FireFine(s: State) {
    (s.named.Some? ==> s.fired || HolderAt(s, Firing)) && (s.fired ==> s.scope != Live)
  }

  lemma StepFireFine(c: Cohort, e: bool, s: State, st: Step)
    requires MembersFine(c, s) && MutexFine(s) && FireFine(s) && Enabled(s, st)
    ensures FireFine(Next(c, e, s, st))
  {
    if !st.ParentDone? {
      StepLocks(c, e, s, st);
      if st.Check? || st.Call? || st.Answer? {
        StepMoves(c, e, s, st);
      }
    }
    hide MembersFine, OnCheck, OnCall, OnAnswer, Fits, Satisfiable, Err;
  }

  lemma {:induction false} ExecFireFine(c: Cohort, e: bool, s: State, run: seq<Step>)
    requires Inv(c, s) && FireFine(s) && Valid(c, e, s, run)
    ensures FireFine(Exec(c, e, s, run))
    decreases |run|
  {
    if run != [] {
      StepInv(c, e, s, run[0]);
      StepFireFine(c, e, s, run[0]);
      hide Next, Inv, FireFine, Enabled;
      ExecFireFine(c, e, Next(c, e, s, run[0]), run[1..]);
    }
  }

  // In every state of every run with nobody at the books: once so many failures have
  // been counted that too few members are left for the gate, the cancel is out.
  lemma HopelessIsCancelled(c: Cohort, e: bool, run: seq<Step>, s: State)
    requires NamedMembers(c) && Reaches(c, e, run, s) && s.mu.None? && s.failed > 0
    requires |c.members| - s.failed < if c.minViable == 0 then |c.members| else c.minViable
    ensures s.fired && s.scope != Live && s.culprit.id != ""
  {
    ReachedFullInv(c, e, run, s);
    InitInv(c);
    ExecFireFine(c, e, Init(c), run);
  }

  // All cohort-cancelled records name one culprit, and that member's own record
  // is terminal with the fault and phase they name.
  lemma CulpritAgreement(c: Cohort, e: bool, hasAssembler: bool, run: seq<Step>, s: State,
                         asm: seq<Observation> -> Option<string>, id: EntityID)
    requires NamedMembers(c) && (forall i, j :: 0 <= i < j < |c.members| ==> c.members[i].id != c.members[j].id)
    requires Waited(c, e, run, s)
    requires var records := Records(Outcome(c, hasAssembler, s, asm).trackers, c.id);
             id in records && records[id].WasCohortCancelled()
    ensures var records := Records(Outcome(c, hasAssembler, s, asm).trackers, c.id);
            var blamed := records[id].cohortCancelled.value.culprit;
            && blamed == s.culprit && blamed.id != "" && blamed.id != id && blamed.id in records
            && records[blamed.id].terminal == Some(blamed.fault)
            && records[blamed.id].reachedPhase == blamed.phase
  {
    ReachedFullInv(c, e, run, s);
    ReachedTrackers(c, e, run, s);
    var mark := SettleMarks(c, hasAssembler, Trackers(s), s.culprit, s.parent, asm);
    hide Inv, OrderFine, BlameFine, Counted, Reaches;
    NoBlameNoCancel(Trackers(s), mark, c.id, id);
    BlamedRecord(c, hasAssembler, Trackers(s), s.culprit, s.parent, asm, s.named.value, id);
  }

  lemma NoBlameNoCancel(trs: seq<Tracker>, mark: Mark, cohort: string, id: EntityID)
    requires forall i :: 0 <= i < |trs| ==> trs[i].Unlabelled()
    requires id in Records(MarkAll(trs, mark), cohort) && Records(MarkAll(trs, mark), cohort)[id].WasCohortCancelled()
    ensures mark.BlameCulprit?
  {
    RecordsComplete(MarkAll(trs, mark), cohort);
  }

  // ---- the defensive fallback ---------------------------------------------------

  // With a satisfiable minViable and named members, a gate that fails under a
  // live parent always has a recorded culprit.
  lemma FallbackUnreachable(c: Cohort, e: bool, run: seq<Step>, s: State)
    requires NamedMembers(c) && c.Need() <= |c.members| && Waited(c, e, run, s)
    ensures !TakesFallback(c, Trackers(s), s.culprit, s.parent)
  {
    ReachedFullInv(c, e, run, s);
    if s.parent == Live && s.culprit.id == "" {
      forall i | 0 <= i < |s.ms| ensures Coherent(s.ms[i]) {
        assert Disciplined(s.ms[i], c.members[i]);
      }
      hide Disciplined, Coherent;
      assert s.named.None?;
      EnrolledPlusCounted(s.ms);
      assert TrackersOf(s.ms) == Trackers(s);
    }
  }
}

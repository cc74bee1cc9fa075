// The reconciler's barrier and the MPI Assembler put together.

module MpiCohort {
  import opened Options
  import opened CohortTypes
  import opened StringOrder
  import opened MemberSteps
  import opened CohortMachine
  import opened CohortSettle
  import opened CohortTheorems
  import opened CohortPromptness
  import opened MpiAssembler

  // The Assembler as the reconciler sees it: an error text, or none. The texts
  // are not distinguished here.
  function AssembleAnswer(sort: seq<Seat> -> seq<Seat>, publisher: Publisher): seq<Observation> -> Option<string> {
    (members: seq<Observation>) =>
      if members != [] && AllAddressed(Seats(members)) && Accepts(publisher, PublicationOf(sort(Seats(members))))
      then None
      else Some("assembly failed")
  }

  // AssembleAnswer is what Assemble returns, and on success it published once.
  method AssembleForReconciler(members: seq<Observation>, sort: seq<Seat> -> seq<Seat>, publisher: Publisher)
    returns (answer: Option<string>, published: seq<Publication>)
    requires IsSort(sort)
    ensures answer == AssembleAnswer(sort, publisher)(members)
    ensures answer.None? ==> published == [PublicationOf(sort(Seats(members)))]
  {
    hide ManifestKey, ManifestOf, Seats;
    var err, out := Assemble(members, sort, Some(publisher));
    answer, published := if err.None? then None else Some("assembly failed"), out;
  }

  // Assembly runs at most once, and only behind a sound gate: never after a
  // fast-fail, a parent cancel or a failed gate.
  lemma AssembledOnlyBehindGate(c: Cohort, e: bool, hasAssembler: bool, run: seq<Step>, s: State,
                                asm: seq<Observation> -> Option<string>)
    requires Waited(c, e, run, s)
    ensures var r := Outcome(c, hasAssembler, s, asm);
            && |r.assembled| <= 1
            && (r.assembled != [] ==>
                  hasAssembler && c.IsCollective() && s.parent == Live && !s.fired && VerifiedIn(s.ms) >= c.Need())
            && (r.ready && hasAssembler && c.IsCollective() ==> |r.assembled| == 1 && asm(r.assembled[0]).None?)
  {
    if s.parent == Live && GateMet(c, Trackers(s)) {
      GateSound(c, e, run, s);
    }
    hide Reaches;
  }

  // In an all-or-nothing cohort that comes out ready, everybody was assembled.
  lemma EveryoneAssembled(c: Cohort, e: bool, run: seq<Step>, s: State, asm: seq<Observation> -> Option<string>)
    requires Waited(c, e, run, s) && c.Need() == |c.members| && c.IsCollective()
    requires Outcome(c, true, s, asm).ready
    ensures var r := Outcome(c, true, s, asm);
            && |r.assembled| == 1 && |r.assembled[0]| == |c.members| == |s.ms|
            && forall i :: 0 <= i < |c.members| ==> r.assembled[0][i] == s.ms[i].tr.obs && s.ms[i].tr.phase == PhaseEnrolled
  {
    ReachedInv(c, e, run, s);
    ReachedTrackers(c, e, run, s);
    GateSound(c, e, run, s);
    AssembledOnlyBehindGate(c, e, true, run, s, asm);
    AllOrNothing(Trackers(s));
    forall i | 0 <= i < |c.members| ensures s.ms[i].tr.enrolled && s.ms[i].tr.phase == PhaseEnrolled {
      assert Trackers(s)[i].enrolled;
      assert Disciplined(s.ms[i], c.members[i]);
      EnrolledPhase(s.ms[i], c.members[i]);
    }
    hide Reaches, Inv;
  }

  lemma EnrolledPhase(m: Member, intent: EntityIntent)
    requires Disciplined(m, intent) && m.tr.enrolled
    ensures m.tr.phase == PhaseEnrolled
  {
  }

  lemma {:induction false} AllOrNothing(trs: seq<Tracker>)
    ensures EnrolledIn(trs) <= |trs|
    ensures EnrolledIn(trs) >= |trs| ==>
              && |EnrolledObs(trs)| == |trs|
              && forall i :: 0 <= i < |trs| ==> trs[i].enrolled && EnrolledObs(trs)[i] == trs[i].obs
  {
    if trs != [] {
      AllOrNothing(trs[1..]);
    }
  }

  // End to end: a collective all-or-nothing cohort of distinct ids comes out
  // ready only with one accepted publication of a complete manifest: one peer
  // per member, ranks in strictly increasing id order, no blank address. The
  // ports are taken to report each member under its own id.
  lemma ReadyMpiCohortIsPublished(c: Cohort, e: bool, run: seq<Step>, s: State, sort: seq<Seat> -> seq<Seat>, publisher: Publisher)
    requires IsSort(sort)
    requires Waited(c, e, run, s) && c.Need() == |c.members| && c.IsCollective()
    requires forall i, j :: 0 <= i < j < |c.members| ==> c.members[i].id != c.members[j].id
    requires forall k :: 0 <= k < |run| ==> ReportsUnderOwnID(c, run[k])
    requires Outcome(c, true, s, AssembleAnswer(sort, publisher)).ready
    ensures |s.ms| == |c.members|
    ensures var assembled := Outcome(c, true, s, AssembleAnswer(sort, publisher)).assembled;
            && |assembled| == 1 && TellsOf(PublicationOf(sort(Seats(assembled[0]))), assembled[0])
            && Accepts(publisher, PublicationOf(sort(Seats(assembled[0]))))
            && var m := PublicationOf(sort(Seats(assembled[0]))).manifest;
            && |m.peers| == |c.members|
            && (forall r :: 0 <= r < |m.peers| ==> m.peers[r].rank == r && m.peers[r].address != "")
            && (forall q, r :: 0 <= q < r < |m.peers| ==> Before(m.peers[q].entity, m.peers[r].entity))
            && (forall i :: 0 <= i < |c.members| ==> exists r :: 0 <= r < |m.peers| && m.peers[r].entity == c.members[i].id)
  {
    hide ManifestKey, ManifestOf;
    var asm := AssembleAnswer(sort, publisher);
    EveryoneAssembled(c, e, run, s, asm);
    AssembledOnlyBehindGate(c, e, true, run, s, asm);
    OwnIDs(c, e, run, s);
    var members := Outcome(c, true, s, asm).assembled[0];
    assert Ranking(Seats(members), sort(Seats(members)));
    hide Settle, Waited, Outcome, ReportsUnderOwnID, IsSort, Ordered;
    assert forall i :: 0 <= i < |members| ==> members[i].id == c.members[i].id;
    CompleteManifest(c, members, sort(Seats(members)));
    hide TellsOf;
    PublicationTells(members, sort(Seats(members)));
  }

  // And each peer's address is the one its own member last had, with an Enroller
  // the one its ready answer in the run gave.
  lemma PeersAtOwnAddresses(c: Cohort, e: bool, run: seq<Step>, s: State, sort: seq<Seat> -> seq<Seat>, publisher: Publisher,
                            i: nat, r: nat)
    requires IsSort(sort)
    requires Waited(c, e, run, s) && c.Need() == |c.members| && c.IsCollective()
    requires forall i, j :: 0 <= i < j < |c.members| ==> c.members[i].id != c.members[j].id
    requires forall k :: 0 <= k < |run| ==> ReportsUnderOwnID(c, run[k])
    requires Outcome(c, true, s, AssembleAnswer(sort, publisher)).ready && i < |c.members|
    ensures |s.ms| == |c.members|
    ensures var assembled := Outcome(c, true, s, AssembleAnswer(sort, publisher)).assembled;
            && |assembled| == 1
            && var peers := PublicationOf(sort(Seats(assembled[0]))).manifest.peers;
               (r < |peers| && peers[r].entity == c.members[i].id ==>
                  peers[r].address == s.ms[i].tr.obs.address && (e ==> ConfirmedAt(run, i, peers[r].address)))
  {
    var asm := AssembleAnswer(sort, publisher);
    ReadyMpiCohortIsPublished(c, e, run, s, sort, publisher);
    EveryoneAssembled(c, e, run, s, asm);
    OwnIDs(c, e, run, s);
    if e {
      EveryoneConfirmed(c, run, s, asm, i);
    }
    var members := Outcome(c, true, s, asm).assembled[0];
    assert forall j :: 0 <= j < |members| ==> members[j].id == c.members[j].id;
    hide TellsOf, PublicationOf, AssembleAnswer, Settle, Waited, Outcome, ReportsUnderOwnID, IsSort, Before, ConfirmedAt;
    var pub := PublicationOf(sort(Seats(members)));
    if r < |pub.manifest.peers| && pub.manifest.peers[r].entity == c.members[i].id {
      PeerAtOwnAddress(pub, members, r, i);
    }
  }

  lemma EveryoneConfirmed(c: Cohort, run: seq<Step>, s: State, asm: seq<Observation> -> Option<string>, i: nat)
    requires Waited(c, true, run, s) && c.Need() == |c.members| && c.IsCollective() && i < |c.members|
    requires Outcome(c, true, s, asm).ready
    ensures |s.ms| == |c.members| && ConfirmedAt(run, i, s.ms[i].tr.obs.address)
  {
    EveryoneAssembled(c, true, run, s, asm);
    AssembledOnlyBehindGate(c, true, true, run, s, asm);
    ReachedTrackers(c, true, run, s);
    GateSound(c, true, run, s);
    AddressIsConfirmed(c, run, s, i);
    AllOrNothing(Trackers(s));
    assert Trackers(s)[i].enrolled;
    hide Reaches, Settle;
  }

  // The manifest of addressed members that stand for the cohort's, one for one.
  lemma CompleteManifest(c: Cohort, members: seq<Observation>, ordered: seq<Seat>)
    requires |members| == |c.members| && forall i :: 0 <= i < |members| ==> members[i].id == c.members[i].id
    requires forall i, j :: 0 <= i < j < |c.members| ==> c.members[i].id != c.members[j].id
    requires AllAddressed(Seats(members)) && Ranking(Seats(members), ordered)
    ensures var m := PublicationOf(ordered).manifest;
            && |m.peers| == |c.members|
            && (forall r :: 0 <= r < |m.peers| ==> m.peers[r].rank == r && m.peers[r].address != "")
            && (forall q, r :: 0 <= q < r < |m.peers| ==> Before(m.peers[q].entity, m.peers[r].entity))
            && (forall i :: 0 <= i < |c.members| ==> exists r :: 0 <= r < |m.peers| && m.peers[r].entity == c.members[i].id)
  {
    hide ManifestKey, Before;
    var seats := Seats(members);
    RanksAreDistinct(seats, ordered);
    MultisetFacts(seats, ordered);
    var m := PublicationOf(ordered).manifest;
    assert AllAddressed(ordered) && forall r :: 0 <= r < |m.peers| ==> m.peers[r] == Peer(r, ordered[r].entity, ordered[r].address);
    forall i | 0 <= i < |c.members| ensures exists r :: 0 <= r < |m.peers| && m.peers[r].entity == c.members[i].id {
      assert seats[i].entity == c.members[i].id;
      var r :| 0 <= r < |ordered| && ordered[r] == seats[i];
      assert m.peers[r].entity == c.members[i].id;
    }
  }

  predicate ReportsUnderOwnID(c: Cohort, st: Step) {
    ReportsWell(st, (i: nat, id: EntityID, providerID: string) => i < |c.members| ==> id == c.members[i].id)
  }

  lemma OwnIDs(c: Cohort, e: bool, run: seq<Step>, s: State)
    requires Reaches(c, e, run, s) && forall k :: 0 <= k < |run| ==> ReportsUnderOwnID(c, run[k])
    ensures |s.ms| == |c.members|
    ensures forall i :: 0 <= i < |c.members| && s.ms[i].tr.phase != PhaseLaunchAcked ==> s.ms[i].tr.obs.id == c.members[i].id
  {
    ReachedTrackers(c, e, run, s);
    var good := (i: nat, id: EntityID, providerID: string) => i < |c.members| ==> id == c.members[i].id;
    forall k | 0 <= k < |run| ensures ReportsWell(run[k], good) {
      assert ReportsUnderOwnID(c, run[k]);
    }
    assert ObsGood(Init(c), good);
    ExecObsGood(c, e, Init(c), run, good);
  }
}

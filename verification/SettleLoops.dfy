// The tail of Reconcile as the source writes it: loops over the tracker objects,
// which label them in place, proved to compute what CohortSettle describes.

module SettleLoops {
  import opened Options
  import opened CohortTypes
  import opened CohortSettle
  import opened EntityLoops

  ghost predicate DistinctObjects(trs: seq<EntityTracker>) {
    forall i, j :: 0 <= i < j < |trs| ==> trs[i] != trs[j]
  }

  ghost function States(trs: seq<EntityTracker>): seq<Tracker>
    reads trs
  {
    seq(|trs|, i requires 0 <= i < |trs| reads trs => trs[i].State())
  }

  // Terminate each id once, past errors; the last error is returned.
  method Drain(ids: seq<EntityID>, fails: EntityID -> bool) returns (calls: seq<EntityID>, lastErr: Option<EntityID>)
    ensures calls == ids
    ensures lastErr.None? <==> forall i :: 0 <= i < |ids| ==> !fails(ids[i])
    ensures lastErr.Some? ==> exists i :: 0 <= i < |ids| && ids[i] == lastErr.value && fails(ids[i])
                                          && forall j :: i < j < |ids| ==> !fails(ids[j])
  {
    calls, lastErr := [], None;
    for k := 0 to |ids|
      invariant calls == ids[..k]
      invariant lastErr.None? <==> forall i :: 0 <= i < k ==> !fails(ids[i])
      invariant lastErr.Some? ==> exists i :: 0 <= i < k && ids[i] == lastErr.value && fails(ids[i])
                                              && forall j :: i < j < k ==> !fails(ids[j])
    {
      calls := calls + [ids[k]];
      if fails(ids[k]) {
        lastErr := Some(ids[k]);
      }
    }
  }

  lemma SurvivorsAppend(trs: seq<Tracker>, t: Tracker)
    ensures Survivors(trs + [t]) == Survivors(trs) + if Survives(t) then [t.intent.id] else []
  {
    if trs != [] {
      SurvivorsAppend(trs[1..], t);
      assert (trs + [t])[1..] == trs[1..] + [t];
    }
  }

  method CollectSurvivors(trs: seq<EntityTracker>) returns (surviving: seq<EntityID>)
    ensures surviving == Survivors(States(trs))
  {
    surviving := [];
    for i := 0 to |trs|
      invariant surviving == Survivors(States(trs)[..i])
    {
      assert States(trs)[..i + 1] == States(trs)[..i] + [trs[i].State()];
      SurvivorsAppend(States(trs)[..i], trs[i].State());
      if trs[i].terminal.None? && trs[i].obs.providerID != "" {
        surviving := surviving + [trs[i].intent.id];
      }
    }
    assert States(trs)[..|trs|] == States(trs);
  }

  // Enrolled members and their observations.
  method CollectEnrolled(trs: seq<EntityTracker>) returns (count: nat, members: seq<Observation>)
    ensures count == EnrolledIn(States(trs)) && members == EnrolledObs(States(trs))
  {
    count, members := 0, [];
    for i := 0 to |trs|
      invariant count == EnrolledIn(States(trs)[..i]) && members == EnrolledObs(States(trs)[..i])
    {
      assert States(trs)[..i + 1] == States(trs)[..i] + [trs[i].State()];
      EnrolledAppend(States(trs)[..i], trs[i].State());
      if trs[i].enrolled {
        count, members := count + 1, members + [trs[i].obs];
      }
    }
    assert States(trs)[..|trs|] == States(trs);
  }

  // The labelling loops: every member that has not failed gets the mark.
  method Label(trs: seq<EntityTracker>, mark: Mark)
    requires DistinctObjects(trs)
    modifies trs
    ensures States(trs) == MarkAll(old(States(trs)), mark)
  {
    for i := 0 to |trs|
      invariant forall j :: 0 <= j < i ==> trs[j].State() == Marked(old(trs[j].State()), mark)
      invariant forall j :: i <= j < |trs| ==> trs[j].State() == old(trs[j].State())
    {
      var tr := trs[i];
      if tr.terminal.Some? {
        continue;
      }
      match mark {
        case ParentGone(err) => tr.SetParentCancelled(err);
        case BlameCulprit(culprit) => tr.SetCohortCancelled(culprit);
        case FailAll(phase, fault) => tr.SetTerminal(phase, fault);
        case MakeReady => tr.phase := PhaseReady;
      }
    }
  }

  method CollectRecords(trs: seq<EntityTracker>, cohort: string) returns (records: map<EntityID, Record>)
    ensures records == Records(States(trs), cohort)
  {
    records := map[];
    for i := 0 to |trs|
      invariant records == Records(States(trs)[..i], cohort)
    {
      assert States(trs)[..i + 1][..i] == States(trs)[..i];
      records := records[trs[i].intent.id := BuildRecord(trs[i].State(), cohort)];
    }
    assert States(trs)[..|trs|] == States(trs);
  }

  method Conclude(c: Cohort, hasAssembler: bool, trs: seq<EntityTracker>, culprit: CulpritInfo, parent: CtxErr,
                  asm: seq<Observation> -> Option<string>, terminateFails: EntityID -> bool)
    returns (ready: bool, records: map<EntityID, Record>, drained: seq<EntityID>, assembled: seq<seq<Observation>>)
    requires DistinctObjects(trs)
    modifies trs
    ensures var r := Settle(c, hasAssembler, old(States(trs)), culprit, parent, asm);
            && States(trs) == r.trackers && ready == r.ready && drained == r.drained && assembled == r.assembled
            && records == Records(r.trackers, c.id)
  {
    drained, assembled, ready := [], [], false;
    if parent != Live {
      var surviving := CollectSurvivors(trs);
      if |surviving| > 0 {
        var calls, _ := Drain(surviving, terminateFails);
        drained := calls;
      }
      Label(trs, ParentGone(parent));
      records := CollectRecords(trs, c.id);
      return;
    }
    var enrolledCount, members := CollectEnrolled(trs);
    if enrolledCount < c.Need() {
      var surviving := CollectSurvivors(trs);
      if |surviving| > 0 {
        var calls, _ := Drain(surviving, terminateFails);
        drained := calls;
      }
      Label(trs, if culprit.id != "" then BlameCulprit(culprit) else ParentGone(Canceled));
      records := CollectRecords(trs, c.id);
      return;
    }
    if c.noAssembly && hasAssembler {
      Label(trs, DISALLOWED);
      records := CollectRecords(trs, c.id);
      return;
    }
    if c.IsCollective() && hasAssembler {
      assembled := [members];
      var error := asm(members);
      if error.Some? {
        Label(trs, AssemblyFailure(error.value));
        records := CollectRecords(trs, c.id);
        return;
      }
    }
    Label(trs, MakeReady);
    records := CollectRecords(trs, c.id);
    ready := true;
  }
}

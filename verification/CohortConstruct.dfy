// The validating cohort constructors, and the shapes resume builds with them.

module CohortConstruct {
  import opened Options
  import opened CohortTypes
  import opened CohortSettle
  import opened CohortTheorems

  datatype Refusal = NoMembers | MinViableOutOfRange | AssemblyUnsupported | BadIntent(id: EntityID) | AssemblerMissing

  datatype Built = Built(cohort: Cohort) | Rejected(why: Refusal)

  predicate ValidRung(r: Rung) {
    r.instanceType != ""
  }

  predicate ValidIntent(m: EntityIntent) {
    m.id != "" && ValidRung(m.rung) && forall i :: 0 <= i < |m.fallbackChain| ==> ValidRung(m.fallbackChain[i])
  }

  // The first invalid intent, if any.
  function FirstBad(members: seq<EntityIntent>): (bad: Option<EntityIntent>)
    ensures bad.None? <==> forall i :: 0 <= i < |members| ==> ValidIntent(members[i])
    ensures bad.Some? ==> exists i :: 0 <= i < |members| && members[i] == bad.value && !ValidIntent(bad.value)
                                      && forall j :: 0 <= j < i ==> ValidIntent(members[j])
  {
    if members == [] then None
    else if !ValidIntent(members[0]) then Some(members[0])
    else
      var bad := FirstBad(members[1..]);
      assert forall i :: 0 < i < |members| ==> members[i] == members[1..][i - 1];
      assert bad.Some? ==> exists i :: 0 <= i < |members| && members[i] == bad.value
                                       && forall j :: 0 <= j < i ==> ValidIntent(members[j]) by {
        if bad.Some? {
          var i :| 0 <= i < |members[1..]| && members[1..][i] == bad.value
                   && forall j :: 0 <= j < i ==> ValidIntent(members[1..][j]);
          assert members[i + 1] == bad.value;
        }
      }
      bad
  }

  function NewSerialCohort(id: string, member: EntityIntent): Built {
    if !ValidIntent(member) then Rejected(BadIntent(member.id)) else Built(Cohort(id, [member], 1, false))
  }

  function NewMPICohort(id: string, members: seq<EntityIntent>): Built {
    if members == [] then Rejected(NoMembers)
    else
      var bad := FirstBad(members);
      if bad.Some? then Rejected(BadIntent(bad.value.id)) else Built(Cohort(id, members, |members|, false))
  }

  function NewPartialCohort(id: string, members: seq<EntityIntent>, minViable: int, hasAssembler: bool): Built {
    if members == [] then Rejected(NoMembers)
    else if minViable <= 0 || minViable > |members| then Rejected(MinViableOutOfRange)
    else if hasAssembler then Rejected(AssemblyUnsupported)
    else
      var bad := FirstBad(members);
      if bad.Some? then Rejected(BadIntent(bad.value.id)) else Built(Cohort(id, members, minViable, true))
  }

  // buildCohort: the cohort, and whether the reconcile gets the Assembler.
  function BuildCohort(id: string, intents: seq<EntityIntent>, collective: bool, assemblerConfigured: bool): (Built, bool)
  {
    if |intents| == 1 then (NewSerialCohort(id, intents[0]), false)
    else if collective then
      if !assemblerConfigured then (Rejected(AssemblerMissing), false) else (NewMPICohort(id, intents), true)
    else (NewPartialCohort(id, intents, |intents|, false), false)
  }

  // What the reconciler's theorems ask of a cohort.
  ghost predicate Sane(c: Cohort) {
    NamedMembers(c) && 1 <= c.Need() <= |c.members|
  }

  // A constructor accepts exactly the valid requests, and what it accepts meets
  // the reconciler's preconditions; distinct ids are not among its checks.
  lemma ConstructorsAccept(id: string, members: seq<EntityIntent>, minViable: int, hasAssembler: bool)
    ensures var ok := members != [] && forall i :: 0 <= i < |members| ==> ValidIntent(members[i]);
            && (NewMPICohort(id, members).Built? <==> ok)
            && (NewPartialCohort(id, members, minViable, hasAssembler).Built? <==>
                  ok && 1 <= minViable <= |members| && !hasAssembler)
    ensures var b := NewMPICohort(id, members);
            b.Built? ==> Sane(b.cohort) && b.cohort.Need() == |members| && b.cohort.members == members
    ensures var b := NewPartialCohort(id, members, minViable, hasAssembler);
            b.Built? ==> Sane(b.cohort) && b.cohort.Need() == minViable && b.cohort.noAssembly
    ensures forall m: EntityIntent :: NewSerialCohort(id, m).Built? ==> Sane(NewSerialCohort(id, m).cohort)
    ensures forall m: EntityIntent :: NewSerialCohort(id, m).Built? <==> ValidIntent(m)
  {
    var bad := FirstBad(members);
    if bad.None? {
      assert forall i :: 0 <= i < |members| ==> members[i].id != "";
    }
  }

  // The reconciler can launch every entity of an accepted cohort on every rung it may
  // come to: they have ids, and their rungs instance types.
  lemma AcceptedAreLaunchable(id: string, members: seq<EntityIntent>)
    ensures NewMPICohort(id, members).Built? <==>
              members != [] && forall i :: 0 <= i < |members| ==>
                members[i].id != "" && members[i].rung.instanceType != ""
                && forall r :: r in members[i].fallbackChain ==> r.instanceType != ""
  {
    ConstructorsAccept(id, members, |members|, false);
    forall i | 0 <= i < |members|
      ensures ValidIntent(members[i]) <==>
                members[i].id != "" && members[i].rung.instanceType != ""
                && forall r :: r in members[i].fallbackChain ==> r.instanceType != ""
    {
      var chain := members[i].fallbackChain;
      assert forall k :: 0 <= k < |chain| ==> chain[k] in chain;
    }
  }

  // What is refused, and why: no members first, then minViable out of range, then an
  // Assembler for a partial cohort, then the first intent that is not valid.
  lemma RefusedFor(id: string, members: seq<EntityIntent>, minViable: int, hasAssembler: bool)
    ensures var whole, part := NewMPICohort(id, members), NewPartialCohort(id, members, minViable, hasAssembler);
            && (whole == Rejected(NoMembers) <==> members == [])
            && (part == Rejected(NoMembers) <==> members == [])
            && (part == Rejected(MinViableOutOfRange) <==> members != [] && !(1 <= minViable <= |members|))
            && (part == Rejected(AssemblyUnsupported) <==> members != [] && 1 <= minViable <= |members| && hasAssembler)
            && (forall i :: 0 <= i < |members| && !ValidIntent(members[i]) && (forall j :: 0 <= j < i ==> ValidIntent(members[j])) ==>
                  && whole == Rejected(BadIntent(members[i].id))
                  && (1 <= minViable <= |members| && !hasAssembler ==> part == Rejected(BadIntent(members[i].id))))
            && (whole.Built? ==> whole.cohort == Cohort(id, members, |members|, false))
            && (part.Built? ==> part.cohort == Cohort(id, members, minViable, true))
    ensures forall m: EntityIntent ::
              NewSerialCohort(id, m) == if ValidIntent(m) then Built(Cohort(id, [m], 1, false)) else Rejected(BadIntent(m.id))
  {
    var bad := FirstBad(members);
    hide ValidIntent;
  }

  // Which shape resume builds: alone without an Assembler, whatever the partition; a
  // collective partition with one, or not at all when none is configured; else a
  // partial cohort of which every member is needed, without one.
  lemma ShapeIs(id: string, intents: seq<EntityIntent>, collective: bool, assemblerConfigured: bool)
    requires intents != [] && forall i :: 0 <= i < |intents| ==> ValidIntent(intents[i])
    ensures var (b, hasAssembler) := BuildCohort(id, intents, collective, assemblerConfigured);
            if |intents| == 1 then b == Built(Cohort(id, intents, 1, false)) && !hasAssembler
            else if collective && assemblerConfigured then b == Built(Cohort(id, intents, |intents|, false)) && hasAssembler
            else if collective then b == Rejected(AssemblerMissing) && !hasAssembler
            else b == Built(Cohort(id, intents, |intents|, true)) && !hasAssembler
  {
    RefusedFor(id, intents, |intents|, false);
    ConstructorsAccept(id, intents, |intents|, false);
    if |intents| == 1 {
      assert intents == [intents[0]];
    }
    hide ValidIntent;
  }

  // Every cohort resume reconciles needs all its members, never reaches the
  // defensive fallback label, and never trips the assembly-disallowed refusal.
  lemma ResumeCohortsAreSafe(id: string, intents: seq<EntityIntent>, collective: bool, assemblerConfigured: bool)
    requires intents != [] && BuildCohort(id, intents, collective, assemblerConfigured).0.Built?
    ensures var (b, hasAssembler) := BuildCohort(id, intents, collective, assemblerConfigured);
            var c := b.cohort;
            && c.members == intents && c.Need() == |intents|
            && !(c.noAssembly && hasAssembler) && (hasAssembler ==> c.IsCollective() && collective)
            && (forall e, run, s :: Waited(c, e, run, s) ==> !TakesFallback(c, Trackers(s), s.culprit, s.parent))
  {
    var (b, hasAssembler) := BuildCohort(id, intents, collective, assemblerConfigured);
    ConstructorsAccept(id, intents, |intents|, false);
    if |intents| == 1 {
      assert intents == [intents[0]];
    }
    forall e, run, s | Waited(b.cohort, e, run, s)
      ensures !TakesFallback(b.cohort, Trackers(s), s.culprit, s.parent)
    {
      FallbackUnreachable(b.cohort, e, run, s);
    }
  }
}

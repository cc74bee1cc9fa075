// Which instances the generation sweeper reaps, and which ones its by-name
// terminations hit.

module SweepRules {
  import opened Options
  import opened CohortTypes

  type Time = int

  // EC2's own state names; only the two that mean "going away" matter here.
  datatype InstanceState = ShuttingDown | Terminated | OtherState(name: string)

  // Empty tags are unset; a zero launch time was not reported.
  datatype Instance = Instance(providerID: string, state: InstanceState, generation: string, entity: EntityID, launchTime: Time)

  datatype Reason = AlreadyTerminating | NoGeneration | CurrentGeneration | WithinGrace | NoEntityTag | Stale

  predicate IsTerminating(s: InstanceState) {
    s.ShuttingDown? || s.Terminated?
  }

  predicate IsWithinGrace(launch: Time, grace: int, now: Time) {
    launch == 0 || now - launch <= grace
  }

  // A reap needs every one of these.
  predicate Reapable(inst: Instance, current: string, grace: int, now: Time) {
    && inst.generation != "" && inst.generation != current
    && inst.entity != "" && inst.launchTime != 0 && now > inst.launchTime + grace
    && !IsTerminating(inst.state)
  }

  // The cases in the order the sweeper tries them.
  function Decide(inst: Instance, current: string, grace: int, now: Time): (why: Reason)
    ensures why == Stale <==> Reapable(inst, current, grace, now)
  {
    if IsTerminating(inst.state) then AlreadyTerminating
    else if inst.generation == "" then NoGeneration
    else if inst.generation == current then CurrentGeneration
    else if IsWithinGrace(inst.launchTime, grace, now) then WithinGrace
    else if inst.entity == "" then NoEntityTag
    else Stale
  }

  // The reason given is the first that applies, in this order: going away already, no
  // generation, the current one, too young or of unknown age, no entity tag.
  lemma ReasonIsFirst(inst: Instance, current: string, grace: int, now: Time)
    ensures var why := Decide(inst, current, grace, now);
            var going := inst.state == ShuttingDown || inst.state == Terminated;
            var young := inst.launchTime == 0 || now <= inst.launchTime + grace;
            && (why == AlreadyTerminating <==> going)
            && (why == NoGeneration <==> !going && inst.generation == "")
            && (why == CurrentGeneration <==> !going && inst.generation != "" && inst.generation == current)
            && (why == WithinGrace <==> !going && inst.generation != "" && inst.generation != current && young)
            && (why == NoEntityTag <==>
                  !going && inst.generation != "" && inst.generation != current && !young && inst.entity == "")
            && (why == Stale <==> !going && inst.generation != "" && inst.generation != current && !young && inst.entity != "")
  {
  }

  // The fleet as described, with the clock reading taken at each instance.
  datatype Fleet = Fleet(instances: seq<Instance>, current: string, grace: int, now: nat -> Time)

  predicate ReapAt(f: Fleet, i: nat)
    requires i < |f.instances|
  {
    Reapable(f.instances[i], f.current, f.grace, f.now(i))
  }

  // Positions up to n, in order, that are reaped (or, with `reap` false, spared).
  function Positions(f: Fleet, reap: bool, n: nat): seq<nat>
    requires n <= |f.instances|
  {
    if n == 0 then [] else Positions(f, reap, n - 1) + if ReapAt(f, n - 1) == reap then [n - 1] else []
  }

  lemma {:induction false} PositionsExact(f: Fleet, reap: bool, n: nat)
    requires n <= |f.instances|
    ensures forall i: nat :: i in Positions(f, reap, n) <==> i < n && ReapAt(f, i) == reap
    ensures forall k, l :: 0 <= k < l < |Positions(f, reap, n)| ==> Positions(f, reap, n)[k] < Positions(f, reap, n)[l]
    ensures forall k :: 0 <= k < |Positions(f, reap, n)| ==> Positions(f, reap, n)[k] < n
  {
    if n > 0 {
      PositionsExact(f, reap, n - 1);
      var before, all := Positions(f, reap, n - 1), Positions(f, reap, n);
      forall i: nat ensures i in all <==> i < n && ReapAt(f, i) == reap {
        assert i in all <==> i in before || (i == n - 1 && ReapAt(f, n - 1) == reap);
      }
    }
  }

  lemma {:induction false} PositionsAddUp(f: Fleet, n: nat)
    requires n <= |f.instances|
    ensures |Positions(f, true, n)| + |Positions(f, false, n)| == n
  {
    if n > 0 {
      hide ReapAt;
      PositionsAddUp(f, n - 1);
    }
  }

  // Reaped and spared are an order-preserving partition of the described fleet:
  // both lists go up, together they name every position once, and the reaped are
  // exactly the reapable.
  lemma SweepPartitions(f: Fleet, n: nat)
    requires n <= |f.instances|
    ensures |Positions(f, true, n)| + |Positions(f, false, n)| == n
    ensures forall i: nat :: i < n ==> (i in Positions(f, true, n) <==> ReapAt(f, i))
    ensures forall i: nat :: i < n ==> (i in Positions(f, true, n) <==> i !in Positions(f, false, n))
    ensures forall reap: bool, k, l :: 0 <= k < l < |Positions(f, reap, n)| ==> Positions(f, reap, n)[k] < Positions(f, reap, n)[l]
  {
    PositionsAddUp(f, n);
    PositionsExact(f, true, n);
    PositionsExact(f, false, n);
    hide Positions, ReapAt;
  }

  // ---- termination by name -------------------------------------------------------------

  // Terminate describes again, by entity tag, and takes the first instance of the
  // answer, whatever its generation; an empty answer counts as already gone.
  function Resolve(answer: seq<Instance>): Option<Instance> {
    if answer == [] then None else Some(answer[0])
  }

  // The answer may list any of the instances to be seen under this tag, in any
  // order, and leave any of them out.
  ghost predicate AnswerTo(seen: set<Instance>, id: EntityID, answer: seq<Instance>) {
    forall x :: x in answer ==> x in seen && x.entity == id
  }

  // Reaping position i, this answer terminates an instance of the current generation.
  predicate HitsCurrent(f: Fleet, i: nat, answer: seq<Instance>) {
    && i < |f.instances| && ReapAt(f, i)
    && Resolve(answer).Some? && Resolve(answer).value.generation == f.current
  }

  ghost predicate NeverHitsCurrent(f: Fleet, seen: set<Instance>) {
    forall i: nat, answer :: i < |f.instances| && AnswerTo(seen, f.instances[i].entity, answer) ==> !HitsCurrent(f, i, answer)
  }

  // No instance of the current generation is to be seen under a reaped one's tag.
  ghost predicate ReapedTagsAreStale(f: Fleet, seen: set<Instance>) {
    forall i: nat, x :: i < |f.instances| && ReapAt(f, i) && x in seen && x.entity == f.instances[i].entity ==>
      x.generation != f.current
  }

  // Whatever is to be seen when the names are looked up, a sweep can take down an
  // instance of the current generation exactly when one shares a reaped one's tag.
  lemma SweepSafeIff(f: Fleet, seen: set<Instance>)
    ensures NeverHitsCurrent(f, seen) <==> ReapedTagsAreStale(f, seen)
  {
    if ReapedTagsAreStale(f, seen) {
      forall i: nat, answer | i < |f.instances| && AnswerTo(seen, f.instances[i].entity, answer)
        ensures !HitsCurrent(f, i, answer)
      {
        assert answer != [] ==> answer[0] in answer;
      }
    }
    if NeverHitsCurrent(f, seen) {
      forall i: nat, x | i < |f.instances| && ReapAt(f, i) && x in seen && x.entity == f.instances[i].entity
        ensures x.generation != f.current
      {
        assert AnswerTo(seen, f.instances[i].entity, [x]);
        assert !HitsCurrent(f, i, [x]);
      }
    }
  }

  function Described(f: Fleet): set<Instance> {
    set x | x in f.instances
  }

  // When nothing has come or gone since the sweep's own describe, that is a matter
  // of the described fleet, in whatever order either describe lists it.
  lemma SweepSafeWhenUnchangedIff(f: Fleet)
    ensures NeverHitsCurrent(f, Described(f))
            <==> forall i: nat, j: nat :: (i < |f.instances| && j < |f.instances| && ReapAt(f, i)
                                           && f.instances[j].entity == f.instances[i].entity
                                           ==> f.instances[j].generation != f.current)
  {
    SweepSafeIff(f, Described(f));
    assert forall j: nat :: j < |f.instances| ==> f.instances[j] in Described(f);
    assert forall x :: x in Described(f) ==> exists j: nat :: j < |f.instances| && f.instances[j] == x;
  }

  // Every answer that names anything terminates the reaped instance itself.
  ghost predicate HitsItself(f: Fleet, seen: set<Instance>, i: nat)
    requires i < |f.instances|
  {
    forall answer :: AnswerTo(seen, f.instances[i].entity, answer) && answer != [] ==>
      Resolve(answer) == Some(f.instances[i])
  }

  // A reap hits its own instance, if any, exactly when no other is to be seen under
  // its tag; and then nothing of the current generation.
  lemma ReapHits(f: Fleet, seen: set<Instance>, i: nat)
    requires i < |f.instances| && ReapAt(f, i)
    ensures HitsItself(f, seen, i) <==> forall x :: x in seen && x.entity == f.instances[i].entity ==> x == f.instances[i]
    ensures HitsItself(f, seen, i) ==>
              forall answer :: AnswerTo(seen, f.instances[i].entity, answer) ==> !HitsCurrent(f, i, answer)
  {
    if HitsItself(f, seen, i) {
      forall x | x in seen && x.entity == f.instances[i].entity ensures x == f.instances[i] {
        assert AnswerTo(seen, f.instances[i].entity, [x]);
        assert Resolve([x]) == Some(f.instances[i]);
      }
    } else {
      var answer :| AnswerTo(seen, f.instances[i].entity, answer) && answer != [] && Resolve(answer) != Some(f.instances[i]);
      assert answer[0] in answer;
    }
  }

  // Each entity tag is on at most one instance.
  ghost predicate UniqueTags(f: Fleet) {
    forall i, j :: 0 <= i < j < |f.instances| && f.instances[i].entity != "" ==> f.instances[i].entity != f.instances[j].entity
  }

  // Then, nothing having come since the describe, what a sweep terminates is what
  // it reaps, and nothing of the current generation is among it.
  lemma UniqueTagsAreSafe(f: Fleet, seen: set<Instance>, i: nat)
    requires UniqueTags(f) && seen <= Described(f) && i < |f.instances| && ReapAt(f, i)
    ensures HitsItself(f, seen, i) && f.instances[i].generation != f.current
    ensures forall answer :: AnswerTo(seen, f.instances[i].entity, answer) ==> !HitsCurrent(f, i, answer)
  {
    forall x | x in seen && x.entity == f.instances[i].entity ensures x == f.instances[i] {
      assert x in Described(f);
      var j :| 0 <= j < |f.instances| && f.instances[j] == x;
      assert !(j < i) && !(i < j);
    }
    ReapHits(f, seen, i);
  }

  // A stale instance and a live one under one name: whichever the sweep's describe
  // lists first, an answer that starts with the live one takes it down.
  lemma SharedNameHitsLiveNode(stale: Instance, live: Instance, f: Fleet, i: nat)
    requires stale.entity == live.entity && live.generation == f.current
    requires i < |f.instances| && f.instances[i] == stale && ReapAt(f, i) && live in f.instances
    ensures AnswerTo(Described(f), stale.entity, [live, stale]) && HitsCurrent(f, i, [live, stale])
    ensures AnswerTo(Described(f), stale.entity, [stale, live]) && !HitsCurrent(f, i, [stale, live])
  {
  }
}

// The vocabulary of the reconciliation core: entities, rungs, faults, phases,
// observations, and the per-entity tracker and record. Wall-clock stamps and
// idempotency tokens are not part of the model.

module Options {
  datatype Option<+T> = None | Some(value: T)
}

module StringOrder {
  // Strings in the order Go compares them.
  predicate Before(a: string, b: string) {
    b != "" && (a == "" || a[0] < b[0] || (a[0] == b[0] && Before(a[1..], b[1..])))
  }

  lemma {:induction false} BeforeIsTotal(a: string, b: string)
    ensures a == b <==> !Before(a, b) && !Before(b, a)
    ensures !(Before(a, b) && Before(b, a))
  {
    if a != "" && b != "" {
      BeforeIsTotal(a[1..], b[1..]);
      if a[0] == b[0] && a[1..] == b[1..] {
        assert a == [a[0]] + a[1..] == b;
      }
    }
  }

  // A common beginning does not matter; of what follows, nothing comes before
  // something, and of two first characters that differ the smaller comes first.
  lemma {:induction false} BeforeIs(start: string, a: string, b: string)
    ensures Before(start + a, start + b) <==> Before(a, b)
    ensures |a| == 0 ==> (Before(a, b) <==> |b| > 0)
    ensures |a| > 0 && |b| > 0 && a[0] != b[0] ==> (Before(a, b) <==> a[0] < b[0])
  {
    if start == "" {
      assert start + a == a && start + b == b;
    } else {
      BeforeIs(start[1..], a, b);
      assert (start + a)[1..] == start[1..] + a && (start + b)[1..] == start[1..] + b;
    }
  }

  lemma {:induction false} BeforeIsTransitive(a: string, b: string, c: string)
    requires Before(a, b) && Before(b, c)
    ensures Before(a, c)
  {
    if a != "" && a[0] == b[0] == c[0] {
      BeforeIsTransitive(a[1..], b[1..], c[1..]);
    }
  }
}

module CohortTypes {
  import opened Options

  type EntityID = string

  datatype FaultClass =
    | FaultRetryableConsistency
    | FaultThrottle
    | FaultCapacityExhausted
    | FaultTerminal
    | FaultAmbiguous
    | FaultUnclassified // any integer outside the declared constants


  datatype Phase =
    | PhaseLaunchAcked
    | PhaseRunning
    | PhaseEnrolled
    | PhaseCohortBarrier
    | PhaseCohortAssembly
    | PhaseReady
  {
    // Position in the declared order, used to say that phases never go back.
    function Ord(): nat {
      match this
      case PhaseLaunchAcked => 0
      case PhaseRunning => 1
      case PhaseEnrolled => 2
      case PhaseCohortBarrier => 3
      case PhaseCohortAssembly => 4
      case PhaseReady => 5
    }
  }

  datatype LifecycleState =
    | StateUnknown
    | StateAbsent
    | StateLaunching
    | StateRunning
    | StateStopped
    | StateHibernated
    | StateDraining
    | StateFailed

  // A fault's code and message: verbatim from the provider, or one of the texts
  // the core formats itself, with what it formats in.
  datatype FaultDetail =
    | Provider(code: string, message: string)
    | PhaseBudgetExceeded(phase: Phase)
    | InstanceFailed(state: LifecycleState)
    | AmbiguousReachedReconciler
    | AssemblyDisallowed
    | AssemblyFailed(error: string)

  datatype Fault = Fault(class_: FaultClass, detail: FaultDetail, retryable: bool)

  datatype CapacityModel = CapacityOnDemand | CapacitySpot | CapacityReserved

  // Rungs are compared by value, every field included.
  datatype Rung = Rung(instanceType: string, availZone: string, capacityModel: CapacityModel,
                       accountID: string, warmStart: bool)

  // id, state, providerID and address are the fields the core or the domain reads.
  datatype Observation = Observation(id: EntityID, state: LifecycleState, providerID: string, address: string)

  const NO_OBSERVATION := Observation("", StateUnknown, "", "")

  datatype EntityIntent = EntityIntent(id: EntityID, generation: string, rung: Rung, fallbackChain: seq<Rung>)

  datatype Attempt = Attempt(rung: Rung, phase: Phase, fault: Option<Fault>)

  datatype CulpritInfo = CulpritInfo(id: EntityID, fault: Fault, phase: Phase)

  // The zero culprit: an empty id means that nobody has been named.
  const NO_CULPRIT := CulpritInfo("", Fault(FaultRetryableConsistency, Provider("", ""), false), PhaseLaunchAcked)

  datatype CohortCancelInfo = CohortCancelInfo(culprit: CulpritInfo, survivorPhase: Phase)

  // A context's error: still live, cancelled, or past its deadline.
  datatype CtxErr = Live | Canceled | DeadlineExceeded

  // The cause is kept as the context error whose text the source records.
  datatype ParentCancelInfo = ParentCancelInfo(survivorPhase: Phase, cause: CtxErr)

  // What a reconcile knows about one entity while it runs.
  datatype Tracker = Tracker(
    intent: EntityIntent,
    phase: Phase,
    enrolled: bool,
    attempts: seq<Attempt>,
    terminal: Option<Fault>,
    cohortCancelled: Option<CohortCancelInfo>,
    parentCancelled: Option<ParentCancelInfo>,
    obs: Observation)
  {
    predicate Unlabelled() {
      cohortCancelled.None? && parentCancelled.None?
    }
  }

  function NewTracker(intent: EntityIntent): Tracker {
    Tracker(intent, PhaseLaunchAcked, false, [], None, None, None, NO_OBSERVATION)
  }

  datatype Record = Record(
    entity: EntityID,
    generation: string,
    cohort: string,
    reachedPhase: Phase,
    attempts: seq<Attempt>,
    terminal: Option<Fault>,
    cohortCancelled: Option<CohortCancelInfo>,
    parentCancelled: Option<ParentCancelInfo>)
  {
    predicate Succeeded() {
      terminal.None? && cohortCancelled.None? && parentCancelled.None? && reachedPhase == PhaseReady
    }

    predicate WasCohortCancelled() { cohortCancelled.Some? }

    predicate WasParentCancelled() { parentCancelled.Some? }

    // How many of the four outcomes this record claims.
    function Outcomes(): nat {
      (if Succeeded() then 1 else 0) + (if WasCohortCancelled() then 1 else 0)
      + (if WasParentCancelled() then 1 else 0) + (if terminal.Some? then 1 else 0)
    }
  }

  datatype Cohort = Cohort(id: string, members: seq<EntityIntent>, minViable: int, noAssembly: bool)
  {
    // MinViable == 0 means that full membership is required.
    function Need(): int {
      if minViable == 0 then |members| else minViable
    }

    predicate IsCollective() { |members| > 1 }
  }
}

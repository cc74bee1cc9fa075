// The substrate's retry loop: throttles and ambiguous faults are consumed up to
// a bound each, and a throttle clears the ambiguous count.

module RetryLoop {
  import opened Options
  import opened CohortTypes

  const MAX_AMBIGUOUS_RETRIES: nat := 3
  const MAX_THROTTLE_RETRIES: nat := 5

  // What one call of fn came to: no error, or a classified fault.
  datatype Reply = Done | Failed(fault: Fault)

  // The calls' replies in order, and whether the context is done after each.
  datatype Script = Script(reply: nat -> Reply, ctxDone: nat -> bool)

  datatype Surfaced = Success | Passed(fault: Fault) | ContextCanceled | Unresolved(fault: Fault)

  predicate Throttled(r: Reply) {
    r.Failed? && r.fault.class_ == FaultThrottle
  }

  predicate Ambiguous(r: Reply) {
    r.Failed? && r.fault.class_ == FaultAmbiguous
  }

  // Throttles among the first n replies.
  function Throttles(s: Script, n: nat): nat {
    if n == 0 then 0 else Throttles(s, n - 1) + if Throttled(s.reply(n - 1)) then 1 else 0
  }

  // Ambiguous replies since the last reply of another kind, among the first n.
  function AmbiguousStreak(s: Script, n: nat): nat {
    if n == 0 || !Ambiguous(s.reply(n - 1)) then 0 else AmbiguousStreak(s, n - 1) + 1
  }

  // The loop may go no further after n calls.
  predicate Decides(s: Script, n: nat)
    requires n > 0
  {
    var last := s.reply(n - 1);
    if Throttled(last) then Throttles(s, n) > MAX_THROTTLE_RETRIES || s.ctxDone(n - 1)
    else if Ambiguous(last) then AmbiguousStreak(s, n) > MAX_AMBIGUOUS_RETRIES
    else true
  }

  // What the deciding reply turns into.
  function Verdict(s: Script, n: nat): Surfaced
    requires n > 0
  {
    match s.reply(n - 1)
    case Done => Success
    case Failed(f) =>
      match f.class_
      case FaultThrottle => if Throttles(s, n) > MAX_THROTTLE_RETRIES then Passed(f) else ContextCanceled
      case FaultAmbiguous => Unresolved(f)
      case _ => Passed(f)
  }

  // The class of error the caller sees; the two the loop builds are terminal.
  function SurfacedClass(v: Surfaced): Option<FaultClass> {
    match v
    case Success => None
    case Passed(f) => Some(f.class_)
    case _ => Some(FaultTerminal)
  }

  const MOST_CALLS: nat := (MAX_THROTTLE_RETRIES + 1) * (MAX_AMBIGUOUS_RETRIES + 1)

  ghost predicate Undecided(s: Script, n: nat) {
    forall k :: 0 < k <= n ==> !Decides(s, k)
  }

  // As long as nothing has decided there were few calls: at most three ambiguous
  // ones before each throttle and after the last.
  lemma {:induction false} UndecidedIsShort(s: Script, n: nat)
    requires Undecided(s, n)
    ensures n <= (MAX_AMBIGUOUS_RETRIES + 1) * Throttles(s, n) + AmbiguousStreak(s, n)
    ensures Throttles(s, n) <= MAX_THROTTLE_RETRIES && AmbiguousStreak(s, n) <= MAX_AMBIGUOUS_RETRIES
  {
    if n > 0 {
      UndecidedIsShort(s, n - 1);
      assert !Decides(s, n);
    }
  }

  // What surfaces, in terms of the replies. All but the last are ambiguous, or
  // throttles after which the context is live. Then: no error exactly when it had none; a
  // fault that is neither a throttle nor ambiguous as it is; an ambiguous one as a
  // terminal fault after four in a row; and a throttle as it is when it was the
  // sixth, else as a cancellation because the context was done.
  ghost predicate Surfaces(s: Script, calls: nat, v: Surfaced)
    requires calls > 0
  {
    var last := s.reply(calls - 1);
    && (forall k :: 0 <= k < calls - 1 ==>
          Ambiguous(s.reply(k)) || (Throttled(s.reply(k)) && !s.ctxDone(k)))
    && (v == Success <==> last == Done)
    && (last.Failed? && !Throttled(last) && !Ambiguous(last) ==>
          v == Passed(last.fault) && SurfacedClass(v) == Some(last.fault.class_))
    && (Ambiguous(last) ==>
          && v == Unresolved(last.fault) && SurfacedClass(v) == Some(FaultTerminal)
          && calls >= 4 && (forall k :: calls - 4 <= k < calls ==> Ambiguous(s.reply(k)))
          && (calls >= 5 ==> !Ambiguous(s.reply(calls - 5))))
    && (v.Unresolved? ==> Ambiguous(last))
    && (Throttled(last) && Throttles(s, calls) == 6 ==> v == Passed(last.fault))
    && (v == ContextCanceled <==> Throttled(last) && Throttles(s, calls) <= 5 && s.ctxDone(calls - 1))
    && (v == ContextCanceled ==> SurfacedClass(v) == Some(FaultTerminal))
    && (Throttled(last) ==> v == ContextCanceled || Throttles(s, calls) == 6)
  }

  // The streak counts the ambiguous replies at the end, and one before them was not.
  lemma {:induction false} StreakIs(s: Script, n: nat)
    ensures AmbiguousStreak(s, n) <= n
    ensures forall k :: n - AmbiguousStreak(s, n) <= k < n ==> Ambiguous(s.reply(k))
    ensures AmbiguousStreak(s, n) < n ==> !Ambiguous(s.reply(n - AmbiguousStreak(s, n) - 1))
  {
    if n > 0 && Ambiguous(s.reply(n - 1)) {
      StreakIs(s, n - 1);
    }
  }

  lemma {:induction false} ThrottlesCount(s: Script, n: nat)
    ensures Throttles(s, n) == |set k: nat | k < n && Throttled(s.reply(k))|
  {
    var these := set k: nat | k < n && Throttled(s.reply(k));
    if n > 0 {
      ThrottlesCount(s, n - 1);
      var before := set k: nat | k < n - 1 && Throttled(s.reply(k));
      assert these == before + if Throttled(s.reply(n - 1)) then {n - 1} else {};
      assert n - 1 !in before;
    } else {
      assert these == {};
    }
  }

  lemma VerdictSurfaces(s: Script, n: nat)
    requires n > 0 && Undecided(s, n - 1) && Decides(s, n)
    ensures Surfaces(s, n, Verdict(s, n))
  {
    UndecidedIsShort(s, n - 1);
    StreakIs(s, n);
    forall k | 0 <= k < n - 1 ensures Ambiguous(s.reply(k)) || (Throttled(s.reply(k)) && !s.ctxDone(k)) {
      assert !Decides(s, k + 1);
    }
    hide Undecided;
  }

  // The loop makes the calls up to the first reply that decides and surfaces its
  // verdict: at most 24 calls, one Backoff per throttle with attempts 0, 1, 2, ...
  // in order, never an ambiguous fault, and a throttle exactly when six came.
  method CallWithRetry(s: Script) returns (v: Surfaced, calls: nat, backoffs: seq<nat>)
    ensures calls > 0 && Decides(s, calls) && Undecided(s, calls - 1)
    ensures v == Verdict(s, calls)
    ensures calls <= MOST_CALLS
    ensures |backoffs| == Throttles(s, calls) && forall i :: 0 <= i < |backoffs| ==> backoffs[i] == i
    ensures SurfacedClass(v) != Some(FaultAmbiguous)
    ensures SurfacedClass(v) == Some(FaultThrottle) <==> Throttles(s, calls) == MAX_THROTTLE_RETRIES + 1
    ensures Surfaces(s, calls, v)
  {
    var throttleAttempt, ambiguousAttempt := 0, 0;
    calls, backoffs := 0, [];
    while true
      invariant Undecided(s, calls)
      invariant throttleAttempt == Throttles(s, calls) == |backoffs| <= MAX_THROTTLE_RETRIES
      invariant ambiguousAttempt == AmbiguousStreak(s, calls) <= MAX_AMBIGUOUS_RETRIES
      invariant forall i :: 0 <= i < |backoffs| ==> backoffs[i] == i
      decreases MAX_THROTTLE_RETRIES - throttleAttempt, MAX_AMBIGUOUS_RETRIES - ambiguousAttempt
    {
      UndecidedIsShort(s, calls);
      if Decides(s, calls + 1) {
        VerdictSurfaces(s, calls + 1);
      }
      hide Surfaces;
      var reply := s.reply(calls);
      calls := calls + 1;
      if reply.Done? {
        return Success, calls, backoffs;
      }
      var f := reply.fault;
      match f.class_ {
        case FaultThrottle =>
          backoffs := backoffs + [throttleAttempt];
          throttleAttempt := throttleAttempt + 1;
          ambiguousAttempt := 0;
          if throttleAttempt > MAX_THROTTLE_RETRIES {
            return Passed(f), calls, backoffs;
          }
          if s.ctxDone(calls - 1) {
            return ContextCanceled, calls, backoffs;
          }
        case FaultAmbiguous =>
          if ambiguousAttempt >= MAX_AMBIGUOUS_RETRIES {
            return Unresolved(f), calls, backoffs;
          }
          ambiguousAttempt := ambiguousAttempt + 1;
        case _ =>
          return Passed(f), calls, backoffs;
      }
    }
  }

  // Three ambiguous replies, then a throttle, six times over.
  const WORST := Script(
    n => Failed(Fault(if n % (MAX_AMBIGUOUS_RETRIES + 1) == MAX_AMBIGUOUS_RETRIES then FaultThrottle else FaultAmbiguous,
                      Provider("", ""), false)),
    _ => false)

  lemma {:induction false} WorstCounts(n: nat)
    requires n <= MOST_CALLS
    ensures Throttles(WORST, n) == n / 4 && AmbiguousStreak(WORST, n) == n % 4
  {
    if n > 0 {
      WorstCounts(n - 1);
    }
  }

  // The bound is attained: that script makes all 24 calls.
  lemma BoundAttained()
    ensures MOST_CALLS == 24
    ensures Decides(WORST, MOST_CALLS) && Undecided(WORST, MOST_CALLS - 1)
    ensures SurfacedClass(Verdict(WORST, MOST_CALLS)) == Some(FaultThrottle)
  {
    forall k | 0 < k <= MOST_CALLS - 1 ensures !Decides(WORST, k) {
      WorstUndecided(k);
    }
    WorstCounts(MOST_CALLS);
    hide Throttles, AmbiguousStreak;
  }

  lemma WorstUndecided(k: nat)
    requires 0 < k < MOST_CALLS
    ensures !Decides(WORST, k)
  {
    WorstCounts(k);
    hide Throttles, AmbiguousStreak;
  }
}

// Walking an approved fallback chain on capacity faults. The next rung is found
// by value, so the walk is a function of the rung and the chain alone.

module RungLadder {
  import opened Options
  import opened CohortTypes

  ghost predicate NoDuplicates<T>(s: seq<T>) {
    forall i, j :: 0 <= i < j < |s| ==> s[i] != s[j]
  }

  // The rung after the first entry equal to `current` that is not the last entry.
  function NextRung(current: Rung, chain: seq<Rung>): (next: Option<Rung>)
    ensures next.Some? ==> next.value in chain
  {
    if |chain| <= 1 then None
    else if chain[0] == current then Some(chain[1])
    else NextRung(current, chain[1..])
  }

  // NextRung says which entry of the chain is taken: the successor of the
  // earliest usable occurrence, and nothing when there is no such occurrence.
  lemma {:induction false} NextRungIsEarliest(current: Rung, chain: seq<Rung>)
    ensures NextRung(current, chain).None? <==> forall i :: 0 <= i < |chain| - 1 ==> chain[i] != current
    ensures forall i :: (0 <= i < |chain| - 1 && chain[i] == current && current !in chain[..i]
                         ==> NextRung(current, chain) == Some(chain[i + 1]))
  {
    if |chain| > 1 && chain[0] != current {
      var rest := chain[1..];
      NextRungIsEarliest(current, rest);
      forall i | 0 <= i < |chain| - 1 && chain[i] == current && current !in chain[..i]
        ensures NextRung(current, chain) == Some(chain[i + 1])
      {
        assert rest[i - 1] == current;
        forall x | x in rest[..i - 1] ensures x in chain[..i] {
          var k :| 0 <= k < i - 1 && rest[k] == x;
          assert chain[..i][k + 1] == x;
        }
      }
      if forall i :: 0 <= i < |chain| - 1 ==> chain[i] != current {
        assert forall i :: 0 <= i < |rest| - 1 ==> rest[i] == chain[i + 1];
      } else {
        var i :| 0 <= i < |chain| - 1 && chain[i] == current;
        assert rest[i - 1] == current;
      }
    }
  }

  // The rung in use after n capacity faults, starting from `start`; None once
  // the chain has been exhausted.
  function RungAfter(start: Rung, chain: seq<Rung>, n: nat): Option<Rung> {
    if n == 0 then Some(start)
    else
      var before := RungAfter(start, chain, n - 1);
      if before.None? then None else NextRung(before.value, chain)
  }

  // As long as no rung has repeated, the walk goes down the chain entry by entry.
  lemma {:induction false} WalkFollowsChain(chain: seq<Rung>, n: nat)
    requires n < |chain| && NoDuplicates(chain[..n])
    ensures RungAfter(chain[0], chain, n) == Some(chain[n])
  {
    if n > 0 {
      assert chain[..n - 1] == chain[..n][..n - 1];
      WalkFollowsChain(chain, n - 1);
      NextRungIsEarliest(chain[n - 1], chain);
      assert forall k :: 0 <= k < n - 1 ==> chain[..n][k] != chain[..n][n - 1];
      assert chain[n - 1] !in chain[..n - 1];
    }
  }

  // With a repeated rung the walk returns to an earlier entry and never ends.
  lemma {:induction false} WalkNeverEnds(chain: seq<Rung>, q: nat, p: nat, n: nat)
    requires p < q < |chain| && chain[p] == chain[q] && NoDuplicates(chain[..q])
    ensures n <= q ==> RungAfter(chain[0], chain, n) == Some(chain[n])
    ensures n > q ==> exists k :: p < k <= q && RungAfter(chain[0], chain, n) == Some(chain[k])
  {
    if n <= q {
      assert chain[..n] == chain[..q][..n];
      WalkFollowsChain(chain, n);
    } else {
      WalkNeverEnds(chain, q, p, n - 1);
      var k: nat :| p < k <= q && RungAfter(chain[0], chain, n - 1) == Some(chain[k]);
      var i := if k == q then p else k;
      assert chain[i] == chain[k];
      assert forall j :: 0 <= j < i ==> chain[..q][j] != chain[..q][i];
      assert chain[i] !in chain[..i];
      NextRungIsEarliest(chain[i], chain);
      assert RungAfter(chain[0], chain, n) == Some(chain[i + 1]);
    }
  }

  lemma {:induction false} FirstRepeat(chain: seq<Rung>, n: nat) returns (q: nat, p: nat)
    requires n <= |chain| && !NoDuplicates(chain[..n])
    ensures p < q < n && chain[p] == chain[q] && NoDuplicates(chain[..q])
  {
    if NoDuplicates(chain[..n - 1]) {
      var i, j :| 0 <= i < j < n && chain[..n][i] == chain[..n][j];
      q, p := n - 1, i;
    } else {
      q, p := FirstRepeat(chain, n - 1);
    }
  }

  ghost predicate WalkEnds(chain: seq<Rung>)
    requires chain != []
  {
    exists n: nat :: RungAfter(chain[0], chain, n).None?
  }

  // Capacity faults exhaust a chain exactly when it repeats no rung; then the
  // walk uses every entry once, in order, and stops at the fault on the last.
  lemma {:induction false} WalkEndsIffNoDuplicates(chain: seq<Rung>)
    requires chain != []
    ensures WalkEnds(chain) <==> NoDuplicates(chain)
    ensures NoDuplicates(chain) ==>
      (forall n: nat :: n < |chain| ==> RungAfter(chain[0], chain, n) == Some(chain[n]))
      && RungAfter(chain[0], chain, |chain|).None?
  {
    assert chain[..|chain|] == chain;
    if NoDuplicates(chain) {
      forall n: nat | n < |chain| ensures RungAfter(chain[0], chain, n) == Some(chain[n]) {
        WalkFollowsChain(chain, n);
      }
      NextRungIsEarliest(chain[|chain| - 1], chain);
      assert RungAfter(chain[0], chain, |chain|).None?;
    } else {
      var q, p := FirstRepeat(chain, |chain|);
      forall n: nat ensures RungAfter(chain[0], chain, n).Some? {
        WalkNeverEnds(chain, q, p, n);
      }
    }
  }
}

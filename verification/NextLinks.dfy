/** Previous/next links resolved by looking a key up in a list and stepping by one, as the
    blog's next-post link and the docs footer both do. */
module NextLinks {
  import opened Common

  /** The element after the first occurrence of `key`. */
  function Next(keys: seq<string>, key: string): Option<string> {
    var i := IndexOf(keys, key);
    if i == -1 || i + 1 == |keys| then None else Some(keys[i + 1])
  }

  /** The element before the first occurrence of `key`. */
  function Previous(keys: seq<string>, key: string): Option<string> {
    var i := IndexOf(keys, key);
    if i <= 0 then None else Some(keys[i - 1])
  }

  function Step(keys: seq<string>, at: Option<string>): Option<string> {
    match at
    case None => None
    case Some(key) => Next(keys, key)
  }

  function StepIn(keys: seq<string>): Option<string> -> Option<string> {
    (at: Option<string>) => Step(keys, at)
  }

  /** Where a reader is after following `n` next links from the first element. */
  function Follow(keys: seq<string>, n: nat): Option<string> {
    Iterate(StepIn(keys), if keys == [] then None else Some(keys[0]), n)
  }

  ghost predicate DistinctUpTo(keys: seq<string>, m: nat)
    requires m <= |keys|
  {
    forall i, j :: 0 <= i < j < m ==> keys[i] != keys[j]
  }

  lemma {:induction false} FollowWithoutRepeat(keys: seq<string>, n: nat)
    requires n < |keys| && DistinctUpTo(keys, n)
    ensures Follow(keys, n) == Some(keys[n])
  {
    if n > 0 {
      FollowWithoutRepeat(keys, n - 1);
      assert IndexOf(keys, keys[n - 1]) == n - 1;
    }
  }

  lemma {:induction false} FirstRepeat(keys: seq<string>, m: nat) returns (i: nat, j: nat)
    requires m <= |keys| && !DistinctUpTo(keys, m)
    ensures i < j < m && keys[i] == keys[j] && DistinctUpTo(keys, j)
  {
    if DistinctUpTo(keys, m - 1) {
      j := m - 1;
      i :| 0 <= i < j && keys[i] == keys[j];
    } else {
      i, j := FirstRepeat(keys, m - 1);
    }
  }

  lemma SamePlaceSameFuture(keys: seq<string>, p: nat, q: nat, d: nat)
    requires Follow(keys, p) == Follow(keys, q)
    ensures Follow(keys, p + d) == Follow(keys, q + d)
  {
    var start := if keys == [] then None else Some(keys[0]);
    IterateAdds(StepIn(keys), start, p, d);
    IterateAdds(StepIn(keys), start, q, d);
  }

  ghost predicate StillWalking(keys: seq<string>, n: nat) {
    Follow(keys, n).Some?
  }

  /** A walk that comes back to a place it has been never ends. */
  lemma {:induction false} CycleNeverEnds(keys: seq<string>, p: nat, q: nat, n: nat)
    requires p < q && Follow(keys, p) == Follow(keys, q)
    requires forall k: nat :: k <= q ==> StillWalking(keys, k)
    ensures StillWalking(keys, n)
    decreases n
  {
    if n > q {
      SamePlaceSameFuture(keys, p, q, n - q);
      CycleNeverEnds(keys, p, q, p + (n - q));
    }
  }

  /** Without repeats the walk visits the list in order, each element once, and stops. */
  lemma WalkVisitsInOrder(keys: seq<string>, n: nat)
    requires Distinct(keys)
    ensures Follow(keys, n) == if n < |keys| then Some(keys[n]) else None
  {
    if n < |keys| {
      FollowWithoutRepeat(keys, n);
    } else {
      PastTheEnd(keys, n);
    }
  }

  lemma {:induction false} PastTheEnd(keys: seq<string>, n: nat)
    requires Distinct(keys) && n >= |keys|
    ensures Follow(keys, n) == None
  {
    if n > |keys| {
      PastTheEnd(keys, n - 1);
    } else if n > 0 {
      FollowWithoutRepeat(keys, n - 1);
    }
  }

  ghost predicate WalkEnds(keys: seq<string>) {
    exists n: nat :: !StillWalking(keys, n)
  }

  /** Following next links comes to an end exactly when no key repeats. */
  lemma WalkEndsIffDistinct(keys: seq<string>)
    ensures WalkEnds(keys) <==> Distinct(keys)
  {
    if Distinct(keys) {
      PastTheEnd(keys, |keys|);
      assert !StillWalking(keys, |keys|);
    } else {
      var i, j := FirstRepeat(keys, |keys|);
      FollowWithoutRepeat(keys, i);
      FollowWithoutRepeat(keys, j);
      forall k: nat | k <= j ensures StillWalking(keys, k) {
        FollowWithoutRepeat(keys, k);
      }
      forall n: nat ensures StillWalking(keys, n) {
        CycleNeverEnds(keys, i, j, n);
      }
    }
  }

  ghost predicate Inverse(keys: seq<string>) {
    forall a, b :: Next(keys, a) == Some(b) <==> Previous(keys, b) == Some(a)
  }

  lemma DistinctGivesInverse(keys: seq<string>, a: string, b: string)
    requires Distinct(keys)
    ensures Next(keys, a) == Some(b) <==> Previous(keys, b) == Some(a)
  {
  }

  lemma RepeatBreaksInverse(keys: seq<string>, i: nat, j: nat)
    requires i < j < |keys| && keys[i] == keys[j] && DistinctUpTo(keys, j)
    ensures Next(keys, keys[j - 1]) == Some(keys[j])
    ensures Previous(keys, keys[j]) != Some(keys[j - 1])
  {
    assert IndexOf(keys, keys[j - 1]) == j - 1 && IndexOf(keys, keys[j]) == i;
  }

  /** Next and previous undo each other exactly when no key repeats. */
  lemma InverseIffDistinct(keys: seq<string>)
    ensures Inverse(keys) <==> Distinct(keys)
  {
    if Distinct(keys) {
      forall a, b ensures Next(keys, a) == Some(b) <==> Previous(keys, b) == Some(a) {
        DistinctGivesInverse(keys, a, b);
      }
    } else {
      var i, j := FirstRepeat(keys, |keys|);
      RepeatBreaksInverse(keys, i, j);
    }
  }
}

/** Small vocabulary shared by the models: optional values, duplicate-free sequences,
    and sorting under a caller-supplied total order (the place of `localeCompare`). */
module Common {

  datatype Option<+T> = None | Some(value: T) {
    function GetOr(default: T): T {
      if Some? then value else default
    }
  }

  ghost predicate Distinct<T>(s: seq<T>) {
    forall i, j :: 0 <= i < j < |s| ==> s[i] != s[j]
  }

  lemma DistinctAppend<T(!new)>(s: seq<T>, t: seq<T>)
    requires Distinct(s) && Distinct(t) && forall x :: x in s ==> x !in t
    ensures Distinct(s + t)
  {
    forall i, j | 0 <= i < j < |s + t|
      ensures (s + t)[i] != (s + t)[j]
    {
      if i < |s| <= j {
        assert s[i] !in t;
      }
    }
  }

  /** The elements of `s` satisfying `p`, in order: JavaScript's `Array.filter`. */
  function Filter<T(!new)>(s: seq<T>, p: T -> bool): (r: seq<T>)
    ensures forall x :: x in r <==> x in s && p(x)
  {
    if s == [] then []
    else if p(s[0]) then [s[0]] + Filter(s[1..], p)
    else Filter(s[1..], p)
  }

  lemma {:induction false} FilterAppend<T(!new)>(s: seq<T>, t: seq<T>, p: T -> bool)
    ensures Filter(s + t, p) == Filter(s, p) + Filter(t, p)
  {
    if s == [] {
      assert s + t == t;
    } else {
      assert (s + t)[1..] == s[1..] + t;
      FilterAppend(s[1..], t, p);
    }
  }

  lemma {:induction false} FilterAll<T(!new)>(s: seq<T>, p: T -> bool)
    requires forall x :: x in s ==> p(x)
    ensures Filter(s, p) == s
  {
    if s != [] {
      FilterAll(s[1..], p);
    }
  }

  lemma {:induction false} FiltersAgree<T(!new)>(s: seq<T>, p: T -> bool, q: T -> bool)
    requires forall x :: x in s ==> p(x) == q(x)
    ensures Filter(s, p) == Filter(s, q)
  {
    if s != [] {
      FiltersAgree(s[1..], p, q);
    }
  }

  lemma {:induction false} FilterCounts<T(!new)>(s: seq<T>, p: T -> bool, x: T)
    ensures multiset(Filter(s, p))[x] == if p(x) then multiset(s)[x] else 0
  {
    if s != [] {
      assert s == [s[0]] + s[1..];
      FilterCounts(s[1..], p, x);
    }
  }

  lemma FilterSingleton<T(!new)>(x: T, p: T -> bool)
    ensures Filter([x], p) == if p(x) then [x] else []
  {
    assert [x][1..] == [];
  }

  /** The step of a loop that has filtered the first `i` elements. */
  lemma FilterSnoc<T(!new)>(s: seq<T>, p: T -> bool, i: nat)
    requires i < |s|
    ensures Filter(s[..i + 1], p) == Filter(s[..i], p) + if p(s[i]) then [s[i]] else []
  {
    assert s[..i + 1] == s[..i] + [s[i]];
    FilterAppend(s[..i], [s[i]], p);
    FilterSingleton(s[i], p);
  }

  /** The step of a loop that filters `s` from the front. */
  lemma FilterUnfolds<T(!new)>(s: seq<T>, p: T -> bool, i: nat)
    requires i < |s|
    ensures Filter(s[i..], p) == if p(s[i]) then [s[i]] + Filter(s[i + 1..], p) else Filter(s[i + 1..], p)
  {
    assert s[i..][1..] == s[i + 1..];
  }

  lemma MultisetTake<T>(s: seq<T>, n: nat)
    requires 0 < n <= |s|
    ensures multiset(s[..n]) == multiset(s[..n - 1]) + multiset{s[n - 1]}
  {
    assert s[..n] == s[..n - 1] + [s[n - 1]];
  }

  lemma TakeAll<T>(s: seq<T>)
    ensures s[..|s|] == s && s[0..] == s
  {
  }

  /** `new Map(items.map(item => [id(item), item]))`: the last item with an id wins. */
  function LastById<T>(items: seq<T>, id: T -> string): map<string, T> {
    if items == [] then map[]
    else LastById(items[..|items| - 1], id)[id(items[|items| - 1]) := items[|items| - 1]]
  }

  lemma {:induction false} LastByIdHolds<T>(items: seq<T>, id: T -> string)
    ensures forall key :: key in LastById(items, id) ==>
              LastById(items, id)[key] in items && id(LastById(items, id)[key]) == key
    ensures forall item :: item in items ==> id(item) in LastById(items, id)
  {
    if items != [] {
      var front, last := items[..|items| - 1], items[|items| - 1];
      LastByIdHolds(front, id);
      assert forall item :: item in items <==> item in front || item == last by {
        assert items == front + [last];
      }
    }
  }

  lemma {:induction false} LastByIdIsLast<T>(items: seq<T>, id: T -> string, i: nat)
    requires i < |items| && forall j :: i < j < |items| ==> id(items[j]) != id(items[i])
    ensures id(items[i]) in LastById(items, id) && LastById(items, id)[id(items[i])] == items[i]
  {
    if i < |items| - 1 {
      LastByIdIsLast(items[..|items| - 1], id, i);
    }
  }

  lemma LastByIdSnoc<T>(items: seq<T>, id: T -> string, n: nat)
    requires n < |items|
    ensures LastById(items[..n + 1], id) == LastById(items[..n], id)[id(items[n]) := items[n]]
  {
    assert items[..n + 1][..n] == items[..n];
  }

  method IndexById<T>(items: seq<T>, id: T -> string) returns (byId: map<string, T>)
    ensures byId == LastById(items, id)
  {
    byId := map[];
    for n := 0 to |items|
      invariant byId == LastById(items[..n], id)
    {
      LastByIdSnoc(items, id, n);
      byId := byId[id(items[n]) := items[n]];
    }
    TakeAll(items);
  }

  lemma MapAddsOne<K, V>(m: map<K, V>, k: K, v: V)
    requires k !in m
    ensures |m[k := v]| == |m| + 1
  {
    assert m[k := v].Keys == m.Keys + {k};
  }

  lemma MapDropsOne<K, V>(m: map<K, V>, k: K)
    requires k in m
    ensures |m - {k}| == |m| - 1
  {
    assert (m - {k}).Keys == m.Keys - {k};
  }

  /** The positions from `i` on of the elements satisfying `p`, in order. */
  function Positions<T>(s: seq<T>, p: T -> bool, i: nat): (at: seq<nat>)
    requires i <= |s|
    ensures forall k :: 0 <= k < |at| ==> i <= at[k] < |s| && p(s[at[k]])
    ensures forall j, k :: 0 <= j < k < |at| ==> at[j] < at[k]
    ensures forall k :: i <= k < |s| && p(s[k]) ==> k in at
    decreases |s| - i
  {
    if i == |s| then []
    else if p(s[i]) then [i] + Positions(s, p, i + 1)
    else Positions(s, p, i + 1)
  }

  /** `Filter` keeps the elements at those positions. */
  lemma {:induction false} FilterIsAtPositions<T(!new)>(s: seq<T>, p: T -> bool, i: nat)
    requires i <= |s|
    ensures |Filter(s[i..], p)| == |Positions(s, p, i)|
    ensures forall k :: 0 <= k < |Positions(s, p, i)| ==> Filter(s[i..], p)[k] == s[Positions(s, p, i)[k]]
    decreases |s| - i
  {
    if i < |s| {
      assert s[i..][1..] == s[i + 1..];
      FilterIsAtPositions(s, p, i + 1);
    }
  }

  lemma PositionOf<T>(s: seq<T>, p: T -> bool, i: nat) returns (k: nat)
    requires i < |s| && p(s[i])
    ensures k < |Positions(s, p, 0)| && Positions(s, p, 0)[k] == i
  {
    k :| 0 <= k < |Positions(s, p, 0)| && Positions(s, p, 0)[k] == i;
  }

  lemma KeptAtPosition<T(!new)>(s: seq<T>, p: T -> bool, k: nat)
    requires k < |Filter(s, p)| || k < |Positions(s, p, 0)|
    ensures k < |Filter(s, p)| == |Positions(s, p, 0)| && Filter(s, p)[k] == s[Positions(s, p, 0)[k]]
  {
    TakeAll(s);
    FilterIsAtPositions(s, p, 0);
  }

  lemma SubsetIsSmaller<T>(a: set<T>, b: set<T>)
    requires a <= b
    ensures |a| <= |b|
  {
    if x :| x in a {
      SubsetIsSmaller(a - {x}, b - {x});
    }
  }

  /** Position of the first occurrence of `x`, or -1: JavaScript's `indexOf`. */
  function IndexOf<T(==)>(s: seq<T>, x: T): (i: int)
    ensures -1 <= i < |s|
    ensures i >= 0 ==> s[i] == x && forall k :: 0 <= k < i ==> s[k] != x
    ensures i == -1 <==> x !in s
  {
    IndexFrom(s, x, 0)
  }

  function IndexFrom<T(==)>(s: seq<T>, x: T, from: nat): (i: int)
    requires from <= |s|
    ensures i == -1 || (from <= i < |s| && s[i] == x)
    ensures forall k :: from <= k < (if i == -1 then |s| else i) ==> s[k] != x
    decreases |s| - from
  {
    if from == |s| then -1 else if s[from] == x then from else IndexFrom(s, x, from + 1)
  }

  ghost predicate TotalPreorder<T(!new)>(leq: (T, T) -> bool) {
    && (forall x, y :: leq(x, y) || leq(y, x))
    && (forall x, y, z :: leq(x, y) && leq(y, z) ==> leq(x, z))
  }

  ghost predicate TotalOrder<T(!new)>(leq: (T, T) -> bool) {
    && TotalPreorder(leq)
    && forall x, y :: leq(x, y) && leq(y, x) ==> x == y
  }

  /** No two different elements of `s` are tied. */
  ghost predicate NoTies<T>(leq: (T, T) -> bool, s: seq<T>) {
    forall x, y :: x in s && y in s && leq(x, y) && leq(y, x) ==> x == y
  }

  ghost predicate Sorted<T>(leq: (T, T) -> bool, s: seq<T>) {
    forall i, j :: 0 <= i < j < |s| ==> leq(s[i], s[j])
  }

  /** Inserts after the elements that precede `x`: one step of a stable sort. */
  function Insert<T>(leq: (T, T) -> bool, s: seq<T>, x: T): (r: seq<T>)
    ensures multiset(r) == multiset(s) + multiset{x}
  {
    if s == [] then [x]
    else if leq(s[|s| - 1], x) then s + [x]
    else
      assert s == s[..|s| - 1] + [s[|s| - 1]];
      Insert(leq, s[..|s| - 1], x) + [s[|s| - 1]]
  }

  function Sort<T>(leq: (T, T) -> bool, s: seq<T>): (r: seq<T>)
    ensures multiset(r) == multiset(s)
  {
    if s == [] then []
    else
      assert s == s[..|s| - 1] + [s[|s| - 1]];
      Insert(leq, Sort(leq, s[..|s| - 1]), s[|s| - 1])
  }

  lemma {:induction false} InsertKeepsSorted<T(!new)>(leq: (T, T) -> bool, s: seq<T>, x: T)
    requires TotalPreorder(leq) && Sorted(leq, s)
    ensures Sorted(leq, Insert(leq, s, x))
  {
    if s != [] {
      var front, last := s[..|s| - 1], s[|s| - 1];
      if leq(last, x) {
        forall k | 0 <= k < |front| ensures leq(front[k], x) {
          assert leq(s[k], last);
        }
      } else {
        InsertKeepsSorted(leq, front, x);
        var rest := Insert(leq, front, x);
        forall k | 0 <= k < |rest| ensures leq(rest[k], last) {
          assert rest[k] in multiset(front) + multiset{x};
        }
      }
    }
  }

  lemma {:induction false} SortIsSorted<T(!new)>(leq: (T, T) -> bool, s: seq<T>)
    requires TotalPreorder(leq)
    ensures Sorted(leq, Sort(leq, s))
  {
    if s != [] {
      SortIsSorted(leq, s[..|s| - 1]);
      InsertKeepsSorted(leq, Sort(leq, s[..|s| - 1]), s[|s| - 1]);
    }
  }

  lemma SortedHeadIsLeast<T(!new)>(leq: (T, T) -> bool, s: seq<T>, x: T)
    requires TotalPreorder(leq) && Sorted(leq, s)
    requires x in multiset(s)
    ensures s != [] && leq(s[0], x)
  {
    var k :| 0 <= k < |s| && s[k] == x;
    if k > 0 {
      assert leq(s[0], s[k]);
    }
  }

  lemma SortedHeadsAgree<T(!new)>(leq: (T, T) -> bool, s: seq<T>, t: seq<T>)
    requires TotalPreorder(leq) && NoTies(leq, s) && Sorted(leq, s) && Sorted(leq, t)
    requires multiset(s) == multiset(t) && s != [] && t != []
    ensures s[0] == t[0]
  {
    assert s[0] in multiset(s) && t[0] in multiset(t);
    SortedHeadIsLeast(leq, s, t[0]);
    SortedHeadIsLeast(leq, t, s[0]);
  }

  lemma SameHeadAndTail<T>(s: seq<T>, t: seq<T>)
    requires s != [] && t != [] && s[0] == t[0] && s[1..] == t[1..]
    ensures s == t
  {
    assert s == [s[0]] + s[1..];
    assert t == [t[0]] + t[1..];
  }

  lemma MultisetTail<T>(s: seq<T>)
    requires s != []
    ensures multiset(s[1..]) == multiset(s) - multiset{s[0]}
  {
    assert s == [s[0]] + s[1..];
  }

  lemma SameElementsSameTails<T>(s: seq<T>, t: seq<T>)
    requires s != [] && t != [] && s[0] == t[0] && multiset(s) == multiset(t)
    ensures multiset(s[1..]) == multiset(t[1..])
  {
    MultisetTail(s);
    MultisetTail(t);
  }

  lemma SameElementsSameLength<T>(s: seq<T>, t: seq<T>)
    requires multiset(s) == multiset(t)
    ensures |s| == |t|
  {
    assert |s| == |multiset(s)| && |t| == |multiset(t)|;
  }

  lemma TailsStaySorted<T(!new)>(leq: (T, T) -> bool, s: seq<T>)
    requires s != [] && NoTies(leq, s) && Sorted(leq, s)
    ensures NoTies(leq, s[1..]) && Sorted(leq, s[1..])
  {
  }

  /** Without ties there is one sorted arrangement of given elements, so a
      sorted result does not depend on the sorting algorithm or on the input order. */
  lemma {:induction false} SortedIsUnique<T(!new)>(leq: (T, T) -> bool, s: seq<T>, t: seq<T>)
    requires TotalPreorder(leq) && NoTies(leq, s) && Sorted(leq, s) && Sorted(leq, t)
    requires multiset(s) == multiset(t)
    ensures s == t
  {
    SameElementsSameLength(s, t);
    if s != [] {
      SortedHeadsAgree(leq, s, t);
      SameElementsSameTails(s, t);
      TailsStaySorted(leq, s);
      SortedIsUnique(leq, s[1..], t[1..]);
      SameHeadAndTail(s, t);
    }
  }

  lemma {:induction false} DistinctCounts<T(!new)>(s: seq<T>)
    ensures Distinct(s) <==> forall x :: multiset(s)[x] <= 1
  {
    if s != [] {
      var front, last := s[..|s| - 1], s[|s| - 1];
      DistinctCounts(front);
      assert s == front + [last];
      assert last in front <==> multiset(front)[last] >= 1;
      if Distinct(s) {
        forall x ensures multiset(s)[x] <= 1 {
          assert multiset(s)[x] == multiset(front)[x] + multiset{last}[x];
        }
      } else {
        var i, j :| 0 <= i < j < |s| && s[i] == s[j];
        if j == |s| - 1 {
          assert multiset(s)[last] == multiset(front)[last] + 1;
        } else {
          assert front[i] == front[j];
          var x :| multiset(front)[x] > 1;
          assert multiset(s)[x] >= multiset(front)[x];
        }
      }
    }
  }

  /** Order of strings by UTF-16 code unit, a witness that total orders on strings exist. */
  predicate LexLeq(a: string, b: string) {
    a == "" || (b != "" && (a[0] < b[0] || (a[0] == b[0] && LexLeq(a[1..], b[1..]))))
  }

  lemma {:induction false} LexTotal(a: string, b: string)
    ensures LexLeq(a, b) || LexLeq(b, a)
    ensures LexLeq(a, b) && LexLeq(b, a) ==> a == b
  {
    if a != "" && b != "" && a[0] == b[0] {
      LexTotal(a[1..], b[1..]);
      assert a == [a[0]] + a[1..] && b == [b[0]] + b[1..];
    }
  }

  lemma {:induction false} LexTransitive(a: string, b: string, c: string)
    requires LexLeq(a, b) && LexLeq(b, c)
    ensures LexLeq(a, c)
  {
    if a != "" && b != "" && c != "" && a[0] == b[0] == c[0] {
      LexTransitive(a[1..], b[1..], c[1..]);
    }
  }

  lemma LexIsTotalOrder()
    ensures TotalOrder(LexLeq)
  {
    forall a, b
      ensures LexLeq(a, b) || LexLeq(b, a)
      ensures LexLeq(a, b) && LexLeq(b, a) ==> a == b
    {
      LexTotal(a, b);
    }
    forall a, b, c | LexLeq(a, b) && LexLeq(b, c)
      ensures LexLeq(a, c)
    {
      LexTransitive(a, b, c);
    }
  }

  /** Remainder by repeated subtraction; `ModuloIsRemainder` ties it to `%`. */
  function Modulo(a: nat, n: nat): (r: nat)
    requires n > 0
    ensures r < n
  {
    if a < n then a else Modulo(a - n, n)
  }

  lemma MulGap(n: nat, a: int, b: int)
    requires a < b
    ensures n * a + n <= n * b
  {
    assert n * b == n * a + n * (b - a);
    assert n * (b - a) == n + n * (b - a - 1);
  }

  lemma DivisionIsUnique(n: nat, a: int, r: nat, b: int, r': nat)
    requires r < n && r' < n && n * a + r == n * b + r'
    ensures a == b && r == r'
  {
    if a < b {
      MulGap(n, a, b);
    } else if b < a {
      MulGap(n, b, a);
    }
  }

  lemma MulSucc(n: nat, q: nat)
    ensures n * (q + 1) == n * q + n
  {
  }

  lemma {:induction false} ModuloSplits(a: nat, n: nat) returns (q: nat)
    requires n > 0
    ensures a == n * q + Modulo(a, n)
  {
    if a < n {
      q := 0;
    } else {
      q := ModuloSplits(a - n, n);
      MulSucc(n, q);
      q := q + 1;
    }
  }

  lemma ModuloIsRemainder(a: nat, n: nat)
    requires n > 0
    ensures Modulo(a, n) == a % n
  {
    var q := ModuloSplits(a, n);
    DivisionIsUnique(n, q, Modulo(a, n), a / n, a % n);
  }

  lemma {:induction false} ModuloStep(x: nat, n: nat)
    requires n > 0
    ensures Modulo(Modulo(x, n) + 1, n) == Modulo(x + 1, n)
  {
    if x >= n {
      ModuloStep(x - n, n);
    }
  }

  lemma WrapOnce(p: nat, k: nat, n: nat)
    requires p < n && k <= n
    ensures Modulo(p + k, n) == if p + k < n then p + k else p + k - n
  {
  }

  /** Two numbers less than `n` apart have different remainders. */
  lemma {:induction false} ModuloDiffers(a: nat, b: nat, n: nat)
    requires a < b < a + n
    ensures Modulo(a, n) != Modulo(b, n)
  {
    if a >= n {
      ModuloDiffers(a - n, b - n, n);
    }
  }

  /** The state after the first `n` items. */
  function Fold<S, T>(step: (S, T) -> S, start: S, items: seq<T>, n: nat): S
    requires n <= |items|
  {
    if n == 0 then start else step(Fold(step, start, items, n - 1), items[n - 1])
  }

  /** What one step keeps, every run keeps. */
  lemma {:induction false} FoldKeeps<S(!new), T(!new)>(step: (S, T) -> S, start: S, items: seq<T>,
                                                       inv: (S, nat) -> bool, n: nat)
    requires n <= |items| && inv(start, 0)
    requires forall s, i: nat :: i < |items| && inv(s, i) ==> inv(step(s, items[i]), i + 1)
    ensures inv(Fold(step, start, items, n), n)
  {
    if n > 0 {
      FoldKeeps(step, start, items, inv, n - 1);
    }
  }

  lemma FoldOfThree<S, T>(step: (S, T) -> S, start: S, a: T, b: T, c: T)
    ensures Fold(step, start, [a, b, c], 3) == step(step(step(start, a), b), c)
  {
    var items := [a, b, c];
    assert Fold(step, start, items, 1) == step(start, a);
    assert Fold(step, start, items, 2) == step(step(start, a), b);
  }

  /** Starts that agree after the first item agree from then on. */
  lemma {:induction false} FoldForgetsStart<S, T>(step: (S, T) -> S, a: S, b: S, items: seq<T>, n: nat)
    requires 0 < n <= |items| && step(a, items[0]) == step(b, items[0])
    ensures Fold(step, a, items, n) == Fold(step, b, items, n)
  {
    if n > 1 {
      FoldForgetsStart(step, a, b, items, n - 1);
    }
  }

  function Iterate<T>(f: T -> T, x: T, k: nat): T {
    if k == 0 then x else f(Iterate(f, x, k - 1))
  }

  lemma {:induction false} IterateAdds<T>(f: T -> T, x: T, p: nat, d: nat)
    ensures Iterate(f, x, p + d) == Iterate(f, Iterate(f, x, p), d)
  {
    if d > 0 {
      IterateAdds(f, x, p, d - 1);
    }
  }
}

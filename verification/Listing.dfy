/** What it means that a loop nest collects everything there is to find, once each and in
    the order of the places where it is found. */
module Listing {

  /** A place: positions in up to four nested loops. */
  datatype Place = Place(part: nat, outer: nat, middle: nat, inner: nat)

  /** Lexicographic order. */
  predicate Below(a: Place, b: Place) {
    || a.part < b.part
    || (a.part == b.part && a.outer < b.outer)
    || (a.part == b.part && a.outer == b.outer && a.middle < b.middle)
    || (a.part == b.part && a.outer == b.outer && a.middle == b.middle && a.inner < b.inner)
  }

  datatype Found<+V> = Nothing | Found(item: V)

  /** `items` are what `at` finds at `places`, in ascending order of places; the places are
      exactly those from `low` to before `high` at which it finds something. */
  ghost predicate Lists<V(!new)>(at: Place -> Found<V>, items: seq<V>, places: seq<Place>, low: Place, high: Place) {
    && |items| == |places|
    && (forall k :: 0 <= k < |places| ==> at(places[k]) == Found(items[k]))
    && (forall j, k :: 0 <= j < k < |places| ==> Below(places[j], places[k]))
    && (forall p :: p in places ==> !Below(p, low) && Below(p, high))
    && forall p :: at(p).Found? && !Below(p, low) && Below(p, high) ==> p in places
  }

  ghost predicate NothingBetween<V(!new)>(at: Place -> Found<V>, low: Place, high: Place) {
    forall p :: !Below(p, low) && Below(p, high) ==> at(p).Nothing?
  }

  lemma ListsNothing<V(!new)>(at: Place -> Found<V>, low: Place, high: Place)
    requires NothingBetween(at, low, high)
    ensures Lists(at, [], [], low, high)
  {
  }

  lemma ListsOne<V(!new)>(at: Place -> Found<V>, p: Place, item: V, high: Place)
    requires at(p) == Found(item) && Below(p, high)
    requires forall q :: Below(p, q) && Below(q, high) ==> at(q).Nothing?
    ensures Lists(at, [item], [p], p, high)
  {
    forall q | at(q).Found? && !Below(q, p) && Below(q, high) ensures q in [p] {
      assert q == p || Below(p, q);
    }
  }

  lemma ListsConcatenation<V(!new)>(at: Place -> Found<V>, a: seq<V>, inA: seq<Place>, b: seq<V>, inB: seq<Place>,
                                    low: Place, mid: Place, high: Place)
    requires Lists(at, a, inA, low, mid) && Lists(at, b, inB, mid, high)
    requires !Below(mid, low) && !Below(high, mid)
    ensures Lists(at, a + b, inA + inB, low, high)
  {
    forall j, k | 0 <= j < k < |inA + inB| ensures Below((inA + inB)[j], (inA + inB)[k]) {
      if j < |inA| <= k {
        assert inA[j] in inA && inB[k - |inA|] in inB;
      }
    }
    forall p | p in inA + inB ensures !Below(p, low) && Below(p, high) {
      assert p in inA || p in inB;
    }
    forall p | at(p).Found? && !Below(p, low) && Below(p, high) ensures p in inA + inB {
      assert Below(p, mid) || !Below(p, mid);
    }
  }
}

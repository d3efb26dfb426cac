/** The bounded first-in-first-out cache of replay projections. */
module ProjectionCache {
  import opened Common

  const MAX_CACHED_REPLAY_PROJECTIONS := 32

  /** A recording carries a reference to its event array; identity is id plus reference. */
  datatype Recording = Recording(id: string, events: nat)

  /** The packaged projectors, and what each event reference holds. */
  datatype Projector<!E, +P> = Projector(
    contents: nat -> seq<E>,
    canonicalize: seq<E> -> seq<E>,
    project: (seq<E>, int) -> P)

  /** `order` is the insertion order of the projections map. */
  datatype Cache<+E, +P> = Cache(
    events: Option<seq<E>>,
    order: seq<int>,
    projections: map<int, P>,
    identity: Option<string>,
    source: Option<nat>)

  function Empty<E, P>(): Cache<E, P> { Cache(None, [], map[], None, None) }

  predicate Bound<E, P>(c: Cache<E, P>, recording: Recording) {
    c.identity == Some(recording.id) && c.source == Some(recording.events) && c.events.Some?
  }

  function Bind<E, P>(f: Projector<E, P>, c: Cache<E, P>, recording: Recording): Cache<E, P> {
    if Bound(c, recording) then c
    else Cache(Some(f.canonicalize(f.contents(recording.events))), [], map[],
               Some(recording.id), Some(recording.events))
  }

  function Direct<E, P>(f: Projector<E, P>, recording: Recording, tick: int): P {
    f.project(f.canonicalize(f.contents(recording.events)), tick)
  }

  function Insert<E, P>(c: Cache<E, P>, tick: int, p: P): Cache<E, P> {
    var order, projections := c.order + [tick], c.projections[tick := p];
    if |projections| > MAX_CACHED_REPLAY_PROJECTIONS
    then c.(order := order[1..], projections := projections - {order[0]})
    else c.(order := order, projections := projections)
  }

  predicate Hit<E, P>(c: Cache<E, P>, recording: Recording, tick: int) {
    Bound(c, recording) && tick in c.projections
  }

  function Prepare<E, P>(f: Projector<E, P>, c: Cache<E, P>, recording: Recording, tick: int): Cache<E, P> {
    var bound := Bind(f, c, recording);
    if tick in bound.projections then bound else Insert(bound, tick, Direct(f, recording, tick))
  }

  /** Every stored projection is the direct one for the bound recording, and there are at most 32. */
  ghost predicate Valid<E(!new), P>(f: Projector<E, P>, c: Cache<E, P>) {
    && Distinct(c.order) && (forall t :: t in c.order <==> t in c.projections)
    && |c.order| == |c.projections| <= MAX_CACHED_REPLAY_PROJECTIONS
    && (c.events.None? ==> c.projections == map[])
    && (c.events.Some? ==> c.source.Some? && c.events.value == f.canonicalize(f.contents(c.source.value)))
    && (forall t :: t in c.projections ==> c.events.Some? && c.projections[t] == f.project(c.events.value, t))
  }

  class ReplayProjectionCache<E(!new), P> {
    var events: Option<seq<E>>
    var order: seq<int>
    var projections: map<int, P>
    var identity: Option<string>
    var source: Option<nat>

    constructor ()
      ensures View() == Empty()
    {
      events, order, projections, identity, source := None, [], map[], None, None;
    }

    ghost function View(): Cache<E, P>
      reads this
    {
      Cache(events, order, projections, identity, source)
    }

    method BindCanonicalEvents(f: Projector<E, P>, recording: Recording) returns (canonical: seq<E>)
      requires Valid(f, View())
      modifies this
      ensures View() == Bind(f, old(View()), recording) && Valid(f, View())
      ensures events == Some(canonical) && canonical == f.canonicalize(f.contents(recording.events))
    {
      if identity == Some(recording.id) && source == Some(recording.events) && events.Some? {
        return events.value;
      }
      identity, source := Some(recording.id), Some(recording.events);
      canonical := f.canonicalize(f.contents(recording.events));
      events := Some(canonical);
      order, projections := [], map[];
    }

    /** Returns the direct projection of the tick, whatever was read before, and
        `projected` tells whether the projectors ran. */
    method PrepareAtTick(f: Projector<E, P>, recording: Recording, tick: int) returns (p: P, ghost projected: bool)
      requires Valid(f, View())
      modifies this
      ensures View() == Prepare(f, old(View()), recording, tick) && Valid(f, View())
      ensures p == f.project(f.canonicalize(f.contents(recording.events)), tick)
      ensures projected <==> !Hit(old(View()), recording, tick)
    {
      var canonical := BindCanonicalEvents(f, recording);
      if tick in projections {
        return projections[tick], false;
      }
      ghost var bound := View();
      p := f.project(canonical, tick);
      InsertKeepsValid(f, bound, tick);
      projections := projections[tick := p];
      order := order + [tick];
      if |projections| > MAX_CACHED_REPLAY_PROJECTIONS {
        projections := projections - {order[0]};
        order := order[1..];
      }
      projected := true;
    }
  }

  /** The cache with one more entry, before any eviction. */
  function Grown<E, P>(c: Cache<E, P>, tick: int, p: P): Cache<E, P> {
    c.(order := c.order + [tick], projections := c.projections[tick := p])
  }

  /** `Valid` but for the bound on the number of entries. */
  ghost predicate Coherent<E(!new), P>(f: Projector<E, P>, c: Cache<E, P>) {
    && Distinct(c.order) && (forall t :: t in c.order <==> t in c.projections) && |c.order| == |c.projections|
    && c.events.Some? && c.source.Some? && c.events.value == f.canonicalize(f.contents(c.source.value))
    && forall t :: t in c.projections ==> c.projections[t] == f.project(c.events.value, t)
  }

  lemma GrownIsCoherent<E(!new), P>(f: Projector<E, P>, c: Cache<E, P>, tick: int)
    requires Valid(f, c) && c.events.Some? && tick !in c.projections
    ensures Coherent(f, Grown(c, tick, f.project(c.events.value, tick)))
    ensures |Grown(c, tick, f.project(c.events.value, tick)).projections| == |c.projections| + 1
  {
    DistinctAppend(c.order, [tick]);
    MapAddsOne(c.projections, tick, f.project(c.events.value, tick));
  }

  lemma EvictionKeepsCoherent<E(!new), P>(f: Projector<E, P>, c: Cache<E, P>)
    requires Coherent(f, c) && c.order != []
    ensures Coherent(f, c.(order := c.order[1..], projections := c.projections - {c.order[0]}))
  {
    MapDropsOne(c.projections, c.order[0]);
    assert c.order == [c.order[0]] + c.order[1..];
  }

  lemma InsertKeepsValid<E(!new), P>(f: Projector<E, P>, c: Cache<E, P>, tick: int)
    requires Valid(f, c) && c.events.Some? && tick !in c.projections
    ensures var t := Insert(c, tick, f.project(c.events.value, tick));
            && Valid(f, t)
            && t.order == Slide(c.order, tick)
            && tick in t.projections
  {
    var grown := Grown(c, tick, f.project(c.events.value, tick));
    GrownIsCoherent(f, c, tick);
    if |grown.projections| > MAX_CACHED_REPLAY_PROJECTIONS {
      EvictionKeepsCoherent(f, grown);
      assert grown.order[1..] == c.order[1..] + [tick] && grown.order[0] == c.order[0];
    }
  }

  lemma PrepareKeepsValid<E(!new), P>(f: Projector<E, P>, c: Cache<E, P>, recording: Recording, tick: int)
    requires Valid(f, c)
    ensures var t := Prepare(f, c, recording, tick);
            && Valid(f, t) && Bound(t, recording)
            && tick in t.projections && t.projections[tick] == Direct(f, recording, tick)
  {
    var bound := Bind(f, c, recording);
    if tick !in bound.projections {
      InsertKeepsValid(f, bound, tick);
    }
  }

  // ----- Runs of reads -----

  datatype Read = Read(recording: Recording, tick: int)

  function After<E, P>(f: Projector<E, P>, history: seq<Read>): Cache<E, P> {
    if history == [] then Empty()
    else
      var last := history[|history| - 1];
      Prepare(f, After(f, history[..|history| - 1]), last.recording, last.tick)
  }

  /** For every sequence of reads, across recordings and swapped event arrays: the cache
      is valid, and the tick just read is in it with its direct projection. */
  lemma {:induction false} EveryReadIsDirect<E(!new), P>(f: Projector<E, P>, history: seq<Read>)
    ensures Valid(f, After(f, history)) && |After(f, history).projections| <= 32
    ensures history != [] ==>
              var last := history[|history| - 1];
              var c := After(f, history);
              && last.tick in c.projections
              && c.projections[last.tick]
                 == f.project(f.canonicalize(f.contents(last.recording.events)), last.tick)
  {
    if history != [] {
      EveryReadIsDirect(f, history[..|history| - 1]);
      var last := history[|history| - 1];
      PrepareKeepsValid(f, After(f, history[..|history| - 1]), last.recording, last.tick);
    }
  }

  /** The cache after the first `n` reads of one recording, from cache `start`. */
  function AfterTicks<E, P>(f: Projector<E, P>, start: Cache<E, P>, recording: Recording, ticks: seq<int>, n: nat)
    : Cache<E, P>
    requires n <= |ticks|
  {
    Fold((c, tick) => Prepare(f, c, recording, tick), start, ticks, n)
  }

  lemma UnboundReadsAlike<E, P>(f: Projector<E, P>, c: Cache<E, P>, recording: Recording, tick: int)
    requires !Bound(c, recording)
    ensures Prepare(f, c, recording, tick) == Prepare(f, Empty(), recording, tick)
  {
  }

  /** Whatever a cache holds of other recordings, or of an older event array of this one,
      is gone with the first read. */
  lemma StartIsIrrelevant<E, P>(
      f: Projector<E, P>, start: Cache<E, P>, recording: Recording, ticks: seq<int>, n: nat)
    requires !Bound(start, recording) && 0 < n <= |ticks|
    ensures AfterTicks(f, start, recording, ticks, n) == AfterTicks(f, Empty(), recording, ticks, n)
  {
    UnboundReadsAlike(f, start, recording, ticks[0]);
    FoldForgetsStart((c, tick) => Prepare(f, c, recording, tick), start, Empty(), ticks, n);
  }

  function Seen(ticks: seq<int>, n: nat): set<int>
    requires n <= |ticks|
  {
    set k | 0 <= k < n :: ticks[k]
  }

  /** Nothing is stored for another recording. */
  ghost predicate Serves<E, P>(c: Cache<E, P>, recording: Recording) {
    Bound(c, recording) || c == Empty()
  }

  lemma ReadAddsTick<E(!new), P>(f: Projector<E, P>, c: Cache<E, P>, recording: Recording, tick: int)
    requires Valid(f, c) && Serves(c, recording)
    requires |c.projections.Keys + {tick}| <= MAX_CACHED_REPLAY_PROJECTIONS
    ensures var t := Prepare(f, c, recording, tick);
            t.projections.Keys == c.projections.Keys + {tick} && Bound(t, recording)
  {
    var bound := Bind(f, c, recording);
    assert bound.projections == c.projections;
    if tick !in bound.projections {
      InsertWithoutEviction(f, bound, recording, tick);
    }
  }

  lemma MissAppendsTick<E(!new), P>(f: Projector<E, P>, c: Cache<E, P>, recording: Recording, tick: int)
    requires Valid(f, c) && Serves(c, recording) && tick !in c.order
    ensures var t := Prepare(f, c, recording, tick);
            && Bound(t, recording)
            && t.order == Slide(c.order, tick)
  {
    var bound := Bind(f, c, recording);
    assert bound.projections == c.projections && bound.order == c.order;
    InsertKeepsValid(f, bound, tick);
  }

  ghost predicate Holds<E(!new), P>(f: Projector<E, P>, c: Cache<E, P>, recording: Recording, seen: set<int>) {
    Valid(f, c) && Serves(c, recording) && c.projections.Keys == seen
  }

  lemma ReadExtends<E(!new), P>(f: Projector<E, P>, c: Cache<E, P>, recording: Recording, seen: set<int>, tick: int)
    requires Holds(f, c, recording, seen) && |seen + {tick}| <= MAX_CACHED_REPLAY_PROJECTIONS
    ensures Holds(f, Prepare(f, c, recording, tick), recording, seen + {tick})
    ensures Hit(c, recording, tick) <==> tick in seen
  {
    PrepareKeepsValid(f, c, recording, tick);
    ReadAddsTick(f, c, recording, tick);
  }

  lemma SeenGrows(ticks: seq<int>, n: nat)
    requires n < |ticks|
    ensures Seen(ticks, n + 1) == Seen(ticks, n) + {ticks[n]}
    ensures |Seen(ticks, n + 1)| <= |Seen(ticks, |ticks|)|
  {
    SubsetIsSmaller(Seen(ticks, n + 1), Seen(ticks, |ticks|));
  }

  lemma CacheHoldsSeen<E(!new), P(!new)>(f: Projector<E, P>, recording: Recording, ticks: seq<int>, n: nat)
    requires n <= |ticks| && |Seen(ticks, |ticks|)| <= MAX_CACHED_REPLAY_PROJECTIONS
    ensures Holds(f, AfterTicks(f, Empty(), recording, ticks, n), recording, Seen(ticks, n))
  {
    var inv := (c: Cache<E, P>, i: nat) => i <= |ticks| && Holds(f, c, recording, Seen(ticks, i));
    forall c, i: nat | i < |ticks| && inv(c, i)
      ensures inv(Prepare(f, c, recording, ticks[i]), i + 1)
    {
      SeenGrows(ticks, i);
      ReadExtends(f, c, recording, Seen(ticks, i), ticks[i]);
    }
    FoldKeeps((c, tick) => Prepare(f, c, recording, tick), Empty(), ticks, inv, n);
  }

  /** While at most 32 distinct ticks of a recording are read, starting in any cache that is
      not bound to it, a read projects exactly when its tick is new: every tick is projected once. */
  lemma FewTicksProjectOnce<E(!new), P(!new)>(
      f: Projector<E, P>, start: Cache<E, P>, recording: Recording, ticks: seq<int>, n: nat)
    requires !Bound(start, recording)
    requires n < |ticks| && |Seen(ticks, |ticks|)| <= 32
    ensures Hit(AfterTicks(f, start, recording, ticks, n), recording, ticks[n]) <==> ticks[n] in Seen(ticks, n)
  {
    if n > 0 {
      StartIsIrrelevant(f, start, recording, ticks, n);
      CacheHoldsSeen(f, recording, ticks, n);
      SeenGrows(ticks, n);
      ReadExtends(f, AfterTicks(f, Empty(), recording, ticks, n), recording, Seen(ticks, n), ticks[n]);
    }
  }

  lemma InsertWithoutEviction<E(!new), P>(f: Projector<E, P>, c: Cache<E, P>, recording: Recording, tick: int)
    requires tick !in c.projections && |c.projections.Keys + {tick}| <= MAX_CACHED_REPLAY_PROJECTIONS
    ensures Insert(c, tick, Direct(f, recording, tick)).projections == c.projections[tick := Direct(f, recording, tick)]
  {
    assert c.projections[tick := Direct(f, recording, tick)].Keys == c.projections.Keys + {tick};
  }

  /** The `k`-th read of laps over the ticks in `lap`. */
  function LapTick(lap: seq<int>, k: nat): int
    requires lap != []
  {
    lap[Modulo(k, |lap|)]
  }

  function LapReads(lap: seq<int>, k: nat): seq<int>
    requires lap != []
  {
    seq(k, i requires 0 <= i < k => LapTick(lap, i))
  }

  /** The ticks of the last `m` of `k` reads. */
  function Window(lap: seq<int>, k: nat, m: nat): seq<int>
    requires lap != [] && m <= k
  {
    LapReads(lap, k)[k - m..]
  }

  lemma NextTickIsOutsideWindow(lap: seq<int>, k: nat, m: nat)
    requires Distinct(lap) && m <= k && m < |lap|
    ensures LapTick(lap, k) !in Window(lap, k, m)
  {
    var w := Window(lap, k, m);
    forall j | 0 <= j < |w|
      ensures w[j] != LapTick(lap, k)
    {
      assert w[j] == LapReads(lap, k)[k - m + j];
      ModuloDiffers(k - m + j, k, |lap|);
    }
  }

  function WindowSize(k: nat): nat {
    if k < MAX_CACHED_REPLAY_PROJECTIONS then k else MAX_CACHED_REPLAY_PROJECTIONS
  }

  lemma WindowSlides(lap: seq<int>, k: nat)
    requires lap != []
    ensures var before, tick := Window(lap, k, WindowSize(k)), LapTick(lap, k);
            Window(lap, k + 1, WindowSize(k + 1))
            == Slide(before, tick)
  {
    assert LapReads(lap, k + 1) == LapReads(lap, k) + [LapTick(lap, k)];
  }

  function Slide(window: seq<int>, tick: int): seq<int> {
    if |window| == MAX_CACHED_REPLAY_PROJECTIONS then window[1..] + [tick] else window + [tick]
  }

  /** What a cache that never hits retains of `k` lap reads. */
  function Held(lap: seq<int>, k: nat): seq<int>
    requires lap != []
  {
    if k == 0 then [] else Slide(Held(lap, k - 1), LapTick(lap, k - 1))
  }

  lemma {:induction false} HeldIsWindow(lap: seq<int>, k: nat)
    requires lap != []
    ensures Held(lap, k) == Window(lap, k, WindowSize(k))
  {
    if k > 0 {
      HeldIsWindow(lap, k - 1);
      WindowSlides(lap, k - 1);
    }
  }

  lemma NextTickIsNotHeld(lap: seq<int>, k: nat)
    requires Distinct(lap) && |lap| > MAX_CACHED_REPLAY_PROJECTIONS
    ensures LapTick(lap, k) !in Held(lap, k)
  {
    HeldIsWindow(lap, k);
    NextTickIsOutsideWindow(lap, k, WindowSize(k));
  }

  ghost predicate HoldsWindow<E(!new), P>(f: Projector<E, P>, c: Cache<E, P>, recording: Recording, window: seq<int>) {
    Valid(f, c) && Serves(c, recording) && c.order == window
  }

  lemma MissSlides<E(!new), P>(f: Projector<E, P>, c: Cache<E, P>, recording: Recording, window: seq<int>, tick: int)
    requires HoldsWindow(f, c, recording, window) && tick !in window
    ensures HoldsWindow(f, Prepare(f, c, recording, tick), recording,
                        Slide(window, tick))
    ensures !Hit(c, recording, tick)
  {
    MissAppendsTick(f, c, recording, tick);
    PrepareKeepsValid(f, c, recording, tick);
  }

  lemma AfterOneMore<E(!new), P>(f: Projector<E, P>, recording: Recording, ticks: seq<int>, n: nat)
    requires 0 < n <= |ticks|
    ensures AfterTicks(f, Empty(), recording, ticks, n)
            == Prepare(f, AfterTicks(f, Empty(), recording, ticks, n - 1), recording, ticks[n - 1])
  {
  }

  lemma {:induction false} LapsFillWindow<E(!new), P>(f: Projector<E, P>, recording: Recording, lap: seq<int>,
                                                      k: nat, n: nat)
    requires Distinct(lap) && |lap| > MAX_CACHED_REPLAY_PROJECTIONS && n <= k
    ensures HoldsWindow(f, AfterTicks(f, Empty(), recording, LapReads(lap, k), n), recording, Held(lap, n))
  {
    if n > 0 {
      LapsFillWindow(f, recording, lap, k, n - 1);
      AfterOneMore(f, recording, LapReads(lap, k), n);
      LapReadSlides(f, recording, lap, AfterTicks(f, Empty(), recording, LapReads(lap, k), n - 1), n - 1);
    }
  }

  lemma LapReadSlides<E(!new), P>(f: Projector<E, P>, recording: Recording, lap: seq<int>, c: Cache<E, P>, i: nat)
    requires Distinct(lap) && |lap| > MAX_CACHED_REPLAY_PROJECTIONS
    requires HoldsWindow(f, c, recording, Held(lap, i))
    ensures HoldsWindow(f, Prepare(f, c, recording, LapTick(lap, i)), recording, Held(lap, i + 1))
  {
    NextTickIsNotHeld(lap, i);
    MissSlides(f, c, recording, Held(lap, i), LapTick(lap, i));
  }

  /** Laps over more than 32 ticks never hit, starting in any cache that is not bound to the
      recording: after the first read the cache holds exactly the last 32 reads, and the next
      tick of the lap is never among them. */
  lemma LongLapsNeverHit<E(!new), P(!new)>(
      f: Projector<E, P>, start: Cache<E, P>, recording: Recording, lap: seq<int>, k: nat)
    requires !Bound(start, recording)
    requires Distinct(lap) && |lap| > 32
    ensures k > 0 ==>
              AfterTicks(f, start, recording, LapReads(lap, k), k).order == Window(lap, k, if k < 32 then k else 32)
    ensures !Hit(AfterTicks(f, start, recording, LapReads(lap, k), k), recording, LapTick(lap, k))
  {
    if k > 0 {
      StartIsIrrelevant(f, start, recording, LapReads(lap, k), k);
      LapsFillWindow(f, recording, lap, k, k);
      HeldIsWindow(lap, k);
      NextTickIsNotHeld(lap, k);
    }
  }
}

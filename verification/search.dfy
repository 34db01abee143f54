/**
 * The nearest-feature search: metadata defaults, the ring-by-ring expansion
 * around the target tile, the bounded accumulation of the best results and
 * the stopping rule driven by the lower bound on the next ring's distances.
 */
module Search {
  import opened Wrappers
  import opened Tile
  import opened Results
  import opened Seqs

  // ---------------------------------------------------------------------------
  // Metadata defaults
  // ---------------------------------------------------------------------------

  /** Metadata as supplied by the caller: any field may be absent. */
  datatype PartialMetadata = PartialMetadata(
    originX: Option<real>, originY: Option<real>, span: Option<real>,
    crs: Option<string>, maxzoom: Option<nat>)

  /** The world-wide EPSG:3857 tiling. */
  const MercatorSpan: real := 20037508.34 * 2.0
  const MercatorOriginX: real := -20037508.34
  const MercatorOriginY: real := 20048966.1
  const MercatorCrs: string := "EPSG:3857"
  const DefaultMaxZoom: nat := 12

  /**
   * Each field is taken from the caller's metadata when present and from the
   * EPSG:3857 world tiling otherwise, field by field; a present zero is kept.
   */
  function MergeMetadata(opt: Option<PartialMetadata>): (m: Metadata)
    ensures opt.Some? && opt.value.originX.Some? ==> m.originX == opt.value.originX.value
    ensures opt.Some? && opt.value.originY.Some? ==> m.originY == opt.value.originY.value
    ensures opt.Some? && opt.value.span.Some? ==> m.span == opt.value.span.value
    ensures opt.Some? && opt.value.crs.Some? ==> m.crs == opt.value.crs.value
    ensures opt.Some? && opt.value.maxzoom.Some? ==> m.maxzoom == opt.value.maxzoom.value
    ensures (opt.None? || opt.value.originX.None?) ==> m.originX == MercatorOriginX
    ensures (opt.None? || opt.value.originY.None?) ==> m.originY == MercatorOriginY
    ensures (opt.None? || opt.value.span.None?) ==> m.span == MercatorSpan
    ensures (opt.None? || opt.value.crs.None?) ==> m.crs == MercatorCrs
    ensures (opt.None? || opt.value.maxzoom.None?) ==> m.maxzoom == DefaultMaxZoom
  {
    var p := opt.GetOr(PartialMetadata(None, None, None, None, None));
    Metadata(p.originX.GetOr(MercatorOriginX), p.originY.GetOr(MercatorOriginY), p.span.GetOr(MercatorSpan),
             p.crs.GetOr(MercatorCrs), p.maxzoom.GetOr(DefaultMaxZoom))
  }

  /** Complete metadata, every field present. */
  function Complete(m: Metadata): PartialMetadata
  {
    PartialMetadata(Some(m.originX), Some(m.originY), Some(m.span), Some(m.crs), Some(m.maxzoom))
  }

  /** Complete metadata passes through unchanged, so merging twice is merging once. */
  lemma MergeIdempotent(opt: Option<PartialMetadata>)
    ensures MergeMetadata(Some(Complete(MergeMetadata(opt)))) == MergeMetadata(opt)
  {
  }

  /** Without metadata the search runs on the EPSG:3857 world tiling at zoom 12, whose tiles have positive size. */
  lemma MergeDefaults()
    ensures var m := MergeMetadata(None);
      m == Metadata(MercatorOriginX, MercatorOriginY, MercatorSpan, MercatorCrs, 12) && TileSize(m) > 0.0
  {
  }

  // ---------------------------------------------------------------------------
  // Options and external services
  // ---------------------------------------------------------------------------

  /** The options of a search; the target is given already projected into the tileset's reference system. */
  datatype SearchOptions<-F> = SearchOptions(
    url: string, metadata: Option<PartialMetadata>, target: ProjPoint,
    maxRadius: Option<real>, maxFeatures: Option<int>, filter: Option<F -> bool>)

  /**
   * What the search delegates: `retrieve` fetches and decodes one tile,
   * `isPoint` tells a point geometry, `pointDistance` and `centroidDistance`
   * are the geodesic distances in km from the target to a point feature and
   * to the centroid of any other feature, `edgeDistance` is the distance from
   * the target to a segment between two projected points.
   */
  datatype Services<!F> = Services(
    retrieve: (string, TileAddr) -> Option<seq<F>>,
    isPoint: F -> bool,
    pointDistance: F -> real,
    centroidDistance: F -> real,
    edgeDistance: (ProjPoint, ProjPoint) -> real)

  function Merged<F>(opts: SearchOptions<F>): Metadata
  {
    MergeMetadata(opts.metadata)
  }

  function MaxFeatures<F>(opts: SearchOptions<F>): int
  {
    opts.maxFeatures.GetOr(1)
  }

  function MaxRadius<F>(opts: SearchOptions<F>): real
  {
    opts.maxRadius.GetOr(10.0)
  }

  /** The lower bound on the distance of any feature in ring `d` around the target tile. */
  function Bound<F>(opts: SearchOptions<F>, svc: Services<F>, d: int): real
    requires Merged(opts).span != 0.0
  {
    ShortestDistance(ResolveTile(opts.target, Merged(opts)), Merged(opts), d, svc.edgeDistance)
  }

  // ---------------------------------------------------------------------------
  // What a search looks at
  // ---------------------------------------------------------------------------

  /** `features.filter(keep)`: the kept features, in order. */
  function Filter<F>(fs: seq<F>, keep: F -> bool): (r: seq<F>)
    ensures |r| <= |fs|
  {
    if fs == [] then []
    else
      var last := fs[|fs| - 1];
      Filter(fs[..|fs| - 1], keep) + (if keep(last) then [last] else [])
  }

  lemma {:induction false} FilterMembership<F>(fs: seq<F>, keep: F -> bool, f: F)
    ensures f in Filter(fs, keep) <==> f in fs && keep(f)
    decreases |fs|
  {
    if fs != [] {
      FilterMembership(fs[..|fs| - 1], keep, f);
      assert fs == fs[..|fs| - 1] + [fs[|fs| - 1]];
    }
  }

  /** Filtering keeps every copy of a kept element and no copy of a rejected one. */
  lemma {:induction false} FilterMultiset<F>(fs: seq<F>, keep: F -> bool, f: F)
    ensures multiset(Filter(fs, keep))[f] == if keep(f) then multiset(fs)[f] else 0
    decreases |fs|
  {
    if fs != [] {
      FilterMultiset(fs[..|fs| - 1], keep, f);
      assert fs == fs[..|fs| - 1] + [fs[|fs| - 1]];
    }
  }

  /** The distance of a feature: to its coordinates for a point, to its centroid otherwise. */
  function Score<F>(svc: Services<F>, f: F): real
  {
    if svc.isPoint(f) then svc.pointDistance(f) else svc.centroidDistance(f)
  }

  /** The scored features of `fs` within the radius, in order. */
  function Scored<F>(svc: Services<F>, fs: seq<F>, maxRadius: real): seq<Result<F>>
  {
    if fs == [] then []
    else
      var last := fs[|fs| - 1];
      var d := Score(svc, last);
      Scored(svc, fs[..|fs| - 1], maxRadius) + (if d <= maxRadius then [Result(d, last)] else [])
  }

  /** A result is scored exactly when it pairs a listed feature with its distance, and that distance is within the radius. */
  lemma {:induction false} ScoredMembership<F>(svc: Services<F>, fs: seq<F>, maxRadius: real, r: Result<F>)
    ensures r in Scored(svc, fs, maxRadius)
        <==> r.feature in fs && r.distance == Score(svc, r.feature) && r.distance <= maxRadius
    decreases |fs|
  {
    if fs != [] {
      ScoredMembership(svc, fs[..|fs| - 1], maxRadius, r);
      assert fs == fs[..|fs| - 1] + [fs[|fs| - 1]];
    }
  }

  /** The features one iteration looks at: the target tile itself in the first, then the ring, then the caller's filter. */
  function RingFeatures<F>(opts: SearchOptions<F>, svc: Services<F>, d: nat): seq<F>
    requires Merged(opts).span != 0.0
  {
    var m := Merged(opts);
    var q := ResolveTile(opts.target, m);
    var fs := (if d == 1 then RetrieveTile(opts.url, q, m, svc.retrieve) else [])
              + Gather(opts.url, Ring(q, d, TileCount(m)), m, svc.retrieve);
    match opts.filter
    case None => fs
    case Some(keep) => Filter(fs, keep)
  }

  /** The candidates of a run of iterations, given the features each looked at, in the order they are offered. */
  function Candidates<F>(svc: Services<F>, batches: seq<seq<F>>, maxRadius: real): seq<Result<F>>
  {
    if batches == [] then []
    else Candidates(svc, batches[..|batches| - 1], maxRadius) + Scored(svc, batches[|batches| - 1], maxRadius)
  }

  /** `batches` holds, in order, the features of the first |batches| iterations. */
  ghost predicate Scanned<F>(opts: SearchOptions<F>, svc: Services<F>, batches: seq<seq<F>>)
    requires Merged(opts).span != 0.0
  {
    forall d :: 1 <= d <= |batches| ==> batches[d - 1] == RingFeatures(opts, svc, d)
  }

  /** The features of the first `n` iterations, in order. */
  function Batches<F>(opts: SearchOptions<F>, svc: Services<F>, n: nat): (bs: seq<seq<F>>)
    requires Merged(opts).span != 0.0
    ensures |bs| == n
  {
    if n == 0 then [] else Batches(opts, svc, n - 1) + [RingFeatures(opts, svc, n)]
  }

  /** `Batches` lists what each iteration looks at. */
  lemma {:induction false} BatchesScanned<F>(opts: SearchOptions<F>, svc: Services<F>, n: nat)
    requires Merged(opts).span != 0.0
    ensures Scanned(opts, svc, Batches(opts, svc, n))
  {
    if n > 0 {
      var init := Batches(opts, svc, n - 1);
      var bs := Batches(opts, svc, n);
      BatchesScanned(opts, svc, n - 1);
      forall d | 1 <= d <= n ensures bs[d - 1] == RingFeatures(opts, svc, d) {
        if d < n {
          assert bs[d - 1] == init[d - 1];
        }
      }
    }
  }

  /** What the iterations look at depends only on how many there were. */
  lemma ScannedUnique<F>(opts: SearchOptions<F>, svc: Services<F>, batches: seq<seq<F>>)
    requires Merged(opts).span != 0.0 && Scanned(opts, svc, batches)
    ensures batches == Batches(opts, svc, |batches|)
  {
    var bs := Batches(opts, svc, |batches|);
    BatchesScanned(opts, svc, |batches|);
    forall i | 0 <= i < |batches| ensures batches[i] == bs[i] {
      assert batches[(i + 1) - 1] == RingFeatures(opts, svc, i + 1);
      assert bs[(i + 1) - 1] == RingFeatures(opts, svc, i + 1);
    }
  }

  /** With a filter, every feature an iteration looks at passes it. */
  lemma RingFeaturesPass<F>(opts: SearchOptions<F>, svc: Services<F>, d: nat, f: F)
    requires Merged(opts).span != 0.0 && opts.filter.Some? && f in RingFeatures(opts, svc, d)
    ensures opts.filter.value(f)
  {
    var m := Merged(opts);
    var q := ResolveTile(opts.target, m);
    var fs := (if d == 1 then RetrieveTile(opts.url, q, m, svc.retrieve) else [])
              + Gather(opts.url, Ring(q, d, TileCount(m)), m, svc.retrieve);
    FilterMembership(fs, opts.filter.value, f);
  }

  /**
   * A result is a candidate exactly when it pairs a feature some iteration
   * looked at with that feature's distance, and the distance is within the radius.
   */
  lemma {:induction false} CandidatesMembership<F>(svc: Services<F>, batches: seq<seq<F>>, maxRadius: real,
                                                   r: Result<F>)
    ensures r in Candidates(svc, batches, maxRadius)
        <==> (exists i :: 0 <= i < |batches| && r.feature in batches[i])
             && r.distance == Score(svc, r.feature) && r.distance <= maxRadius
    decreases |batches|
  {
    if batches != [] {
      var n := |batches|;
      var init := batches[..n - 1];
      CandidatesMembership(svc, init, maxRadius, r);
      ScoredMembership(svc, batches[n - 1], maxRadius, r);
      assert forall i :: 0 <= i < n - 1 ==> init[i] == batches[i];
      if exists i :: 0 <= i < |batches| && r.feature in batches[i] {
        var i :| 0 <= i < |batches| && r.feature in batches[i];
        if i < n - 1 {
          assert r.feature in init[i];
        }
      }
    }
  }

  /** A filter that rejects every feature leaves no candidates. */
  lemma RejectAllNoCandidates<F>(opts: SearchOptions<F>, svc: Services<F>, batches: seq<seq<F>>, maxRadius: real)
    requires Merged(opts).span != 0.0 && Scanned(opts, svc, batches)
    requires opts.filter.Some? && forall f :: !opts.filter.value(f)
    ensures Candidates(svc, batches, maxRadius) == []
  {
    var c := Candidates(svc, batches, maxRadius);
    if c != [] {
      CandidatesMembership(svc, batches, maxRadius, c[0]);
      var i :| 0 <= i < |batches| && c[0].feature in batches[i];
      assert batches[(i + 1) - 1] == RingFeatures(opts, svc, i + 1);
      RingFeaturesPass(opts, svc, i + 1, c[0].feature);
    }
  }

  // ---------------------------------------------------------------------------
  // Keeping the best results
  // ---------------------------------------------------------------------------

  /** How many results are kept out of `n` candidates when at most `k` are wanted. */
  function KeepCount(k: int, n: nat): (c: nat)
    ensures c <= n && (k > 0 ==> c <= k)
    ensures k > 0 && c < n ==> c == k
  {
    if k <= 0 then 0 else if n < k then n else k
  }

  /**
   * `kept` is a best-`k` selection of `seen`: drawn from it, as many as
   * wanted and available, and no candidate left out is nearer than one kept.
   */
  ghost predicate TopK<F>(kept: seq<Result<F>>, seen: seq<Result<F>>, k: int)
  {
    && multiset(kept) <= multiset(seen)
    && |kept| == KeepCount(k, |seen|)
    && forall a, b :: a in multiset(seen) - multiset(kept) && b in kept ==> b.distance <= a.distance
  }

  /** A multiset holding no more copies of anything than another is no larger. */
  lemma SubMultisetSize<T>(a: multiset<T>, b: multiset<T>)
    requires forall x :: a[x] <= b[x]
    ensures |a| <= |b|
  {
    assert b == a + (b - a);
  }

  /** The test for a result no farther than `bound`. */
  function WithinBound<F>(bound: real): Result<F> -> bool
  {
    (r: Result<F>) => r.distance <= bound
  }

  /**
   * When a best selection holds a result farther than `bound`, every
   * candidate within `bound` is kept, so fewer candidates than it holds lie
   * within `bound`.
   */
  lemma FewWithin<F>(kept: seq<Result<F>>, seen: seq<Result<F>>, k: int, b: Result<F>, bound: real)
    requires TopK(kept, seen, k) && b in kept && b.distance > bound
    ensures |Filter(seen, WithinBound(bound))| < |kept|
  {
    var near := multiset(Filter(seen, WithinBound(bound)));
    var rest := multiset(kept) - multiset{b};
    forall x ensures near[x] <= rest[x] {
      FilterMultiset(seen, WithinBound(bound), x);
      if x.distance <= bound {
        assert x !in multiset(seen) - multiset(kept);
        assert x != b;
      }
    }
    SubMultisetSize(near, rest);
    assert multiset(kept) == rest + multiset{b};
  }

  /** `seen` splits into the heap's contents and the dropped candidates, none of which is nearer than one kept. */
  ghost predicate Split<F>(seen: seq<Result<F>>, kept: seq<Result<F>>, dropped: multiset<Result<F>>, k: int)
  {
    && multiset(seen) == multiset(kept) + dropped
    && |kept| == KeepCount(k, |seen|)
    && forall a, b :: a in dropped && b in kept ==> b.distance <= a.distance
  }

  lemma SplitTopK<F>(seen: seq<Result<F>>, kept: seq<Result<F>>, dropped: multiset<Result<F>>, k: int)
    requires Split(seen, kept, dropped, k)
    ensures TopK(kept, seen, k)
  {
    assert multiset(seen) - multiset(kept) == dropped;
  }

  /** While fewer than wanted are held nothing has been dropped, and a pushed candidate is simply added. */
  lemma SplitAdd<F>(seen: seq<Result<F>>, kept: seq<Result<F>>, dropped: multiset<Result<F>>, k: int,
                    r: Result<F>, kept': seq<Result<F>>)
    requires Split(seen, kept, dropped, k) && |kept| < k
    requires multiset(kept') == multiset(kept) + multiset{r}
    ensures dropped == multiset{}
    ensures Split(seen + [r], kept', dropped, k)
  {
    assert |multiset(seen)| == |multiset(kept)| + |dropped|;
    assert multiset(seen + [r]) == multiset(seen) + multiset{r};
  }

  /** A candidate nearer than the farthest held replaces it once the heap is full. */
  lemma SplitReplace<F>(seen: seq<Result<F>>, kept: seq<Result<F>>, dropped: multiset<Result<F>>, k: int,
                        r: Result<F>, kept': seq<Result<F>>)
    requires Split(seen, kept, dropped, k) && |kept| >= k && kept != []
    requires forall b :: b in kept ==> b.distance <= kept[0].distance
    requires r.distance < kept[0].distance
    requires multiset(kept') + multiset{kept[0]} == multiset(kept) + multiset{r}
    ensures Split(seen + [r], kept', dropped + multiset{kept[0]}, k)
  {
    var top := kept[0];
    assert top in multiset(kept);
    calc {
      multiset(seen + [r]);
      multiset(seen) + multiset{r};
      multiset(kept) + multiset{r} + dropped;
      multiset(kept') + (dropped + multiset{top});
    }
    forall a, b | a in dropped + multiset{top} && b in kept' ensures b.distance <= a.distance {
      assert b in multiset(kept') + multiset{top};
      if b != r {
        assert b in kept;
      }
    }
  }

  /** A candidate that is not pushed, or pushed and popped again, joins the dropped ones. */
  lemma SplitDrop<F>(seen: seq<Result<F>>, kept: seq<Result<F>>, dropped: multiset<Result<F>>, k: int, r: Result<F>)
    requires Split(seen, kept, dropped, k) && |kept| >= k
    requires forall b :: b in kept ==> b.distance <= r.distance
    ensures Split(seen + [r], kept, dropped + multiset{r}, k)
  {
    assert multiset(seen + [r]) == multiset(seen) + multiset{r};
  }

  /** The admission test: fewer than `maxFeatures` are held, or `d` is nearer than the farthest held (than infinity when none is). */
  method Admits<F>(heap: ResultHeap<F>, d: real, maxFeatures: int) returns (admit: bool)
    requires heap.Valid()
    ensures admit <==> |heap.items| < maxFeatures || heap.items == [] || d < heap.items[0].distance
  {
    var size := heap.Size();
    admit := size < maxFeatures;
    if !admit {
      var top := heap.Peek();
      admit := top.None? || d < top.value.distance;
    }
  }

  /** Adding `r` and then removing `top`, which was held before, is the same as removing `top` first. */
  lemma Evicted<T>(before: multiset<T>, after: multiset<T>, top: T, r: T)
    requires top in before && multiset{top} + after == before + multiset{r}
    ensures after == before - multiset{top} + multiset{r}
  {
    forall x ensures after[x] == (before - multiset{top} + multiset{r})[x] {
      assert (multiset{top} + after)[x] == (before + multiset{r})[x];
    }
  }

  /** The heap after a bounded push, related to the one before as the push and the eviction leave it, keeps the split. */
  lemma PushedSplit<F>(seen: seq<Result<F>>, kept: seq<Result<F>>, dropped: multiset<Result<F>>, k: int,
                       r: Result<F>, kept': seq<Result<F>>)
    returns (dropped': multiset<Result<F>>)
    requires Split(seen, kept, dropped, k) && WorstFirst(kept)
    requires |kept| < k || kept == [] || r.distance < kept[0].distance
    requires |kept| < k ==> multiset(kept') == multiset(kept) + multiset{r}
    requires |kept| >= k && kept != [] ==> multiset(kept') == multiset(kept) - multiset{kept[0]} + multiset{r}
    requires |kept| >= k && kept == [] ==> kept' == []
    ensures Split(seen + [r], kept', dropped', k)
  {
    if |kept| < k {
      SplitAdd(seen, kept, dropped, k, r, kept');
      dropped' := dropped;
    } else if kept == [] {
      SplitDrop(seen, kept, dropped, k, r);
      dropped' := dropped + multiset{r};
    } else {
      TopIsFarthest(kept);
      assert kept[0] in multiset(kept);
      SplitReplace(seen, kept, dropped, k, r, kept');
      dropped' := dropped + multiset{kept[0]};
    }
  }

  /** An admitted result is pushed, and the farthest popped when the heap then holds more than `maxFeatures`. */
  method PushBounded<F>(heap: ResultHeap<F>, r: Result<F>, maxFeatures: int,
                        ghost seen: seq<Result<F>>, ghost dropped: multiset<Result<F>>)
    returns (ghost dropped': multiset<Result<F>>)
    requires heap.Valid() && Split(seen, heap.items, dropped, maxFeatures)
    requires |heap.items| < maxFeatures || heap.items == [] || r.distance < heap.items[0].distance
    modifies heap
    ensures heap.Valid() && Split(seen + [r], heap.items, dropped', maxFeatures)
    ensures |old(heap.items)| < maxFeatures ==> multiset(heap.items) == multiset(old(heap.items)) + multiset{r}
    ensures |old(heap.items)| >= maxFeatures && old(heap.items) != [] ==>
              multiset(heap.items) == multiset(old(heap.items)) - multiset{old(heap.items)[0]} + multiset{r}
    ensures |old(heap.items)| >= maxFeatures && old(heap.items) == [] ==> heap.items == []
  {
    ghost var before := heap.items;
    heap.Push(r);
    var size := heap.Size();
    if size > maxFeatures {
      ghost var pushed := heap.items;
      var _ := heap.Pop();
      assert pushed == [pushed[0]] + heap.items;
      assert multiset(pushed) == multiset{pushed[0]} + multiset(heap.items);
      if before != [] {
        assert pushed[0] == before[0] && before[0] in multiset(before);
        Evicted(multiset(before), multiset(heap.items), before[0], r);
      }
    }
    dropped' := PushedSplit(seen, before, dropped, maxFeatures, r, heap.items);
  }

  /**
   * The body of the loop over one iteration's features: a feature within the
   * radius is pushed while fewer than `maxFeatures` are held or when it is
   * nearer than the farthest held, and the farthest is popped when the heap
   * then holds too many.
   */
  method Offer<F>(heap: ResultHeap<F>, d: real, f: F, maxFeatures: int, maxRadius: real,
                  ghost seen: seq<Result<F>>, ghost dropped: multiset<Result<F>>)
    returns (ghost dropped': multiset<Result<F>>)
    requires heap.Valid() && Split(seen, heap.items, dropped, maxFeatures)
    modifies heap
    ensures heap.Valid()
    ensures Split(seen + (if d <= maxRadius then [Result(d, f)] else []), heap.items, dropped', maxFeatures)
    ensures d <= maxRadius && |old(heap.items)| < maxFeatures ==>
              multiset(heap.items) == multiset(old(heap.items)) + multiset{Result(d, f)}
    ensures d <= maxRadius && |old(heap.items)| >= maxFeatures && old(heap.items) != []
            && d < old(heap.items)[0].distance ==>
              multiset(heap.items) == multiset(old(heap.items)) - multiset{old(heap.items)[0]} + multiset{Result(d, f)}
    ensures d > maxRadius || (|old(heap.items)| >= maxFeatures && (old(heap.items) == [] || d >= old(heap.items)[0].distance))
            ==> heap.items == old(heap.items)
  {
    if d > maxRadius {
      assert seen + [] == seen;
      return dropped;
    }
    var admit := Admits(heap, d, maxFeatures);
    if admit {
      dropped' := PushBounded(heap, Result(d, f), maxFeatures, seen, dropped);
    } else {
      TopIsFarthest(heap.items);
      SplitDrop(seen, heap.items, dropped, maxFeatures, Result(d, f));
      dropped' := dropped + multiset{Result(d, f)};
    }
  }

  // ---------------------------------------------------------------------------
  // The search
  // ---------------------------------------------------------------------------

  /**
   * The loop's exit test on results listed nearest first: the bound for the
   * next ring exceeds the radius, or `k` results are held and the farthest is
   * no farther than that bound.
   */
  ghost predicate Finished<F>(results: seq<Result<F>>, bound: real, k: int, maxRadius: real)
  {
    || bound > maxRadius
    || (|results| >= k && |results| > 0 && results[|results| - 1].distance <= bound)
  }

  /** The same test on the heap's contents, listed farthest first. */
  ghost predicate Exhausted<F>(kept: seq<Result<F>>, bound: real, k: int, maxRadius: real)
  {
    || bound > maxRadius
    || (|kept| >= k && |kept| > 0 && kept[0].distance <= bound)
  }

  /**
   * The loop has stopped by the end of iteration `horizon - 1`: the exit
   * test fails there at the latest, because the bound for ring `horizon`
   * exceeds the radius, or because at least `maxFeatures` (a positive
   * number) of the candidates seen so far lie within that bound. Runs for
   * which no such `horizon` exists are the runs that never stop.
   */
  ghost predicate ExitsBy<F>(opts: SearchOptions<F>, svc: Services<F>, horizon: nat)
    requires Merged(opts).span != 0.0
  {
    && horizon >= 2
    && var bound := Bound(opts, svc, horizon);
       var seen := Candidates(svc, Batches(opts, svc, horizon - 1), MaxRadius(opts));
       || bound > MaxRadius(opts)
       || (MaxFeatures(opts) > 0 && |Filter(seen, WithinBound(bound))| >= MaxFeatures(opts))
  }

  /** Whatever the heap holds after iteration `horizon - 1`, the exit test succeeds there. */
  lemma ExitReached<F>(opts: SearchOptions<F>, svc: Services<F>, horizon: nat, batches: seq<seq<F>>,
                       kept: seq<Result<F>>, dropped: multiset<Result<F>>)
    requires Merged(opts).span != 0.0 && ExitsBy(opts, svc, horizon)
    requires Scanned(opts, svc, batches) && |batches| + 1 == horizon
    requires Split(Candidates(svc, batches, MaxRadius(opts)), kept, dropped, MaxFeatures(opts))
    ensures Exhausted(kept, Bound(opts, svc, |batches| + 1), MaxFeatures(opts), MaxRadius(opts))
  {
    var bound := Bound(opts, svc, horizon);
    if bound <= MaxRadius(opts) {
      var seen := Candidates(svc, batches, MaxRadius(opts));
      ScannedUnique(opts, svc, batches);
      SplitTopK(seen, kept, dropped, MaxFeatures(opts));
      assert |seen| >= |Filter(seen, WithinBound(bound))| >= MaxFeatures(opts);
      if kept[0].distance > bound {
        FewWithin(kept, seen, MaxFeatures(opts), kept[0], bound);
      }
    }
  }

  /**
   * `history[j]` is the heap's contents after iteration `j + 1`, listed
   * farthest first: a best selection of the candidates seen so far, on
   * which the exit test failed.
   */
  ghost predicate Continued<F>(opts: SearchOptions<F>, svc: Services<F>, batches: seq<seq<F>>,
                               history: seq<seq<Result<F>>>, k: int, maxRadius: real)
    requires Merged(opts).span != 0.0 && |history| == |batches|
    decreases |history|
  {
    history != [] ==>
      var n := |history|;
      && Continued(opts, svc, batches[..n - 1], history[..n - 1], k, maxRadius)
      && WorstFirst(history[n - 1])
      && TopK(history[n - 1], Candidates(svc, batches, maxRadius), k)
      && !Exhausted(history[n - 1], Bound(opts, svc, |batches| + 1), k, maxRadius)
  }

  /** The features of one iteration: the target tile's own in the first, then the ring's, then the caller's filter. */
  method CollectRing<F>(opts: SearchOptions<F>, svc: Services<F>, tileCoords: TileAddr, metadata: Metadata, distance: nat)
    returns (features: seq<F>)
    requires Merged(opts).span != 0.0
    requires metadata == Merged(opts) && tileCoords == ResolveTile(opts.target, metadata)
    ensures features == RingFeatures(opts, svc, distance)
  {
    var next, _ := RetrieveNeighboringTiles(opts.url, tileCoords, metadata, distance, svc.retrieve);
    var first := if distance == 1 then RetrieveTile(opts.url, tileCoords, metadata, svc.retrieve) else [];
    features := first + next;
    if opts.filter.Some? {
      features := Filter(features, opts.filter.value);
    }
  }

  /** Scoring one more feature appends its result when it lies within the radius. */
  lemma ScoredStep<F>(svc: Services<F>, seen: seq<Result<F>>, fs: seq<F>, i: nat, maxRadius: real)
    requires i < |fs|
    ensures seen + Scored(svc, fs[..i], maxRadius)
              + (if Score(svc, fs[i]) <= maxRadius then [Result(Score(svc, fs[i]), fs[i])] else [])
         == seen + Scored(svc, fs[..i + 1], maxRadius)
  {
    assert fs[..i + 1][..i] == fs[..i];
  }

  /** The loop over one iteration's features, offering each with its distance in order. */
  method OfferAll<F>(heap: ResultHeap<F>, svc: Services<F>, features: seq<F>, maxFeatures: int, maxRadius: real,
                     ghost seen: seq<Result<F>>, ghost dropped: multiset<Result<F>>)
    returns (ghost dropped': multiset<Result<F>>)
    requires heap.Valid() && Split(seen, heap.items, dropped, maxFeatures)
    modifies heap
    ensures heap.Valid()
    ensures Split(seen + Scored(svc, features, maxRadius), heap.items, dropped', maxFeatures)
  {
    dropped' := dropped;
    for i := 0 to |features|
      invariant heap.Valid()
      invariant Split(seen + Scored(svc, features[..i], maxRadius), heap.items, dropped', maxFeatures)
    {
      var f := features[i];
      var d := Score(svc, f);
      ScoredStep(svc, seen, features, i, maxRadius);
      ghost var offered := seen + Scored(svc, features[..i], maxRadius);
      dropped' := Offer(heap, d, f, maxFeatures, maxRadius, offered, dropped');
      assert offered + (if d <= maxRadius then [Result(d, f)] else [])
          == seen + Scored(svc, features[..i + 1], maxRadius);
    }
    assert features[..|features|] == features;
  }

  /** One iteration of the search loop before its exit test: the ring at `distance` is retrieved and its features offered. */
  method ScanRing<F>(heap: ResultHeap<F>, opts: SearchOptions<F>, svc: Services<F>, tileCoords: TileAddr,
                     metadata: Metadata, distance: nat, maxFeatures: int, maxRadius: real,
                     ghost batches: seq<seq<F>>, ghost dropped: multiset<Result<F>>)
    returns (ghost batches': seq<seq<F>>, ghost dropped': multiset<Result<F>>)
    requires Merged(opts).span != 0.0 && |batches| == distance - 1 && distance >= 1
    requires metadata == Merged(opts) && tileCoords == ResolveTile(opts.target, metadata)
    requires heap.Valid() && Scanned(opts, svc, batches)
    requires Split(Candidates(svc, batches, maxRadius), heap.items, dropped, maxFeatures)
    modifies heap
    ensures heap.Valid() && |batches'| == distance && Scanned(opts, svc, batches')
    ensures batches'[..|batches|] == batches
    ensures Split(Candidates(svc, batches', maxRadius), heap.items, dropped', maxFeatures)
  {
    var features := CollectRing(opts, svc, tileCoords, metadata, distance);
    dropped' := OfferAll(heap, svc, features, maxFeatures, maxRadius, Candidates(svc, batches, maxRadius), dropped);
    batches' := batches + [features];
    assert batches'[..|batches|] == batches;
  }

  /** `shortestDistanceInNeighboringTiles` for the ring at `distance`, from the resolved metadata and target tile. */
  method LowerBound<F>(opts: SearchOptions<F>, svc: Services<F>, tileCoords: TileAddr, metadata: Metadata, distance: nat)
    returns (shortestDistance: real)
    requires Merged(opts).span != 0.0
    requires metadata == Merged(opts) && tileCoords == ResolveTile(opts.target, metadata)
    ensures shortestDistance == Bound(opts, svc, distance)
  {
    shortestDistance := ShortestDistance(tileCoords, metadata, distance, svc.edgeDistance);
  }

  /**
   * The exit test of one iteration, given the bound for the next ring: the
   * loop stops when the bound exceeds the radius, and otherwise unless fewer
   * than `maxFeatures` are held or the farthest held is farther than the bound.
   */
  method ExitTest<F>(heap: ResultHeap<F>, shortestDistance: real, maxFeatures: int, maxRadius: real)
    returns (stop: bool)
    requires heap.Valid()
    ensures stop <==> Exhausted(heap.items, shortestDistance, maxFeatures, maxRadius)
  {
    if shortestDistance > maxRadius {
      return true;
    }
    var size := heap.Size();
    var top := heap.Peek();
    stop := !(size < maxFeatures || (top.None? || top.value.distance > shortestDistance));
  }

  /** The heap's contents, drained and reversed, are a nearest-first best selection of the candidates. */
  lemma ReversedSelection<F>(seen: seq<Result<F>>, kept: seq<Result<F>>, dropped: multiset<Result<F>>, k: int)
    requires Split(seen, kept, dropped, k) && WorstFirst(kept)
    ensures Ascending(Reverse(kept)) && TopK(Reverse(kept), seen, k)
    ensures kept != [] ==> Reverse(kept)[|kept| - 1] == kept[0]
    ensures |Reverse(kept)| == |kept|
  {
    DrainReversedAscending(kept);
    SplitTopK(seen, kept, dropped, k);
    var results := Reverse(kept);
    forall b | b in results ensures b in kept {
      assert b in multiset(results);
    }
  }

  /** What the search returns once the loop has exited with `kept` in the heap. */
  lemma Conclude<F>(opts: SearchOptions<F>, svc: Services<F>, batches: seq<seq<F>>, kept: seq<Result<F>>,
                    dropped: multiset<Result<F>>)
    requires Merged(opts).span != 0.0 && WorstFirst(kept)
    requires Split(Candidates(svc, batches, MaxRadius(opts)), kept, dropped, MaxFeatures(opts))
    requires Exhausted(kept, Bound(opts, svc, |batches| + 1), MaxFeatures(opts), MaxRadius(opts))
    ensures Ascending(Reverse(kept))
    ensures TopK(Reverse(kept), Candidates(svc, batches, MaxRadius(opts)), MaxFeatures(opts))
    ensures Finished(Reverse(kept), Bound(opts, svc, |batches| + 1), MaxFeatures(opts), MaxRadius(opts))
  {
    ReversedSelection(Candidates(svc, batches, MaxRadius(opts)), kept, dropped, MaxFeatures(opts));
  }

  /** An iteration whose exit test failed extends the history by the heap's contents. */
  lemma ContinuedSnoc<F>(opts: SearchOptions<F>, svc: Services<F>, before: seq<seq<F>>, batches: seq<seq<F>>,
                         history: seq<seq<Result<F>>>, kept: seq<Result<F>>, dropped: multiset<Result<F>>,
                         k: int, maxRadius: real)
    requires Merged(opts).span != 0.0 && |history| == |before| && Continued(opts, svc, before, history, k, maxRadius)
    requires |batches| == |before| + 1 && batches[..|batches| - 1] == before
    requires WorstFirst(kept) && Split(Candidates(svc, batches, maxRadius), kept, dropped, k)
    requires !Exhausted(kept, Bound(opts, svc, |batches| + 1), k, maxRadius)
    ensures Continued(opts, svc, batches, history + [kept], k, maxRadius)
  {
    SplitTopK(Candidates(svc, batches, maxRadius), kept, dropped, k);
    assert (history + [kept])[..|history|] == history;
  }

  /**
   * Every result kept is within the radius, and a filter that rejects every
   * feature leaves nothing to keep.
   */
  lemma SelectionBounds<F>(opts: SearchOptions<F>, svc: Services<F>, batches: seq<seq<F>>,
                           results: seq<Result<F>>)
    requires Merged(opts).span != 0.0 && Scanned(opts, svc, batches)
    requires TopK(results, Candidates(svc, batches, MaxRadius(opts)), MaxFeatures(opts))
    ensures forall r :: r in results ==> r.distance <= MaxRadius(opts)
    ensures opts.filter.Some? && (forall f :: !opts.filter.value(f)) ==> results == []
  {
    forall r | r in results ensures r.distance <= MaxRadius(opts) {
      assert r in multiset(results);
      CandidatesMembership(svc, batches, MaxRadius(opts), r);
    }
    if opts.filter.Some? && forall f :: !opts.filter.value(f) {
      RejectAllNoCandidates(opts, svc, batches, MaxRadius(opts));
    }
  }

  /**
   * One pass of the do-while loop of `search`: the ring at `distance` is
   * scanned, then the loop condition is evaluated with the bound for the
   * ring after it. While the loop goes on, that ring is inside the horizon.
   */
  method Iterate<F>(heap: ResultHeap<F>, opts: SearchOptions<F>, svc: Services<F>, tileCoords: TileAddr,
                    metadata: Metadata, distance: nat, maxFeatures: int, maxRadius: real, ghost horizon: nat,
                    ghost batches: seq<seq<F>>, ghost dropped: multiset<Result<F>>)
    returns (stop: bool, ghost batches': seq<seq<F>>, ghost dropped': multiset<Result<F>>)
    requires Merged(opts).span != 0.0 && |batches| == distance - 1 && 1 <= distance < horizon
    requires metadata == Merged(opts) && tileCoords == ResolveTile(opts.target, metadata)
    requires maxFeatures == MaxFeatures(opts) && maxRadius == MaxRadius(opts) && ExitsBy(opts, svc, horizon)
    requires heap.Valid() && Scanned(opts, svc, batches)
    requires Split(Candidates(svc, batches, maxRadius), heap.items, dropped, maxFeatures)
    modifies heap
    ensures heap.Valid() && |batches'| == distance && Scanned(opts, svc, batches')
    ensures batches'[..|batches|] == batches
    ensures Split(Candidates(svc, batches', maxRadius), heap.items, dropped', maxFeatures)
    ensures stop <==> Exhausted(heap.items, Bound(opts, svc, |batches'| + 1), maxFeatures, maxRadius)
    ensures !stop ==> distance + 1 < horizon
  {
    batches', dropped' := ScanRing(heap, opts, svc, tileCoords, metadata, distance, maxFeatures, maxRadius,
                                   batches, dropped);
    var shortestDistance := LowerBound(opts, svc, tileCoords, metadata, distance + 1);
    stop := ExitTest(heap, shortestDistance, maxFeatures, maxRadius);
    if distance + 1 == horizon {
      ExitReached(opts, svc, horizon, batches', heap.items, dropped');
    }
  }

  /**
   * The do-while loop of `search`: scans ring after ring around the target
   * tile, offering each iteration's features to the heap, until the lower
   * bound for the next ring exceeds the radius or enough results are held
   * and the farthest is no farther than that bound. `batches` are the
   * features each iteration looked at, `history` the heap's contents after
   * each iteration but the last. The loop is run on inputs for which it
   * stops, by iteration `horizon - 1` at the latest.
   */
  method Expand<F>(heap: ResultHeap<F>, opts: SearchOptions<F>, svc: Services<F>, tileCoords: TileAddr,
                   metadata: Metadata, maxFeatures: int, maxRadius: real, ghost horizon: nat)
    returns (ghost batches: seq<seq<F>>, ghost dropped: multiset<Result<F>>, ghost history: seq<seq<Result<F>>>)
    requires Merged(opts).span != 0.0
    requires metadata == Merged(opts) && tileCoords == ResolveTile(opts.target, metadata)
    requires maxFeatures == MaxFeatures(opts) && maxRadius == MaxRadius(opts)
    requires ExitsBy(opts, svc, horizon)
    requires heap.Valid() && heap.items == []
    modifies heap
    ensures heap.Valid() && 1 <= |batches| < horizon && Scanned(opts, svc, batches)
    ensures Split(Candidates(svc, batches, maxRadius), heap.items, dropped, maxFeatures)
    ensures Exhausted(heap.items, Bound(opts, svc, |batches| + 1), maxFeatures, maxRadius)
    ensures |history| == |batches| - 1
    ensures Continued(opts, svc, batches[..|batches| - 1], history, maxFeatures, maxRadius)
  {
    var distance: nat := 1;
    batches := [];
    dropped := multiset{};
    history := [];
    while true
      invariant 1 <= distance < horizon && |batches| == distance - 1
      invariant heap.Valid() && Scanned(opts, svc, batches)
      invariant Split(Candidates(svc, batches, maxRadius), heap.items, dropped, maxFeatures)
      invariant |history| == |batches| && Continued(opts, svc, batches, history, maxFeatures, maxRadius)
      decreases horizon - distance
    {
      var stop;
      ghost var before := batches;
      stop, batches, dropped := Iterate(heap, opts, svc, tileCoords, metadata, distance, maxFeatures, maxRadius,
                                        horizon, batches, dropped);
      distance := distance + 1;
      assert batches[..|batches| - 1] == before;
      if stop {
        return;
      }
      ContinuedSnoc(opts, svc, before, batches, history, heap.items, dropped, maxFeatures, maxRadius);
      history := history + [heap.items];
    }
  }

  /**
   * `search`: the best `maxFeatures` candidates within `maxRadius` among the
   * features of the rings scanned, nearest first, once the scan has stopped.
   */
  method Search<F>(opts: SearchOptions<F>, svc: Services<F>, ghost horizon: nat)
    returns (results: seq<Result<F>>, ghost batches: seq<seq<F>>, ghost history: seq<seq<Result<F>>>)
    requires Merged(opts).span != 0.0 && ExitsBy(opts, svc, horizon)
    ensures 1 <= |batches| < horizon && Scanned(opts, svc, batches)
    ensures Ascending(results)
    ensures TopK(results, Candidates(svc, batches, MaxRadius(opts)), MaxFeatures(opts))
    ensures Finished(results, Bound(opts, svc, |batches| + 1), MaxFeatures(opts), MaxRadius(opts))
    ensures |history| == |batches| - 1
    ensures Continued(opts, svc, batches[..|batches| - 1], history, MaxFeatures(opts), MaxRadius(opts))
    ensures forall r :: r in results ==> r.distance <= MaxRadius(opts)
    ensures opts.filter.Some? && (forall f :: !opts.filter.value(f)) ==> results == []
  {
    var metadata := MergeMetadata(opts.metadata);
    var tileCoords := ResolveTile(opts.target, metadata);
    var maxFeatures := opts.maxFeatures.GetOr(1);
    var maxRadius := opts.maxRadius.GetOr(10.0);
    var heap := new ResultHeap<F>();
    ghost var dropped;
    batches, dropped, history := Expand(heap, opts, svc, tileCoords, metadata, maxFeatures, maxRadius, horizon);
    ghost var kept := heap.items;
    var drained := heap.Drain();
    results := Reverse(drained);
    Conclude(opts, svc, batches, kept, dropped);
    SelectionBounds(opts, svc, batches, results);
  }
}

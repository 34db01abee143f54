# query-mvt, modelled in Dafny

query-mvt finds the features of a vector-tile pyramid that lie nearest to a
geographic point. It starts from the tile that contains the target. It then
reads square rings of tiles around that tile, one ring per iteration, at the
pyramid's maximum zoom. Each feature is scored by its distance to the target
and offered to a bounded heap that keeps the best `maxFeatures` results within
`maxRadius`. After every ring a lower bound is computed for the distance of
anything in the next ring. The search stops when that bound exceeds the radius,
or when enough results are held and the farthest of them is no farther than the
bound. Each tile is decoded into GeoJSON by a `toGeoJSON` routine. That routine
scales tile-local points onto the unit square, projects them, and groups
polygon rings into outer rings and holes by the sign of their shoelace area.

The Dafny project has these files:

- `wrappers.dfy`: `Option`, which stands for JavaScript's `undefined` and `??`.
- `seqs.dfy`: reversal and flattening of sequences.
- `tile.dfy` (module `Tile`): tile addressing, URL templates, rings of
  neighbouring tiles, their retrieval, and the lower-bound corners
  (`src/tile.ts`).
- `results.dfy` (module `Results`): the result record, `compareResults`, and
  the heap as a class whose `items` are kept farthest first.
- `search.dfy` (module `Search`): metadata defaults, the do-while search loop,
  the bounded selection it maintains, and its exit rule (`src/index.ts`).
- `mvt.dfy` (module `Mvt`): `signedArea`, `classifyRings`, the projection
  scaling and the GeoJSON shape (`src/mvt-vector-tile.js`).

How the source's loops and state appear in Dafny:

- The imperative parts of the source keep their form:
  - the ring loop, the retrieval loop, the heap and the search's do-while
    loop in `src/tile.ts` and `src/index.ts`;
  - the area accumulation, the ring-classification loop and the per-point
    projection in `src/mvt-vector-tile.js`.
- Each of these is a method. Its loop invariants tie it to a specification
  function, and lemmas state what the source promises about that function.
- Retrieval, reprojection, distance and centroid computations are not modelled; they are function parameters:
  - HTTP fetch and protobuf decoding: `retrieve`, which may fail;
  - the turf point and centroid distances and the distance to an edge: fields of `Services`;
  - the proj4 reprojection inside the `project` callback of `toGeoJSON`.

## Model

| member | source | states |
|---|---|---|
| Tile.WrapAMRange | src/tile.ts:19-21 | `wrapAM` with JavaScript's truncating `%`. For x >= -tiles the result is in [0, tiles) and equals the Euclidean remainder. It is x itself inside the grid and x + tiles one grid west. Further west it stays in (-tiles, 0], outside the grid unless it is 0: x = -2·tiles wraps to 0 (JavaScript's -0, which passes the x >= 0 test and is requested). |
| Tile.WrapAM | src/tile.ts:19-21 | `wrapAM` is the truncating remainder of x + tiles. The result lies strictly between -tiles and tiles and differs from x by a multiple of tiles, so it names the same column of the cylinder. |
| Tile.JsRemBounds | src/tile.ts:20 | The truncating remainder is below `n` in magnitude, has the sign of the dividend, and differs from it by a multiple of `n`. |
| Tile.TileSize | src/tile.ts:28-29 | The tile size `span / 2^maxzoom` is positive for a positive span and non-zero for a non-zero span. |
| Tile.ResolveTile | src/tile.ts:24-34 | The tile address is the floor of the offset from the origin in tile units: x grows east and y grows south. |
| Tile.OriginTile | src/tile.ts:37-48 | `originTile`: the projected upper-left corner of a tile, x tile sizes east and y tile sizes south of the tileset's origin. Its inverse relation to `ResolveTile` is stated by the two lemmas below. |
| Tile.ResolveOriginRoundTrip | src/tile.ts:24-48 | Resolving a tile's origin gives back that tile. |
| Tile.OriginResolveBounds | src/tile.ts:24-48 | A point lies in the square of the tile it resolves to: at or east of the tile's origin, at or below it, by less than one tile. |
| Tile.OriginEast | src/tile.ts:37-48 | The origin of the next tile east lies one tile size further east. |
| Tile.OriginSouth | src/tile.ts:37-48 | The origin of the next tile south lies one tile size further south. |
| Tile.IntToStringRoundTrip | src/tile.ts:56-58 | The decimal string substituted for a coordinate (`toString`) reads back as that coordinate, negative values included. |
| Tile.IntToString | src/tile.ts:56-58 | `toString` on an integer is non-empty and contains no `{`. |
| Tile.ReplaceFirstSpec | src/tile.ts:55-58 | `replace` with a string pattern leaves a string without the pattern unchanged, and otherwise replaces only the leftmost occurrence. |
| Tile.ResolveUrl | src/tile.ts:50-59 | `resolveUrl`: the first `{x}`, then the first `{y}`, then the first `{z}` is replaced by the decimal coordinate. What that yields is stated by the lemmas below. |
| Tile.ResolveUrlNoPlaceholders | src/tile.ts:50-59 | A template without `{x}`, `{y}` and `{z}` is returned as it is. |
| Tile.ResolveUrlTemplate | src/tile.ts:50-59 | A `{z}…{x}…{y}` template whose literal parts hold no `{` gets the zoom, x and y as decimal strings in their places. |
| Tile.GetNeighboringTiles | src/tile.ts:118-143 | The loop pushes exactly `Ring(c, d, tiles)`, the rows at unwrapped x and then the side columns at wrapped x. For d >= 1 that is 8d addresses. |
| Tile.RingLength | src/tile.ts:126-140 | Ring d >= 1 has 2(2d+1) row entries and 2(2d-1) column entries. |
| Tile.RingMembership | src/tile.ts:126-140 | An address is in the ring exactly when it is a row entry at unwrapped x, or a column entry at wrapped x strictly between the rows. |
| Tile.RetrieveTile | src/tile.ts:85-115 | `retrieveTile` with the `.catch(() => [])` of its callers: one tile is requested at its resolved URL at the maximum zoom, and a failed request counts as an empty tile. |
| Tile.RetrieveNeighboringTiles | src/tile.ts:146-166 | Only addresses with x >= 0 are requested, in ring order. The result concatenates their features in that order, and a failed tile counts as empty. |
| Tile.RequestedMembership | src/tile.ts:155-157 | An address is requested exactly when it is in the ring and its x is not negative. |
| Tile.GatherAppend | src/tile.ts:165 | Concatenation keeps address order: the features of two address lists are those of the first followed by those of the second. |
| Tile.GatherIgnoresUnrequested | src/tile.ts:155-163 | Tiles with negative x are never fetched: retrievals that agree on the others give the same features. |
| Tile.GatherAllFailing | src/tile.ts:162 | When every tile fails, the result is empty rather than an error. |
| Tile.GatherOrigin | src/tile.ts:155-165 | Every returned feature comes from a requested address whose retrieval succeeded with it. |
| Tile.CornersOnRing | src/tile.ts:181-196 | Away from the antimeridian, the four corner tiles of the lower bound are the ring's own corners. |
| Tile.CornersWrapOnlyX | src/tile.ts:181-196 | Only the corners' x is wrapped; their y is never adjusted. A corner column at most one grid west of the grid (x - d >= -tiles, and likewise for x + d) is wrapped to the Euclidean remainder in [0, tiles). Farther west the corner's x stays in (-tiles, 0], as `WrapAMRange` states. |
| Tile.RowsNotWrapped | src/tile.ts:126-140 | The ring's rows are not wrapped. West of the antimeridian a row entry keeps a negative x and is never requested, while the wrapped corner tile used by the lower bound is not in the ring at all. |
| Tile.CornerTiles | src/tile.ts:181-196 | The four corner tiles of ring d: x wrapped with `wrapAM`, y left as it is (see `CornersOnRing` and `CornersWrapOnlyX`). |
| Tile.BoundEdgeEnds | src/tile.ts:198-206 | The endpoints of the four edges the lower bound measures to: the inner corner of each corner tile, from `originTile` and the tile size (see `BoundEdgesOutlineSearchedBlock`). |
| Tile.ShortestDistance | src/tile.ts:169-219 | The result is one of the four edge distances and no larger than any of them. |
| Tile.BoundEdgesOutlineSearchedBlock | src/tile.ts:198-211 | Away from the antimeridian, the four edges run along the outline of the (2d-1)×(2d-1) block already searched: their endpoints are that block's corners. |
| Results.CompareResults | src/index.ts:26 | The comparator is negative exactly when the first result is farther, and zero exactly on equal distances, so the heap's top is the farthest. |
| Results.WorstFirstIsComparatorOrder | src/index.ts:26 | Farthest-first order is exactly the order `compareResults` defines. |
| Results.TopIsFarthest | src/index.ts:82 | The first element of the heap's order is a farthest result. |
| Results.DrainReversedAscending | src/index.ts:122 | Reversing the farthest-first drain gives the same results, nearest first. |
| Results.ResultHeap.Size | src/index.ts:101 | `size()` is the number of results held. |
| Results.ResultHeap.Peek | src/index.ts:101 | `peek()` is `undefined` exactly when the heap is empty, and otherwise a farthest result held. |
| Results.ResultHeap.Push | src/index.ts:102 | `push` adds one result and keeps the farthest-first order. A result nearer than the current top leaves the top in place. |
| Results.ResultHeap.Pop | src/index.ts:104 | `pop` removes and returns the farthest result, and returns `undefined` on an empty heap. |
| Results.ResultHeap.Drain | src/index.ts:122 | `Array.from(heap)` yields every result held, farthest first, and empties the heap. |
| Search.MergeMetadata | src/index.ts:58-70 | Each metadata field is the caller's value when present, a present zero included. Otherwise it is the EPSG:3857 constant, or zoom 12. |
| Search.MergeIdempotent | src/index.ts:58-70 | Merging already complete metadata changes nothing. |
| Search.MergeDefaults | src/constants.ts:1-6 | Without metadata the search runs on the EPSG:3857 world tiling at zoom 12, whose tiles have positive size. |
| Search.FilterMembership | src/index.ts:88-89 | A feature survives the caller's filter exactly when it was retrieved and the filter keeps it. |
| Search.FilterMultiset | src/index.ts:88-89 | Filtering keeps every copy of a feature the filter accepts and no copy of one it rejects. |
| Search.ScoredMembership | src/index.ts:91-101 | A scored candidate pairs a retrieved feature with its distance: to its coordinates for a point, to its centroid otherwise. That distance is within the radius. |
| Search.BatchesScanned | src/index.ts:83-89 | `Batches(n)` lists, in order, the features each of the first n iterations looks at. |
| Search.ScannedUnique | src/index.ts:83-89 | What the iterations look at depends only on how many there were. |
| Search.RingFeaturesPass | src/index.ts:88-89 | With a filter, every feature an iteration looks at passes it. |
| Search.CandidatesMembership | src/index.ts:84-101 | A result is a candidate exactly when it pairs a feature some iteration looked at with that feature's distance, and the distance is within `maxRadius`. |
| Search.RejectAllNoCandidates | src/index.ts:88-101 | A filter that rejects every feature leaves no candidates. |
| Search.KeepCount | src/index.ts:101-105 | The heap holds min(k, n) of n candidates when k > 0, and none when k <= 0 (each push is popped again at once). |
| Search.SplitTopK | src/index.ts:101-105 | The bookkeeping the loop keeps (held plus dropped equals seen) makes the held results a best-k selection of the candidates. |
| Search.SplitAdd | src/index.ts:101-102 | While fewer than k are held, a pushed candidate is simply added and nothing has been dropped. |
| Search.SplitReplace | src/index.ts:101-105 | Once the heap is full, a candidate nearer than the farthest held replaces it. |
| Search.SplitDrop | src/index.ts:101-105 | A candidate that is refused, or pushed and then popped, joins the dropped ones without breaking the selection. |
| Search.FewWithin | src/index.ts:101-105 | When a best selection holds a result farther than a bound, every candidate within the bound is held, so fewer candidates than it holds lie within the bound. |
| Search.Admits | src/index.ts:101 | A candidate is admitted exactly when fewer than `maxFeatures` are held or it is nearer than the farthest held (than infinity when none is). |
| Search.PushedSplit | src/index.ts:101-105 | A bounded push, with the heap related to the one before as the push and the eviction leave it, keeps the held results a best-k selection. |
| Search.PushBounded | src/index.ts:102-105 | An admitted candidate is pushed. Below capacity the heap gains exactly it. At capacity the farthest held before is evicted and the candidate takes its place, or, with an empty heap and `maxFeatures <= 0`, the candidate itself is popped. The best-k selection is kept. |
| Search.Offer | src/index.ts:92-106 | One feature of the inner loop. A candidate within the radius joins a heap below capacity. At capacity it replaces the farthest held only when strictly nearer. A candidate beyond the radius, or one no nearer than the farthest of a full heap, leaves the heap unchanged. The held results stay a best-k selection of everything seen. |
| Search.OfferAll | src/index.ts:91-107 | The inner loop offers every scored feature of the iteration in order and keeps the best-k selection. |
| Search.CollectRing | src/index.ts:84-89 | An iteration looks at the target tile's own features (first iteration only), then the ring's, then applies the caller's filter. |
| Search.ScanRing | src/index.ts:84-107 | One iteration adds its features' candidates to those already seen and keeps the best-k selection. |
| Search.LowerBound | src/index.ts:110-115 | The bound for the next ring is `shortestDistanceInNeighboringTiles` on the resolved target tile and metadata. |
| Search.ExitTest | src/index.ts:117-120 | The loop stops when the bound exceeds the radius. Otherwise it stops unless fewer than `maxFeatures` are held or the farthest held is farther than the bound. |
| Search.ExitReached | src/index.ts:117-120 | If the bound for ring h exceeds the radius, or at least `maxFeatures` (positive) candidates of the first h - 1 iterations lie within that bound, the exit test succeeds after iteration h - 1, whichever best selection of the candidates so far the heap holds. |
| Search.ContinuedSnoc | src/index.ts:117-120 | An iteration after which the exit test fails adds the heap's contents, a best selection of the candidates so far, to the history of passes the loop went on from. |
| Search.Iterate | src/index.ts:83-120 | One pass of the do-while loop scans a ring, then evaluates the exit test with the bound for the next ring. When the loop goes on, the run has not yet reached the iteration by which it stops. |
| Search.Expand | src/index.ts:79-120 | The do-while loop runs until its exit condition holds. The held results are then a best-`maxFeatures` selection of every candidate within the radius from the rings scanned. After every earlier iteration the heap held a best selection of the candidates so far and the exit test failed. |
| Search.ReversedSelection | src/index.ts:122 | The drained and reversed heap is a nearest-first best selection of the candidates. |
| Search.SelectionBounds | src/index.ts:88-122 | Every returned result is within `maxRadius`, and a filter that rejects every feature gives an empty result. |
| Search.Conclude | src/index.ts:117-122 | Once the loop has exited, the returned list satisfies the exit rule stated on results listed nearest first. |
| Search.Search | src/index.ts:48-123 | `search` returns, nearest first, a best-`maxFeatures` selection of the candidates within `maxRadius` from the rings it scanned. It stops only when the next ring's bound exceeds the radius, or when enough results are held and the farthest is within that bound; after every earlier iteration that test failed. Every result is within `maxRadius`, and a filter that rejects everything gives no results. |
| Mvt.SignedArea | src/mvt-vector-tile.js:106-114 | The loop accumulates exactly the shoelace sum over the ring's edges, each vertex paired with the cyclically previous one. |
| Mvt.CrossAntisymmetric | src/mvt-vector-tile.js:111 | An edge's shoelace term changes sign when the edge is reversed, and is zero for a degenerate edge. |
| Mvt.DegenerateArea | src/mvt-vector-tile.js:106-114 | A ring of fewer than three vertices has area zero. |
| Mvt.ReversedArea | src/mvt-vector-tile.js:106-114 | Walking a ring in the other direction negates its signed area, which is what makes the sign a winding test. |
| Mvt.RotatedArea | src/mvt-vector-tile.js:106-114 | The area does not depend on which vertex the ring starts from. |
| Mvt.ClassifyRings | src/mvt-vector-tile.js:78-104 | The loop computes `Classify`. At most one ring is returned as one polygon. Otherwise rings of zero area are skipped, and the first non-zero ring fixes the outer winding. Each ring of that winding opens a polygon and each ring of the other winding joins the open one. |
| Mvt.ClassifyKeepsNonZeroRings | src/mvt-vector-tile.js:85-103 | With two or more rings, every ring of non-zero area is in exactly one polygon, in input order, and rings of zero area are dropped. |
| Mvt.ClassifyPolygons | src/mvt-vector-tile.js:85-103 | Each polygon is an outer ring of the leading winding followed by holes of the other winding. There is one polygon per outer ring, and none when every ring has area zero. |
| Mvt.NormalizeInverse | src/mvt-vector-tile.js:4-6 | Scaling a normalized coordinate back by `size` and removing the tile offset gives the local point again. |
| Mvt.NormalizeWithinTile | src/mvt-vector-tile.js:4-6 | A point inside the tile's extent lands inside that tile's cell of the unit square, between x/2^z and (x+1)/2^z and likewise for y. |
| Mvt.ProjectLine | src/mvt-vector-tile.js:19-26 | Each point of the line is replaced, in order, by the projection of its unit-square position `((x + x0)/size, (y + y0)/size)`. |
| Mvt.ProjectPoints | src/mvt-vector-tile.js:29-36 | Points keep the projected first point of each part. A part with no point fails. |
| Mvt.ProjectLines | src/mvt-vector-tile.js:38-42 | Every line is projected point by point, in order. |
| Mvt.ProjectPolygons | src/mvt-vector-tile.js:44-51 | Every ring of every polygon is projected point by point. |
| Mvt.ToGeoJson | src/mvt-vector-tile.js:3-74 | The result fails exactly for a point feature with an empty part. Otherwise its properties and id (when present) are the feature's. Its geometry is the per-type coordinates, unwrapped when there is exactly one and typed `Multi…` otherwise. |
| Mvt.MultiUnlessSingle | src/mvt-vector-tile.js:54-58 | The geometry type carries the `Multi` prefix exactly when the coordinates were not unwrapped, i.e. when there is not exactly one part. |
| Mvt.PartsCount | src/mvt-vector-tile.js:28-52 | A point, line or unknown feature yields one coordinate entry per part. A polygon feature yields one per outer ring when it has several rings, and a single entry otherwise. |

## Left out

- Network and decoding: `fetch`, the HTTP status check, `arrayBuffer`, protobuf parsing and `loadGeometry` become the `retrieve` parameter, or the feature's given `parts`. A failed tile is `None`.
- The request queue (`async-await-queue`) and the concurrency of `Promise.all` are not modelled. Tiles are retrieved in ring order, which is the order `Promise.all` returns them in.
- Reprojection (proj4), the geodesic distances, `turf.centroid` and `pointToLineDistance` are function parameters. The target is given already projected into the tileset's reference system.
- `getTileFeatures` (src/tile.ts:61-83) is part of `retrieve`. Its `project` callback scales a unit-square position by the zoom-0 tile size and offsets it from the tileset's upper-left origin, with y pointing down. It then reprojects the point with proj4 from the tileset's reference system to EPSG:4326, so it returns longitude and latitude. The callback is a parameter of `ToGeoJson`.
- The default `projectMercator` (src/mvt-vector-tile.js:12-17) uses `atan` and `exp` and is not modelled. `ToGeoJson` takes the projection as a parameter, as `getTileFeatures` always passes one.
- Floating point: distances and coordinates are reals. NaN, infinities and rounding are not modelled, and tile-local coordinates and the area sum are unbounded integers.
- Search.Search: covers only runs that stop. A Dafny method must terminate, so it takes a ghost `horizon` for which `ExitsBy` holds: the exit test succeeds after iteration `horizon - 1` at the latest, through either exit. Every run that stops has such a horizon. The runs left out are those in which every ring's bound stays within the radius and the second exit never fires. That happens when `maxFeatures <= 0`: every push is popped at once, so the heap stays empty and its farthest counts as infinitely far. It also happens when fewer than `maxFeatures` candidates ever lie within the next bound. The source loops forever on these runs.
- `maxFeatures` is an integer. A fractional value such as 1.5, which JavaScript accepts, is not modelled; with it the heap keeps at most one result while `size() < 1.5` still holds, so the second exit never fires.
- Mvt.ProjectLine: returns a new sequence instead of overwriting the line's points in place. Rings are never shared between polygons, so no aliasing is lost.
- Mvt.ToGeoJson: requires a positive extent. A tile's extent is an unsigned field, and extent 0 would divide by zero (Infinity, or NaN at 0). Geometry type codes beyond 3 are not modelled (the source would produce the type name `undefined`).
- heap-js internals: the binary-heap array layout is not modelled. The heap is its elements in the order it yields them.
- The CLI (`src/cli.ts`), the debug logging, `acquire` (fetching `metadata.json`) and the `turf.feature` wrapping are not modelled.
- The search removes no duplicate features: a feature retrieved twice is scored and offered twice.
- Row addresses of a ring are not wrapped across the antimeridian; only the x of the side columns is wrapped.
- Row addresses with negative x are not requested at all, so rows west of the antimeridian are lost; `Tile.RowsNotWrapped` exhibits such an entry.
- y addresses outside the grid are still requested.

/**
 * The GeoJSON conversion of one decoded vector-tile feature (`toGeoJSON`):
 * the shoelace signed area of a ring, the grouping of rings into polygons
 * with holes, the scaling of tile-local points onto the unit square that the
 * projection receives, and the shape of the resulting geometry.
 */
module Mvt {
  import opened Wrappers
  import opened Seqs
  import Tile

  /** A point on the tile's local integer grid, `extent` units per tile side. */
  datatype Point = Point(x: int, y: int)

  type Ring = seq<Point>

  /** An outer ring followed by its holes. */
  type Polygon = seq<Ring>

  // ---------------------------------------------------------------------------
  // signedArea
  // ---------------------------------------------------------------------------

  /** The term the shoelace sum adds for vertex `i`: the edge from the cyclically previous vertex to vertex `i`. */
  function Term(ring: Ring, i: int): int
    requires 0 <= i < |ring|
  {
    Cross(ring[if i == 0 then |ring| - 1 else i - 1], ring[i])
  }

  /** The shoelace term of the edge from `a` to `b`. */
  function Cross(a: Point, b: Point): int
  {
    (a.x - b.x) * (b.y + a.y)
  }

  /** Reversing an edge negates its term; so a degenerate edge contributes nothing. */
  lemma CrossAntisymmetric(a: Point, b: Point)
    ensures Cross(b, a) == -Cross(a, b)
    ensures Cross(a, a) == 0
  {
    assert (b.x - a.x) * (a.y + b.y) == -((a.x - b.x) * (b.y + a.y));
  }

  function Terms(ring: Ring): seq<int>
  {
    seq(|ring|, i requires 0 <= i < |ring| => Term(ring, i))
  }

  function Sum(s: seq<int>): int
  {
    if s == [] then 0 else Sum(s[..|s| - 1]) + s[|s| - 1]
  }

  /** Twice the signed area enclosed by the ring; its sign tells the winding. */
  function Area(ring: Ring): int
  {
    Sum(Terms(ring))
  }

  /** `signedArea`: the shoelace sum, accumulated vertex by vertex. */
  method SignedArea(ring: Ring) returns (sum: int)
    ensures sum == Area(ring)
  {
    sum := 0;
    var i, j := 0, |ring| - 1;
    while i < |ring|
      invariant 0 <= i <= |ring|
      invariant j == if i == 0 then |ring| - 1 else i - 1
      invariant sum == Sum(Terms(ring)[..i])
    {
      var p1, p2 := ring[i], ring[j];
      sum := sum + (p2.x - p1.x) * (p1.y + p2.y);
      assert Terms(ring)[..i + 1][..i] == Terms(ring)[..i];
      j, i := i, i + 1;
    }
    assert Terms(ring)[..i] == Terms(ring);
  }

  lemma {:induction false} SumConcat(a: seq<int>, b: seq<int>)
    ensures Sum(a + b) == Sum(a) + Sum(b)
  {
    if b == [] {
      assert a + b == a;
    } else {
      SumConcat(a, b[..|b| - 1]);
      assert (a + b)[..|a + b| - 1] == a + b[..|b| - 1];
    }
  }

  lemma {:induction false} SumReverse(s: seq<int>)
    ensures Sum(Reverse(s)) == Sum(s)
  {
    if s != [] {
      SumReverse(s[1..]);
      SumConcat(Reverse(s[1..]), [s[0]]);
      SumConcat([s[0]], s[1..]);
      assert [s[0]] + s[1..] == s;
    }
  }

  lemma {:induction false} SumNegate(s: seq<int>, t: seq<int>)
    requires |t| == |s| && forall k :: 0 <= k < |s| ==> t[k] == -s[k]
    ensures Sum(t) == -Sum(s)
  {
    if s != [] {
      SumNegate(s[..|s| - 1], t[..|t| - 1]);
    }
  }

  /** A ring of fewer than three vertices encloses nothing. */
  lemma DegenerateArea(ring: Ring)
    requires |ring| <= 2
    ensures Area(ring) == 0
  {
    var t := Terms(ring);
    if |ring| == 1 {
      CrossAntisymmetric(ring[0], ring[0]);
      assert t[..0] == [];
      assert Sum(t) == Sum(t[..0]) + t[0];
    } else if |ring| == 2 {
      CrossAntisymmetric(ring[0], ring[1]);
      assert t[..1][..0] == [];
      assert Sum(t[..1]) == t[0];
      assert Sum(t) == Sum(t[..1]) + t[1];
    }
  }

  lemma ReversedTerm(ring: Ring, r: Ring, i: int)
    requires |r| == |ring| && forall k :: 0 <= k < |ring| ==> r[k] == ring[|ring| - 1 - k]
    requires 0 <= i < |ring|
    ensures Term(r, i) == -Term(ring, if i == 0 then 0 else |ring| - i)
  {
    var n := |ring|;
    var k := if i == 0 then 0 else n - i;
    var j := if i == 0 then n - 1 else i - 1;
    var kp := if k == 0 then n - 1 else k - 1;
    assert r[i] == ring[kp] && r[j] == ring[k];
    CrossAntisymmetric(ring[kp], ring[k]);
  }

  /** Walking the ring the other way round negates its signed area. */
  lemma ReversedArea(ring: Ring)
    ensures Area(Reverse(ring)) == -Area(ring)
  {
    if ring != [] {
      var n := |ring|;
      var t := Terms(ring);
      var rest := t[1..];
      var neg := seq(n - 1, k requires 0 <= k < n - 1 => -rest[k]);
      forall i | 0 <= i < n ensures Terms(Reverse(ring))[i] == ([-t[0]] + Reverse(neg))[i] {
        ReversedTerm(ring, Reverse(ring), i);
      }
      assert Terms(Reverse(ring)) == [-t[0]] + Reverse(neg);
      SumConcat([-t[0]], Reverse(neg));
      SumReverse(neg);
      SumNegate(rest, neg);
      SumConcat([t[0]], rest);
      assert [t[0]] + rest == t;
    }
  }

  lemma RotatedTerms(ring: Ring)
    requires |ring| > 0
    ensures Terms(ring[1..] + [ring[0]]) == Terms(ring)[1..] + [Terms(ring)[0]]
  {
    var r := ring[1..] + [ring[0]];
    var n := |ring|;
    forall i | 0 <= i < n ensures Term(r, i) == (Terms(ring)[1..] + [Terms(ring)[0]])[i] {
      if i == 0 {
        assert r[0] == ring[if n == 1 then 0 else 1] && r[n - 1] == ring[0];
      } else if i < n - 1 {
        assert r[i] == ring[i + 1] && r[i - 1] == ring[i];
      } else {
        assert r[i] == ring[0] && r[i - 1] == ring[n - 1];
      }
    }
  }

  /** The area does not depend on which vertex the ring starts from. */
  lemma {:induction false} RotatedArea(ring: Ring, k: int)
    requires 0 <= k <= |ring|
    ensures Area(ring[k..] + ring[..k]) == Area(ring)
  {
    if k == 0 {
      assert ring[k..] + ring[..k] == ring;
    } else {
      RotatedArea(ring, k - 1);
      var r := ring[k - 1..] + ring[..k - 1];
      assert r[1..] + [r[0]] == ring[k..] + ring[..k];
      RotatedTerms(r);
      SumConcat(Terms(r)[1..], [Terms(r)[0]]);
      SumConcat([Terms(r)[0]], Terms(r)[1..]);
      assert [Terms(r)[0]] + Terms(r)[1..] == Terms(r);
    }
  }

  // ---------------------------------------------------------------------------
  // classifyRings
  // ---------------------------------------------------------------------------

  /** The rings of non-zero area, in order. */
  function NonZero(rings: seq<Ring>): seq<Ring>
  {
    if rings == [] then []
    else NonZero(rings[..|rings| - 1]) + (if Area(rings[|rings| - 1]) != 0 then [rings[|rings| - 1]] else [])
  }

  /** The winding of the first ring of non-zero area (`area < 0`), if there is one. */
  function LeadingWinding(rings: seq<Ring>): Option<bool>
  {
    var nz := NonZero(rings);
    if nz == [] then None else Some(Area(nz[0]) < 0)
  }

  /** The ring has non-zero area and winds as `ccw` says: an outer ring. */
  predicate Outer(ring: Ring, ccw: bool)
  {
    Area(ring) != 0 && (Area(ring) < 0) == ccw
  }

  /** The ring has non-zero area and winds against `ccw`: a hole. */
  predicate Hole(ring: Ring, ccw: bool)
  {
    Area(ring) != 0 && (Area(ring) < 0) != ccw
  }

  /** An outer ring followed by holes only. */
  ghost predicate WellFormed(p: Polygon, ccw: bool)
  {
    |p| > 0 && Outer(p[0], ccw) && forall k :: 1 <= k < |p| ==> Hole(p[k], ccw)
  }

  /** The number of outer rings among `rings`. */
  function CountOuter(rings: seq<Ring>, ccw: bool): nat
  {
    if rings == [] then 0
    else CountOuter(rings[..|rings| - 1], ccw) + (if Outer(rings[|rings| - 1], ccw) then 1 else 0)
  }

  lemma {:induction false} NoOuterWithoutNonZero(rings: seq<Ring>, ccw: bool)
    requires NonZero(rings) == []
    ensures CountOuter(rings, ccw) == 0
  {
    if rings != [] {
      NoOuterWithoutNonZero(rings[..|rings| - 1], ccw);
    }
  }

  /** The loop's state: the finished polygons, the one being built and the winding of outer rings once known. */
  datatype Grouping = Grouping(polygons: seq<Polygon>, polygon: Option<Polygon>, ccw: Option<bool>)

  /** One pass of the loop: skip a ring of zero area, open a polygon at an outer ring, else add a hole. */
  function Step(g: Grouping, ring: Ring): Grouping
  {
    var area := Area(ring);
    if area == 0 then g
    else
      var ccw := g.ccw.GetOr(area < 0);
      if ccw == (area < 0) then Grouping(Closed(g), Some([ring]), Some(ccw))
      else Grouping(g.polygons, Some(g.polygon.GetOr([]) + [ring]), Some(ccw))
  }

  function Group(rings: seq<Ring>): Grouping
  {
    if rings == [] then Grouping([], None, None) else Step(Group(rings[..|rings| - 1]), rings[|rings| - 1])
  }

  /** The finished polygons followed by the open one. */
  function Closed(g: Grouping): seq<Polygon>
  {
    g.polygons + (if g.polygon.Some? then [g.polygon.value] else [])
  }

  /** The polygons `classifyRings` returns. */
  function Classify(rings: seq<Ring>): seq<Polygon>
  {
    if |rings| <= 1 then [rings] else Closed(Group(rings))
  }

  /** `classifyRings`, ring by ring. */
  method ClassifyRings(rings: seq<Ring>) returns (polygons: seq<Polygon>)
    ensures polygons == Classify(rings)
  {
    if |rings| <= 1 {
      return [rings];
    }
    polygons := [];
    var polygon: Option<Polygon> := None;
    var ccw: Option<bool> := None;
    for i := 0 to |rings|
      invariant Group(rings[..i]) == Grouping(polygons, polygon, ccw)
      invariant polygon.Some? <==> ccw.Some?
    {
      assert rings[..i + 1][..i] == rings[..i];
      var area := SignedArea(rings[i]);
      if area == 0 {
        continue;
      }
      if ccw.None? {
        ccw := Some(area < 0);
      }
      if ccw.value == (area < 0) {
        if polygon.Some? {
          polygons := polygons + [polygon.value];
        }
        polygon := Some([rings[i]]);
      } else {
        polygon := Some(polygon.value + [rings[i]]);
      }
    }
    if polygon.Some? {
      polygons := polygons + [polygon.value];
    }
    assert rings[..|rings|] == rings;
  }

  /** What the loop keeps true: the polygons so far hold the non-zero rings in order, each an outer ring and its holes. */
  ghost predicate GroupInv(rings: seq<Ring>, g: Grouping)
  {
    && g.ccw == LeadingWinding(rings)
    && (g.polygon.Some? <==> g.ccw.Some?)
    && Flatten(Closed(g)) == NonZero(rings)
    && (g.ccw.None? ==> Closed(g) == [])
    && (g.ccw.Some? ==> |Closed(g)| == CountOuter(rings, g.ccw.value))
    && (g.ccw.Some? ==> forall p :: p in Closed(g) ==> WellFormed(p, g.ccw.value))
  }

  lemma {:induction false} GroupKeepsInv(rings: seq<Ring>)
    ensures GroupInv(rings, Group(rings))
  {
    if rings != [] {
      var prefix, ring := rings[..|rings| - 1], rings[|rings| - 1];
      GroupKeepsInv(prefix);
      assert prefix + [ring] == rings;
      StepKeepsInv(prefix, ring, Group(prefix));
    }
  }

  lemma Snoc(prefix: seq<Ring>, ring: Ring, ccw: bool)
    ensures NonZero(prefix + [ring]) == NonZero(prefix) + (if Area(ring) != 0 then [ring] else [])
    ensures CountOuter(prefix + [ring], ccw) == CountOuter(prefix, ccw) + (if Outer(ring, ccw) then 1 else 0)
  {
    assert (prefix + [ring])[..|prefix|] == prefix;
  }

  lemma StepKeepsInv(prefix: seq<Ring>, ring: Ring, g: Grouping)
    requires GroupInv(prefix, g)
    ensures GroupInv(prefix + [ring], Step(g, ring))
  {
    if Area(ring) != 0 {
      var ccw := g.ccw.GetOr(Area(ring) < 0);
      Snoc(prefix, ring, ccw);
      if g.ccw.None? {
        NoOuterWithoutNonZero(prefix, ccw);
      }
      if ccw == (Area(ring) < 0) {
        OpenKeepsInv(prefix, ring, g, ccw);
      } else {
        HoleKeepsInv(prefix, ring, g, ccw);
      }
    } else {
      Snoc(prefix, ring, false);
      Snoc(prefix, ring, true);
    }
  }

  lemma OpenKeepsInv(prefix: seq<Ring>, ring: Ring, g: Grouping, ccw: bool)
    requires GroupInv(prefix, g) && Outer(ring, ccw)
    requires g.ccw.Some? ==> g.ccw.value == ccw
    requires g.ccw.None? ==> CountOuter(prefix, ccw) == 0
    requires NonZero(prefix + [ring]) == NonZero(prefix) + [ring]
    requires CountOuter(prefix + [ring], ccw) == CountOuter(prefix, ccw) + 1
    ensures GroupInv(prefix + [ring], Grouping(Closed(g), Some([ring]), Some(ccw)))
  {
    var g' := Grouping(Closed(g), Some([ring]), Some(ccw));
    assert Closed(g') == Closed(g) + [[ring]];
    assert Flatten(Closed(g')) == Flatten(Closed(g)) + [ring];
  }

  lemma HoleKeepsInv(prefix: seq<Ring>, ring: Ring, g: Grouping, ccw: bool)
    requires GroupInv(prefix, g) && Hole(ring, ccw) && g.ccw == Some(ccw)
    requires NonZero(prefix + [ring]) == NonZero(prefix) + [ring]
    requires CountOuter(prefix + [ring], ccw) == CountOuter(prefix, ccw)
    ensures GroupInv(prefix + [ring], Grouping(g.polygons, Some(g.polygon.GetOr([]) + [ring]), Some(ccw)))
  {
    var open := g.polygon.value;
    var g' := Grouping(g.polygons, Some(open + [ring]), Some(ccw));
    assert Closed(g) == g.polygons + [open];
    assert Closed(g') == g.polygons + [open + [ring]];
    assert Flatten(Closed(g')) == Flatten(g.polygons) + open + [ring];
    assert WellFormed(open + [ring], ccw) by {
      assert open in Closed(g);
    }
  }

  /** Every ring of non-zero area lands in exactly one polygon, in input order; rings of zero area are dropped. */
  lemma ClassifyKeepsNonZeroRings(rings: seq<Ring>)
    requires |rings| > 1
    ensures Flatten(Classify(rings)) == NonZero(rings)
  {
    GroupKeepsInv(rings);
  }

  /**
   * The first ring of non-zero area fixes which winding is outer; every
   * polygon is an outer ring followed by holes of the other winding, one
   * polygon per outer ring, and none at all when every ring has zero area.
   */
  lemma ClassifyPolygons(rings: seq<Ring>)
    requires |rings| > 1
    ensures LeadingWinding(rings).None? ==> Classify(rings) == []
    ensures LeadingWinding(rings).Some? ==>
      && |Classify(rings)| == CountOuter(rings, LeadingWinding(rings).value)
      && forall p :: p in Classify(rings) ==> WellFormed(p, LeadingWinding(rings).value)
  {
    GroupKeepsInv(rings);
  }

  // ---------------------------------------------------------------------------
  // Projection
  // ---------------------------------------------------------------------------

  /** A two-element coordinate array `[first, second]`. */
  datatype Position = Position(first: real, second: real)

  /** The tile a feature came from (`x`, `y`, `z`), its `extent` and the projection applied to unit-square positions. */
  datatype Frame = Frame(extent: int, x: int, y: int, z: nat, project: Position -> Position)

  /**
   * One coordinate of a local point on the unit square: the tile's offset
   * `extent * t` added, then divided by `size`, the world's width in local
   * units (`extent` times the `cells` tiles per axis).
   */
  function Scale(local: int, extent: int, t: int, cells: real): real
    requires extent > 0 && cells > 0.0
  {
    (local + extent * t) as real / (extent as real * cells)
  }

  /** Where a local point lies on the unit square that covers the world, before projection. */
  function Normalize(fr: Frame, p: Point): Position
    requires fr.extent > 0
  {
    var cells := Tile.Pow2(fr.z) as real;
    Position(Scale(p.x, fr.extent, fr.x, cells), Scale(p.y, fr.extent, fr.y, cells))
  }

  /** Scaling back by `size` and removing the tile's offset gives the local point again. */
  lemma NormalizeInverse(fr: Frame, p: Point)
    requires fr.extent > 0
    ensures var size := fr.extent as real * Tile.Pow2(fr.z) as real;
      && Normalize(fr, p).first * size - (fr.extent * fr.x) as real == p.x as real
      && Normalize(fr, p).second * size - (fr.extent * fr.y) as real == p.y as real
  {
  }

  /** A point inside the tile lands inside the tile's cell of the unit square, `[x / 2^z, (x + 1) / 2^z)` across. */
  lemma NormalizeWithinTile(fr: Frame, p: Point)
    requires fr.extent > 0 && 0 <= p.x < fr.extent && 0 <= p.y < fr.extent
    ensures var cells := Tile.Pow2(fr.z) as real;
      && fr.x as real / cells <= Normalize(fr, p).first < (fr.x + 1) as real / cells
      && fr.y as real / cells <= Normalize(fr, p).second < (fr.y + 1) as real / cells
  {
    var cells := Tile.Pow2(fr.z) as real;
    Scaled(fr.extent, fr.x, p.x, cells);
    Scaled(fr.extent, fr.y, p.y, cells);
  }

  lemma Scaled(extent: int, t: int, local: int, cells: real)
    requires extent > 0 && 0 <= local < extent && cells > 0.0
    ensures t as real / cells <= Scale(local, extent, t, cells) < (t + 1) as real / cells
  {
    var e, c := extent as real, cells;
    var n := local as real + e * t as real;
    assert (local + extent * t) as real == n;
    var d := e * c;
    assert d > 0.0;
    assert (t as real / c) * d == e * t as real;
    assert ((t + 1) as real / c) * d == e * t as real + e;
    DivBounds(n, d, t as real / c, (t + 1) as real / c);
  }

  lemma DivBounds(n: real, d: real, lo: real, hi: real)
    requires d > 0.0 && lo * d <= n < hi * d
    ensures lo <= n / d < hi
  {
    assert (n / d) * d == n;
  }

  /** The projected positions of a line. */
  function Projected(fr: Frame, line: seq<Point>): (r: seq<Position>)
    requires fr.extent > 0
  {
    seq(|line|, j requires 0 <= j < |line| => fr.project(Normalize(fr, line[j])))
  }

  /** `projectLine`: each point scaled onto the unit square and projected, in order. */
  method ProjectLine(fr: Frame, line: seq<Point>) returns (out: seq<Position>)
    requires fr.extent > 0
    ensures |out| == |line|
    ensures forall j :: 0 <= j < |line| ==> out[j] == fr.project(Normalize(fr, line[j]))
  {
    out := [];
    for j := 0 to |line|
      invariant |out| == j
      invariant forall k :: 0 <= k < j ==> out[k] == fr.project(Normalize(fr, line[k]))
    {
      out := out + [fr.project(Normalize(fr, line[j]))];
    }
  }

  // ---------------------------------------------------------------------------
  // toGeoJSON
  // ---------------------------------------------------------------------------

  /** The geometry types of the vector tile format, by their numeric codes 0 to 3. */
  datatype GeomType = UnknownGeom | PointGeom | LineStringGeom | PolygonGeom

  /** `VectorTileFeature.types`. */
  function TypeName(t: GeomType): string
  {
    match t
    case UnknownGeom => "Unknown"
    case PointGeom => "Point"
    case LineStringGeom => "LineString"
    case PolygonGeom => "Polygon"
  }

  /** GeoJSON coordinates: a position, an unprojected local point, or an array of coordinates. */
  datatype Coordinates = At(pos: Position) | Local(p: Point) | Nested(items: seq<Coordinates>)

  datatype Geometry = Geometry(typeName: string, coordinates: Coordinates)

  /** A decoded feature: its type, extent, the parts `loadGeometry` returns, its properties and its id if present. */
  datatype Feature<P> = Feature(kind: GeomType, extent: int, parts: seq<seq<Point>>, properties: P, id: Option<nat>)

  datatype GeoJsonFeature<P> = GeoJsonFeature(geometry: Geometry, properties: P, id: Option<nat>)

  function Positions(ps: seq<Position>): Coordinates
  {
    Nested(seq(|ps|, j requires 0 <= j < |ps| => At(ps[j])))
  }

  /** A single part keeps the plain type and is unwrapped; any other count gets the `Multi` prefix. */
  function Shape(name: string, coords: seq<Coordinates>): Geometry
  {
    if |coords| == 1 then Geometry(name, coords[0]) else Geometry("Multi" + name, Nested(coords))
  }

  /** Every point part has a first point to keep. */
  predicate HasFirstPoints(parts: seq<seq<Point>>)
  {
    forall i :: 0 <= i < |parts| ==> parts[i] != []
  }

  /** The coordinates before unwrapping, by geometry type. */
  function Parts<P>(f: Feature<P>, fr: Frame): seq<Coordinates>
    requires fr.extent > 0
    requires f.kind == PointGeom ==> HasFirstPoints(f.parts)
  {
    match f.kind
    case PointGeom => FirstPoints(fr, f.parts)
    case LineStringGeom => Lines(fr, f.parts)
    case PolygonGeom => Polygons(fr, Classify(f.parts))
    case UnknownGeom => Unprojected(f.parts)
  }

  /** The projected first point of every part. */
  function FirstPoints(fr: Frame, parts: seq<seq<Point>>): seq<Coordinates>
    requires fr.extent > 0 && HasFirstPoints(parts)
  {
    seq(|parts|, i requires 0 <= i < |parts| => At(fr.project(Normalize(fr, parts[i][0]))))
  }

  function Lines(fr: Frame, lines: seq<seq<Point>>): seq<Coordinates>
    requires fr.extent > 0
  {
    seq(|lines|, i requires 0 <= i < |lines| => Positions(Projected(fr, lines[i])))
  }

  function Polygons(fr: Frame, polygons: seq<Polygon>): seq<Coordinates>
    requires fr.extent > 0
  {
    seq(|polygons|, i requires 0 <= i < |polygons| => Nested(Lines(fr, polygons[i])))
  }

  function Unprojected(parts: seq<seq<Point>>): seq<Coordinates>
  {
    seq(|parts|, i requires 0 <= i < |parts| => Nested(seq(|parts[i]|, j requires 0 <= j < |parts[i]| => Local(parts[i][j]))))
  }

  method ProjectPoints(fr: Frame, parts: seq<seq<Point>>) returns (coords: Option<seq<Coordinates>>)
    requires fr.extent > 0
    ensures coords.None? <==> !HasFirstPoints(parts)
    ensures coords.Some? ==> coords.value == FirstPoints(fr, parts)
  {
    var points: seq<Point> := [];
    for i := 0 to |parts|
      invariant |points| == i && forall k :: 0 <= k < i ==> parts[k] != [] && points[k] == parts[k][0]
    {
      if parts[i] == [] {
        return None;
      }
      points := points + [parts[i][0]];
    }
    var projected := ProjectLine(fr, points);
    coords := Some(seq(|projected|, j requires 0 <= j < |projected| => At(projected[j])));
    assert coords.value == FirstPoints(fr, parts);
  }

  method ProjectLines(fr: Frame, lines: seq<seq<Point>>) returns (coords: seq<Coordinates>)
    requires fr.extent > 0
    ensures coords == Lines(fr, lines)
  {
    coords := [];
    for i := 0 to |lines|
      invariant coords == Lines(fr, lines[..i])
    {
      var line := ProjectLine(fr, lines[i]);
      assert line == Projected(fr, lines[i]);
      assert lines[..i + 1][..i] == lines[..i];
      coords := coords + [Positions(line)];
    }
    assert lines[..|lines|] == lines;
  }

  method ProjectPolygons(fr: Frame, polygons: seq<Polygon>) returns (coords: seq<Coordinates>)
    requires fr.extent > 0
    ensures coords == Polygons(fr, polygons)
  {
    coords := [];
    for i := 0 to |polygons|
      invariant coords == Polygons(fr, polygons[..i])
    {
      var rings := ProjectLines(fr, polygons[i]);
      assert polygons[..i + 1][..i] == polygons[..i];
      coords := coords + [Nested(rings)];
    }
    assert polygons[..|polygons|] == polygons;
  }

  /**
   * `toGeoJSON(x, y, z, project)`. Points keep the first point of each part,
   * lines are projected part by part, polygon rings are first grouped into
   * polygons, and a feature of unknown type keeps its local points. A point
   * part without any point fails (`None`).
   */
  method ToGeoJson<P>(f: Feature<P>, x: int, y: int, z: nat, project: Position -> Position) returns (r: Option<GeoJsonFeature<P>>)
    requires f.extent > 0
    ensures r.None? <==> f.kind == PointGeom && !HasFirstPoints(f.parts)
    ensures r.Some? ==> r.value.properties == f.properties && r.value.id == f.id
    ensures r.Some? ==> r.value.geometry == Shape(TypeName(f.kind), Parts(f, Frame(f.extent, x, y, z, project)))
  {
    var fr := Frame(f.extent, x, y, z, project);
    var coords: seq<Coordinates>;
    match f.kind {
      case PointGeom =>
        var points := ProjectPoints(fr, f.parts);
        if points.None? {
          return None;
        }
        coords := points.value;
      case LineStringGeom =>
        coords := ProjectLines(fr, f.parts);
      case PolygonGeom =>
        var polygons := ClassifyRings(f.parts);
        coords := ProjectPolygons(fr, polygons);
      case UnknownGeom =>
        coords := Unprojected(f.parts);
    }
    var geometry := Geometry(TypeName(f.kind), Nested(coords));
    if |coords| == 1 {
      geometry := geometry.(coordinates := coords[0]);
    } else {
      geometry := geometry.(typeName := "Multi" + geometry.typeName);
    }
    assert coords == Parts(f, fr);
    r := Some(GeoJsonFeature(geometry, f.properties, f.id));
  }

  /** The geometry's type carries the `Multi` prefix exactly when the coordinates were not unwrapped. */
  lemma MultiUnlessSingle(t: GeomType, coords: seq<Coordinates>)
    ensures var g := Shape(TypeName(t), coords);
      && (|coords| == 1 <==> g.typeName == TypeName(t))
      && (|coords| != 1 <==> g.typeName == "Multi" + TypeName(t))
      && (|coords| == 1 ==> g.coordinates == coords[0])
      && (|coords| != 1 ==> g.coordinates.Nested? && g.coordinates.items == coords)
  {
    var g := Shape(TypeName(t), coords);
    if |coords| != 1 {
      assert |g.typeName| == 5 + |TypeName(t)|;
    }
  }

  /** A point feature yields one position per part; a line or unknown feature one entry per part; a polygon feature one per polygon. */
  lemma PartsCount<P>(f: Feature<P>, fr: Frame)
    requires fr.extent > 0
    requires f.kind == PointGeom ==> HasFirstPoints(f.parts)
    ensures f.kind != PolygonGeom ==> |Parts(f, fr)| == |f.parts|
    ensures f.kind == PolygonGeom && |f.parts| > 1 ==>
      |Parts(f, fr)| == (if LeadingWinding(f.parts).Some? then CountOuter(f.parts, LeadingWinding(f.parts).value) else 0)
    ensures f.kind == PolygonGeom && |f.parts| <= 1 ==> |Parts(f, fr)| == 1
  {
    if f.kind == PolygonGeom && |f.parts| > 1 {
      ClassifyPolygons(f.parts);
    }
  }
}

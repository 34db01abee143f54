/**
 * Tile addressing over a pyramid of vector tiles at one fixed zoom: the
 * antimeridian wrap, the floor/affine maps between projected coordinates and
 * tile addresses, URL template substitution, the square ring of neighbouring
 * tile addresses, the failure-isolating retrieval of a ring and the corner
 * tiles that the lower-bound estimate starts from.
 */
module Tile {
  import opened Wrappers
  import opened Seqs

  /** A tile address at the fixed zoom; either coordinate may lie outside the grid. */
  datatype TileAddr = TileAddr(x: int, y: int)

  /** A point in the tileset's projected reference system. */
  datatype ProjPoint = ProjPoint(x: real, y: real)

  /** The metadata fields a search reads, after defaults are merged in. */
  datatype Metadata = Metadata(originX: real, originY: real, span: real, crs: string, maxzoom: nat)

  function Pow2(n: nat): (r: nat)
    ensures r >= 1
  {
    if n == 0 then 1 else 2 * Pow2(n - 1)
  }

  /** Tiles per axis at the fixed zoom, `2 ** maxzoom`. */
  function TileCount(m: Metadata): (r: nat)
    ensures r >= 1
  {
    Pow2(m.maxzoom)
  }

  /** Projected width and height of one tile at the fixed zoom. */
  function TileSize(m: Metadata): (r: real)
    ensures m.span > 0.0 ==> r > 0.0
    ensures m.span != 0.0 ==> r != 0.0
  {
    m.span / TileCount(m) as real
  }

  // ---------------------------------------------------------------------------
  // Antimeridian wrap
  // ---------------------------------------------------------------------------

  /** Euclidean division is unique: a quotient and remainder in range are the ones `/` and `%` give. */
  lemma DivModUnique(y: int, n: int, q: int, r: int)
    requires n > 0 && 0 <= r < n && y == q * n + r
    ensures y / n == q && y % n == r
  {
    var k := q - y / n;
    assert k * n == y % n - r;
  }

  /** JavaScript's `%` on integers: truncating division, so the remainder takes the sign of `a`. */
  function JsRem(a: int, n: int): int
    requires n > 0
  {
    if a >= 0 then a % n else -((-a) % n)
  }

  /** The remainder is below `n` in magnitude, has the sign of `a`, and differs from `a` by a multiple of `n`. */
  lemma JsRemBounds(a: int, n: int)
    requires n > 0
    ensures var r := JsRem(a, n);
      && -n < r < n
      && (a >= 0 ==> r >= 0)
      && (a <= 0 ==> r <= 0)
      && (a - r) % n == 0
  {
    if a >= 0 {
      DivModUnique(a - a % n, n, a / n, 0);
    } else {
      DivModUnique(a + (-a) % n, n, -((-a) / n), 0);
    }
  }

  /**
   * `wrapAM`: folds an x address into the grid, treating it as a cylinder,
   * with the truncating remainder of `x + tiles`.
   */
  function WrapAM(x: int, tiles: int): (r: int)
    requires tiles > 0
    ensures -tiles < r < tiles && (x - r) % tiles == 0
  {
    JsRemBounds(x + tiles, tiles);
    DivModUnique(x - JsRem(x + tiles, tiles), tiles, (x + tiles - JsRem(x + tiles, tiles)) / tiles - 1, 0);
    JsRem(x + tiles, tiles)
  }

  /**
   * For x >= -tiles the wrap is the Euclidean remainder: x itself inside the
   * grid and x + tiles one grid west of it. Further west the truncating `%`
   * leaves a result in (-tiles, 0], outside the grid unless it is 0: x = -2 * tiles
   * wraps to 0 (JavaScript's -0, which passes the x >= 0 test and is requested).
   */
  lemma WrapAMRange(x: int, tiles: int)
    requires tiles > 0
    ensures var r := WrapAM(x, tiles);
      && (-tiles <= x ==> 0 <= r < tiles && r == x % tiles)
      && (0 <= x < tiles ==> r == x)
      && (-tiles <= x < 0 ==> r == x + tiles)
      && (x < -tiles ==> -tiles < r <= 0)
      && (x == -2 * tiles ==> r == 0)
  {
    JsRemBounds(x + tiles, tiles);
    if x >= -tiles {
      DivModUnique(x + tiles, tiles, x / tiles + 1, x % tiles);
      if 0 <= x < tiles {
        DivModUnique(x + tiles, tiles, 1, x);
      } else if x < 0 {
        DivModUnique(x + tiles, tiles, 0, x + tiles);
      }
    } else if x == -2 * tiles {
      DivModUnique(tiles, tiles, 1, 0);
    }
  }

  // ---------------------------------------------------------------------------
  // Projected coordinates <-> tile addresses
  // ---------------------------------------------------------------------------

  /** `resolveTile`: the tile whose square contains `p` (x grows east, y grows south). */
  function ResolveTile(p: ProjPoint, m: Metadata): (a: TileAddr)
    requires m.span != 0.0
    ensures a.x as real <= (p.x - m.originX) / TileSize(m) < a.x as real + 1.0
    ensures a.y as real <= (m.originY - p.y) / TileSize(m) < a.y as real + 1.0
  {
    var size := TileSize(m);
    TileAddr(((p.x - m.originX) / size).Floor, ((m.originY - p.y) / size).Floor)
  }

  /** `originTile`: the projected coordinates of a tile's upper-left corner. */
  function OriginTile(a: TileAddr, m: Metadata): ProjPoint
  {
    var size := TileSize(m);
    ProjPoint(a.x as real * size + m.originX, m.originY - a.y as real * size)
  }

  /** Resolving the origin of a tile gives back that tile. */
  lemma ResolveOriginRoundTrip(a: TileAddr, m: Metadata)
    requires m.span > 0.0
    ensures ResolveTile(OriginTile(a, m), m) == a
  {
    var size := TileSize(m);
    var o := OriginTile(a, m);
    assert (o.x - m.originX) / size == a.x as real;
    assert (m.originY - o.y) / size == a.y as real;
  }

  lemma MulStrict(a: real, b: real, s: real)
    requires s > 0.0 && a < b
    ensures a * s < b * s
  {
    assert (b - a) * s > 0.0;
  }

  lemma MulMono(a: real, b: real, s: real)
    requires s > 0.0 && a <= b
    ensures a * s <= b * s
  {
    assert (b - a) * s >= 0.0;
  }

  lemma ScaleFloor(k: real, num: real, s: real)
    requires s > 0.0 && k <= num / s < k + 1.0
    ensures k * s <= num < k * s + s
  {
    ScaleBelow(k, num, s);
    ScaleAbove(k, num, s);
  }

  lemma ScaleBelow(k: real, num: real, s: real)
    requires s > 0.0 && k <= num / s
    ensures k * s <= num
  {
    MulMono(k, num / s, s);
    assert (num / s) * s == num;
  }

  lemma ScaleAbove(k: real, num: real, s: real)
    requires s > 0.0 && num / s < k + 1.0
    ensures num < k * s + s
  {
    MulStrict(num / s, k + 1.0, s);
    assert (num / s) * s == num;
    assert (k + 1.0) * s == k * s + s;
  }

  /** A point lies in the square of the tile it resolves to: east of and below that tile's origin, by less than one tile. */
  lemma OriginResolveBounds(p: ProjPoint, m: Metadata)
    requires m.span > 0.0
    ensures var o := OriginTile(ResolveTile(p, m), m);
      o.x <= p.x < o.x + TileSize(m) && o.y - TileSize(m) < p.y <= o.y
  {
    var size := TileSize(m);
    var a := ResolveTile(p, m);
    ScaleFloor(a.x as real, p.x - m.originX, size);
    ScaleFloor(a.y as real, m.originY - p.y, size);
  }

  // ---------------------------------------------------------------------------
  // URL template
  // ---------------------------------------------------------------------------

  function DigitChar(d: int): (c: char)
    requires 0 <= d < 10
    ensures '0' <= c <= '9'
  {
    ('0' as int + d) as char
  }

  /** Decimal digits of a natural number, most significant first, no padding. */
  function NatToString(n: nat): (s: string)
    ensures |s| > 0
    ensures forall k :: 0 <= k < |s| ==> '0' <= s[k] <= '9'
    decreases n
  {
    if n < 10 then [DigitChar(n)] else NatToString(n / 10) + [DigitChar(n % 10)]
  }

  /** `Number.prototype.toString` on an integer: its decimal digits, after `-` when negative. */
  function IntToString(n: int): (s: string)
    ensures |s| > 0 && '{' !in s
  {
    if n < 0 then "-" + NatToString(-n) else NatToString(n)
  }

  /** Value of a string of decimal digits (reference reading of the substituted numbers). */
  function DigitsValue(s: string): int
  {
    if s == [] then 0 else DigitsValue(s[..|s| - 1]) * 10 + (s[|s| - 1] as int - '0' as int)
  }

  /** Value of an optionally negative decimal numeral. */
  function DecimalValue(s: string): int
  {
    if |s| > 0 && s[0] == '-' then -DigitsValue(s[1..]) else DigitsValue(s)
  }

  lemma {:induction false} NatToStringValue(n: nat)
    ensures DigitsValue(NatToString(n)) == n
    decreases n
  {
    if n >= 10 {
      var s := NatToString(n);
      assert s[..|s| - 1] == NatToString(n / 10);
      NatToStringValue(n / 10);
    }
  }

  /** The decimal string substituted for a coordinate reads back as that coordinate. */
  lemma IntToStringRoundTrip(n: int)
    ensures DecimalValue(IntToString(n)) == n
  {
    var s := IntToString(n);
    if n < 0 {
      var t := NatToString(-n);
      assert s == ['-'] + t;
      assert s[0] == '-' && s[1..] == t;
      NatToStringValue(-n);
      assert DecimalValue(s) == -DigitsValue(t);
    } else {
      assert s == NatToString(n) && '0' <= s[0] <= '9';
      NatToStringValue(n);
      assert DecimalValue(s) == DigitsValue(s);
    }
  }

  ghost predicate OccursAt(s: string, pat: string, i: int)
  {
    0 <= i && i + |pat| <= |s| && s[i..i + |pat|] == pat
  }

  ghost predicate Occurs(s: string, pat: string)
  {
    exists i :: OccursAt(s, pat, i)
  }

  ghost predicate FirstOccurrence(s: string, pat: string, i: int)
  {
    OccursAt(s, pat, i) && forall j :: 0 <= j < i ==> !OccursAt(s, pat, j)
  }

  /** `String.prototype.replace` with a string pattern: replaces the first occurrence only. */
  function ReplaceFirst(s: string, pat: string, rep: string): string
    requires |pat| > 0
    decreases |s|
  {
    if |s| < |pat| then s
    else if s[..|pat|] == pat then rep + s[|pat|..]
    else [s[0]] + ReplaceFirst(s[1..], pat, rep)
  }

  lemma OccursAtTail(s: string, pat: string, i: int)
    requires |s| > 0
    ensures i >= 1 ==> (OccursAt(s, pat, i) <==> OccursAt(s[1..], pat, i - 1))
  {
    if i >= 1 && i + |pat| <= |s| {
      assert s[1..][i - 1..i - 1 + |pat|] == s[i..i + |pat|];
    }
  }

  lemma {:induction false} ReplaceFirstAbsent(s: string, pat: string, rep: string)
    requires |pat| > 0 && !Occurs(s, pat)
    ensures ReplaceFirst(s, pat, rep) == s
    decreases |s|
  {
    if |s| >= |pat| {
      assert !OccursAt(s, pat, 0);
      assert s[..|pat|] != pat;
      var t := s[1..];
      forall k ensures !OccursAt(t, pat, k) {
        OccursAtTail(s, pat, k + 1);
      }
      ReplaceFirstAbsent(t, pat, rep);
      assert [s[0]] + t == s;
    }
  }

  lemma {:induction false} ReplaceFirstAt(s: string, pat: string, rep: string, i: int)
    requires |pat| > 0 && FirstOccurrence(s, pat, i)
    ensures ReplaceFirst(s, pat, rep) == s[..i] + rep + s[i + |pat|..]
    decreases |s|
  {
    if i == 0 {
      assert s[..|pat|] == pat;
    } else {
      assert !OccursAt(s, pat, 0);
      var t := s[1..];
      assert ReplaceFirst(s, pat, rep) == [s[0]] + ReplaceFirst(t, pat, rep);
      TailFirstOccurrence(s, pat, i);
      ReplaceFirstAt(t, pat, rep, i - 1);
      ConsSlices(s, i, i + |pat|);
    }
  }

  lemma TailFirstOccurrence(s: string, pat: string, i: int)
    requires |s| > 0 && i >= 1 && FirstOccurrence(s, pat, i)
    ensures FirstOccurrence(s[1..], pat, i - 1)
  {
    OccursAtTail(s, pat, i);
    forall j | 0 <= j < i - 1 ensures !OccursAt(s[1..], pat, j) {
      OccursAtTail(s, pat, j + 1);
    }
  }

  lemma ConsSlices(s: string, i: int, k: int)
    requires 1 <= i <= k <= |s|
    ensures [s[0]] + s[1..][..i - 1] == s[..i] && s[1..][k - 1..] == s[k..]
  {
  }

  /** Replacing the first occurrence: no occurrence leaves the string unchanged, otherwise exactly the leftmost match is replaced. */
  lemma ReplaceFirstSpec(s: string, pat: string, rep: string)
    requires |pat| > 0
    ensures !Occurs(s, pat) ==> ReplaceFirst(s, pat, rep) == s
    ensures forall i :: FirstOccurrence(s, pat, i) ==> ReplaceFirst(s, pat, rep) == s[..i] + rep + s[i + |pat|..]
  {
    if !Occurs(s, pat) {
      ReplaceFirstAbsent(s, pat, rep);
    }
    forall i | FirstOccurrence(s, pat, i)
      ensures ReplaceFirst(s, pat, rep) == s[..i] + rep + s[i + |pat|..]
    {
      ReplaceFirstAt(s, pat, rep, i);
    }
  }

  /** `resolveUrl`: substitutes the first `{x}`, then the first `{y}`, then the first `{z}`. */
  function ResolveUrl(url: string, a: TileAddr, zoom: nat): string
  {
    ReplaceFirst(ReplaceFirst(ReplaceFirst(url, "{x}", IntToString(a.x)), "{y}", IntToString(a.y)), "{z}", IntToString(zoom))
  }

  /** A template without placeholders is used as it is. */
  lemma ResolveUrlNoPlaceholders(url: string, a: TileAddr, zoom: nat)
    requires !Occurs(url, "{x}") && !Occurs(url, "{y}") && !Occurs(url, "{z}")
    ensures ResolveUrl(url, a, zoom) == url
  {
    ReplaceFirstSpec(url, "{x}", IntToString(a.x));
    ReplaceFirstSpec(url, "{y}", IntToString(a.y));
    ReplaceFirstSpec(url, "{z}", IntToString(zoom));
  }

  lemma {:induction false} ReplaceSkipsBraceFree(p: string, s: string, pat: string, rep: string)
    requires |pat| > 0 && pat[0] == '{' && '{' !in p
    ensures ReplaceFirst(p + s, pat, rep) == p + ReplaceFirst(s, pat, rep)
    decreases |p|
  {
    if p != [] {
      var ps := p + s;
      if |ps| < |pat| {
        assert ReplaceFirst(ps, pat, rep) == ps;
        assert ReplaceFirst(s, pat, rep) == s;
        assert ReplaceFirst(p + s, pat, rep) == p + ReplaceFirst(s, pat, rep);
      } else {
        assert ps[..|pat|][0] == p[0] != pat[0];
        assert ReplaceFirst(ps, pat, rep) == [ps[0]] + ReplaceFirst(ps[1..], pat, rep);
        assert ps[1..] == p[1..] + s;
        ReplaceSkipsBraceFree(p[1..], s, pat, rep);
        assert [p[0]] + (p[1..] + ReplaceFirst(s, pat, rep)) == p + ReplaceFirst(s, pat, rep);
        assert ReplaceFirst(p + s, pat, rep) == p + ReplaceFirst(s, pat, rep);
      }
    } else {
      assert p + s == s;
    }
  }

  lemma ReplaceSkipsPlaceholder(q: string, s: string, pat: string, rep: string)
    requires |q| == 3 && |pat| == 3 && q[0] == '{' && pat[0] == '{' && q[1] != pat[1]
    requires q[1] != '{' && q[2] != '{'
    ensures ReplaceFirst(q + s, pat, rep) == q + ReplaceFirst(s, pat, rep)
  {
    var qs := q + s;
    assert qs[..|pat|][1] == q[1];
    assert qs[1..] == q[1..] + s;
    ReplaceSkipsBraceFree(q[1..], s, pat, rep);
    assert [q[0]] + q[1..] == q;
  }

  lemma ReplaceAtFront(s: string, pat: string, rep: string)
    requires |pat| > 0
    ensures ReplaceFirst(pat + s, pat, rep) == rep + s
  {
    assert (pat + s)[..|pat|] == pat;
    assert (pat + s)[|pat|..] == s;
  }

  /** Substituting an `{x}` or `{y}` placeholder that follows `{z}` leaves the `{z}` and the brace-free text before it alone. */
  lemma TemplateStep(a: string, b: string, rest: string, pat: string, v: string)
    requires '{' !in a && '{' !in b
    requires |pat| == 3 && pat[0] == '{' && pat[1] != 'z'
    ensures ReplaceFirst(a + "{z}" + b + pat + rest, pat, v) == a + "{z}" + b + v + rest
  {
    var t3 := pat + rest;
    var t2 := b + t3;
    var t1 := "{z}" + t2;
    calc {
      ReplaceFirst(a + "{z}" + b + pat + rest, pat, v);
      { assert a + "{z}" + b + pat + rest == a + t1; }
      ReplaceFirst(a + t1, pat, v);
      { ReplaceSkipsBraceFree(a, t1, pat, v); }
      a + ReplaceFirst(t1, pat, v);
      { ReplaceSkipsPlaceholder("{z}", t2, pat, v); }
      a + ("{z}" + ReplaceFirst(t2, pat, v));
      { ReplaceSkipsBraceFree(b, t3, pat, v); }
      a + ("{z}" + (b + ReplaceFirst(t3, pat, v)));
      { ReplaceAtFront(rest, pat, v); }
      a + ("{z}" + (b + (v + rest)));
      a + "{z}" + b + v + rest;
    }
  }

  lemma TemplateStepZ(a: string, rest: string, Z: string)
    requires '{' !in a
    ensures ReplaceFirst(a + "{z}" + rest, "{z}", Z) == a + Z + rest
  {
    var t1 := "{z}" + rest;
    calc {
      ReplaceFirst(a + "{z}" + rest, "{z}", Z);
      { assert a + "{z}" + rest == a + t1; }
      ReplaceFirst(a + t1, "{z}", Z);
      { ReplaceSkipsBraceFree(a, t1, "{z}", Z); }
      a + ReplaceFirst(t1, "{z}", Z);
      { ReplaceAtFront(rest, "{z}", Z); }
      a + (Z + rest);
    }
  }

  /** The first two substitutions of `resolveUrl` on a `{z}…{x}…{y}` template. */
  lemma TemplateStepsXY(a: string, b: string, c: string, d: string, X: string, Y: string)
    requires '{' !in a && '{' !in b && '{' !in c && '{' !in X
    ensures ReplaceFirst(ReplaceFirst(a + "{z}" + b + "{x}" + c + "{y}" + d, "{x}", X), "{y}", Y)
         == a + "{z}" + (b + X + c + Y + d)
  {
    var cd := c + "{y}" + d;
    var bxc := b + X + c;
    calc {
      ReplaceFirst(ReplaceFirst(a + "{z}" + b + "{x}" + c + "{y}" + d, "{x}", X), "{y}", Y);
      { assert a + "{z}" + b + "{x}" + c + "{y}" + d == a + "{z}" + b + "{x}" + cd;
        TemplateStep(a, b, cd, "{x}", X); }
      ReplaceFirst(a + "{z}" + b + X + cd, "{y}", Y);
      { assert a + "{z}" + b + X + cd == a + "{z}" + bxc + "{y}" + d;
        TemplateStep(a, bxc, d, "{y}", Y); }
      a + "{z}" + bxc + Y + d;
      a + "{z}" + (b + X + c + Y + d);
    }
  }

  /** For a `{z}…{x}…{y}` template whose literal parts hold no `{`, every placeholder becomes the decimal coordinate. */
  lemma ResolveUrlTemplate(a: string, b: string, c: string, d: string, t: TileAddr, zoom: nat)
    requires '{' !in a && '{' !in b && '{' !in c && '{' !in d
    ensures ResolveUrl(a + "{z}" + b + "{x}" + c + "{y}" + d, t, zoom)
         == a + IntToString(zoom) + b + IntToString(t.x) + c + IntToString(t.y) + d
  {
    var X, Y, Z := IntToString(t.x), IntToString(t.y), IntToString(zoom);
    var rest := b + X + c + Y + d;
    TemplateStepsXY(a, b, c, d, X, Y);
    TemplateStepZ(a, rest, Z);
    assert a + Z + rest == a + Z + b + X + c + Y + d;
  }

  // ---------------------------------------------------------------------------
  // The ring of neighbouring tiles
  // ---------------------------------------------------------------------------

  /**
   * The addresses pushed by the ring loop's iteration with offset `i`: the top
   * and bottom rows at unwrapped x, then (corners excluded) the left and right
   * columns at wrapped x.
   */
  function RingStep(c: TileAddr, d: int, tiles: int, i: int): seq<TileAddr>
    requires tiles > 0
  {
    [TileAddr(c.x + i, c.y - d), TileAddr(c.x + i, c.y + d)]
    + if -d < i < d then [TileAddr(WrapAM(c.x - d, tiles), c.y + i), TileAddr(WrapAM(c.x + d, tiles), c.y + i)]
      else []
  }

  /** Everything the ring loop has pushed after the iterations with offsets `-d .. hi - 1`. */
  function RingUpTo(c: TileAddr, d: nat, tiles: int, hi: int): seq<TileAddr>
    requires tiles > 0
    decreases hi + d
  {
    if hi <= -(d as int) then [] else RingUpTo(c, d, tiles, hi - 1) + RingStep(c, d, tiles, hi - 1)
  }

  /** The d-th ring of addresses around `c`, in the order the loop pushes them. */
  function Ring(c: TileAddr, d: nat, tiles: int): seq<TileAddr>
    requires tiles > 0
  {
    RingUpTo(c, d, tiles, d + 1)
  }

  /** Membership in the d-th ring: a row entry at unwrapped x, or a column entry at wrapped x strictly between the rows. */
  predicate InRing(a: TileAddr, c: TileAddr, d: int, tiles: int)
    requires tiles > 0
  {
    || ((a.y == c.y - d || a.y == c.y + d) && c.x - d <= a.x <= c.x + d)
    || ((a.x == WrapAM(c.x - d, tiles) || a.x == WrapAM(c.x + d, tiles)) && c.y - d < a.y < c.y + d)
  }

  function ColumnCount(d: int, hi: int): int
  {
    if hi <= 1 - d then 0 else if hi >= d then 2 * d - 1 else hi + d - 1
  }

  lemma {:induction false} RingUpToLength(c: TileAddr, d: nat, tiles: int, hi: int)
    requires tiles > 0 && -(d as int) <= hi <= d + 1
    ensures |RingUpTo(c, d, tiles, hi)| == 2 * (hi + d) + 2 * ColumnCount(d, hi)
    decreases hi + d
  {
    if hi > -(d as int) {
      RingUpToLength(c, d, tiles, hi - 1);
    }
  }

  /** A ring at distance d >= 1 has 2(2d+1) row entries and 2(2d-1) column entries, 8d in all. */
  lemma RingLength(c: TileAddr, d: nat, tiles: int)
    requires tiles > 0 && d >= 1
    ensures |Ring(c, d, tiles)| == 8 * d
  {
    RingUpToLength(c, d, tiles, d + 1);
  }

  lemma {:induction false} RingUpToMembership(a: TileAddr, c: TileAddr, d: nat, tiles: int, hi: int)
    requires tiles > 0 && -(d as int) <= hi <= d + 1
    ensures a in RingUpTo(c, d, tiles, hi) <==>
      || ((a.y == c.y - d || a.y == c.y + d) && c.x - d <= a.x < c.x + hi)
      || ((a.x == WrapAM(c.x - d, tiles) || a.x == WrapAM(c.x + d, tiles)) && c.y - d < a.y < c.y + hi && a.y < c.y + d)
    decreases hi + d
  {
    if hi > -(d as int) {
      RingUpToMembership(a, c, d, tiles, hi - 1);
    }
  }

  /** An address is in the ring exactly when it is one of its row or column entries. */
  lemma RingMembership(a: TileAddr, c: TileAddr, d: nat, tiles: int)
    requires tiles > 0
    ensures a in Ring(c, d, tiles) <==> InRing(a, c, d, tiles)
  {
    RingUpToMembership(a, c, d, tiles, d + 1);
  }

  /** `getNeighboringTiles`: pushes the d-th ring's addresses into a list. */
  method GetNeighboringTiles(c: TileAddr, m: Metadata, d: nat) returns (tileCoords: seq<TileAddr>)
    ensures tileCoords == Ring(c, d, TileCount(m))
    ensures d >= 1 ==> |tileCoords| == 8 * d
  {
    var tiles := Pow2(m.maxzoom);
    tileCoords := [];
    var i: int := -(d as int);
    while i <= d
      invariant -(d as int) <= i <= d + 1
      invariant tileCoords == RingUpTo(c, d, tiles, i)
    {
      tileCoords := tileCoords + [TileAddr(c.x + i, c.y - d)];
      tileCoords := tileCoords + [TileAddr(c.x + i, c.y + d)];
      if i > -(d as int) && i < d {
        tileCoords := tileCoords + [TileAddr(WrapAM(c.x - d, tiles), c.y + i)];
        tileCoords := tileCoords + [TileAddr(WrapAM(c.x + d, tiles), c.y + i)];
      }
      i := i + 1;
    }
    if d >= 1 {
      RingLength(c, d, tiles);
    }
  }

  // ---------------------------------------------------------------------------
  // Retrieving a ring
  // ---------------------------------------------------------------------------

  /**
   * `retrieveTile` followed by `.catch(() => [])`: the tile is requested at its
   * resolved URL through `retrieve` (HTTP fetch and decoding, which may fail),
   * and a failed tile counts as an empty one.
   */
  function RetrieveTile<F>(url: string, a: TileAddr, m: Metadata, retrieve: (string, TileAddr) -> Option<seq<F>>): seq<F>
  {
    retrieve(ResolveUrl(url, a, m.maxzoom), a).GetOr([])
  }

  /** The addresses of `cs` that are requested: those with x >= 0, in order. */
  function Requested(cs: seq<TileAddr>): (r: seq<TileAddr>)
    ensures |r| <= |cs|
  {
    if cs == [] then []
    else
      var last := cs[|cs| - 1];
      Requested(cs[..|cs| - 1]) + (if last.x >= 0 then [last] else [])
  }

  /** An address is requested exactly when it is in the list and its x is not negative. */
  lemma {:induction false} RequestedMembership(cs: seq<TileAddr>, a: TileAddr)
    ensures a in Requested(cs) <==> a in cs && a.x >= 0
    decreases |cs|
  {
    if cs != [] {
      RequestedMembership(cs[..|cs| - 1], a);
      assert cs == cs[..|cs| - 1] + [cs[|cs| - 1]];
    }
  }

  /** The features of the requested tiles of `cs`, concatenated in order. */
  function Gather<F>(url: string, cs: seq<TileAddr>, m: Metadata, retrieve: (string, TileAddr) -> Option<seq<F>>): seq<F>
  {
    if cs == [] then []
    else
      var last := cs[|cs| - 1];
      Gather(url, cs[..|cs| - 1], m, retrieve) + (if last.x >= 0 then RetrieveTile(url, last, m, retrieve) else [])
  }

  lemma GatherSnoc<F>(url: string, cs: seq<TileAddr>, a: TileAddr, m: Metadata, retrieve: (string, TileAddr) -> Option<seq<F>>)
    ensures Requested(cs + [a]) == Requested(cs) + (if a.x >= 0 then [a] else [])
    ensures Gather(url, cs + [a], m, retrieve)
         == Gather(url, cs, m, retrieve) + (if a.x >= 0 then RetrieveTile(url, a, m, retrieve) else [])
  {
    assert (cs + [a])[..|cs + [a]| - 1] == cs;
  }

  /** `retrieveNeighboringTiles`: requests every ring address with x >= 0 and concatenates the per-tile lists. */
  method RetrieveNeighboringTiles<F>(url: string, c: TileAddr, m: Metadata, d: nat,
                                     retrieve: (string, TileAddr) -> Option<seq<F>>)
    returns (features: seq<F>, ghost requested: seq<TileAddr>)
    ensures requested == Requested(Ring(c, d, TileCount(m)))
    ensures features == Gather(url, Ring(c, d, TileCount(m)), m, retrieve)
  {
    var tileCoords := GetNeighboringTiles(c, m, d);
    var tiles: seq<seq<F>> := [];
    requested := [];
    for k := 0 to |tileCoords|
      invariant requested == Requested(tileCoords[..k])
      invariant Flatten(tiles) == Gather(url, tileCoords[..k], m, retrieve)
    {
      var coords := tileCoords[k];
      assert tileCoords[..k + 1] == tileCoords[..k] + [coords];
      GatherSnoc(url, tileCoords[..k], coords, m, retrieve);
      if coords.x >= 0 {
        ghost var before := tiles;
        requested := requested + [coords];
        tiles := tiles + [RetrieveTile(url, coords, m, retrieve)];
        assert tiles[..|tiles| - 1] == before;
      }
    }
    assert tileCoords[..|tileCoords|] == tileCoords;
    features := Flatten(tiles);
  }

  /** Concatenation is in address order: the features of two address lists are those of each, one after the other. */
  lemma {:induction false} GatherAppend<F>(url: string, cs: seq<TileAddr>, ds: seq<TileAddr>, m: Metadata,
                                           retrieve: (string, TileAddr) -> Option<seq<F>>)
    ensures Gather(url, cs + ds, m, retrieve) == Gather(url, cs, m, retrieve) + Gather(url, ds, m, retrieve)
    decreases |ds|
  {
    if ds == [] {
      assert cs + ds == cs;
    } else {
      var ds' := ds[..|ds| - 1];
      assert (cs + ds)[..|cs + ds| - 1] == cs + ds';
      GatherAppend(url, cs, ds', m, retrieve);
    }
  }

  /** Only addresses with x >= 0 are requested: retrievals that agree on those give the same features. */
  lemma {:induction false} GatherIgnoresUnrequested<F>(url: string, cs: seq<TileAddr>, m: Metadata,
                                                       r1: (string, TileAddr) -> Option<seq<F>>,
                                                       r2: (string, TileAddr) -> Option<seq<F>>)
    requires forall a :: a in cs && a.x >= 0 ==> RetrieveTile(url, a, m, r1) == RetrieveTile(url, a, m, r2)
    ensures Gather(url, cs, m, r1) == Gather(url, cs, m, r2)
    decreases |cs|
  {
    if cs != [] {
      GatherIgnoresUnrequested(url, cs[..|cs| - 1], m, r1, r2);
    }
  }

  /** Every tile failing yields no features rather than an error. */
  lemma {:induction false} GatherAllFailing<F>(url: string, cs: seq<TileAddr>, m: Metadata,
                                               retrieve: (string, TileAddr) -> Option<seq<F>>)
    requires forall a :: a in cs ==> retrieve(ResolveUrl(url, a, m.maxzoom), a) == None
    ensures Gather(url, cs, m, retrieve) == []
    decreases |cs|
  {
    if cs != [] {
      GatherAllFailing(url, cs[..|cs| - 1], m, retrieve);
    }
  }

  /** Every gathered feature comes from a requested address whose retrieval succeeded with it. */
  lemma {:induction false} GatherOrigin<F>(url: string, cs: seq<TileAddr>, m: Metadata,
                                           retrieve: (string, TileAddr) -> Option<seq<F>>, f: F)
    requires f in Gather(url, cs, m, retrieve)
    ensures exists a :: a in cs && a.x >= 0 && f in RetrieveTile(url, a, m, retrieve)
    decreases |cs|
  {
    var last := cs[|cs| - 1];
    if f in Gather(url, cs[..|cs| - 1], m, retrieve) {
      GatherOrigin(url, cs[..|cs| - 1], m, retrieve, f);
      var a :| a in cs[..|cs| - 1] && a.x >= 0 && f in RetrieveTile(url, a, m, retrieve);
      assert a in cs;
    } else {
      assert last in cs;
    }
  }

  // ---------------------------------------------------------------------------
  // Corner tiles of the lower bound
  // ---------------------------------------------------------------------------

  datatype Corners = Corners(ul: TileAddr, ur: TileAddr, bl: TileAddr, br: TileAddr)

  /** The corner tiles of ring d that the lower-bound estimate starts from: x wrapped, y raw. */
  function CornerTiles(c: TileAddr, d: int, tiles: int): Corners
    requires tiles > 0
  {
    Corners(TileAddr(WrapAM(c.x - d, tiles), c.y - d), TileAddr(WrapAM(c.x + d, tiles), c.y - d),
            TileAddr(WrapAM(c.x - d, tiles), c.y + d), TileAddr(WrapAM(c.x + d, tiles), c.y + d))
  }

  /** Away from the antimeridian the corner tiles are the ring's own corners. */
  lemma CornersOnRing(c: TileAddr, d: nat, tiles: int)
    requires tiles > 0 && d <= c.x && c.x + d < tiles
    ensures var k := CornerTiles(c, d, tiles);
      k.ul in Ring(c, d, tiles) && k.ur in Ring(c, d, tiles) && k.bl in Ring(c, d, tiles) && k.br in Ring(c, d, tiles)
  {
    WrapAMRange(c.x - d, tiles);
    WrapAMRange(c.x + d, tiles);
    var k := CornerTiles(c, d, tiles);
    RingMembership(k.ul, c, d, tiles);
    RingMembership(k.ur, c, d, tiles);
    RingMembership(k.bl, c, d, tiles);
    RingMembership(k.br, c, d, tiles);
  }

  /**
   * Only x is wrapped, and the y of the corners is never adjusted. A corner
   * column at most one grid west of the grid is wrapped to the Euclidean
   * remainder in [0, tiles); farther west it stays in (-tiles, 0].
   */
  lemma CornersWrapOnlyX(c: TileAddr, d: nat, tiles: int)
    requires tiles > 0
    ensures var k := CornerTiles(c, d, tiles);
      && k.ul.x == k.bl.x && k.ur.x == k.br.x
      && k.ul.y == k.ur.y == c.y - d && k.bl.y == k.br.y == c.y + d
    ensures var k := CornerTiles(c, d, tiles);
      && (-tiles <= c.x - d ==> k.ul.x == (c.x - d) % tiles && 0 <= k.ul.x < tiles)
      && (-tiles <= c.x + d ==> k.ur.x == (c.x + d) % tiles && 0 <= k.ur.x < tiles)
      && (c.x - d < -tiles ==> -tiles < k.ul.x <= 0)
      && (c.x + d < -tiles ==> -tiles < k.ur.x <= 0)
  {
    WrapAMRange(c.x - d, tiles);
    WrapAMRange(c.x + d, tiles);
  }

  /**
   * The rows are not wrapped: west of the antimeridian the top-left row entry
   * keeps a negative x and is never requested, while the corner tile used by
   * the lower bound is wrapped and is not in the ring at all.
   */
  lemma RowsNotWrapped(c: TileAddr, d: nat, tiles: int)
    requires tiles > 0 && 0 <= c.x < d && 2 * d < tiles
    ensures TileAddr(c.x - d, c.y - d) in Ring(c, d, tiles)
    ensures TileAddr(c.x - d, c.y - d) !in Requested(Ring(c, d, tiles))
    ensures CornerTiles(c, d, tiles).ul !in Ring(c, d, tiles)
  {
    WrapAMRange(c.x - d, tiles);
    RingMembership(TileAddr(c.x - d, c.y - d), c, d, tiles);
    RequestedMembership(Ring(c, d, tiles), TileAddr(c.x - d, c.y - d));
    RingMembership(CornerTiles(c, d, tiles).ul, c, d, tiles);
  }

  /** The endpoints of the four edges the lower bound measures to, one inner corner of each corner tile. */
  datatype EdgeEnds = EdgeEnds(ul: ProjPoint, ur: ProjPoint, bl: ProjPoint, br: ProjPoint)

  function BoundEdgeEnds(c: TileAddr, m: Metadata, d: int): EdgeEnds
  {
    var k := CornerTiles(c, d, TileCount(m));
    var size := TileSize(m);
    var ul, ur, bl, br := OriginTile(k.ul, m), OriginTile(k.ur, m), OriginTile(k.bl, m), OriginTile(k.br, m);
    EdgeEnds(ProjPoint(ul.x + size, ul.y - size), ProjPoint(ur.x, ur.y - size), ProjPoint(bl.x + size, bl.y), br)
  }

  function Min(a: real, b: real): real
  {
    if a <= b then a else b
  }

  /**
   * `shortestDistanceInNeighboringTiles`: the least of the distances from the
   * target to the top, left, right and bottom edges. `distanceToEdge(a, b)` is
   * the geodesic distance from the target to the segment between the
   * reprojected points a and b.
   */
  function ShortestDistance(c: TileAddr, m: Metadata, d: int, distanceToEdge: (ProjPoint, ProjPoint) -> real): (r: real)
    ensures var e := BoundEdgeEnds(c, m, d);
      var top, left := distanceToEdge(e.ul, e.ur), distanceToEdge(e.ul, e.bl);
      var right, bottom := distanceToEdge(e.br, e.ur), distanceToEdge(e.br, e.bl);
      && r <= top && r <= left && r <= right && r <= bottom
      && (r == top || r == left || r == right || r == bottom)
  {
    var e := BoundEdgeEnds(c, m, d);
    Min(Min(distanceToEdge(e.ul, e.ur), distanceToEdge(e.ul, e.bl)), Min(distanceToEdge(e.br, e.ur), distanceToEdge(e.br, e.bl)))
  }

  /** One tile east: x grows by one tile size. */
  lemma OriginEast(a: TileAddr, m: Metadata)
    ensures OriginTile(TileAddr(a.x + 1, a.y), m) == ProjPoint(OriginTile(a, m).x + TileSize(m), OriginTile(a, m).y)
  {
    var s := TileSize(m);
    var o := OriginTile(a, m);
    var o' := OriginTile(TileAddr(a.x + 1, a.y), m);
    assert (a.x + 1) as real * s == a.x as real * s + s;
    assert o'.x == o.x + s && o'.y == o.y;
  }

  /** One tile south: y falls by one tile size. */
  lemma OriginSouth(a: TileAddr, m: Metadata)
    ensures OriginTile(TileAddr(a.x, a.y + 1), m) == ProjPoint(OriginTile(a, m).x, OriginTile(a, m).y - TileSize(m))
  {
    var s := TileSize(m);
    var o := OriginTile(a, m);
    var o' := OriginTile(TileAddr(a.x, a.y + 1), m);
    assert (a.y + 1) as real * s == a.y as real * s + s;
    assert o'.x == o.x && o'.y == o.y - s;
  }

  /**
   * Away from the antimeridian the four edges run along the outline of the
   * (2d-1) x (2d-1) block of tiles centred on `c`, the block already searched
   * before ring d: their endpoints are its corners.
   */
  lemma BoundEdgesOutlineSearchedBlock(c: TileAddr, m: Metadata, d: nat)
    requires d >= 1 && d <= c.x && c.x + d < TileCount(m)
    ensures var e := BoundEdgeEnds(c, m, d);
      && e.ul == OriginTile(TileAddr(c.x - d + 1, c.y - d + 1), m)
      && e.ur == OriginTile(TileAddr(c.x + d, c.y - d + 1), m)
      && e.bl == OriginTile(TileAddr(c.x - d + 1, c.y + d), m)
      && e.br == OriginTile(TileAddr(c.x + d, c.y + d), m)
  {
    var tiles := TileCount(m);
    WrapAMRange(c.x - d, tiles);
    WrapAMRange(c.x + d, tiles);
    var ul, ur, bl := TileAddr(c.x - d, c.y - d), TileAddr(c.x + d, c.y - d), TileAddr(c.x - d, c.y + d);
    assert CornerTiles(c, d, tiles) == Corners(ul, ur, bl, TileAddr(c.x + d, c.y + d));
    OriginEast(ul, m);
    OriginSouth(TileAddr(ul.x + 1, ul.y), m);
    OriginSouth(ur, m);
    OriginEast(bl, m);
  }
}

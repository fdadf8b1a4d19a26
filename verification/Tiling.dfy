/** Bounded tiles of an N-dimensional array, and the copy that visits them. */
module Tiling {
  import opened Collections

  type Index = seq<nat>

  /** A half-open interval of one axis. */
  datatype Span = Span(start: nat, stop: nat) {
    predicate Has(x: nat) {
      start <= x < stop
    }
  }

  type Tile = seq<Span>

  predicate InShape(i: Index, shape: seq<nat>) {
    |i| == |shape| && forall k :: 0 <= k < |i| ==> i[k] < shape[k]
  }

  predicate InTile(i: Index, tile: Tile) {
    |i| == |tile| && forall k :: 0 <= k < |i| ==> tile[k].Has(i[k])
  }

  /** How many elements a tile holds. */
  function Volume(tile: Tile): nat {
    if tile == [] then 1 else (if tile[0].start <= tile[0].stop then tile[0].stop - tile[0].start else 0) * Volume(tile[1..])
  }

  function Min(a: int, b: int): int {
    if a < b then a else b
  }

  function Max(a: int, b: int): int {
    if a < b then b else a
  }

  // Chunks small enough for one tile to fit.

  /** What the exporter's chunks become before any halving. */
  function Clamped(shape: seq<nat>, chunks: seq<int>): seq<nat>
    requires |shape| == |chunks|
  {
    seq(|shape|, k requires 0 <= k < |shape| => Max(1, Min(chunks[k], Max(1, shape[k]))))
  }

  /** At least one element per axis; beyond that no more than the array has or was asked for. */
  lemma ClampedAre(shape: seq<nat>, chunks: seq<int>, k: nat)
    requires |shape| == |chunks| && k < |shape|
    ensures Clamped(shape, chunks)[k] == if chunks[k] < 1 || shape[k] < 1 then 1 else if chunks[k] <= shape[k] then chunks[k] else shape[k]
  {
  }

  function TileBytes(itemsize: nat, chunks: seq<nat>): nat {
    itemsize * Product(chunks)
  }

  datatype Chunks = Refused | Bounded(chunks: seq<nat>)

  predicate Positive(s: seq<nat>) {
    forall k :: 0 <= k < |s| ==> s[k] > 0
  }

  lemma {:induction false} ProductPositive(s: seq<nat>)
    requires Positive(s)
    ensures Product(s) >= 1
  {
    if s != [] {
      ProductPositive(s[1..]);
      assert s[0] * Product(s[1..]) >= 1 * 1;
    }
  }

  lemma {:induction false} ProductOfOnes(s: seq<nat>)
    requires forall k :: 0 <= k < |s| ==> s[k] == 1
    ensures Product(s) == 1
  {
    if s != [] {
      ProductOfOnes(s[1..]);
    }
  }

  lemma Swap(a: nat, p: nat, c: nat, q: nat, x: nat)
    requires p * c == q * x
    ensures (a * p) * c == (a * q) * x
  {
    assert (a * p) * c == a * (p * c);
    assert (a * q) * x == a * (q * x);
  }

  /** Changing one factor changes the product by that factor. */
  lemma {:induction false} ProductUpdate(s: seq<nat>, k: nat, x: nat)
    requires k < |s|
    ensures Product(s[k := x]) * s[k] == Product(s) * x
  {
    var t := s[k := x];
    if k == 0 {
      assert t[1..] == s[1..];
      Exchange(x, Product(s[1..]), s[0]);
    } else {
      ProductUpdate(s[1..], k - 1, x);
      assert t[1..] == s[1..][k - 1 := x];
      Swap(s[0], Product(t[1..]), s[k], Product(s[1..]), x);
    }
  }

  lemma Exchange(x: nat, p: nat, c: nat)
    ensures (x * p) * c == (c * p) * x
  {
    assert (x * p) * c == p * (x * c);
    assert (c * p) * x == p * (x * c);
  }

  lemma MulLe(a: nat, b: nat, c: nat)
    requires a <= b
    ensures c * a <= c * b
  {
    assert c * b == c * a + c * (b - a);
    assert c * (b - a) >= 0;
  }

  lemma MulLess(a: nat, b: nat, c: nat)
    requires a < b && c > 0
    ensures c * a < c * b
  {
    MulLe(a + 1, b, c);
  }

  lemma HalfFactor(p: nat, q: nat, c: nat, h: nat)
    requires p * c == q * h && 0 < h < c <= 3 * h && q > 0
    ensures p < q <= 3 * p
  {
    MulLess(h, c, q);
    FactorLess(p, q, c);
    MulLe(c, 3 * h, p);
    assert p * (3 * h) == (3 * p) * h;
    FactorLe(q, 3 * p, h);
  }

  lemma FactorLess(a: nat, b: nat, c: nat)
    requires a * c < b * c
    ensures a < b
  {
    if b <= a {
      MulLe(b, a, c);
    }
  }

  lemma FactorLe(a: nat, b: nat, c: nat)
    requires a * c <= b * c && c > 0
    ensures a <= b
  {
    if b < a {
      MulLess(b, a, c);
    }
  }

  /** Halving one axis of at least two shrinks the product, to no less than a third. */
  lemma HalvingShrinks(s: seq<nat>, k: nat)
    requires Positive(s) && k < |s| && s[k] >= 2
    ensures 1 <= Product(s[k := s[k] / 2]) < Product(s) <= 3 * Product(s[k := s[k] / 2])
  {
    var h := s[k] / 2;
    ProductUpdate(s, k, h);
    ProductPositive(s);
    ProductPositive(s[k := h]);
    HalfFactor(Product(s[k := h]), Product(s), s[k], h);
  }

  /** The first of the largest axes. */
  method Largest(s: seq<nat>) returns (k: nat)
    requires |s| > 0
    ensures k < |s| && (forall i :: 0 <= i < |s| ==> s[i] <= s[k]) && (forall i :: 0 <= i < k ==> s[i] < s[k])
  {
    k := 0;
    for n := 1 to |s|
      invariant k < n
      invariant forall i :: 0 <= i < n ==> s[i] <= s[k]
      invariant forall i :: 0 <= i < k ==> s[i] < s[k]
    {
      if s[n] > s[k] {
        k := n;
      }
    }
  }

  /** An axis was only shrunk while it was a largest one, so none falls below half of another. */
  predicate Balanced(clamped: seq<nat>, s: seq<nat>)
    requires |clamped| == |s|
  {
    forall i, j :: 0 <= i < |s| && 0 <= j < |s| && s[i] < clamped[i] ==> s[j] <= 2 * s[i] + 1
  }

  /** What halving does to the clamped chunks while a tile does not fit. */
  predicate Shrunk(itemsize: nat, limit: nat, clamped: seq<nat>, s: seq<nat>) {
    && |s| == |clamped| && Positive(s)
    && (forall k :: 0 <= k < |s| ==> s[k] <= clamped[k])
    && Balanced(clamped, s)
    && (s == clamped || (TileBytes(itemsize, clamped) > limit && limit < 3 * TileBytes(itemsize, s)))
  }

  /** A tile that does not fit has an axis to halve, if one element fits. */
  lemma LargestHalves(itemsize: nat, limit: nat, s: seq<nat>, k: nat)
    requires Positive(s) && itemsize <= limit && TileBytes(itemsize, s) > limit
    requires k < |s| && forall i :: 0 <= i < |s| ==> s[i] <= s[k]
    ensures s[k] >= 2
  {
    if s[k] == 1 {
      ProductOfOnes(s);
    }
  }

  lemma HalvingKeeps(itemsize: nat, limit: nat, clamped: seq<nat>, s: seq<nat>, k: nat)
    requires Shrunk(itemsize, limit, clamped, s) && TileBytes(itemsize, s) > limit
    requires k < |s| && s[k] >= 2 && forall i :: 0 <= i < |s| ==> s[i] <= s[k]
    ensures Shrunk(itemsize, limit, clamped, s[k := s[k] / 2]) && Product(s[k := s[k] / 2]) < Product(s)
  {
    HalvingShrinks(s, k);
    ThirdOfLimit(itemsize, limit, Product(s), Product(s[k := s[k] / 2]));
  }

  /**
    * Halve the largest axis until a tile fits. The result never exceeds the array or the requested
    * chunks, fits, is left alone when it fits already, and is otherwise more than a third of the limit.
    */
  method BoundedChunks(shape: seq<nat>, chunks: seq<int>, itemsize: nat, limit: nat) returns (r: Chunks)
    ensures r.Refused? <==> |shape| != |chunks| || itemsize > limit
    ensures r.Bounded? ==>
              && TileBytes(itemsize, r.chunks) <= limit
              && Shrunk(itemsize, limit, Clamped(shape, chunks), r.chunks)
              && |r.chunks| == |shape| && forall k :: 0 <= k < |shape| ==> r.chunks[k] == 1 || 1 < r.chunks[k] <= Min(shape[k], chunks[k])
  {
    if |shape| != |chunks| || itemsize > limit {
      return Refused;
    }
    ghost var clamped := Clamped(shape, chunks);
    var result: seq<nat> := Clamped(shape, chunks);
    while TileBytes(itemsize, result) > limit
      invariant Shrunk(itemsize, limit, clamped, result)
      decreases Product(result)
    {
      if result == [] {
        assert false;
      }
      var largest := Largest(result);
      LargestHalves(itemsize, limit, result, largest);
      HalvingKeeps(itemsize, limit, clamped, result, largest);
      result := result[largest := Max(1, result[largest] / 2)];
    }
    r := Bounded(result);
  }

  lemma ThirdOfLimit(itemsize: nat, limit: nat, before: nat, after: nat)
    requires itemsize * before > limit && before <= 3 * after
    ensures limit < 3 * (itemsize * after)
  {
    MulLe(before, 3 * after, itemsize);
  }

  // All tiles, in the order of nested loops over the axes.

  function Spans(start: nat, size: nat, chunk: nat): (spans: seq<Span>)
    requires chunk > 0
    decreases size - start
  {
    if start >= size then [] else [Span(start, Min(start + chunk, size))] + Spans(start + chunk, size, chunk)
  }

  function Prepend(span: Span, tiles: seq<Tile>): seq<Tile> {
    if tiles == [] then [] else [[span] + tiles[0]] + Prepend(span, tiles[1..])
  }

  function Combine(spans: seq<Span>, tiles: seq<Tile>): seq<Tile> {
    if spans == [] then [] else Prepend(spans[0], tiles) + Combine(spans[1..], tiles)
  }

  function Tiles(shape: seq<nat>, chunks: seq<nat>): seq<Tile>
    requires |shape| == |chunks| && Positive(chunks)
  {
    if shape == [] then [[]] else Combine(Spans(0, shape[0], chunks[0]), Tiles(shape[1..], chunks[1..]))
  }

  datatype Visit = Raised | Visits(tiles: seq<Tile>)

  /** A scalar has one tile whatever the chunks; otherwise the ranks must agree and no step be zero. */
  function TileSlices(shape: seq<nat>, chunks: seq<nat>): Visit {
    if shape == [] then Visits([[]])
    else if |shape| != |chunks| || !Positive(chunks) then Raised
    else Visits(Tiles(shape, chunks))
  }

  /** How many of the tiles hold an index. */
  function Cover(tiles: seq<Tile>, i: Index): nat {
    if tiles == [] then 0 else (if InTile(i, tiles[0]) then 1 else 0) + Cover(tiles[1..], i)
  }

  function SpanCover(spans: seq<Span>, x: nat): nat {
    if spans == [] then 0 else (if spans[0].Has(x) then 1 else 0) + SpanCover(spans[1..], x)
  }

  lemma {:induction false} SpansCover(start: nat, size: nat, chunk: nat, x: nat)
    requires chunk > 0
    ensures SpanCover(Spans(start, size, chunk), x) == if start <= x < size then 1 else 0
    decreases size - start
  {
    if start < size {
      SpansCover(start + chunk, size, chunk, x);
    }
  }

  lemma {:induction false} CoverAppend(s: seq<Tile>, t: seq<Tile>, i: Index)
    ensures Cover(s + t, i) == Cover(s, i) + Cover(t, i)
  {
    if s == [] {
      assert s + t == t;
    } else {
      CoverAppend(s[1..], t, i);
      assert (s + t)[1..] == s[1..] + t;
    }
  }

  lemma InTileHead(i: Index, span: Span, tile: Tile)
    requires i != []
    ensures InTile(i, [span] + tile) <==> span.Has(i[0]) && InTile(i[1..], tile)
  {
    var whole := [span] + tile;
    if span.Has(i[0]) && InTile(i[1..], tile) {
      forall k | 0 <= k < |i| ensures whole[k].Has(i[k]) {
        if k > 0 {
          assert tile[k - 1].Has(i[1..][k - 1]);
        }
      }
    }
    if InTile(i, whole) {
      assert whole[0].Has(i[0]);
      forall k | 0 <= k < |tile| ensures tile[k].Has(i[1..][k]) {
        assert whole[k + 1].Has(i[k + 1]);
      }
    }
  }

  lemma {:induction false} CoverPrepend(span: Span, tiles: seq<Tile>, i: Index)
    requires i != []
    ensures Cover(Prepend(span, tiles), i) == if span.Has(i[0]) then Cover(tiles, i[1..]) else 0
  {
    if tiles != [] {
      CoverPrepend(span, tiles[1..], i);
      InTileHead(i, span, tiles[0]);
    }
  }

  lemma Distribute(a: nat, b: nat, c: nat)
    ensures (a + b) * c == a * c + b * c
  {
  }

  lemma {:induction false} CoverCombine(spans: seq<Span>, tiles: seq<Tile>, i: Index)
    requires i != []
    ensures Cover(Combine(spans, tiles), i) == SpanCover(spans, i[0]) * Cover(tiles, i[1..])
  {
    if spans != [] {
      CoverAppend(Prepend(spans[0], tiles), Combine(spans[1..], tiles), i);
      CoverPrepend(spans[0], tiles, i);
      CoverCombine(spans[1..], tiles, i);
      Distribute(if spans[0].Has(i[0]) then 1 else 0, SpanCover(spans[1..], i[0]), Cover(tiles, i[1..]));
    }
  }

  lemma {:induction false} TilesRank(shape: seq<nat>, chunks: seq<nat>, i: Index)
    requires |shape| == |chunks| && Positive(chunks) && |i| != |shape|
    ensures Cover(Tiles(shape, chunks), i) == 0
  {
    if shape != [] && i != [] {
      TilesRank(shape[1..], chunks[1..], i[1..]);
      CoverCombine(Spans(0, shape[0], chunks[0]), Tiles(shape[1..], chunks[1..]), i);
    } else if shape != [] {
      NoTileOfScalar(Spans(0, shape[0], chunks[0]), Tiles(shape[1..], chunks[1..]));
    }
  }

  lemma {:induction false} NoTileOfScalar(spans: seq<Span>, tiles: seq<Tile>)
    ensures Cover(Combine(spans, tiles), []) == 0
  {
    if spans != [] {
      NoTileOfScalar(spans[1..], tiles);
      PrependedNotScalar(spans[0], tiles);
      CoverAppend(Prepend(spans[0], tiles), Combine(spans[1..], tiles), []);
    }
  }

  lemma {:induction false} PrependedNotScalar(span: Span, tiles: seq<Tile>)
    ensures Cover(Prepend(span, tiles), []) == 0
  {
    if tiles != [] {
      PrependedNotScalar(span, tiles[1..]);
    }
  }

  /** Every index of the array lies in exactly one tile, and no other index in any. */
  lemma {:induction false} ExactCover(shape: seq<nat>, chunks: seq<nat>, i: Index)
    requires |shape| == |chunks| && Positive(chunks)
    ensures Cover(Tiles(shape, chunks), i) == if InShape(i, shape) then 1 else 0
  {
    if |i| != |shape| {
      TilesRank(shape, chunks, i);
    } else if shape != [] {
      ExactCover(shape[1..], chunks[1..], i[1..]);
      CoverCombine(Spans(0, shape[0], chunks[0]), Tiles(shape[1..], chunks[1..]), i);
      SpansCover(0, shape[0], chunks[0], i[0]);
      InShapeHead(i, shape);
    }
  }

  lemma InShapeHead(i: Index, shape: seq<nat>)
    requires |i| == |shape| > 0
    ensures InShape(i, shape) <==> i[0] < shape[0] && InShape(i[1..], shape[1..])
  {
    if i[0] < shape[0] && InShape(i[1..], shape[1..]) {
      forall k | 0 <= k < |i| ensures i[k] < shape[k] {
        if k > 0 {
          assert i[1..][k - 1] < shape[1..][k - 1];
        }
      }
    }
  }

  // Sizes of tiles.

  lemma {:induction false} SpansWithin(start: nat, size: nat, chunk: nat)
    requires chunk > 0
    ensures forall s :: s in Spans(start, size, chunk) ==> s.start < s.stop <= s.start + chunk && s.stop <= size
    decreases size - start
  {
    if start < size {
      SpansWithin(start + chunk, size, chunk);
    }
  }

  lemma {:induction false} PrependMembers(span: Span, tiles: seq<Tile>, t: Tile)
    requires t in Prepend(span, tiles)
    ensures t != [] && t[0] == span && t[1..] in tiles
  {
    if t != [span] + tiles[0] {
      PrependMembers(span, tiles[1..], t);
    }
  }

  lemma {:induction false} CombineMembers(spans: seq<Span>, tiles: seq<Tile>, t: Tile)
    requires t in Combine(spans, tiles)
    ensures t != [] && t[0] in spans && t[1..] in tiles
  {
    if t in Prepend(spans[0], tiles) {
      PrependMembers(spans[0], tiles, t);
    } else {
      CombineMembers(spans[1..], tiles, t);
    }
  }

  /** No tile is empty, and none holds more elements than the chunks allow. */
  lemma {:induction false} TileVolume(shape: seq<nat>, chunks: seq<nat>, t: Tile)
    requires |shape| == |chunks| && Positive(chunks) && t in Tiles(shape, chunks)
    ensures 1 <= Volume(t) <= Product(chunks)
  {
    if shape != [] {
      CombineMembers(Spans(0, shape[0], chunks[0]), Tiles(shape[1..], chunks[1..]), t);
      SpansWithin(0, shape[0], chunks[0]);
      TileVolume(shape[1..], chunks[1..], t[1..]);
      MulBetween(t[0].stop - t[0].start, Volume(t[1..]), chunks[0], Product(chunks[1..]));
    }
  }

  lemma MulBetween(a: nat, b: nat, c: nat, d: nat)
    requires 1 <= a <= c && 1 <= b <= d
    ensures 1 <= a * b <= c * d
  {
    assert c * d == a * b + a * (d - b) + (c - a) * d;
    assert a * (d - b) >= 0 && (c - a) * d >= 0;
  }

  /** With chunks that fit, every tile fits. */
  lemma TilesFit(shape: seq<nat>, chunks: seq<nat>, itemsize: nat, limit: nat, t: Tile)
    requires |shape| == |chunks| && Positive(chunks) && t in Tiles(shape, chunks)
    requires itemsize * Product(chunks) <= limit
    ensures itemsize * Volume(t) <= limit
  {
    TileVolume(shape, chunks, t);
    MulLe(Volume(t), Product(chunks), itemsize);
  }

  /** Every tile starts on a multiple of the chunk on each axis, and goes on for a chunk or to the end of the array. */
  lemma {:induction false} TileSpans(shape: seq<nat>, chunks: seq<nat>, t: Tile)
    requires |shape| == |chunks| && Positive(chunks) && t in Tiles(shape, chunks)
    ensures |t| == |shape|
    ensures forall k :: 0 <= k < |t| ==> t[k].start % chunks[k] == 0 && t[k].start < shape[k] && t[k].stop == Min(t[k].start + chunks[k], shape[k])
  {
    if shape != [] {
      CombineMembers(Spans(0, shape[0], chunks[0]), Tiles(shape[1..], chunks[1..]), t);
      SpansAligned(0, shape[0], chunks[0], t[0]);
      TileSpans(shape[1..], chunks[1..], t[1..]);
      forall k | 0 < k < |t|
        ensures t[k].start % chunks[k] == 0 && t[k].start < shape[k] && t[k].stop == Min(t[k].start + chunks[k], shape[k])
      {
        assert t[k] == t[1..][k - 1] && chunks[k] == chunks[1..][k - 1] && shape[k] == shape[1..][k - 1];
      }
    }
  }

  lemma {:induction false} SpansAligned(start: nat, size: nat, chunk: nat, s: Span)
    requires chunk > 0 && start % chunk == 0 && s in Spans(start, size, chunk)
    ensures s.start % chunk == 0 && s.start < size && s.stop == Min(s.start + chunk, size)
    decreases size - start
  {
    if s != Span(start, Min(start + chunk, size)) {
      NextMultiple(start, chunk);
      SpansAligned(start + chunk, size, chunk, s);
    }
  }

  lemma NextMultiple(n: nat, chunk: nat)
    requires chunk > 0 && n % chunk == 0
    ensures (n + chunk) % chunk == 0
  {
    var p, q := n / chunk + 1, (n + chunk) / chunk;
    assert n + chunk == chunk * p == chunk * q + (n + chunk) % chunk;
    if p > q {
      MulLe(q + 1, p, chunk);
    } else {
      MulLe(p, q, chunk);
    }
  }

  /** An axis without elements leaves no tile. */
  lemma EmptyAxis(shape: seq<nat>, chunks: seq<nat>, k: nat)
    requires |shape| == |chunks| && Positive(chunks) && k < |shape| && shape[k] == 0
    ensures Tiles(shape, chunks) == []
  {
    var tiles := Tiles(shape, chunks);
    if tiles != [] {
      assert tiles[0] in tiles;
      TileSpans(shape, chunks, tiles[0]);
    }
  }

  // The copy.

  /** The elements of an array: one for each index of its shape. */
  ghost predicate Filled<T>(cells: map<Index, T>, shape: seq<nat>) {
    forall i :: i in cells <==> InShape(i, shape)
  }

  function Region<T>(cells: map<Index, T>, tile: Tile): map<Index, T> {
    map i | i in cells && InTile(i, tile) :: cells[i]
  }

  lemma {:induction false} CoverPrefix(tiles: seq<Tile>, i: Index)
    ensures Cover(tiles, i) > 0 <==> exists k :: 0 <= k < |tiles| && InTile(i, tiles[k])
  {
    if tiles != [] {
      CoverPrefix(tiles[1..], i);
      if InTile(i, tiles[0]) {
        assert Cover(tiles, i) > 0;
      } else if k :| 0 <= k < |tiles| && InTile(i, tiles[k]) {
        assert InTile(i, tiles[1..][k - 1]);
      }
      if Cover(tiles[1..], i) > 0 {
        var k :| 0 <= k < |tiles[1..]| && InTile(i, tiles[1..][k]);
        assert InTile(i, tiles[k + 1]);
      }
    }
  }

  /** An array being written region by region. */
  class CreatedArray<T> {
    var cells: map<Index, T>

    constructor (cells: map<Index, T>)
      ensures this.cells == cells
    {
      this.cells := cells;
    }

    /** Copy a whole array tile by tile. */
    method CopyFrom(source: map<Index, T>, shape: seq<nat>, chunks: seq<nat>) returns (raised: bool)
      requires Filled(source, shape) && Filled(cells, shape)
      modifies this
      ensures raised <==> shape != [] && (|shape| != |chunks| || 0 in chunks)
      ensures cells == if raised then old(cells) else source
    {
      var visit := TileSlices(shape, chunks);
      raised := visit.Raised?;
      if raised {
        return;
      }
      var tiles := visit.tiles;
      for k := 0 to |tiles|
        invariant Filled(cells, shape)
        invariant forall i, j :: 0 <= j < k && i in cells && InTile(i, tiles[j]) ==> cells[i] == source[i]
      {
        var values := Region(source, tiles[k]);
        cells := cells + values;
      }
      forall i | i in source ensures cells[i] == source[i] {
        Covered(shape, chunks, i);
      }
    }
  }

  lemma Covered(shape: seq<nat>, chunks: seq<nat>, i: Index)
    requires TileSlices(shape, chunks).Visits? && InShape(i, shape)
    ensures exists k :: 0 <= k < |TileSlices(shape, chunks).tiles| && InTile(i, TileSlices(shape, chunks).tiles[k])
  {
    var tiles := TileSlices(shape, chunks).tiles;
    if shape == [] {
      assert InTile(i, tiles[0]);
    } else {
      ExactCover(shape, chunks, i);
      CoverPrefix(tiles, i);
    }
  }
}

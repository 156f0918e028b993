/** Jigsaw tile assembly: tile symmetries, border matching, a work-queue placement of the
    tiles on integer coordinates, stitching of the trimmed tiles into one image and the
    sea-monster scan that yields the roughness score. */
module Day20 {
  import opened Wrappers
  import opened Arith

  /** A tile: a `width` x `height` grid of '#' and '.' stored row after row in `data`. */
  datatype Tile = Tile(id: nat, data: string, width: nat, height: nat)

  /** A square grid whose `data` holds exactly its cells (every parsed tile is 10 x 10). */
  predicate Square(t: Tile) {
    t.width >= 1 && t.height == t.width && |t.data| == t.width * t.width
  }

  function Cell(t: Tile, r: nat, c: nat): char
    requires Square(t) && r < t.width && c < t.width
  {
    CellInGrid(r, c, t.width, t.width);
    t.data[r * t.width + c]
  }

  /** Two square tiles of the same size with the same cells have the same data. */
  lemma SameCells(a: Tile, b: Tile)
    requires Square(a) && Square(b) && a.width == b.width
    requires forall r, c :: 0 <= r < a.width && 0 <= c < a.width ==> Cell(a, r, c) == Cell(b, r, c)
    ensures a.data == b.data
  {
    var w := a.width;
    forall p | 0 <= p < |a.data|
      ensures a.data[p] == b.data[p]
    {
      RowCol(p, w);
      DivBound(p, w, w);
      assert Cell(a, p / w, p % w) == Cell(b, p / w, p % w);
    }
  }

  lemma DivBound(q: nat, w: nat, h: nat)
    requires w > 0 && q < w * h
    ensures q / w < h
  {
    RowCol(q, w);
    MulMonoImp(h, q / w, w);
  }

  lemma MulMonoImp(a: int, b: int, w: int)
    requires w >= 0
    ensures a <= b ==> a * w <= b * w
  {
    assert b * w - a * w == (b - a) * w;
  }

  // ---------------------------------------------------------------------------------------
  // Index filters: `data.chars().enumerate().filter(..)` keeps the chars whose index passes.

  /** The chars `s[i]` with `lo <= i < hi` and `keep(i)`, in order. */
  function Filter(s: string, keep: nat -> bool, lo: nat, hi: nat): string
    requires lo <= hi <= |s|
    decreases hi - lo
  {
    if lo == hi then "" else Filter(s, keep, lo, hi - 1) + (if keep(hi - 1) then [s[hi - 1]] else [])
  }

  /** One more index at the top either adds its char or not. */
  lemma FilterLast(s: string, keep: nat -> bool, lo: nat, hi: nat)
    requires lo < hi <= |s|
    ensures Filter(s, keep, lo, hi) == Filter(s, keep, lo, hi - 1) + (if keep(hi - 1) then [s[hi - 1]] else [])
  {
  }

  lemma {:induction false} FilterSplit(s: string, keep: nat -> bool, lo: nat, mid: nat, hi: nat)
    requires lo <= mid <= hi <= |s|
    ensures Filter(s, keep, lo, hi) == Filter(s, keep, lo, mid) + Filter(s, keep, mid, hi)
    decreases hi - mid
  {
    if mid < hi {
      FilterSplit(s, keep, lo, mid, hi - 1);
    }
  }

  /** Within one row, a filter that keeps exactly column `c` keeps one char. */
  lemma {:induction false} FilterRowColumn(s: string, keep: nat -> bool, w: nat, r: nat, c: nat, k: nat)
    requires 0 <= c < w && k <= w && (r + 1) * w <= |s|
    requires forall i: nat :: r * w <= i < r * w + w ==> (keep(i) <==> i % w == c)
    ensures Filter(s, keep, r * w, r * w + k) == if k > c then [s[r * w + c]] else []
  {
    if k > 0 {
      FilterRowColumn(s, keep, w, r, c, k - 1);
      DivModUnique(r, k - 1, w);
    }
  }

  /** A filter that keeps exactly column `c` of a grid reads that column top to bottom. */
  lemma {:induction false} FilterColumn(s: string, keep: nat -> bool, w: nat, c: nat, rows: nat)
    requires 0 <= c < w && rows * w <= |s|
    requires forall i: nat :: i < rows * w ==> (keep(i) <==> i % w == c)
    ensures |Filter(s, keep, 0, rows * w)| == rows
    ensures forall r :: 0 <= r < rows ==> r * w + c < |s| && Filter(s, keep, 0, rows * w)[r] == s[r * w + c]
  {
    if rows > 0 {
      var r := rows - 1;
      assert r * w + w == rows * w;
      FilterColumn(s, keep, w, c, r);
      FilterSplit(s, keep, 0, r * w, rows * w);
      FilterRowColumn(s, keep, w, r, c, w);
    }
  }

  // ---------------------------------------------------------------------------------------
  // Borders.

  function Top(t: Tile): (e: string)
    requires Square(t)
    ensures |e| == t.width
  {
    t.data[0..t.width]
  }

  function Bottom(t: Tile): (e: string)
    requires Square(t)
    ensures |e| == t.width
  {
    var start := (t.height - 1) * t.width;
    MulMonoImp(0, t.height - 1, t.width);
    Distrib(t.height - 1, 1, t.width);
    t.data[start..]
  }

  function Left(t: Tile): (e: string)
    requires Square(t)
    ensures |e| == t.width
  {
    var w := t.width;
    FilterColumn(t.data, i => i % w == 0, w, 0, w);
    Filter(t.data, i => i % w == 0, 0, |t.data|)
  }

  /** `(i + 1) % w == 0` picks the last column. */
  lemma LastColumn(i: nat, w: nat)
    requires w > 0
    ensures (i + 1) % w == 0 <==> i % w == w - 1
  {
    RowCol(i, w);
    if i % w == w - 1 {
      DivModUnique(i / w + 1, 0, w);
    } else {
      DivModUnique(i / w, i % w + 1, w);
    }
  }

  function Right(t: Tile): (e: string)
    requires Square(t)
    ensures |e| == t.width
  {
    var w := t.width;
    forall i: nat | true ensures (i + 1) % w == 0 <==> i % w == w - 1 { LastColumn(i, w); }
    FilterColumn(t.data, i => (i + 1) % w == 0, w, w - 1, w);
    Filter(t.data, i => (i + 1) % w == 0, 0, |t.data|)
  }

  /** The borders read the first row and the last row left to right, and the first column
      and the last column top to bottom. */
  lemma TopCells(t: Tile)
    requires Square(t)
    ensures forall c :: 0 <= c < t.width ==> Top(t)[c] == Cell(t, 0, c)
  {
  }

  lemma BottomCells(t: Tile)
    requires Square(t)
    ensures forall c :: 0 <= c < t.width ==> Bottom(t)[c] == Cell(t, t.width - 1, c)
  {
    var start := (t.width - 1) * t.width;
    forall c | 0 <= c < t.width ensures Bottom(t)[c] == Cell(t, t.width - 1, c) {
      assert Bottom(t)[c] == t.data[start + c];
    }
  }

  lemma LeftCells(t: Tile)
    requires Square(t)
    ensures forall r :: 0 <= r < t.width ==> Left(t)[r] == Cell(t, r, 0)
  {
    var w := t.width;
    FilterColumn(t.data, i => i % w == 0, w, 0, w);
  }

  lemma RightCells(t: Tile)
    requires Square(t)
    ensures forall r :: 0 <= r < t.width ==> Right(t)[r] == Cell(t, r, t.width - 1)
  {
    var w := t.width;
    forall i: nat | true ensures (i + 1) % w == 0 <==> i % w == w - 1 { LastColumn(i, w); }
    FilterColumn(t.data, i => (i + 1) % w == 0, w, w - 1, w);
  }

  // ---------------------------------------------------------------------------------------
  // flip: each char gets the key `w - 1 - col + row * h` and the chars are sorted by key, ascending.

  function FlipKey(idx: nat, w: nat, h: nat): int
    requires w > 0
  {
    w - 1 - idx % w + (idx / w) * h
  }

  /** The input index whose char `flip` puts at output position `p`. */
  function FlipSrc(p: nat, w: nat): (i: nat)
    requires w > 0 && p < w * w
    ensures i < w * w
  {
    RowCol(p, w);
    DivBound(p, w, w);
    CellInGrid(p / w, w - 1 - p % w, w, w);
    (p / w) * w + (w - 1 - p % w)
  }

  /** Along the output of `flip` the keys are 0, 1, 2, ...: ascending, so this is the sorted order. */
  lemma FlipKeyAt(p: nat, w: nat)
    requires w > 0 && p < w * w
    ensures FlipKey(FlipSrc(p, w), w, w) == p
  {
    RowCol(p, w);
    DivModUnique(p / w, w - 1 - p % w, w);
  }

  /** `flip` moves every char: the source map is its own inverse, hence a permutation. */
  lemma FlipSrcInvolution(p: nat, w: nat)
    requires w > 0 && p < w * w
    ensures FlipSrc(FlipSrc(p, w), w) == p
  {
    RowCol(p, w);
    DivModUnique(p / w, w - 1 - p % w, w);
  }

  /** The chars of `data` read at the positions `src`, in order. Sorting chars by pairwise
      distinct keys puts each char at its rank, so the sorted string is `data` gathered
      through the map from ranks back to positions. */
  function Gather(data: string, src: seq<nat>): (s: string)
    requires forall p :: 0 <= p < |src| ==> src[p] < |data|
    ensures |s| == |src|
  {
    if |src| == 0 then [] else [data[src[0]]] + Gather(data, src[1..])
  }

  lemma {:induction false} GatherAt(data: string, src: seq<nat>, p: nat)
    requires forall p :: 0 <= p < |src| ==> src[p] < |data|
    requires p < |src|
    ensures Gather(data, src)[p] == data[src[p]]
  {
    if p > 0 {
      GatherAt(data, src[1..], p - 1);
    }
  }

  /** The sorted order of `flip`: output position `p` reads input `FlipSrc(p, w)`. */
  function FlipMap(w: nat): (m: seq<nat>)
    requires w > 0
    ensures |m| == w * w && forall p :: 0 <= p < w * w ==> m[p] == FlipSrc(p, w) && m[p] < w * w
  {
    seq(w * w, p requires 0 <= p < w * w => FlipSrc(p, w))
  }

  /** `flip`, as the sort of the chars by `FlipKey`. */
  function Flip(t: Tile): (f: Tile)
    requires Square(t)
    ensures Square(f) && f.id == t.id && f.width == t.width && f.height == t.height
  {
    t.(data := Gather(t.data, FlipMap(t.width)))
  }

  /** `flip` mirrors every row: new cell (r, c) is old cell (r, w-1-c). */
  lemma FlipCell(t: Tile, r: nat, c: nat)
    requires Square(t) && r < t.width && c < t.width
    ensures Cell(Flip(t), r, c) == Cell(t, r, t.width - 1 - c)
  {
    CellInGrid(r, c, t.width, t.width);
    GatherAt(t.data, FlipMap(t.width), r * t.width + c);
    DivModUnique(r, c, t.width);
    CellInGrid(r, t.width - 1 - c, t.width, t.width);
  }

  lemma FlipTwice(t: Tile)
    requires Square(t)
    ensures Flip(Flip(t)) == t
  {
    var w := t.width;
    forall r, c | 0 <= r < w && 0 <= c < w
      ensures Cell(Flip(Flip(t)), r, c) == Cell(t, r, c)
    {
      FlipCell(Flip(t), r, c);
      FlipCell(t, r, w - 1 - c);
    }
    SameCells(Flip(Flip(t)), t);
  }

  // ---------------------------------------------------------------------------------------
  // rotate: each char gets the key `col * w - (row - 9)` computed in `usize` (so modulo 2^64)
  // and the chars are sorted by key, descending. The constant 9 is `w - 1` only when w == 10.

  function RotateKey(idx: nat, w: nat): nat
    requires w > 0
  {
    Wrap(Wrap((idx % w) * w) - Wrap(idx / w - 9))
  }

  /** Widths whose grid indices fit in a `usize` with room to spare. */
  predicate FitsUsize(w: nat) {
    0 < w < 0x1_0000_0000
  }

  /** The cells of column 0 in rows 10 and below get a negative key that wraps around, so
      they are sorted first: the output is shifted by this many positions. */
  function RotateShift(w: nat): nat {
    if w > 10 then w - 10 else 0
  }

  /** The input index whose char `rotate` puts at output position `p`: the left rotation's
      source for position `p - shift`, cyclically. */
  function RotateSrc(p: nat, w: nat): (i: nat)
    requires w > 0 && p < w * w
    ensures i < w * w
  {
    var n, s := w * w, RotateShift(w);
    assert s < w && w <= n by { MulMonoImp(1, w, w); }
    var q: nat := if p < s then n - s + p else p - s;
    RowCol(q, w);
    DivBound(q, w, w);
    CellInGrid(q % w, w - 1 - q / w, w, w);
    (q % w) * w + (w - 1 - q / w)
  }

  /** A width below 2^32 keeps every grid index and key below 2^64. */
  lemma SquareFits(w: nat)
    requires FitsUsize(w)
    ensures w * w <= USIZE - 0x2_0000_0000 + 1
  {
    var m := 0xFFFF_FFFF;
    MulMonoImp(w, m, w);
    MulMonoImp(w, m, m);
    assert m * m == USIZE - 0x2_0000_0000 + 1;
  }

  /** The wrapped key equals `col * w + 9 - row` reduced modulo 2^64. */
  lemma RotateKeyValue(idx: nat, w: nat)
    requires FitsUsize(w) && idx < w * w
    ensures RotateKey(idx, w) == Wrap((idx % w) * w + 9 - idx / w)
  {
    DivBound(idx, w, w);
    KeyParts(idx % w, idx / w, w);
  }

  lemma KeyParts(c: nat, r: nat, w: nat)
    requires FitsUsize(w) && c < w && r < w
    ensures Wrap(Wrap(c * w) - Wrap(r - 9)) == Wrap(c * w + 9 - r)
  {
    SquareFits(w);
    MulMonoImp(c, w, w);
    MulMonoImp(0, c, w);
    WrapKey(c * w, r);
  }

  /** `a - (r - 9)` computed with wrap-around is `a + 9 - r` reduced modulo 2^64. */
  lemma WrapKey(a: int, r: int)
    requires 0 <= a <= USIZE - 0x2_0000_0000 + 1 && 0 <= r < 0x1_0000_0000
    ensures Wrap(Wrap(a) - Wrap(r - 9)) == Wrap(a + 9 - r)
  {
    if r < 9 {
      assert Wrap(r - 9) == r - 9 + USIZE;
      assert Wrap(a - (r - 9 + USIZE)) == a + 9 - r;
    }
  }

  /** In the left rotation, output position `q = i*w + j` reads input cell (j, w-1-i),
      whose key is `n + 9 - w - q`. */
  lemma RotateKeyOfRotSource(q: nat, w: nat)
    requires FitsUsize(w) && q < w * w
    ensures q == (q / w) * w + q % w && q / w < w
    ensures RotateKey((q % w) * w + (w - 1 - q / w), w) == Wrap(w * w + 9 - w - q)
  {
    RowCol(q, w);
    DivBound(q, w, w);
    var i, j := q / w, q % w;
    CellInGrid(j, w - 1 - i, w, w);
    var src := j * w + (w - 1 - i);
    DivModUnique(j, w - 1 - i, w);
    assert src % w == w - 1 - i && src / w == j;
    RotateKeyValue(src, w);
    assert RotateKey(src, w) == Wrap((w - 1 - i) * w + 9 - j);
    Distrib(w, 1 + i, w);
    Distrib(1, i, w);
  }

  lemma Distrib(a: int, b: int, w: int)
    ensures (a + b) * w == a * w + b * w
    ensures (a - b) * w == a * w - b * w
  {
  }

  lemma RotateKeyAt(p: nat, w: nat)
    requires FitsUsize(w) && p < w * w
    ensures RotateKey(RotateSrc(p, w), w)
         == if p < RotateShift(w) then USIZE - 1 - p else w * w + 9 - w + RotateShift(w) - p
  {
    var n, s := w * w, RotateShift(w);
    assert s < w && w <= n by { MulMonoImp(1, w, w); }
    SquareFits(w);
    var q: nat := if p < s then n - s + p else p - s;
    assert RotateSrc(p, w) == (q % w) * w + (w - 1 - q / w);
    RotateKeyOfRotSource(q, w);
    if p < s {
      assert w * w + 9 - w - q == -1 - p;
    } else {
      assert 0 <= w * w + 9 - w - q < USIZE;
    }
  }

  /** Along the output of `rotate` the wrapped keys strictly decrease, so the output is the
      descending sort of the chars by key (the keys are pairwise distinct). */
  lemma RotateKeysDescend(p1: nat, p2: nat, w: nat)
    requires FitsUsize(w) && p1 < p2 < w * w
    ensures RotateKey(RotateSrc(p1, w), w) > RotateKey(RotateSrc(p2, w), w)
  {
    RotateKeyAt(p1, w);
    RotateKeyAt(p2, w);
    SquareFits(w);
  }

  /** The output position that `rotate` gives to input index `i`. */
  function RotateDst(i: nat, w: nat): (p: nat)
    requires w > 0 && i < w * w
    ensures p < w * w
  {
    var n, s := w * w, RotateShift(w);
    assert s < w && w <= n by { MulMonoImp(1, w, w); }
    RowCol(i, w);
    DivBound(i, w, w);
    CellInGrid(w - 1 - i % w, i / w, w, w);
    var q := (w - 1 - i % w) * w + i / w;
    if q >= n - s then q - (n - s) else q + s
  }

  /** `rotate` moves every char exactly once: the destination map undoes the source map ... */
  lemma RotateDstSrc(p: nat, w: nat)
    requires w > 0 && p < w * w
    ensures RotateDst(RotateSrc(p, w), w) == p
  {
    var n, s := w * w, RotateShift(w);
    assert s < w && w <= n by { MulMonoImp(1, w, w); }
    var q: nat := if p < s then n - s + p else p - s;
    RowCol(q, w);
    DivBound(q, w, w);
    var i, j := q / w, q % w;
    DivModUnique(j, w - 1 - i, w);
    assert RotateSrc(p, w) == j * w + (w - 1 - i);
    assert (w - 1 - (w - 1 - i)) * w + j == q;
  }

  /** ... and the source map undoes the destination map. */
  lemma RotateSrcDst(i: nat, w: nat)
    requires w > 0 && i < w * w
    ensures RotateSrc(RotateDst(i, w), w) == i
  {
    var n, s := w * w, RotateShift(w);
    assert s < w && w <= n by { MulMonoImp(1, w, w); }
    RowCol(i, w);
    DivBound(i, w, w);
    var r, c := i / w, i % w;
    var q := (w - 1 - c) * w + r;
    DivModUnique(w - 1 - c, r, w);
    CellInGrid(w - 1 - c, r, w, w);
    var p := RotateDst(i, w);
    assert p == if q >= n - s then q - (n - s) else q + s;
    var q2: nat := if p < s then n - s + p else p - s;
    assert q2 == q;
  }

  /** The sorted order of `rotate`: output position `p` reads input `RotateSrc(p, w)`. */
  function RotateMap(w: nat): (m: seq<nat>)
    requires w > 0
    ensures |m| == w * w && forall p :: 0 <= p < w * w ==> m[p] == RotateSrc(p, w) && m[p] < w * w
  {
    seq(w * w, p requires 0 <= p < w * w => RotateSrc(p, w))
  }

  /** `rotate` as the source computes it, for every width. */
  function Rotate(t: Tile): (r: Tile)
    requires Square(t)
    ensures Square(r) && r.id == t.id && r.width == t.width && r.height == t.height
  {
    t.(data := Gather(t.data, RotateMap(t.width)))
  }

  /** For widths up to 10 (every parsed tile is 10 wide) `rotate` is the left rotation:
      new cell (i, j) is old cell (j, w-1-i). */
  lemma RotateNarrow(t: Tile, i: nat, j: nat)
    requires Square(t) && t.width <= 10 && i < t.width && j < t.width
    ensures Cell(Rotate(t), i, j) == Cell(t, j, t.width - 1 - i)
  {
    var w := t.width;
    CellInGrid(i, j, w, w);
    GatherAt(t.data, RotateMap(w), i * w + j);
    DivModUnique(i, j, w);
    CellInGrid(j, w - 1 - i, w, w);
  }

  lemma RotateFour(t: Tile)
    requires Square(t) && t.width <= 10
    ensures Rotate(Rotate(Rotate(Rotate(t)))) == t
  {
    var w := t.width;
    var r1 := Rotate(t);
    var r2 := Rotate(r1);
    var r3 := Rotate(r2);
    var r4 := Rotate(r3);
    forall i, j | 0 <= i < w && 0 <= j < w
      ensures Cell(r4, i, j) == Cell(t, i, j)
    {
      RotateNarrow(r3, i, j);
      RotateNarrow(r2, j, w - 1 - i);
      RotateNarrow(r1, w - 1 - i, w - 1 - j);
      RotateNarrow(t, w - 1 - j, i);
    }
    SameCells(r4, t);
  }

  /** On an 11-wide grid `rotate` is not the left rotation: output cell (0, 0) is read from
      input cell (10, 0) instead of (0, 10). */
  lemma RotateWideIsNotRotation(t: Tile)
    requires Square(t) && t.width == 11 && t.data[10] != t.data[110]
    ensures Cell(Rotate(t), 0, 0) != Cell(t, 0, t.width - 1)
  {
    GatherAt(t.data, RotateMap(11), 0);
    assert RotateSrc(0, 11) == 110;
  }

  /** The first row after a left rotation is the old right border. */
  lemma RotateTopIsRight(t: Tile)
    requires Square(t) && t.width <= 10
    ensures Top(Rotate(t)) == Right(t)
  {
    TopCells(Rotate(t));
    RightCells(t);
    forall c | 0 <= c < t.width ensures Top(Rotate(t))[c] == Right(t)[c] {
      RotateNarrow(t, 0, c);
    }
  }

  /** part2's per-tile `flip, rotate, rotate` mirrors a tile top to bottom. */
  lemma FlipRotateRotate(t: Tile, r: nat, c: nat)
    requires Square(t) && t.width <= 10 && r < t.width && c < t.width
    ensures Cell(Rotate(Rotate(Flip(t))), r, c) == Cell(t, t.width - 1 - r, c)
  {
    var w := t.width;
    RotateNarrow(Rotate(Flip(t)), r, c);
    RotateNarrow(Flip(t), c, w - 1 - r);
    FlipCell(t, w - 1 - r, w - 1 - c);
  }

  // ---------------------------------------------------------------------------------------
  // trim_tile: keeps the chars that are not on the outer border.

  predicate TrimKeeps(i: nat, w: nat, h: nat)
    requires w > 0
  {
    var x, y := i % w, i / w;
    !(x == 0 || x == w - 1 || y == h - 1 || y == 0)
  }

  /** Inside row `r`, the trimming filter keeps the columns 1 .. w-2 of the inner rows only. */
  lemma TrimRowFilter(s: string, keep: nat -> bool, w: nat, h: nat, r: nat, k: nat)
    requires w >= 2 && r < h && k <= w && (r + 1) * w <= |s|
    requires forall i: nat :: keep(i) == TrimKeeps(i, w, h)
    ensures r * w + k <= |s|
    ensures Filter(s, keep, r * w, r * w + k)
         == if r == 0 || r == h - 1 || k <= 1 then [] else s[r * w + 1 .. r * w + (if k < w then k else w - 1)]
  {
    Distrib(r, 1, w);
    MulMonoImp(0, r, w);
    var lo: nat := r * w;
    forall i | lo <= i < lo + w ensures keep(i) == (r != 0 && r != h - 1 && lo + 1 <= i < lo + w - 1) {
      DivModUnique(r, i - lo, w);
    }
    if r == 0 || r == h - 1 {
      FilterNone(s, keep, lo, k);
    } else {
      FilterInner(s, keep, lo, lo + k, w);
    }
  }

  /** A stretch in which nothing is kept filters to nothing. */
  lemma {:induction false} FilterNone(s: string, keep: nat -> bool, lo: nat, k: nat)
    requires lo + k <= |s| && forall i :: lo <= i < lo + k ==> !keep(i)
    ensures Filter(s, keep, lo, lo + k) == []
  {
    if k > 0 {
      FilterNone(s, keep, lo, k - 1);
    }
  }

  /** A row in which exactly the columns 1 .. w-2 are kept filters to those columns. */
  lemma {:induction false} FilterInner(s: string, keep: nat -> bool, lo: nat, hi: nat, w: nat)
    requires w >= 2 && lo <= hi <= lo + w && lo + w <= |s|
    requires forall i :: lo <= i < lo + w ==> keep(i) == (lo + 1 <= i < lo + w - 1)
    ensures hi <= lo + 1 ==> Filter(s, keep, lo, hi) == []
    ensures lo + 1 < hi < lo + w ==> Filter(s, keep, lo, hi) == s[lo + 1 .. hi]
    ensures hi == lo + w ==> Filter(s, keep, lo, hi) == s[lo + 1 .. lo + w - 1]
    decreases hi
  {
    if hi > lo {
      var last := hi - 1;
      FilterInner(s, keep, lo, last, w);
      FilterLast(s, keep, lo, hi);
      var prev := Filter(s, keep, lo, last);
      if hi == lo + 1 {
        assert !keep(last);
      } else if hi < lo + w {
        assert keep(last);
        assert prev == s[lo + 1 .. last];
        assert s[lo + 1 .. hi] == prev + [s[last]];
      } else {
        assert !keep(last);
        assert prev == s[lo + 1 .. lo + w - 1];
      }
    }
  }

  /** Position `p` of the trimmed data comes from inner row `p / (w-2) + 1`, column `p % (w-2) + 1`. */
  function TrimSource(p: nat, w: nat): nat
    requires w > 2
  {
    (p / (w - 2) + 1) * w + p % (w - 2) + 1
  }

  /** The chars kept from the first `rows` rows (1 <= rows < h) are the inner cells of rows
      1 .. rows-1, row after row, `w - 2` per row. */
  lemma {:induction false} TrimPrefix(s: string, keep: nat -> bool, w: nat, h: nat, rows: nat)
    requires w > 2 && 1 <= rows < h && h * w <= |s|
    requires forall i: nat :: keep(i) == TrimKeeps(i, w, h)
    ensures rows * w <= |s|
    ensures |Filter(s, keep, 0, rows * w)| == (rows - 1) * (w - 2)
    ensures forall p :: 0 <= p < (rows - 1) * (w - 2) ==>
              TrimSource(p, w) < |s| && Filter(s, keep, 0, rows * w)[p] == s[TrimSource(p, w)]
  {
    MulMonoImp(rows, h, w);
    if rows == 1 {
      TrimRowFilter(s, keep, w, h, 0, w);
      assert 0 * w == 0 && 0 + w == rows * w;
      assert Filter(s, keep, 0, rows * w) == [];
    } else {
      var r0 := rows - 1;
      TrimPrefix(s, keep, w, h, r0);
      Distrib(r0, 1, w);
      FilterSplit(s, keep, 0, r0 * w, rows * w);
      TrimRowFilter(s, keep, w, h, r0, w);
      var prefix := Filter(s, keep, 0, r0 * w);
      var row := s[r0 * w + 1 .. r0 * w + w - 1];
      assert Filter(s, keep, 0, rows * w) == prefix + row;
      TrimStep(s, prefix, row, r0, w);
      assert r0 == rows - 1;
    }
  }

  /** Appending the inner cells of row `r0` to those of rows 1 .. r0-1 extends the row-by-row
      layout by one row. */
  lemma TrimStep(s: string, prefix: string, row: string, r0: nat, w: nat)
    requires w > 2 && r0 >= 1 && (r0 + 1) * w <= |s|
    requires |prefix| == (r0 - 1) * (w - 2)
    requires forall p :: 0 <= p < (r0 - 1) * (w - 2) ==> TrimSource(p, w) < |s| && prefix[p] == s[TrimSource(p, w)]
    requires row == s[r0 * w + 1 .. r0 * w + w - 1]
    ensures |prefix + row| == r0 * (w - 2)
    ensures forall p :: 0 <= p < r0 * (w - 2) ==> TrimSource(p, w) < |s| && (prefix + row)[p] == s[TrimSource(p, w)]
  {
    Distrib(r0 - 1, 1, w - 2);
    forall p | 0 <= p < r0 * (w - 2)
      ensures TrimSource(p, w) < |s| && (prefix + row)[p] == s[TrimSource(p, w)]
    {
      if p >= |prefix| {
        var c := p - |prefix|;
        DivModUnique(r0 - 1, c, w - 2);
        assert TrimSource(p, w) == r0 * w + c + 1;
      }
    }
  }

  /** On a whole square grid the trimming filter keeps `(w-2)^2` chars: the inner cells, row by row. */
  lemma TrimData(s: string, keep: nat -> bool, w: nat)
    requires w > 2 && |s| == w * w
    requires forall i: nat :: keep(i) == TrimKeeps(i, w, w)
    ensures |Filter(s, keep, 0, |s|)| == (w - 2) * (w - 2)
    ensures forall p :: 0 <= p < (w - 2) * (w - 2) ==>
              TrimSource(p, w) < |s| && Filter(s, keep, 0, |s|)[p] == s[TrimSource(p, w)]
  {
    TrimPrefix(s, keep, w, w, w - 1);
    FilterSplit(s, keep, 0, (w - 1) * w, |s|);
    Distrib(w - 1, 1, w);
    TrimRowFilter(s, keep, w, w, w - 1, w);
    Distrib(w - 2, 1, w - 2);
  }

  /** `trim_tile` drops the border: a (w-2) x (w-2) grid whose cell (r, c) is old cell (r+1, c+1). */
  function Trim(t: Tile): (u: Tile)
    requires Square(t) && t.width > 2
    ensures u.id == t.id && u.width == t.width - 2 && u.height == t.height - 2 && Square(u)
    ensures forall r, c :: 0 <= r < u.width && 0 <= c < u.width ==> Cell(u, r, c) == Cell(t, r + 1, c + 1)
  {
    var w := t.width;
    var keep := (i: nat) => TrimKeeps(i, w, w);
    TrimData(t.data, keep, w);
    var u := Tile(t.id, Filter(t.data, keep, 0, |t.data|), w - 2, w - 2);
    TrimCells(t, u);
    u
  }

  /** A grid laid out as the inner cells of `t`, row by row, has the inner cells of `t`. */
  lemma TrimCells(t: Tile, u: Tile)
    requires Square(t) && t.width > 2 && u.width == u.height == t.width - 2
    requires |u.data| == (t.width - 2) * (t.width - 2)
    requires forall p :: 0 <= p < (t.width - 2) * (t.width - 2) ==>
               TrimSource(p, t.width) < |t.data| && u.data[p] == t.data[TrimSource(p, t.width)]
    ensures Square(u)
    ensures forall r, c :: 0 <= r < u.width && 0 <= c < u.width ==> Cell(u, r, c) == Cell(t, r + 1, c + 1)
  {
    var w := t.width;
    forall r, c | 0 <= r < w - 2 && 0 <= c < w - 2
      ensures Cell(u, r, c) == Cell(t, r + 1, c + 1)
    {
      TrimSourceAt(r, c, w);
      assert Cell(u, r, c) == u.data[r * u.width + c];
    }
  }

  /** Trimmed cell (r, c) comes from cell (r+1, c+1) of the untrimmed grid. */
  lemma TrimSourceAt(r: nat, c: nat, w: nat)
    requires w > 2 && r < w - 2 && c < w - 2
    ensures r * (w - 2) + c < (w - 2) * (w - 2)
    ensures TrimSource(r * (w - 2) + c, w) == (r + 1) * w + (c + 1) < w * w
  {
    CellInGrid(r, c, w - 2, w - 2);
    DivModUnique(r, c, w - 2);
    CellInGrid(r + 1, c + 1, w, w);
  }

  // ---------------------------------------------------------------------------------------
  // get and the sea-monster scan.

  /** `get` reads the flat index `x + y * width`: there is no bound on the column. */
  function Get(t: Tile, x: int, y: int): (ch: Option<char>)
    ensures ch.Some? <==> 0 <= x + y * t.width < |t.data|
    ensures ch.Some? ==> ch.value == t.data[x + y * t.width]
  {
    var idx := x + y * t.width;
    if idx < 0 then None
    else if idx < |t.data| then Some(t.data[idx])
    else None
  }

  /** A column past the right edge reads the start of the next row. */
  lemma GetNoRowBound(t: Tile, x: int, y: int)
    ensures Get(t, x + t.width, y) == Get(t, x, y + 1)
  {
    Distrib(y, 1, t.width);
  }

  /** The 14 (dx, dy) offsets of the sea-monster picture, relative to its anchor. */
  const MonsterOffsets: seq<(int, int)> :=
    [(18, -1), (5, 0), (6, 0), (11, 0), (12, 0), (17, 0), (18, 0), (19, 0),
     (1, 1), (4, 1), (7, 1), (10, 1), (13, 1), (16, 1)]

  predicate IsSeaMonsterAt(t: Tile, idx: nat)
    requires t.width > 0
  {
    var x, y := idx % t.width, idx / t.width;
    forall k :: 0 <= k < |MonsterOffsets| ==> Get(t, x + MonsterOffsets[k].0, y + MonsterOffsets[k].1) == Some('#')
  }

  /** The monster test at `idx` reads the flat indices `idx + dx + dy * width`. */
  lemma SeaMonsterFlat(t: Tile, idx: nat)
    requires t.width > 0
    ensures IsSeaMonsterAt(t, idx) <==>
      forall k :: 0 <= k < |MonsterOffsets| ==>
        var at := idx + MonsterOffsets[k].0 + MonsterOffsets[k].1 * t.width;
        0 <= at < |t.data| && t.data[at] == '#'
  {
    var w := t.width;
    RowCol(idx, w);
    forall k | 0 <= k < |MonsterOffsets|
      ensures idx % w + MonsterOffsets[k].0 + (idx / w + MonsterOffsets[k].1) * w
           == idx + MonsterOffsets[k].0 + MonsterOffsets[k].1 * w
    {
      Distrib(idx / w, MonsterOffsets[k].1, w);
    }
  }

  /** The anchor cell itself is not part of the test. */
  lemma SeaMonsterIgnoresAnchor()
    ensures exists t: Tile, idx: nat :: t.width > 0 && idx < |t.data| && IsSeaMonsterAt(t, idx) && t.data[idx] != '#'
  {
    var t := Tile(0, seq(60, i => if i == 20 then '.' else '#'), 20, 3);
    SeaMonsterFlat(t, 20);
    assert IsSeaMonsterAt(t, 20);
  }

  /** `count_sea_monsters`: every index of `data` is tried as an anchor. */
  function CountSeaMonsters(t: Tile): (n: nat)
    requires t.width > 0
    ensures n <= |t.data|
    ensures n == |set idx: nat | idx < |t.data| && IsSeaMonsterAt(t, idx)|
  {
    var anchor := (idx: nat) => t.width > 0 && IsSeaMonsterAt(t, idx);
    CountBelowIsCardinality(anchor, |t.data|);
    assert (set idx: nat | idx < |t.data| && anchor(idx)) == (set idx: nat | idx < |t.data| && IsSeaMonsterAt(t, idx));
    CountBelow(anchor, |t.data|)
  }

  // ---------------------------------------------------------------------------------------
  // orientations

  /** `t` rotated `k` times. */
  function Turned(t: Tile, k: nat): (r: Tile)
    requires Square(t)
    ensures Square(r) && r.id == t.id && r.width == t.width
  {
    if k == 0 then t else Rotate(Turned(t, k - 1))
  }

  /** The eight orientations in the order `orientations` builds them: flipped with 0..3
      rotations, then unflipped with 0..3 rotations. */
  function Orientations(t: Tile): (os: seq<Tile>)
    requires Square(t)
    ensures |os| == 8
    ensures forall k :: 0 <= k < 8 ==> Square(os[k]) && os[k].id == t.id && os[k].width == t.width
  {
    var f := Flip(t);
    [f, Turned(f, 1), Turned(f, 2), Turned(f, 3), t, Turned(t, 1), Turned(t, 2), Turned(t, 3)]
  }

  /** The eight orientations keep `data` pairwise distinct (what `orientations` asserts). */
  predicate Asymmetric(t: Tile)
    requires Square(t)
  {
    forall i, j :: 0 <= i < j < 8 ==> Orientations(t)[i].data != Orientations(t)[j].data
  }

  /** `Turned` unrolled: one, two and three applications of `Rotate`. */
  lemma TurnedSteps(b: Tile)
    requires Square(b)
    ensures Turned(b, 1) == Rotate(b)
    ensures Turned(b, 2) == Rotate(Rotate(b))
    ensures Turned(b, 3) == Rotate(Rotate(Rotate(b)))
  {
    assert Turned(b, 1) == Rotate(Turned(b, 0));
    assert Turned(b, 2) == Rotate(Turned(b, 1));
    assert Turned(b, 3) == Rotate(Turned(b, 2));
  }

  /** For widths up to 10, one, two and three rotations turn the grid by 90, 180 and 270 degrees. */
  lemma TurnedNarrow(b: Tile, i: nat, j: nat)
    requires Square(b) && b.width <= 10 && i < b.width && j < b.width
    ensures Cell(Turned(b, 1), i, j) == Cell(b, j, b.width - 1 - i)
    ensures Cell(Turned(b, 2), i, j) == Cell(b, b.width - 1 - i, b.width - 1 - j)
    ensures Cell(Turned(b, 3), i, j) == Cell(b, b.width - 1 - j, i)
  {
    var m := b.width - 1;
    TurnedSteps(b);
    RotateNarrow(b, i, j);
    TurnTwice(b, i, j);
    ThreeTurns(b, i, j);
  }

  lemma ThreeTurns(b: Tile, i: nat, j: nat)
    requires Square(b) && b.width <= 10 && i < b.width && j < b.width
    ensures Cell(Rotate(Rotate(Rotate(b))), i, j) == Cell(b, b.width - 1 - j, i)
  {
    var r2 := Rotate(Rotate(b));
    RotateNarrow(r2, i, j);
    TurnTwice(b, j, b.width - 1 - i);
  }

  lemma TurnTwice(b: Tile, i: nat, j: nat)
    requires Square(b) && b.width <= 10 && i < b.width && j < b.width
    ensures Cell(Rotate(Rotate(b)), i, j) == Cell(b, b.width - 1 - i, b.width - 1 - j)
  {
    RotateNarrow(Rotate(b), i, j);
    RotateNarrow(b, j, b.width - 1 - i);
  }

  /** For widths up to 10 the eight orientations are the eight symmetries of the square:
      first the mirror image with its three turns ... */
  lemma FlippedOrientations(t: Tile, i: nat, j: nat)
    requires Square(t) && t.width <= 10 && i < t.width && j < t.width
    ensures Cell(Orientations(t)[0], i, j) == Cell(t, i, t.width - 1 - j)
    ensures Cell(Orientations(t)[1], i, j) == Cell(t, j, i)
    ensures Cell(Orientations(t)[2], i, j) == Cell(t, t.width - 1 - i, j)
    ensures Cell(Orientations(t)[3], i, j) == Cell(t, t.width - 1 - j, t.width - 1 - i)
  {
    var os := Orientations(t);
    assert os[0] == Flip(t) && os[1] == Turned(Flip(t), 1) && os[2] == Turned(Flip(t), 2) && os[3] == Turned(Flip(t), 3);
    FlipTurns(t, i, j);
  }

  /** The turns of the mirror image, cell by cell. */
  lemma FlipTurns(t: Tile, i: nat, j: nat)
    requires Square(t) && t.width <= 10 && i < t.width && j < t.width
    ensures Cell(Flip(t), i, j) == Cell(t, i, t.width - 1 - j)
    ensures Cell(Turned(Flip(t), 1), i, j) == Cell(t, j, i)
    ensures Cell(Turned(Flip(t), 2), i, j) == Cell(t, t.width - 1 - i, j)
    ensures Cell(Turned(Flip(t), 3), i, j) == Cell(t, t.width - 1 - j, t.width - 1 - i)
  {
    var f := Flip(t);
    var m := t.width - 1;
    assert Square(f) && f.width == t.width;
    TurnedNarrow(f, i, j);
    FlipCell(t, i, j);
    var a, b := m - i, m - j;
    assert m - a == i && m - b == j;
    FlipCell(t, j, a);
    FlipCell(t, a, b);
    FlipCell(t, b, i);
  }

  lemma UnflippedOrientations(t: Tile, i: nat, j: nat)
    requires Square(t) && t.width <= 10 && i < t.width && j < t.width
    ensures Cell(Orientations(t)[4], i, j) == Cell(t, i, j)
    ensures Cell(Orientations(t)[5], i, j) == Cell(t, j, t.width - 1 - i)
    ensures Cell(Orientations(t)[6], i, j) == Cell(t, t.width - 1 - i, t.width - 1 - j)
    ensures Cell(Orientations(t)[7], i, j) == Cell(t, t.width - 1 - j, i)
  {
    var os := Orientations(t);
    assert os[4] == t && os[5] == Turned(t, 1) && os[6] == Turned(t, 2) && os[7] == Turned(t, 3);
    TurnedNarrow(t, i, j);
  }

  /** `orientations`: the nested loops over `[true, false]` and `[0, 1, 2, 3]`. */
  method ComputeOrientations(t: Tile) returns (os: seq<Tile>)
    requires Square(t) && Asymmetric(t)
    ensures os == Orientations(t)
  {
    ghost var all := Orientations(t);
    os := [];
    var seen: set<string> := {};
    var shouldFlip := [true, false];
    for f := 0 to 2
      invariant os == all[..4 * f]
      invariant seen == set k | 0 <= k < |os| :: os[k].data
      invariant |seen| == |os|
    {
      for rotation := 0 to 4
        invariant |os| == 4 * f + rotation && os == all[..|os|]
        invariant seen == set k | 0 <= k < |os| :: os[k].data
        invariant |seen| == |os|
      {
        os, seen := PushOrientation(t, shouldFlip[f], f, rotation, os, seen, all);
      }
    }
    assert |seen| == 8;
  }

  /** One round of the inner loop of `orientations`: the next orientation is pushed and its
      data, new to the set, is inserted. */
  method PushOrientation(t: Tile, flip: bool, f: nat, rotation: nat, os: seq<Tile>, seen: set<string>,
                         ghost all: seq<Tile>)
      returns (os': seq<Tile>, seen': set<string>)
    requires Square(t) && Asymmetric(t) && all == Orientations(t)
    requires f < 2 && rotation < 4 && flip == (f == 0)
    requires |os| == 4 * f + rotation && os == all[..|os|]
    requires seen == (set k | 0 <= k < |os| :: os[k].data) && |seen| == |os|
    ensures |os'| == |os| + 1 && os' == all[..|os'|]
    ensures seen' == (set k | 0 <= k < |os'| :: os'[k].data) && |seen'| == |os'|
  {
    var tile := Orient(t, flip, rotation);
    OrientationAt(t, f, rotation);
    AddDistinct(os, tile, seen, all);
    os' := os + [tile];
    seen' := seen + {tile.data};
  }

  /** One orientation: a copy of `t`, flipped if asked, then rotated `rotation` times. */
  method Orient(t: Tile, flip: bool, rotation: nat) returns (tile: Tile)
    requires Square(t)
    ensures tile == Turned(if flip then Flip(t) else t, rotation)
  {
    tile := t;
    if flip {
      tile := Flip(tile);
    }
    ghost var base := tile;
    for turns := 0 to rotation
      invariant Square(tile) && tile == Turned(base, turns)
    {
      tile := Rotate(tile);
    }
  }

  /** Entry `4*f + rotation` of the orientations is the (flipped when f == 0) tile turned
      `rotation` times. */
  lemma OrientationAt(t: Tile, f: nat, rotation: nat)
    requires Square(t) && f < 2 && rotation < 4
    ensures Orientations(t)[4 * f + rotation] == Turned(if f == 0 then Flip(t) else t, rotation)
  {
  }

  /** Appending the next orientation keeps the set of seen strings as large as the list. */
  lemma AddDistinct(os: seq<Tile>, tile: Tile, seen: set<string>, all: seq<Tile>)
    requires |os| < |all| && os == all[..|os|] && tile == all[|os|]
    requires forall i, j :: 0 <= i < j < |all| ==> all[i].data != all[j].data
    requires seen == set k | 0 <= k < |os| :: os[k].data
    ensures (os + [tile])[..] == all[..|os| + 1]
    ensures seen + {tile.data} == set k | 0 <= k < |os + [tile]| :: (os + [tile])[k].data
    ensures tile.data !in seen
  {
    var n := |os|;
    var ext := os + [tile];
    forall k | 0 <= k < n ensures os[k].data != tile.data {
      assert os[k] == all[k];
    }
    forall d | d in seen + {tile.data} ensures d in set k | 0 <= k < |ext| :: ext[k].data {
      if d != tile.data {
        var k :| 0 <= k < n && os[k].data == d;
        assert ext[k].data == d;
      } else {
        assert ext[n].data == d;
      }
    }
  }

  // ---------------------------------------------------------------------------------------
  // matches

  datatype Match = North(tile: Tile) | South(tile: Tile) | East(tile: Tile) | West(tile: Tile) | NoMatch

  /** Whether orientation `o` passes any of the four border tests against the placed tile `r`. */
  predicate Fits(r: Tile, o: Tile)
    requires Square(r) && Square(o)
  {
    Bottom(r) == Top(o) || Top(r) == Bottom(o) || Left(r) == Right(o) || Right(r) == Left(o)
  }

  /** The first passing test decides the direction: south, north, east, west. */
  function Classify(r: Tile, o: Tile): Match
    requires Square(r) && Square(o)
  {
    if Bottom(r) == Top(o) then South(o)
    else if Top(r) == Bottom(o) then North(o)
    else if Left(r) == Right(o) then East(o)
    else if Right(r) == Left(o) then West(o)
    else NoMatch
  }

  /** `matches`: the first orientation (in list order) that passes a test, classified by the
      first test it passes; `NoMatch` exactly when none passes. */
  function Matches(r: Tile, os: seq<Tile>): (m: Match)
    requires Square(r) && forall k :: 0 <= k < |os| ==> Square(os[k])
    ensures m.NoMatch? <==> forall k :: 0 <= k < |os| ==> !Fits(r, os[k])
    ensures !m.NoMatch? ==> m.tile in os && Square(m.tile)
    ensures m.South? ==> Bottom(r) == Top(m.tile)
    ensures m.North? ==> Top(r) == Bottom(m.tile)
    ensures m.East? ==> Left(r) == Right(m.tile)
    ensures m.West? ==> Right(r) == Left(m.tile)
  {
    if |os| == 0 then NoMatch
    else if Fits(r, os[0]) then Classify(r, os[0])
    else
      var m := Matches(r, os[1..]);
      assert forall k :: 1 <= k < |os| ==> os[k] == os[1..][k - 1];
      m
  }

  /** The index of the first orientation that fits `r`, or `|os|` when none does. */
  function FirstFit(r: Tile, os: seq<Tile>): (i: nat)
    requires Square(r) && forall k :: 0 <= k < |os| ==> Square(os[k])
    ensures i <= |os| && (i < |os| ==> Fits(r, os[i]))
    ensures forall j :: 0 <= j < i ==> !Fits(r, os[j])
    decreases |os|
  {
    if |os| == 0 || Fits(r, os[0]) then 0
    else
      var i := FirstFit(r, os[1..]);
      assert forall j :: 1 <= j < |os| ==> os[j] == os[1..][j - 1];
      i + 1
  }

  /** A match is the classification of the first orientation that fits. */
  lemma {:induction false} MatchesFirstFit(r: Tile, os: seq<Tile>)
    requires Square(r) && forall k :: 0 <= k < |os| ==> Square(os[k])
    ensures Matches(r, os) == if FirstFit(r, os) < |os| then Classify(r, os[FirstFit(r, os)]) else NoMatch
    decreases |os|
  {
    if |os| > 0 && !Fits(r, os[0]) {
      MatchesFirstFit(r, os[1..]);
      var i := FirstFit(r, os[1..]);
      assert i < |os| - 1 ==> os[1..][i] == os[i + 1];
    }
  }

  // ---------------------------------------------------------------------------------------
  // OrientationCache

  /** Orientations of tiles computed so far, keyed by tile id only. */
  class OrientationCache {
    var inner: map<nat, seq<Tile>>

    constructor ()
      ensures inner == map[]
    {
      inner := map[];
    }

    /** The first call for an id stores the orientations of `tile`; later calls return what
        was stored for that id; other entries are untouched. */
    method GetOrInsert(tile: Tile) returns (os: seq<Tile>)
      requires tile.id !in inner ==> Square(tile) && Asymmetric(tile)
      modifies this
      ensures old(tile.id in inner) ==> inner == old(inner)
      ensures old(tile.id !in inner) ==> inner == old(inner)[tile.id := Orientations(tile)]
      ensures tile.id in inner && os == inner[tile.id]
    {
      if tile.id !in inner {
        var orientations := ComputeOrientations(tile);
        inner := inner[tile.id := orientations];
      }
      os := inner[tile.id];
    }
  }

  // ---------------------------------------------------------------------------------------
  // find_tile_orientations

  /** A tile placed, in one of its orientations, at integer coordinates. */
  datatype Placement = Placement(x: int, y: int, tile: Tile)

  /** `q` sits next to `p` in the direction its matching borders say: north is y + 1, south
      y - 1, east x + 1 and west x - 1. */
  predicate Adjacent(p: Placement, q: Placement) {
    && Square(p.tile) && Square(q.tile)
    && (|| (q.x == p.x && q.y == p.y + 1 && Top(p.tile) == Bottom(q.tile))
        || (q.x == p.x && q.y == p.y - 1 && Bottom(p.tile) == Top(q.tile))
        || (q.x == p.x + 1 && q.y == p.y && Left(p.tile) == Right(q.tile))
        || (q.x == p.x - 1 && q.y == p.y && Right(p.tile) == Left(q.tile)))
  }

  /** The placement a match next to `p` produces. */
  function Place(p: Placement, m: Match): (q: Placement)
    requires Square(p.tile) && !m.NoMatch? && Square(m.tile)
    requires m.South? ==> Bottom(p.tile) == Top(m.tile)
    requires m.North? ==> Top(p.tile) == Bottom(m.tile)
    requires m.East? ==> Left(p.tile) == Right(m.tile)
    requires m.West? ==> Right(p.tile) == Left(m.tile)
    ensures Adjacent(p, q) && q.tile == m.tile
  {
    match m
    case North(o) => Placement(p.x, p.y + 1, o)
    case South(o) => Placement(p.x, p.y - 1, o)
    case East(o) => Placement(p.x + 1, p.y, o)
    case West(o) => Placement(p.x - 1, p.y, o)
  }

  predicate DistinctIds(tiles: seq<Tile>) {
    forall i, j :: 0 <= i < j < |tiles| ==> tiles[i].id != tiles[j].id
  }

  /** Placement `k` is adjacent to an earlier one. */
  ghost predicate LinkedAt(ps: seq<Placement>, k: nat)
    requires k < |ps|
  {
    exists j :: 0 <= j < k && Adjacent(ps[j], ps[k])
  }

  /** Every placement after the first is adjacent to an earlier one. */
  ghost predicate Chained(ps: seq<Placement>) {
    forall k :: 0 < k < |ps| ==> LinkedAt(ps, k)
  }

  lemma ChainedExtend(ps: seq<Placement>, q: Placement)
    requires Chained(ps) && exists j :: 0 <= j < |ps| && Adjacent(ps[j], q)
    ensures Chained(ps + [q])
  {
    var s := ps + [q];
    forall k | 0 < k < |s| ensures LinkedAt(s, k) {
      if k < |ps| {
        assert LinkedAt(ps, k);
        var j :| 0 <= j < k && Adjacent(ps[j], ps[k]);
        assert s[j] == ps[j] && s[k] == ps[k];
      } else {
        var j :| 0 <= j < |ps| && Adjacent(ps[j], q);
        assert s[j] == ps[j] && s[k] == q;
      }
    }
  }

  /** `ps[k]` holds one of the orientations of `origin[k]`. */
  ghost predicate Oriented(ps: seq<Placement>, origin: seq<Tile>) {
    |ps| == |origin| && forall k :: 0 <= k < |ps| ==> Square(origin[k]) && ps[k].tile in Orientations(origin[k])
  }

  lemma OrientedExtend(ps: seq<Placement>, origin: seq<Tile>, q: Placement, t: Tile)
    requires Oriented(ps, origin) && Square(t) && q.tile in Orientations(t)
    ensures Oriented(ps + [q], origin + [t])
  {
    var s, o := ps + [q], origin + [t];
    forall k | 0 <= k < |s| ensures Square(o[k]) && s[k].tile in Orientations(o[k]) {
      if k < |ps| {
        assert s[k] == ps[k] && o[k] == origin[k];
      }
    }
  }

  /** Every tile of an orientation list is square. */
  lemma OrientedSquare(ps: seq<Placement>, origin: seq<Tile>, k: nat)
    requires Oriented(ps, origin) && k < |ps|
    ensures Square(ps[k].tile) && ps[k].tile.width == origin[k].width
  {
    var os := Orientations(origin[k]);
    var i :| 0 <= i < 8 && os[i] == ps[k].tile;
  }

  /** What the assembly loop builds: `placed[k]` is an orientation of `origin[k]`, the origins
      are the input tiles in some order, the first tile sits unchanged at (0, 0) and every
      later placement is adjacent to an earlier one. */
  ghost predicate Assembly(tiles: seq<Tile>, placed: seq<Placement>, origin: seq<Tile>) {
    && |placed| == |tiles|
    && multiset(origin) == multiset(tiles)
    && (|tiles| > 0 ==> placed[0] == Placement(0, 0, tiles[0]))
    && Oriented(placed, origin)
    && Chained(placed)
  }

  /** The result of `find_tile_orientations`: an assembly of all the tiles, sorted. */
  ghost predicate Solved(tiles: seq<Tile>, ps: seq<Placement>) {
    && |ps| == |tiles| && SortedPlacements(ps)
    && exists placed, origin :: Assembly(tiles, placed, origin) && multiset(ps) == multiset(placed)
  }

  /** The cache holds, for each id it knows, the orientations of the input tile with that id. */
  ghost predicate CacheFaithful(inner: map<nat, seq<Tile>>, tiles: seq<Tile>) {
    forall id :: id in inner ==>
      exists i :: 0 <= i < |tiles| && tiles[i].id == id && Square(tiles[i]) && inner[id] == Orientations(tiles[i])
  }

  /** The order of `sort_by` at the end: y ascending, then x descending. */
  predicate Before(a: Placement, b: Placement) {
    a.y < b.y || (a.y == b.y && a.x > b.x)
  }

  predicate SortedPlacements(ps: seq<Placement>) {
    forall i, j :: 0 <= i < j < |ps| ==> !Before(ps[j], ps[i])
  }

  /** Inserts `p` after every element it does not come before. */
  function Insert(ps: seq<Placement>, p: Placement): (r: seq<Placement>)
    requires SortedPlacements(ps)
    ensures SortedPlacements(r) && multiset(r) == multiset(ps) + multiset{p}
  {
    if |ps| == 0 then [p]
    else if Before(p, ps[0]) then [p] + ps
    else
      var rest := Insert(ps[1..], p);
      assert ps == [ps[0]] + ps[1..];
      forall k | 0 <= k < |rest| ensures !Before(rest[k], ps[0]) {
        assert rest[k] in multiset(rest);
        if rest[k] != p {
          assert rest[k] in multiset(ps[1..]);
        }
      }
      ConsSorted(ps[0], rest);
      [ps[0]] + rest
  }

  lemma ConsSorted(x: Placement, rest: seq<Placement>)
    requires SortedPlacements(rest) && forall k :: 0 <= k < |rest| ==> !Before(rest[k], x)
    ensures SortedPlacements([x] + rest)
  {
    var s := [x] + rest;
    forall i, j | 0 <= i < j < |s| ensures !Before(s[j], s[i]) {
      if i > 0 {
        assert s[i] == rest[i - 1] && s[j] == rest[j - 1];
      } else {
        assert s[j] == rest[j - 1];
      }
    }
  }

  /** The placements sorted by y ascending, then x descending. */
  function SortPlacements(ps: seq<Placement>): (r: seq<Placement>)
    ensures SortedPlacements(r) && multiset(r) == multiset(ps)
  {
    if |ps| == 0 then []
    else
      assert ps == ps[..|ps| - 1] + [ps[|ps| - 1]];
      Insert(SortPlacements(ps[..|ps| - 1]), ps[|ps| - 1])
  }

  /** `find_tile_orientations`: a queue of tiles still to place; the first is placed at (0, 0),
      every later one next to the first placed tile one of whose borders one of its
      orientations matches, or sent to the back of the queue. The source loops until the
      queue is empty; `fuel` bounds the number of rounds and `None` means it ran out. */
  method FindTileOrientations(tiles: seq<Tile>, fuel: nat) returns (r: Option<seq<Placement>>)
    requires forall i :: 0 <= i < |tiles| ==> Square(tiles[i])
    requires forall i :: 1 <= i < |tiles| ==> Asymmetric(tiles[i])
    requires DistinctIds(tiles)
    ensures r.Some? ==> Solved(tiles, r.value)
  {
    var todo := tiles;
    var done: seq<Placement> := [];
    ghost var origin: seq<Tile> := [];
    var cache := new OrientationCache();
    var rounds := 0;
    while |todo| > 0 && rounds < fuel
      invariant |todo| + |done| == |tiles| && Oriented(done, origin) && Chained(done)
      invariant |done| == 0 ==> todo == tiles
      invariant |done| > 0 ==> |tiles| > 0 && done[0] == Placement(0, 0, tiles[0]) && origin[0] == tiles[0]
      invariant |done| > 0 ==> multiset(todo) + multiset(origin[1..]) == multiset(tiles[1..])
      invariant CacheFaithful(cache.inner, tiles)
      decreases fuel - rounds
    {
      ghost var before := todo;
      var next := todo[0];
      todo := todo[1..];
      if |done| == 0 {
        done := [Placement(0, 0, next)];
        origin := [next];
        assert Orientations(next)[4] == next;
      } else {
        QueueStep(before, origin, tiles);
        forall k | 0 <= k < |done| ensures Square(done[k].tile) {
          OrientedSquare(done, origin, k);
        }
        var change := FindNeighbour(next, done, cache, tiles);
        NeighbourAdjacent(done, Orientations(next));
        if change.None? {
          todo := todo + [next];
        } else {
          ChainedExtend(done, change.value);
          OrientedExtend(done, origin, change.value, next);
          done := done + [change.value];
          origin := origin + [next];
        }
      }
      rounds := rounds + 1;
    }
    if |todo| > 0 {
      return None;
    }
    AssemblyDone(tiles, done, origin);
    var sorted := SortPlacements(done);
    assert |sorted| == |multiset(sorted)| == |done|;
    assert Assembly(tiles, done, origin) && multiset(sorted) == multiset(done);
    r := Some(sorted);
  }

  /** With the queue empty, the loop's invariants are an assembly of all the tiles. */
  lemma AssemblyDone(tiles: seq<Tile>, done: seq<Placement>, origin: seq<Tile>)
    requires |done| == |tiles| && Oriented(done, origin) && Chained(done)
    requires |done| > 0 ==> done[0] == Placement(0, 0, tiles[0]) && origin[0] == tiles[0]
    requires |done| > 0 ==> multiset(origin[1..]) == multiset(tiles[1..])
    ensures Assembly(tiles, done, origin)
  {
    if |tiles| > 0 {
      assert origin == [origin[0]] + origin[1..];
      assert tiles == [tiles[0]] + tiles[1..];
    }
  }

  /** Popping the queue head: it is one of `tiles[1..]`, and both requeueing it and placing it
      keep the tiles accounted for. */
  lemma QueueStep(todo: seq<Tile>, origin: seq<Tile>, tiles: seq<Tile>)
    requires |todo| > 0 && |origin| > 0 && |tiles| > 0
    requires multiset(todo) + multiset(origin[1..]) == multiset(tiles[1..])
    ensures todo[0] in tiles[1..]
    ensures multiset(todo[1..] + [todo[0]]) + multiset(origin[1..]) == multiset(tiles[1..])
    ensures multiset(todo[1..]) + multiset((origin + [todo[0]])[1..]) == multiset(tiles[1..])
  {
    assert todo == [todo[0]] + todo[1..];
    assert todo[0] in multiset(todo);
    assert multiset(tiles[1..])[todo[0]] >= multiset(todo)[todo[0]];
    assert (origin + [todo[0]])[1..] == origin[1..] + [todo[0]];
  }

  /** The placement the inner loop of `find_tile_orientations` settles on, looking from index
      `i` on: the first placed tile some orientation in `os` matches, placed as `matches` says;
      `None` when no placed tile from `i` on matches. */
  function NeighbourFrom(done: seq<Placement>, os: seq<Tile>, i: nat): (q: Option<Placement>)
    requires forall k :: 0 <= k < |done| ==> Square(done[k].tile)
    requires (forall k :: 0 <= k < |os| ==> Square(os[k])) && i <= |done|
    ensures q.Some? ==> q.value.tile in os
    decreases |done| - i
  {
    if i == |done| then None
    else if Matches(done[i].tile, os).NoMatch? then NeighbourFrom(done, os, i + 1)
    else Some(Place(done[i], Matches(done[i].tile, os)))
  }

  /** No neighbour is found exactly when no placed tile from `i` on matches any orientation. */
  lemma {:induction false} NeighbourNone(done: seq<Placement>, os: seq<Tile>, i: nat)
    requires forall k :: 0 <= k < |done| ==> Square(done[k].tile)
    requires (forall k :: 0 <= k < |os| ==> Square(os[k])) && i <= |done|
    ensures NeighbourFrom(done, os, i).None? <==> forall k :: i <= k < |done| ==> Isolated(done[k].tile, os)
    decreases |done| - i
  {
    if i < |done| {
      IsolatedIsNoMatch(done[i].tile, os);
      NeighbourNone(done, os, i + 1);
    }
  }

  /** A neighbour found is the placement `matches` gives next to the first placed tile, from `i`
      on, that some orientation matches; all the placed tiles before it match none. */
  lemma {:induction false} NeighbourFirst(done: seq<Placement>, os: seq<Tile>, i: nat)
    requires forall k :: 0 <= k < |done| ==> Square(done[k].tile)
    requires (forall k :: 0 <= k < |os| ==> Square(os[k])) && i <= |done|
    ensures NeighbourFrom(done, os, i).Some? ==> exists j :: (i <= j < |done| &&
      (forall k :: i <= k < j ==> Isolated(done[k].tile, os)) &&
      !Matches(done[j].tile, os).NoMatch? &&
      NeighbourFrom(done, os, i).value == Place(done[j], Matches(done[j].tile, os)))
    decreases |done| - i
  {
    if i < |done| {
      var found := NeighbourFrom(done, os, i);
      if Matches(done[i].tile, os).NoMatch? {
        IsolatedIsNoMatch(done[i].tile, os);
        NeighbourFirst(done, os, i + 1);
        if found.Some? {
          var j :| i + 1 <= j < |done| && (forall k :: i + 1 <= k < j ==> Isolated(done[k].tile, os)) &&
            !Matches(done[j].tile, os).NoMatch? && found.value == Place(done[j], Matches(done[j].tile, os));
          assert forall k :: i <= k < j ==> Isolated(done[k].tile, os);
        }
      } else {
        assert found.value == Place(done[i], Matches(done[i].tile, os));
      }
    }
  }

  /** A neighbour found is one of the orientations, next to some placed tile. */
  lemma NeighbourAdjacent(done: seq<Placement>, os: seq<Tile>)
    requires forall k :: 0 <= k < |done| ==> Square(done[k].tile)
    requires forall k :: 0 <= k < |os| ==> Square(os[k])
    ensures NeighbourFrom(done, os, 0).Some? ==>
      NeighbourFrom(done, os, 0).value.tile in os && exists j :: 0 <= j < |done| && Adjacent(done[j], NeighbourFrom(done, os, 0).value)
  {
    NeighbourFirst(done, os, 0);
  }

  /** The inner `for` loop of `find_tile_orientations`: the first placed tile one of whose
      borders an orientation of `next` matches decides the new placement; `None` when no
      placed tile matches any orientation. */
  method FindNeighbour(next: Tile, done: seq<Placement>, cache: OrientationCache, ghost tiles: seq<Tile>)
      returns (change: Option<Placement>)
    requires 1 <= |tiles| && next in tiles[1..]
    requires forall i :: 0 <= i < |tiles| ==> Square(tiles[i])
    requires forall i :: 1 <= i < |tiles| ==> Asymmetric(tiles[i])
    requires DistinctIds(tiles) && CacheFaithful(cache.inner, tiles)
    requires forall k :: 0 <= k < |done| ==> Square(done[k].tile)
    modifies cache
    ensures CacheFaithful(cache.inner, tiles)
    ensures Square(next) && change == NeighbourFrom(done, Orientations(next), 0)
  {
    ghost var m :| 1 <= m < |tiles| && tiles[m] == next;
    assert Square(next);
    ghost var all := Orientations(next);
    change := None;
    var i := 0;
    while i < |done| && change.None?
      invariant 0 <= i <= |done|
      invariant CacheFaithful(cache.inner, tiles)
      invariant NeighbourFrom(done, all, 0) == if change.None? then NeighbourFrom(done, all, i) else change
    {
      var os := Lookup(next, cache, tiles, m);
      change := TryNeighbour(done[i], os);
      i := i + 1;
    }
  }

  /** One round of the inner loop: the match of `os` against the placed tile `p`, turned
      into a placement next to it. */
  method TryNeighbour(p: Placement, os: seq<Tile>) returns (change: Option<Placement>)
    requires Square(p.tile) && forall k :: 0 <= k < |os| ==> Square(os[k])
    ensures change.Some? ==> Adjacent(p, change.value) && change.value.tile in os
    ensures change.None? <==> Isolated(p.tile, os)
    ensures change == if Matches(p.tile, os).NoMatch? then None else Some(Place(p, Matches(p.tile, os)))
  {
    var found := Matches(p.tile, os);
    IsolatedIsNoMatch(p.tile, os);
    if found.NoMatch? {
      change := None;
    } else {
      change := Some(Place(p, found));
    }
  }

  /** No orientation in `os` matches any border of `r`. */
  predicate Isolated(r: Tile, os: seq<Tile>)
    requires Square(r) && forall k :: 0 <= k < |os| ==> Square(os[k])
    decreases |os|
  {
    |os| == 0 || (!Fits(r, os[0]) && Isolated(r, os[1..]))
  }

  /** `Isolated` is exactly the case in which `matches` finds nothing. */
  lemma {:induction false} IsolatedIsNoMatch(r: Tile, os: seq<Tile>)
    requires Square(r) && forall k :: 0 <= k < |os| ==> Square(os[k])
    ensures Isolated(r, os) <==> Matches(r, os).NoMatch?
    decreases |os|
  {
    if |os| > 0 {
      IsolatedIsNoMatch(r, os[1..]);
    }
  }

  /** The cache lookup in the inner loop yields the orientations of `next` itself, because
      the ids are distinct. */
  method Lookup(next: Tile, cache: OrientationCache, ghost tiles: seq<Tile>, ghost m: nat) returns (os: seq<Tile>)
    requires 1 <= m < |tiles| && tiles[m] == next
    requires forall i :: 0 <= i < |tiles| ==> Square(tiles[i])
    requires forall i :: 1 <= i < |tiles| ==> Asymmetric(tiles[i])
    requires DistinctIds(tiles) && CacheFaithful(cache.inner, tiles)
    modifies cache
    ensures CacheFaithful(cache.inner, tiles)
    ensures Square(next) && os == Orientations(next)
  {
    ghost var had := next.id in cache.inner;
    if had {
      ghost var j :| 0 <= j < |tiles| && tiles[j].id == next.id && Square(tiles[j]) && cache.inner[next.id] == Orientations(tiles[j]);
      assert j == m;
    }
    os := cache.GetOrInsert(next);
  }

  // ---------------------------------------------------------------------------------------
  // join_tiles

  /** Tiles that `join_tiles` can stitch: `k*k` square tiles of one width. */
  predicate Stitchable(tiles: seq<Tile>, k: nat) {
    && k >= 1 && |tiles| == k * k
    && forall i :: 0 <= i < |tiles| ==> Square(tiles[i]) && tiles[i].width == tiles[0].width
  }

  /** The chunk `join_tiles` copies for tile row `g`, local row `l` and tile column `c`:
      line `l` of tile `g*k + c`. */
  function Chunk(tiles: seq<Tile>, k: nat, g: nat, l: nat, c: nat): (piece: string)
    requires Stitchable(tiles, k) && g < k && l < tiles[0].width && c < k
    ensures |piece| == tiles[0].width
  {
    var tw := tiles[0].width;
    CellInGrid(g, c, k, k);
    MulMonoImp(l + 1, tw, tw);
    Distrib(l, 1, tw);
    tiles[g * k + c].data[l * tw .. l * tw + tw]
  }

  /** The first `c` chunks of local row `l` of tile row `g`, left to right. */
  function LinePrefix(tiles: seq<Tile>, k: nat, g: nat, l: nat, c: nat): (s: string)
    requires Stitchable(tiles, k) && g < k && l < tiles[0].width && c <= k
    ensures |s| == c * tiles[0].width
  {
    if c == 0 then ""
    else
      Distrib(c - 1, 1, tiles[0].width);
      LinePrefix(tiles, k, g, l, c - 1) + Chunk(tiles, k, g, l, c - 1)
  }

  /** The first `l` image lines of tile row `g`, each `k*w` chars. */
  function RowBlock(tiles: seq<Tile>, k: nat, g: nat, l: nat): (s: string)
    requires Stitchable(tiles, k) && g < k && l <= tiles[0].width
    ensures |s| == l * (k * tiles[0].width)
  {
    if l == 0 then ""
    else
      Distrib(l - 1, 1, k * tiles[0].width);
      RowBlock(tiles, k, g, l - 1) + LinePrefix(tiles, k, g, l - 1, k)
  }

  /** The image lines of the first `g` tile rows. */
  function ImagePrefix(tiles: seq<Tile>, k: nat, g: nat): (s: string)
    requires Stitchable(tiles, k) && g <= k
    ensures |s| == g * (tiles[0].width * (k * tiles[0].width))
  {
    if g == 0 then ""
    else
      Distrib(g - 1, 1, tiles[0].width * (k * tiles[0].width));
      ImagePrefix(tiles, k, g - 1) + RowBlock(tiles, k, g - 1, tiles[0].width)
  }

  /** The image `join_tiles` builds: `(k*w) x (k*w)`, id 0. */
  function Joined(tiles: seq<Tile>, k: nat): (image: Tile)
    requires Stitchable(tiles, k)
    ensures Square(image) && image.width == k * tiles[0].width && image.id == 0
  {
    var n := k * tiles[0].width;
    MulMonoImp(1, k, tiles[0].width);
    MulAssoc(k, tiles[0].width, n);
    Tile(0, ImagePrefix(tiles, k, k), n, n)
  }

  /** Char `j` of chunk `q` is char `q*w + j` of the line. */
  lemma {:induction false} LinePrefixChar(tiles: seq<Tile>, k: nat, g: nat, l: nat, c: nat, q: nat, j: nat)
    requires Stitchable(tiles, k) && g < k && l < tiles[0].width && q < c <= k && j < tiles[0].width
    ensures q * tiles[0].width + j < c * tiles[0].width
    ensures LinePrefix(tiles, k, g, l, c)[q * tiles[0].width + j] == Chunk(tiles, k, g, l, q)[j]
  {
    var init := LinePrefix(tiles, k, g, l, c - 1);
    var last := Chunk(tiles, k, g, l, c - 1);
    assert LinePrefix(tiles, k, g, l, c) == init + last;
    ConcatBlock(init, last, c - 1, q, j, tiles[0].width);
    if q < c - 1 {
      LinePrefixChar(tiles, k, g, l, c - 1, q, j);
    }
  }

  /** Char `col` of local row `l` is char `l*n + col` of the block, `n = k*w`. */
  lemma {:induction false} RowBlockChar(tiles: seq<Tile>, k: nat, g: nat, m: nat, l: nat, col: nat)
    requires Stitchable(tiles, k) && g < k && l < m <= tiles[0].width && col < k * tiles[0].width
    ensures l * (k * tiles[0].width) + col < m * (k * tiles[0].width)
    ensures RowBlock(tiles, k, g, m)[l * (k * tiles[0].width) + col] == LinePrefix(tiles, k, g, l, k)[col]
  {
    var init := RowBlock(tiles, k, g, m - 1);
    var last := LinePrefix(tiles, k, g, m - 1, k);
    assert RowBlock(tiles, k, g, m) == init + last;
    ConcatBlock(init, last, m - 1, l, col, k * tiles[0].width);
    if l < m - 1 {
      RowBlockChar(tiles, k, g, m - 1, l, col);
    }
  }

  /** Char `idx` of the block of tile row `g` is char `g*b + idx` of the image, where
      `b = w*k*w` is the size of a block. */
  lemma {:induction false} ImagePrefixChar(tiles: seq<Tile>, k: nat, h: nat, g: nat, idx: nat, b: nat)
    requires Stitchable(tiles, k) && g < h <= k && b == tiles[0].width * (k * tiles[0].width) && idx < b
    ensures g * b + idx < h * b
    ensures ImagePrefix(tiles, k, h)[g * b + idx] == RowBlock(tiles, k, g, tiles[0].width)[idx]
  {
    var init := ImagePrefix(tiles, k, h - 1);
    var last := RowBlock(tiles, k, h - 1, tiles[0].width);
    assert ImagePrefix(tiles, k, h) == init + last;
    ConcatBlock(init, last, h - 1, g, idx, b);
    if g < h - 1 {
      ImagePrefixChar(tiles, k, h - 1, g, idx, b);
    }
  }

  /** Index `g*b + idx` of a sequence made of `m` blocks of size `b` followed by one more
      falls in block `g`. */
  lemma ConcatBlock<T>(init: seq<T>, last: seq<T>, m: nat, g: nat, idx: nat, b: nat)
    requires |init| == m * b && g <= m && idx < b && idx < |last|
    ensures g * b + idx < |init| + |last|
    ensures g < m ==> g * b + idx < |init| && (init + last)[g * b + idx] == init[g * b + idx]
    ensures g == m ==> (init + last)[g * b + idx] == last[idx]
  {
    if g < m {
      CellInGrid(g, idx, b, m);
    }
  }

  /** The flat index of image cell (g*w + l, col) splits into tile row, local row and column. */
  lemma JoinedIndex(g: nat, l: nat, col: nat, w: nat, n: nat)
    ensures (g * w + l) * n + col == g * (w * n) + (l * n + col)
  {
    Distrib(g * w, l, n);
    MulAssoc(g, w, n);
  }

  /** Image line `g*w + l` is local row `l` of tile row `g`. */
  lemma JoinedLine(tiles: seq<Tile>, k: nat, g: nat, l: nat, col: nat)
    requires Stitchable(tiles, k) && g < k && l < tiles[0].width && col < k * tiles[0].width
    ensures g * tiles[0].width + l < k * tiles[0].width
    ensures Cell(Joined(tiles, k), g * tiles[0].width + l, col) == LinePrefix(tiles, k, g, l, k)[col]
  {
    var tw := tiles[0].width;
    var n := k * tw;
    var r := g * tw + l;
    CellInGrid(g, l, tw, k);
    CellInGrid(l, col, n, tw);
    var idx: nat := l * n + col;
    var block: nat := tw * n;
    var image := Joined(tiles, k);
    assert image.data == ImagePrefix(tiles, k, k) && image.width == n;
    CellInGrid(r, col, n, n);
    assert r * n + col == g * block + idx by { JoinedIndex(g, l, col, tw, n); }
    calc {
      Cell(image, r, col);
      image.data[r * n + col];
      ImagePrefix(tiles, k, k)[g * block + idx];
      { ImagePrefixChar(tiles, k, k, g, idx, block); }
      RowBlock(tiles, k, g, tw)[idx];
      { RowBlockChar(tiles, k, g, tw, l, col); }
      LinePrefix(tiles, k, g, l, k)[col];
    }
  }

  /** Image cell (g*w + l, q*w + j) is cell (l, j) of tile `g*k + q`: tile `i` of the input
      sits at tile row `i / k` and tile column `i % k` of the image. */
  lemma JoinedCell(tiles: seq<Tile>, k: nat, g: nat, l: nat, q: nat, j: nat)
    requires Stitchable(tiles, k) && g < k && q < k && l < tiles[0].width && j < tiles[0].width
    ensures g * tiles[0].width + l < k * tiles[0].width && q * tiles[0].width + j < k * tiles[0].width
    ensures g * k + q < |tiles| && Square(tiles[g * k + q]) && tiles[g * k + q].width == tiles[0].width
    ensures Cell(Joined(tiles, k), g * tiles[0].width + l, q * tiles[0].width + j) == Cell(tiles[g * k + q], l, j)
  {
    var tw := tiles[0].width;
    CellInGrid(q, j, tw, k);
    JoinedLine(tiles, k, g, l, q * tw + j);
    LinePrefixChar(tiles, k, g, l, k, q, j);
    ChunkCell(tiles, k, g, l, q, j);
  }

  /** Char `j` of a chunk is cell (l, j) of its tile. */
  lemma ChunkCell(tiles: seq<Tile>, k: nat, g: nat, l: nat, q: nat, j: nat)
    requires Stitchable(tiles, k) && g < k && q < k && l < tiles[0].width && j < tiles[0].width
    ensures g * k + q < |tiles| && Square(tiles[g * k + q]) && tiles[g * k + q].width == tiles[0].width
    ensures Chunk(tiles, k, g, l, q)[j] == Cell(tiles[g * k + q], l, j)
  {
    var tw := tiles[0].width;
    CellInGrid(g, q, k, k);
    var tile := tiles[g * k + q];
    assert Square(tile) && tile.width == tw;
    CellInGrid(l, j, tw, tw);
    MulMonoImp(l + 1, tw, tw);
    Distrib(l, 1, tw);
    assert Chunk(tiles, k, g, l, q) == tile.data[l * tw .. l * tw + tw];
    assert Cell(tile, l, j) == tile.data[l * tw + j];
  }

  /** `join_tiles` with `k` tiles per side (the source takes the float square root of the
      number of tiles). */
  method JoinTiles(tiles: seq<Tile>, k: nat) returns (joined: Tile)
    requires Stitchable(tiles, k)
    ensures joined == Joined(tiles, k)
  {
    var output := "";
    var tileWidth := tiles[0].width;
    for globalRow := 0 to k
      invariant output == ImagePrefix(tiles, k, globalRow)
    {
      output := AppendTileRow(output, tiles, k, globalRow);
    }
    joined := Tile(0, output, k * tileWidth, k * tileWidth);
  }

  /** The middle loop of `join_tiles`: the `w` image lines of tile row `g`. */
  method AppendTileRow(output: string, tiles: seq<Tile>, k: nat, g: nat) returns (extended: string)
    requires Stitchable(tiles, k) && g < k
    ensures extended == output + RowBlock(tiles, k, g, tiles[0].width)
  {
    var tileWidth := tiles[0].width;
    RowInTiles(tiles, k, g);
    var start := g * k;
    var finish := start + k;
    var tilesInRow := tiles[start..finish];
    extended := output;
    for localRow := 0 to tileWidth
      invariant extended == output + RowBlock(tiles, k, g, localRow)
    {
      extended := AppendLine(extended, tiles, k, tilesInRow, g, localRow);
      RowBlockStep(output, tiles, k, g, localRow);
    }
  }

  /** Tile row `g` is a slice of the tile list. */
  lemma RowInTiles(tiles: seq<Tile>, k: nat, g: nat)
    requires Stitchable(tiles, k) && g < k
    ensures g * k + k <= |tiles|
  {
    CellInGrid(g, k - 1, k, k);
  }

  /** Appending line `l` of tile row `g` extends the block of its first `l` lines by one. */
  lemma RowBlockStep(output: string, tiles: seq<Tile>, k: nat, g: nat, l: nat)
    requires Stitchable(tiles, k) && g < k && l < tiles[0].width
    ensures output + RowBlock(tiles, k, g, l + 1) == output + RowBlock(tiles, k, g, l) + LinePrefix(tiles, k, g, l, k)
  {
    AppendAssoc(output, RowBlock(tiles, k, g, l), LinePrefix(tiles, k, g, l, k));
  }

  /** The innermost loop of `join_tiles`: line `l` of every tile of tile row `g`, left to
      right, appended to `output`. */
  method AppendLine(output: string, tiles: seq<Tile>, k: nat, tilesInRow: seq<Tile>, g: nat, l: nat) returns (extended: string)
    requires Stitchable(tiles, k) && g < k && l < tiles[0].width
    requires g * k + k <= |tiles| && tilesInRow == tiles[g * k .. g * k + k]
    ensures extended == output + LinePrefix(tiles, k, g, l, k)
  {
    var tileWidth := tiles[0].width;
    extended := output;
    for c := 0 to k
      invariant extended == output + LinePrefix(tiles, k, g, l, c)
    {
      var tile := tilesInRow[c];
      var start := l * tileWidth;
      var finish := start + tileWidth;
      ChunkOfRow(tiles, k, tilesInRow, g, l, c, start, finish);
      AppendAssoc(output, LinePrefix(tiles, k, g, l, c), Chunk(tiles, k, g, l, c));
      extended := extended + tile.data[start..finish];
    }
  }

  lemma AppendAssoc(a: string, b: string, c: string)
    ensures (a + b) + c == a + (b + c)
  {
  }

  /** Line `l` of tile `c` of the row's slice is the chunk the specification appends next. */
  lemma ChunkOfRow(tiles: seq<Tile>, k: nat, tilesInRow: seq<Tile>, g: nat, l: nat, c: nat, start: int, finish: int)
    requires Stitchable(tiles, k) && g < k && l < tiles[0].width && c < k
    requires g * k + k <= |tiles| && tilesInRow == tiles[g * k .. g * k + k]
    requires start == l * tiles[0].width && finish == start + tiles[0].width
    ensures 0 <= start <= finish <= |tilesInRow[c].data|
    ensures tilesInRow[c].data[start..finish] == Chunk(tiles, k, g, l, c)
    ensures LinePrefix(tiles, k, g, l, c + 1) == LinePrefix(tiles, k, g, l, c) + Chunk(tiles, k, g, l, c)
  {
    var tw := tiles[0].width;
    assert tilesInRow[c] == tiles[g * k + c];
    MulMonoImp(0, l, tw);
    MulMonoImp(l + 1, tw, tw);
    Distrib(l, 1, tw);
  }

  // ---------------------------------------------------------------------------------------
  // part1: the corner product

  function X(p: Placement): int { p.x }
  function Y(p: Placement): int { p.y }

  /** The minimum of a coordinate over the placements, seeded with 0. */
  function MinOf(ps: seq<Placement>, f: Placement -> int): (m: int)
    ensures m <= 0 && forall i :: 0 <= i < |ps| ==> m <= f(ps[i])
    ensures m == 0 || exists i :: 0 <= i < |ps| && f(ps[i]) == m
  {
    if |ps| == 0 then 0
    else
      var rest := MinOf(ps[..|ps| - 1], f);
      assert forall i :: 0 <= i < |ps| - 1 ==> ps[..|ps| - 1][i] == ps[i];
      if f(ps[|ps| - 1]) < rest then f(ps[|ps| - 1]) else rest
  }

  /** Extending the prefix by one placement updates both extrema as `min` and `max` do. */
  lemma ExtremaStep(ps: seq<Placement>, i: nat, f: Placement -> int)
    requires i < |ps|
    ensures MinOf(ps[..i + 1], f) == if f(ps[i]) < MinOf(ps[..i], f) then f(ps[i]) else MinOf(ps[..i], f)
    ensures MaxOf(ps[..i + 1], f) == if f(ps[i]) > MaxOf(ps[..i], f) then f(ps[i]) else MaxOf(ps[..i], f)
  {
    assert ps[..i + 1][..i] == ps[..i];
    assert ps[..i + 1][i] == ps[i];
  }

  /** The maximum of a coordinate over the placements, seeded with 0. */
  function MaxOf(ps: seq<Placement>, f: Placement -> int): (m: int)
    ensures m >= 0 && forall i :: 0 <= i < |ps| ==> f(ps[i]) <= m
    ensures m == 0 || exists i :: 0 <= i < |ps| && f(ps[i]) == m
  {
    if |ps| == 0 then 0
    else
      var rest := MaxOf(ps[..|ps| - 1], f);
      assert forall i :: 0 <= i < |ps| - 1 ==> ps[..|ps| - 1][i] == ps[i];
      if f(ps[|ps| - 1]) > rest then f(ps[|ps| - 1]) else rest
  }

  /** The loop of `part1` that computes the four bounds. */
  method CornerBounds(ps: seq<Placement>) returns (minX: int, minY: int, maxX: int, maxY: int)
    ensures minX == MinOf(ps, X) && minY == MinOf(ps, Y) && maxX == MaxOf(ps, X) && maxY == MaxOf(ps, Y)
  {
    minX, minY, maxX, maxY := 0, 0, 0, 0;
    for i := 0 to |ps|
      invariant minX == MinOf(ps[..i], X) && minY == MinOf(ps[..i], Y)
      invariant maxX == MaxOf(ps[..i], X) && maxY == MaxOf(ps[..i], Y)
    {
      ExtremaStep(ps, i, X);
      ExtremaStep(ps, i, Y);
      minX := if ps[i].x < minX then ps[i].x else minX;
      minY := if ps[i].y < minY then ps[i].y else minY;
      maxX := if ps[i].x > maxX then ps[i].x else maxX;
      maxY := if ps[i].y > maxY then ps[i].y else maxY;
    }
    assert ps[..|ps|] == ps;
  }

  predicate AtCorner(p: Placement, minX: int, maxX: int, minY: int, maxY: int) {
    (p.x == minX || p.x == maxX) && (p.y == minY || p.y == maxY)
  }

  /** The product of the ids of the placements at the corners. */
  function CornerProduct(ps: seq<Placement>, minX: int, maxX: int, minY: int, maxY: int): nat {
    if |ps| == 0 then 1
    else
      var last := ps[|ps| - 1];
      CornerProduct(ps[..|ps| - 1], minX, maxX, minY, maxY) * CornerFactor(last, minX, maxX, minY, maxY)
  }

  lemma {:induction false} CornerProductAppend(ps: seq<Placement>, qs: seq<Placement>, minX: int, maxX: int, minY: int, maxY: int)
    ensures CornerProduct(ps + qs, minX, maxX, minY, maxY)
         == CornerProduct(ps, minX, maxX, minY, maxY) * CornerProduct(qs, minX, maxX, minY, maxY)
    decreases |qs|
  {
    if |qs| > 0 {
      var n := |qs| - 1;
      var last := qs[n];
      var factor := CornerFactor(last, minX, maxX, minY, maxY);
      assert (ps + qs)[..|ps + qs| - 1] == ps + qs[..n];
      assert (ps + qs)[|ps + qs| - 1] == last;
      var a := CornerProduct(ps, minX, maxX, minY, maxY);
      var b := CornerProduct(qs[..n], minX, maxX, minY, maxY);
      assert CornerProduct(ps + qs, minX, maxX, minY, maxY) == CornerProduct(ps + qs[..n], minX, maxX, minY, maxY) * factor;
      assert CornerProduct(qs, minX, maxX, minY, maxY) == b * factor;
      CornerProductAppend(ps, qs[..n], minX, maxX, minY, maxY);
      MulAssoc(a, b, factor);
    } else {
      assert ps + qs == ps;
    }
  }

  /** The factor a placement contributes to the corner product. */
  function CornerFactor(p: Placement, minX: int, maxX: int, minY: int, maxY: int): nat {
    if AtCorner(p, minX, maxX, minY, maxY) then p.tile.id else 1
  }

  /** Taking out the placement at `i` divides out its factor. */
  lemma CornerProductRemove(qs: seq<Placement>, i: nat, minX: int, maxX: int, minY: int, maxY: int)
    requires i < |qs|
    ensures CornerProduct(qs, minX, maxX, minY, maxY)
         == CornerProduct(qs[..i] + qs[i + 1..], minX, maxX, minY, maxY) * CornerFactor(qs[i], minX, maxX, minY, maxY)
  {
    var x := qs[i];
    assert qs == (qs[..i] + [x]) + qs[i + 1..];
    CornerProductAppend(qs[..i], qs[i + 1..], minX, maxX, minY, maxY);
    CornerProductAppend(qs[..i] + [x], qs[i + 1..], minX, maxX, minY, maxY);
    assert (qs[..i] + [x])[..i] == qs[..i];
    var factor := CornerFactor(x, minX, maxX, minY, maxY);
    var before := CornerProduct(qs[..i], minX, maxX, minY, maxY);
    var after := CornerProduct(qs[i + 1..], minX, maxX, minY, maxY);
    assert CornerProduct(qs[..i] + [x], minX, maxX, minY, maxY) == before * factor;
    MulAssoc(before, factor, after);
    MulAssoc(before, after, factor);
  }

  /** Removing one occurrence of `x` from both sides keeps two sequences permutations. */
  lemma MultisetRemove<T>(ps: seq<T>, qs: seq<T>, i: nat)
    requires |ps| > 0 && i < |qs| && qs[i] == ps[|ps| - 1] && multiset(ps) == multiset(qs)
    ensures multiset(ps[..|ps| - 1]) == multiset(qs[..i] + qs[i + 1..])
  {
    var n := |ps| - 1;
    var x := ps[n];
    var rest := qs[..i] + qs[i + 1..];
    assert ps == ps[..n] + [x];
    assert qs == qs[..i] + [x] + qs[i + 1..];
    assert multiset(ps[..n]) + multiset{x} == multiset(rest) + multiset{x};
    assert forall y :: multiset(ps[..n])[y] == (multiset(ps[..n]) + multiset{x})[y] - multiset{x}[y] == multiset(rest)[y];
  }

  /** The corner product does not depend on the order of the placements. */
  lemma {:induction false} CornerProductPermutation(ps: seq<Placement>, qs: seq<Placement>, minX: int, maxX: int, minY: int, maxY: int)
    requires multiset(ps) == multiset(qs)
    ensures CornerProduct(ps, minX, maxX, minY, maxY) == CornerProduct(qs, minX, maxX, minY, maxY)
    decreases |ps|
  {
    if |ps| == 0 {
      assert |qs| == |multiset(qs)| == 0;
    } else {
      var n := |ps| - 1;
      var x := ps[n];
      assert x in multiset(qs) by { assert ps == ps[..n] + [x]; }
      var i :| 0 <= i < |qs| && qs[i] == x;
      MultisetRemove(ps, qs, i);
      CornerProductPermutation(ps[..n], qs[..i] + qs[i + 1..], minX, maxX, minY, maxY);
      CornerProductRemove(qs, i, minX, maxX, minY, maxY);
    }
  }

  function CornerProductOf(ps: seq<Placement>): nat {
    CornerProduct(ps, MinOf(ps, X), MaxOf(ps, X), MinOf(ps, Y), MaxOf(ps, Y))
  }

  /** `part1`: the product of the corner ids of the assembled picture (`Err` when `fuel`
      runs out before every tile is placed). */
  method Part1(tiles: seq<Tile>, fuel: nat) returns (r: Result<nat>)
    requires forall i :: 0 <= i < |tiles| ==> Square(tiles[i])
    requires forall i :: 1 <= i < |tiles| ==> Asymmetric(tiles[i])
    requires DistinctIds(tiles)
    ensures r.Ok? ==> exists ps :: Solved(tiles, ps) && r.value == CornerProductOf(ps)
  {
    var placed := FindTileOrientations(tiles, fuel);
    if placed.None? {
      return Err;
    }
    var ps := placed.value;
    var minX, minY, maxX, maxY := CornerBounds(ps);
    r := Ok(CornerProduct(ps, minX, maxX, minY, maxY));
  }

  // ---------------------------------------------------------------------------------------
  // part2: the roughness score

  /** The per-tile preparation in `part2`: flip, rotate twice, trim. */
  function Prepare(t: Tile): (u: Tile)
    requires Square(t) && t.width > 2
    ensures Square(u) && u.width == t.width - 2 && u.id == t.id
  {
    Trim(Rotate(Rotate(Flip(t))))
  }

  /** For widths up to 10 a prepared tile is the inner part of the tile mirrored top to bottom. */
  lemma PrepareCell(t: Tile, r: nat, c: nat)
    requires Square(t) && 2 < t.width <= 10 && r < t.width - 2 && c < t.width - 2
    ensures Cell(Prepare(t), r, c) == Cell(t, t.width - 2 - r, c + 1)
  {
    FlipRotateRotate(t, r + 1, c + 1);
  }

  /** Every tile of a solved assembly is an orientation of an input tile, with its width. */
  lemma SolvedWidths(tiles: seq<Tile>, ps: seq<Placement>, w: nat)
    requires Solved(tiles, ps) && forall i :: 0 <= i < |tiles| ==> tiles[i].width == w
    ensures forall i :: 0 <= i < |ps| ==> Square(ps[i].tile) && ps[i].tile.width == w
  {
    var placed, origin :| Assembly(tiles, placed, origin) && multiset(ps) == multiset(placed);
    forall i | 0 <= i < |ps| ensures Square(ps[i].tile) && ps[i].tile.width == w {
      assert ps[i] in multiset(placed);
      var j :| 0 <= j < |placed| && placed[j] == ps[i];
      OrientedSquare(placed, origin, j);
      assert origin[j] in multiset(tiles);
    }
  }

  /** The stitched image of the prepared tiles, in the order of the placements. */
  function Image(ps: seq<Placement>, k: nat): Tile
    requires k >= 1 && |ps| == k * k
    requires forall i :: 0 <= i < |ps| ==> Square(ps[i].tile) && ps[i].tile.width == 10
  {
    Joined(PrepareAll(ps), k)
  }

  /** The placed tiles, each flipped, turned twice and trimmed, in placement order. */
  function PrepareAll(ps: seq<Placement>): (prepared: seq<Tile>)
    requires forall i :: 0 <= i < |ps| ==> Square(ps[i].tile) && ps[i].tile.width == 10
    ensures |prepared| == |ps|
    ensures forall i :: 0 <= i < |ps| ==> prepared[i] == Prepare(ps[i].tile) && Square(prepared[i]) && prepared[i].width == 8
  {
    seq(|ps|, i requires 0 <= i < |ps| => Prepare(ps[i].tile))
  }

  /** `b` is where `max_by` stops: a maximal count, and no later count is as large. */
  predicate LastMaximum(counts: seq<nat>, b: nat) {
    && b < |counts|
    && (forall i :: 0 <= i < |counts| ==> counts[i] <= counts[b])
    && (forall i :: b < i < |counts| ==> counts[i] < counts[b])
  }

  /** `max_by` on the monster counts: on ties the last maximal element wins. */
  method LastMax(counts: seq<nat>) returns (b: nat)
    requires |counts| > 0
    ensures LastMaximum(counts, b)
  {
    b := 0;
    for i := 1 to |counts|
      invariant b < i && forall j :: 0 <= j < i ==> counts[j] <= counts[b]
      invariant forall j :: b < j < i ==> counts[j] < counts[b]
    {
      if counts[i] >= counts[b] {
        b := i;
      }
    }
  }

  function CountHashes(s: string): nat {
    multiset(s)['#']
  }

  function MonsterCounts(os: seq<Tile>): (counts: seq<nat>)
    requires forall i :: 0 <= i < |os| ==> os[i].width > 0
    ensures |counts| == |os|
  {
    seq(|os|, i requires 0 <= i < |os| => CountSeaMonsters(os[i]))
  }

  /** `part2`: in the orientation of the image with the most sea monsters (the last one on
      ties), the number of '#' minus 15 per monster. `Err` when `fuel` runs out, or where
      `orientations` would fail its assertion on the image. */
  method Part2(tiles: seq<Tile>, k: nat, fuel: nat) returns (r: Result<int>)
    requires forall i :: 0 <= i < |tiles| ==> Square(tiles[i]) && tiles[i].width == 10
    requires forall i :: 1 <= i < |tiles| ==> Asymmetric(tiles[i])
    requires DistinctIds(tiles) && k >= 1 && |tiles| == k * k
    ensures r.Ok? ==> exists ps :: Solved(tiles, ps) && SolvedImage(ps, k, r.value)
  {
    var placed := FindTileOrientations(tiles, fuel);
    if placed.None? {
      return Err;
    }
    var ps := placed.value;
    SolvedWidths(tiles, ps, 10);
    var prepared := PrepareAll(ps);
    assert Stitchable(prepared, k);
    var joined := JoinTiles(prepared, k);
    assert joined == Image(ps, k);
    r := Score(joined);
    assert r.Ok? ==> SolvedImage(ps, k, r.value);
  }

  /** The last part of `part2`: the orientation of the image with the most sea monsters and
      its rough-water count; `Err` where the source's assertion on eight distinct orientations
      would fail. */
  method Score(joined: Tile) returns (r: Result<int>)
    requires Square(joined)
    ensures r.Ok? <==> Asymmetric(joined)
    ensures r.Ok? ==> RoughWater(Orientations(joined), r.value)
  {
    if !Asymmetric(joined) {
      return Err;
    }
    var os := ComputeOrientations(joined);
    var counts := MonsterCounts(os);
    var b := LastMax(counts);
    r := Ok(CountHashes(os[b].data) - 15 * counts[b]);
    assert RoughWater(os, r.value);
  }

  /** `score` is the roughness of the image for placements `ps`. */
  ghost predicate SolvedImage(ps: seq<Placement>, k: nat, score: int) {
    && k >= 1 && |ps| == k * k
    && (forall i :: 0 <= i < |ps| ==> Square(ps[i].tile) && ps[i].tile.width == 10)
    && Square(Image(ps, k)) && Asymmetric(Image(ps, k))
    && RoughWater(Orientations(Image(ps, k)), score)
  }

  /** `score` is the rough-water count of the last orientation with the most sea monsters:
      its `#` chars less 15 for each monster. */
  ghost predicate RoughWater(os: seq<Tile>, score: int)
    requires forall i :: 0 <= i < |os| ==> os[i].width > 0
  {
    exists b: nat :: && LastMaximum(MonsterCounts(os), b) && b < |os|
                     && score == CountHashes(os[b].data) - 15 * MonsterCounts(os)[b]
  }
}

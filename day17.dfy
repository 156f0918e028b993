/** Day 17: Conway cubes. An unbounded grid of cubes in three or four dimensions evolves for six
    cycles: an active cube stays active with two or three active neighbours, an inactive cube
    becomes active with exactly three. */
module Day17 {
  import opened Text

  /** A cube's coordinates `(x, y, z, w)`; `w` stays 0 in three dimensions. */
  type Pos = (int, int, int, int)

  const Origin: Pos := (0, 0, 0, 0)

  function Add(p: Pos, d: Pos): Pos {
    (p.0 + d.0, p.1 + d.1, p.2 + d.2, p.3 + d.3)
  }

  function Neg(d: Pos): Pos {
    (-d.0, -d.1, -d.2, -d.3)
  }

  /** The grid: the active cubes, each stored with the value `true`. The second map is never
      written or read. */
  datatype Grid = Grid(active: map<Pos, bool>, inactive: map<Pos, bool>)

  /** Every stored value is `true`, as every insertion of the source stores. */
  predicate AllTrue(m: map<Pos, bool>) {
    forall p :: p in m ==> m[p]
  }

  /** The map that stores `true` for exactly the cubes of `s`. */
  function Marked(s: set<Pos>): map<Pos, bool> {
    map p | p in s :: true
  }

  /** `get_status`: the stored value, and `false` for a cube missing from the map. */
  function GetStatus(grid: Grid, p: Pos): (b: bool)
    ensures b <==> p in grid.active && grid.active[p]
  {
    if p in grid.active then grid.active[p] else false
  }

  // ---------------------------------------------------------------------------------------------
  // The neighbour offsets, in the order of the four nested loops of `neighbours`.

  predicate Unit(v: int) {
    -1 <= v <= 1
  }

  /** The `-1..=1` range of the `dx`, `dy` and `dz` loops. */
  function DeltaRange(): seq<int> {
    seq(3, i => i - 1)
  }

  /** `dw_range`: `-1..=1` in four dimensions, `0..=0` in three. */
  function WRange(is4d: bool): seq<int> {
    var n := if is4d then 3 else 1;
    seq(n, i => i - n / 2)
  }

  lemma DeltaRangeMembers()
    ensures |DeltaRange()| == 3
    ensures forall k :: 0 <= k < 3 ==> DeltaRange()[k] == k - 1
    ensures Distinct(DeltaRange())
    ensures forall v :: v in DeltaRange() <==> Unit(v)
  {
    var rs := DeltaRange();
    forall v | Unit(v) ensures v in rs {
      assert rs[v + 1] == v;
    }
  }

  lemma WRangeMembers(is4d: bool)
    ensures |WRange(is4d)| == if is4d then 3 else 1
    ensures Distinct(WRange(is4d))
    ensures forall v :: v in WRange(is4d) <==> if is4d then Unit(v) else v == 0
  {
    var ws := WRange(is4d);
    forall v | (if is4d then Unit(v) else v == 0) ensures v in ws {
      var n := if is4d then 3 else 1;
      assert ws[v + n / 2] == v;
    }
  }

  /** One pass of the innermost loop body: the offset is pushed unless it is all zero. */
  function Keep(d: Pos): seq<Pos> {
    if d == Origin then [] else [d]
  }

  /** The offsets the `dw` loop pushes for the first `l` values of `ws`. */
  function PushW(dx: int, dy: int, dz: int, ws: seq<int>, l: nat): seq<Pos>
    requires l <= |ws|
  {
    if l == 0 then [] else PushW(dx, dy, dz, ws, l - 1) + Keep((dx, dy, dz, ws[l - 1]))
  }

  /** The offsets the `dz` loop pushes for the first `k` values of `rs`. */
  function PushZ(rs: seq<int>, dx: int, dy: int, ws: seq<int>, k: nat): seq<Pos>
    requires k <= |rs|
  {
    if k == 0 then [] else PushZ(rs, dx, dy, ws, k - 1) + PushW(dx, dy, rs[k - 1], ws, |ws|)
  }

  /** The offsets the `dy` loop pushes for the first `k` values of `rs`. */
  function PushY(rs: seq<int>, dx: int, ws: seq<int>, k: nat): seq<Pos>
    requires k <= |rs|
  {
    if k == 0 then [] else PushY(rs, dx, ws, k - 1) + PushZ(rs, dx, rs[k - 1], ws, |rs|)
  }

  /** The offsets the `dx` loop pushes for the first `k` values of `rs`. */
  function PushX(rs: seq<int>, ws: seq<int>, k: nat): seq<Pos>
    requires k <= |rs|
  {
    if k == 0 then [] else PushX(rs, ws, k - 1) + PushY(rs, rs[k - 1], ws, |rs|)
  }

  /** All offsets, in push order. */
  function Offsets(is4d: bool): seq<Pos> {
    PushX(DeltaRange(), WRange(is4d), |DeltaRange()|)
  }

  /** The values in the first `k` elements: those in the first `k - 1`, and the `k`-th. */
  lemma InPrefix(s: seq<int>, k: nat, v: int)
    requires 0 < k <= |s|
    ensures v in s[..k] <==> v in s[..k - 1] || v == s[k - 1]
  {
    assert s[..k] == s[..k - 1] + [s[k - 1]];
  }

  lemma InConcat(a: seq<Pos>, b: seq<Pos>, d: Pos)
    ensures d in a + b <==> d in a || d in b
  {
  }

  lemma {:induction false} PushWHas(dx: int, dy: int, dz: int, ws: seq<int>, l: nat, d: Pos)
    requires l <= |ws|
    ensures d in PushW(dx, dy, dz, ws, l) <==> d.0 == dx && d.1 == dy && d.2 == dz && d.3 in ws[..l] && d != Origin
  {
    if l > 0 {
      PushWHas(dx, dy, dz, ws, l - 1, d);
      InPrefix(ws, l, d.3);
    }
  }

  /** The three `dz` passes of the `dz` loop, written out. */
  lemma ZUnfold(dx: int, dy: int, ws: seq<int>)
    ensures PushZ(DeltaRange(), dx, dy, ws, 3)
         == PushW(dx, dy, -1, ws, |ws|) + PushW(dx, dy, 0, ws, |ws|) + PushW(dx, dy, 1, ws, |ws|)
  {
    ZStep(dx, dy, ws, 1);
    ZStep(dx, dy, ws, 2);
    ZStep(dx, dy, ws, 3);
    assert [] + PushW(dx, dy, -1, ws, |ws|) == PushW(dx, dy, -1, ws, |ws|);
  }

  lemma ZStep(dx: int, dy: int, ws: seq<int>, k: nat)
    requires 0 < k <= 3
    ensures PushZ(DeltaRange(), dx, dy, ws, k) == PushZ(DeltaRange(), dx, dy, ws, k - 1) + PushW(dx, dy, k - 2, ws, |ws|)
  {
    DeltaRangeMembers();
  }

  /** The three `dy` passes of the `dy` loop, written out. */
  lemma YUnfold(dx: int, ws: seq<int>)
    ensures PushY(DeltaRange(), dx, ws, 3)
         == PushZ(DeltaRange(), dx, -1, ws, 3) + PushZ(DeltaRange(), dx, 0, ws, 3) + PushZ(DeltaRange(), dx, 1, ws, 3)
  {
    YStep(dx, ws, 1);
    YStep(dx, ws, 2);
    YStep(dx, ws, 3);
    assert [] + PushZ(DeltaRange(), dx, -1, ws, 3) == PushZ(DeltaRange(), dx, -1, ws, 3);
  }

  lemma YStep(dx: int, ws: seq<int>, k: nat)
    requires 0 < k <= 3
    ensures PushY(DeltaRange(), dx, ws, k) == PushY(DeltaRange(), dx, ws, k - 1) + PushZ(DeltaRange(), dx, k - 2, ws, 3)
  {
    DeltaRangeMembers();
  }

  /** The three `dx` passes of the outermost loop, written out. */
  lemma XUnfold(is4d: bool)
    ensures Offsets(is4d)
         == PushY(DeltaRange(), -1, WRange(is4d), 3) + PushY(DeltaRange(), 0, WRange(is4d), 3)
            + PushY(DeltaRange(), 1, WRange(is4d), 3)
  {
    var ws := WRange(is4d);
    DeltaRangeMembers();
    XStep(ws, 1);
    XStep(ws, 2);
    XStep(ws, 3);
    assert [] + PushY(DeltaRange(), -1, ws, 3) == PushY(DeltaRange(), -1, ws, 3);
  }

  lemma XStep(ws: seq<int>, k: nat)
    requires 0 < k <= 3
    ensures PushX(DeltaRange(), ws, k) == PushX(DeltaRange(), ws, k - 1) + PushY(DeltaRange(), k - 2, ws, 3)
  {
    DeltaRangeMembers();
  }

  /** A value of `dw_range`. */
  predicate InW(v: int, is4d: bool) {
    if is4d then Unit(v) else v == 0
  }

  lemma WBlockHas(dx: int, dy: int, dz: int, is4d: bool, d: Pos)
    ensures d in PushW(dx, dy, dz, WRange(is4d), |WRange(is4d)|)
        <==> d.0 == dx && d.1 == dy && d.2 == dz && InW(d.3, is4d) && d != Origin
  {
    var ws := WRange(is4d);
    PushWHas(dx, dy, dz, ws, |ws|, d);
    assert ws[..|ws|] == ws;
    WRangeMembers(is4d);
  }

  lemma ZBlockHas(dx: int, dy: int, is4d: bool, d: Pos)
    ensures d in PushZ(DeltaRange(), dx, dy, WRange(is4d), 3)
        <==> d.0 == dx && d.1 == dy && Unit(d.2) && InW(d.3, is4d) && d != Origin
  {
    var ws := WRange(is4d);
    ZUnfold(dx, dy, ws);
    var a, b, c := PushW(dx, dy, -1, ws, |ws|), PushW(dx, dy, 0, ws, |ws|), PushW(dx, dy, 1, ws, |ws|);
    InConcat(a + b, c, d);
    InConcat(a, b, d);
    WBlockHas(dx, dy, -1, is4d, d);
    WBlockHas(dx, dy, 0, is4d, d);
    WBlockHas(dx, dy, 1, is4d, d);
  }

  lemma YBlockHas(dx: int, is4d: bool, d: Pos)
    ensures d in PushY(DeltaRange(), dx, WRange(is4d), 3)
        <==> d.0 == dx && Unit(d.1) && Unit(d.2) && InW(d.3, is4d) && d != Origin
  {
    var rs, ws := DeltaRange(), WRange(is4d);
    YUnfold(dx, ws);
    var a, b, c := PushZ(rs, dx, -1, ws, 3), PushZ(rs, dx, 0, ws, 3), PushZ(rs, dx, 1, ws, 3);
    InConcat(a + b, c, d);
    InConcat(a, b, d);
    ZBlockHas(dx, -1, is4d, d);
    ZBlockHas(dx, 0, is4d, d);
    ZBlockHas(dx, 1, is4d, d);
  }

  /** A non-zero vector with every coordinate in -1..=1, the fourth one 0 in three dimensions. */
  predicate IsOffset(d: Pos, is4d: bool) {
    Unit(d.0) && Unit(d.1) && Unit(d.2) && InW(d.3, is4d) && d != Origin
  }

  lemma OffsetHas(is4d: bool, d: Pos)
    ensures d in Offsets(is4d) <==> IsOffset(d, is4d)
  {
    var rs, ws := DeltaRange(), WRange(is4d);
    XUnfold(is4d);
    var a, b, c := PushY(rs, -1, ws, 3), PushY(rs, 0, ws, 3), PushY(rs, 1, ws, 3);
    InConcat(a + b, c, d);
    InConcat(a, b, d);
    YBlockHas(-1, is4d, d);
    YBlockHas(0, is4d, d);
    YBlockHas(1, is4d, d);
  }

  /** The offsets are exactly the non-zero vectors of the cube. */
  lemma OffsetsMembers(is4d: bool)
    ensures forall d :: d in Offsets(is4d) <==> IsOffset(d, is4d)
  {
    forall d ensures d in Offsets(is4d) <==> IsOffset(d, is4d) {
      OffsetHas(is4d, d);
    }
  }

  /** No element occurs twice. */
  predicate Distinct<T(==)>(s: seq<T>) {
    forall i, j :: 0 <= i < j < |s| ==> s[i] != s[j]
  }

  /** No element of `a` is in `b`. */
  predicate Disjoint<T(==)>(a: seq<T>, b: seq<T>) {
    forall x :: x in a ==> x !in b
  }

  lemma DistinctAppend<T>(a: seq<T>, b: seq<T>)
    requires Distinct(a) && Distinct(b) && Disjoint(a, b)
    ensures Distinct(a + b)
  {
    forall i, j | 0 <= i < j < |a + b| ensures (a + b)[i] != (a + b)[j] {
      if j >= |a| && i < |a| {
        assert (a + b)[i] in a && (a + b)[j] == b[j - |a|];
      }
    }
  }

  lemma DistinctLast<T>(s: seq<T>, k: nat)
    requires Distinct(s) && 0 < k <= |s|
    ensures s[k - 1] !in s[..k - 1]
  {
  }

  lemma {:induction false} PushWDistinct(dx: int, dy: int, dz: int, ws: seq<int>, l: nat)
    requires l <= |ws| && Distinct(ws)
    ensures Distinct(PushW(dx, dy, dz, ws, l))
  {
    if l > 0 {
      var a, b := PushW(dx, dy, dz, ws, l - 1), Keep((dx, dy, dz, ws[l - 1]));
      PushWDistinct(dx, dy, dz, ws, l - 1);
      assert Disjoint(a, b) by {
        DistinctLast(ws, l);
        forall x | x in a ensures x !in b {
          PushWHas(dx, dy, dz, ws, l - 1, x);
          assert x.3 in ws[..l - 1];
        }
      }
      DistinctAppend(a, b);
    }
  }

  /** Three blocks, each without repetition, that share no element. */
  lemma DistinctThree<T>(a: seq<T>, b: seq<T>, c: seq<T>)
    requires Distinct(a) && Distinct(b) && Distinct(c)
    requires Disjoint(a, b) && Disjoint(a, c) && Disjoint(b, c)
    ensures Distinct(a + b + c)
  {
    DistinctAppend(a, b);
    forall x | x in a + b ensures x !in c {
      assert x in a || x in b;
    }
    DistinctAppend(a + b, c);
  }

  lemma ZBlockDistinct(dx: int, dy: int, is4d: bool)
    ensures Distinct(PushZ(DeltaRange(), dx, dy, WRange(is4d), 3))
  {
    var ws := WRange(is4d);
    WRangeMembers(is4d);
    ZUnfold(dx, dy, ws);
    var a, b, c := PushW(dx, dy, -1, ws, |ws|), PushW(dx, dy, 0, ws, |ws|), PushW(dx, dy, 1, ws, |ws|);
    PushWDistinct(dx, dy, -1, ws, |ws|);
    PushWDistinct(dx, dy, 0, ws, |ws|);
    PushWDistinct(dx, dy, 1, ws, |ws|);
    forall x | x in a ensures x !in b && x !in c {
      WBlockHas(dx, dy, -1, is4d, x);
      WBlockHas(dx, dy, 0, is4d, x);
      WBlockHas(dx, dy, 1, is4d, x);
    }
    forall x | x in b ensures x !in c {
      WBlockHas(dx, dy, 0, is4d, x);
      WBlockHas(dx, dy, 1, is4d, x);
    }
    DistinctThree(a, b, c);
  }

  lemma YBlockDistinct(dx: int, is4d: bool)
    ensures Distinct(PushY(DeltaRange(), dx, WRange(is4d), 3))
  {
    var rs, ws := DeltaRange(), WRange(is4d);
    YUnfold(dx, ws);
    var a, b, c := PushZ(rs, dx, -1, ws, 3), PushZ(rs, dx, 0, ws, 3), PushZ(rs, dx, 1, ws, 3);
    ZBlockDistinct(dx, -1, is4d);
    ZBlockDistinct(dx, 0, is4d);
    ZBlockDistinct(dx, 1, is4d);
    forall x | x in a ensures x !in b && x !in c {
      ZBlockHas(dx, -1, is4d, x);
      ZBlockHas(dx, 0, is4d, x);
      ZBlockHas(dx, 1, is4d, x);
    }
    forall x | x in b ensures x !in c {
      ZBlockHas(dx, 0, is4d, x);
      ZBlockHas(dx, 1, is4d, x);
    }
    DistinctThree(a, b, c);
  }

  lemma OffsetsDistinct(is4d: bool)
    ensures Distinct(Offsets(is4d))
  {
    var rs, ws := DeltaRange(), WRange(is4d);
    XUnfold(is4d);
    var a, b, c := PushY(rs, -1, ws, 3), PushY(rs, 0, ws, 3), PushY(rs, 1, ws, 3);
    YBlockDistinct(-1, is4d);
    YBlockDistinct(0, is4d);
    YBlockDistinct(1, is4d);
    forall x | x in a ensures x !in b && x !in c {
      YBlockHas(-1, is4d, x);
      YBlockHas(0, is4d, x);
      YBlockHas(1, is4d, x);
    }
    forall x | x in b ensures x !in c {
      YBlockHas(0, is4d, x);
      YBlockHas(1, is4d, x);
    }
    DistinctThree(a, b, c);
  }

  /** `1` if `0` is among the first `k` values of `rs`, else `0`. */
  function ZeroIn(rs: seq<int>, k: nat): nat
    requires k <= |rs|
  {
    if 0 in rs[..k] then 1 else 0
  }

  lemma ZeroInStep(rs: seq<int>, k: nat)
    requires Distinct(rs) && 0 < k <= |rs|
    ensures ZeroIn(rs, k) == ZeroIn(rs, k - 1) + (if rs[k - 1] == 0 then 1 else 0)
  {
    assert rs[..k] == rs[..k - 1] + [rs[k - 1]];
    DistinctLast(rs, k);
  }

  lemma {:induction false} PushWLength(dx: int, dy: int, dz: int, ws: seq<int>, l: nat)
    requires l <= |ws| && Distinct(ws)
    ensures |PushW(dx, dy, dz, ws, l)| == l - (if dx == 0 && dy == 0 && dz == 0 then ZeroIn(ws, l) else 0)
  {
    if l > 0 {
      PushWLength(dx, dy, dz, ws, l - 1);
      ZeroInStep(ws, l);
    }
  }

  lemma WBlockLength(dx: int, dy: int, dz: int, is4d: bool)
    ensures |PushW(dx, dy, dz, WRange(is4d), |WRange(is4d)|)|
            == |WRange(is4d)| - (if dx == 0 && dy == 0 && dz == 0 then 1 else 0)
  {
    var ws := WRange(is4d);
    WRangeMembers(is4d);
    PushWLength(dx, dy, dz, ws, |ws|);
    assert ws[..|ws|] == ws;
  }

  lemma ZBlockLength(dx: int, dy: int, is4d: bool)
    ensures |PushZ(DeltaRange(), dx, dy, WRange(is4d), 3)| == 3 * |WRange(is4d)| - (if dx == 0 && dy == 0 then 1 else 0)
  {
    ZUnfold(dx, dy, WRange(is4d));
    WBlockLength(dx, dy, -1, is4d);
    WBlockLength(dx, dy, 0, is4d);
    WBlockLength(dx, dy, 1, is4d);
  }

  lemma YBlockLength(dx: int, is4d: bool)
    ensures |PushY(DeltaRange(), dx, WRange(is4d), 3)| == 9 * |WRange(is4d)| - (if dx == 0 then 1 else 0)
  {
    YUnfold(dx, WRange(is4d));
    ZBlockLength(dx, -1, is4d);
    ZBlockLength(dx, 0, is4d);
    ZBlockLength(dx, 1, is4d);
  }

  lemma XBlockLength(is4d: bool)
    ensures |Offsets(is4d)| == 27 * |WRange(is4d)| - 1
  {
    XUnfold(is4d);
    YBlockLength(-1, is4d);
    YBlockLength(0, is4d);
    YBlockLength(1, is4d);
  }

  /** 26 offsets in three dimensions and 80 in four, none repeated. */
  lemma OffsetsShape(is4d: bool)
    ensures |Offsets(is4d)| == if is4d then 80 else 26
    ensures Distinct(Offsets(is4d))
  {
    WRangeMembers(is4d);
    XBlockLength(is4d);
    OffsetsDistinct(is4d);
  }

  // ---------------------------------------------------------------------------------------------
  // `neighbours`

  /** Each offset applied to `p`, paired with the status of the cube it reaches. */
  function Pairs(grid: Grid, p: Pos, ds: seq<Pos>): seq<(Pos, bool)> {
    seq(|ds|, i requires 0 <= i < |ds| => (Add(p, ds[i]), GetStatus(grid, Add(p, ds[i]))))
  }

  lemma Assoc<T>(a: seq<T>, b: seq<T>, c: seq<T>)
    ensures a + b + c == a + (b + c)
  {
  }

  lemma PairsOne(grid: Grid, p: Pos, d: Pos)
    ensures Pairs(grid, p, [d]) == [(Add(p, d), GetStatus(grid, Add(p, d)))]
  {
  }

  lemma PairsAppend(grid: Grid, p: Pos, a: seq<Pos>, b: seq<Pos>)
    ensures Pairs(grid, p, a + b) == Pairs(grid, p, a) + Pairs(grid, p, b)
  {
    assert forall i :: 0 <= i < |a + b| ==> Pairs(grid, p, a + b)[i] == (Pairs(grid, p, a) + Pairs(grid, p, b))[i];
  }

  /** What `neighbours` returns. */
  function NeighbourList(grid: Grid, p: Pos, is4d: bool): seq<(Pos, bool)> {
    Pairs(grid, p, Offsets(is4d))
  }

  /** The cubes adjacent to `p`: different from it, every coordinate within one, and in the same
      `w` slice in three dimensions. */
  predicate Adjacent(p: Pos, q: Pos, is4d: bool) {
    && q != p
    && Unit(q.0 - p.0) && Unit(q.1 - p.1) && Unit(q.2 - p.2)
    && (if is4d then Unit(q.3 - p.3) else q.3 == p.3)
  }

  /** The neighbour list has 26 entries in three dimensions and 80 in four, never `p` itself,
      no position twice, exactly the adjacent cubes, each paired with its `get_status`. */
  lemma NeighbourListSpec(grid: Grid, p: Pos, is4d: bool)
    ensures |NeighbourList(grid, p, is4d)| == if is4d then 80 else 26
    ensures forall i :: 0 <= i < |NeighbourList(grid, p, is4d)| ==>
              && NeighbourList(grid, p, is4d)[i].0 != p
              && NeighbourList(grid, p, is4d)[i].1 == GetStatus(grid, NeighbourList(grid, p, is4d)[i].0)
    ensures forall i, j :: 0 <= i < j < |NeighbourList(grid, p, is4d)| ==>
              NeighbourList(grid, p, is4d)[i].0 != NeighbourList(grid, p, is4d)[j].0
    ensures forall q :: Adjacent(p, q, is4d) <==>
              exists i :: 0 <= i < |NeighbourList(grid, p, is4d)| && NeighbourList(grid, p, is4d)[i].0 == q
  {
    var ns := NeighbourList(grid, p, is4d);
    OffsetsShape(is4d);
    NeighbourListDistinct(grid, p, is4d);
    NeighbourListEntries(grid, p, is4d);
    forall q ensures Adjacent(p, q, is4d) <==> exists i :: 0 <= i < |ns| && ns[i].0 == q {
      NeighbourAt(grid, p, q, is4d);
    }
  }

  lemma NeighbourListEntries(grid: Grid, p: Pos, is4d: bool)
    ensures forall i :: 0 <= i < |NeighbourList(grid, p, is4d)| ==>
              && NeighbourList(grid, p, is4d)[i].0 != p
              && NeighbourList(grid, p, is4d)[i].1 == GetStatus(grid, NeighbourList(grid, p, is4d)[i].0)
  {
    var ns := NeighbourList(grid, p, is4d);
    forall i | 0 <= i < |ns| ensures ns[i].0 != p {
      OffsetAt(is4d, p, i);
    }
  }

  lemma NeighbourListDistinct(grid: Grid, p: Pos, is4d: bool)
    ensures forall i, j :: 0 <= i < j < |NeighbourList(grid, p, is4d)| ==>
              NeighbourList(grid, p, is4d)[i].0 != NeighbourList(grid, p, is4d)[j].0
  {
    var ds := Offsets(is4d);
    var ns := NeighbourList(grid, p, is4d);
    OffsetsShape(is4d);
    forall i, j | 0 <= i < j < |ns| ensures ns[i].0 != ns[j].0 {
      assert ds[i] != ds[j];
    }
  }

  lemma NeighbourAt(grid: Grid, p: Pos, q: Pos, is4d: bool)
    ensures Adjacent(p, q, is4d) <==>
              exists i :: 0 <= i < |NeighbourList(grid, p, is4d)| && NeighbourList(grid, p, is4d)[i].0 == q
  {
    var ns := NeighbourList(grid, p, is4d);
    var d := (q.0 - p.0, q.1 - p.1, q.2 - p.2, q.3 - p.3);
    OffsetHas(is4d, d);
    AdjacentOffset(p, q, is4d);
    if Adjacent(p, q, is4d) {
      var i := FindOffset(Offsets(is4d), d);
      assert ns[i].0 == q;
    }
    if exists i :: 0 <= i < |ns| && ns[i].0 == q {
      var i :| 0 <= i < |ns| && ns[i].0 == q;
      OffsetAt(is4d, p, i);
    }
  }

  /** `q` is adjacent to `p` iff the step from `p` to `q` is an offset. */
  lemma AdjacentOffset(p: Pos, q: Pos, is4d: bool)
    ensures Adjacent(p, q, is4d) <==> IsOffset((q.0 - p.0, q.1 - p.1, q.2 - p.2, q.3 - p.3), is4d)
  {
  }

  lemma FindOffset(ds: seq<Pos>, d: Pos) returns (i: nat)
    requires d in ds
    ensures i < |ds| && ds[i] == d
  {
    i :| 0 <= i < |ds| && ds[i] == d;
  }

  /** Each entry of the neighbour list is `p` moved by an offset. */
  lemma OffsetAt(is4d: bool, p: Pos, i: nat)
    requires i < |Offsets(is4d)|
    ensures Adjacent(p, Add(p, Offsets(is4d)[i]), is4d)
  {
    var d := Offsets(is4d)[i];
    assert d in Offsets(is4d);
    OffsetHas(is4d, d);
    AdjacentOffset(p, Add(p, d), is4d);
  }

  /** `neighbours`: the four nested loops push `(position + offset, get_status)` for every
      non-zero offset. */
  method Neighbours(grid: Grid, position: Pos, is4d: bool) returns (neighbours: seq<(Pos, bool)>)
    ensures neighbours == NeighbourList(grid, position, is4d)
  {
    neighbours := [];
    var dwRange := WRange(is4d);
    ghost var rs := DeltaRange();
    for dx := -1 to 2
      invariant neighbours == Pairs(grid, position, PushX(rs, dwRange, dx + 1))
    {
      ghost var px := PushX(rs, dwRange, dx + 1);
      for dy := -1 to 2
        invariant neighbours == Pairs(grid, position, px + PushY(rs, dx, dwRange, dy + 1))
      {
        ghost var py := px + PushY(rs, dx, dwRange, dy + 1);
        neighbours := PushColumn(grid, position, dx, dy, dwRange, neighbours);
        PairsAppend(grid, position, py, PushZ(rs, dx, dy, dwRange, 3));
        PushYStep(px, dx, dy, dwRange);
      }
      PushXStep(dx, dwRange);
    }
  }

  /** The `dz` and `dw` loops of `neighbours` for one `dx` and `dy`. */
  method PushColumn(grid: Grid, position: Pos, dx: int, dy: int, dwRange: seq<int>, pushed: seq<(Pos, bool)>)
    returns (neighbours: seq<(Pos, bool)>)
    ensures neighbours == pushed + Pairs(grid, position, PushZ(DeltaRange(), dx, dy, dwRange, 3))
  {
    neighbours := pushed;
    var x, y, z, w := position.0, position.1, position.2, position.3;
    ghost var rs := DeltaRange();
    DeltaRangeMembers();
    for dz := -1 to 2
      invariant neighbours == pushed + Pairs(grid, position, PushZ(rs, dx, dy, dwRange, dz + 1))
    {
      ghost var pz := PushZ(rs, dx, dy, dwRange, dz + 1);
      neighbours := PushRow(grid, position, dx, dy, dz, dwRange, pushed, pz, neighbours);
      assert rs[dz + 1] == dz;
      assert PushZ(rs, dx, dy, dwRange, dz + 2) == pz + PushW(dx, dy, dz, dwRange, |dwRange|);
    }
  }

  /** The `dw` loop of `neighbours` for one `dx`, `dy` and `dz`. */
  method PushRow(grid: Grid, position: Pos, dx: int, dy: int, dz: int, dwRange: seq<int>,
                 ghost pushed: seq<(Pos, bool)>, ghost pz: seq<Pos>, start: seq<(Pos, bool)>)
    returns (neighbours: seq<(Pos, bool)>)
    requires start == pushed + Pairs(grid, position, pz)
    ensures neighbours == pushed + Pairs(grid, position, pz + PushW(dx, dy, dz, dwRange, |dwRange|))
  {
    neighbours := start;
    var x, y, z, w := position.0, position.1, position.2, position.3;
    assert pz + PushW(dx, dy, dz, dwRange, 0) == pz;
    for l := 0 to |dwRange|
      invariant neighbours == pushed + Pairs(grid, position, pz + PushW(dx, dy, dz, dwRange, l))
    {
      var dw := dwRange[l];
      WStep(grid, position, pz, dx, dy, dz, dwRange, l);
      if !(dx == 0 && dy == 0 && dz == 0 && dw == 0) {
        var neighbourPosition := (x + dx, y + dy, z + dz, w + dw);
        Assoc(pushed, Pairs(grid, position, pz + PushW(dx, dy, dz, dwRange, l)),
              [(neighbourPosition, GetStatus(grid, neighbourPosition))]);
        neighbours := neighbours + [(neighbourPosition, GetStatus(grid, neighbourPosition))];
      }
    }
  }

  /** One pass of the innermost loop appends the pair of a non-zero offset. */
  lemma WStep(grid: Grid, p: Pos, pz: seq<Pos>, dx: int, dy: int, dz: int, ws: seq<int>, l: nat)
    requires l < |ws|
    ensures Pairs(grid, p, pz + PushW(dx, dy, dz, ws, l + 1))
         == Pairs(grid, p, pz + PushW(dx, dy, dz, ws, l))
            + (if dx == 0 && dy == 0 && dz == 0 && ws[l] == 0 then []
               else [((p.0 + dx, p.1 + dy, p.2 + dz, p.3 + ws[l]), GetStatus(grid, (p.0 + dx, p.1 + dy, p.2 + dz, p.3 + ws[l])))])
  {
    var d := (dx, dy, dz, ws[l]);
    Assoc(pz, PushW(dx, dy, dz, ws, l), Keep(d));
    PairsAppend(grid, p, pz + PushW(dx, dy, dz, ws, l), Keep(d));
    if d != Origin {
      PairsOne(grid, p, d);
    }
  }

  lemma PushYStep(px: seq<Pos>, dx: int, dy: int, ws: seq<int>)
    requires -1 <= dy <= 1
    ensures px + PushY(DeltaRange(), dx, ws, dy + 1) + PushZ(DeltaRange(), dx, dy, ws, 3)
         == px + PushY(DeltaRange(), dx, ws, dy + 2)
  {
    DeltaRangeMembers();
    Assoc(px, PushY(DeltaRange(), dx, ws, dy + 1), PushZ(DeltaRange(), dx, dy, ws, 3));
  }

  lemma PushXStep(dx: int, ws: seq<int>)
    requires -1 <= dx <= 1
    ensures PushX(DeltaRange(), ws, dx + 1) + PushY(DeltaRange(), dx, ws, 3) == PushX(DeltaRange(), ws, dx + 2)
  {
    DeltaRangeMembers();
  }

  // ---------------------------------------------------------------------------------------------
  // Counting and collecting neighbours

  /** `filter(|(_, status)| *status).count()`. */
  function CountActive(ns: seq<(Pos, bool)>): (c: nat)
    ensures c <= |ns|
    ensures c > 0 <==> exists i :: 0 <= i < |ns| && ns[i].1
  {
    if |ns| == 0 then 0
    else CountActive(ns[..|ns| - 1]) + (if ns[|ns| - 1].1 then 1 else 0)
  }

  /** The positions flagged true. */
  function ActiveOf(ns: seq<(Pos, bool)>): set<Pos> {
    set i | 0 <= i < |ns| && ns[i].1 :: ns[i].0
  }

  /** With no position repeated, the count is the number of distinct active positions. */
  lemma {:induction false} CountActiveDistinct(ns: seq<(Pos, bool)>)
    requires forall i, j :: 0 <= i < j < |ns| ==> ns[i].0 != ns[j].0
    ensures CountActive(ns) == |ActiveOf(ns)|
  {
    if |ns| > 0 {
      var init := ns[..|ns| - 1];
      var last := ns[|ns| - 1];
      CountActiveDistinct(init);
      ActiveOfSnoc(ns);
    }
  }

  /** The last entry adds its position when it is flagged, and that position is new. */
  lemma ActiveOfSnoc(ns: seq<(Pos, bool)>)
    requires |ns| > 0
    requires forall i, j :: 0 <= i < j < |ns| ==> ns[i].0 != ns[j].0
    ensures ns[|ns| - 1].0 !in ActiveOf(ns[..|ns| - 1])
    ensures ActiveOf(ns) == ActiveOf(ns[..|ns| - 1]) + (if ns[|ns| - 1].1 then {ns[|ns| - 1].0} else {})
  {
    var init := ns[..|ns| - 1];
    var last := ns[|ns| - 1];
    forall x | x in ActiveOf(ns) ensures x in ActiveOf(init) || (last.1 && x == last.0) {
      var i :| 0 <= i < |ns| && ns[i].1 && ns[i].0 == x;
      if i < |ns| - 1 {
        assert init[i] == ns[i];
      }
    }
    forall x | x in ActiveOf(init) ensures x in ActiveOf(ns) && x != last.0 {
      var i :| 0 <= i < |init| && init[i].1 && init[i].0 == x;
      assert ns[i] == init[i];
    }
  }

  /** The positions flagged false. */
  function InactiveOf(ns: seq<(Pos, bool)>): set<Pos> {
    set i | 0 <= i < |ns| && !ns[i].1 :: ns[i].0
  }

  /** The inner `for (pos, status) in neighbours` loop: inserts each inactive position. */
  method CollectInactive(neighbours: seq<(Pos, bool)>, inactive: set<Pos>) returns (r: set<Pos>)
    ensures r == inactive + InactiveOf(neighbours)
  {
    r := inactive;
    for k := 0 to |neighbours|
      invariant r == inactive + InactiveOf(neighbours[..k])
    {
      var (pos, status) := neighbours[k];
      assert InactiveOf(neighbours[..k + 1]) == InactiveOf(neighbours[..k]) + (if status then {} else {pos}) by {
        assert neighbours[..k + 1][k] == neighbours[k];
        assert forall i :: 0 <= i < k ==> neighbours[..k + 1][i] == neighbours[..k][i];
      }
      if !status {
        r := r + {pos};
      }
    }
    assert neighbours[..|neighbours|] == neighbours;
  }

  // ---------------------------------------------------------------------------------------------
  // One cycle

  /** The number of active neighbours of `p`. */
  function ActiveAround(grid: Grid, p: Pos, is4d: bool): nat {
    CountActive(NeighbourList(grid, p, is4d))
  }

  /** The count is the number of cubes adjacent to `p` whose status is true. */
  lemma ActiveAroundSpec(grid: Grid, p: Pos, is4d: bool)
    ensures ActiveAround(grid, p, is4d) == |set q | q in grid.active && grid.active[q] && Adjacent(p, q, is4d)|
  {
    NeighbourListDistinct(grid, p, is4d);
    CountActiveDistinct(NeighbourList(grid, p, is4d));
    ActiveNeighbours(grid, p, is4d);
  }

  /** The active positions of the neighbour list are the active adjacent cubes. */
  lemma ActiveNeighbours(grid: Grid, p: Pos, is4d: bool)
    ensures ActiveOf(NeighbourList(grid, p, is4d)) == set q | q in grid.active && grid.active[q] && Adjacent(p, q, is4d)
  {
    var ns := NeighbourList(grid, p, is4d);
    var s := set q | q in grid.active && grid.active[q] && Adjacent(p, q, is4d);
    forall q | q in s ensures q in ActiveOf(ns) {
      NeighbourAt(grid, p, q, is4d);
      var i :| 0 <= i < |ns| && ns[i].0 == q;
      assert ns[i].1;
    }
    forall q | q in ActiveOf(ns) ensures q in s {
      NeighbourAt(grid, p, q, is4d);
    }
  }

  /** The inactive cubes next to the cubes of `done`: what the first scan collects. */
  function Frontier(grid: Grid, done: set<Pos>, is4d: bool): set<Pos> {
    set p, i | p in done && 0 <= i < |Offsets(is4d)| && !GetStatus(grid, Add(p, Offsets(is4d)[i]))
             :: Add(p, Offsets(is4d)[i])
  }

  /** Scanning one more cube adds the inactive positions of its neighbour list. */
  lemma FrontierAdd(grid: Grid, done: set<Pos>, p: Pos, is4d: bool)
    ensures Frontier(grid, done + {p}, is4d) == Frontier(grid, done, is4d) + InactiveOf(NeighbourList(grid, p, is4d))
  {
    var ds := Offsets(is4d);
    var ns := NeighbourList(grid, p, is4d);
    var before, after := Frontier(grid, done, is4d), Frontier(grid, done + {p}, is4d);
    forall q | q in InactiveOf(ns) ensures q in after {
      var i :| 0 <= i < |ns| && !ns[i].1 && ns[i].0 == q;
      assert q == Add(p, ds[i]);
    }
    forall q | q in before ensures q in after {
      var r, i :| r in done && 0 <= i < |ds| && !GetStatus(grid, Add(r, ds[i])) && q == Add(r, ds[i]);
      assert r in done + {p};
    }
    forall q | q in after ensures q in before || q in InactiveOf(ns) {
      var r, i :| r in done + {p} && 0 <= i < |ds| && !GetStatus(grid, Add(r, ds[i])) && q == Add(r, ds[i]);
      if r == p {
        assert ns[i] == (q, false);
      } else {
        assert r in done;
      }
    }
  }

  /** An active cube that survives: stored true with two or three active neighbours. */
  predicate Survives(grid: Grid, p: Pos, is4d: bool) {
    p in grid.active && grid.active[p] && (ActiveAround(grid, p, is4d) == 2 || ActiveAround(grid, p, is4d) == 3)
  }

  /** An inactive cube that is born: exactly three active neighbours. */
  predicate Born(grid: Grid, q: Pos, is4d: bool) {
    !GetStatus(grid, q) && ActiveAround(grid, q, is4d) == 3
  }

  /** The cubes of `done` that survive. */
  function SurvivorsIn(grid: Grid, done: set<Pos>, is4d: bool): set<Pos> {
    set p | p in done && Survives(grid, p, is4d)
  }

  /** The cubes of `seen` that are born. */
  function BornIn(grid: Grid, seen: set<Pos>, is4d: bool): set<Pos> {
    set q | q in seen && Born(grid, q, is4d)
  }

  /** The active cubes after one cycle: the survivors, and the cubes of the frontier that are
      born. */
  function Next(grid: Grid, is4d: bool): set<Pos> {
    SurvivorsIn(grid, grid.active.Keys, is4d) + BornIn(grid, Frontier(grid, grid.active.Keys, is4d), is4d)
  }

  /** The cycle is Conway's rule on the whole unbounded grid: a cube is active afterwards iff it
      is active with two or three active neighbours, or inactive with exactly three. Inactive
      cubes far from every active one are never visited, and none of them is born. */
  lemma NextIsConway(grid: Grid, is4d: bool, q: Pos)
    requires AllTrue(grid.active)
    ensures q in Next(grid, is4d) <==>
              || (GetStatus(grid, q) && (ActiveAround(grid, q, is4d) == 2 || ActiveAround(grid, q, is4d) == 3))
              || (!GetStatus(grid, q) && ActiveAround(grid, q, is4d) == 3)
  {
    if !GetStatus(grid, q) && ActiveAround(grid, q, is4d) == 3 {
      BornInFrontier(grid, q, is4d);
    }
  }

  /** An inactive cube with an active neighbour is in the frontier of the active cubes. */
  lemma BornInFrontier(grid: Grid, q: Pos, is4d: bool)
    requires ActiveAround(grid, q, is4d) > 0
    ensures q in Frontier(grid, grid.active.Keys, is4d) || GetStatus(grid, q)
  {
    var ds := Offsets(is4d);
    var i := ActiveNeighbour(grid, q, is4d);
    var p := Add(q, ds[i]);
    var j := NegOffset(is4d, i);
    assert Add(p, ds[j]) == q;
    if !GetStatus(grid, q) {
      FrontierHas(grid, grid.active.Keys, is4d, p, j);
    }
  }

  lemma FrontierHas(grid: Grid, done: set<Pos>, is4d: bool, p: Pos, j: nat)
    requires p in done && j < |Offsets(is4d)| && !GetStatus(grid, Add(p, Offsets(is4d)[j]))
    ensures Add(p, Offsets(is4d)[j]) in Frontier(grid, done, is4d)
  {
  }

  /** A cube with an active neighbour has an offset that reaches an active cube. */
  lemma ActiveNeighbour(grid: Grid, q: Pos, is4d: bool) returns (i: nat)
    requires ActiveAround(grid, q, is4d) > 0
    ensures i < |Offsets(is4d)| && Add(q, Offsets(is4d)[i]) in grid.active.Keys
  {
    var ns := NeighbourList(grid, q, is4d);
    i :| 0 <= i < |ns| && ns[i].1;
  }

  /** The opposite of an offset is an offset. */
  lemma NegOffset(is4d: bool, i: nat) returns (j: nat)
    requires i < |Offsets(is4d)|
    ensures j < |Offsets(is4d)| && Offsets(is4d)[j] == Neg(Offsets(is4d)[i])
  {
    var ds := Offsets(is4d);
    assert ds[i] in ds;
    OffsetHas(is4d, ds[i]);
    OffsetHas(is4d, Neg(ds[i]));
    j :| 0 <= j < |ds| && ds[j] == Neg(ds[i]);
  }

  lemma MarkedAdd(s: set<Pos>, p: Pos)
    ensures Marked(s + {p}) == Marked(s)[p := true]
  {
  }

  /** One cycle of `part1`: the scan of the active cubes builds the survivors and the frontier,
      the scan of the frontier adds the births, and only then is the map replaced. */
  method Cycle(grid: Grid, is4d: bool) returns (next: Grid)
    ensures next == grid.(active := Marked(Next(grid, is4d)))
  {
    var newActive, inactive := ScanActive(grid, is4d);
    newActive := ScanFrontier(grid, is4d, inactive, newActive, SurvivorsIn(grid, grid.active.Keys, is4d));
    next := grid.(active := newActive);
  }

  /** The first scan: the surviving active cubes, and the set of inactive neighbours. */
  method ScanActive(grid: Grid, is4d: bool) returns (newActive: map<Pos, bool>, inactive: set<Pos>)
    ensures newActive == Marked(SurvivorsIn(grid, grid.active.Keys, is4d))
    ensures inactive == Frontier(grid, grid.active.Keys, is4d)
  {
    newActive, inactive := map[], {};
    var todo := grid.active.Keys;
    ghost var done: set<Pos> := {};
    while todo != {}
      invariant done + todo == grid.active.Keys && done !! todo
      invariant newActive == Marked(SurvivorsIn(grid, done, is4d))
      invariant inactive == Frontier(grid, done, is4d)
      decreases |todo|
    {
      var position :| position in todo;
      newActive, inactive := VisitActive(grid, position, is4d, newActive, inactive, done);
      done, todo := done + {position}, todo - {position};
    }
  }

  /** One pass of the first scan, on the active cube at `position`. */
  method VisitActive(grid: Grid, position: Pos, is4d: bool, newActive: map<Pos, bool>, inactive: set<Pos>,
                     ghost done: set<Pos>)
    returns (newActive': map<Pos, bool>, inactive': set<Pos>)
    requires position in grid.active
    requires newActive == Marked(SurvivorsIn(grid, done, is4d))
    requires inactive == Frontier(grid, done, is4d)
    ensures newActive' == Marked(SurvivorsIn(grid, done + {position}, is4d))
    ensures inactive' == Frontier(grid, done + {position}, is4d)
  {
    var status := grid.active[position];
    var neighbours := Neighbours(grid, position, is4d);
    var activeNeighbours := CountActive(neighbours);
    FrontierAdd(grid, done, position, is4d);
    inactive' := CollectInactive(neighbours, inactive);
    SurvivorsUpdate(grid, done, position, is4d, newActive);
    assert activeNeighbours == ActiveAround(grid, position, is4d);
    newActive' := newActive;
    if status && (activeNeighbours == 2 || activeNeighbours == 3) {
      assert Survives(grid, position, is4d);
      newActive' := newActive[position := true];
    } else {
      assert !Survives(grid, position, is4d);
    }
  }

  /** The second scan: every position of `inactive` that is born is added to `newActive`. */
  method ScanFrontier(grid: Grid, is4d: bool, inactive: set<Pos>, survivors: map<Pos, bool>, ghost kept: set<Pos>)
    returns (newActive: map<Pos, bool>)
    requires survivors == Marked(kept)
    ensures newActive == Marked(kept + BornIn(grid, inactive, is4d))
  {
    newActive := survivors;
    var rest := inactive;
    ghost var seen: set<Pos> := {};
    while rest != {}
      invariant seen + rest == inactive && seen !! rest
      invariant newActive == Marked(kept + BornIn(grid, seen, is4d))
      decreases |rest|
    {
      var position :| position in rest;
      newActive := VisitInactive(grid, position, is4d, newActive, kept, seen);
      seen, rest := seen + {position}, rest - {position};
    }
  }

  /** One pass of the second scan, on the position `position` of the frontier. */
  method VisitInactive(grid: Grid, position: Pos, is4d: bool, newActive: map<Pos, bool>,
                       ghost kept: set<Pos>, ghost seen: set<Pos>)
    returns (newActive': map<Pos, bool>)
    requires newActive == Marked(kept + BornIn(grid, seen, is4d))
    ensures newActive' == Marked(kept + BornIn(grid, seen + {position}, is4d))
  {
    var neighbours := Neighbours(grid, position, is4d);
    var activeNeighbours := CountActive(neighbours);
    var status := GetStatus(grid, position);
    BornUpdate(grid, kept, seen, position, is4d, newActive);
    newActive' := newActive;
    if !status && activeNeighbours == 3 {
      newActive' := newActive[position := true];
    }
  }

  lemma SurvivorsUpdate(grid: Grid, done: set<Pos>, p: Pos, is4d: bool, m: map<Pos, bool>)
    requires m == Marked(SurvivorsIn(grid, done, is4d))
    ensures (if Survives(grid, p, is4d) then m[p := true] else m) == Marked(SurvivorsIn(grid, done + {p}, is4d))
  {
    SurvivorsStep(grid, done, p, is4d);
    if Survives(grid, p, is4d) {
      MarkedAdd(SurvivorsIn(grid, done, is4d), p);
    }
  }

  lemma SurvivorsStep(grid: Grid, done: set<Pos>, p: Pos, is4d: bool)
    ensures SurvivorsIn(grid, done + {p}, is4d)
         == SurvivorsIn(grid, done, is4d) + (if Survives(grid, p, is4d) then {p} else {})
  {
  }

  lemma BornUpdate(grid: Grid, kept: set<Pos>, seen: set<Pos>, q: Pos, is4d: bool, m: map<Pos, bool>)
    requires m == Marked(kept + BornIn(grid, seen, is4d))
    ensures (if Born(grid, q, is4d) then m[q := true] else m) == Marked(kept + BornIn(grid, seen + {q}, is4d))
  {
    BornStep(grid, seen, q, is4d);
    if Born(grid, q, is4d) {
      MarkedAdd(kept + BornIn(grid, seen, is4d), q);
    }
  }

  lemma BornStep(grid: Grid, seen: set<Pos>, q: Pos, is4d: bool)
    ensures BornIn(grid, seen + {q}, is4d) == BornIn(grid, seen, is4d) + (if Born(grid, q, is4d) then {q} else {})
  {
  }

  // ---------------------------------------------------------------------------------------------
  // Parsing and the six cycles

  /** The cubes of one trimmed line `line` numbered `y`, for its first `n` characters. */
  function Row(line: string, y: int, n: nat): set<Pos>
    requires n <= |line|
  {
    if n == 0 then {} else Row(line, y, n - 1) + (if line[n - 1] == '#' then {(n - 1, y, 0, 0)} else {})
  }

  /** The cubes of the first `n` lines. */
  function Rows(lines: seq<string>, n: nat): set<Pos>
    requires n <= |lines|
  {
    if n == 0 then {} else Rows(lines, n - 1) + Row(Trim(lines[n - 1]), n - 1, |Trim(lines[n - 1])|)
  }

  /** The grid `parse_input` builds. */
  function Initial(input: string): Grid {
    Grid(Marked(Rows(Lines(input), |Lines(input)|)), map[])
  }

  lemma {:induction false} RowMembers(line: string, y: int, n: nat)
    requires n <= |line|
    ensures forall p :: p in Row(line, y, n) <==> p.1 == y && p.2 == 0 && p.3 == 0 && 0 <= p.0 < n && line[p.0] == '#'
  {
    if n > 0 {
      RowMembers(line, y, n - 1);
    }
  }

  lemma {:induction false} RowsMembers(lines: seq<string>, n: nat)
    requires n <= |lines|
    ensures forall p :: p in Rows(lines, n) <==>
              p.2 == 0 && p.3 == 0 && 0 <= p.1 < n && 0 <= p.0 < |Trim(lines[p.1])| && Trim(lines[p.1])[p.0] == '#'
  {
    if n > 0 {
      RowsMembers(lines, n - 1);
      RowMembers(Trim(lines[n - 1]), n - 1, |Trim(lines[n - 1])|);
    }
  }

  /** A cube is active at the start iff it is `(x, y, 0, 0)` for a '#' at column `x` of trimmed
      line `y`; every stored value is true. */
  lemma InitialSpec(input: string)
    ensures AllTrue(Initial(input).active)
    ensures forall p :: p in Initial(input).active <==>
              && p.2 == 0 && p.3 == 0 && 0 <= p.1 < |Lines(input)|
              && 0 <= p.0 < |Trim(Lines(input)[p.1])| && Trim(Lines(input)[p.1])[p.0] == '#'
  {
    RowsMembers(Lines(input), |Lines(input)|);
  }

  /** `parse_input`: a column counter runs along each trimmed line and is reset after it. */
  method ParseInput(input: string) returns (grid: Grid)
    ensures grid == Initial(input)
  {
    var x := 0;
    var active: set<Pos> := {};
    var lines := Lines(input);
    for y := 0 to |lines|
      invariant x == 0
      invariant active == Rows(lines, y)
    {
      var line := Trim(lines[y]);
      for k := 0 to |line|
        invariant x == k
        invariant active == Rows(lines, y) + Row(line, y, k)
      {
        if line[k] == '#' {
          active := active + {(x, y, 0, 0)};
        }
        x := x + 1;
      }
      x := 0;
    }
    grid := Grid(Marked(active), map[]);
  }

  /** `n` cycles. */
  function Cycles(grid: Grid, n: nat, is4d: bool): Grid
    decreases n
  {
    if n == 0 then grid else Cycles(grid.(active := Marked(Next(grid, is4d))), n - 1, is4d)
  }

  /** `values().filter(|status| **status).count()`. */
  function CountTrue(m: map<Pos, bool>): nat {
    |set p | p in m && m[p]|
  }

  /** Every cycle stores only `true`, so the answer is the number of active cubes. */
  lemma {:induction false} CyclesAllTrue(grid: Grid, n: nat, is4d: bool)
    requires AllTrue(grid.active)
    ensures AllTrue(Cycles(grid, n, is4d).active)
    ensures CountTrue(Cycles(grid, n, is4d).active) == |Cycles(grid, n, is4d).active.Keys|
    decreases n
  {
    if n > 0 {
      CyclesAllTrue(grid.(active := Marked(Next(grid, is4d))), n - 1, is4d);
    } else {
      assert (set p | p in grid.active && grid.active[p]) == grid.active.Keys;
    }
  }

  /** `part1` (and, with `is4d`, part 2): six cycles from the parsed grid, then the number of
      true values. */
  method Part1(input: string, is4d: bool) returns (r: nat)
    ensures r == CountTrue(Cycles(Initial(input), 6, is4d).active)
  {
    var grid := ParseInput(input);
    for i := 0 to 6
      invariant Cycles(Initial(input), 6, is4d) == Cycles(grid, 6 - i, is4d)
    {
      grid := Cycle(grid, is4d);
    }
    r := CountTrue(grid.active);
  }
}

/** Day 3: counting the trees ('#') met on a straight slope through a map whose rows repeat
    to the right. The map is the list of input lines. */
module Day03 {
  import opened Arith

  /** Lines advanced per step: the loop `for _ in 1..y` skips `y - 1` lines, none when `y` is 0. */
  function Stride(y: nat): (s: nat)
    ensures s >= 1 && (y >= 1 ==> s == y)
  {
    if y == 0 then 1 else y
  }

  /** Line `i` is one the slope visits (a multiple of the stride `s`), and at its visit number
      `i / s` the column `(i / s) * x` modulo the width holds a tree. */
  predicate TreeAt(lines: seq<string>, x: nat, s: nat, w: nat, i: nat) {
    && s >= 1 && w >= 1 && i < |lines|
    && i % s == 0
    && ((i / s) * x) % w < |lines[i]|
    && lines[i][((i / s) * x) % w] == '#'
  }

  /** Which lines count for slope `(x, y)`. */
  ghost function TreeLines(lines: seq<string>, x: nat, y: nat): nat -> bool
    requires |lines| > 0
  {
    (i: nat) => TreeAt(lines, x, Stride(y), |lines[0]|, i)
  }

  /** The number of trees on slope `(x, y)`, counted line by line. */
  ghost function Trees(lines: seq<string>, x: nat, y: nat): nat
    requires |lines| > 0
  {
    CountBelow(TreeLines(lines, x, y), |lines|)
  }

  /** The count is the number of visited lines with a tree in the visited column. */
  lemma TreesAreVisitedTrees(lines: seq<string>, x: nat, y: nat)
    requires |lines| > 0
    ensures Trees(lines, x, y) == |set i: nat | i < |lines| && TreeAt(lines, x, Stride(y), |lines[0]|, i)|
  {
    var P := TreeLines(lines, x, y);
    CountBelowIsCardinality(P, |lines|);
    assert (set i: nat | i < |lines| && P(i)) == set i: nat | i < |lines| && TreeAt(lines, x, Stride(y), |lines[0]|, i);
  }

  /** Line `base = k * s` is visit number `k`: it counts iff its column `(k * x) % w` holds a tree. */
  lemma VisitLine(lines: seq<string>, x: nat, s: nat, w: nat, k: nat, base: nat)
    requires s >= 1 && w >= 1 && base == k * s && base < |lines| && |lines[base]| >= w
    ensures TreeAt(lines, x, s, w, base) <==> lines[base][(k * x) % w] == '#'
  {
    DivModUnique(k, 0, s);
  }

  /** The lines strictly between two visits are skipped. */
  lemma SkippedLine(lines: seq<string>, x: nat, s: nat, w: nat, k: nat, j: nat)
    requires s >= 1 && w >= 1 && 0 < j < s
    ensures !TreeAt(lines, x, s, w, k * s + j)
  {
    DivModUnique(k, j, s);
  }

  /** Moving `x` more columns, modulo the width, gives the column of the next visit, and the next
      visit is `s` lines further down. */
  lemma NextVisit(k: nat, x: nat, s: nat, w: nat)
    requires w >= 1
    ensures ((k * x) % w + x) % w == ((k + 1) * x) % w
    ensures (k + 1) * s == k * s + s
  {
    var q := (k * x) / w;
    var r := (k * x) % w;
    assert k * x == q * w + r;
    assert (k + 1) * x == q * w + (r + x);
    var q2 := (r + x) / w;
    var r2 := (r + x) % w;
    assert r + x == q2 * w + r2;
    assert (k + 1) * x == (q + q2) * w + r2;
    DivModUnique(q + q2, r2, w);
  }

  /** `part1(x, y)`: walks the lines with the iterator `pos`, looks at column `index` of each
      visited line, then skips up to `y - 1` lines and moves `x` columns right, wrapping at the width
      of the first line. */
  method Part1(lines: seq<string>, x: nat, y: nat) returns (trees: nat)
    requires |lines| > 0 && |lines[0]| > 0
    requires forall i :: 0 <= i < |lines| ==> |lines[i]| >= |lines[0]|
    ensures trees == Trees(lines, x, y)
  {
    var width := |lines[0]|;
    ghost var s := Stride(y);
    ghost var P := TreeLines(lines, x, y);
    trees := 0;
    var index := 0;
    var pos := 0;
    ghost var k: nat := 0;
    while pos < |lines|
      invariant pos <= |lines|
      invariant pos < |lines| ==> pos == k * s
      invariant index == (k * x) % width
      invariant trees == CountBelow(P, pos)
      decreases |lines| - pos
    {
      var line := lines[pos];
      VisitLine(lines, x, s, width, k, pos);
      ghost var base := pos;
      pos := pos + 1;
      if line[index] == '#' {
        trees := trees + 1;
      }
      var skip := 1;
      while skip < y
        invariant 1 <= skip <= s
        invariant pos <= |lines| && (pos < |lines| ==> pos == base + skip)
        invariant trees == CountBelow(P, pos)
        decreases y - skip
      {
        if pos == |lines| {
          break;
        }
        SkippedLine(lines, x, s, width, k, skip);
        pos := pos + 1;
        skip := skip + 1;
      }
      NextVisit(k, x, s, width);
      index := (index + x) % width;
      k := k + 1;
    }
  }

  /** `part2`: the product of the tree counts on the five slopes. */
  method Part2(lines: seq<string>) returns (product: nat)
    requires |lines| > 0 && |lines[0]| > 0
    requires forall i :: 0 <= i < |lines| ==> |lines[i]| >= |lines[0]|
    ensures product == Trees(lines, 1, 1) * Trees(lines, 3, 1) * Trees(lines, 5, 1) * Trees(lines, 7, 1) * Trees(lines, 1, 2)
  {
    var a := Part1(lines, 1, 1);
    var b := Part1(lines, 3, 1);
    var c := Part1(lines, 5, 1);
    var d := Part1(lines, 7, 1);
    var e := Part1(lines, 1, 2);
    MulMono(0, a, b);
    product := a * b;
    MulMono(0, product, c);
    product := product * c;
    MulMono(0, product, d);
    product := product * d;
    MulMono(0, product, e);
    product := product * e;
  }
}

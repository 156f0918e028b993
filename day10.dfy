/** Day 10: the joltage adapters. The adapters' ratings are sorted; part 1 counts the gaps of one
    and of three jolts, part 2 counts the ways to chain adapters from the outlet (0 jolts) with
    gaps of at most three. */
module Day10 {
  import opened Wrappers
  import opened Text

  newtype u8 = x: int | 0 <= x < 256

  predicate Sorted(xs: seq<u8>) {
    forall i, j :: 0 <= i < j < |xs| ==> xs[i] <= xs[j]
  }

  /** Inserting into a sorted list keeps it sorted and adds exactly `x`. */
  function Insert(x: u8, xs: seq<u8>): (r: seq<u8>)
    requires Sorted(xs)
    ensures Sorted(r) && multiset(r) == multiset(xs) + multiset{x}
    ensures forall y :: y in r ==> y == x || y in xs
  {
    if |xs| == 0 || x <= xs[0] then [x] + xs
    else
      var rest := Insert(x, xs[1..]);
      SortedHead(xs);
      HeadBelow(xs[0], rest);
      assert multiset(xs) == multiset{xs[0]} + multiset(xs[1..]) by {
        assert xs == [xs[0]] + xs[1..];
      }
      [xs[0]] + rest
  }

  lemma SortedHead(xs: seq<u8>)
    requires Sorted(xs) && |xs| > 0
    ensures forall y :: y in xs[1..] ==> xs[0] <= y
  {
    forall y | y in xs[1..] ensures xs[0] <= y {
      var i :| 0 <= i < |xs[1..]| && xs[1..][i] == y;
      assert xs[i + 1] == y;
    }
  }

  /** A head no larger than every element keeps a sorted list sorted. */
  lemma HeadBelow(h: u8, xs: seq<u8>)
    requires Sorted(xs) && forall y :: y in xs ==> h <= y
    ensures Sorted([h] + xs)
  {
    forall i, j | 0 <= i < j < |[h] + xs| ensures ([h] + xs)[i] <= ([h] + xs)[j] {
      if i > 0 {
        assert ([h] + xs)[i] == xs[i - 1] && ([h] + xs)[j] == xs[j - 1];
      } else {
        assert ([h] + xs)[j] == xs[j - 1] && xs[j - 1] in xs;
      }
    }
  }

  /** `sort_unstable`: the same numbers in ascending order. */
  function Sort(xs: seq<u8>): (r: seq<u8>)
    ensures Sorted(r) && multiset(r) == multiset(xs)
  {
    if |xs| == 0 then []
    else
      assert xs == [xs[0]] + xs[1..];
      Insert(xs[0], Sort(xs[1..]))
  }

  /** One rating per line, `parse::<u8>()`; `None` where the source's `unwrap` panics. */
  function ParseLines(lines: seq<string>): (r: Option<seq<u8>>)
    ensures r.Some? <==> forall i :: 0 <= i < |lines| ==> ParseNat(lines[i]).Some? && ParseNat(lines[i]).value < 256
    ensures r.Some? ==> |r.value| == |lines| && forall i :: 0 <= i < |lines| ==> r.value[i] as nat == ParseNat(lines[i]).value
  {
    if |lines| == 0 then Some([])
    else
      var first, rest := ParseNat(lines[0]), ParseLines(lines[1..]);
      if first.Some? && first.value < 256 && rest.Some? then Some([first.value as u8] + rest.value) else None
  }

  /** `parse_input`: the parsed ratings, sorted ascending. */
  function ParseInput(text: string): (r: Option<seq<u8>>)
    ensures r.Some? <==> ParseLines(Lines(text)).Some?
    ensures r.Some? ==> Sorted(r.value) && multiset(r.value) == multiset(ParseLines(Lines(text)).value)
  {
    match ParseLines(Lines(text))
    case Some(numbers) => Some(Sort(numbers))
    case None => None
  }

  /** Every gap between neighbours is one or three jolts; any other gap reaches `unreachable!()`
      (and an unsorted pair underflows the `u8` subtraction). */
  predicate Gaps13(numbers: seq<u8>) {
    forall i :: 0 <= i < |numbers| - 1 ==> numbers[i + 1] as int - numbers[i] as int == 1 || numbers[i + 1] as int - numbers[i] as int == 3
  }

  /** `part1`'s fold over the neighbouring pairs, from the accumulator `(ones, threes)`. */
  function Fold(numbers: seq<u8>, ones: nat, threes: nat): (nat, nat)
    requires Gaps13(numbers)
  {
    if |numbers| < 2 then (ones, threes)
    else if numbers[1] - numbers[0] == 3 then Fold(numbers[1..], ones, threes + 1)
    else Fold(numbers[1..], ones + 1, threes)
  }

  /** `part1`: the fold starts at (1, 1), for the outlet's gap and the device's gap of three. */
  function Part1(numbers: seq<u8>): nat
    requires Gaps13(numbers)
  {
    var (ones, threes) := Fold(numbers, 1, 1);
    ones * threes
  }

  /** The fold counts every pair once, and the gaps it counts add up to the span of the list. */
  lemma {:induction false} FoldSpan(numbers: seq<u8>, ones: nat, threes: nat)
    requires Gaps13(numbers) && |numbers| > 0
    ensures Fold(numbers, ones, threes).0 + Fold(numbers, ones, threes).1 == ones + threes + |numbers| - 1
    ensures (Fold(numbers, ones, threes).0 - ones) + 3 * (Fold(numbers, ones, threes).1 - threes)
            == numbers[|numbers| - 1] as int - numbers[0] as int
  {
    if |numbers| >= 2 {
      assert Gaps13(numbers[1..]);
      if numbers[1] - numbers[0] == 3 {
        FoldSpan(numbers[1..], ones, threes + 1);
      } else {
        FoldSpan(numbers[1..], ones + 1, threes);
      }
    }
  }

  /** Hence, for a non-empty list, `part1` is `ones * threes` with `ones + threes = n + 1` and
      `(ones - 1) + 3 (threes - 1)` the difference between the highest and the lowest rating. */
  lemma Part1Counts(numbers: seq<u8>)
    requires Gaps13(numbers) && |numbers| > 0
    ensures exists ones: nat, threes: nat :: && Part1(numbers) == ones * threes
                                             && ones + threes == |numbers| + 1
                                             && (ones - 1) + 3 * (threes - 1) == numbers[|numbers| - 1] as int - numbers[0] as int
  {
    FoldSpan(numbers, 1, 1);
    var (ones, threes) := Fold(numbers, 1, 1);
    assert Part1(numbers) == ones * threes;
  }

  /** The number of ways to reach rating `x`, with the outlet counted as rating 0 worth one way
      (none if 0 is itself among the adapters, whose own count then replaces it): the sum over
      gaps `d` of 1, 2 and 3 of the ways to reach `x - d`, where a rating that is neither an
      adapter nor the outlet contributes nothing. */
  function Ways(adapters: set<u8>, x: u8): nat
    decreases x
  {
    if x == 0 then (if 0 in adapters then 0 else 1)
    else Term(adapters, x, 1) + Term(adapters, x, 2) + Term(adapters, x, 3)
  }

  function Term(adapters: set<u8>, x: u8, d: u8): nat
    requires 0 < x && 1 <= d <= 3
    decreases x, 0
  {
    if d <= x && (x - d == 0 || x - d in adapters) then Ways(adapters, x - d) else 0
  }

  /** The adapters' ratings, as the set the recursion looks up. */
  function Ratings(numbers: seq<u8>): set<u8> {
    set i | 0 <= i < |numbers| :: numbers[i]
  }

  /** What `part2`'s map holds after the first `k` ratings: the outlet and the ratings seen so
      far as keys, each positive one mapped to its number of ways, and 0 to one way until an
      adapter rated 0 has been seen. */
  ghost predicate Part2Inv(numbers: seq<u8>, k: nat, distances: map<u8, nat>)
    requires k <= |numbers|
  {
    && (forall y :: y in distances <==> y == 0 || y in numbers[..k])
    && (forall y :: y in distances && y > 0 ==> distances[y] == Ways(Ratings(numbers), y))
    && distances[0] == (if 0 in numbers[..k] then 0 else 1)
  }

  /** `(1..=3).map(|d| checked_sub(d).and_then(get).unwrap_or(0))` for one gap. */
  function Lookup(distances: map<u8, nat>, x: u8, d: u8): nat {
    if d <= x && x - d in distances then distances[x - d] else 0
  }

  /** Looking up a smaller rating in the map agrees with the recursion, since the input is sorted. */
  lemma LookupIsTerm(numbers: seq<u8>, k: nat, distances: map<u8, nat>, d: u8)
    requires Sorted(numbers) && k < |numbers| && numbers[k] > 0 && 1 <= d <= 3
    requires Part2Inv(numbers, k, distances)
    ensures Lookup(distances, numbers[k], d) == Term(Ratings(numbers), numbers[k], d)
  {
    var x := numbers[k];
    if d <= x {
      var y := x - d;
      if y in Ratings(numbers) {
        var j :| 0 <= j < |numbers| && numbers[j] == y;
        SmallerIsEarlier(numbers, j, k);
        assert numbers[..k][j] == y;
      }
      if y in numbers[..k] {
        var j :| 0 <= j < k && numbers[..k][j] == y;
        assert numbers[j] == y;
      }
    }
  }

  /** In a sorted list a smaller number sits at an earlier position. */
  lemma SmallerIsEarlier(numbers: seq<u8>, j: nat, k: nat)
    requires Sorted(numbers) && j < |numbers| && k < |numbers| && numbers[j] < numbers[k]
    ensures j < k
  {
  }

  /** One iteration: the map takes the new rating's count. */
  lemma Part2Step(numbers: seq<u8>, k: nat, distances: map<u8, nat>, paths: nat)
    requires Sorted(numbers) && k < |numbers| && Part2Inv(numbers, k, distances)
    requires paths == Lookup(distances, numbers[k], 1) + Lookup(distances, numbers[k], 2) + Lookup(distances, numbers[k], 3)
    ensures Part2Inv(numbers, k + 1, distances[numbers[k] := paths])
  {
    var x := numbers[k];
    var next := distances[x := paths];
    assert numbers[..k + 1] == numbers[..k] + [x];
    assert forall y :: y in next <==> y == 0 || y in numbers[..k + 1];
    if x > 0 {
      LookupIsTerm(numbers, k, distances, 1);
      LookupIsTerm(numbers, k, distances, 2);
      LookupIsTerm(numbers, k, distances, 3);
      assert x in Ratings(numbers);
      assert paths == Ways(Ratings(numbers), x);
    } else {
      assert paths == 0;
    }
    assert forall y :: y in next && y > 0 ==> next[y] == Ways(Ratings(numbers), y);
  }

  /** `part2`: the number of ways to reach the highest rating; `Err` on an empty list, where the
      source's `unwrap` of `last()` panics. */
  method Part2(numbers: seq<u8>) returns (r: Result<nat>)
    requires Sorted(numbers)
    ensures |numbers| == 0 ==> r == Err
    ensures |numbers| > 0 ==> r == Ok(Ways(Ratings(numbers), numbers[|numbers| - 1]))
  {
    var distances: map<u8, nat> := map[0 := 1];
    for k := 0 to |numbers|
      invariant Part2Inv(numbers, k, distances)
    {
      var x := numbers[k];
      var paths := Lookup(distances, x, 1) + Lookup(distances, x, 2) + Lookup(distances, x, 3);
      Part2Step(numbers, k, distances, paths);
      distances := distances[x := paths];
    }
    if |numbers| == 0 {
      return Err;
    }
    var last := numbers[|numbers| - 1];
    assert numbers[..|numbers|] == numbers;
    assert last in numbers;
    return Ok(distances[last]);
  }

  /** A rating more than three above both the outlet and every adapter cannot be reached. */
  lemma Unreachable(adapters: set<u8>, x: u8)
    requires x > 3 && x - 1 !in adapters && x - 2 !in adapters && x - 3 !in adapters
    ensures Ways(adapters, x) == 0
  {
  }

  /** Adapters rated 1, 2 and 3: 1, 2 and 4 ways. */
  lemma SmallExample()
    ensures Ways({1, 2, 3}, 3) == 4
  {
    assert Ways({1, 2, 3}, 1) == 1;
    assert Ways({1, 2, 3}, 2) == 2;
  }
}

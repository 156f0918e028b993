/** Day 1: the entries of the expense report that sum to a target, as a pair and as a triple.
    The input is the list of numbers, in file order. */
module Day01 {
  import opened Wrappers

  /** `i` has a partner for `part1`: the complement is not negative and occurs in the input. */
  predicate PairCandidate(input: seq<int>, target: int, i: int) {
    target - i >= 0 && target - i in input
  }

  /** `part1`: the first entry `i`, in input order, whose complement `target - i` is not
      negative and occurs in the input (possibly as the same entry), paired with it. */
  function Part1(input: seq<int>, target: int): (r: Result<(int, int)>)
    ensures r.Ok? <==> exists k :: 0 <= k < |input| && PairCandidate(input, target, input[k])
    ensures r.Ok? ==> exists k :: && 0 <= k < |input| && PairCandidate(input, target, input[k])
                                  && r.value == (input[k], target - input[k])
                                  && forall j :: 0 <= j < k ==> !PairCandidate(input, target, input[j])
  {
    SearchPair(input, target, 0)
  }

  /** The `for` loop of `part1` from position `from` on. */
  function SearchPair(input: seq<int>, target: int, from: nat): (r: Result<(int, int)>)
    requires from <= |input|
    ensures r.Ok? <==> exists k :: from <= k < |input| && PairCandidate(input, target, input[k])
    ensures r.Ok? ==> exists k :: && from <= k < |input| && PairCandidate(input, target, input[k])
                                  && r.value == (input[k], target - input[k])
                                  && forall j :: from <= j < k ==> !PairCandidate(input, target, input[j])
    decreases |input| - from
  {
    if from == |input| then Err
    else if PairCandidate(input, target, input[from]) then Ok((input[from], target - input[from]))
    else SearchPair(input, target, from + 1)
  }

  /** A returned pair consists of input entries and sums to the target. */
  lemma Part1Sums(input: seq<int>, target: int)
    ensures Part1(input, target).Ok? ==>
              var (a, b) := Part1(input, target).value;
              a + b == target && a in input && b in input && b >= 0
  {
  }

  /** `(i, k)` has a partner for `part2`: the third summand occurs in the input. */
  predicate TripleCandidate(input: seq<int>, target: int, i: int, k: int) {
    target - i - k in input
  }

  /** `part2`: the nested loops from the first outer position. */
  function Part2(input: seq<int>, target: int): (r: Result<(int, int, int)>)
  {
    SearchOuter(input, target, 0)
  }

  /** The outer loop of `part2` from position `from` on. */
  function SearchOuter(input: seq<int>, target: int, from: nat): (r: Result<(int, int, int)>)
    requires from <= |input|
    decreases |input| - from
  {
    if from == |input| then Err
    else
      match SearchInner(input, target, input[from], 0)
      case Ok(t) => Ok(t)
      case Err => SearchOuter(input, target, from + 1)
  }

  /** Some entry completes the outer entry at position `a` to a triple. */
  predicate OuterHit(input: seq<int>, target: int, a: nat)
    requires a < |input|
  {
    exists b :: 0 <= b < |input| && TripleCandidate(input, target, input[a], input[b])
  }

  /** `(a, b)` is the first pair of positions, outer position from `from` on, that
      `part2`'s nested loops stop at. */
  predicate FirstHit(input: seq<int>, target: int, from: nat, a: nat, b: nat) {
    && from <= a < |input| && b < |input|
    && TripleCandidate(input, target, input[a], input[b])
    && (forall a' :: from <= a' < a ==> !OuterHit(input, target, a'))
    && (forall b' :: 0 <= b' < b ==> !TripleCandidate(input, target, input[a], input[b']))
  }

  /** `part2` finds the first pair of entries, in the order of the nested loops (outer index,
      then inner index), for which `target - i - k` occurs in the input, and returns it with
      that third summand; `Err` exactly when there is none. Unlike `part1` there is no sign test. */
  lemma Part2First(input: seq<int>, target: int)
    ensures Part2(input, target).Ok? <==> exists a :: 0 <= a < |input| && OuterHit(input, target, a)
    ensures Part2(input, target).Ok? ==>
              exists a: nat, b: nat :: && FirstHit(input, target, 0, a, b)
                                       && Part2(input, target).value == (input[a], input[b], target - input[a] - input[b])
  {
    SearchOuterOk(input, target, 0);
    SearchOuterFirst(input, target, 0);
  }

  lemma {:induction false} SearchOuterOk(input: seq<int>, target: int, from: nat)
    requires from <= |input|
    ensures SearchOuter(input, target, from).Ok? <==> exists a :: from <= a < |input| && OuterHit(input, target, a)
    decreases |input| - from
  {
    if from < |input| {
      SearchOuterOk(input, target, from + 1);
      if SearchInner(input, target, input[from], 0).Ok? {
        assert OuterHit(input, target, from);
      } else {
        assert !OuterHit(input, target, from);
        if exists a :: from <= a < |input| && OuterHit(input, target, a) {
          var a :| from <= a < |input| && OuterHit(input, target, a);
          assert from + 1 <= a;
        }
      }
    }
  }

  lemma {:induction false} SearchOuterFirst(input: seq<int>, target: int, from: nat)
    requires from <= |input|
    ensures SearchOuter(input, target, from).Ok? ==>
              exists a: nat, b: nat :: && FirstHit(input, target, from, a, b)
                                       && SearchOuter(input, target, from).value == (input[a], input[b], target - input[a] - input[b])
    decreases |input| - from
  {
    if from < |input| {
      var inner := SearchInner(input, target, input[from], 0);
      if inner.Ok? {
        var b :| && 0 <= b < |input| && TripleCandidate(input, target, input[from], input[b])
                 && inner.value == (input[from], input[b], target - input[from] - input[b])
                 && forall b' :: 0 <= b' < b ==> !TripleCandidate(input, target, input[from], input[b']);
        assert FirstHit(input, target, from, from, b);
      } else if SearchOuter(input, target, from).Ok? {
        assert !OuterHit(input, target, from);
        SearchOuterFirst(input, target, from + 1);
        var a: nat, b: nat :| && FirstHit(input, target, from + 1, a, b)
                              && SearchOuter(input, target, from + 1).value == (input[a], input[b], target - input[a] - input[b]);
        assert FirstHit(input, target, from, a, b);
      }
    }
  }

  /** The inner loop of `part2` for the outer entry `i`, from position `from` on. */
  function SearchInner(input: seq<int>, target: int, i: int, from: nat): (r: Result<(int, int, int)>)
    requires from <= |input|
    ensures r.Ok? <==> exists b :: from <= b < |input| && TripleCandidate(input, target, i, input[b])
    ensures r.Ok? ==> exists b :: && from <= b < |input| && TripleCandidate(input, target, i, input[b])
                                  && r.value == (i, input[b], target - i - input[b])
                                  && forall b' :: from <= b' < b ==> !TripleCandidate(input, target, i, input[b'])
    decreases |input| - from
  {
    if from == |input| then Err
    else if TripleCandidate(input, target, i, input[from]) then Ok((i, input[from], target - i - input[from]))
    else SearchInner(input, target, i, from + 1)
  }

  /** A returned triple consists of input entries and sums to the target. */
  lemma Part2Sums(input: seq<int>, target: int)
    ensures Part2(input, target).Ok? ==>
              var (a, b, c) := Part2(input, target).value;
              a + b + c == target && a in input && b in input && c in input
  {
    Part2First(input, target);
  }
}

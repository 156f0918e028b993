/** Day 9: the XMAS cipher. Every number after the preamble should be the sum of two different
    values among the `window` numbers before it; the first one that is not is the weakness, and
    a contiguous run summing to it gives the key. */
module Day09 {
  import opened Wrappers
  import opened Text

  /** Some value `x <= n` of the preamble has its complement `n - x` in the preamble too, and the
      two values differ (equal values at different positions do not count). */
  predicate HasPair(preamble: seq<nat>, n: nat) {
    exists i :: 0 <= i < |preamble| && PairAt(preamble, n, i)
  }

  predicate PairAt(preamble: seq<nat>, n: nat, i: int)
    requires 0 <= i < |preamble|
  {
    preamble[i] <= n && (n - preamble[i]) in preamble && n - preamble[i] != preamble[i]
  }

  /** `check_preamble_contains`: the loop over the preamble with its early return. */
  method CheckPreambleContains(preamble: seq<nat>, n: nat) returns (found: bool)
    ensures found <==> HasPair(preamble, n)
  {
    for k := 0 to |preamble|
      invariant forall i :: 0 <= i < k ==> !PairAt(preamble, n, i)
    {
      var x := preamble[k];
      if x > n {
        continue;
      }
      var toFind := n - x;
      if toFind in preamble && toFind != x {
        assert PairAt(preamble, n, k);
        return true;
      }
    }
    return false;
  }

  /** The number at `start + window` is the sum of a pair from the `window` numbers before it. */
  predicate Checked(numbers: seq<nat>, window: nat, start: nat)
    requires start + window < |numbers|
  {
    HasPair(numbers[start..start + window], numbers[start + window])
  }

  /** `part1`: the first number after its preamble that is not such a sum; `Err` if there is none. */
  method Part1(numbers: seq<nat>, window: nat) returns (r: Result<nat>)
    ensures r.Ok? ==> exists start: nat :: && start + window < |numbers| && !Checked(numbers, window, start)
                                           && r.value == numbers[start + window]
                                           && forall s: nat :: s < start ==> Checked(numbers, window, s)
    ensures r.Err? ==> forall s: nat :: s + window < |numbers| ==> Checked(numbers, window, s)
  {
    var start: nat := 0;
    while start + window < |numbers|
      invariant forall s: nat :: s < start ==> s + window < |numbers| && Checked(numbers, window, s)
      decreases |numbers| - start
    {
      var toCheck := numbers[start + window];
      var preamble := numbers[start..start + window];
      var ok := CheckPreambleContains(preamble, toCheck);
      if !ok {
        assert !Checked(numbers, window, start);
        return Ok(toCheck);
      }
      start := start + 1;
    }
    return Err;
  }

  /** `iter().sum()`. */
  function Sum(xs: seq<nat>): nat {
    if |xs| == 0 then 0 else Sum(xs[..|xs| - 1]) + xs[|xs| - 1]
  }

  lemma {:induction false} SumAppend(a: seq<nat>, b: seq<nat>)
    ensures Sum(a + b) == Sum(a) + Sum(b)
    decreases |b|
  {
    if |b| > 0 {
      SumAppend(a, b[..|b| - 1]);
      assert (a + b)[..|a + b| - 1] == a + b[..|b| - 1];
    } else {
      assert a + b == a;
    }
  }

  /** Sums of runs only grow when the run is extended at either end, since the numbers are
      unsigned. */
  lemma SumMono(numbers: seq<nat>, s1: nat, s2: nat, e1: nat, e2: nat)
    requires s1 <= s2 <= e2 <= e1 <= |numbers|
    ensures Sum(numbers[s2..e2]) <= Sum(numbers[s1..e1])
  {
    assert numbers[s1..e1] == numbers[s1..s2] + numbers[s2..e2] + numbers[e2..e1];
    SumAppend(numbers[s1..s2] + numbers[s2..e2], numbers[e2..e1]);
    SumAppend(numbers[s1..s2], numbers[s2..e2]);
  }

  lemma SumExtend(numbers: seq<nat>, s: nat, e: nat)
    requires s <= e < |numbers|
    ensures Sum(numbers[s..e + 1]) == Sum(numbers[s..e]) + numbers[e]
  {
    assert numbers[s..e + 1][..e - s] == numbers[s..e];
  }

  /** `iter().min().unwrap()` and `iter().max().unwrap()` on a non-empty run. */
  function Min(xs: seq<nat>): (m: nat)
    requires |xs| > 0
    ensures m in xs && forall i :: 0 <= i < |xs| ==> m <= xs[i]
  {
    if |xs| == 1 then xs[0]
    else
      var rest := Min(xs[1..]);
      assert forall i :: 1 <= i < |xs| ==> xs[i] == xs[1..][i - 1];
      if xs[0] <= rest then xs[0] else rest
  }

  function Max(xs: seq<nat>): (m: nat)
    requires |xs| > 0
    ensures m in xs && forall i :: 0 <= i < |xs| ==> xs[i] <= m
  {
    if |xs| == 1 then xs[0]
    else
      var rest := Max(xs[1..]);
      assert forall i :: 1 <= i < |xs| ==> xs[i] == xs[1..][i - 1];
      if xs[0] >= rest then xs[0] else rest
  }

  /** A run `numbers[s..e]` that `part2` can report: non-empty, ending before the last number,
      summing to `n`. */
  predicate Window(numbers: seq<nat>, n: nat, s: nat, e: nat) {
    s < e < |numbers| && Sum(numbers[s..e]) == n
  }

  /** No run starting at `s` sums to `n`. */
  predicate NoWindowAt(numbers: seq<nat>, n: nat, s: nat) {
    forall e: nat :: s < e < |numbers| ==> Sum(numbers[s..e]) != n
  }

  /** What `part2`'s loop keeps: the starts before `start` were exhausted, and every run from
      `start` shorter than the current one undershoots. */
  predicate Part2Inv(numbers: seq<nat>, n: nat, start: nat, end: nat) {
    && start < end <= |numbers|
    && (forall s: nat :: s < start ==> NoWindowAt(numbers, n, s))
    && (forall e: nat :: start < e < end ==> Sum(numbers[start..e]) < n)
  }

  /** An overshoot at `end` rules out every run from `start`. */
  lemma Overshoot(numbers: seq<nat>, n: nat, start: nat, end: nat)
    requires Part2Inv(numbers, n, start, end) && end < |numbers| && Sum(numbers[start..end]) > n
    ensures NoWindowAt(numbers, n, start)
  {
    forall e: nat | end <= e < |numbers| ensures Sum(numbers[start..e]) != n {
      SumMono(numbers, start, start, e, end);
    }
  }

  /** Reaching the end with every run from `start` undershooting rules out every later start. */
  lemma Exhausted(numbers: seq<nat>, n: nat, start: nat)
    requires Part2Inv(numbers, n, start, |numbers|)
    ensures forall s: nat, e: nat :: s < e < |numbers| ==> Sum(numbers[s..e]) != n
  {
    forall s: nat, e: nat | s < e < |numbers| ensures Sum(numbers[s..e]) != n {
      if s < start {
        assert NoWindowAt(numbers, n, s);
      } else if s > start {
        SumMono(numbers, start, s, e, e);
      }
    }
  }

  /** `part2`: the smallest and largest number of the first run (by start, then by end) that sums
      to `n`; `Err` if no run ending before the last number does. A run may have length one. */
  method Part2(numbers: seq<nat>, n: nat) returns (r: Result<(nat, nat)>)
    ensures r.Ok? ==> exists s: nat, e: nat :: && Window(numbers, n, s, e)
                                               && (forall s': nat :: s' < s ==> NoWindowAt(numbers, n, s'))
                                               && (forall e': nat :: s < e' < e ==> Sum(numbers[s..e']) != n)
                                               && r.value == (Min(numbers[s..e]), Max(numbers[s..e]))
    ensures r.Err? <==> forall s: nat, e: nat :: !Window(numbers, n, s, e)
  {
    var start: nat := 0;
    var end: nat := 1;
    if |numbers| <= 1 {
      return Err;
    }
    while end < |numbers|
      invariant Part2Inv(numbers, n, start, end)
      decreases |numbers| - start, |numbers| - end
    {
      var slice := numbers[start..end];
      var sum := Sum(slice);
      if sum == n {
        assert Window(numbers, n, start, end);
        return Ok((Min(slice), Max(slice)));
      } else if sum > n {
        Overshoot(numbers, n, start, end);
        start := start + 1;
        end := start + 1;
      } else {
        SumExtend(numbers, start, end);
        end := end + 1;
      }
    }
    Exhausted(numbers, n, start);
    return Err;
  }

  /** `parse_input`: one unsigned number per line; `None` where the source's `unwrap` panics. */
  function ParseNumbers(lines: seq<string>): (r: Option<seq<nat>>)
    ensures r.Some? <==> forall i :: 0 <= i < |lines| ==> ParseNat(lines[i]).Some?
    ensures r.Some? ==> |r.value| == |lines| && forall i :: 0 <= i < |lines| ==> r.value[i] == ParseNat(lines[i]).value
  {
    if |lines| == 0 then Some([])
    else
      var first, rest := ParseNat(lines[0]), ParseNumbers(lines[1..]);
      if first.Some? && rest.Some? then Some([first.value] + rest.value) else None
  }

  function ParseInput(text: string): Option<seq<nat>> {
    ParseNumbers(Lines(text))
  }
}

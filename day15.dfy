/** Day 15: the elves' memory game. After the starting numbers, each turn speaks 0 if the
    previous number was new, and otherwise how many turns apart its last two utterances were. */
module Day15 {
  import opened Wrappers

  // ---------------------------------------------------------------------------------------------
  // The game, as a sequence

  /** The most recent position of `v` in `s`, if any. */
  function PrevIndex(s: seq<nat>, v: nat): (r: Option<nat>)
    ensures r.None? <==> v !in s
    ensures r.Some? ==> r.value < |s| && s[r.value] == v && forall k :: r.value < k < |s| ==> s[k] != v
  {
    if |s| == 0 then None
    else if s[|s| - 1] == v then Some(|s| - 1)
    else
      var r := PrevIndex(s[..|s| - 1], v);
      assert s == s[..|s| - 1] + [s[|s| - 1]];
      r
  }

  /** A position of `v` with no `v` after it is the most recent one. */
  lemma PrevIndexIs(s: seq<nat>, v: nat, j: nat)
    requires j < |s| && s[j] == v && forall k :: j < k < |s| ==> s[k] != v
    ensures PrevIndex(s, v) == Some(j)
  {
    assert v in s;
  }

  /** The number spoken after `g`: 0 if its last number was never spoken before, else the
      number of turns since that number was last spoken before. */
  function NextNumber(g: seq<nat>): nat
    requires |g| > 0
  {
    var last := g[|g| - 1];
    match PrevIndex(g[..|g| - 1], last)
    case None => 0
    case Some(j) => (|g| - 1) - j
  }

  /** The first `n` numbers spoken, starting from `seeds` (all of the seeds if `n` is smaller). */
  function Game(seeds: seq<nat>, n: nat): (g: seq<nat>)
    requires |seeds| > 0
    ensures |g| == if n <= |seeds| then |seeds| else n
  {
    if n <= |seeds| then seeds
    else
      var g := Game(seeds, n - 1);
      g + [NextNumber(g)]
  }

  /** One more turn. */
  lemma GameNext(seeds: seq<nat>, n: nat)
    requires 0 < |seeds| <= n
    ensures Game(seeds, n + 1) == Game(seeds, n) + [NextNumber(Game(seeds, n))]
  {
  }

  /** Every turn after the seeds follows the rule. */
  lemma {:induction false} GameRule(seeds: seq<nat>, n: nat, k: nat)
    requires |seeds| > 0 && |seeds| <= k < n
    ensures |Game(seeds, n)| == n
    ensures Game(seeds, n)[k] == NextNumber(Game(seeds, n)[..k])
  {
    var g := Game(seeds, n - 1);
    if k < n - 1 {
      GameRule(seeds, n - 1, k);
      assert Game(seeds, n)[..k] == g[..k];
    } else {
      assert Game(seeds, n)[..k] == g;
    }
  }

  /** Later games extend earlier ones. */
  lemma {:induction false} GamePrefix(seeds: seq<nat>, m: nat, n: nat)
    requires |seeds| > 0 && |seeds| <= m <= n
    ensures Game(seeds, n)[..m] == Game(seeds, m)
  {
    if m < n {
      GamePrefix(seeds, m, n - 1);
      var g := Game(seeds, n - 1);
      assert (g + [NextNumber(g)])[..m] == g[..m];
    }
  }

  /** `part1`'s answer: the number spoken on turn `target` (the last seed if the seeds already
      reach that far, and 0 for no seeds and no turns). */
  function Spoken(seeds: seq<nat>, target: nat): nat
    requires |seeds| > 0 || target == 0
  {
    if |seeds| == 0 then 0
    else if target <= |seeds| then seeds[|seeds| - 1]
    else Game(seeds, target)[target - 1]
  }

  // ---------------------------------------------------------------------------------------------
  // The record of positions

  /** The positions at which `v` was spoken in `g`, in order. */
  function Positions(g: seq<nat>, v: nat): seq<nat> {
    if |g| == 0 then []
    else Positions(g[..|g| - 1], v) + (if g[|g| - 1] == v then [|g| - 1] else [])
  }

  /** The positions are exactly those of `v`, in increasing order. */
  lemma {:induction false} PositionsSpec(g: seq<nat>, v: nat)
    ensures forall j :: j in Positions(g, v) <==> 0 <= j < |g| && g[j] == v
    ensures forall a, b :: 0 <= a < b < |Positions(g, v)| ==> Positions(g, v)[a] < Positions(g, v)[b]
    ensures forall a :: 0 <= a < |Positions(g, v)| ==> Positions(g, v)[a] < |g|
  {
    if |g| > 0 {
      var init := g[..|g| - 1];
      PositionsSpec(init, v);
      assert forall j :: 0 <= j < |init| ==> init[j] == g[j];
    }
  }

  /** The last recorded position of `v` is its most recent one. */
  lemma {:induction false} PositionsLast(g: seq<nat>, v: nat)
    ensures |Positions(g, v)| > 0 <==> v in g
    ensures |Positions(g, v)| > 0 ==> Positions(g, v)[|Positions(g, v)| - 1] == PrevIndex(g, v).value
  {
    PositionsSpec(g, v);
    if |g| > 0 {
      var init := g[..|g| - 1];
      PositionsLast(init, v);
      assert g == init + [g[|g| - 1]];
    }
  }

  /** What `SpokenRecord` holds after the numbers `g`: for each number spoken, its positions. */
  ghost predicate Records(inner: map<nat, seq<nat>>, g: seq<nat>) {
    && (forall v :: v in inner <==> v in g)
    && (forall v :: v in inner ==> inner[v] == Positions(g, v))
  }

  /** The record with `index` appended to `n`'s list, which starts empty. */
  function Recorded(inner: map<nat, seq<nat>>, n: nat, index: nat): map<nat, seq<nat>> {
    inner[n := (if n in inner then inner[n] else []) + [index]]
  }

  /** Recording the next number's position keeps the record in step with the game. */
  lemma RecordStep(inner: map<nat, seq<nat>>, g: seq<nat>, n: nat)
    requires Records(inner, g)
    ensures Records(Recorded(inner, n, |g|), g + [n])
  {
    var g' := g + [n];
    assert g'[..|g'| - 1] == g;
    PositionsSpec(g, n);
    if n !in inner {
      assert Positions(g, n) == [] by {
        if Positions(g, n) != [] {
          assert Positions(g, n)[0] in Positions(g, n);
        }
      }
    }
  }

  /** The record answers the game's question: the last number was spoken once iff it is new,
      and otherwise its last two positions are its previous one and the current turn. */
  lemma RecordsNext(inner: map<nat, seq<nat>>, g: seq<nat>)
    requires Records(inner, g) && |g| > 0
    ensures g[|g| - 1] in inner && |inner[g[|g| - 1]]| >= 1
    ensures |inner[g[|g| - 1]]| == 1 <==> PrevIndex(g[..|g| - 1], g[|g| - 1]).None?
    ensures |inner[g[|g| - 1]]| >= 2 ==>
              && inner[g[|g| - 1]][|inner[g[|g| - 1]]| - 1] == |g| - 1
              && inner[g[|g| - 1]][|inner[g[|g| - 1]]| - 2] == PrevIndex(g[..|g| - 1], g[|g| - 1]).value
  {
    var last, init := g[|g| - 1], g[..|g| - 1];
    assert g == init + [last];
    assert Positions(g, last) == Positions(init, last) + [|g| - 1];
    PositionsLast(init, last);
  }

  /** Hence the next number is 0 for a number spoken once, and otherwise the difference of its
      last two turns, the later one being larger. */
  lemma NextFromRecord(inner: map<nat, seq<nat>>, g: seq<nat>, n: nat)
    requires Records(inner, g) && |g| > 0 && n == g[|g| - 1]
    ensures n in inner && |inner[n]| >= 1
    ensures |inner[n]| == 1 ==> NextNumber(g) == 0
    ensures |inner[n]| >= 2 ==> && inner[n][|inner[n]| - 2] < inner[n][|inner[n]| - 1]
                                && NextNumber(g) == inner[n][|inner[n]| - 1] - inner[n][|inner[n]| - 2]
  {
    RecordsNext(inner, g);
  }

  /** `SpokenRecord`: for each number, the turns on which it was spoken. */
  class SpokenRecord {
    var inner: map<nat, seq<nat>>

    constructor ()
      ensures inner == map[]
    {
      inner := map[];
    }

    /** `record_number`: appends `index` to `n`'s list, starting one if `n` is new. */
    method RecordNumber(n: nat, index: nat)
      modifies this
      ensures inner == Recorded(old(inner), n, index)
    {
      if n !in inner {
        assert [] + [index] == [index];
        inner := inner[n := [index]];
      } else {
        inner := inner[n := inner[n] + [index]];
      }
    }

    /** `occurences`: how often `n` was spoken (the source unwraps the lookup). */
    function Occurences(n: nat): nat
      reads this
      requires n in inner
    {
      |inner[n]|
    }

    /** `last_two`: the two most recent turns of `n`, earlier first. */
    function LastTwo(n: nat): (nat, nat)
      reads this
      requires n in inner && |inner[n]| >= 2
    {
      (inner[n][|inner[n]| - 2], inner[n][|inner[n]| - 1])
    }
  }

  /** The first loop of `part1`: records every seed at its turn. */
  method RecordSeeds(spoken: SpokenRecord, input: seq<nat>) returns (index: nat, lastSpoken: nat)
    requires spoken.inner == map[]
    modifies spoken
    ensures index == |input| && Records(spoken.inner, input)
    ensures lastSpoken == if |input| == 0 then 0 else input[|input| - 1]
  {
    index, lastSpoken := 0, 0;
    for k := 0 to |input|
      invariant index == k
      invariant Records(spoken.inner, input[..k])
      invariant lastSpoken == if k == 0 then 0 else input[k - 1]
    {
      RecordStep(spoken.inner, input[..k], input[k]);
      assert input[..k] + [input[k]] == input[..k + 1];
      spoken.RecordNumber(input[k], index);
      lastSpoken := input[k];
      index := index + 1;
    }
    assert input[..|input|] == input;
  }

  /** One turn of the second loop of `part1`: the number after `lastSpoken`, recorded at turn
      `index`. */
  method SpeakNext(spoken: SpokenRecord, ghost game: seq<nat>, index: nat, lastSpoken: nat) returns (next: nat)
    requires Records(spoken.inner, game) && |game| == index > 0 && lastSpoken == game[index - 1]
    modifies spoken
    ensures next == NextNumber(game) && Records(spoken.inner, game + [next])
  {
    ghost var before := spoken.inner;
    NextFromRecord(before, game, lastSpoken);
    var count := spoken.Occurences(lastSpoken);
    if count == 1 {
      next := 0;
    } else {
      var (secondLast, last) := spoken.LastTwo(lastSpoken);
      next := last - secondLast;
    }
    RecordStep(before, game, next);
    spoken.RecordNumber(next, index);
  }

  /** The second loop of `part1`: speaks the next number until turn `target`. */
  method PlayUntil(spoken: SpokenRecord, input: seq<nat>, target: nat, seed: nat) returns (lastSpoken: nat)
    requires |input| > 0 && Records(spoken.inner, input) && seed == input[|input| - 1]
    modifies spoken
    ensures lastSpoken == Spoken(input, target)
  {
    var index: nat := |input|;
    lastSpoken := seed;
    ghost var game := input;
    while index < target
      invariant |input| <= index && (index > |input| ==> index <= target)
      invariant game == Game(input, index) && |game| == index
      invariant Records(spoken.inner, game) && lastSpoken == game[index - 1]
      decreases target - index
    {
      lastSpoken := SpeakNext(spoken, game, index, lastSpoken);
      GameNext(input, index);
      game := game + [lastSpoken];
      index := index + 1;
    }
  }

  /** `part1` (and `part2`, which calls it): play until turn `target` and return the number
      spoken last. `Err` for no seeds and a positive target, where the source's lookup of 0 in
      the empty record panics. */
  method Part1(input: seq<nat>, target: nat) returns (r: Result<nat>)
    ensures |input| == 0 && target > 0 ==> r == Err
    ensures |input| > 0 || target == 0 ==> r == Ok(Spoken(input, target))
  {
    var spoken := new SpokenRecord();
    var index, lastSpoken := RecordSeeds(spoken, input);
    if |input| == 0 {
      if target > 0 {
        return Err;
      }
      return Ok(lastSpoken);
    }
    lastSpoken := PlayUntil(spoken, input, target, lastSpoken);
    r := Ok(lastSpoken);
  }

  /** A turn whose number is known. */
  lemma Turn(seeds: seq<nat>, n: nat, g: seq<nat>, x: nat)
    requires 0 < |seeds| <= n && Game(seeds, n) == g && NextNumber(g) == x
    ensures Game(seeds, n + 1) == g + [x]
  {
  }

  /** The first six turns of the puzzle's first example. */
  lemma ExampleStart(seeds: seq<nat>)
    requires seeds == [0, 3, 6]
    ensures Game(seeds, 6) == [0, 3, 6, 0, 3, 3]
  {
    var g := seeds;
    assert Game(seeds, 3) == g;
    assert NextNumber(g) == 0 by {
      assert g[..2] == [0, 3];
    }
    Turn(seeds, 3, g, 0);
    g := g + [0];
    PrevIndexIs(g[..3], 0, 0);
    Turn(seeds, 4, g, 3);
    g := g + [3];
    PrevIndexIs(g[..4], 3, 1);
    Turn(seeds, 5, g, 3);
  }

  /** The puzzle's first example: from 0, 3, 6 the first ten turns are 0, 3, 6, 0, 3, 3, 1, 0, 4, 0. */
  lemma Example(seeds: seq<nat>)
    requires seeds == [0, 3, 6]
    ensures Game(seeds, 10) == [0, 3, 6, 0, 3, 3, 1, 0, 4, 0]
  {
    ExampleStart(seeds);
    var g: seq<nat> := [0, 3, 6, 0, 3, 3];
    PrevIndexIs(g[..5], 3, 4);
    Turn(seeds, 6, g, 1);
    g := g + [1];
    assert g[..6] == [0, 3, 6, 0, 3, 3];
    Turn(seeds, 7, g, 0);
    g := g + [0];
    PrevIndexIs(g[..7], 0, 3);
    Turn(seeds, 8, g, 4);
    g := g + [4];
    assert g[..8] == [0, 3, 6, 0, 3, 3, 1, 0];
    Turn(seeds, 9, g, 0);
  }
}

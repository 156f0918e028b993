/** Day 7: bag rules. Each line says which bags, and how many of each, a bag of some colour
    must contain; colours are two words. */
module Day07 {
  import opened Wrappers
  import opened Text
  import opened Arith

  newtype u8 = x: int | 0 <= x < 256

  /** `build_graph`'s map: each colour to its list of (count, colour) contents. */
  type Graph = map<string, seq<(u8, string)>>

  /** `chunks(4).filter(|chunk| chunk.len() == 4)`: the complete groups of four words. */
  function FullChunks(words: seq<string>): (r: seq<seq<string>>)
    ensures |r| == |words| / 4
    ensures forall i :: 0 <= i < |r| ==> |r[i]| == 4 && r[i] == words[4 * i..4 * i + 4]
    decreases |words|
  {
    if |words| < 4 then []
    else
      var rest := FullChunks(words[4..]);
      forall i | 0 <= i < |rest| ensures rest[i] == words[4 * (i + 1)..4 * (i + 1) + 4] {
        SliceOfSuffix(words, 4, 4 * i, 4 * i + 4);
      }
      [words[..4]] + rest
  }

  lemma SliceOfSuffix<T>(s: seq<T>, k: nat, i: nat, j: nat)
    requires k <= |s| && i <= j <= |s| - k
    ensures s[k..][i..j] == s[k + i..k + j]
  {
  }

  /** `parse::<u8>()` of a count. */
  function ParseCount(s: string): Option<u8> {
    match ParseNat(s)
    case Some(n) => if n < 256 then Some(n as u8) else None
    case None => None
  }

  /** One chunk `count adjective colour bag(s)` as (count, "adjective colour"). */
  function ParseChunks(chunks: seq<seq<string>>): (r: Option<seq<(u8, string)>>)
    requires forall i :: 0 <= i < |chunks| ==> |chunks[i]| == 4
    ensures r.Some? ==> |r.value| == |chunks|
    ensures r.Some? ==> forall i :: 0 <= i < |chunks| ==>
              r.value[i].1 == chunks[i][1] + " " + chunks[i][2] && ParseNat(chunks[i][0]) == Some(r.value[i].0 as nat)
  {
    if |chunks| == 0 then Some([])
    else
      match (ParseCount(chunks[0][0]), ParseChunks(chunks[1..]))
      case (Some(n), Some(rest)) => Some([(n, chunks[0][1] + " " + chunks[0][2])] + rest)
      case _ => None
  }

  /** The contents side: commas are dropped (`split(',').collect::<String>()`), then the words are
      taken four at a time. "no other bags" has three words and gives no contents. */
  function ParseContents(s: string): (r: Option<seq<(u8, string)>>)
    ensures |Split(Concat(Split(s, ',')), ' ')| < 4 ==> r == Some([])
  {
    ParseChunks(FullChunks(Split(Concat(Split(s, ',')), ' ')))
  }

  function Concat(pieces: seq<string>): string {
    if |pieces| == 0 then "" else pieces[0] + Concat(pieces[1..])
  }

  /** `split(' ').take(2).collect().join(" ")`: the first two words. */
  function FirstTwo(s: string): string {
    var words := Split(s, ' ');
    if |words| >= 2 then words[0] + " " + words[1] else words[0]
  }

  /** One line of `build_graph`: the final '.' is cut off, then the line is split at " contain ";
      the container is the first two words of the trimmed left side. A line without " contain " or
      with an unparsable count (a panic in the source) gives `None`. */
  function ParseRule(line: string): Option<(string, seq<(u8, string)>)> {
    if |line| == 0 then None
    else
      var parts := SplitStr(line[..|line| - 1], " contain ");
      if |parts| < 2 then None
      else
        match ParseContents(parts[1])
        case Some(contents) => Some((FirstTwo(Trim(parts[0])), contents))
        case None => None
  }

  /** Every line parsed, in order; `None` if any line is malformed. */
  function ParseRules(lines: seq<string>): (r: Option<seq<(string, seq<(u8, string)>)>>)
    ensures r.Some? <==> forall i :: 0 <= i < |lines| ==> ParseRule(lines[i]).Some?
    ensures r.Some? ==> |r.value| == |lines| && forall i :: 0 <= i < |lines| ==> r.value[i] == ParseRule(lines[i]).value
  {
    if |lines| == 0 then Some([])
    else
      var first, rest := ParseRule(lines[0]), ParseRules(lines[1..]);
      assert forall i :: 1 <= i < |lines| ==> lines[i] == lines[1..][i - 1];
      if first.Some? && rest.Some? then Some([first.value] + rest.value) else None
  }

  /** `collect::<HashMap<..>>()`: a later rule for the same colour replaces an earlier one. */
  function Collect(rules: seq<(string, seq<(u8, string)>)>): Graph {
    if |rules| == 0 then map[] else Collect(rules[..|rules| - 1])[rules[|rules| - 1].0 := rules[|rules| - 1].1]
  }

  /** Rule `i` is the last one for its colour. */
  predicate LastRule(rules: seq<(string, seq<(u8, string)>)>, i: int) {
    0 <= i < |rules| && forall j :: i < j < |rules| ==> rules[j].0 != rules[i].0
  }

  /** The keys are the colours of the rules, and each maps to the contents of its last rule. */
  lemma {:induction false} CollectSpec(rules: seq<(string, seq<(u8, string)>)>)
    ensures forall k :: k in Collect(rules) <==> exists i :: 0 <= i < |rules| && rules[i].0 == k
    ensures forall i :: LastRule(rules, i) ==> Collect(rules)[rules[i].0] == rules[i].1
  {
    if |rules| > 0 {
      var init := rules[..|rules| - 1];
      CollectSpec(init);
      forall i | LastRule(rules, i) && i < |rules| - 1 ensures LastRule(init, i) {}
      forall k | exists i :: 0 <= i < |rules| && rules[i].0 == k ensures k in Collect(rules) {
        var i :| 0 <= i < |rules| && rules[i].0 == k;
        if i < |rules| - 1 {
          assert init[i].0 == k;
        }
      }
    }
  }

  /** `build_graph`. */
  function BuildGraph(lines: seq<string>): Option<Graph> {
    match ParseRules(lines)
    case Some(rules) => Some(Collect(rules))
    case None => None
  }

  /** A bag of colour `a` directly holds bags of colour `b`. */
  predicate Holds(graph: Graph, a: string, b: string) {
    a in graph && exists i :: 0 <= i < |graph[a]| && graph[a][i].1 == b
  }

  /** A chain of direct containments. */
  ghost predicate IsChain(graph: Graph, p: seq<string>) {
    |p| >= 2 && forall i :: 0 <= i < |p| - 1 ==> Holds(graph, p[i], p[i + 1])
  }

  /** The colours that eventually contain a bag of colour `t`. */
  ghost function Ancestors(graph: Graph, t: string): set<string> {
    set a | a in graph && exists p :: IsChain(graph, p) && p[0] == a && p[|p| - 1] == t
  }

  /** The colours holding some colour of `cs`. */
  function ContainersOf(graph: Graph, cs: set<string>): set<string> {
    set a | a in graph && exists b :: b in cs && Holds(graph, a, b)
  }

  const Target: string := "shiny gold"

  /** Every colour on a chain into `t` whose next link is already known to be an ancestor (or `t`
      itself) is found, once `seen` is closed under "holds something seen or `t`". */
  lemma {:induction false} ChainInSeen(graph: Graph, t: string, seen: set<string>, p: seq<string>, i: nat)
    requires IsChain(graph, p) && p[|p| - 1] == t && i < |p| - 1
    requires forall a, b :: Holds(graph, a, b) && (b == t || b in seen) ==> a in seen
    ensures p[i] in seen
    decreases |p| - i
  {
    assert Holds(graph, p[i], p[i + 1]);
    if i + 1 < |p| - 1 {
      ChainInSeen(graph, t, seen, p, i + 1);
    }
  }

  /** `why` gives every colour of `seen` a chain of containments down to shiny gold. */
  ghost predicate Explained(graph: Graph, seen: set<string>, why: map<string, seq<string>>) {
    forall x :: x in seen ==> x in why && IsChain(graph, why[x]) && why[x][0] == x && why[x][|why[x]| - 1] == Target
  }

  /** Marking one holder `c` of `next` as seen and queueing it. */
  method MarkContainer(graph: Graph, next: string, c: string, queue: seq<string>, seen: set<string>, ghost why: map<string, seq<string>>)
    returns (queue': seq<string>, seen': set<string>, ghost why': map<string, seq<string>>)
    requires next == Target || next in seen
    requires Holds(graph, c, next) && Explained(graph, seen, why)
    ensures queue' == [c] + queue && seen' == seen + {c} && Explained(graph, seen', why')
  {
    why' := why;
    if c !in seen {
      var tail := if next == Target then [Target] else why[next];
      assert IsChain(graph, [c] + tail) by {
        assert forall i :: 0 < i < |[c] + tail| - 1 ==> ([c] + tail)[i + 1] == tail[i];
      }
      why' := why[c := [c] + tail];
    }
    seen' := seen + {c};
    queue' := [c] + queue;
  }

  /** Popping `next` and queueing every colour that holds it. */
  method QueueContainers(graph: Graph, next: string, queue: seq<string>, seen: set<string>, ghost why: map<string, seq<string>>)
    returns (queue': seq<string>, seen': set<string>, ghost why': map<string, seq<string>>)
    requires next == Target || next in seen
    requires Explained(graph, seen, why)
    ensures seen' == seen + ContainersOf(graph, {next})
    ensures Explained(graph, seen', why')
    ensures forall q :: q in queue' <==> q in queue || q in ContainersOf(graph, {next})
  {
    var containers := set a | a in graph && Holds(graph, a, next);
    assert containers == ContainersOf(graph, {next});
    queue', seen', why' := queue, seen, why;
    var rest := containers;
    while rest != {}
      invariant rest <= containers
      invariant seen' == seen + (containers - rest)
      invariant Explained(graph, seen', why')
      invariant forall q :: q in queue' <==> q in queue || q in containers - rest
      decreases rest
    {
      var c :| c in rest;
      queue', seen', why' := MarkContainer(graph, next, c, queue', seen', why');
      rest := rest - {c};
    }
  }

  /** What `part1`'s loop keeps: `why` gives every seen colour a chain down to shiny gold; the queue
      and the popped colours (`done`) hold only shiny gold and seen colours; the seen colours are
      exactly the holders of popped colours; and every seen colour, and shiny gold, is popped or
      still queued. */
  ghost predicate Inv(graph: Graph, queue: seq<string>, seen: set<string>, done: set<string>, why: map<string, seq<string>>) {
    && Explained(graph, seen, why)
    && (forall q :: q in queue ==> q == Target || q in seen)
    && (forall d :: d in done ==> d == Target || d in seen)
    && seen == ContainersOf(graph, done)
    && (forall x :: x in seen ==> x in done || x in queue)
    && (Target in done || Target in queue)
  }

  /** One iteration: `pop_back` and queue the holders of the popped colour. */
  method Step(graph: Graph, queue: seq<string>, seen: set<string>, ghost done: set<string>, ghost why: map<string, seq<string>>)
    returns (queue': seq<string>, seen': set<string>, ghost done': set<string>, ghost why': map<string, seq<string>>)
    requires |queue| > 0 && Inv(graph, queue, seen, done, why)
    ensures Inv(graph, queue', seen', done', why')
  {
    var next := queue[|queue| - 1];
    var rest := queue[..|queue| - 1];
    assert queue == rest + [next];
    queue', seen', why' := QueueContainers(graph, next, rest, seen, why);
    ContainersUnion(graph, done, next);
    done' := done + {next};
  }

  /** `part1`: a queue of colours, starting with "shiny gold". Each popped colour's holders are
      all marked seen and queued again, whether seen before or not, so on a cyclic graph the loop
      never ends: it runs here for at most `fuel` pops and gives `None` if the queue is not empty
      by then. On `Some(n)`, `n` is the number of colours that eventually contain a shiny gold bag. */
  method Part1(graph: Graph, fuel: nat) returns (r: Option<nat>)
    ensures r.Some? ==> r.value == |Ancestors(graph, Target)|
  {
    var queue := [Target];
    var seen: set<string> := {};
    ghost var why: map<string, seq<string>> := map[];
    ghost var done: set<string> := {};
    var steps := 0;
    while |queue| > 0 && steps < fuel
      invariant Inv(graph, queue, seen, done, why)
      decreases fuel - steps
    {
      queue, seen, done, why := Step(graph, queue, seen, done, why);
      steps := steps + 1;
    }
    if |queue| > 0 {
      return None;
    }
    SeenIsAncestors(graph, seen, done, why);
    return Some(|seen|);
  }

  /** Once the queue is empty, `seen` is exactly the set of ancestors of shiny gold. */
  lemma SeenIsAncestors(graph: Graph, seen: set<string>, done: set<string>, why: map<string, seq<string>>)
    requires Explained(graph, seen, why)
    requires seen == ContainersOf(graph, done)
    requires seen <= done && Target in done
    ensures seen == Ancestors(graph, Target)
  {
    forall a, b | Holds(graph, a, b) && (b == Target || b in seen) ensures a in seen {
      assert b in done;
    }
    forall a | a in Ancestors(graph, Target) ensures a in seen {
      var p :| IsChain(graph, p) && p[0] == a && p[|p| - 1] == Target;
      ChainInSeen(graph, Target, seen, p, 0);
    }
    forall a | a in seen ensures a in Ancestors(graph, Target) {
      assert IsChain(graph, why[a]);
    }
  }

  lemma ContainersUnion(graph: Graph, done: set<string>, next: string)
    ensures ContainersOf(graph, done + {next}) == ContainersOf(graph, done) + ContainersOf(graph, {next})
  {
  }

  /** `count_bags` recurses through the contents and indexes the map with each colour (a missing
      colour panics), so it needs every contained colour to be a key and the containment to be
      acyclic; `rank` witnesses the second by decreasing along every containment. */
  predicate Ranked(graph: Graph, rank: map<string, nat>) {
    forall a :: a in graph ==> a in rank && forall i :: 0 <= i < |graph[a]| ==>
      graph[a][i].1 in graph && graph[a][i].1 in rank && rank[graph[a][i].1] < rank[a]
  }

  /** `count_bags`: the bags inside one bag of colour `c`. */
  function CountBags(graph: Graph, rank: map<string, nat>, c: string): nat
    requires Ranked(graph, rank) && c in graph
    decreases rank[c], 1, 0
  {
    SumContents(graph, rank, graph[c], rank[c])
  }

  /** `iter().map(|(a, b)| a + a * count_bags(b)).sum()` over `items`, whose colours rank below `bound`. */
  function SumContents(graph: Graph, rank: map<string, nat>, items: seq<(u8, string)>, bound: nat): nat
    requires Ranked(graph, rank)
    requires forall i :: 0 <= i < |items| ==> items[i].1 in graph && items[i].1 in rank && rank[items[i].1] < bound
    decreases bound, 0, |items|
  {
    if |items| == 0 then 0
    else
      var n := items[0].0 as nat;
      var inner := CountBags(graph, rank, items[0].1);
      n + n * inner + SumContents(graph, rank, items[1..], bound)
  }

  /** The count does not depend on which ranking witnesses acyclicity. */
  lemma {:induction false} CountBagsRankFree(graph: Graph, r1: map<string, nat>, r2: map<string, nat>, c: string)
    requires Ranked(graph, r1) && Ranked(graph, r2) && c in graph
    ensures CountBags(graph, r1, c) == CountBags(graph, r2, c)
    decreases r1[c], 1, 0
  {
    SumContentsRankFree(graph, r1, r2, graph[c], r1[c], r2[c]);
  }

  lemma {:induction false} SumContentsRankFree(graph: Graph, r1: map<string, nat>, r2: map<string, nat>,
                                               items: seq<(u8, string)>, b1: nat, b2: nat)
    requires Ranked(graph, r1) && Ranked(graph, r2)
    requires forall i :: 0 <= i < |items| ==> items[i].1 in graph && items[i].1 in r1 && r1[items[i].1] < b1
    requires forall i :: 0 <= i < |items| ==> items[i].1 in r2 && r2[items[i].1] < b2
    ensures SumContents(graph, r1, items, b1) == SumContents(graph, r2, items, b2)
    decreases b1, 0, |items|
  {
    if |items| > 0 {
      CountBagsRankFree(graph, r1, r2, items[0].1);
      SumContentsRankFree(graph, r1, r2, items[1..], b1, b2);
    }
  }

  /** Every colour appears once in `names`. */
  predicate Distinct(names: seq<string>) {
    forall i, j :: 0 <= i < j < |names| ==> names[i] != names[j]
  }

  /** The chained graph of the tests: each colour in `names` holds two bags of the next one,
      and the last holds none. */
  function ChainOf(names: seq<string>): Graph
  {
    if |names| == 0 then map[] else ChainOf(names[1..])[names[0] := Link(names, 0)]
  }

  /** The contents of the colour at position `i` of the chain. */
  function Link(names: seq<string>, i: nat): seq<(u8, string)>
    requires i < |names|
  {
    if i + 1 < |names| then [(2, names[i + 1])] else []
  }

  /** A ranking of `ChainOf(names)`: the distance to the end of the chain. */
  function ChainRankOf(names: seq<string>): map<string, nat>
  {
    if |names| == 0 then map[] else ChainRankOf(names[1..])[names[0] := |names| - 1]
  }

  lemma {:induction false} ChainLookup(names: seq<string>, i: nat)
    requires Distinct(names) && i < |names|
    ensures names[i] in ChainOf(names) && names[i] in ChainRankOf(names)
    ensures ChainOf(names)[names[i]] == Link(names, i)
    ensures ChainRankOf(names)[names[i]] == |names| - 1 - i
  {
    if i > 0 {
      assert names[i] != names[0];
      ChainLookup(names[1..], i - 1);
      assert names[1..][i - 1] == names[i];
    }
  }

  lemma {:induction false} ChainKeys(names: seq<string>, a: string)
    requires a in ChainOf(names)
    ensures exists i: nat :: i < |names| && names[i] == a
  {
    if a != names[0] {
      ChainKeys(names[1..], a);
      var i: nat :| i < |names[1..]| && names[1..][i] == a;
      assert names[i + 1] == a;
    }
  }

  lemma ChainRanked(names: seq<string>)
    requires Distinct(names)
    ensures Ranked(ChainOf(names), ChainRankOf(names))
  {
    var g: Graph, r: map<string, nat> := ChainOf(names), ChainRankOf(names);
    forall a | a in g
      ensures a in r && forall k :: 0 <= k < |g[a]| ==> g[a][k].1 in g && g[a][k].1 in r && r[g[a][k].1] < r[a]
    {
      ChainKeys(names, a);
      var i: nat :| i < |names| && names[i] == a;
      ChainLookup(names, i);
      if i + 1 < |names| { ChainLookup(names, i + 1); }
    }
  }

  /** Along the chain, the colour at position `i` holds 2 + 4 + ... + 2^(n-1-i) bags. */
  lemma {:induction false} ChainCount(names: seq<string>, i: nat)
    requires Distinct(names) && i < |names|
    ensures Ranked(ChainOf(names), ChainRankOf(names)) && names[i] in ChainOf(names)
    ensures CountBags(ChainOf(names), ChainRankOf(names), names[i]) == Pow(2, |names| - i) - 2
    decreases |names| - i
  {
    ChainRanked(names);
    var g: Graph, r: map<string, nat> := ChainOf(names), ChainRankOf(names);
    ChainLookup(names, i);
    if i + 1 < |names| {
      ChainCount(names, i + 1);
      CountBagsSingle(g, r, names[i], 2, names[i + 1]);
      assert Pow(2, |names| - i) == 2 * Pow(2, |names| - (i + 1));
    } else {
      assert g[names[i]] == [];
      assert Pow(2, |names| - i) == 2 * Pow(2, 0);
    }
  }

  /** A colour holding `n` bags of one colour `d` holds `n + n * CountBags(d)` bags. */
  lemma CountBagsSingle(graph: Graph, rank: map<string, nat>, c: string, n: u8, d: string)
    requires Ranked(graph, rank) && c in graph && graph[c] == [(n, d)]
    ensures d in graph && CountBags(graph, rank, c) == n as nat + n as nat * CountBags(graph, rank, d)
  {
    var items := graph[c];
    assert items[0] == (n, d) && items[1..] == [];
    assert SumContents(graph, rank, items[1..], rank[c]) == 0;
    assert CountBags(graph, rank, c) == SumContents(graph, rank, items, rank[c]);
  }

  /** The test's answer: 2 + 4 + ... + 64 = 126 bags inside a shiny gold bag. */
  lemma ChainExample(names: seq<string>)
    requires names == ["shiny gold", "dark red", "dark orange", "dark yellow", "dark green", "dark blue", "dark violet"]
    ensures Distinct(names) && names[0] in ChainOf(names) && Ranked(ChainOf(names), ChainRankOf(names))
    ensures CountBags(ChainOf(names), ChainRankOf(names), names[0]) == 126
  {
    assert Distinct(names) by {
      forall i, j | 0 <= i < j < |names| ensures names[i] != names[j] {
        assert |names[i]| != |names[j]| || names[i][5] != names[j][5];
      }
    }
    ChainCount(names, 0);
    assert Pow(2, 7) == 128;
  }

  /** The graph of the part 1 test, over its colours in the order of its lines: light red, dark
      orange, bright white, muted yellow, shiny gold, dark olive, vibrant plum, faded blue, dotted
      black. */
  function ExampleGraph(n: seq<string>): Graph
    requires |n| == 9
  {
    map[n[0] := [(1, n[2]), (2, n[3])], n[1] := [(3, n[2]), (4, n[3])], n[2] := [(1, n[4])],
        n[3] := [(2, n[4]), (9, n[7])], n[4] := [(1, n[5]), (2, n[6])], n[5] := [(3, n[7]), (4, n[8])],
        n[6] := [(5, n[7]), (6, n[8])], n[7] := [], n[8] := []]
  }

  /** The part 1 test's colours, in the order of its lines. */
  predicate ExampleNames(names: seq<string>) {
    names == ["light red", "dark orange", "bright white", "muted yellow", "shiny gold",
              "dark olive", "vibrant plum", "faded blue", "dotted black"]
  }

  /** The colours the part 1 test expects: light red, dark orange, bright white, muted yellow. */
  function ExampleHolders(names: seq<string>): set<string>
    requires |names| == 9
  {
    {names[0], names[1], names[2], names[3]}
  }

  lemma ExampleDistinct(names: seq<string>)
    requires ExampleNames(names)
    ensures Distinct(names) && Target == names[4] && |ExampleHolders(names)| == 4
  {
    forall i, j | 0 <= i < j < |names| ensures names[i] != names[j] {
      assert |names[i]| != |names[j]| || names[i][0] != names[j][0];
    }
  }

  /** In the test graph only light red, dark orange, bright white and muted yellow hold shiny gold
      or one of themselves. */
  lemma ExampleClosed(names: seq<string>)
    requires ExampleNames(names)
    ensures forall a, b :: Holds(ExampleGraph(names), a, b) && (b == Target || b in ExampleHolders(names)) ==>
      a in ExampleHolders(names)
  {
    ExampleDistinct(names);
    var g := ExampleGraph(names);
    forall a, b | Holds(g, a, b) && (b == Target || b in ExampleHolders(names)) ensures a in ExampleHolders(names) {
      var i :| 0 <= i < |g[a]| && g[a][i].1 == b;
    }
  }

  /** Each of those four reaches shiny gold in one or two steps. */
  lemma ExampleChains(names: seq<string>)
    requires ExampleNames(names)
    ensures ExampleHolders(names) <= Ancestors(ExampleGraph(names), Target)
  {
    ExampleDistinct(names);
    var g := ExampleGraph(names);
    assert Holds(g, names[0], names[2]) by { assert g[names[0]][0].1 == names[2]; }
    assert Holds(g, names[1], names[2]) by { assert g[names[1]][0].1 == names[2]; }
    assert Holds(g, names[2], names[4]) by { assert g[names[2]][0].1 == names[4]; }
    assert Holds(g, names[3], names[4]) by { assert g[names[3]][0].1 == names[4]; }
    assert IsChain(g, [names[0], names[2], names[4]]);
    assert IsChain(g, [names[1], names[2], names[4]]);
    assert IsChain(g, [names[2], names[4]]);
    assert IsChain(g, [names[3], names[4]]);
  }

  /** The part 1 test's answer: four colours (light red, dark orange, bright white, muted yellow)
      eventually contain a shiny gold bag. */
  lemma HoldersExample(names: seq<string>)
    requires ExampleNames(names)
    ensures Ancestors(ExampleGraph(names), Target) == ExampleHolders(names)
    ensures |Ancestors(ExampleGraph(names), Target)| == 4
  {
    ExampleDistinct(names);
    ExampleClosed(names);
    ExampleChains(names);
    AncestorsClosed(ExampleGraph(names), ExampleHolders(names));
  }

  /** A set of colours that reach shiny gold, closed under "holds shiny gold or a member", is
      exactly the set of ancestors of shiny gold. */
  lemma AncestorsClosed(graph: Graph, holders: set<string>)
    requires holders <= Ancestors(graph, Target)
    requires forall a, b :: Holds(graph, a, b) && (b == Target || b in holders) ==> a in holders
    ensures Ancestors(graph, Target) == holders
  {
    forall a | a in Ancestors(graph, Target) ensures a in holders {
      var p :| IsChain(graph, p) && p[0] == a && p[|p| - 1] == Target;
      ChainInSeen(graph, Target, holders, p, 0);
    }
  }
}

/** Day 16: ticket translation. Each field has a rule of two inclusive ranges; part 1 adds up the
    values of nearby tickets that no rule accepts, part 2 searches depth-first for an order of the
    rules that fits every valid ticket and multiplies the "departure" fields of one's own ticket. */
module Day16 {
  import opened Wrappers
  import opened Arith
  import opened Text

  /** A field's rule: its name and two inclusive ranges. */
  datatype Rule = Rule(field: string, rule1: (nat, nat), rule2: (nat, nat))

  type Ticket = seq<nat>

  /** The numbers from `lo` up to but not including `hi`. */
  function Interval(lo: nat, hi: nat): (s: set<nat>)
    ensures forall x :: x in s <==> lo <= x < hi
    decreases hi - lo
  {
    if hi <= lo then {} else Interval(lo, hi - 1) + {hi - 1}
  }

  /** `Rule::accepts`: the value lies in one of the rule's two inclusive ranges. */
  function Accepts(rule: Rule, n: nat): (b: bool)
    ensures b <==> n in Interval(rule.rule1.0, rule.rule1.1 + 1) + Interval(rule.rule2.0, rule.rule2.1 + 1)
  {
    (rule.rule1.0 <= n && rule.rule1.1 >= n) || (rule.rule2.0 <= n && rule.rule2.1 >= n)
  }

  /** `rules.iter().any(|rule| rule.accepts(n))`. */
  function AnyAccepts(rules: seq<Rule>, n: nat): (b: bool)
    ensures b <==> exists i :: 0 <= i < |rules| && Accepts(rules[i], n)
  {
    if |rules| == 0 then false
    else Accepts(rules[0], n) || AnyAccepts(rules[1..], n)
  }

  /** Every value of the ticket is accepted by some rule. */
  predicate Valid(rules: seq<Rule>, ticket: Ticket) {
    forall k :: 0 <= k < |ticket| ==> AnyAccepts(rules, ticket[k])
  }

  /** `ticket.iter().find(...)`: the position of the first value no rule accepts. */
  function FindInvalid(rules: seq<Rule>, ticket: Ticket): (r: Option<nat>)
    ensures r.None? <==> Valid(rules, ticket)
    ensures r.Some? ==> r.value < |ticket| && !AnyAccepts(rules, ticket[r.value])
    ensures r.Some? ==> forall k :: 0 <= k < r.value ==> AnyAccepts(rules, ticket[k])
  {
    if |ticket| == 0 then None
    else if !AnyAccepts(rules, ticket[0]) then Some(0)
    else
      match FindInvalid(rules, ticket[1..])
      case None => None
      case Some(k) => Some(k + 1)
  }

  /** What one ticket adds to the error rate: its first invalid value, or nothing. */
  function Error(rules: seq<Rule>, ticket: Ticket): nat {
    match FindInvalid(rules, ticket)
    case None => 0
    case Some(k) => ticket[k]
  }

  /** `part1`'s `filter_map(...).sum()` over the nearby tickets. */
  function ErrorRate(rules: seq<Rule>, tickets: seq<Ticket>): nat {
    if |tickets| == 0 then 0 else Error(rules, tickets[0]) + ErrorRate(rules, tickets[1..])
  }

  /** The error rate adds up over the tickets. */
  lemma {:induction false} ErrorRateAppend(rules: seq<Rule>, a: seq<Ticket>, b: seq<Ticket>)
    ensures ErrorRate(rules, a + b) == ErrorRate(rules, a) + ErrorRate(rules, b)
  {
    if |a| == 0 {
      assert a + b == b;
    } else {
      assert (a + b)[1..] == a[1..] + b;
      ErrorRateAppend(rules, a[1..], b);
    }
  }

  /** Valid tickets add nothing, and each invalid one adds its first value that no rule accepts. */
  lemma ErrorOfTicket(rules: seq<Rule>, ticket: Ticket)
    ensures Valid(rules, ticket) ==> ErrorRate(rules, [ticket]) == 0
    ensures !Valid(rules, ticket) ==> exists k :: && 0 <= k < |ticket|
                                                  && ErrorRate(rules, [ticket]) == ticket[k]
                                                  && !AnyAccepts(rules, ticket[k])
                                                  && forall j :: 0 <= j < k ==> AnyAccepts(rules, ticket[j])
  {
    assert [ticket][1..] == [];
    if !Valid(rules, ticket) {
      var k := FindInvalid(rules, ticket).value;
      assert ErrorRate(rules, [ticket]) == ticket[k];
    }
  }

  /** A pool of valid tickets has error rate 0. */
  lemma {:induction false} ErrorRateOfValid(rules: seq<Rule>, tickets: seq<Ticket>)
    requires forall i :: 0 <= i < |tickets| ==> Valid(rules, tickets[i])
    ensures ErrorRate(rules, tickets) == 0
  {
    if |tickets| > 0 {
      ErrorRateOfValid(rules, tickets[1..]);
    }
  }

  /** Rust's `filter(...).collect()`: the elements that satisfy `keep`, in order. */
  function Filter<T>(xs: seq<T>, keep: T -> bool): (r: seq<T>)
    ensures |r| <= |xs|
    ensures forall i :: 0 <= i < |r| ==> keep(r[i]) && r[i] in xs
    ensures forall i :: 0 <= i < |xs| && keep(xs[i]) ==> xs[i] in r
  {
    if |xs| == 0 then []
    else
      var rest := Filter(xs[1..], keep);
      assert forall x :: x in xs[1..] ==> x in xs;
      if keep(xs[0]) then [xs[0]] + rest else rest
  }

  /** Filtering keeps the order: it distributes over concatenation. */
  lemma {:induction false} FilterAppend<T>(a: seq<T>, b: seq<T>, keep: T -> bool)
    ensures Filter(a + b, keep) == Filter(a, keep) + Filter(b, keep)
  {
    if |a| == 0 {
      assert a + b == b;
    } else {
      assert (a + b)[0] == a[0] && (a + b)[1..] == a[1..] + b;
      FilterAppend(a[1..], b, keep);
    }
  }

  /** `filter_valid_tickets`: the tickets whose every value some rule accepts, in order. */
  function FilterValid(tickets: seq<Ticket>, rules: seq<Rule>): (r: seq<Ticket>)
    ensures forall i :: 0 <= i < |r| ==> Valid(rules, r[i]) && r[i] in tickets
    ensures forall i :: 0 <= i < |tickets| && Valid(rules, tickets[i]) ==> tickets[i] in r
  {
    Filter(tickets, (t: Ticket) => Valid(rules, t))
  }

  /** Valid tickets are exactly those without an error. */
  lemma FilterValidNoErrors(tickets: seq<Ticket>, rules: seq<Rule>)
    ensures ErrorRate(rules, FilterValid(tickets, rules)) == 0
  {
    ErrorRateOfValid(rules, FilterValid(tickets, rules));
  }

  /** The rules of the test of `filter_valid_tickets`. */
  const FilterRules: seq<Rule> := [Rule("class", (1, 3), (5, 7)), Rule("row", (6, 11), (33, 44)), Rule("seat", (13, 40), (45, 50))]

  /** The test's nearby tickets: only the first one is valid. */
  lemma FilterValidExample(rules: seq<Rule>, tickets: seq<Ticket>)
    requires rules == FilterRules
    requires tickets == [[7, 3, 47], [40, 4, 50], [55, 2, 20], [38, 6, 12]]
    ensures FilterValid(tickets, rules) == [[7, 3, 47]]
  {
    ExampleValid(rules, tickets[0]);
    ExampleInvalid(rules, tickets[1], 1);
    ExampleInvalid(rules, tickets[2], 0);
    ExampleInvalid(rules, tickets[3], 2);
    FilterFirstOfFour(tickets, (t: Ticket) => Valid(rules, t));
  }

  /** Of four elements only the first is kept. */
  lemma FilterFirstOfFour<T>(xs: seq<T>, keep: T -> bool)
    requires |xs| == 4 && keep(xs[0]) && !keep(xs[1]) && !keep(xs[2]) && !keep(xs[3])
    ensures Filter(xs, keep) == [xs[0]]
  {
    var x3 := xs[1..][1..][1..];
    assert x3 == [xs[3]] && x3[1..] == [];
    assert Filter(x3, keep) == [];
    assert Filter(xs[1..][1..], keep) == [];
    assert Filter(xs[1..], keep) == [];
  }

  lemma ExampleValid(rules: seq<Rule>, ticket: Ticket)
    requires rules == FilterRules && ticket == [7, 3, 47]
    ensures Valid(rules, ticket)
  {
    assert Accepts(rules[0], 7) && Accepts(rules[0], 3) && Accepts(rules[2], 47);
  }

  lemma ExampleInvalid(rules: seq<Rule>, ticket: Ticket, k: nat)
    requires rules == FilterRules && k < |ticket| && ticket[k] in {4, 55, 12}
    ensures !Valid(rules, ticket)
  {
    assert !AnyAccepts(rules, ticket[k]);
  }

  // The arrangement search.

  /** Along `arrangement.iter().zip(ticket.iter())`, each rule accepts the value at its position. */
  predicate Fits(arrangement: seq<Rule>, ticket: Ticket) {
    forall i :: 0 <= i < |arrangement| && i < |ticket| ==> Accepts(arrangement[i], ticket[i])
  }

  /** The arrangement fits every ticket of the pool. */
  predicate FitsAll(arrangement: seq<Rule>, pool: seq<Ticket>) {
    forall j :: 0 <= j < |pool| ==> Fits(arrangement, pool[j])
  }

  /** No rule occurs twice. */
  predicate Distinct(arrangement: seq<Rule>) {
    forall i, j :: 0 <= i < j < |arrangement| ==> arrangement[i] != arrangement[j]
  }

  /** What the queue holds: distinct rules, all taken from `rules`. */
  predicate Candidate(rules: seq<Rule>, arrangement: seq<Rule>) {
    Distinct(arrangement) && forall i :: 0 <= i < |arrangement| ==> arrangement[i] in rules
  }

  predicate Candidates(rules: seq<Rule>, queue: seq<seq<Rule>>) {
    forall k :: 0 <= k < |queue| ==> Candidate(rules, queue[k])
  }

  /** A complete arrangement: every rule's place, no rule twice, fitting every ticket. */
  predicate Solution(rules: seq<Rule>, pool: seq<Ticket>, arrangement: seq<Rule>) {
    |arrangement| == |rules| && Candidate(rules, arrangement) && FitsAll(arrangement, pool)
  }

  /** The queue at the start: one single-rule arrangement per rule, in order. */
  function Initial(rules: seq<Rule>): (q: seq<seq<Rule>>)
    ensures |q| == |rules| && forall k :: 0 <= k < |q| ==> q[k] == [rules[k]]
  {
    seq(|rules|, k requires 0 <= k < |rules| => [rules[k]])
  }

  /** The `for rule in rules` loop: each rule not yet in the arrangement extends it, and the
      extension is pushed to the front of the queue. */
  function Pushes(arrangement: seq<Rule>, rules: seq<Rule>, queue: seq<seq<Rule>>): seq<seq<Rule>> {
    if |rules| == 0 then queue
    else
      var before := Pushes(arrangement, rules[..|rules| - 1], queue);
      var rule := rules[|rules| - 1];
      if rule !in arrangement then [arrangement + [rule]] + before else before
  }

  /** The pushes come in front of the old queue, at most one per rule, and each is the
      arrangement extended by one of the rules it lacks. */
  lemma {:induction false} PushesShape(arrangement: seq<Rule>, rules: seq<Rule>, queue: seq<seq<Rule>>)
    ensures |queue| <= |Pushes(arrangement, rules, queue)| <= |queue| + |rules|
    ensures Pushes(arrangement, rules, queue)[|Pushes(arrangement, rules, queue)| - |queue|..] == queue
    ensures forall k :: 0 <= k < |Pushes(arrangement, rules, queue)| - |queue| ==>
              && |Pushes(arrangement, rules, queue)[k]| == |arrangement| + 1
              && Pushes(arrangement, rules, queue)[k] == arrangement + [Pushes(arrangement, rules, queue)[k][|arrangement|]]
              && Pushes(arrangement, rules, queue)[k][|arrangement|] in rules
              && Pushes(arrangement, rules, queue)[k][|arrangement|] !in arrangement
  {
    if |rules| > 0 {
      var init := rules[..|rules| - 1];
      PushesShape(arrangement, init, queue);
      var before := Pushes(arrangement, init, queue);
      var rule := rules[|rules| - 1];
      assert forall x :: x in init ==> x in rules;
      if rule !in arrangement {
        var p := [arrangement + [rule]] + before;
        assert p == Pushes(arrangement, rules, queue);
        assert p[|p| - |queue|..] == before[|before| - |queue|..];
        forall k | 0 < k < |p| - |queue|
          ensures |p[k]| == |arrangement| + 1 && p[k] == arrangement + [p[k][|arrangement|]]
          ensures p[k][|arrangement|] in rules && p[k][|arrangement|] !in arrangement
        {
          assert p[k] == before[k - 1];
        }
        assert p[0][|arrangement|] == rule;
      }
    }
  }

  /** Each rule the arrangement lacks is pushed. */
  lemma {:induction false} PushesHas(arrangement: seq<Rule>, rules: seq<Rule>, queue: seq<seq<Rule>>, rule: Rule)
      returns (k: nat)
    requires rule in rules && rule !in arrangement
    ensures k < |Pushes(arrangement, rules, queue)| - |queue|
    ensures Pushes(arrangement, rules, queue)[k] == arrangement + [rule]
  {
    var init := rules[..|rules| - 1];
    PushesShape(arrangement, init, queue);
    var last := rules[|rules| - 1];
    if rule == last {
      k := 0;
    } else {
      assert rules == init + [last];
      assert rule in init;
      k := PushesHas(arrangement, init, queue, rule);
      if last !in arrangement {
        k := k + 1;
      }
    }
  }

  /** The search's measure: an arrangement of length `l` stands for all its extensions up to
      length `n`, so that popping it and pushing at most `n` longer ones makes the queue lighter. */
  function Weight(n: nat, l: nat): (w: nat)
    ensures w >= 1
    decreases if l >= n then 0 else n - l
  {
    if l >= n then 1 else 1 + n * Weight(n, l + 1)
  }

  function QueueWeight(n: nat, queue: seq<seq<Rule>>): nat {
    if |queue| == 0 then 0 else Weight(n, |queue[0]|) + QueueWeight(n, queue[1..])
  }

  /** The pushes weigh at most one `Weight(n, |arrangement| + 1)` per rule. */
  lemma {:induction false} PushesWeight(n: nat, arrangement: seq<Rule>, rules: seq<Rule>, queue: seq<seq<Rule>>)
    ensures QueueWeight(n, Pushes(arrangement, rules, queue)) <= QueueWeight(n, queue) + |rules| * Weight(n, |arrangement| + 1)
  {
    if |rules| > 0 {
      var init := rules[..|rules| - 1];
      PushesWeight(n, arrangement, init, queue);
      var before := Pushes(arrangement, init, queue);
      var rule := rules[|rules| - 1];
      var w := Weight(n, |arrangement| + 1);
      OneMore(QueueWeight(n, before), QueueWeight(n, queue), |init|, w);
      if rule !in arrangement {
        var p := [arrangement + [rule]] + before;
        assert p[1..] == before;
        assert QueueWeight(n, p) == w + QueueWeight(n, before);
      }
    }
  }

  lemma OneMore(a: nat, b: nat, m: nat, w: nat)
    requires a <= b + m * w
    ensures a <= b + (m + 1) * w && a + w <= b + (m + 1) * w
  {
    assert (m + 1) * w == m * w + w;
  }

  /** A distinct sequence drawn from `rules` is no longer than `rules`. */
  lemma DistinctBound(rules: seq<Rule>, arrangement: seq<Rule>)
    requires Candidate(rules, arrangement)
    ensures |arrangement| <= |rules|
  {
    DistinctCard(arrangement);
    SeqCard(rules);
    SubsetCard(set x | x in arrangement, set x | x in rules);
  }

  lemma {:induction false} DistinctCard(s: seq<Rule>)
    requires Distinct(s)
    ensures |set x | x in s| == |s|
  {
    if |s| > 0 {
      var init := s[..|s| - 1];
      DistinctCard(init);
      assert (set x | x in s) == (set x | x in init) + {s[|s| - 1]} by {
        assert s == init + [s[|s| - 1]];
      }
      assert s[|s| - 1] !in init;
    }
  }

  lemma {:induction false} SeqCard(s: seq<Rule>)
    ensures |set x | x in s| <= |s|
  {
    if |s| > 0 {
      var init := s[..|s| - 1];
      SeqCard(init);
      assert (set x | x in s) == (set x | x in init) + {s[|s| - 1]} by {
        assert s == init + [s[|s| - 1]];
      }
    }
  }

  /** One turn of the `while let` loop lightens the queue, both when the popped arrangement is
      dropped and when an arrangement shorter than `rules` is extended. */
  lemma Lighter(rules: seq<Rule>, queue: seq<seq<Rule>>)
    requires |queue| > 0
    ensures QueueWeight(|rules|, queue[1..]) < QueueWeight(|rules|, queue)
    ensures |queue[0]| < |rules| ==> QueueWeight(|rules|, Pushes(queue[0], rules, queue[1..])) < QueueWeight(|rules|, queue)
  {
    var a, rest, n := queue[0], queue[1..], |rules|;
    if |a| < n {
      PushesWeight(n, a, rules, rest);
      assert Weight(n, |a|) == 1 + n * Weight(n, |a| + 1);
    }
  }

  /** The queue's entries stay candidates, and a candidate is never longer than `rules`. */
  lemma CandidatesStep(rules: seq<Rule>, queue: seq<seq<Rule>>)
    requires Candidates(rules, queue) && |queue| > 0
    ensures |queue[0]| <= |rules|
    ensures Candidates(rules, queue[1..]) && Candidates(rules, Pushes(queue[0], rules, queue[1..]))
  {
    var a, rest := queue[0], queue[1..];
    assert Candidate(rules, a);
    DistinctBound(rules, a);
    var p := Pushes(a, rules, rest);
    PushesShape(a, rules, rest);
    forall k | 0 <= k < |p| ensures Candidate(rules, p[k]) {
      if k >= |p| - |rest| {
        assert p[k] == p[|p| - |rest|..][k - (|p| - |rest|)];
      } else {
        ExtendCandidate(rules, a, p[k][|a|]);
      }
    }
  }

  lemma ExtendCandidate(rules: seq<Rule>, arrangement: seq<Rule>, rule: Rule)
    requires Candidate(rules, arrangement) && rule in rules && rule !in arrangement
    ensures Candidate(rules, arrangement + [rule])
  {
  }

  /** The search the loop performs, one turn per call: pop the front arrangement; if it fits the
      pool and places every rule it is the answer, if it fits and is shorter its extensions go to
      the front, and when the queue runs dry there is no answer. (An entry longer than `rules`
      never reaches the queue, see `CandidatesStep`; the search drops one.) */
  function Search(rules: seq<Rule>, pool: seq<Ticket>, queue: seq<seq<Rule>>): Result<seq<Rule>>
    decreases QueueWeight(|rules|, queue)
  {
    if |queue| == 0 then Err
    else
      Lighter(rules, queue);
      var a := queue[0];
      if FitsAll(a, pool) then
        if |a| == |rules| then Ok(a)
        else if |a| < |rules| then Search(rules, pool, Pushes(a, rules, queue[1..]))
        else Search(rules, pool, queue[1..])
      else Search(rules, pool, queue[1..])
  }

  /** What the search returns is a complete arrangement. */
  lemma {:induction false} SearchSound(rules: seq<Rule>, pool: seq<Ticket>, queue: seq<seq<Rule>>)
    requires Candidates(rules, queue)
    ensures Search(rules, pool, queue).Ok? ==> Solution(rules, pool, Search(rules, pool, queue).value)
    decreases QueueWeight(|rules|, queue)
  {
    if |queue| > 0 {
      Lighter(rules, queue);
      CandidatesStep(rules, queue);
      var a := queue[0];
      if FitsAll(a, pool) {
        if |a| != |rules| {
          SearchSound(rules, pool, Pushes(a, rules, queue[1..]));
        }
      } else {
        SearchSound(rules, pool, queue[1..]);
      }
    }
  }

  /** A rule sequence fits where a longer one it begins does. */
  lemma PrefixFits(prefix: seq<Rule>, s: seq<Rule>, pool: seq<Ticket>)
    requires prefix <= s && FitsAll(s, pool)
    ensures FitsAll(prefix, pool)
  {
    forall j, i | 0 <= j < |pool| && 0 <= i < |prefix| && i < |pool[j]|
      ensures Accepts(prefix[i], pool[j][i])
    {
      assert Fits(s, pool[j]);
      assert prefix[i] == s[i];
    }
  }

  /** While some complete arrangement begins with an entry of the queue, the search finds an
      answer: no complete arrangement is missed. */
  lemma {:induction false} SearchComplete(rules: seq<Rule>, pool: seq<Ticket>, queue: seq<seq<Rule>>, s: seq<Rule>, k: nat)
    requires Candidates(rules, queue) && Solution(rules, pool, s) && k < |queue| && queue[k] <= s
    ensures Search(rules, pool, queue).Ok?
    decreases QueueWeight(|rules|, queue)
  {
    Lighter(rules, queue);
    CandidatesStep(rules, queue);
    var a, rest := queue[0], queue[1..];
    if k == 0 {
      PrefixFits(a, s, pool);
      if |a| != |rules| {
        assert |a| < |s|;
        var rule := s[|a|];
        assert rule !in a by {
          forall i | 0 <= i < |a| ensures a[i] != rule {
            assert a[i] == s[i];
          }
        }
        var k' := PushesHas(a, rules, rest, rule);
        assert a + [rule] <= s;
        SearchComplete(rules, pool, Pushes(a, rules, rest), s, k');
      }
    } else {
      assert rest[k - 1] == queue[k];
      if FitsAll(a, pool) {
        if |a| != |rules| {
          var p := Pushes(a, rules, rest);
          PushesShape(a, rules, rest);
          assert p[|p| - |rest| + (k - 1)] == p[|p| - |rest|..][k - 1];
          SearchComplete(rules, pool, p, s, |p| - |rest| + (k - 1));
        }
      } else {
        SearchComplete(rules, pool, rest, s, k - 1);
      }
    }
  }

  lemma InitialCandidates(rules: seq<Rule>)
    ensures Candidates(rules, Initial(rules))
  {
  }

  /** From the initial queue: `Ok` holds a complete arrangement, and `Err` means there is none
      (for at least one rule; with no rules the queue starts empty and the answer is `Err`). */
  lemma ArrangementSpec(rules: seq<Rule>, pool: seq<Ticket>)
    ensures Search(rules, pool, Initial(rules)).Ok? ==> Solution(rules, pool, Search(rules, pool, Initial(rules)).value)
    ensures |rules| > 0 && (exists s :: Solution(rules, pool, s)) ==> Search(rules, pool, Initial(rules)).Ok?
    ensures |rules| == 0 ==> Search(rules, pool, Initial(rules)) == Err
  {
    InitialCandidates(rules);
    SearchSound(rules, pool, Initial(rules));
    if |rules| > 0 && exists s :: Solution(rules, pool, s) {
      var s :| Solution(rules, pool, s);
      var i :| 0 <= i < |rules| && rules[i] == s[0];
      assert Initial(rules)[i] == [s[0]] <= s;
      SearchComplete(rules, pool, Initial(rules), s, i);
    }
  }

  /** `find_valid_rule_arrangement`: the queue as a sequence whose front is index 0. */
  method FindArrangement(rules: seq<Rule>, pool: seq<Ticket>) returns (r: Result<seq<Rule>>)
    ensures r == Search(rules, pool, Initial(rules))
  {
    var queue: seq<seq<Rule>> := [];
    for k := 0 to |rules|
      invariant |queue| == k && forall i :: 0 <= i < k ==> queue[i] == [rules[i]]
    {
      queue := queue + [[rules[k]]];
    }
    assert queue == Initial(rules);
    InitialCandidates(rules);
    while |queue| > 0
      invariant Candidates(rules, queue)
      invariant Search(rules, pool, queue) == Search(rules, pool, Initial(rules))
      decreases QueueWeight(|rules|, queue)
    {
      Lighter(rules, queue);
      CandidatesStep(rules, queue);
      var arrangement := queue[0];
      queue := queue[1..];
      if FitsAll(arrangement, pool) {
        if |arrangement| == |rules| {
          return Ok(arrangement);
        }
        ghost var rest := queue;
        for k := 0 to |rules|
          invariant queue == Pushes(arrangement, rules[..k], rest)
        {
          assert rules[..k + 1][..k] == rules[..k];
          if rules[k] !in arrangement {
            queue := [arrangement + [rules[k]]] + queue;
          }
        }
        assert rules[..|rules|] == rules;
      }
    }
    return Err;
  }

  /** The test's rules and valid tickets. */
  const ExampleRules: seq<Rule> := [Rule("class", (0, 1), (4, 19)), Rule("row", (0, 5), (8, 19)), Rule("seat", (0, 13), (16, 19))]
  const ExamplePool: seq<Ticket> := [[3, 9, 18], [15, 1, 5], [5, 14, 9]]

  /** The depth-first order on the test's data: "class" fails first, "row" is extended, its last
      extension "row, seat" is tried before "row, class", and "row, class, seat" is the answer. */
  lemma SearchExample(rules: seq<Rule>, pool: seq<Ticket>)
    requires rules == ExampleRules && pool == ExamplePool
    ensures Search(rules, pool, Initial(rules)) == Ok([rules[1], rules[0], rules[2]])
  {
    ExampleFirstTurns(rules, pool);
    ExampleLastTurns(rules, pool);
  }

  /** "class" fails on the first ticket, "row" fits and is extended. */
  lemma ExampleFirstTurns(rules: seq<Rule>, pool: seq<Ticket>)
    requires rules == ExampleRules && pool == ExamplePool
    ensures Search(rules, pool, Initial(rules)) == Search(rules, pool, [[rules[1], rules[2]], [rules[1], rules[0]], [rules[2]]])
  {
    var cls, row, seat := rules[0], rules[1], rules[2];
    var q0 := Initial(rules);
    assert q0[0] == [cls] && !Fits([cls], pool[0]);
    SearchDrops(rules, pool, q0);
    var q1 := q0[1..];
    assert q1[0] == [row] && q1[1..] == [[seat]];
    ExampleRowFits(rules, pool);
    SearchExtends(rules, pool, q1);
    ExampleExtendRow(rules, [[seat]]);
    assert Pushes(q1[0], rules, q1[1..]) == [[row, seat], [row, cls], [seat]];
  }

  /** "row, seat" fails on the third ticket, "row, class" fits and is extended, and
      "row, class, seat" fits and is complete. */
  lemma ExampleLastTurns(rules: seq<Rule>, pool: seq<Ticket>)
    requires rules == ExampleRules && pool == ExamplePool
    ensures Search(rules, pool, [[rules[1], rules[2]], [rules[1], rules[0]], [rules[2]]]) == Ok([rules[1], rules[0], rules[2]])
  {
    var cls, row, seat := rules[0], rules[1], rules[2];
    var q2: seq<seq<Rule>> := [[row, seat], [row, cls], [seat]];
    assert q2[0] == [row, seat];
    assert !Accepts(seat, pool[2][1]);
    assert !Fits([row, seat], pool[2]);
    SearchDrops(rules, pool, q2);
    var q3 := q2[1..];
    assert q3[0] == [row, cls] && q3[1..] == [[seat]];
    ExampleRowClassFits(rules, pool);
    SearchExtends(rules, pool, q3);
    ExampleExtendRowClass(rules, [[seat]]);
    var q4: seq<seq<Rule>> := [[row, cls, seat], [seat]];
    assert Pushes(q3[0], rules, q3[1..]) == q4;
    ExampleAnswerFits(rules, pool);
    assert q4[0] == [row, cls, seat];
  }

  /** A turn that drops the popped arrangement. */
  lemma SearchDrops(rules: seq<Rule>, pool: seq<Ticket>, queue: seq<seq<Rule>>)
    requires |queue| > 0 && !FitsAll(queue[0], pool)
    ensures Search(rules, pool, queue) == Search(rules, pool, queue[1..])
  {
  }

  /** A turn that extends the popped arrangement. */
  lemma SearchExtends(rules: seq<Rule>, pool: seq<Ticket>, queue: seq<seq<Rule>>)
    requires |queue| > 0 && FitsAll(queue[0], pool) && |queue[0]| < |rules|
    ensures Search(rules, pool, queue) == Search(rules, pool, Pushes(queue[0], rules, queue[1..]))
  {
  }

  lemma ExampleRowFits(rules: seq<Rule>, pool: seq<Ticket>)
    requires rules == ExampleRules && pool == ExamplePool
    ensures FitsAll([rules[1]], pool)
  {
  }

  lemma ExampleRowClassFits(rules: seq<Rule>, pool: seq<Ticket>)
    requires rules == ExampleRules && pool == ExamplePool
    ensures FitsAll([rules[1], rules[0]], pool)
  {
  }

  lemma ExampleAnswerFits(rules: seq<Rule>, pool: seq<Ticket>)
    requires rules == ExampleRules && pool == ExamplePool
    ensures FitsAll([rules[1], rules[0], rules[2]], pool)
  {
  }

  /** One more rule of the loop. */
  lemma PushesNext(arrangement: seq<Rule>, rules: seq<Rule>, k: nat, queue: seq<seq<Rule>>)
    requires k < |rules|
    ensures Pushes(arrangement, rules[..k + 1], queue)
            == (if rules[k] !in arrangement then [arrangement + [rules[k]]] else []) + Pushes(arrangement, rules[..k], queue)
  {
    assert rules[..k + 1][..k] == rules[..k];
  }

  lemma ExampleExtendRow(rules: seq<Rule>, queue: seq<seq<Rule>>)
    requires rules == ExampleRules
    ensures Pushes([rules[1]], rules, queue) == [[rules[1], rules[2]], [rules[1], rules[0]]] + queue
  {
    var a := [rules[1]];
    assert rules[0] != rules[1] && rules[2] != rules[1];
    assert rules[0] !in a && rules[1] in a && rules[2] !in a;
    assert Pushes(a, rules[..0], queue) == queue;
    PushesNext(a, rules, 0, queue);
    PushesNext(a, rules, 1, queue);
    PushesNext(a, rules, 2, queue);
    assert Pushes(a, rules[..3], queue) == [a + [rules[2]]] + [a + [rules[0]]] + queue;
    assert rules[..3] == rules;
    assert Pushes(a, rules, queue) == [a + [rules[2]]] + [a + [rules[0]]] + queue;
    assert a + [rules[2]] == [rules[1], rules[2]];
    assert a + [rules[0]] == [rules[1], rules[0]];
    assert [a + [rules[2]]] + [a + [rules[0]]] + queue == [[rules[1], rules[2]], [rules[1], rules[0]]] + queue;
  }

  lemma ExampleExtendRowClass(rules: seq<Rule>, queue: seq<seq<Rule>>)
    requires rules == ExampleRules
    ensures Pushes([rules[1], rules[0]], rules, queue) == [[rules[1], rules[0], rules[2]]] + queue
  {
    var a := [rules[1], rules[0]];
    assert rules[0] in a && rules[1] in a && rules[2] !in a;
    assert Pushes(a, rules[..0], queue) == queue;
    PushesNext(a, rules, 0, queue);
    PushesNext(a, rules, 1, queue);
    PushesNext(a, rules, 2, queue);
    assert rules[..3] == rules;
    assert Pushes(a, rules, queue) == [a + [rules[2]]] + queue;
    assert a + [rules[2]] == [rules[1], rules[0], rules[2]];
  }
  // Part 2's answer.

  /** `rule.field.contains("departure")`. */
  predicate IsDeparture(rule: Rule) {
    ContainsStr(rule.field, "departure")
  }

  /** The positions whose rule's field name contains "departure", in increasing order. */
  function Departures(arrangement: seq<Rule>): (r: seq<nat>)
    ensures forall i :: i in r <==> 0 <= i < |arrangement| && IsDeparture(arrangement[i])
    ensures forall a, b :: 0 <= a < b < |r| ==> r[a] < r[b]
    ensures forall k :: 0 <= k < |r| ==> r[k] < |arrangement|
  {
    if |arrangement| == 0 then []
    else
      var n := |arrangement| - 1;
      var init := Departures(arrangement[..n]);
      assert forall i :: 0 <= i < n ==> arrangement[..n][i] == arrangement[i];
      if IsDeparture(arrangement[n]) then init + [n] else init
  }

  /** `.map(|(idx, _)| ticket[idx]).product()`: `Err` where an index is past the end of the
      ticket and the source's indexing panics. */
  function ProductAt(ticket: Ticket, positions: seq<nat>): (r: Result<nat>)
    ensures r.Ok? <==> forall k :: 0 <= k < |positions| ==> positions[k] < |ticket|
  {
    if |positions| == 0 then Ok(1)
    else
      var n := |positions| - 1;
      var init := ProductAt(ticket, positions[..n]);
      if positions[n] < |ticket| && init.Ok? then Ok(init.value * ticket[positions[n]]) else Err
  }

  /** The product is multiplicative over the positions, and one position gives its value. */
  lemma {:induction false} ProductAtAppend(ticket: Ticket, a: seq<nat>, b: seq<nat>)
    requires ProductAt(ticket, a).Ok? && ProductAt(ticket, b).Ok?
    ensures ProductAt(ticket, a + b) == Ok(ProductAt(ticket, a).value * ProductAt(ticket, b).value)
    decreases |b|
  {
    if |b| == 0 {
      assert a + b == a;
    } else {
      var n := |b| - 1;
      assert (a + b)[..|a| + n] == a + b[..n];
      ProductAtAppend(ticket, a, b[..n]);
      MulAssoc(ProductAt(ticket, a).value, ProductAt(ticket, b[..n]).value, ticket[b[n]]);
    }
  }

  lemma ProductAtOne(ticket: Ticket, i: nat)
    requires i < |ticket|
    ensures ProductAt(ticket, [i]) == Ok(ticket[i])
  {
    assert [i][..0] == [];
  }

  /** `part2`'s value for an arrangement: the product of one's own ticket's departure fields. */
  function DepartureProduct(arrangement: seq<Rule>, ticket: Ticket): Result<nat> {
    ProductAt(ticket, Departures(arrangement))
  }

  /** The product is defined exactly when one's own ticket reaches every departure field. */
  lemma DepartureProductDefined(arrangement: seq<Rule>, ticket: Ticket)
    ensures DepartureProduct(arrangement, ticket).Ok? <==> forall i :: 0 <= i < |arrangement| && IsDeparture(arrangement[i]) ==> i < |ticket|
  {
    DeparturesCovered(arrangement, ticket);
  }

  /** The departure positions lie inside the ticket exactly when every departure field does. */
  lemma DeparturesCovered(arrangement: seq<Rule>, ticket: Ticket)
    ensures (forall k :: 0 <= k < |Departures(arrangement)| ==> Departures(arrangement)[k] < |ticket|)
            <==> forall i :: 0 <= i < |arrangement| && IsDeparture(arrangement[i]) ==> i < |ticket|
  {
    var positions := Departures(arrangement);
    if forall k :: 0 <= k < |positions| ==> positions[k] < |ticket| {
      forall i | 0 <= i < |arrangement| && IsDeparture(arrangement[i]) ensures i < |ticket| {
        assert i in positions;
      }
    }
    if forall i :: 0 <= i < |arrangement| && IsDeparture(arrangement[i]) ==> i < |ticket| {
      forall k | 0 <= k < |positions| ensures positions[k] < |ticket| {
        assert positions[k] in positions;
      }
    }
  }

  // Parsing.

  /** `map(|x| ... .unwrap()).collect()`: every piece must parse, else `None`. */
  function ParseAll<T>(pieces: seq<string>, parse: string -> Option<T>): (r: Option<seq<T>>)
    ensures r.Some? <==> forall i :: 0 <= i < |pieces| ==> parse(pieces[i]).Some?
    ensures r.Some? ==> |r.value| == |pieces| && forall i :: 0 <= i < |pieces| ==> r.value[i] == parse(pieces[i]).value
  {
    if |pieces| == 0 then Some([])
    else
      var first, rest := parse(pieces[0]), ParseAll(pieces[1..], parse);
      if first.Some? && rest.Some? then Some([first.value] + rest.value) else None
  }

  /** A ticket line: numbers separated by ','. */
  function ParseTicket(line: string): (r: Option<Ticket>)
    ensures r.Some? ==> |r.value| == |Split(line, ',')|
    ensures r.Some? ==> forall i :: 0 <= i < |r.value| ==> r.value[i] < USIZE
  {
    ParseAll(Split(line, ','), ParseUsize)
  }

  /** One range `lo-hi`: the first two pieces around '-' (a third is not looked at). */
  function ParseRange(piece: string): (r: Option<(nat, nat)>) {
    var parts := Split(piece, '-');
    if |parts| < 2 then None
    else
      match (ParseUsize(parts[0]), ParseUsize(parts[1]))
      case (Some(lo), Some(hi)) => Some((lo, hi))
      case _ => None
  }

  /** A rule line `field: a-b or c-d`: the field is the text before the first ": ", the ranges
      come from the text after it, split at " or "; every range given must parse and the first two
      are the rule's. */
  function ParseRule(line: string): (r: Option<Rule>) {
    var parts := SplitStr(line, ": ");
    if |parts| < 2 then None
    else
      match ParseAll(SplitStr(parts[1], " or "), ParseRange)
      case None => None
      case Some(ranges) => if |ranges| < 2 then None else Some(Rule(parts[0], ranges[0], ranges[1]))
  }

  /** The text of a rule, as the puzzle writes it. */
  function ShowRule(rule: Rule): string {
    rule.field + ": " + NatToString(rule.rule1.0) + "-" + NatToString(rule.rule1.1)
      + " or " + NatToString(rule.rule2.0) + "-" + NatToString(rule.rule2.1)
  }

  /** A rule whose field name holds no ':' and whose bounds fit a `usize` reads back as itself. */
  lemma ParseShowRule(rule: Rule)
    requires ':' !in rule.field
    requires rule.rule1.0 < USIZE && rule.rule1.1 < USIZE && rule.rule2.0 < USIZE && rule.rule2.1 < USIZE
    ensures ParseRule(ShowRule(rule)) == Some(rule)
  {
    var r1, r2 := ShowRange(rule.rule1), ShowRange(rule.rule2);
    var ranges := r1 + " or " + r2;
    assert ShowRule(rule) == rule.field + ": " + ranges;
    assert ':' !in ranges by {
      assert forall c :: c in ranges ==> c in r1 || c in " or " || c in r2;
    }
    SplitStrFirst(rule.field, ": ", ranges);
    SplitStrNone(ranges, ": ");
    ParseShowRanges(rule.rule1, rule.rule2);
  }

  /** Two ranges joined by " or " read back as themselves. */
  lemma ParseShowRanges(range1: (nat, nat), range2: (nat, nat))
    requires range1.0 < USIZE && range1.1 < USIZE && range2.0 < USIZE && range2.1 < USIZE
    ensures ParseAll(SplitStr(ShowRange(range1) + " or " + ShowRange(range2), " or "), ParseRange) == Some([range1, range2])
  {
    var r1, r2 := ShowRange(range1), ShowRange(range2);
    assert ' ' !in r1 && ' ' !in r2;
    SplitStrFirst(r1, " or ", r2);
    SplitStrNone(r2, " or ");
    var pieces := [r1, r2];
    assert SplitStr(r1 + " or " + r2, " or ") == pieces;
    ParseShowRange(range1);
    ParseShowRange(range2);
    ParseAllTwo(r1, r2, ParseRange);
  }

  lemma ParseAllTwo<T>(a: string, b: string, parse: string -> Option<T>)
    requires parse(a).Some? && parse(b).Some?
    ensures ParseAll([a, b], parse) == Some([parse(a).value, parse(b).value])
  {
    assert [a, b][1..] == [b] && [b][1..] == [];
    assert ParseAll([b][1..], parse) == Some([]);
    assert [parse(b).value] + [] == [parse(b).value];
    assert ParseAll([b], parse) == Some([parse(b).value]);
    assert [parse(a).value] + [parse(b).value] == [parse(a).value, parse(b).value];
  }

  function ShowRange(range: (nat, nat)): (s: string)
    ensures forall c :: c in s ==> IsDigit(c) || c == '-'
  {
    NatToString(range.0) + "-" + NatToString(range.1)
  }

  lemma ParseShowRange(range: (nat, nat))
    requires range.0 < USIZE && range.1 < USIZE
    ensures ParseRange(ShowRange(range)) == Some(range)
  {
    var a, b := NatToString(range.0), NatToString(range.1);
    assert '-' !in a && '-' !in b;
    SplitFirst(a, '-', b);
    SplitNone(b, '-');
    ParseNatToString(range.0);
    ParseNatToString(range.1);
  }

  /** The puzzle's notes: the rules, one's own ticket and the nearby tickets. */
  datatype Notes = Notes(rules: seq<Rule>, mine: Ticket, nearby: seq<Ticket>)

  function TrimAll(lines: seq<string>): (r: seq<string>)
    ensures |r| == |lines| && forall i :: 0 <= i < |lines| ==> r[i] == Trim(lines[i])
  {
    seq(|lines|, i requires 0 <= i < |lines| => Trim(lines[i]))
  }

  /** `parse_input`: of the trimmed lines, those containing "or" are rules; of those containing
      ',', the first is one's own ticket and the others are the nearby tickets. `None` where an
      `unwrap` of the source panics: no ticket line, or a line that does not parse. */
  function ParseInput(input: string): (r: Option<Notes>)
    ensures r.Some? <==> && |Filter(TrimAll(Lines(input)), HasComma)| > 0
                         && ParseAll(Filter(TrimAll(Lines(input)), IsRuleLine), ParseRule).Some?
                         && ParseAll(Filter(TrimAll(Lines(input)), HasComma), ParseTicket).Some?
    ensures r.Some? ==> && r.value.rules == ParseAll(Filter(TrimAll(Lines(input)), IsRuleLine), ParseRule).value
                        && [r.value.mine] + r.value.nearby == ParseAll(Filter(TrimAll(Lines(input)), HasComma), ParseTicket).value
  {
    var lines := TrimAll(Lines(input));
    var ticketLines := Filter(lines, HasComma);
    if |ticketLines| == 0 then None
    else
      match (ParseAll(Filter(lines, IsRuleLine), ParseRule), ParseAll(ticketLines, ParseTicket))
      case (Some(rules), Some(tickets)) => Some(Notes(rules, tickets[0], tickets[1..]))
      case _ => None
  }

  predicate IsRuleLine(line: string) {
    ContainsStr(line, "or")
  }

  predicate HasComma(line: string) {
    ',' in line
  }

  /** `part1`: the error rate of the nearby tickets. */
  function Part1(input: string): (r: Option<nat>)
    ensures r.Some? <==> ParseInput(input).Some?
    ensures r.Some? ==> r.value == ErrorRate(ParseInput(input).value.rules, ParseInput(input).value.nearby)
  {
    match ParseInput(input)
    case Some(notes) => Some(ErrorRate(notes.rules, notes.nearby))
    case None => None
  }

  /** What `part2` computes from the notes: search an arrangement for the valid nearby tickets
      and multiply one's own departure fields. */
  function Answer2(notes: Notes): Result<nat> {
    match Search(notes.rules, FilterValid(notes.nearby, notes.rules), Initial(notes.rules))
    case Ok(arrangement) => DepartureProduct(arrangement, notes.mine)
    case Err => Err
  }

  /** An answer comes from a complete arrangement of the rules fitting every valid nearby
      ticket, and there is one whenever such an arrangement exists and one's own ticket covers its
      departure fields. */
  lemma Answer2Spec(notes: Notes)
    ensures Answer2(notes).Ok? ==> exists a :: && Solution(notes.rules, FilterValid(notes.nearby, notes.rules), a)
                                              && Answer2(notes) == DepartureProduct(a, notes.mine)
    ensures |notes.rules| > 0 && |notes.mine| >= |notes.rules| && (exists a :: Solution(notes.rules, FilterValid(notes.nearby, notes.rules), a))
            ==> Answer2(notes).Ok?
  {
    ArrangementSpec(notes.rules, FilterValid(notes.nearby, notes.rules));
  }

  /** `part2`. */
  method Part2(input: string) returns (r: Result<nat>)
    ensures ParseInput(input).None? ==> r == Err
    ensures ParseInput(input).Some? ==> r == Answer2(ParseInput(input).value)
  {
    var parsed := ParseInput(input);
    if parsed.None? {
      return Err;
    }
    var notes := parsed.value;
    var valid := FilterValid(notes.nearby, notes.rules);
    var arrangement := FindArrangement(notes.rules, valid);
    match arrangement
    case Ok(a) => r := DepartureProduct(a, notes.mine);
    case Err => r := Err;
  }
}

// Day 19: a grammar of numbered rules and a stack-based matcher for messages.

module Day19 {
  import opened Wrappers
  import opened Arith
  import opened Text

  /** A rule: one character, a sequence of rule ids, or a choice of two sequences. */
  datatype Rule = Terminal(ch: char) | Single(sequence: seq<nat>) | Double(left: seq<nat>, right: seq<nat>)

  /** Every id in `ids` names a rule (the source indexes its map and panics otherwise). */
  predicate InRules(rules: map<nat, Rule>, ids: seq<nat>) {
    forall i :: 0 <= i < |ids| ==> ids[i] in rules
  }

  predicate RuleInRules(rules: map<nat, Rule>, r: Rule) {
    match r
    case Terminal(_) => true
    case Single(s) => InRules(rules, s)
    case Double(a, b) => InRules(rules, a) && InRules(rules, b)
  }

  /** Every rule refers only to rules that exist. */
  predicate Closed(rules: map<nat, Rule>) {
    forall id :: id in rules ==> RuleInRules(rules, rules[id])
  }

  /** No rule has an empty sequence, so no rule derives the empty message. */
  predicate NoEmpty(rules: map<nat, Rule>) {
    forall id :: id in rules ==> match rules[id]
      case Terminal(_) => true
      case Single(s) => |s| > 0
      case Double(a, b) => |a| > 0 && |b| > 0
  }

  /** The sequence in reverse order. */
  function Reversed(s: seq<nat>): (r: seq<nat>)
    ensures |r| == |s| && forall i :: 0 <= i < |s| ==> r[i] == s[|s| - 1 - i]
  {
    if |s| == 0 then [] else Reversed(s[1..]) + [s[0]]
  }

  lemma {:induction false} ReversedAppend(a: seq<nat>, b: seq<nat>)
    ensures Reversed(a + b) == Reversed(b) + Reversed(a)
  {
    var x, y := Reversed(a + b), Reversed(b) + Reversed(a);
    assert forall i :: 0 <= i < |x| ==> x[i] == y[i] by {
      forall i | 0 <= i < |x| ensures x[i] == y[i] {
        if i < |b| {
          assert y[i] == Reversed(b)[i];
        } else {
          assert y[i] == Reversed(a)[i - |b|];
        }
      }
    }
  }

  lemma {:induction false} ReversedTwice(s: seq<nat>)
    ensures Reversed(Reversed(s)) == s
  {
    var r := Reversed(Reversed(s));
    assert forall i :: 0 <= i < |s| ==> r[i] == s[i] by {
      forall i | 0 <= i < |s| ensures r[i] == s[i] {
        assert r[i] == Reversed(s)[|s| - 1 - i];
      }
    }
  }

  /** The popped top of a stack is the first of the reversed stack. */
  lemma ReversedSnoc(s: seq<nat>, x: nat)
    ensures Reversed(s + [x]) == [x] + Reversed(s)
  {
    ReversedAppend(s, [x]);
    assert Reversed([x]) == [x];
  }

  lemma InRulesReversed(rules: map<nat, Rule>, s: seq<nat>)
    requires InRules(rules, s)
    ensures InRules(rules, Reversed(s))
  {
    var r := Reversed(s);
    forall i | 0 <= i < |r| ensures r[i] in rules {
      assert r[i] == s[|s| - 1 - i];
    }
  }

  lemma InRulesAppend(rules: map<nat, Rule>, a: seq<nat>, b: seq<nat>)
    requires InRules(rules, a) && InRules(rules, b)
    ensures InRules(rules, a + b)
  {
    forall i | 0 <= i < |a + b| ensures (a + b)[i] in rules {
      if i >= |a| {
        assert (a + b)[i] == b[i - |a|];
      }
    }
  }

  // ---------------------------------------------------------------------------------------
  // The matcher
  // ---------------------------------------------------------------------------------------

  /** What `match_all` returns for `message` and the stack `queue` (its top last), with at most
      `fuel` rules popped. Popping a rule puts its sequence on the stack in reverse, so that its
      first part is matched first; a choice tries both sequences on copies of the stack. A rule
      that does not exist, where the source panics, does not match. */
  function Matches(rules: map<nat, Rule>, message: string, queue: seq<nat>, fuel: nat): bool
    decreases fuel
  {
    if |queue| == 0 && |message| == 0 then true
    else if |queue| == 0 || |message| == 0 || fuel == 0 || queue[|queue| - 1] !in rules then false
    else
      var rest := queue[..|queue| - 1];
      match rules[queue[|queue| - 1]]
      case Terminal(c) => message[0] == c && Matches(rules, message[1..], rest, fuel - 1)
      case Single(s) => Matches(rules, message, rest + Reversed(s), fuel - 1)
      case Double(a, b) =>
        Matches(rules, message, rest + Reversed(a), fuel - 1) || Matches(rules, message, rest + Reversed(b), fuel - 1)
  }

  lemma PushKeeps(rules: map<nat, Rule>, queue: seq<nat>, s: seq<nat>)
    requires InRules(rules, queue) && InRules(rules, s)
    ensures InRules(rules, queue + Reversed(s))
  {
    InRulesReversed(rules, s);
    InRulesAppend(rules, queue, Reversed(s));
  }

  /** `match_all`: pops the next rule and dispatches on it. */
  method MatchAll(rules: map<nat, Rule>, message: string, queue: seq<nat>, fuel: nat) returns (b: bool)
    requires Closed(rules) && InRules(rules, queue)
    ensures b == Matches(rules, message, queue, fuel)
    decreases fuel, 0
  {
    if |queue| == 0 && |message| == 0 {
      return true;
    }
    if |queue| == 0 || |message| == 0 {
      return false;
    }
    if fuel == 0 {
      return false;
    }
    var stack := queue;
    var id := stack[|stack| - 1];
    stack := stack[..|stack| - 1];
    var next := rules[id];
    assert RuleInRules(rules, next);
    match next
    case Terminal(c) => b := MatchChar(rules, message, c, stack, fuel - 1);
    case Single(s) => b := MatchSequence(rules, message, s, stack, fuel - 1);
    case Double(s1, s2) =>
      b := MatchSequence(rules, message, s1, stack, fuel - 1);
      if !b {
        b := MatchSequence(rules, message, s2, stack, fuel - 1);
      }
  }

  /** `match_char`: the message must start with `ch`; the rest is matched against the stack. */
  method MatchChar(rules: map<nat, Rule>, message: string, ch: char, queue: seq<nat>, fuel: nat) returns (b: bool)
    requires Closed(rules) && InRules(rules, queue)
    ensures b == (|message| > 0 && message[0] == ch && Matches(rules, message[1..], queue, fuel))
    decreases fuel, 1
  {
    if |message| > 0 && message[0] == ch {
      b := MatchAll(rules, message[1..], queue, fuel);
    } else {
      b := false;
    }
  }

  /** `match_sequence`: pushes the subrules last to first, then matches. */
  method MatchSequence(rules: map<nat, Rule>, message: string, sequence: seq<nat>, queue: seq<nat>, fuel: nat)
    returns (b: bool)
    requires Closed(rules) && InRules(rules, queue) && InRules(rules, sequence)
    ensures b == Matches(rules, message, queue + Reversed(sequence), fuel)
    decreases fuel, 1
  {
    var stack := PushReversed(queue, sequence);
    PushKeeps(rules, queue, sequence);
    b := MatchAll(rules, message, stack, fuel);
  }

  /** `sequence.iter().rev().for_each(|subrule| queue.push(*subrule))`: afterwards the first subrule
      is on top. */
  method PushReversed(queue: seq<nat>, sequence: seq<nat>) returns (stack: seq<nat>)
    ensures stack == queue + Reversed(sequence)
    ensures |sequence| > 0 ==> stack[|stack| - 1] == sequence[0]
  {
    stack := queue;
    var i := |sequence|;
    while i > 0
      invariant 0 <= i <= |sequence|
      invariant stack == queue + Reversed(sequence[i..])
    {
      i := i - 1;
      assert sequence[i..][1..] == sequence[i + 1..];
      stack := stack + [sequence[i]];
    }
    assert sequence[0..] == sequence;
  }

  // ---------------------------------------------------------------------------------------
  // The language of a rule
  // ---------------------------------------------------------------------------------------

  /** Rule `id` derives `w` by a derivation tree of height at most `n`. */
  predicate Derives(rules: map<nat, Rule>, id: nat, w: string, n: nat)
    decreases n, 0
  {
    n > 0 && id in rules &&
    match rules[id]
    case Terminal(c) => w == [c]
    case Single(s) => DerivesAll(rules, s, w, n - 1)
    case Double(a, b) => DerivesAll(rules, a, w, n - 1) || DerivesAll(rules, b, w, n - 1)
  }

  /** The rules `ids` derive consecutive pieces of `w`, in order. */
  predicate DerivesAll(rules: map<nat, Rule>, ids: seq<nat>, w: string, n: nat)
    decreases n, |ids| + 1
  {
    if |ids| == 0 then w == []
    else exists k :: 0 <= k <= |w| && Derives(rules, ids[0], w[..k], n) && DerivesAll(rules, ids[1..], w[k..], n)
  }

  /** A taller bound allows the same derivations. */
  lemma {:induction false} DerivesMono(rules: map<nat, Rule>, id: nat, w: string, n: nat)
    requires Derives(rules, id, w, n)
    ensures Derives(rules, id, w, n + 1)
    decreases n, 0
  {
    match rules[id]
    case Terminal(_) =>
    case Single(s) => DerivesAllMono(rules, s, w, n - 1);
    case Double(a, b) =>
      if DerivesAll(rules, a, w, n - 1) {
        DerivesAllMono(rules, a, w, n - 1);
      } else {
        DerivesAllMono(rules, b, w, n - 1);
      }
  }

  lemma {:induction false} DerivesAllMono(rules: map<nat, Rule>, ids: seq<nat>, w: string, n: nat)
    requires DerivesAll(rules, ids, w, n)
    ensures DerivesAll(rules, ids, w, n + 1)
    decreases n, |ids| + 1
  {
    if |ids| > 0 {
      var k :| 0 <= k <= |w| && Derives(rules, ids[0], w[..k], n) && DerivesAll(rules, ids[1..], w[k..], n);
      DerivesMono(rules, ids[0], w[..k], n);
      DerivesAllMono(rules, ids[1..], w[k..], n);
    }
  }

  lemma DerivesAllMonoTo(rules: map<nat, Rule>, ids: seq<nat>, w: string, n: nat, m: nat)
    requires DerivesAll(rules, ids, w, n) && n <= m
    ensures DerivesAll(rules, ids, w, m)
    decreases m - n
  {
    if n < m {
      DerivesAllMono(rules, ids, w, n);
      DerivesAllMonoTo(rules, ids, w, n + 1, m);
    }
  }

  /** Two sequences of rules derive two consecutive pieces of the message. */
  lemma {:induction false} DerivesAllSplit(rules: map<nat, Rule>, a: seq<nat>, b: seq<nat>, w: string, n: nat)
    returns (k: nat)
    requires DerivesAll(rules, a + b, w, n)
    ensures k <= |w| && DerivesAll(rules, a, w[..k], n) && DerivesAll(rules, b, w[k..], n)
    decreases |a|, 1
  {
    if |a| == 0 {
      assert a + b == b && w[0..] == w;
      k := 0;
    } else {
      var ab := a + b;
      assert ab[0] == a[0] && ab[1..] == a[1..] + b;
      var j :| 0 <= j <= |w| && Derives(rules, a[0], w[..j], n) && DerivesAll(rules, a[1..] + b, w[j..], n);
      k := SplitAfterFirst(rules, a, b, w, n, j);
    }
  }

  /** `DerivesAllSplit` once the first rule's piece `w[..j]` is known. */
  lemma {:induction false} SplitAfterFirst(rules: map<nat, Rule>, a: seq<nat>, b: seq<nat>, w: string, n: nat, j: nat)
    returns (k: nat)
    requires |a| > 0 && j <= |w| && Derives(rules, a[0], w[..j], n) && DerivesAll(rules, a[1..] + b, w[j..], n)
    ensures k <= |w| && DerivesAll(rules, a, w[..k], n) && DerivesAll(rules, b, w[k..], n)
    decreases |a|, 0
  {
    var k' := DerivesAllSplit(rules, a[1..], b, w[j..], n);
    k := j + k';
    var u := w[..k];
    assert u[..j] == w[..j] && u[j..] == w[j..][..k'] && w[k..] == w[j..][k'..];
    DerivesCons(rules, a[0], a[1..], u, j, n);
    assert [a[0]] + a[1..] == a;
  }

  /** A single rule followed by a sequence. */
  lemma DerivesCons(rules: map<nat, Rule>, id: nat, ids: seq<nat>, w: string, k: nat, n: nat)
    requires k <= |w| && Derives(rules, id, w[..k], n) && DerivesAll(rules, ids, w[k..], n)
    ensures DerivesAll(rules, [id] + ids, w, n)
  {
    var c := [id] + ids;
    assert c[0] == id && c[1..] == ids;
  }

  /** Without empty sequences every rule derives at least one character. */
  lemma {:induction false} DerivesNonEmpty(rules: map<nat, Rule>, id: nat, w: string, n: nat)
    requires NoEmpty(rules) && Derives(rules, id, w, n)
    ensures |w| > 0
    decreases n, 0
  {
    match rules[id]
    case Terminal(_) =>
    case Single(s) => DerivesAllNonEmpty(rules, s, w, n - 1);
    case Double(a, b) =>
      if DerivesAll(rules, a, w, n - 1) {
        DerivesAllNonEmpty(rules, a, w, n - 1);
      } else {
        DerivesAllNonEmpty(rules, b, w, n - 1);
      }
  }

  lemma {:induction false} DerivesAllNonEmpty(rules: map<nat, Rule>, ids: seq<nat>, w: string, n: nat)
    requires NoEmpty(rules) && DerivesAll(rules, ids, w, n)
    ensures |w| >= |ids|
    decreases n, |ids| + 1
  {
    if |ids| > 0 {
      var k :| 0 <= k <= |w| && Derives(rules, ids[0], w[..k], n) && DerivesAll(rules, ids[1..], w[k..], n);
      DerivesNonEmpty(rules, ids[0], w[..k], n);
      DerivesAllNonEmpty(rules, ids[1..], w[k..], n);
    }
  }

  /** A derivation only uses rules that exist. */
  lemma {:induction false} DerivesAllInRules(rules: map<nat, Rule>, ids: seq<nat>, w: string, n: nat)
    requires DerivesAll(rules, ids, w, n)
    ensures InRules(rules, ids)
    decreases |ids|
  {
    if |ids| > 0 {
      var k :| 0 <= k <= |w| && Derives(rules, ids[0], w[..k], n) && DerivesAll(rules, ids[1..], w[k..], n);
      DerivesAllInRules(rules, ids[1..], w[k..], n);
      forall i | 0 <= i < |ids| ensures ids[i] in rules {
        if i > 0 {
          assert ids[i] == ids[1..][i - 1];
        }
      }
    }
  }

  // ---------------------------------------------------------------------------------------
  // The matcher accepts exactly the messages the stack derives
  // ---------------------------------------------------------------------------------------

  /** Whatever the matcher accepts, the stack (read from the top) derives. */
  lemma {:induction false} MatchesSound(rules: map<nat, Rule>, message: string, queue: seq<nat>, fuel: nat)
    returns (n: nat)
    requires Matches(rules, message, queue, fuel)
    ensures DerivesAll(rules, Reversed(queue), message, n)
    decreases fuel, 2
  {
    if |queue| == 0 {
      n := 0;
    } else {
      var rest := queue[..|queue| - 1];
      var id := queue[|queue| - 1];
      assert queue == rest + [id];
      ReversedSnoc(rest, id);
      match rules[id]
      case Terminal(c) =>
        var n1 := MatchesSound(rules, message[1..], rest, fuel - 1);
        DerivesAllMono(rules, Reversed(rest), message[1..], n1);
        assert message[..1] == [c];
        DerivesCons(rules, id, Reversed(rest), message, 1, n1 + 1);
        n := n1 + 1;
      case Single(s) =>
        n := SoundPush(rules, message, rest, id, s, fuel - 1);
      case Double(a, b) =>
        if Matches(rules, message, rest + Reversed(a), fuel - 1) {
          n := SoundPush(rules, message, rest, id, a, fuel - 1);
        } else {
          n := SoundPush(rules, message, rest, id, b, fuel - 1);
        }
    }
  }

  /** The step of `MatchesSound` for a rule `id` replaced on the stack by its sequence `s`. */
  lemma {:induction false} SoundPush(rules: map<nat, Rule>, message: string, rest: seq<nat>, id: nat, s: seq<nat>,
                                     fuel: nat)
    returns (n: nat)
    requires id in rules
    requires rules[id] == Single(s) || (rules[id].Double? && (rules[id].left == s || rules[id].right == s))
    requires Matches(rules, message, rest + Reversed(s), fuel)
    ensures DerivesAll(rules, [id] + Reversed(rest), message, n)
    decreases fuel, 3
  {
    var n1 := MatchesSound(rules, message, rest + Reversed(s), fuel);
    ReversedAppend(rest, Reversed(s));
    ReversedTwice(s);
    var k := DerivesAllSplit(rules, s, Reversed(rest), message, n1);
    assert Derives(rules, id, message[..k], n1 + 1);
    DerivesAllMono(rules, Reversed(rest), message[k..], n1);
    DerivesCons(rules, id, Reversed(rest), message, k, n1 + 1);
    n := n1 + 1;
  }

  /** Whatever the rules `ids` derive, followed by a message `v` that the stack `queue` accepts,
      the stack with `ids` pushed on top (first on top) accepts, given enough fuel. */
  lemma {:induction false} MatchesComplete(rules: map<nat, Rule>, ids: seq<nat>, w: string, n: nat,
                                           queue: seq<nat>, v: string, fuel: nat)
    returns (f: nat)
    requires NoEmpty(rules)
    requires DerivesAll(rules, ids, w, n) && Matches(rules, v, queue, fuel)
    ensures Matches(rules, w + v, queue + Reversed(ids), f)
    decreases n, |ids| + 1
  {
    if |ids| == 0 {
      assert w + v == v && queue + Reversed(ids) == queue;
      f := fuel;
    } else {
      var k :| 0 <= k <= |w| && Derives(rules, ids[0], w[..k], n) && DerivesAll(rules, ids[1..], w[k..], n);
      var f1 := MatchesComplete(rules, ids[1..], w[k..], n, queue, v, fuel);
      f := CompleteOne(rules, ids[0], w[..k], n, queue + Reversed(ids[1..]), w[k..] + v, f1);
      assert w[..k] + (w[k..] + v) == w + v;
      assert Reversed(ids) == Reversed(ids[1..]) + [ids[0]];
      assert queue + Reversed(ids[1..]) + [ids[0]] == queue + Reversed(ids);
    }
  }

  lemma {:induction false} CompleteOne(rules: map<nat, Rule>, id: nat, u: string, n: nat,
                                       queue: seq<nat>, v: string, fuel: nat)
    returns (f: nat)
    requires NoEmpty(rules)
    requires Derives(rules, id, u, n) && Matches(rules, v, queue, fuel)
    ensures Matches(rules, u + v, queue + [id], f)
    decreases n, 0
  {
    DerivesNonEmpty(rules, id, u, n);
    var q := queue + [id];
    assert q[..|q| - 1] == queue && q[|q| - 1] == id;
    match rules[id]
    case Terminal(c) =>
      assert (u + v)[0] == c && (u + v)[1..] == v;
      f := fuel + 1;
    case Single(s) =>
      var f1 := MatchesComplete(rules, s, u, n - 1, queue, v, fuel);
      f := f1 + 1;
    case Double(a, b) =>
      if DerivesAll(rules, a, u, n - 1) {
        var f1 := MatchesComplete(rules, a, u, n - 1, queue, v, fuel);
        f := f1 + 1;
      } else {
        var f1 := MatchesComplete(rules, b, u, n - 1, queue, v, fuel);
        f := f1 + 1;
      }
  }

  /** More fuel never turns an accepted message into a rejected one. */
  lemma {:induction false} MatchesMono(rules: map<nat, Rule>, message: string, queue: seq<nat>, fuel: nat)
    requires Matches(rules, message, queue, fuel)
    ensures Matches(rules, message, queue, fuel + 1)
    decreases fuel
  {
    if |queue| > 0 {
      var rest := queue[..|queue| - 1];
      var top := queue[|queue| - 1];
      assert |message| > 0 && fuel > 0 && top in rules;
      var rule := rules[top];
      if rule.Terminal? {
        MatchesMono(rules, message[1..], rest, fuel - 1);
      } else if rule.Single? {
        MatchesMono(rules, message, rest + Reversed(rule.sequence), fuel - 1);
      } else if Matches(rules, message, rest + Reversed(rule.left), fuel - 1) {
        MatchesMono(rules, message, rest + Reversed(rule.left), fuel - 1);
      } else {
        MatchesMono(rules, message, rest + Reversed(rule.right), fuel - 1);
      }
    }
  }

  /** `part1`'s check `match_all(m, &mut vec![0])`: a message the matcher accepts is in the
      language of rule 0. */
  lemma AcceptedIsDerived(rules: map<nat, Rule>, message: string, fuel: nat)
    ensures Matches(rules, message, [0], fuel) ==> exists n :: Derives(rules, 0, message, n)
  {
    if Matches(rules, message, [0], fuel) {
      var n := MatchesSound(rules, message, [0], fuel);
      assert Reversed([0]) == [0];
      var k :| 0 <= k <= |message| && Derives(rules, 0, message[..k], n) && DerivesAll(rules, [], message[k..], n);
      assert message[..k] == message;
    }
  }

  /** Without empty sequences, every message in the language of rule 0 is accepted with enough
      fuel. */
  lemma DerivedIsAccepted(rules: map<nat, Rule>, message: string, n: nat) returns (fuel: nat)
    requires NoEmpty(rules) && Derives(rules, 0, message, n)
    ensures Matches(rules, message, [0], fuel)
  {
    assert message[..|message|] == message && message[|message|..] == [];
    DerivesCons(rules, 0, [], message, |message|, n);
    assert [0] + [] == [0] && Reversed([0]) == [0];
    fuel := MatchesComplete(rules, [0], message, n, [], [], 0);
    assert message + [] == message && [] + [0] == [0];
  }

  // ---------------------------------------------------------------------------------------
  // The grammar of the test
  // ---------------------------------------------------------------------------------------

  /** `0: 4 1 5`, `1: 2 3 | 3 2`, `2: 4 4 | 5 5`, `3: 4 5 | 5 4`, `4: "a"`, `5: "b"`. */
  const ExampleRules: map<nat, Rule> :=
    map[0 := Single([4, 1, 5]), 1 := Double([2, 3], [3, 2]), 2 := Double([4, 4], [5, 5]),
        3 := Double([4, 5], [5, 4]), 4 := Terminal('a'), 5 := Terminal('b')]

  /** The two pieces derived by a sequence of two rules. */
  lemma PairParts(rules: map<nat, Rule>, x: nat, y: nat, w: string, n: nat) returns (k: nat)
    requires DerivesAll(rules, [x, y], w, n)
    ensures k <= |w| && Derives(rules, x, w[..k], n) && Derives(rules, y, w[k..], n)
  {
    var ids := [x, y];
    k :| 0 <= k <= |w| && Derives(rules, ids[0], w[..k], n) && DerivesAll(rules, ids[1..], w[k..], n);
    var v := w[k..];
    assert ids[1..] == [y];
    assert DerivesAll(rules, [y], v, n);
    assert [y][0] == y && [y][1..] == [];
    var j :| 0 <= j <= |v| && Derives(rules, y, v[..j], n) && DerivesAll(rules, [], v[j..], n);
    assert v[..j] == v;
  }

  predicate PairOf(u: string, x: char, y: char) {
    u == [x, y] || u == [y, x]
  }

  /** Rules 2 and 3 each derive one of two strings of length 2. */
  lemma ExamplePair(id: nat, w: string, n: nat)
    requires id == 2 || id == 3
    requires Derives(ExampleRules, id, w, n)
    ensures id == 2 ==> w == "aa" || w == "bb"
    ensures id == 3 ==> PairOf(w, 'a', 'b')
  {
    var r := ExampleRules[id];
    var k;
    if DerivesAll(ExampleRules, r.left, w, n - 1) {
      k := PairParts(ExampleRules, r.left[0], r.left[1], w, n - 1);
    } else {
      k := PairParts(ExampleRules, r.right[0], r.right[1], w, n - 1);
    }
    assert w == w[..k] + w[k..];
  }

  /** The strings rule 1 derives: a pair from rule 2 and one from rule 3, either way round. */
  predicate MiddleOf(w: string) {
    |w| == 4 &&
    (((w[..2] == "aa" || w[..2] == "bb") && PairOf(w[2..], 'a', 'b'))
     || (PairOf(w[..2], 'a', 'b') && (w[2..] == "aa" || w[2..] == "bb")))
  }

  /** Rule 1 derives exactly the strings of `MiddleOf`. */
  lemma ExampleMiddle(w: string, n: nat)
    requires Derives(ExampleRules, 1, w, n)
    ensures MiddleOf(w)
  {
    var k;
    if DerivesAll(ExampleRules, [2, 3], w, n - 1) {
      k := PairParts(ExampleRules, 2, 3, w, n - 1);
      ExamplePair(2, w[..k], n - 1);
      ExamplePair(3, w[k..], n - 1);
    } else {
      k := PairParts(ExampleRules, 3, 2, w, n - 1);
      ExamplePair(3, w[..k], n - 1);
      ExamplePair(2, w[k..], n - 1);
    }
    assert w[..2] == w[..k] && w[2..] == w[k..];
  }

  /** The three pieces derived by a rule with a single sequence of three ids. */
  lemma TripleParts(rules: map<nat, Rule>, id: nat, x: nat, y: nat, z: nat, w: string, n: nat)
    returns (i: nat, j: nat)
    requires id in rules && rules[id] == Single([x, y, z]) && Derives(rules, id, w, n)
    ensures n > 0 && i <= j <= |w|
    ensures Derives(rules, x, w[..i], n - 1) && Derives(rules, y, w[i..j], n - 1)
    ensures Derives(rules, z, w[j..], n - 1)
  {
    var ids := [x, y, z];
    assert DerivesAll(rules, ids, w, n - 1);
    assert ids[0] == x && ids[1..] == [y, z];
    i :| 0 <= i <= |w| && Derives(rules, x, w[..i], n - 1) && DerivesAll(rules, [y, z], w[i..], n - 1);
    var l := PairParts(rules, y, z, w[i..], n - 1);
    j := i + l;
    assert w[i..][..l] == w[i..j] && w[i..][l..] == w[j..];
  }

  /** A terminal rule derives its one character. */
  lemma TerminalDerives(rules: map<nat, Rule>, id: nat, c: char, w: string, n: nat)
    requires id in rules && rules[id] == Terminal(c) && Derives(rules, id, w, n)
    ensures w == [c]
  {
  }

  /** Three pieces put together as rule 0 needs them. */
  lemma ExampleShape(w: string, i: nat, j: nat)
    requires i <= j <= |w| && w[..i] == "a" && MiddleOf(w[i..j]) && w[j..] == "b"
    ensures ExampleShaped(w)
  {
    assert w == w[..i] + w[i..j] + w[j..];
  }

  /** Rule 0 derives `'a'`, a string from rule 1, then `'b'`. */
  lemma ExampleLanguage(w: string)
    ensures (exists n :: Derives(ExampleRules, 0, w, n)) ==> ExampleShaped(w)
  {
    if n: nat :| Derives(ExampleRules, 0, w, n) {
      var i, j := TripleParts(ExampleRules, 0, 4, 1, 5, w, n);
      TerminalDerives(ExampleRules, 4, 'a', w[..i], n - 1);
      ExampleMiddle(w[i..j], n - 1);
      TerminalDerives(ExampleRules, 5, 'b', w[j..], n - 1);
      ExampleShape(w, i, j);
    }
  }

  /** Two rules side by side derive the two pieces one after the other. */
  lemma DerivesPair(rules: map<nat, Rule>, x: nat, y: nat, u: string, v: string, n: nat)
    requires Derives(rules, x, u, n) && Derives(rules, y, v, n)
    ensures DerivesAll(rules, [x, y], u + v, n)
  {
    var w := u + v;
    assert w[..|u|] == u && w[|u|..] == v;
    assert v[..|v|] == v && v[|v|..] == [];
    DerivesCons(rules, y, [], v, |v|, n);
    assert [y] + [] == [y];
    DerivesCons(rules, x, [y], w, |u|, n);
    assert [x] + [y] == [x, y];
  }

  /** Each of the strings of `ExamplePair` is derived. */
  lemma PairDerives(id: nat, w: string, n: nat)
    requires n >= 2 && ((id == 2 && (w == "aa" || w == "bb")) || (id == 3 && PairOf(w, 'a', 'b')))
    ensures Derives(ExampleRules, id, w, n)
  {
    var x, y := if w[0] == 'a' then 4 else 5, if w[1] == 'a' then 4 else 5;
    assert Derives(ExampleRules, x, [w[0]], n - 1) && Derives(ExampleRules, y, [w[1]], n - 1);
    DerivesPair(ExampleRules, x, y, [w[0]], [w[1]], n - 1);
    assert [w[0]] + [w[1]] == w;
  }

  lemma MiddleDerives(w: string)
    requires MiddleOf(w)
    ensures Derives(ExampleRules, 1, w, 3)
  {
    assert w == w[..2] + w[2..];
    if (w[..2] == "aa" || w[..2] == "bb") && PairOf(w[2..], 'a', 'b') {
      PairDerives(2, w[..2], 2);
      PairDerives(3, w[2..], 2);
      DerivesPair(ExampleRules, 2, 3, w[..2], w[2..], 2);
    } else {
      PairDerives(3, w[..2], 2);
      PairDerives(2, w[2..], 2);
      DerivesPair(ExampleRules, 3, 2, w[..2], w[2..], 2);
    }
  }

  /** Conversely, each string of that form is derived from rule 0. */
  lemma ExampleDerives(w: string)
    requires ExampleShaped(w)
    ensures Derives(ExampleRules, 0, w, 4)
  {
    MiddleDerives(w[1..5]);
    assert w[..1] == [w[0]] && w[5..] == [w[5]];
    TripleDerives(ExampleRules, 0, 4, 1, 5, w, 1, 5, 3);
  }

  /** The converse of `TripleParts`. */
  lemma TripleDerives(rules: map<nat, Rule>, id: nat, x: nat, y: nat, z: nat, w: string, i: nat, j: nat, n: nat)
    requires id in rules && rules[id] == Single([x, y, z]) && i <= j <= |w|
    requires Derives(rules, x, w[..i], n) && Derives(rules, y, w[i..j], n) && Derives(rules, z, w[j..], n)
    ensures Derives(rules, id, w, n + 1)
  {
    DerivesPair(rules, y, z, w[i..j], w[j..], n);
    assert w[i..] == w[i..j] + w[j..];
    DerivesCons(rules, x, [y, z], w, i, n);
    assert [x] + [y, z] == [x, y, z];
  }

  /** The messages rule 0 of the test grammar accepts. */
  predicate ExampleShaped(w: string) {
    |w| == 6 && w[0] == 'a' && w[5] == 'b' && MiddleOf(w[1..5])
  }

  /** A message of that shape is accepted with enough fuel. */
  lemma ExampleAccepted(w: string)
    requires ExampleShaped(w)
    ensures exists fuel :: Matches(ExampleRules, w, [0], fuel)
  {
    ExampleDerives(w);
    assert NoEmpty(ExampleRules);
    var f := DerivedIsAccepted(ExampleRules, w, 4);
  }

  /** Any other message is rejected whatever the fuel. */
  lemma ExampleRejected(w: string)
    requires !ExampleShaped(w)
    ensures forall fuel :: !Matches(ExampleRules, w, [0], fuel)
  {
    forall fuel ensures !Matches(ExampleRules, w, [0], fuel) {
      AcceptedIsDerived(ExampleRules, w, fuel);
      ExampleLanguage(w);
    }
  }

  /** The test: of `ababbb`, `bababa`, `abbbab`, `aaabbb` and `aaaabbb`, the first and the third
      match, with enough fuel; the others never do. */
  lemma ExampleMessages()
    ensures exists fuel :: Matches(ExampleRules, "ababbb", [0], fuel)
    ensures exists fuel :: Matches(ExampleRules, "abbbab", [0], fuel)
    ensures forall fuel :: !Matches(ExampleRules, "bababa", [0], fuel)
    ensures forall fuel :: !Matches(ExampleRules, "aaabbb", [0], fuel)
    ensures forall fuel :: !Matches(ExampleRules, "aaaabbb", [0], fuel)
  {
    assert "ababbb"[1..5] == "babb" && "abbbab"[1..5] == "bbba" && "aaabbb"[1..5] == "aabb";
    assert "babb"[..2] == "ba" && "babb"[2..] == "bb";
    assert "bbba"[..2] == "bb" && "bbba"[2..] == "ba";
    assert "aabb"[..2] == "aa" && "aabb"[2..] == "bb";
    ExampleAccepted("ababbb");
    ExampleAccepted("abbbab");
    ExampleRejected("bababa");
    ExampleRejected("aaabbb");
    ExampleRejected("aaaabbb");
  }

  // ---------------------------------------------------------------------------------------
  // Parsing a rule
  // ---------------------------------------------------------------------------------------

  /** `.map(|x| x.parse().unwrap()).collect()`: `None` where a word is not a `usize`. */
  function ParseIds(words: seq<string>): (r: Option<seq<nat>>)
    ensures r.Some? <==> forall i :: 0 <= i < |words| ==> ParseUsize(words[i]).Some?
    ensures r.Some? ==> |r.value| == |words| && forall i :: 0 <= i < |words| ==> ParseUsize(words[i]) == Some(r.value[i])
  {
    if |words| == 0 then Some([])
    else match ParseUsize(words[0])
      case None => None
      case Some(x) =>
        match ParseIds(words[1..])
        case None => None
        case Some(xs) => Some([x] + xs)
  }

  /** `parse_rule`: the id before `':'`; a `Terminal` of the second character of the trimmed
      remainder when the line has a `'"'`; a `Double` split at `" | "` when it has a `'|'`; a
      `Single` otherwise. `None` stands for each `unwrap` that panics. */
  function ParseRule(input: string): (r: Option<(nat, Rule)>)
    ensures r.Some? ==> |Split(input, ':')| >= 2 && ParseUsize(Split(input, ':')[0]) == Some(r.value.0)
    ensures r.Some? && '"' in input ==>
              |Trim(Split(input, ':')[1])| >= 2 && r.value.1 == Terminal(Trim(Split(input, ':')[1])[1])
    ensures r.Some? && '"' !in input && '|' in input ==> r.value.1.Double?
    ensures r.Some? && '"' !in input && '|' !in input ==>
              r.value.1.Single? && ParseIds(Words(Trim(Split(input, ':')[1]))) == Some(r.value.1.sequence)
  {
    var parts := Split(input, ':');
    if |parts| < 2 then None
    else match ParseUsize(parts[0])
      case None => None
      case Some(id) =>
        var rem := Trim(parts[1]);
        if '"' in input then
          if |rem| >= 2 then Some((id, Terminal(rem[1]))) else None
        else if '|' in input then
          var alternatives := SplitStr(rem, " | ");
          match ParseIds(Words(alternatives[0]))
          case None => None
          case Some(left) =>
            if |alternatives| < 2 then None
            else match ParseIds(Words(alternatives[1]))
              case None => None
              case Some(right) => Some((id, Double(left, right)))
        else match ParseIds(Words(rem))
          case None => None
          case Some(sequence) => Some((id, Single(sequence)))
  }

  /** The decimal forms of ids. */
  function Names(s: seq<nat>): (r: seq<string>)
    ensures |r| == |s|
  {
    if |s| == 0 then [] else [NatToString(s[0])] + Names(s[1..])
  }

  /** A sequence of ids as the input writes it: separated by single spaces. */
  function IdsText(s: seq<nat>): string {
    Join(Names(s), " ")
  }

  /** A rule as the input writes it. */
  function RuleText(id: nat, rule: Rule): string {
    match rule
    case Terminal(c) => NatToString(id) + ": \"" + [c] + "\""
    case Single(s) => NatToString(id) + ": " + IdsText(s)
    case Double(a, b) => NatToString(id) + ": " + IdsText(a) + " | " + IdsText(b)
  }

  /** The rules the input format can write: ids fit a `usize`, a terminal is not `':'`, and
      neither alternative of a choice is empty. */
  predicate Printable(id: nat, rule: Rule) {
    id < USIZE &&
    match rule
    case Terminal(c) => c != ':'
    case Single(s) => forall i :: 0 <= i < |s| ==> s[i] < USIZE
    case Double(a, b) =>
      && |a| > 0 && |b| > 0
      && (forall i :: 0 <= i < |a| ==> a[i] < USIZE)
      && (forall i :: 0 <= i < |b| ==> b[i] < USIZE)
  }

  /** Decimal forms of ids that fit a `usize` parse back to the ids. */
  lemma {:induction false} ParseNames(s: seq<nat>)
    requires forall i :: 0 <= i < |s| ==> s[i] < USIZE
    ensures ParseIds(Names(s)) == Some(s)
  {
    if |s| > 0 {
      ParseNatToString(s[0]);
      ParseNames(s[1..]);
      assert Names(s)[1..] == Names(s[1..]);
      assert [s[0]] + s[1..] == s;
    }
  }

  /** The written form of ids holds only digits and spaces, and starts and ends with a digit. */
  lemma {:induction false} IdsTextChars(s: seq<nat>)
    ensures forall c :: c in IdsText(s) ==> IsDigit(c) || c == ' '
    ensures |s| > 0 ==> |IdsText(s)| > 0 && IsDigit(IdsText(s)[0]) && IsDigit(IdsText(s)[|IdsText(s)| - 1])
  {
    if |s| > 0 {
      var n := NatToString(s[0]);
      assert n[0] in n && n[|n| - 1] in n;
      if |s| > 1 {
        IdsTextChars(s[1..]);
        assert IdsText(s) == n + " " + IdsText(s[1..]);
      } else {
        assert IdsText(s) == n;
      }
    }
  }

  /** The written form of ids splits into their decimal forms. */
  lemma WordsOfIdsText(s: seq<nat>)
    ensures Words(IdsText(s)) == Names(s)
  {
    forall i | 0 <= i < |Names(s)| ensures Names(s)[i] != "" && forall c :: c in Names(s)[i] ==> !IsWhitespace(c) {
      NameAt(s, i);
    }
    WordsOfJoin(Names(s));
  }

  lemma {:induction false} NameAt(s: seq<nat>, i: nat)
    requires i < |s|
    ensures Names(s)[i] == NatToString(s[i])
  {
    if i > 0 {
      NameAt(s[1..], i - 1);
    }
  }

  /** Trimming the space after the `':'`. */
  lemma TrimSpace(t: string)
    requires |t| == 0 || (!IsWhitespace(t[0]) && !IsWhitespace(t[|t| - 1]))
    ensures Trim(" " + t) == t
  {
    assert (" " + t)[1..] == t;
  }

  /** The line splits at its only `':'`. */
  lemma SplitColon(id: nat, body: string)
    requires ':' !in body
    ensures Split(NatToString(id) + ": " + body, ':') == [NatToString(id), " " + body]
  {
    var n := NatToString(id);
    assert !IsDigit(':');
    assert n + ": " + body == n + [':'] + (" " + body);
    SplitFirst(n, ':', " " + body);
    SplitNone(" " + body, ':');
  }

  /** Writing a rule and parsing the line gives back the id and the rule. */
  lemma RuleRoundTrip(id: nat, rule: Rule)
    requires Printable(id, rule)
    ensures ParseRule(RuleText(id, rule)) == Some((id, rule))
  {
    ParseNatToString(id);
    match rule
    case Terminal(c) => TerminalRoundTrip(id, c);
    case Single(sq) => SingleRoundTrip(id, sq);
    case Double(a, b) => DoubleRoundTrip(id, a, b);
  }

  lemma TerminalRoundTrip(id: nat, c: char)
    requires id < USIZE && c != ':'
    ensures ParseRule(RuleText(id, Terminal(c))) == Some((id, Terminal(c)))
  {
    var n := NatToString(id);
    var line := RuleText(id, Terminal(c));
    ParseNatToString(id);
    var body := "\"" + [c] + "\"";
    assert line == n + ": " + body;
    SplitColon(id, body);
    TrimSpace(body);
    assert '"' in line by {
      assert line[|line| - 1] == '"';
    }
  }

  lemma SingleRoundTrip(id: nat, sq: seq<nat>)
    requires id < USIZE && forall i :: 0 <= i < |sq| ==> sq[i] < USIZE
    ensures ParseRule(RuleText(id, Single(sq))) == Some((id, Single(sq)))
  {
    var line := RuleText(id, Single(sq));
    var body := IdsText(sq);
    IdsTextChars(sq);
    LineParts(id, body);
    assert '|' !in body;
    TrimSpace(body);
    ParseIdsText(sq);
    ParseSingleLine(line, id, body, sq);
  }

  lemma DoubleRoundTrip(id: nat, a: seq<nat>, b: seq<nat>)
    requires Printable(id, Double(a, b))
    ensures ParseRule(RuleText(id, Double(a, b))) == Some((id, Double(a, b)))
  {
    var body := IdsText(a) + " | " + IdsText(b);
    assert RuleText(id, Double(a, b)) == NatToString(id) + ": " + body;
    AlternativesText(a, b);
    SplitAlternatives(a, b);
    ParseIdsText(a);
    ParseIdsText(b);
    LineParts(id, body);
    ParseDoubleLine(RuleText(id, Double(a, b)), id, body, IdsText(a), IdsText(b), a, b);
  }

  /** The characters of the written alternatives of a choice. */
  lemma AlternativesText(a: seq<nat>, b: seq<nat>)
    requires |a| > 0 && |b| > 0
    ensures forall c :: c in IdsText(a) + " | " + IdsText(b) ==> IsDigit(c) || c == ' ' || c == '|'
    ensures '|' in IdsText(a) + " | " + IdsText(b)
    ensures Trim(" " + (IdsText(a) + " | " + IdsText(b))) == IdsText(a) + " | " + IdsText(b)
  {
    var left, right := IdsText(a), IdsText(b);
    IdsTextChars(a);
    IdsTextChars(b);
    var body := left + " | " + right;
    TrimSpace(body);
    assert body == left + " " + "|" + " " + right;
  }

  /** The written alternatives of a choice split at `" | "`. */
  lemma SplitAlternatives(a: seq<nat>, b: seq<nat>)
    ensures SplitStr(IdsText(a) + " | " + IdsText(b), " | ") == [IdsText(a), IdsText(b)]
  {
    IdsTextChars(a);
    IdsTextChars(b);
    SplitStrFirstSecond(IdsText(a), " | ", IdsText(b));
    SplitStrNoSecond(IdsText(b), " | ");
  }

  /** The written form of ids that fit a `usize` parses back to them. */
  lemma ParseIdsText(s: seq<nat>)
    requires forall i :: 0 <= i < |s| ==> s[i] < USIZE
    ensures ParseIds(Words(IdsText(s))) == Some(s)
  {
    WordsOfIdsText(s);
    ParseNames(s);
  }

  /** The id and the remainder of a written rule line. */
  lemma LineParts(id: nat, body: string)
    requires id < USIZE && forall c :: c in body ==> IsDigit(c) || c == ' ' || c == '|'
    ensures Split(NatToString(id) + ": " + body, ':') == [NatToString(id), " " + body]
    ensures ParseUsize(NatToString(id)) == Some(id)
    ensures '"' !in NatToString(id) + ": " + body
    ensures '|' in NatToString(id) + ": " + body <==> '|' in body
  {
    assert ':' !in body by {
      assert !IsDigit(':');
    }
    SplitColon(id, body);
    ParseNatToString(id);
    assert forall c :: c in NatToString(id) ==> IsDigit(c);
  }

  /** `parse_rule` on a line without `'"'` or `'|'`. */
  lemma ParseSingleLine(line: string, id: nat, rem: string, sq: seq<nat>)
    requires |Split(line, ':')| >= 2 && ParseUsize(Split(line, ':')[0]) == Some(id) && Trim(Split(line, ':')[1]) == rem
    requires '"' !in line && '|' !in line && ParseIds(Words(rem)) == Some(sq)
    ensures ParseRule(line) == Some((id, Single(sq)))
  {
  }

  /** `parse_rule` on a line with a `'|'` and no `'"'`. */
  lemma ParseDoubleLine(line: string, id: nat, rem: string, left: string, right: string, a: seq<nat>, b: seq<nat>)
    requires |Split(line, ':')| >= 2 && ParseUsize(Split(line, ':')[0]) == Some(id) && Trim(Split(line, ':')[1]) == rem
    requires '"' !in line && '|' in line && SplitStr(rem, " | ") == [left, right]
    requires ParseIds(Words(left)) == Some(a) && ParseIds(Words(right)) == Some(b)
    ensures ParseRule(line) == Some((id, Double(a, b)))
  {
  }

  // ---------------------------------------------------------------------------------------
  // The input and the answers
  // ---------------------------------------------------------------------------------------

  /** Each trimmed rule line through `parse_rule`. */
  function ParseRules(lines: seq<string>): (r: seq<Option<(nat, Rule)>>)
    ensures |r| == |lines| && forall i :: 0 <= i < |lines| ==> r[i] == ParseRule(Trim(lines[i]))
  {
    seq(|lines|, i requires 0 <= i < |lines| => ParseRule(Trim(lines[i])))
  }

  /** Parsed rule lines collected into a map as `parse_input` does: a later line with the same id
      replaces an earlier one; `None` when some line does not parse (the source panics). */
  function CollectRules(entries: seq<Option<(nat, Rule)>>): (r: Option<map<nat, Rule>>)
    decreases |entries|
  {
    if |entries| == 0 then Some(map[])
    else
      match CollectRules(entries[..|entries| - 1])
      case None => None
      case Some(m) =>
        match entries[|entries| - 1]
        case None => None
        case Some(entry) => Some(m[entry.0 := entry.1])
  }

  /** The rules collect iff every line parses. */
  lemma {:induction false} CollectRulesDefined(entries: seq<Option<(nat, Rule)>>)
    ensures CollectRules(entries).Some? <==> forall i :: 0 <= i < |entries| ==> entries[i].Some?
    decreases |entries|
  {
    if |entries| > 0 {
      var init := entries[..|entries| - 1];
      CollectRulesDefined(init);
      assert forall i :: 0 <= i < |init| ==> init[i] == entries[i];
    }
  }

  /** The map holds the ids of the lines and nothing else, and an id's rule is the one on the
      last line with that id. */
  lemma {:induction false} CollectRulesAt(entries: seq<Option<(nat, Rule)>>, id: nat)
    requires forall i :: 0 <= i < |entries| ==> entries[i].Some?
    ensures CollectRules(entries).Some?
    ensures id in CollectRules(entries).value <==> exists i :: 0 <= i < |entries| && entries[i].value.0 == id
    ensures forall i :: 0 <= i < |entries| && entries[i].value.0 == id &&
                        (forall j :: i < j < |entries| ==> entries[j].value.0 != id) ==>
                          CollectRules(entries).value[id] == entries[i].value.1
    decreases |entries|
  {
    CollectRulesDefined(entries);
    if |entries| > 0 {
      var n := |entries| - 1;
      var init := entries[..n];
      assert forall i :: 0 <= i < |init| ==> init[i] == entries[i];
      CollectRulesAt(init, id);
      if entries[n].value.0 != id {
        forall i | 0 <= i < |entries| && entries[i].value.0 == id &&
                   (forall j :: i < j < |entries| ==> entries[j].value.0 != id)
          ensures CollectRules(entries).value[id] == entries[i].value.1
        {
          assert i < n;
          assert forall j :: i < j < |init| ==> init[j] == entries[j];
        }
      }
    }
  }

  /** `parse_input`: the rules are the lines before the first blank line, the messages the trimmed
      lines of the section after it; `None` where the source panics (no second section, or a rule
      line that does not parse). */
  function ParseInput(input: string): (r: Option<(map<nat, Rule>, seq<string>)>)
    ensures r.Some? <==> |SplitStr(input, "\n\n")| >= 2 && CollectRules(ParseRules(Lines(SplitStr(input, "\n\n")[0]))).Some?
    ensures r.Some? ==> r.value.0 == CollectRules(ParseRules(Lines(SplitStr(input, "\n\n")[0]))).value
    ensures r.Some? ==> |r.value.1| == |Lines(SplitStr(input, "\n\n")[1])|
    ensures r.Some? ==> forall i :: 0 <= i < |r.value.1| ==> r.value.1[i] == Trim(Lines(SplitStr(input, "\n\n")[1])[i])
  {
    var sections := SplitStr(input, "\n\n");
    if |sections| < 2 then None
    else
      match CollectRules(ParseRules(Lines(sections[0])))
      case None => None
      case Some(rules) => Some((rules, TrimAll(Lines(sections[1]))))
  }

  /** Every line trimmed. */
  function TrimAll(lines: seq<string>): (r: seq<string>)
    ensures |r| == |lines| && forall i :: 0 <= i < |lines| ==> r[i] == Trim(lines[i])
  {
    seq(|lines|, i requires 0 <= i < |lines| => Trim(lines[i]))
  }

  /** How many of `messages` the matcher accepts from the stack `[0]` with `fuel`. */
  function CountMatching(rules: map<nat, Rule>, messages: seq<string>, fuel: nat): (n: nat)
    ensures n <= |messages|
  {
    if |messages| == 0 then 0
    else
      CountMatching(rules, messages[..|messages| - 1], fuel)
      + (if Matches(rules, messages[|messages| - 1], [0], fuel) then 1 else 0)
  }

  /** A message in the language of rule 0. */
  ghost predicate Derivable(rules: map<nat, Rule>, message: string) {
    exists n: nat :: Derives(rules, 0, message, n)
  }

  /** How many of `messages` are in the language of rule 0. */
  ghost function CountDerivable(rules: map<nat, Rule>, messages: seq<string>): (n: nat)
    ensures n <= |messages|
  {
    if |messages| == 0 then 0
    else
      CountDerivable(rules, messages[..|messages| - 1])
      + (if Derivable(rules, messages[|messages| - 1]) then 1 else 0)
  }

  /** More fuel, by any amount, keeps an accepted message accepted. */
  lemma MatchesMonoTo(rules: map<nat, Rule>, message: string, fuel: nat, more: nat)
    requires fuel <= more && Matches(rules, message, [0], fuel)
    ensures Matches(rules, message, [0], more)
    decreases more - fuel
  {
    if fuel < more {
      MatchesMono(rules, message, [0], fuel);
      MatchesMonoTo(rules, message, fuel + 1, more);
    }
  }

  /** The count never falls when the fuel grows. */
  lemma {:induction false} CountMatchingMono(rules: map<nat, Rule>, messages: seq<string>, fuel: nat, more: nat)
    requires fuel <= more
    ensures CountMatching(rules, messages, fuel) <= CountMatching(rules, messages, more)
    decreases |messages|
  {
    if |messages| > 0 {
      CountMatchingMono(rules, messages[..|messages| - 1], fuel, more);
      if Matches(rules, messages[|messages| - 1], [0], fuel) {
        MatchesMonoTo(rules, messages[|messages| - 1], fuel, more);
      }
    }
  }

  /** Every counted message is in the language of rule 0. */
  lemma {:induction false} CountMatchingSound(rules: map<nat, Rule>, messages: seq<string>, fuel: nat)
    ensures CountMatching(rules, messages, fuel) <= CountDerivable(rules, messages)
    decreases |messages|
  {
    if |messages| > 0 {
      CountMatchingSound(rules, messages[..|messages| - 1], fuel);
      AcceptedIsDerived(rules, messages[|messages| - 1], fuel);
    }
  }

  /** Without empty sequences some fuel makes the count exactly the number of messages in the
      language of rule 0, and every larger fuel keeps it there. */
  lemma {:induction false} CountMatchingComplete(rules: map<nat, Rule>, messages: seq<string>) returns (fuel: nat)
    requires NoEmpty(rules)
    ensures forall more :: fuel <= more ==> CountMatching(rules, messages, more) == CountDerivable(rules, messages)
    decreases |messages|
  {
    if |messages| == 0 {
      fuel := 0;
    } else {
      var init := messages[..|messages| - 1];
      var last := messages[|messages| - 1];
      var f := CountMatchingComplete(rules, init);
      fuel := f;
      if Derivable(rules, last) {
        var n: nat :| Derives(rules, 0, last, n);
        var g := DerivedIsAccepted(rules, last, n);
        if g > fuel {
          fuel := g;
        }
        forall more | fuel <= more
          ensures Matches(rules, last, [0], more)
        {
          MatchesMonoTo(rules, last, g, more);
        }
      } else {
        forall more: nat
          ensures !Matches(rules, last, [0], more)
        {
          AcceptedIsDerived(rules, last, more);
        }
      }
    }
  }

  /** The `filter(..).count()` loop of `part1` over the messages. */
  method CountAccepted(rules: map<nat, Rule>, messages: seq<string>, fuel: nat) returns (count: nat)
    requires Closed(rules) && 0 in rules
    ensures count == CountMatching(rules, messages, fuel)
  {
    count := 0;
    var i := 0;
    while i < |messages|
      invariant 0 <= i <= |messages|
      invariant count == CountMatching(rules, messages[..i], fuel)
    {
      var accepted := MatchAll(rules, messages[i], [0], fuel);
      assert messages[..i + 1][..i] == messages[..i];
      if accepted {
        count := count + 1;
      }
      i := i + 1;
    }
    assert messages[..i] == messages;
  }

  /** `part1` (and `part2`, the same code run on another input file): the number of messages `match_all` accepts from the stack `[0]`, at most `fuel`
      rules popped per message; `Err` where the source would panic: an input that does not
      parse, or rules that name a missing rule or lack rule 0. */
  method Part1(input: string, fuel: nat) returns (r: Result<nat>)
    ensures r.Ok? <==> ParseInput(input).Some? && Closed(ParseInput(input).value.0) && 0 in ParseInput(input).value.0
    ensures r.Ok? ==> r.value == CountMatching(ParseInput(input).value.0, ParseInput(input).value.1, fuel)
  {
    var parsed := ParseInput(input);
    if parsed.None? {
      return Err;
    }
    var rules := parsed.value.0;
    var messages := parsed.value.1;
    if !Closed(rules) || 0 !in rules {
      return Err;
    }
    var count := CountAccepted(rules, messages, fuel);
    r := Ok(count);
  }
}

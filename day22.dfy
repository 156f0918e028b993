/** Day 22: crab combat. Two players draw their top cards; the higher card wins the round and
    its owner puts both cards, their own first, at the bottom of their deck. Part 1 plays plain
    combat; part 2 plays recursive combat, where a repeated position ends the game in player 1's
    favour and a round may be decided by a sub-game on copies of the top of both decks. The score of
    a deck weighs each card by its position counted from the bottom. */
module Day22 {
  import opened Wrappers
  import opened Text
  import opened Seqs

  /** `type Deck = VecDeque<usize>`, top card first. */
  type Deck = seq<nat>

  // ---------------------------------------------------------------------------------------------
  // Score

  /** The reversed deck, bottom card first. */
  function Reverse(d: Deck): (r: Deck)
    ensures |r| == |d| && forall i :: 0 <= i < |d| ==> r[i] == d[|d| - 1 - i]
  {
    if |d| == 0 then [] else Reverse(d[1..]) + [d[0]]
  }

  /** `.enumerate().map(|(idx, value)| (idx + 1) * value).sum()`, the enumeration starting at `k`. */
  function Weighted(s: Deck, k: nat): nat
  {
    if |s| == 0 then 0 else (k + 1) * s[0] + Weighted(s[1..], k + 1)
  }

  /** `calculate_score`: the reversed deck, weighted by position plus one. */
  function CalculateScore(d: Deck): nat
  {
    Weighted(Reverse(d), 0)
  }

  /** The score with the weights counted from the top: the top card of an `n`-card deck weighs `n`,
      the bottom card weighs 1. */
  function TopScore(d: Deck): nat
  {
    if |d| == 0 then 0 else |d| * d[0] + TopScore(d[1..])
  }

  /** Appending a card at the end of the enumeration weighs it by its 1-based position. */
  lemma {:induction false} WeightedSnoc(s: Deck, k: nat, c: nat)
    ensures Weighted(s + [c], k) == Weighted(s, k) + (k + |s| + 1) * c
    decreases |s|
  {
    if |s| > 0 {
      assert (s + [c])[1..] == s[1..] + [c];
      WeightedSnoc(s[1..], k + 1, c);
    }
  }

  /** `calculate_score` weighs the card `i` places from the top by `|d| - i`. */
  lemma {:induction false} ScoreFromTop(d: Deck)
    ensures CalculateScore(d) == TopScore(d)
    decreases |d|
  {
    if |d| > 0 {
      ScoreFromTop(d[1..]);
      assert Reverse(d) == Reverse(d[1..]) + [d[0]];
      WeightedSnoc(Reverse(d[1..]), 0, d[0]);
    }
  }

  // ---------------------------------------------------------------------------------------------
  // Part 1: combat

  /** One round of `part1`: the higher card's owner puts their card, then the other, at the bottom;
      equal cards are both dropped. */
  function CombatRound(p1: Deck, p2: Deck): (r: (Deck, Deck))
    requires |p1| > 0 && |p2| > 0
  {
    var a, b := p1[0], p2[0];
    if a > b then (p1[1..] + [a, b], p2[1..])
    else if b > a then (p1[1..], p2[1..] + [b, a])
    else (p1[1..], p2[1..])
  }

  /** A round moves the two drawn cards to the winner, or drops them on a tie. */
  lemma CombatRoundCards(p1: Deck, p2: Deck)
    requires |p1| > 0 && |p2| > 0
    ensures var r := CombatRound(p1, p2);
      multiset(r.0) + multiset(r.1) + (if p1[0] == p2[0] then multiset{p1[0], p2[0]} else multiset{})
        == multiset(p1) + multiset(p2)
    ensures var r := CombatRound(p1, p2);
      |r.0| + |r.1| == if p1[0] == p2[0] then |p1| + |p2| - 2 else |p1| + |p2|
    ensures p1[0] > p2[0] ==> CombatRound(p1, p2).0[|p1| - 1..] == [p1[0], p2[0]]
    ensures p2[0] > p1[0] ==> CombatRound(p1, p2).1[|p2| - 1..] == [p2[0], p1[0]]
  {
    assert p1 == [p1[0]] + p1[1..] && p2 == [p2[0]] + p2[1..];
  }

  /** Plain combat until a deck is empty, at most `fuel` rounds (`None` when they run out). */
  function Combat(p1: Deck, p2: Deck, fuel: nat): Option<(Deck, Deck)>
    decreases fuel
  {
    if p1 == [] || p2 == [] then Some((p1, p2))
    else if fuel == 0 then None
    else
      var r := CombatRound(p1, p2);
      Combat(r.0, r.1, fuel - 1)
  }

  /** The winner's deck: player 2's if player 1 has no cards left. */
  function Winner(p1: Deck, p2: Deck): Deck {
    if p1 == [] then p2 else p1
  }

  /** Combat that ends leaves one deck empty, holding every card that was never tied. */
  lemma {:induction false} CombatEnds(p1: Deck, p2: Deck, fuel: nat)
    requires Combat(p1, p2, fuel).Some?
    ensures var r := Combat(p1, p2, fuel).value; r.0 == [] || r.1 == []
    ensures var r := Combat(p1, p2, fuel).value; multiset(r.0) + multiset(r.1) <= multiset(p1) + multiset(p2)
    decreases fuel
  {
    if p1 != [] && p2 != [] {
      var r := CombatRound(p1, p2);
      CombatRoundCards(p1, p2);
      CombatEnds(r.0, r.1, fuel - 1);
    }
  }

  /** With all cards distinct, no round is tied and the winner ends with every card. */
  lemma {:induction false} CombatKeepsCards(p1: Deck, p2: Deck, fuel: nat)
    requires Combat(p1, p2, fuel).Some?
    requires Distinct(p1 + p2)
    ensures multiset(Winner(Combat(p1, p2, fuel).value.0, Combat(p1, p2, fuel).value.1)) == multiset(p1) + multiset(p2)
    decreases fuel
  {
    if p1 != [] && p2 != [] {
      var r := CombatRound(p1, p2);
      assert (p1 + p2)[0] == p1[0] && (p1 + p2)[|p1|] == p2[0];
      CombatRoundCards(p1, p2);
      DistinctMultiset(p1 + p2, r.0 + r.1);
      CombatKeepsCards(r.0, r.1, fuel - 1);
    } else {
      CombatEnds(p1, p2, fuel);
    }
  }

  /** The loop of `part1`, stopping when a deck is empty, with `fuel` bounding its rounds; then
      `calculate_score` of the winner's deck. */
  method Part1(deck1: Deck, deck2: Deck, fuel: nat) returns (r: Option<nat>)
    ensures Combat(deck1, deck2, fuel).None? ==> r.None?
    ensures Combat(deck1, deck2, fuel).Some? ==>
      r == Some(TopScore(Winner(Combat(deck1, deck2, fuel).value.0, Combat(deck1, deck2, fuel).value.1)))
  {
    var p1: Deck, p2: Deck := deck1, deck2;
    var f: nat := fuel;
    while p1 != [] && p2 != []
      invariant Combat(p1, p2, f) == Combat(deck1, deck2, fuel)
      decreases f
    {
      if f == 0 {
        return None;
      }
      var p1v, p2v := p1[0], p2[0];
      p1, p2 := p1[1..], p2[1..];
      if p1v > p2v {
        p1 := p1 + [p1v, p2v];
      }
      if p2v > p1v {
        p2 := p2 + [p2v, p1v];
      }
      f := f - 1;
    }
    var winner := if p1 == [] then p2 else p1;
    ScoreFromTop(winner);
    r := Some(CalculateScore(winner));
  }

  // ---------------------------------------------------------------------------------------------
  // The example game: player 1 holds 9, 2, 6, 3, 1 and player 2 holds 5, 8, 4, 7, 10

  /** One round of combat, with its outcome given. */
  lemma CombatStep(p1: Deck, p2: Deck, fuel: nat, q1: Deck, q2: Deck)
    requires |p1| > 0 && |p2| > 0 && fuel > 0
    requires CombatRound(p1, p2).0 == q1 && CombatRound(p1, p2).1 == q2
    ensures Combat(p1, p2, fuel) == Combat(q1, q2, fuel - 1)
  {
  }
  /** The example game, two rounds at a time, each stage proved from the next. */
  lemma CombatExample0()
    ensures Combat([9, 2, 6, 3, 1], [5, 8, 4, 7, 10], 29) == Some(([], [3, 2, 10, 6, 8, 5, 9, 4, 7, 1]))
  {
    CombatStep([9, 2, 6, 3, 1], [5, 8, 4, 7, 10], 29, [2, 6, 3, 1, 9, 5], [8, 4, 7, 10]);
    CombatStep([2, 6, 3, 1, 9, 5], [8, 4, 7, 10], 28, [6, 3, 1, 9, 5], [4, 7, 10, 8, 2]);
    CombatExample1();
  }

  lemma CombatExample1()
    ensures Combat([6, 3, 1, 9, 5], [4, 7, 10, 8, 2], 27) == Some(([], [3, 2, 10, 6, 8, 5, 9, 4, 7, 1]))
  {
    CombatStep([6, 3, 1, 9, 5], [4, 7, 10, 8, 2], 27, [3, 1, 9, 5, 6, 4], [7, 10, 8, 2]);
    CombatStep([3, 1, 9, 5, 6, 4], [7, 10, 8, 2], 26, [1, 9, 5, 6, 4], [10, 8, 2, 7, 3]);
    CombatExample2();
  }

  lemma CombatExample2()
    ensures Combat([1, 9, 5, 6, 4], [10, 8, 2, 7, 3], 25) == Some(([], [3, 2, 10, 6, 8, 5, 9, 4, 7, 1]))
  {
    CombatStep([1, 9, 5, 6, 4], [10, 8, 2, 7, 3], 25, [9, 5, 6, 4], [8, 2, 7, 3, 10, 1]);
    CombatStep([9, 5, 6, 4], [8, 2, 7, 3, 10, 1], 24, [5, 6, 4, 9, 8], [2, 7, 3, 10, 1]);
    CombatExample3();
  }

  lemma CombatExample3()
    ensures Combat([5, 6, 4, 9, 8], [2, 7, 3, 10, 1], 23) == Some(([], [3, 2, 10, 6, 8, 5, 9, 4, 7, 1]))
  {
    CombatStep([5, 6, 4, 9, 8], [2, 7, 3, 10, 1], 23, [6, 4, 9, 8, 5, 2], [7, 3, 10, 1]);
    CombatStep([6, 4, 9, 8, 5, 2], [7, 3, 10, 1], 22, [4, 9, 8, 5, 2], [3, 10, 1, 7, 6]);
    CombatExample4();
  }

  lemma CombatExample4()
    ensures Combat([4, 9, 8, 5, 2], [3, 10, 1, 7, 6], 21) == Some(([], [3, 2, 10, 6, 8, 5, 9, 4, 7, 1]))
  {
    CombatStep([4, 9, 8, 5, 2], [3, 10, 1, 7, 6], 21, [9, 8, 5, 2, 4, 3], [10, 1, 7, 6]);
    CombatStep([9, 8, 5, 2, 4, 3], [10, 1, 7, 6], 20, [8, 5, 2, 4, 3], [1, 7, 6, 10, 9]);
    CombatExample5();
  }

  lemma CombatExample5()
    ensures Combat([8, 5, 2, 4, 3], [1, 7, 6, 10, 9], 19) == Some(([], [3, 2, 10, 6, 8, 5, 9, 4, 7, 1]))
  {
    CombatStep([8, 5, 2, 4, 3], [1, 7, 6, 10, 9], 19, [5, 2, 4, 3, 8, 1], [7, 6, 10, 9]);
    CombatStep([5, 2, 4, 3, 8, 1], [7, 6, 10, 9], 18, [2, 4, 3, 8, 1], [6, 10, 9, 7, 5]);
    CombatExample6();
  }

  lemma CombatExample6()
    ensures Combat([2, 4, 3, 8, 1], [6, 10, 9, 7, 5], 17) == Some(([], [3, 2, 10, 6, 8, 5, 9, 4, 7, 1]))
  {
    CombatStep([2, 4, 3, 8, 1], [6, 10, 9, 7, 5], 17, [4, 3, 8, 1], [10, 9, 7, 5, 6, 2]);
    CombatStep([4, 3, 8, 1], [10, 9, 7, 5, 6, 2], 16, [3, 8, 1], [9, 7, 5, 6, 2, 10, 4]);
    CombatExample7();
  }

  lemma CombatExample7()
    ensures Combat([3, 8, 1], [9, 7, 5, 6, 2, 10, 4], 15) == Some(([], [3, 2, 10, 6, 8, 5, 9, 4, 7, 1]))
  {
    CombatStep([3, 8, 1], [9, 7, 5, 6, 2, 10, 4], 15, [8, 1], [7, 5, 6, 2, 10, 4, 9, 3]);
    CombatStep([8, 1], [7, 5, 6, 2, 10, 4, 9, 3], 14, [1, 8, 7], [5, 6, 2, 10, 4, 9, 3]);
    CombatExample8();
  }

  lemma CombatExample8()
    ensures Combat([1, 8, 7], [5, 6, 2, 10, 4, 9, 3], 13) == Some(([], [3, 2, 10, 6, 8, 5, 9, 4, 7, 1]))
  {
    CombatStep([1, 8, 7], [5, 6, 2, 10, 4, 9, 3], 13, [8, 7], [6, 2, 10, 4, 9, 3, 5, 1]);
    CombatStep([8, 7], [6, 2, 10, 4, 9, 3, 5, 1], 12, [7, 8, 6], [2, 10, 4, 9, 3, 5, 1]);
    CombatExample9();
  }

  lemma CombatExample9()
    ensures Combat([7, 8, 6], [2, 10, 4, 9, 3, 5, 1], 11) == Some(([], [3, 2, 10, 6, 8, 5, 9, 4, 7, 1]))
  {
    CombatStep([7, 8, 6], [2, 10, 4, 9, 3, 5, 1], 11, [8, 6, 7, 2], [10, 4, 9, 3, 5, 1]);
    CombatStep([8, 6, 7, 2], [10, 4, 9, 3, 5, 1], 10, [6, 7, 2], [4, 9, 3, 5, 1, 10, 8]);
    CombatExample10();
  }

  lemma CombatExample10()
    ensures Combat([6, 7, 2], [4, 9, 3, 5, 1, 10, 8], 9) == Some(([], [3, 2, 10, 6, 8, 5, 9, 4, 7, 1]))
  {
    CombatStep([6, 7, 2], [4, 9, 3, 5, 1, 10, 8], 9, [7, 2, 6, 4], [9, 3, 5, 1, 10, 8]);
    CombatStep([7, 2, 6, 4], [9, 3, 5, 1, 10, 8], 8, [2, 6, 4], [3, 5, 1, 10, 8, 9, 7]);
    CombatExample11();
  }

  lemma CombatExample11()
    ensures Combat([2, 6, 4], [3, 5, 1, 10, 8, 9, 7], 7) == Some(([], [3, 2, 10, 6, 8, 5, 9, 4, 7, 1]))
  {
    CombatStep([2, 6, 4], [3, 5, 1, 10, 8, 9, 7], 7, [6, 4], [5, 1, 10, 8, 9, 7, 3, 2]);
    CombatStep([6, 4], [5, 1, 10, 8, 9, 7, 3, 2], 6, [4, 6, 5], [1, 10, 8, 9, 7, 3, 2]);
    CombatExample12();
  }

  lemma CombatExample12()
    ensures Combat([4, 6, 5], [1, 10, 8, 9, 7, 3, 2], 5) == Some(([], [3, 2, 10, 6, 8, 5, 9, 4, 7, 1]))
  {
    CombatStep([4, 6, 5], [1, 10, 8, 9, 7, 3, 2], 5, [6, 5, 4, 1], [10, 8, 9, 7, 3, 2]);
    CombatStep([6, 5, 4, 1], [10, 8, 9, 7, 3, 2], 4, [5, 4, 1], [8, 9, 7, 3, 2, 10, 6]);
    CombatExample13();
  }

  lemma CombatExample13()
    ensures Combat([5, 4, 1], [8, 9, 7, 3, 2, 10, 6], 3) == Some(([], [3, 2, 10, 6, 8, 5, 9, 4, 7, 1]))
  {
    CombatStep([5, 4, 1], [8, 9, 7, 3, 2, 10, 6], 3, [4, 1], [9, 7, 3, 2, 10, 6, 8, 5]);
    CombatStep([4, 1], [9, 7, 3, 2, 10, 6, 8, 5], 2, [1], [7, 3, 2, 10, 6, 8, 5, 9, 4]);
    CombatExample14();
  }

  lemma CombatExample14()
    ensures Combat([1], [7, 3, 2, 10, 6, 8, 5, 9, 4], 1) == Some(([], [3, 2, 10, 6, 8, 5, 9, 4, 7, 1]))
  {
    CombatStep([1], [7, 3, 2, 10, 6, 8, 5, 9, 4], 1, [], [3, 2, 10, 6, 8, 5, 9, 4, 7, 1]);
  }

  /** The example game ends after 29 rounds, player 2 holding every card, with a score of 306. */
  lemma CombatExample()
    ensures Combat([9, 2, 6, 3, 1], [5, 8, 4, 7, 10], 29) == Some(([], [3, 2, 10, 6, 8, 5, 9, 4, 7, 1]))
    ensures CalculateScore([3, 2, 10, 6, 8, 5, 9, 4, 7, 1]) == 306
  {
    CombatExample0();
    ScoreFromTop([3, 2, 10, 6, 8, 5, 9, 4, 7, 1]);
  }

  // ---------------------------------------------------------------------------------------------
  // Part 2: recursive combat

  /** Who wins the round that opens with `a` against `b`, the rest of the decks being `r1` and `r2`:
      a sub-game on copies of the top `a` and `b` cards when both players hold that many, else
      the higher card, so that a tie goes to player 2. `None` when the sub-game runs out of fuel. */
  function RoundWinner(a: nat, b: nat, r1: Deck, r2: Deck, fuel: nat): Option<bool>
    decreases fuel, 1
  {
    if a <= |r1| && b <= |r2| then
      match Play(r1[..a], r2[..b], {}, fuel)
      case None => None
      case Some(res) => Some(res.0)
    else Some(a > b)
  }

  /** `play_game` from the position `(p1, p2)` with the positions in `seen` already played:
      `(true, p1)` on a repeated position, else the winner and their deck when a deck is empty.
      Each round, and each sub-game, takes one unit of `fuel`; `None` when it runs out. */
  function Play(p1: Deck, p2: Deck, seen: set<(Deck, Deck)>, fuel: nat): Option<(bool, Deck)>
    decreases fuel, 0
  {
    if p1 == [] || p2 == [] then Some(if p1 == [] then (false, p2) else (true, p1))
    else if (p1, p2) in seen then Some((true, p1))
    else if fuel == 0 then None
    else
      var a, b, r1, r2 := p1[0], p2[0], p1[1..], p2[1..];
      match RoundWinner(a, b, r1, r2, fuel - 1)
      case None => None
      case Some(w) =>
        if w then Play(r1 + [a, b], r2, seen + {(p1, p2)}, fuel - 1)
        else Play(r1, r2 + [b, a], seen + {(p1, p2)}, fuel - 1)
  }

  /** A round of recursive combat moves both drawn cards to the round's winner. */
  lemma RoundCards(p1: Deck, p2: Deck, w: bool)
    requires |p1| > 0 && |p2| > 0
    ensures w ==> multiset(p1[1..] + [p1[0], p2[0]]) + multiset(p2[1..]) == multiset(p1) + multiset(p2)
    ensures !w ==> multiset(p1[1..]) + multiset(p2[1..] + [p2[0], p1[0]]) == multiset(p1) + multiset(p2)
  {
    assert p1 == [p1[0]] + p1[1..] && p2 == [p2[0]] + p2[1..];
  }

  /** Every round keeps `|p1| + |p2|` and the cards in play. A game won by player 2 leaves all cards
      in player 2's deck; a game player 1 wins leaves player 1 holding some of them (all, unless the
      game ended on a repeated position), and never none. */
  lemma {:induction false} PlayCards(p1: Deck, p2: Deck, seen: set<(Deck, Deck)>, fuel: nat)
    requires Play(p1, p2, seen, fuel).Some?
    ensures var r := Play(p1, p2, seen, fuel).value;
      multiset(r.1) <= multiset(p1) + multiset(p2) && |r.1| <= |p1| + |p2|
    ensures var r := Play(p1, p2, seen, fuel).value;
      !r.0 ==> multiset(r.1) == multiset(p1) + multiset(p2)
    ensures var r := Play(p1, p2, seen, fuel).value;
      r.0 ==> r.1 != []
    decreases fuel
  {
    if p1 != [] && p2 != [] && (p1, p2) !in seen {
      var a, b, r1, r2 := p1[0], p2[0], p1[1..], p2[1..];
      var w := RoundWinner(a, b, r1, r2, fuel - 1).value;
      RoundCards(p1, p2, w);
      if w {
        PlayCards(r1 + [a, b], r2, seen + {(p1, p2)}, fuel - 1);
      } else {
        PlayCards(r1, r2 + [b, a], seen + {(p1, p2)}, fuel - 1);
      }
    }
  }

  /** `play_game`: the `while` loop, with `game_states` the set of positions seen, and the
      recursive call for a sub-game. */
  method PlayGame(deck1: Deck, deck2: Deck, fuel: nat) returns (r: Option<(bool, Deck)>)
    ensures r == Play(deck1, deck2, {}, fuel)
    decreases fuel
  {
    var p1: Deck, p2: Deck := deck1, deck2;
    var gameStates: set<(Deck, Deck)> := {};
    var f: nat := fuel;
    while p1 != [] && p2 != []
      invariant f <= fuel
      invariant Play(p1, p2, gameStates, f) == Play(deck1, deck2, {}, fuel)
      decreases f
    {
      if (p1, p2) in gameStates {
        return Some((true, p1));
      }
      if f == 0 {
        return None;
      }
      var newState: (Deck, Deck) := (p1, p2);
      gameStates := gameStates + {newState};
      var p1v, p2v := p1[0], p2[0];
      p1, p2 := p1[1..], p2[1..];
      var hasPlayerOneWon: bool;
      if p1v <= |p1| && p2v <= |p2| {
        var sub := PlayGame(p1[..p1v], p2[..p2v], f - 1);
        if sub.None? {
          return None;
        }
        hasPlayerOneWon := sub.value.0;
      } else {
        hasPlayerOneWon := p1v > p2v;
      }
      if hasPlayerOneWon {
        p1 := p1 + [p1v, p2v];
      } else {
        p2 := p2 + [p2v, p1v];
      }
      f := f - 1;
    }
    r := if p1 == [] then Some((false, p2)) else Some((true, p1));
  }

  /** `part2`: the score of the deck `play_game` returns. */
  method Part2(deck1: Deck, deck2: Deck, fuel: nat) returns (r: Option<nat>)
    ensures Play(deck1, deck2, {}, fuel).None? ==> r.None?
    ensures Play(deck1, deck2, {}, fuel).Some? ==> r == Some(TopScore(Play(deck1, deck2, {}, fuel).value.1))
  {
    var game := PlayGame(deck1, deck2, fuel);
    if game.None? {
      return None;
    }
    ScoreFromTop(game.value.1);
    r := Some(CalculateScore(game.value.1));
  }

  // ---------------------------------------------------------------------------------------------
  // Input

  /** The numbers of a player's block after its header line; `None` where the source's `unwrap`
      panics on a line that is not a number. */
  function ParseDeck(lines: seq<string>): (r: Option<Deck>)
    ensures r.Some? <==> forall i :: 0 <= i < |lines| ==> ParseUsize(lines[i]).Some?
    ensures r.Some? ==> (|r.value| == |lines| &&
      forall i :: 0 <= i < |lines| ==> r.value[i] == ParseUsize(lines[i]).value)
  {
    if |lines| == 0 then Some([])
    else match (ParseUsize(lines[0]), ParseDeck(lines[1..]))
      case (Some(x), Some(rest)) => Some([x] + rest)
      case _ => None
  }

  /** The lines after the header line (`skip(1)`): empty when there is none. */
  function Tail(lines: seq<string>): seq<string>
  {
    if |lines| == 0 then [] else lines[1..]
  }

  /** `parse_input`: the two blocks separated by a blank line, each without its header line;
      `None` where the source panics (fewer than two blocks, or a card that is not a number). */
  function ParseInput(input: string): (r: Option<(Deck, Deck)>)
    ensures r.Some? <==> (|SplitStr(input, "\n\n")| >= 2 &&
      ParseDeck(Tail(Lines(SplitStr(input, "\n\n")[0]))).Some? &&
      ParseDeck(Tail(Lines(SplitStr(input, "\n\n")[1]))).Some?)
    ensures r.Some? ==> (r.value.0 == ParseDeck(Tail(Lines(SplitStr(input, "\n\n")[0]))).value &&
      r.value.1 == ParseDeck(Tail(Lines(SplitStr(input, "\n\n")[1]))).value)
  {
    var parts := SplitStr(input, "\n\n");
    if |parts| < 2 then None
    else
      var l1, l2 := Lines(parts[0]), Lines(parts[1]);
      var d1 := ParseDeck(Tail(l1));
      var d2 := ParseDeck(Tail(l2));
      if d1.None? || d2.None? then None else Some((d1.value, d2.value))
  }
}

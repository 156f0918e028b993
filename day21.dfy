/** Day 21: allergen assessment. Each food lists its ingredients and some of the allergens it
    contains; an allergen is in exactly one ingredient. The candidates of an allergen are the
    ingredients common to every food that lists it, and an elimination loop fixes the allergens that
    have one candidate left. Part 1 counts the appearances of the ingredients that carry no allergen,
    part 2 lists the dangerous ingredients ordered by their allergen's name. */
module Day21 {
  import opened Wrappers
  import opened Arith
  import opened Text

  /** `struct Food`. */
  datatype Food = Food(ingredients: seq<string>, allergens: seq<string>)

  /** One element of `rules`: an allergen and the ingredients of one food that lists it. */
  type Rule = (string, set<string>)

  const Contains: string := "(contains "

  // ---------------------------------------------------------------------------------------
  // Parsing
  // ---------------------------------------------------------------------------------------

  /** `Food::from`: the words before `(contains ` are the ingredients; the rest, without its last
      character, split at `, ` gives the allergens. `None` where the source panics: no `(contains `
      (the second `unwrap`), or nothing after it (the slice `0..len - 1`). */
  function ParseFood(s: string): (r: Option<Food>)
    ensures r.Some? <==> |SplitStr(s, Contains)| >= 2 && SplitStr(s, Contains)[1] != ""
    ensures r.Some? ==> |r.value.allergens| >= 1
  {
    var parts := SplitStr(s, Contains);
    if |parts| < 2 || parts[1] == "" then None
    else
      var raw := parts[1];
      Some(Food(Words(parts[0]), SplitStr(raw[..|raw| - 1], ", ")))
  }

  /** The line the puzzle input has for a food. */
  function FoodText(f: Food): string {
    Join(f.ingredients, " ") + " " + Contains + Join(f.allergens, ", ") + ")"
  }

  /** A food its line describes: words without whitespace or `(`, allergens without `,` or `(`,
      and at least one of each. */
  predicate Printable(f: Food) {
    |f.ingredients| > 0 && |f.allergens| > 0 &&
    (forall i :: 0 <= i < |f.ingredients| ==>
       f.ingredients[i] != "" && '(' !in f.ingredients[i] && forall c :: c in f.ingredients[i] ==> !IsWhitespace(c)) &&
    (forall i :: 0 <= i < |f.allergens| ==> ',' !in f.allergens[i] && '(' !in f.allergens[i])
  }

  /** `Food::from` reads back the line of a food. */
  lemma ParseFoodText(f: Food)
    requires Printable(f)
    ensures ParseFood(FoodText(f)) == Some(f)
  {
    var a := Join(f.ingredients, " ") + " ";
    var b := Join(f.allergens, ", ") + ")";
    assert FoodText(f) == a + Contains + b;
    NotInJoin(f.ingredients, " ", '(');
    NotInJoin(f.allergens, ", ", '(');
    SplitStrFirst(a, Contains, b);
    SplitStrNone(b, Contains);
    WordsOfJoinSpace(f.ingredients);
    assert b[..|b| - 1] == Join(f.allergens, ", ");
    SplitStrJoin(f.allergens, ", ");
  }

  /** `input.lines().map(|x| x.trim().into())`: `None` as soon as one line does not parse. */
  function ParseFoods(lines: seq<string>): (r: Option<seq<Food>>)
    ensures r.Some? <==> forall i :: 0 <= i < |lines| ==> ParseFood(Trim(lines[i])).Some?
    ensures r.Some? ==> |r.value| == |lines| && forall i :: 0 <= i < |lines| ==> ParseFood(Trim(lines[i])) == Some(r.value[i])
  {
    if |lines| == 0 then Some([])
    else match ParseFood(Trim(lines[0]))
      case None => None
      case Some(f) =>
        match ParseFoods(lines[1..])
        case None => None
        case Some(rest) => Some([f] + rest)
  }

  /** The ingredients of a food, as the `HashSet` built for each of its allergens. */
  function IngredientSet(f: Food): (s: set<string>)
    ensures forall x :: x in s <==> x in f.ingredients
  {
    set x | x in f.ingredients
  }

  /** The rules of one food: one per allergen, in the food's order. */
  function FoodRules(f: Food): (r: seq<Rule>)
    ensures |r| == |f.allergens|
    ensures forall j :: 0 <= j < |r| ==> r[j] == (f.allergens[j], IngredientSet(f))
  {
    seq(|f.allergens|, j requires 0 <= j < |f.allergens| => (f.allergens[j], IngredientSet(f)))
  }

  /** The rules of all foods, food by food. */
  function RulesOf(foods: seq<Food>): seq<Rule>
  {
    if |foods| == 0 then [] else RulesOf(foods[..|foods| - 1]) + FoodRules(foods[|foods| - 1])
  }

  /** The loop of `parse_input`: for each food, for each of its allergens, push the allergen with
      the set of the food's ingredients. */
  method CollectRules(foods: seq<Food>) returns (rules: seq<Rule>)
    ensures rules == RulesOf(foods)
  {
    rules := [];
    for i := 0 to |foods|
      invariant rules == RulesOf(foods[..i])
    {
      var f := foods[i];
      ghost var before := rules;
      for j := 0 to |f.allergens|
        invariant rules == before + FoodRules(f)[..j]
      {
        var ingredientSet := set x | x in f.ingredients;
        rules := rules + [(f.allergens[j], ingredientSet)];
        assert FoodRules(f)[..j + 1] == FoodRules(f)[..j] + [FoodRules(f)[j]];
      }
      assert FoodRules(f)[..|f.allergens|] == FoodRules(f);
      assert foods[..i + 1][..i] == foods[..i];
    }
    assert foods[..|foods|] == foods;
  }

  /** `parse_input`: the foods and their rules. */
  method ParseInput(input: string) returns (r: Option<(seq<Food>, seq<Rule>)>)
    ensures r.None? <==> ParseFoods(Lines(input)).None?
    ensures r.Some? ==> r.value.0 == ParseFoods(Lines(input)).value && r.value.1 == RulesOf(r.value.0)
  {
    var foods := ParseFoods(Lines(input));
    if foods.None? {
      return None;
    }
    var rules := CollectRules(foods.value);
    r := Some((foods.value, rules));
  }

  /** Every rule comes from an allergen of a food, with that food's ingredients, and every
      allergen of every food gives one. */
  lemma {:induction false} RulesOfSpec(foods: seq<Food>, a: string, s: set<string>)
    ensures (a, s) in RulesOf(foods) <==> exists i :: 0 <= i < |foods| && a in foods[i].allergens && s == IngredientSet(foods[i])
    decreases |foods|
  {
    if |foods| > 0 {
      var init, last := foods[..|foods| - 1], foods[|foods| - 1];
      RulesOfSpec(init, a, s);
      assert (a, s) in FoodRules(last) <==> a in last.allergens && s == IngredientSet(last) by {
        if a in last.allergens && s == IngredientSet(last) {
          var j :| 0 <= j < |last.allergens| && last.allergens[j] == a;
          assert FoodRules(last)[j] == (a, s);
        }
      }
      if exists i :: 0 <= i < |foods| && a in foods[i].allergens && s == IngredientSet(foods[i]) {
        var i :| 0 <= i < |foods| && a in foods[i].allergens && s == IngredientSet(foods[i]);
        if i < |init| {
          assert init[i] == foods[i];
        }
      }
      if exists i :: 0 <= i < |init| && a in init[i].allergens && s == IngredientSet(init[i]) {
        var i :| 0 <= i < |init| && a in init[i].allergens && s == IngredientSet(init[i]);
        assert foods[i] == init[i];
      }
    }
  }

  /** There is one rule per allergen per food. */
  lemma {:induction false} RulesOfLength(foods: seq<Food>)
    ensures |RulesOf(foods)| == AllergenCount(foods)
    decreases |foods|
  {
    if |foods| > 0 {
      RulesOfLength(foods[..|foods| - 1]);
    }
  }

  /** The number of allergens listed over all foods. */
  function AllergenCount(foods: seq<Food>): nat {
    if |foods| == 0 then 0 else AllergenCount(foods[..|foods| - 1]) + |foods[|foods| - 1].allergens|
  }

  // ---------------------------------------------------------------------------------------
  // The candidates of each allergen
  // ---------------------------------------------------------------------------------------

  /** The first loop of `build_allergen_map`, rule by rule: a new allergen takes the rule's set,
      a known one keeps the intersection. */
  function Merge(rules: seq<Rule>): map<string, set<string>>
  {
    if |rules| == 0 then map[]
    else
      var m := Merge(rules[..|rules| - 1]);
      var (a, s) := rules[|rules| - 1];
      if a in m then m[a := m[a] * s] else m[a := s]
  }

  method MergeRules(rules: seq<Rule>) returns (occurences: map<string, set<string>>)
    ensures occurences == Merge(rules)
  {
    occurences := map[];
    for i := 0 to |rules|
      invariant occurences == Merge(rules[..i])
    {
      var (allergen, ingredients) := rules[i];
      if allergen in occurences {
        var merged := occurences[allergen] * ingredients;
        occurences := occurences[allergen := merged];
      } else {
        occurences := occurences[allergen := ingredients];
      }
      assert rules[..i + 1][..i] == rules[..i];
    }
    assert rules[..|rules|] == rules;
  }

  /** The allergens of the merged map are those of the rules. */
  lemma {:induction false} MergeKeys(rules: seq<Rule>, a: string)
    ensures a in Merge(rules) <==> exists i :: 0 <= i < |rules| && rules[i].0 == a
    decreases |rules|
  {
    if |rules| > 0 {
      var init := rules[..|rules| - 1];
      MergeKeys(init, a);
      if exists i :: 0 <= i < |init| && init[i].0 == a {
        var i :| 0 <= i < |init| && init[i].0 == a;
        assert rules[i] == init[i];
      }
      if exists i :: 0 <= i < |rules| && rules[i].0 == a {
        var i :| 0 <= i < |rules| && rules[i].0 == a;
        if i < |init| {
          assert init[i] == rules[i];
        }
      }
    }
  }

  /** An allergen's merged set is the intersection of the sets of all its rules. */
  lemma {:induction false} MergeIntersection(rules: seq<Rule>, a: string, x: string)
    requires a in Merge(rules)
    ensures x in Merge(rules)[a] <==> forall i :: 0 <= i < |rules| && rules[i].0 == a ==> x in rules[i].1
    decreases |rules|
  {
    var init, last := rules[..|rules| - 1], rules[|rules| - 1];
    assert forall i :: 0 <= i < |init| ==> init[i] == rules[i];
    if a in Merge(init) {
      MergeIntersection(init, a, x);
    } else {
      MergeKeys(init, a);
    }
  }

  /** The allergens with candidates are those some food lists. */
  lemma FoodAllergens(foods: seq<Food>, a: string)
    ensures a in Merge(RulesOf(foods)) <==> exists i :: 0 <= i < |foods| && a in foods[i].allergens
  {
    var rules := RulesOf(foods);
    MergeKeys(rules, a);
    if exists i :: 0 <= i < |foods| && a in foods[i].allergens {
      var i :| 0 <= i < |foods| && a in foods[i].allergens;
      RulesOfSpec(foods, a, IngredientSet(foods[i]));
      var k :| 0 <= k < |rules| && rules[k] == (a, IngredientSet(foods[i]));
    }
    if exists k :: 0 <= k < |rules| && rules[k].0 == a {
      var k :| 0 <= k < |rules| && rules[k].0 == a;
      RulesOfSpec(foods, a, rules[k].1);
    }
  }

  /** A rule of an allergen holds every ingredient common to the foods that list it. */
  lemma CommonInRule(foods: seq<Food>, a: string, x: string, k: nat)
    requires k < |RulesOf(foods)| && RulesOf(foods)[k].0 == a
    requires forall i :: 0 <= i < |foods| && a in foods[i].allergens ==> x in foods[i].ingredients
    ensures x in RulesOf(foods)[k].1
  {
    RulesOfSpec(foods, a, RulesOf(foods)[k].1);
  }

  /** An ingredient in every rule of an allergen is in every food that lists it. */
  lemma RuleCommonInFood(foods: seq<Food>, a: string, x: string, i: nat)
    requires i < |foods| && a in foods[i].allergens
    requires forall k :: 0 <= k < |RulesOf(foods)| && RulesOf(foods)[k].0 == a ==> x in RulesOf(foods)[k].1
    ensures x in foods[i].ingredients
  {
    RulesOfSpec(foods, a, IngredientSet(foods[i]));
  }

  /** The candidates of an allergen are the ingredients common to all foods that list it. */
  lemma {:induction false} FoodCandidates(foods: seq<Food>, a: string, x: string)
    requires a in Merge(RulesOf(foods))
    ensures x in Merge(RulesOf(foods))[a] <==> forall i :: 0 <= i < |foods| && a in foods[i].allergens ==> x in foods[i].ingredients
  {
    var rules := RulesOf(foods);
    MergeIntersection(rules, a, x);
    if forall i :: 0 <= i < |foods| && a in foods[i].allergens ==> x in foods[i].ingredients {
      forall k: nat | k < |rules| && rules[k].0 == a ensures x in rules[k].1 {
        CommonInRule(foods, a, x, k);
      }
    }
    if forall k :: 0 <= k < |rules| && rules[k].0 == a ==> x in rules[k].1 {
      forall i: nat | i < |foods| && a in foods[i].allergens ensures x in foods[i].ingredients {
        RuleCommonInFood(foods, a, x, i);
      }
    }
  }

  // ---------------------------------------------------------------------------------------
  // Elimination
  // ---------------------------------------------------------------------------------------

  /** The state of the elimination loop: the candidates still open (`occurences`) and the
      allergens fixed so far (`allergen_map`). */
  datatype State = State(occurences: map<string, set<string>>, allergenMap: map<string, string>)

  /** The one element of a singleton. */
  lemma Singleton(s: set<string>, x: string, y: string)
    requires |s| == 1 && x in s
    ensures y in s ==> y == x
  {
    assert |s - {x}| == 0;
    assert y in s ==> y in s - {x} || y == x;
  }

  ghost function Only(s: set<string>): (x: string)
    requires |s| == 1
    ensures s == {x}
  {
    var x :| x in s;
    Singleton(s, x, x);
    assert forall y :: y in s ==> y == x by {
      forall y | y in s ensures y == x {
        Singleton(s, x, y);
      }
    }
    x
  }

  /** The body of the `iter_mut` loop for one allergen: its still-undecided candidates are those not
      yet assigned to another allergen; with exactly one left the allergen takes it and its set is
      cleared, otherwise the set shrinks to them. */
  ghost function Visit(st: State, a: string): (r: State)
    requires a in st.occurences
    ensures r.occurences.Keys == st.occurences.Keys
  {
    var undecided := st.occurences[a] - st.allergenMap.Values;
    if |undecided| == 1 then State(st.occurences[a := {}], st.allergenMap[a := Only(undecided)])
    else State(st.occurences[a := undecided], st.allergenMap)
  }

  /** One sweep over the allergens in the order the map yields them. */
  ghost function Sweep(st: State, order: seq<string>): (r: State)
    requires forall k :: 0 <= k < |order| ==> order[k] in st.occurences
    ensures r.occurences.Keys == st.occurences.Keys
    decreases |order|
  {
    if |order| == 0 then st else Visit(Sweep(st, order[..|order| - 1]), order[|order| - 1])
  }

  /** `.filter(|(_, v)| !v.is_empty())`. */
  function DropEmpty(occurences: map<string, set<string>>): (r: map<string, set<string>>)
    ensures forall a :: a in r <==> a in occurences && occurences[a] != {}
    ensures forall a :: a in r ==> r[a] == occurences[a]
  {
    map a | a in occurences && occurences[a] != {} :: occurences[a]
  }

  /** One turn of the outer `loop`: a sweep, then the emptied allergens are dropped. */
  ghost function Pass(st: State, order: seq<string>): State
    requires forall k :: 0 <= k < |order| ==> order[k] in st.occurences
  {
    var r := Sweep(st, order);
    State(DropEmpty(r.occurences), r.allergenMap)
  }

  /** `order` is one of the orders in which the map's keys can be iterated. */
  predicate Enumerates(order: seq<string>, keys: set<string>) {
    (forall k :: 0 <= k < |order| ==> order[k] in keys) &&
    (forall k :: k in keys ==> k in order) &&
    (forall i, j :: 0 <= i < j < |order| ==> order[i] != order[j])
  }

  /** The keys of a map in some order: the `HashMap`'s iteration order is not specified. */
  method IterationOrder(keys: set<string>) returns (order: seq<string>)
    ensures Enumerates(order, keys)
  {
    order := [];
    var rest := keys;
    while rest != {}
      invariant rest <= keys
      invariant forall k :: 0 <= k < |order| ==> order[k] in keys && order[k] !in rest
      invariant forall k :: k in keys ==> k in order || k in rest
      invariant forall i, j :: 0 <= i < j < |order| ==> order[i] != order[j]
      decreases |rest|
    {
      var a :| a in rest;
      order := order + [a];
      rest := rest - {a};
    }
  }

  /** The body of the `iter_mut` loop of `build_allergen_map`, for one allergen. */
  method VisitAllergen(st: State, allergen: string) returns (r: State)
    requires allergen in st.occurences
    ensures r == Visit(st, allergen)
  {
    var occurences, allergenMap := st.occurences, st.allergenMap;
    var undecided := set x | x in occurences[allergen] && x !in allergenMap.Values;
    assert undecided == st.occurences[allergen] - st.allergenMap.Values;
    if |undecided| == 1 {
      var x :| x in undecided;
      Singleton(undecided, Only(undecided), x);
      allergenMap := allergenMap[allergen := x];
      occurences := occurences[allergen := {}];
    } else {
      occurences := occurences[allergen := undecided];
    }
    r := State(occurences, allergenMap);
  }

  /** One turn of the outer `loop` of `build_allergen_map`, with the keys visited in `order`. */
  method EliminationPass(st: State, order: seq<string>) returns (r: State)
    requires forall k :: 0 <= k < |order| ==> order[k] in st.occurences
    ensures r == Pass(st, order)
  {
    r := st;
    for i := 0 to |order|
      invariant r == Sweep(st, order[..i])
    {
      assert order[..i + 1][..i] == order[..i];
      r := VisitAllergen(r, order[i]);
    }
    assert order[..|order|] == order;
    var occurences := map a | a in r.occurences && r.occurences[a] != {} :: r.occurences[a];
    r := State(occurences, r.allergenMap);
  }

  // ---------------------------------------------------------------------------------------
  // What the elimination keeps true
  // ---------------------------------------------------------------------------------------

  /** No ingredient is assigned to two allergens. */
  predicate Injective(m: map<string, string>) {
    forall a, b :: a in m && b in m && a != b ==> m[a] != m[b]
  }

  /** The open sets and the assignments stay within each allergen's candidates (`cands`, the merged
      map), and no ingredient is assigned twice. */
  predicate Sound(cands: map<string, set<string>>, st: State) {
    (forall a :: a in st.occurences ==> a in cands && st.occurences[a] <= cands[a]) &&
    (forall a :: a in st.allergenMap ==> a in cands && st.allergenMap[a] in cands[a]) &&
    Injective(st.allergenMap)
  }

  /** Visiting an allergen either assigns it an open candidate that no other allergen holds, or
      shrinks its set to the candidates not yet assigned; the other allergens are untouched. */
  lemma VisitSpec(st: State, a: string)
    requires a in st.occurences
    ensures var r := Visit(st, a);
      (forall b :: b != a ==> (b in r.occurences <==> b in st.occurences)) &&
      (forall b :: b != a && b in st.occurences ==> r.occurences[b] == st.occurences[b]) &&
      (forall b :: b != a ==> (b in r.allergenMap <==> b in st.allergenMap)) &&
      (forall b :: b != a && b in st.allergenMap ==> r.allergenMap[b] == st.allergenMap[b])
    ensures |st.occurences[a] - st.allergenMap.Values| == 1 ==>
      Visit(st, a).occurences[a] == {} && a in Visit(st, a).allergenMap &&
      st.occurences[a] - st.allergenMap.Values == {Visit(st, a).allergenMap[a]}
    ensures |st.occurences[a] - st.allergenMap.Values| != 1 ==>
      Visit(st, a).occurences[a] == st.occurences[a] - st.allergenMap.Values &&
      Visit(st, a).allergenMap == st.allergenMap
  {
  }

  /** A visit keeps the elimination sound. */
  lemma VisitSound(cands: map<string, set<string>>, st: State, a: string)
    requires Sound(cands, st) && a in st.occurences
    ensures Sound(cands, Visit(st, a))
  {
    var undecided := st.occurences[a] - st.allergenMap.Values;
    if |undecided| == 1 {
      var x := Only(undecided);
      var m := st.allergenMap[a := x];
      assert x !in st.allergenMap.Values;
      forall b, c | b in m && c in m && b != c ensures m[b] != m[c] {
        if b != a && c != a {
          assert m[b] == st.allergenMap[b] && m[c] == st.allergenMap[c];
        } else if b == a {
          assert m[c] == st.allergenMap[c] && st.allergenMap[c] in st.allergenMap.Values;
        } else {
          assert m[b] == st.allergenMap[b] && st.allergenMap[b] in st.allergenMap.Values;
        }
      }
    }
  }

  /** A sweep keeps the elimination sound. */
  lemma {:induction false} SweepSound(cands: map<string, set<string>>, st: State, order: seq<string>)
    requires Sound(cands, st)
    requires forall k :: 0 <= k < |order| ==> order[k] in st.occurences
    ensures Sound(cands, Sweep(st, order))
    decreases |order|
  {
    if |order| > 0 {
      var init := order[..|order| - 1];
      SweepSound(cands, st, init);
      VisitSound(cands, Sweep(st, init), order[|order| - 1]);
    }
  }

  /** A whole pass keeps the elimination sound. */
  lemma PassSound(cands: map<string, set<string>>, st: State, order: seq<string>)
    requires Sound(cands, st)
    requires forall k :: 0 <= k < |order| ==> order[k] in st.occurences
    ensures Sound(cands, Pass(st, order))
  {
    SweepSound(cands, st, order);
  }

  /** Every ingredient that is a candidate of some allergen. */
  function Candidates(cands: map<string, set<string>>): set<string>
  {
    set a, x | a in cands && x in cands[a] :: x
  }

  /** What the elimination has settled: a candidate that has left an allergen's open set is
      assigned to some allergen, an allergen that has left the working map has all its candidates
      assigned, and an allergen already assigned has an empty open set. */
  predicate Covered(cands: map<string, set<string>>, st: State) {
    (forall a :: a in st.allergenMap && a in st.occurences ==> st.occurences[a] == {}) &&
    (forall a :: a in st.occurences && a in cands ==> cands[a] - st.occurences[a] <= st.allergenMap.Values) &&
    (forall a :: a in cands && a !in st.occurences ==> cands[a] <= st.allergenMap.Values)
  }

  /** A visit keeps what is settled settled, and assignments are never withdrawn. */
  lemma VisitCovered(cands: map<string, set<string>>, st: State, a: string)
    requires Covered(cands, st) && a in st.occurences
    ensures Covered(cands, Visit(st, a))
    ensures st.allergenMap.Values <= Visit(st, a).allergenMap.Values
  {
    var undecided := st.occurences[a] - st.allergenMap.Values;
    var r := Visit(st, a);
    if |undecided| == 1 {
      var x := Only(undecided);
      assert x in st.occurences[a];
      assert a !in st.allergenMap;
      forall v | v in st.allergenMap.Values ensures v in r.allergenMap.Values {
        var b :| b in st.allergenMap && st.allergenMap[b] == v;
        assert r.allergenMap[b] == v;
      }
      assert r.allergenMap[a] == x;
      forall y | y in st.occurences[a] ensures y in r.allergenMap.Values {
        if y !in st.allergenMap.Values {
          assert y in undecided;
        }
      }
    }
  }

  /** A sweep keeps what is settled settled. */
  lemma {:induction false} SweepCovered(cands: map<string, set<string>>, st: State, order: seq<string>)
    requires Covered(cands, st)
    requires forall k :: 0 <= k < |order| ==> order[k] in st.occurences
    ensures Covered(cands, Sweep(st, order))
    decreases |order|
  {
    if |order| > 0 {
      var init := order[..|order| - 1];
      SweepCovered(cands, st, init);
      VisitCovered(cands, Sweep(st, init), order[|order| - 1]);
    }
  }

  /** A whole pass keeps what is settled settled: the dropped allergens had empty open sets. */
  lemma PassCovered(cands: map<string, set<string>>, st: State, order: seq<string>)
    requires Covered(cands, st)
    requires forall k :: 0 <= k < |order| ==> order[k] in st.occurences
    ensures Covered(cands, Pass(st, order))
  {
    SweepCovered(cands, st, order);
  }

  /** Once no allergen is open, a sound and settled assignment uses exactly the candidates. */
  lemma SettledValues(cands: map<string, set<string>>, st: State)
    requires Sound(cands, st) && Covered(cands, st) && st.occurences == map[]
    ensures st.allergenMap.Values == Candidates(cands)
    ensures forall a :: a in cands ==> cands[a] <= st.allergenMap.Values
  {
    forall v | v in st.allergenMap.Values ensures v in Candidates(cands) {
      var a :| a in st.allergenMap && st.allergenMap[a] == v;
    }
  }

  /** `build_allergen_map`: merge the rules, then run passes until no allergen is open. The source
      loops for ever when some allergen never resolves; here at most `fuel` passes run and `None`
      stands for running out. The resulting map assigns distinct ingredients, each one a candidate
      of its allergen. */
  method BuildAllergenMap(rules: seq<Rule>, fuel: nat) returns (r: Option<map<string, string>>)
    ensures r.Some? ==> Injective(r.value)
    ensures r.Some? ==> forall a :: a in r.value ==> a in Merge(rules) && r.value[a] in Merge(rules)[a]
    ensures r.Some? ==> forall a :: a in Merge(rules) ==> Merge(rules)[a] <= r.value.Values
    ensures r.Some? ==> r.value.Values == Candidates(Merge(rules))
  {
    var occurences := MergeRules(rules);
    var st := State(occurences, map[]);
    for turn := 0 to fuel
      invariant Sound(Merge(rules), st) && Covered(Merge(rules), st)
    {
      var order := IterationOrder(st.occurences.Keys);
      PassSound(Merge(rules), st, order);
      PassCovered(Merge(rules), st, order);
      st := EliminationPass(st, order);
      if st.occurences == map[] {
        SettledValues(Merge(rules), st);
        return Some(st.allergenMap);
      }
    }
    return None;
  }

  // ---------------------------------------------------------------------------------------
  // Part 1
  // ---------------------------------------------------------------------------------------

  /** Every ingredient appearance, food by food: `foods.iter().flat_map(|f| f.ingredients.iter())`. */
  function Appearances(foods: seq<Food>): seq<string>
  {
    if |foods| == 0 then [] else Appearances(foods[..|foods| - 1]) + foods[|foods| - 1].ingredients
  }

  /** An ingredient appears iff some food lists it. */
  lemma {:induction false} AppearancesIn(foods: seq<Food>, x: string)
    ensures x in Appearances(foods) <==> exists i :: 0 <= i < |foods| && x in foods[i].ingredients
    decreases |foods|
  {
    if |foods| > 0 {
      var init := foods[..|foods| - 1];
      AppearancesIn(init, x);
      if exists i :: 0 <= i < |init| && x in init[i].ingredients {
        var i :| 0 <= i < |init| && x in init[i].ingredients;
        assert foods[i] == init[i];
      }
      if exists i :: 0 <= i < |foods| && x in foods[i].ingredients {
        var i :| 0 <= i < |foods| && x in foods[i].ingredients;
        if i < |init| {
          assert init[i] == foods[i];
        }
      }
    }
  }

  /** Allergen `a` may be in ingredient `x`: some food lists `a`, and every food that lists `a`
      contains `x`. */
  predicate MayContain(foods: seq<Food>, a: string, x: string) {
    (exists i :: 0 <= i < |foods| && a in foods[i].allergens) &&
    (forall i :: 0 <= i < |foods| && a in foods[i].allergens ==> x in foods[i].ingredients)
  }

  /** An ingredient is a candidate of some allergen iff some allergen may be in it, so the
      appearances `part1` counts are exactly those of ingredients no allergen may be in. */
  lemma CandidatesOfFoods(foods: seq<Food>, x: string)
    ensures x in Candidates(Merge(RulesOf(foods))) <==> exists a :: MayContain(foods, a, x)
  {
    var cands := Merge(RulesOf(foods));
    if x in Candidates(cands) {
      var a :| a in cands && x in cands[a];
      FoodAllergens(foods, a);
      FoodCandidates(foods, a, x);
      assert MayContain(foods, a, x);
    }
    if exists a :: MayContain(foods, a, x) {
      var a :| MayContain(foods, a, x);
      FoodAllergens(foods, a);
      FoodCandidates(foods, a, x);
      assert x in cands[a];
    }
  }

  /** The number of positions holding `x`: `.filter(|ing| ing.eq(&i)).count()`. */
  function CountIn(s: seq<string>, x: string): (n: nat)
    ensures n == multiset(s)[x]
  {
    if |s| == 0 then 0
    else
      assert s == s[..|s| - 1] + [s[|s| - 1]];
      CountIn(s[..|s| - 1], x) + if s[|s| - 1] == x then 1 else 0
  }

  /** `count_ingredient_occurences`: how often an ingredient appears over all foods. */
  function CountIngredient(foods: seq<Food>, x: string): (n: nat)
    ensures n == multiset(Appearances(foods))[x]
  {
    CountIn(Appearances(foods), x)
  }

  /** The number of positions whose element is in `d`. */
  function CountInSet(s: seq<string>, d: set<string>): nat
  {
    if |s| == 0 then 0 else CountInSet(s[..|s| - 1], d) + if s[|s| - 1] in d then 1 else 0
  }

  /** The number of positions whose element is outside `d`. */
  function CountOutside(s: seq<string>, d: set<string>): nat
  {
    if |s| == 0 then 0 else CountOutside(s[..|s| - 1], d) + if s[|s| - 1] in d then 0 else 1
  }

  lemma {:induction false} CountInSetEmpty(s: seq<string>)
    ensures CountInSet(s, {}) == 0
    decreases |s|
  {
    if |s| > 0 {
      CountInSetEmpty(s[..|s| - 1]);
    }
  }

  /** Counting over one more element adds that element's count. */
  lemma {:induction false} CountInSetAdd(s: seq<string>, d: set<string>, x: string)
    requires x !in d
    ensures CountInSet(s, d + {x}) == CountInSet(s, d) + CountIn(s, x)
    decreases |s|
  {
    if |s| > 0 {
      CountInSetAdd(s[..|s| - 1], d, x);
    }
  }

  /** On the elements of `s`, a set that holds exactly the elements outside `v` counts the same as
      counting outside `v`. */
  lemma {:induction false} CountInSetOutside(s: seq<string>, d: set<string>, v: set<string>)
    requires forall x :: x in s ==> (x in d <==> x !in v)
    ensures CountInSet(s, d) == CountOutside(s, v)
    decreases |s|
  {
    if |s| > 0 {
      var init := s[..|s| - 1];
      assert forall x :: x in init ==> x in s;
      CountInSetOutside(init, d, v);
    }
  }

  /** The sum in `part1`: over the distinct ingredients assigned to no allergen (the `HashSet` is
      visited in an unspecified order), their numbers of appearances. It equals the number of
      appearances of unassigned ingredients. */
  method CountSafe(foods: seq<Food>, allergenMap: map<string, string>) returns (total: nat)
    ensures total == CountOutside(Appearances(foods), allergenMap.Values)
  {
    var all := Appearances(foods);
    var unique := set x | x in all;
    var free := set x | x in unique && x !in allergenMap.Values;
    total := 0;
    CountInSetEmpty(all);
    var rest := free;
    ghost var done: set<string> := {};
    while rest != {}
      invariant rest + done == free && rest !! done
      invariant total == CountInSet(all, done)
      decreases |rest|
    {
      var x :| x in rest;
      CountInSetAdd(all, done, x);
      total := total + CountIngredient(foods, x);
      rest := rest - {x};
      done := done + {x};
    }
    CountInSetOutside(all, free, allergenMap.Values);
  }

  /** `part1` on the parsed foods and their rules: `None` when the elimination does not finish
      within `fuel` passes. */
  method Part1(foods: seq<Food>, rules: seq<Rule>, fuel: nat) returns (r: Option<nat>)
    requires rules == RulesOf(foods)
    ensures r.Some? ==> r.value == CountOutside(Appearances(foods), Candidates(Merge(RulesOf(foods))))
  {
    var allergenMap := BuildAllergenMap(rules, fuel);
    if allergenMap.None? {
      return None;
    }
    var total := CountSafe(foods, allergenMap.value);
    r := Some(total);
  }

  // ---------------------------------------------------------------------------------------
  // Part 2
  // ---------------------------------------------------------------------------------------

  /** Rust's ordering of strings: lexicographic, a proper prefix first. */
  predicate LexLess(a: string, b: string)
  {
    if |a| == 0 then |b| > 0
    else if |b| == 0 then false
    else if a[0] == b[0] then LexLess(a[1..], b[1..])
    else a[0] < b[0]
  }

  lemma {:induction false} LexIrreflexive(a: string)
    ensures !LexLess(a, a)
  {
    if |a| > 0 {
      LexIrreflexive(a[1..]);
    }
  }

  lemma {:induction false} LexTransitive(a: string, b: string, c: string)
    requires LexLess(a, b) && LexLess(b, c)
    ensures LexLess(a, c)
  {
    if |a| > 0 && a[0] == b[0] && b[0] == c[0] {
      LexTransitive(a[1..], b[1..], c[1..]);
    }
  }

  /** Two different strings are ordered one way or the other. */
  lemma {:induction false} LexTotal(a: string, b: string)
    requires a != b
    ensures LexLess(a, b) || LexLess(b, a)
  {
    if |a| > 0 && |b| > 0 && a[0] == b[0] {
      assert a == [a[0]] + a[1..] && b == [b[0]] + b[1..];
      LexTotal(a[1..], b[1..]);
    }
  }

  predicate StrictlySorted(s: seq<string>) {
    forall i, j :: 0 <= i < j < |s| ==> LexLess(s[i], s[j])
  }

  /** Inserting a new key into a sorted list of keys. */
  function InsertKey(s: seq<string>, x: string): (r: seq<string>)
    requires StrictlySorted(s) && x !in s
    ensures StrictlySorted(r) && |r| == |s| + 1
    ensures forall y :: y in r <==> y in s || y == x
  {
    if |s| == 0 then [x]
    else if LexLess(x, s[0]) then
      assert forall j :: 0 < j < |s| ==> LexLess(x, s[j]) by {
        forall j | 0 < j < |s| ensures LexLess(x, s[j]) {
          LexTransitive(x, s[0], s[j]);
        }
      }
      [x] + s
    else
      LexTotal(x, s[0]);
      var rest := InsertKey(s[1..], x);
      assert forall j :: 0 <= j < |rest| ==> LexLess(s[0], rest[j]) by {
        forall j | 0 <= j < |rest| ensures LexLess(s[0], rest[j]) {
          assert rest[j] in rest;
          if rest[j] != x {
            var k :| 0 <= k < |s[1..]| && s[1..][k] == rest[j];
            assert s[k + 1] == rest[j];
          }
        }
      }
      [s[0]] + rest
  }

  /** The keys of a map in ascending order: `sort_by(|left, right| left.0.cmp(right.0))`. */
  method SortKeys(keys: set<string>) returns (sorted: seq<string>)
    ensures Enumerates(sorted, keys) && StrictlySorted(sorted)
  {
    var order := IterationOrder(keys);
    sorted := [];
    for i := 0 to |order|
      invariant StrictlySorted(sorted)
      invariant forall y :: y in sorted <==> y in order[..i]
    {
      assert order[i] !in order[..i];
      sorted := InsertKey(sorted, order[i]);
      assert order[..i + 1] == order[..i] + [order[i]];
    }
    assert order[..|order|] == order;
    forall i, j | 0 <= i < j < |sorted| ensures sorted[i] != sorted[j] {
      LexIrreflexive(sorted[i]);
    }
    forall k | 0 <= k < |sorted| ensures sorted[k] in keys {
      assert sorted[k] in sorted;
    }
    forall k | k in keys ensures k in sorted {
      assert k in order;
    }
  }

  /** A string is never below itself and above itself. */
  lemma LexAsymmetric(a: string, b: string)
    ensures LexLess(a, b) ==> !LexLess(b, a)
  {
    if LexLess(a, b) && LexLess(b, a) {
      LexTransitive(a, b, a);
      LexIrreflexive(a);
    }
  }

  /** The head of a sorted list is below every other element. */
  lemma SortedHead(a: seq<string>, y: string)
    requires StrictlySorted(a) && |a| > 0
    ensures y in a && y != a[0] ==> LexLess(a[0], y)
  {
    if y in a && y != a[0] {
      var k :| 0 <= k < |a| && a[k] == y;
    }
  }

  /** In a sorted list the tail holds every element except the head. */
  lemma SortedTail(a: seq<string>, y: string)
    requires StrictlySorted(a) && |a| > 0
    ensures y in a[1..] <==> y in a && y != a[0]
  {
    LexIrreflexive(a[0]);
    if y in a[1..] {
      var k :| 0 <= k < |a[1..]| && a[1..][k] == y;
      assert LexLess(a[0], a[k + 1]);
    }
    if y in a && y != a[0] {
      var k :| 0 <= k < |a| && a[k] == y;
      assert a[1..][k - 1] == y;
    }
  }

  /** There is only one ascending order of a set of keys, so the result of `part2` does not depend on
      the map's iteration order or on the sorting algorithm. */
  lemma {:induction false} SortedUnique(a: seq<string>, b: seq<string>)
    requires StrictlySorted(a) && StrictlySorted(b)
    requires forall y :: y in a <==> y in b
    ensures a == b
    decreases |a|
  {
    assert |a| > 0 ==> a[0] in b;
    assert |b| > 0 ==> b[0] in a;
    if |a| > 0 && |b| > 0 {
      SortedHead(a, b[0]);
      SortedHead(b, a[0]);
      LexAsymmetric(a[0], b[0]);
      assert a[0] == b[0];
      forall y ensures y in a[1..] <==> y in b[1..] {
        SortedTail(a, y);
        SortedTail(b, y);
      }
      SortedUnique(a[1..], b[1..]);
      assert a == [a[0]] + a[1..] && b == [b[0]] + b[1..];
    }
  }

  /** The dangerous ingredients: the map's values with the allergens taken in `order`. */
  function ValuesAt(m: map<string, string>, order: seq<string>): (r: seq<string>)
    requires forall k :: 0 <= k < |order| ==> order[k] in m
    ensures |r| == |order| && forall k :: 0 <= k < |order| ==> r[k] == m[order[k]]
  {
    seq(|order|, k requires 0 <= k < |order| => m[order[k]])
  }

  /** The keys of a set in ascending order. */
  ghost function AscendingKeys(keys: set<string>): (s: seq<string>)
    ensures Enumerates(s, keys) && StrictlySorted(s)
    decreases |keys|
  {
    if keys == {} then []
    else
      var x :| x in keys;
      var prefix := AscendingKeys(keys - {x});
      assert x !in prefix;
      var s := InsertKey(prefix, x);
      assert forall k :: 0 <= k < |s| ==> s[k] in keys by {
        forall k | 0 <= k < |s| ensures s[k] in keys {
          assert s[k] in s;
        }
      }
      forall i, j | 0 <= i < j < |s| ensures s[i] != s[j] {
        LexIrreflexive(s[i]);
      }
      s
  }

  /** `part2` on the map: the ingredients joined with "," in ascending order of their allergens. */
  method Part2(allergenMap: map<string, string>) returns (r: string)
    ensures r == Join(ValuesAt(allergenMap, AscendingKeys(allergenMap.Keys)), ",")
  {
    var sorted := SortKeys(allergenMap.Keys);
    SortedUnique(sorted, AscendingKeys(allergenMap.Keys));
    var dangerous := CollectValues(allergenMap, sorted);
    r := Join(dangerous, ",");
  }

  /** The `map` over the sorted keys: the value of each key, in the keys' order. */
  method CollectValues(m: map<string, string>, order: seq<string>) returns (values: seq<string>)
    requires forall k :: 0 <= k < |order| ==> order[k] in m
    ensures values == ValuesAt(m, order)
  {
    values := [];
    for i := 0 to |order|
      invariant |values| == i
      invariant forall k :: 0 <= k < i ==> values[k] == m[order[k]]
    {
      values := values + [m[order[i]]];
    }
  }
}

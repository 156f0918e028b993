/** Day 11: the seating system, a cellular automaton on a map from (x, y) to '.', 'L' (empty
    seat) or '#' (occupied seat). Part 1 looks at the eight adjacent cells, part 2 at the first
    seat visible in each of the eight directions. */
module Day11 {
  import opened Wrappers
  import opened Arith
  import opened Text

  type Pos = (int, int)
  type Grid = map<Pos, char>

  /** `DIRECTIONS`, in the source's order. */
  const Directions: seq<(int, int)> := [(0, 1), (1, 0), (-1, 0), (0, -1), (1, 1), (-1, -1), (-1, 1), (1, -1)]

  predicate IsSeat(c: char) {
    c == '#' || c == 'L'
  }

  // ---------------------------------------------------------------------------------------------
  // parse_input

  /** `chars().filter(|c| !c.is_whitespace())`. */
  function Cells(text: string): (r: string)
    ensures forall c :: c in r ==> !IsWhitespace(c)
  {
    if |text| == 0 then ""
    else if IsWhitespace(text[0]) then Cells(text[1..])
    else [text[0]] + Cells(text[1..])
  }

  /** The i-th cell at key (i % w, i / w), for the first `k` cells. */
  function Place(cells: string, w: nat, k: nat): Grid
    requires w > 0 && k <= |cells|
  {
    if k == 0 then map[] else Place(cells, w, k - 1)[((k - 1) % w, (k - 1) / w) := cells[k - 1]]
  }

  /** `parse_input`: the width is the length of the first whitespace-separated token (its
      `unwrap` panics on an input without one, here `None`). */
  function ParseInput(text: string): Option<Grid> {
    var words := Words(text);
    if |words| == 0 then None
    else
      var cells := Cells(text);
      Some(Place(cells, |words[0]|, |cells|))
  }

  /** Two cells land on the same key only if they are the same cell. */
  lemma KeyInjective(i: nat, j: nat, w: nat)
    requires w > 0 && (i % w, i / w) == (j % w, j / w)
    ensures i == j
  {
    RowCol(i, w);
    RowCol(j, w);
  }

  lemma {:induction false} PlaceSpec(cells: string, w: nat, k: nat)
    requires w > 0 && k <= |cells|
    ensures forall i: nat :: i < k ==> (i % w, i / w) in Place(cells, w, k) && Place(cells, w, k)[(i % w, i / w)] == cells[i]
    ensures forall p :: p in Place(cells, w, k) ==> exists i: nat :: i < k && p == (i % w, i / w)
  {
    if k > 0 {
      PlaceSpec(cells, w, k - 1);
      forall i: nat | i < k - 1 ensures (i % w, i / w) != ((k - 1) % w, (k - 1) / w) {
        if (i % w, i / w) == ((k - 1) % w, (k - 1) / w) {
          KeyInjective(i, k - 1, w);
        }
      }
    }
  }

  /** The parsed map has the i-th non-whitespace character at (i % width, i / width), and no
      other keys. */
  lemma ParseInputSpec(text: string)
    requires ParseInput(text).Some?
    ensures var w, cells, grid := |Words(text)[0]|, Cells(text), ParseInput(text).value;
            && w > 0
            && (forall i: nat :: i < |cells| ==> (i % w, i / w) in grid && grid[(i % w, i / w)] == cells[i])
            && (forall p :: p in grid ==> exists i: nat :: i < |cells| && p == (i % w, i / w))
  {
    PlaceSpec(Cells(text), |Words(text)[0]|, |Cells(text)|);
  }

  // ---------------------------------------------------------------------------------------------
  // adjacent_nodes

  /** The neighbour of (x, y) in direction `i`. */
  function Neighbour(x: int, y: int, i: nat): Pos
    requires i < |Directions|
  {
    (x + Directions[i].0, y + Directions[i].1)
  }

  /** The values at the present neighbours in the first `k` directions, in direction order. */
  function AdjacentFrom(nodes: Grid, x: int, y: int, k: nat): seq<char>
    requires k <= |Directions|
  {
    if k == 0 then []
    else
      var p := Neighbour(x, y, k - 1);
      AdjacentFrom(nodes, x, y, k - 1) + (if p in nodes then [nodes[p]] else [])
  }

  /** `adjacent_nodes`. */
  function AdjacentNodes(nodes: Grid, x: int, y: int): seq<char> {
    AdjacentFrom(nodes, x, y, |Directions|)
  }

  /** The directions in which (x, y) has a neighbour, and an occupied one. */
  function Present(nodes: Grid, x: int, y: int): nat -> bool {
    (i: nat) => i < |Directions| && Neighbour(x, y, i) in nodes
  }

  function OccupiedAt(nodes: Grid, x: int, y: int): nat -> bool {
    (i: nat) => i < |Directions| && Neighbour(x, y, i) in nodes && nodes[Neighbour(x, y, i)] == '#'
  }

  lemma {:induction false} AdjacentFromCount(nodes: Grid, x: int, y: int, k: nat)
    requires k <= |Directions|
    ensures |AdjacentFrom(nodes, x, y, k)| == CountBelow(Present(nodes, x, y), k)
    ensures multiset(AdjacentFrom(nodes, x, y, k))['#'] == CountBelow(OccupiedAt(nodes, x, y), k)
  {
    if k > 0 {
      AdjacentFromCount(nodes, x, y, k - 1);
      var p := Neighbour(x, y, k - 1);
      var prev := AdjacentFrom(nodes, x, y, k - 1);
      var here: seq<char> := if p in nodes then [nodes[p]] else [];
      assert AdjacentFrom(nodes, x, y, k) == prev + here;
      assert multiset(prev + here) == multiset(prev) + multiset(here);
      assert Present(nodes, x, y)(k - 1) <==> p in nodes;
      assert OccupiedAt(nodes, x, y)(k - 1) <==> p in nodes && nodes[p] == '#';
    }
  }

  /** `adjacent_nodes` returns one value per neighbouring key present in the map, so at most 8,
      and as many '#' as there are occupied neighbours. */
  lemma AdjacentNodesCount(nodes: Grid, x: int, y: int)
    ensures |AdjacentNodes(nodes, x, y)| == CountBelow(Present(nodes, x, y), 8) <= 8
    ensures multiset(AdjacentNodes(nodes, x, y))['#'] == CountBelow(OccupiedAt(nodes, x, y), 8)
  {
    AdjacentFromCount(nodes, x, y, 8);
  }

  // ---------------------------------------------------------------------------------------------
  // adjacent_nodes_fov

  /** A bound on the coordinates of the keys: the map is finite, so every ray leaves it. */
  ghost function Extent(keys: set<Pos>): (r: nat)
    ensures forall p :: p in keys ==> -(r as int) <= p.0 <= r && -(r as int) <= p.1 <= r
  {
    if keys == {} then 0
    else
      var p :| p in keys;
      var rest := Extent(keys - {p});
      var a := if p.0 < 0 then -p.0 else p.0;
      var b := if p.1 < 0 then -p.1 else p.1;
      if rest >= a && rest >= b then rest else if a >= b then a else b
  }

  /** Past this scalar every ray from (x, y) is off the map. */
  ghost function Reach(nodes: Grid, x: int, y: int): nat {
    Extent(nodes.Keys) + (if x < 0 then -x else x) + (if y < 0 then -y else y)
  }

  /** Each direction moves by one in at least one coordinate. */
  lemma DirectionUnit(i: nat)
    requires i < |Directions|
    ensures -1 <= Directions[i].0 <= 1 && -1 <= Directions[i].1 <= 1
    ensures Directions[i].0 != 0 || Directions[i].1 != 0
  {
  }

  /** The cell at scalar `s` along direction `i`. */
  function RayCell(x: int, y: int, i: nat, s: nat): Pos
    requires i < |Directions|
  {
    (x + Directions[i].0 * s, y + Directions[i].1 * s)
  }

  /** Moving by a unit step `s` times from `x` to `c` covers `s`. */
  lemma UnitSteps(x: int, d: int, s: nat, c: int)
    requires (d == 1 || d == -1) && c == x + d * s
    ensures s <= (if c < 0 then -c else c) + (if x < 0 then -x else x)
  {
  }

  lemma RayBound(nodes: Grid, x: int, y: int, i: nat, s: nat)
    requires i < |Directions| && RayCell(x, y, i, s) in nodes
    ensures s <= Reach(nodes, x, y)
  {
    DirectionUnit(i);
    var p := RayCell(x, y, i, s);
    var e := Extent(nodes.Keys);
    assert -(e as int) <= p.0 <= e && -(e as int) <= p.1 <= e;
    if Directions[i].0 != 0 {
      UnitSteps(x, Directions[i].0, s, p.0);
    } else {
      UnitSteps(y, Directions[i].1, s, p.1);
    }
  }

  /** The first seat ('#' or 'L') along direction `i` from scalar `s` on, skipping other cells
      and stopping where the ray leaves the map. */
  ghost function FirstSeat(nodes: Grid, x: int, y: int, i: nat, s: nat): Option<char>
    requires i < |Directions|
    decreases Reach(nodes, x, y) + 1 - s
  {
    var p := RayCell(x, y, i, s);
    if p !in nodes then None
    else if IsSeat(nodes[p]) then Some(nodes[p])
    else
      RayBound(nodes, x, y, i, s);
      FirstSeat(nodes, x, y, i, s + 1)
  }

  function AsSeq(o: Option<char>): seq<char> {
    match o
    case Some(v) => [v]
    case None => []
  }

  /** The seats visible in the first `k` directions, in direction order. */
  ghost function VisibleFrom(nodes: Grid, x: int, y: int, k: nat): seq<char>
    requires k <= |Directions|
  {
    if k == 0 then []
    else
      VisibleFrom(nodes, x, y, k - 1) + AsSeq(FirstSeat(nodes, x, y, k - 1, 1))
  }

  /** What `adjacent_nodes_fov` collects: per direction at most one value, the first seat. */
  ghost function Visible(nodes: Grid, x: int, y: int): seq<char> {
    VisibleFrom(nodes, x, y, |Directions|)
  }

  /** A queue entry of `adjacent_nodes_fov`: a direction (by index) and a scalar. */
  type Ray = (nat, nat)

  /** Every queued ray has a direction, and a scalar from 1 to past the reach. */
  predicate Aimed(queue: seq<Ray>) {
    forall j :: 0 <= j < |queue| ==> queue[j].0 < |Directions|
  }

  predicate Bounded(queue: seq<Ray>, reach: nat) {
    forall j :: 0 <= j < |queue| ==> 1 <= queue[j].1 <= reach + 1
  }

  lemma RaysAppend(a: seq<Ray>, e: Ray, reach: nat)
    requires Aimed(a) && Bounded(a, reach) && e.0 < |Directions| && 1 <= e.1 <= reach + 1
    ensures Aimed(a + [e]) && Bounded(a + [e], reach)
  {
    forall j | 0 <= j < |a + [e]| ensures (a + [e])[j] == if j < |a| then a[j] else e {
    }
  }

  lemma RaysTail(a: seq<Ray>, reach: nat)
    requires |a| > 0 && Aimed(a) && Bounded(a, reach)
    ensures Aimed(a[1..]) && Bounded(a[1..], reach)
  {
    forall j | 0 <= j < |a| - 1 ensures a[1..][j] == a[j + 1] {
    }
  }

  /** The same ray one step further. */
  function Advance(r: Ray): Ray {
    (r.0, r.1 + 1)
  }

  /** The seat a queued ray will find, if any. */
  ghost function Found(nodes: Grid, x: int, y: int, r: Ray): multiset<char>
    requires r.0 < |Directions|
  {
    multiset(AsSeq(FirstSeat(nodes, x, y, r.0, r.1)))
  }

  /** The seats the queued rays will still find. */
  ghost function Pending(nodes: Grid, x: int, y: int, queue: seq<Ray>): multiset<char>
    requires Aimed(queue)
  {
    if |queue| == 0 then multiset{} else Found(nodes, x, y, queue[0]) + Pending(nodes, x, y, queue[1..])
  }

  lemma {:induction false} PendingAppend(nodes: Grid, x: int, y: int, a: seq<Ray>, e: Ray)
    requires Aimed(a)
    requires e.0 < |Directions|
    ensures Pending(nodes, x, y, a + [e]) == Pending(nodes, x, y, a) + Pending(nodes, x, y, [e])
  {
    if |a| > 0 {
      assert (a + [e])[1..] == a[1..] + [e];
      PendingAppend(nodes, x, y, a[1..], e);
    } else {
      assert a + [e] == [e];
    }
  }

  /** The termination measure of the queue: the scalars left before each ray is off the map. */
  ghost function Budget(queue: seq<Ray>, reach: nat): nat
    requires Bounded(queue, reach)
  {
    if |queue| == 0 then 0 else (reach + 2 - queue[0].1) + Budget(queue[1..], reach)
  }

  lemma {:induction false} BudgetAppend(a: seq<Ray>, e: Ray, reach: nat)
    requires Bounded(a, reach)
    requires 1 <= e.1 <= reach + 1
    ensures Budget(a + [e], reach) == Budget(a, reach) + reach + 2 - e.1
  {
    if |a| > 0 {
      assert (a + [e])[1..] == a[1..] + [e];
      BudgetAppend(a[1..], e, reach);
    } else {
      assert a + [e] == [e];
    }
  }

  /** What the loop of `adjacent_nodes_fov` keeps. */
  ghost predicate FovInv(nodes: Grid, x: int, y: int, queue: seq<Ray>, neighbours: seq<char>) {
    && Aimed(queue) && Bounded(queue, Reach(nodes, x, y))
    && multiset(neighbours) + Pending(nodes, x, y, queue) == multiset(Visible(nodes, x, y))
  }

  /** One pop of the queue where the ray is off the map or meets a seat: the seat, if any, moves
      from the pending rays to the collected values. */
  lemma FovDrop(nodes: Grid, x: int, y: int, queue: seq<Ray>, neighbours: seq<char>, found: seq<char>)
    requires |queue| > 0 && FovInv(nodes, x, y, queue, neighbours)
    requires RayCell(x, y, queue[0].0, queue[0].1) !in nodes ==> found == []
    requires RayCell(x, y, queue[0].0, queue[0].1) in nodes ==>
               IsSeat(nodes[RayCell(x, y, queue[0].0, queue[0].1)]) && found == [nodes[RayCell(x, y, queue[0].0, queue[0].1)]]
    ensures FovInv(nodes, x, y, queue[1..], neighbours + found)
    ensures Budget(queue[1..], Reach(nodes, x, y)) < Budget(queue, Reach(nodes, x, y))
  {
    RaysTail(queue, Reach(nodes, x, y));
    assert multiset(found) == Found(nodes, x, y, queue[0]);
    assert multiset(neighbours + found) == multiset(neighbours) + multiset(found);
  }

  /** A non-seat cell on the ray is looked through. */
  lemma FirstSeatSkip(nodes: Grid, x: int, y: int, i: nat, s: nat)
    requires i < |Directions| && RayCell(x, y, i, s) in nodes && !IsSeat(nodes[RayCell(x, y, i, s)])
    ensures FirstSeat(nodes, x, y, i, s) == FirstSeat(nodes, x, y, i, s + 1)
  {
  }

  lemma FoundSkip(nodes: Grid, x: int, y: int, r: Ray)
    requires r.0 < |Directions| && RayCell(x, y, r.0, r.1) in nodes && !IsSeat(nodes[RayCell(x, y, r.0, r.1)])
    ensures Found(nodes, x, y, Advance(r)) == Found(nodes, x, y, r)
  {
    FirstSeatSkip(nodes, x, y, r.0, r.1);
  }

  /** One pop of the queue where the ray meets a non-seat cell: the ray is pushed back one
      step further, which finds the same seat. */
  lemma FovPush(nodes: Grid, x: int, y: int, queue: seq<Ray>, neighbours: seq<char>)
    requires |queue| > 0 && FovInv(nodes, x, y, queue, neighbours)
    requires RayCell(x, y, queue[0].0, queue[0].1) in nodes && !IsSeat(nodes[RayCell(x, y, queue[0].0, queue[0].1)])
    ensures FovInv(nodes, x, y, queue[1..] + [Advance(queue[0])], neighbours)
    ensures Budget(queue[1..] + [Advance(queue[0])], Reach(nodes, x, y)) < Budget(queue, Reach(nodes, x, y))
  {
    var i, s := queue[0].0, queue[0].1;
    var rest := queue[1..];
    var e := Advance(queue[0]);
    var reach := Reach(nodes, x, y);
    RaysTail(queue, reach);
    RayBound(nodes, x, y, i, s);
    FoundSkip(nodes, x, y, queue[0]);
    PendingAppend(nodes, x, y, rest, e);
    assert Pending(nodes, x, y, [e]) == Found(nodes, x, y, e);
    BudgetAppend(rest, e, reach);
    RaysAppend(rest, e, reach);
    assert multiset(neighbours) + Pending(nodes, x, y, rest + [e]) == multiset(Visible(nodes, x, y));
  }

  /** The first loop of `adjacent_nodes_fov`: one ray per direction, at scalar 1. */
  method StartQueue(nodes: Grid, x: int, y: int) returns (queue: seq<Ray>)
    ensures Aimed(queue) && Bounded(queue, Reach(nodes, x, y))
    ensures Pending(nodes, x, y, queue) == multiset(Visible(nodes, x, y))
  {
    queue := [];
    for i := 0 to |Directions|
      invariant queue == StartRays(i)
    {
      var ray: Ray := (i, 1);
      queue := queue + [ray];
    }
    StartRaysPending(nodes, x, y, |Directions|);
  }

  /** The rays of the first `k` directions, each at scalar 1. */
  function StartRays(k: nat): seq<Ray> {
    if k == 0 then [] else StartRays(k - 1) + [(k - 1, 1)]
  }

  lemma {:induction false} StartRaysAimed(k: nat, reach: nat)
    requires k <= |Directions|
    ensures Aimed(StartRays(k)) && Bounded(StartRays(k), reach)
  {
    if k > 0 {
      StartRaysAimed(k - 1, reach);
      RaysAppend(StartRays(k - 1), (k - 1, 1), reach);
    }
  }

  lemma {:induction false} StartRaysPending(nodes: Grid, x: int, y: int, k: nat)
    requires k <= |Directions|
    ensures Aimed(StartRays(k)) && Bounded(StartRays(k), Reach(nodes, x, y))
    ensures Pending(nodes, x, y, StartRays(k)) == multiset(VisibleFrom(nodes, x, y, k))
  {
    StartRaysAimed(k, Reach(nodes, x, y));
    if k > 0 {
      var prev := StartRays(k - 1);
      var e: Ray := (k - 1, 1);
      StartRaysAimed(k - 1, Reach(nodes, x, y));
      calc {
        Pending(nodes, x, y, StartRays(k));
        { assert StartRays(k) == prev + [e]; }
        Pending(nodes, x, y, prev + [e]);
        { PendingAppend(nodes, x, y, prev, e); }
        Pending(nodes, x, y, prev) + Pending(nodes, x, y, [e]);
        { StartRaysPending(nodes, x, y, k - 1); }
        multiset(VisibleFrom(nodes, x, y, k - 1)) + Pending(nodes, x, y, [e]);
        { PendingStep(nodes, x, y, k - 1); }
        multiset(VisibleFrom(nodes, x, y, k));
      }
    }
  }

  /** The ray of direction `k` finds the seat `VisibleFrom` adds for it. */
  lemma PendingStep(nodes: Grid, x: int, y: int, k: nat)
    requires k < |Directions|
    ensures multiset(VisibleFrom(nodes, x, y, k + 1)) == multiset(VisibleFrom(nodes, x, y, k)) + Pending(nodes, x, y, [(k, 1)])
  {
    var e: Ray := (k, 1);
    assert Pending(nodes, x, y, [e]) == Found(nodes, x, y, e);
    var prev, here := VisibleFrom(nodes, x, y, k), AsSeq(FirstSeat(nodes, x, y, k, 1));
    assert VisibleFrom(nodes, x, y, k + 1) == prev + here;
    assert multiset(prev + here) == multiset(prev) + multiset(here);
  }

  /** `adjacent_nodes_fov`: a queue of rays, one per direction at scalar 1; a popped ray that
      meets a seat yields it, one that meets another cell is pushed back one step further,
      one that leaves the map is dropped. The values come in the order they are found. */
  method AdjacentNodesFov(nodes: Grid, x: int, y: int) returns (neighbours: seq<char>)
    ensures multiset(neighbours) == multiset(Visible(nodes, x, y))
  {
    neighbours := [];
    ghost var reach := Reach(nodes, x, y);
    var queue := StartQueue(nodes, x, y);
    while |queue| > 0
      invariant FovInv(nodes, x, y, queue, neighbours)
      decreases Budget(queue, reach)
    {
      var i, s := queue[0].0, queue[0].1;
      var p := RayCell(x, y, i, s);
      if p in nodes {
        var value := nodes[p];
        if IsSeat(value) {
          FovDrop(nodes, x, y, queue, neighbours, [value]);
          neighbours := neighbours + [value];
          queue := queue[1..];
        } else {
          FovPush(nodes, x, y, queue, neighbours);
          queue := queue[1..] + [Advance(queue[0])];
        }
      } else {
        FovDrop(nodes, x, y, queue, neighbours, []);
        queue := queue[1..];
      }
    }
  }

  /** Hence the count of occupied seats `part2` sees is the number of directions whose first
      visible seat is occupied. */
  lemma VisibleOccupied(nodes: Grid, x: int, y: int, neighbours: seq<char>)
    requires multiset(neighbours) == multiset(Visible(nodes, x, y))
    ensures multiset(neighbours)['#'] == CountBelow(SeesOccupied(nodes, x, y), |Directions|)
    ensures |neighbours| <= |Directions|
  {
    VisibleFromCount(nodes, x, y, |Directions|);
    assert |neighbours| == |multiset(neighbours)|;
  }

  ghost function SeesOccupied(nodes: Grid, x: int, y: int): nat -> bool {
    (i: nat) => i < |Directions| && FirstSeat(nodes, x, y, i, 1) == Some('#')
  }

  lemma {:induction false} VisibleFromCount(nodes: Grid, x: int, y: int, k: nat)
    requires k <= |Directions|
    ensures multiset(VisibleFrom(nodes, x, y, k))['#'] == CountBelow(SeesOccupied(nodes, x, y), k)
    ensures |VisibleFrom(nodes, x, y, k)| <= k
  {
    if k > 0 {
      VisibleFromCount(nodes, x, y, k - 1);
      var prev, here := VisibleFrom(nodes, x, y, k - 1), AsSeq(FirstSeat(nodes, x, y, k - 1, 1));
      assert VisibleFrom(nodes, x, y, k) == prev + here;
      assert multiset(prev + here) == multiset(prev) + multiset(here);
      assert SeesOccupied(nodes, x, y)(k - 1) <==> FirstSeat(nodes, x, y, k - 1, 1) == Some('#');
      assert multiset(here)['#'] == (if FirstSeat(nodes, x, y, k - 1, 1) == Some('#') then 1 else 0);
    }
  }

  // ---------------------------------------------------------------------------------------------
  // part1, part2 and partx

  /** The occupied seats around (x, y) that a rule counts: the adjacent cells in part 1, the
      first visible seat per direction in part 2. */
  ghost function Occupied(nodes: Grid, x: int, y: int, part2: bool): nat {
    if part2 then multiset(Visible(nodes, x, y))['#'] else multiset(AdjacentNodes(nodes, x, y))['#']
  }

  /** The threshold at which an occupied seat is left: 4 in part 1, 5 in part 2. */
  function Tolerance(part2: bool): nat {
    if part2 then 5 else 4
  }

  /** The rule closure of `part1` and `part2`: the new value of the cell, if it changes. */
  ghost function Rule(nodes: Grid, x: int, y: int, c: char, part2: bool): Option<char> {
    var occupied := Occupied(nodes, x, y, part2);
    if c == 'L' && occupied == 0 then Some('#')
    else if c == '#' && occupied >= Tolerance(part2) then Some('L')
    else None
  }

  /** A change `(x, y, c)` as the closures return it. */
  type Change = (int, int, char)

  function At(c: Change): Pos {
    (c.0, c.1)
  }

  /** The closure called on one cell: the counts come from `adjacent_nodes` or from
      `adjacent_nodes_fov`, filtered for '#'. */
  method Logic(nodes: Grid, x: int, y: int, c: char, part2: bool) returns (change: Option<Change>)
    ensures Rule(nodes, x, y, c, part2).Some? ==> change == Some((x, y, Rule(nodes, x, y, c, part2).value))
    ensures Rule(nodes, x, y, c, part2).None? ==> change == None
  {
    var seen: seq<char>;
    if part2 {
      seen := AdjacentNodesFov(nodes, x, y);
    } else {
      seen := AdjacentNodes(nodes, x, y);
    }
    var occupied := multiset(seen)['#'];
    if c == 'L' && occupied == 0 {
      change := Some((x, y, '#'));
    } else if c == '#' && occupied >= Tolerance(part2) {
      change := Some((x, y, 'L'));
    } else {
      change := None;
    }
  }

  /** The seats of the map. */
  function Seats(nodes: Grid): set<Pos> {
    set p | p in nodes && IsSeat(nodes[p])
  }

  /** One synchronous round: every seat whose rule fires takes the rule's value, judged on the
      map before the round; floor cells and the key set stay. */
  ghost function Next(nodes: Grid, part2: bool): Grid {
    map p | p in nodes :: if IsSeat(nodes[p]) && Rule(nodes, p.0, p.1, nodes[p], part2).Some?
                          then Rule(nodes, p.0, p.1, nodes[p], part2).value
                          else nodes[p]
  }

  /** No seat's rule fires. */
  ghost predicate Settled(nodes: Grid, part2: bool) {
    forall p :: p in nodes && IsSeat(nodes[p]) ==> Rule(nodes, p.0, p.1, nodes[p], part2).None?
  }

  /** The map after `n` rounds. */
  ghost function Iterate(nodes: Grid, part2: bool, n: nat): Grid {
    if n == 0 then nodes else Next(Iterate(nodes, part2, n - 1), part2)
  }

  /** The number of occupied seats, `filter('#').count()`. */
  function CountOccupied(nodes: Grid): nat {
    |set p | p in nodes && nodes[p] == '#'|
  }

  /** Changes found for seats of `nodes`: each one at a seat whose rule gives its value. */
  ghost predicate ChangesValid(nodes: Grid, changes: seq<Change>, part2: bool) {
    forall k :: 0 <= k < |changes| ==> && At(changes[k]) in nodes && IsSeat(nodes[At(changes[k])])
                                       && Rule(nodes, changes[k].0, changes[k].1, nodes[At(changes[k])], part2) == Some(changes[k].2)
  }

  /** The cells the changes touch. */
  function Touched(changes: seq<Change>): set<Pos> {
    set k | 0 <= k < |changes| :: At(changes[k])
  }

  /** The map after a set of touched cells took their rule's value. */
  ghost predicate UpdatedAt(nodes: Grid, acc: Grid, touched: set<Pos>, part2: bool) {
    && acc.Keys == nodes.Keys
    && forall p :: p in acc ==> acc[p] == if p in touched && Rule(nodes, p.0, p.1, nodes[p], part2).Some?
                                         then Rule(nodes, p.0, p.1, nodes[p], part2).value
                                         else nodes[p]
  }

  /** The `for` loop over the non-floor cells: whatever order the map is walked in, every seat
      whose rule fires contributes exactly its change. */
  method CollectChanges(nodes: Grid, part2: bool) returns (changes: seq<Change>)
    ensures ChangesValid(nodes, changes, part2)
    ensures forall p :: p in Seats(nodes) && Rule(nodes, p.0, p.1, nodes[p], part2).Some? ==> p in Touched(changes)
    ensures changes == [] <==> Settled(nodes, part2)
  {
    changes := [];
    var todo := Seats(nodes);
    while todo != {}
      invariant todo <= Seats(nodes)
      invariant ChangesValid(nodes, changes, part2)
      invariant forall p :: p in Seats(nodes) - todo && Rule(nodes, p.0, p.1, nodes[p], part2).Some? ==> p in Touched(changes)
      decreases |todo|
    {
      var p :| p in todo;
      var change := Logic(nodes, p.0, p.1, nodes[p], part2);
      if change.Some? {
        ChangesStep(nodes, changes, change.value, part2);
        changes := changes + [change.value];
      }
      todo := todo - {p};
    }
    if changes != [] {
      assert !Settled(nodes, part2) by {
        var c := changes[0];
        assert Rule(nodes, c.0, c.1, nodes[At(c)], part2).Some?;
      }
    }
  }

  lemma ChangesStep(nodes: Grid, changes: seq<Change>, c: Change, part2: bool)
    requires ChangesValid(nodes, changes, part2)
    requires At(c) in nodes && IsSeat(nodes[At(c)]) && Rule(nodes, c.0, c.1, nodes[At(c)], part2) == Some(c.2)
    ensures ChangesValid(nodes, changes + [c], part2)
    ensures Touched(changes + [c]) == Touched(changes) + {At(c)}
  {
    var grown := changes + [c];
    assert forall k :: 0 <= k < |changes| ==> grown[k] == changes[k];
    assert grown[|changes|] == c;
  }

  /** `while let Some(..) = changes.pop()`: the changes are applied from the last one back. */
  method ApplyChanges(nodes: Grid, changes: seq<Change>, part2: bool) returns (acc: Grid)
    requires ChangesValid(nodes, changes, part2)
    ensures UpdatedAt(nodes, acc, Touched(changes), part2)
  {
    acc := nodes;
    var rest := changes;
    while |rest| > 0
      invariant rest == changes[..|rest|]
      invariant UpdatedAt(nodes, acc, Touched(changes[|rest|..]), part2)
      decreases |rest|
    {
      var c := rest[|rest| - 1];
      ghost var k := |rest|;
      assert c == changes[k - 1];
      ApplyStep(nodes, acc, changes, k, part2);
      acc := acc[At(c) := c.2];
      rest := rest[..|rest| - 1];
      assert rest == changes[..k - 1] && |rest| == k - 1;
    }
  }

  lemma ApplyStep(nodes: Grid, acc: Grid, changes: seq<Change>, k: nat, part2: bool)
    requires 0 < k <= |changes| && ChangesValid(nodes, changes, part2)
    requires UpdatedAt(nodes, acc, Touched(changes[k..]), part2)
    ensures UpdatedAt(nodes, acc[At(changes[k - 1]) := changes[k - 1].2], Touched(changes[k - 1..]), part2)
  {
    var c := changes[k - 1];
    assert changes[k - 1..] == [c] + changes[k..];
    TouchedCons(c, changes[k..]);
    UpdateOne(nodes, acc, Touched(changes[k..]), c, Touched(changes[k - 1..]), part2);
  }

  /** Writing one fired change into the map extends the touched set by its cell. */
  lemma UpdateOne(nodes: Grid, acc: Grid, touched: set<Pos>, c: Change, grown: set<Pos>, part2: bool)
    requires UpdatedAt(nodes, acc, touched, part2)
    requires At(c) in nodes && Rule(nodes, c.0, c.1, nodes[At(c)], part2) == Some(c.2)
    requires grown == touched + {At(c)}
    ensures UpdatedAt(nodes, acc[At(c) := c.2], grown, part2)
  {
    var updated := acc[At(c) := c.2];
    forall p | p in updated
      ensures updated[p] == if p in grown && Rule(nodes, p.0, p.1, nodes[p], part2).Some?
                            then Rule(nodes, p.0, p.1, nodes[p], part2).value
                            else nodes[p]
    {
      if p != At(c) {
        assert updated[p] == acc[p];
      }
    }
  }

  lemma TouchedCons(c: Change, cs: seq<Change>)
    ensures Touched([c] + cs) == Touched(cs) + {At(c)}
  {
    var all := [c] + cs;
    forall q | q in Touched(all) ensures q in Touched(cs) + {At(c)} {
      var j :| 0 <= j < |all| && q == At(all[j]);
      if j > 0 {
        assert all[j] == cs[j - 1];
      }
    }
    forall q | q in Touched(cs) ensures q in Touched(all) {
      var j :| 0 <= j < |cs| && q == At(cs[j]);
      assert cs[j] == all[j + 1];
    }
    assert all[0] == c;
  }

  lemma TouchedFires(nodes: Grid, changes: seq<Change>, part2: bool)
    requires ChangesValid(nodes, changes, part2)
    ensures forall p :: p in Touched(changes) ==> p in Seats(nodes) && Rule(nodes, p.0, p.1, nodes[p], part2).Some?
  {
    forall p | p in Touched(changes) ensures p in Seats(nodes) && Rule(nodes, p.0, p.1, nodes[p], part2).Some? {
      var k :| 0 <= k < |changes| && p == At(changes[k]);
      assert IsSeat(nodes[At(changes[k])]);
    }
  }

  /** After applying all changes the map is the next round's. */
  lemma AppliedIsNext(nodes: Grid, changes: seq<Change>, acc: Grid, part2: bool)
    requires ChangesValid(nodes, changes, part2)
    requires forall p :: p in Seats(nodes) && Rule(nodes, p.0, p.1, nodes[p], part2).Some? ==> p in Touched(changes)
    requires UpdatedAt(nodes, acc, Touched(changes), part2)
    ensures acc == Next(nodes, part2)
  {
    var next := Next(nodes, part2);
    TouchedFires(nodes, changes, part2);
    forall p | p in acc ensures acc[p] == next[p] {
      if IsSeat(nodes[p]) && Rule(nodes, p.0, p.1, nodes[p], part2).Some? {
        assert p in Seats(nodes);
      }
    }
  }

  /** The first `n` rounds each changed something, and round `n` found nothing to change. */
  ghost predicate SettlesAt(nodes: Grid, part2: bool, n: nat) {
    Settled(Iterate(nodes, part2, n), part2) && Unsettled(nodes, part2, n)
  }

  ghost predicate Unsettled(nodes: Grid, part2: bool, n: nat) {
    forall m: nat :: m < n ==> !Settled(Iterate(nodes, part2, m), part2)
  }

  lemma UnsettledStep(nodes: Grid, part2: bool, n: nat)
    requires Unsettled(nodes, part2, n) && !Settled(Iterate(nodes, part2, n), part2)
    ensures Unsettled(nodes, part2, n + 1)
  {
  }

  /** What `partx` returns within `fuel` further rounds: the occupied seats of the first settled
      map, or `None` if none of the first `fuel + 1` maps is settled. */
  ghost predicate Outcome(nodes: Grid, part2: bool, fuel: nat, r: Option<nat>) {
    && (r.Some? ==> exists n: nat :: n <= fuel && SettlesAt(nodes, part2, n) && r.value == CountOccupied(Iterate(nodes, part2, n)))
    && (r.None? ==> Unsettled(nodes, part2, fuel + 1))
  }

  /** `partx`: rounds until one produces no change, then the number of occupied seats. The
      source loops without bound; `fuel` caps the number of rounds, and `None` means it ran out. */
  method PartX(nodes: Grid, part2: bool, fuel: nat) returns (r: Option<nat>)
    ensures Outcome(nodes, part2, fuel, r)
  {
    var current := nodes;
    var n: nat := 0;
    while true
      invariant n <= fuel && current == Iterate(nodes, part2, n)
      invariant Unsettled(nodes, part2, n)
      decreases fuel - n
    {
      var changes := CollectChanges(current, part2);
      if changes == [] {
        assert SettlesAt(nodes, part2, n);
        return Some(CountOccupied(current));
      }
      UnsettledStep(nodes, part2, n);
      if n == fuel {
        return None;
      }
      var next := ApplyChanges(current, changes, part2);
      AppliedIsNext(current, changes, next, part2);
      assert next == Iterate(nodes, part2, n + 1);
      current := next;
      n := n + 1;
    }
  }

  /** `part1` and `part2`: `partx` with the adjacent rule and with the visible rule. */
  method Part1(nodes: Grid, fuel: nat) returns (r: Option<nat>)
    ensures Outcome(nodes, false, fuel, r)
  {
    r := PartX(nodes, false, fuel);
  }

  method Part2(nodes: Grid, fuel: nat) returns (r: Option<nat>)
    ensures Outcome(nodes, true, fuel, r)
  {
    r := PartX(nodes, true, fuel);
  }

  // ---------------------------------------------------------------------------------------------
  // Properties of a round

  /** A round keeps the key set and every floor cell, and changes a seat exactly as the rules
      say: an empty seat is taken iff nothing around it is occupied, an occupied seat is left
      iff at least the tolerance around it is occupied. */
  lemma NextCell(nodes: Grid, part2: bool, p: Pos)
    requires p in nodes
    ensures Next(nodes, part2).Keys == nodes.Keys
    ensures !IsSeat(nodes[p]) ==> Next(nodes, part2)[p] == nodes[p]
    ensures nodes[p] == 'L' ==> (Next(nodes, part2)[p] == '#' <==> Occupied(nodes, p.0, p.1, part2) == 0)
    ensures nodes[p] == 'L' ==> Next(nodes, part2)[p] in {'L', '#'}
    ensures nodes[p] == '#' ==> (Next(nodes, part2)[p] == 'L' <==> Occupied(nodes, p.0, p.1, part2) >= Tolerance(part2))
    ensures nodes[p] == '#' ==> Next(nodes, part2)[p] in {'L', '#'}
  {
  }

  /** A settled map is exactly one the round leaves alone. */
  lemma SettledIsFixpoint(nodes: Grid, part2: bool)
    ensures Settled(nodes, part2) <==> Next(nodes, part2) == nodes
  {
    if Next(nodes, part2) == nodes {
      forall p | p in nodes && IsSeat(nodes[p]) ensures Rule(nodes, p.0, p.1, nodes[p], part2).None? {
        assert Next(nodes, part2)[p] == nodes[p];
      }
    }
  }
}

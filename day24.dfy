/** Day 24: the lobby floor of hexagonal tiles. Each input line is a path of moves from a fixed
    reference tile, in cube coordinates (x, y, z); the tile at its end is flipped. Part 1 counts
    the black tiles, part 2 runs the floor as a cellular automaton for 100 days. */
module Day24 {
  import opened Wrappers
  import opened Text

  type Coord = (int, int, int)

  datatype Move = East | SouthEast | NorthEast | West | SouthWest | NorthWest

  /** Cube coordinates: every tile lies on the plane x + y + z == 0. */
  predicate OnPlane(c: Coord) {
    c.0 + c.1 + c.2 == 0
  }

  predicate AllOnPlane(floor: set<Coord>) {
    forall c :: c in floor ==> OnPlane(c)
  }

  function Add(a: Coord, b: Coord): Coord {
    (a.0 + b.0, a.1 + b.1, a.2 + b.2)
  }

  /** The offset of one move, as in `Tile::from`. */
  function Delta(m: Move): (d: Coord)
    ensures OnPlane(d)
    ensures d != (0, 0, 0)
  {
    match m
    case East => (1, -1, 0)
    case NorthEast => (1, 0, -1)
    case SouthEast => (0, -1, 1)
    case West => (-1, 1, 0)
    case NorthWest => (0, 1, -1)
    case SouthWest => (-1, 0, 1)
  }

  /** `DIRECTIONS`, in the source's order. */
  const Directions: seq<Coord> := [(1, -1, 0), (1, 0, -1), (0, -1, 1), (-1, 1, 0), (0, 1, -1), (-1, 0, 1)]

  /** The move each entry of `Directions` stands for. */
  const DirectionMoves: seq<Move> := [East, NorthEast, SouthEast, West, NorthWest, SouthWest]

  /** `DIRECTIONS` lists the six move offsets, each once, all on the plane. */
  lemma DirectionsAreMoves()
    ensures |Directions| == |DirectionMoves| == 6
    ensures forall i :: 0 <= i < 6 ==> Directions[i] == Delta(DirectionMoves[i]) && OnPlane(Directions[i])
    ensures forall m: Move :: m in DirectionMoves
    ensures forall i, j :: 0 <= i < j < 6 ==> Directions[i] != Directions[j]
  {
    forall m: Move
      ensures m in DirectionMoves
    {
      match m
      case East => assert DirectionMoves[0] == m;
      case NorthEast => assert DirectionMoves[1] == m;
      case SouthEast => assert DirectionMoves[2] == m;
      case West => assert DirectionMoves[3] == m;
      case NorthWest => assert DirectionMoves[4] == m;
      case SouthWest => assert DirectionMoves[5] == m;
    }
  }

  /** The index of the opposite direction. */
  function Opposite(i: nat): (j: nat)
    requires i < 6
    ensures j < 6 && Add(Directions[i], Directions[j]) == (0, 0, 0)
  {
    if i == 0 then 3 else if i == 1 then 5 else if i == 2 then 4
    else if i == 3 then 0 else if i == 4 then 2 else 1
  }

  // ---------------------------------------------------------------------------------------------
  // parse_tile

  /** The text of a move. */
  function Name(m: Move): string {
    match m
    case East => "e"
    case SouthEast => "se"
    case NorthEast => "ne"
    case West => "w"
    case SouthWest => "sw"
    case NorthWest => "nw"
  }

  /** The number of characters `parse_tile` consumes for a move. */
  function Width(m: Move): nat {
    if m == East || m == West then 1 else 2
  }

  /** The `match (first, second)` of `parse_tile`: `None` where the source is `unreachable!()`. */
  function Lex(s: string): (r: Option<Move>)
    requires |s| > 0
    ensures r.Some? ==> Width(r.value) <= |s| && s[..Width(r.value)] == Name(r.value)
    ensures r.None? <==> !(s[0] == 'e' || s[0] == 'w' || (|s| > 1 && (s[0] == 'n' || s[0] == 's') && (s[1] == 'e' || s[1] == 'w')))
  {
    var second := if |s| > 1 then Some(s[1]) else None;
    if s[0] == 'n' && second == Some('w') then Some(NorthWest)
    else if s[0] == 'n' && second == Some('e') then Some(NorthEast)
    else if s[0] == 's' && second == Some('e') then Some(SouthEast)
    else if s[0] == 's' && second == Some('w') then Some(SouthWest)
    else if s[0] == 'e' then Some(East)
    else if s[0] == 'w' then Some(West)
    else None
  }

  /** The moves of a line, or `None` when `parse_tile` reaches `unreachable!()`. */
  function ParseMoves(s: string): Option<seq<Move>>
    decreases |s|
  {
    if |s| == 0 then Some([])
    else
      match Lex(s)
      case None => None
      case Some(m) =>
        match ParseMoves(s[Width(m)..])
        case None => None
        case Some(rest) => Some([m] + rest)
  }

  /** The text of a list of moves, with no separators. */
  function Render(moves: seq<Move>): string {
    if |moves| == 0 then "" else Name(moves[0]) + Render(moves[1..])
  }

  /** Reading the text of any list of moves gives the list back. */
  lemma {:induction false} ParseRender(moves: seq<Move>)
    ensures ParseMoves(Render(moves)) == Some(moves)
  {
    if |moves| > 0 {
      var m, s := moves[0], Render(moves);
      assert s == Name(m) + Render(moves[1..]);
      assert Lex(s) == Some(m);
      assert s[Width(m)..] == Render(moves[1..]);
      ParseRender(moves[1..]);
      assert moves == [m] + moves[1..];
    } else {
      assert moves == [];
    }
  }

  /** A line that parses is exactly the text of its moves. */
  lemma {:induction false} RenderParse(s: string)
    requires ParseMoves(s).Some?
    ensures Render(ParseMoves(s).value) == s
    decreases |s|
  {
    if |s| > 0 {
      var m := Lex(s).value;
      RenderParse(s[Width(m)..]);
      assert s == s[..Width(m)] + s[Width(m)..];
    }
  }

  /** The tile at the end of a path: the sum of its move offsets. */
  function Position(moves: seq<Move>): (c: Coord)
    ensures OnPlane(c)
  {
    if |moves| == 0 then (0, 0, 0)
    else Add(Position(moves[..|moves| - 1]), Delta(moves[|moves| - 1]))
  }

  /** The offset of a path with the given number of moves of each kind. */
  function CountedPosition(n: multiset<Move>): Coord {
    (n[East] as int + n[NorthEast] - n[West] - n[SouthWest],
     n[West] as int + n[NorthWest] - n[East] - n[SouthEast],
     n[SouthEast] as int + n[SouthWest] - n[NorthEast] - n[NorthWest])
  }

  lemma CountedPositionAdd(n: multiset<Move>, m: Move)
    ensures CountedPosition(n + multiset{m}) == Add(CountedPosition(n), Delta(m))
  {
    var n' := n + multiset{m};
    assert n'[m] == n[m] + 1;
    assert forall m' :: m' != m ==> n'[m'] == n[m'];
    match m
    case East =>
    case NorthEast =>
    case SouthEast =>
    case West =>
    case NorthWest =>
    case SouthWest =>
  }

  /** The position depends only on how many moves of each kind the path has, not on their
      order. */
  lemma {:induction false} PositionCounts(moves: seq<Move>)
    ensures Position(moves) == CountedPosition(multiset(moves))
  {
    if |moves| > 0 {
      var k := |moves| - 1;
      PositionCounts(moves[..k]);
      assert moves == moves[..k] + [moves[k]];
      assert multiset(moves) == multiset(moves[..k]) + multiset{moves[k]};
      CountedPositionAdd(multiset(moves[..k]), moves[k]);
    }
  }

  /** `Tile::from(&[Move])`: sums the offsets of the moves one by one. */
  method TileFrom(moves: seq<Move>) returns (coords: Coord)
    ensures coords == Position(moves) && OnPlane(coords)
  {
    coords := (0, 0, 0);
    for i := 0 to |moves|
      invariant coords == Position(moves[..i])
    {
      var d := Delta(moves[i]);
      assert moves[..i + 1][..i] == moves[..i];
      coords := (coords.0 + d.0, coords.1 + d.1, coords.2 + d.2);
    }
    assert moves[..|moves|] == moves;
  }

  /** The tile a line names, or `None` where the source panics. */
  function TileOf(line: string): Option<Coord> {
    match ParseMoves(line)
    case None => None
    case Some(moves) => Some(Position(moves))
  }

  /** `moves` followed by the rest of the parse, if it succeeds. */
  function Then(moves: seq<Move>, rest: Option<seq<Move>>): Option<seq<Move>> {
    if rest.None? then None else Some(moves + rest.value)
  }

  /** Reading one move from the front of the slice. */
  lemma ThenStep(moves: seq<Move>, slice: string)
    requires |slice| > 0 && Lex(slice).Some?
    ensures var m := Lex(slice).value;
      Then(moves, ParseMoves(slice)) == Then(moves + [m], ParseMoves(slice[Width(m)..]))
  {
    var m := Lex(slice).value;
    var rest := ParseMoves(slice[Width(m)..]);
    assert ParseMoves(slice) == Then([m], rest);
    assert rest.Some? ==> moves + ([m] + rest.value) == moves + [m] + rest.value;
  }

  /** `parse_tile`: reads one move from the front of the slice per iteration, then hands the moves
      to `Tile::from`. */
  method ParseTile(input: string) returns (r: Option<Coord>)
    ensures r == TileOf(input)
    ensures r.Some? ==> OnPlane(r.value)
  {
    var slice := input;
    var moves: seq<Move> := [];
    assert ParseMoves(input).Some? ==> [] + ParseMoves(input).value == ParseMoves(input).value;
    while |slice| > 0
      invariant ParseMoves(input) == Then(moves, ParseMoves(slice))
      decreases |slice|
    {
      var m := Lex(slice);
      if m.None? {
        assert ParseMoves(slice).None?;
        return None;
      }
      ThenStep(moves, slice);
      moves := moves + [m.value];
      slice := slice[Width(m.value)..];
    }
    assert moves + [] == moves;
    var coords := TileFrom(moves);
    return Some(coords);
  }

  // ---------------------------------------------------------------------------------------------
  // parse_input

  /** The tiles of all lines, or `None` when some line does not parse. */
  function ParseTiles(lines: seq<string>): (r: Option<seq<Coord>>)
    ensures r.None? <==> exists i :: 0 <= i < |lines| && TileOf(lines[i]).None?
    ensures r.Some? ==> |r.value| == |lines| && forall i :: 0 <= i < |lines| ==> Some(r.value[i]) == TileOf(lines[i])
  {
    if |lines| == 0 then Some([])
    else
      var first, rest := TileOf(lines[0]), ParseTiles(lines[1..]);
      assert forall i :: 1 <= i < |lines| ==> lines[i] == lines[1..][i - 1];
      if first.None? || rest.None? then None
      else Some([first.value] + rest.value)
  }

  /** `parse_input`: `parse_tile` on every line. */
  method ParseInput(input: string) returns (r: Option<seq<Coord>>)
    ensures r == ParseTiles(Lines(input))
  {
    var lines := Lines(input);
    var tiles: seq<Coord> := [];
    for i := 0 to |lines|
      invariant |tiles| == i
      invariant forall k :: 0 <= k < i ==> Some(tiles[k]) == TileOf(lines[k])
    {
      var tile := ParseTile(lines[i]);
      if tile.None? {
        return None;
      }
      tiles := tiles + [tile.value];
    }
    assert ParseTiles(lines).Some? && ParseTiles(lines).value == tiles;
    return Some(tiles);
  }

  // ---------------------------------------------------------------------------------------------
  // build_initial_floor, part1

  /** The black tiles: those named an odd number of times. */
  function InitialFloor(tiles: seq<Coord>): (floor: set<Coord>)
    ensures forall c :: c in floor ==> c in tiles
  {
    set c | c in tiles && multiset(tiles)[c] % 2 == 1
  }

  /** Naming one more tile flips it. */
  lemma InitialFloorSnoc(tiles: seq<Coord>, t: Coord)
    ensures InitialFloor(tiles + [t]) == if t in InitialFloor(tiles) then InitialFloor(tiles) - {t} else InitialFloor(tiles) + {t}
  {
    var before, after := InitialFloor(tiles), InitialFloor(tiles + [t]);
    assert multiset(tiles + [t]) == multiset(tiles) + multiset{t};
    forall c
      ensures c in after <==> (if c == t then t !in before else c in before)
    {
    }
  }

  /** `build_initial_floor`: toggles each named tile in and out of the set. */
  method BuildInitialFloor(tiles: seq<Coord>) returns (floor: set<Coord>)
    ensures floor == InitialFloor(tiles)
    ensures forall c :: c in floor <==> multiset(tiles)[c] % 2 == 1
  {
    floor := {};
    for i := 0 to |tiles|
      invariant floor == InitialFloor(tiles[..i])
    {
      InitialFloorSnoc(tiles[..i], tiles[i]);
      assert tiles[..i + 1] == tiles[..i] + [tiles[i]];
      if tiles[i] in floor {
        floor := floor - {tiles[i]};
      } else {
        floor := floor + {tiles[i]};
      }
    }
    assert tiles[..|tiles|] == tiles;
  }

  /** Every black tile of a parsed floor lies on the plane. */
  lemma InitialFloorOnPlane(lines: seq<string>)
    requires ParseTiles(lines).Some?
    ensures AllOnPlane(InitialFloor(ParseTiles(lines).value))
  {
    var tiles := ParseTiles(lines).value;
    forall c | c in InitialFloor(tiles)
      ensures OnPlane(c)
    {
      var i :| 0 <= i < |tiles| && tiles[i] == c;
      assert Some(c) == TileOf(lines[i]);
    }
  }

  /** `part1`: the number of black tiles; `None` where parsing panics. */
  method Part1(input: string) returns (r: Option<nat>)
    ensures r.None? <==> ParseTiles(Lines(input)).None?
    ensures r.Some? ==> r.value == |InitialFloor(ParseTiles(Lines(input)).value)|
  {
    var tiles := ParseInput(input);
    if tiles.None? {
      return None;
    }
    var floor := BuildInitialFloor(tiles.value);
    return Some(|floor|);
  }

  // ---------------------------------------------------------------------------------------------
  // find_neighbours

  /** `find_neighbours`: the tile plus each direction, in the order of `DIRECTIONS`. */
  function Neighbours(c: Coord): (ns: seq<Coord>)
    ensures |ns| == 6
    ensures forall i :: 0 <= i < 6 ==> ns[i] == Add(c, Directions[i])
  {
    seq(6, i requires 0 <= i < 6 => Add(c, Directions[i]))
  }

  /** The six neighbours are distinct, differ from the tile and stay on its plane. */
  lemma NeighboursDistinct(c: Coord)
    ensures forall i, j :: 0 <= i < j < 6 ==> Neighbours(c)[i] != Neighbours(c)[j]
    ensures forall i :: 0 <= i < 6 ==> Neighbours(c)[i] != c
    ensures OnPlane(c) ==> forall i :: 0 <= i < 6 ==> OnPlane(Neighbours(c)[i])
  {
    DirectionsAreMoves();
  }

  /** Stepping back in the opposite direction returns to the tile. */
  lemma NeighbourBack(c: Coord, i: nat)
    requires i < 6
    ensures Neighbours(Neighbours(c)[i])[Opposite(i)] == c
  {
  }

  /** Adjacency is symmetric. */
  lemma NeighbourSymmetric(a: Coord, b: Coord)
    ensures b in Neighbours(a) <==> a in Neighbours(b)
  {
    if b in Neighbours(a) {
      var i :| 0 <= i < 6 && Neighbours(a)[i] == b;
      NeighbourBack(a, i);
    }
    if a in Neighbours(b) {
      var i :| 0 <= i < 6 && Neighbours(b)[i] == a;
      NeighbourBack(b, i);
    }
  }

  // ---------------------------------------------------------------------------------------------
  // The day step of part2

  /** `neighbours.iter().filter(|c| floor.contains(&c)).count()`. */
  function CountIn(s: seq<Coord>, floor: set<Coord>): (n: nat)
    ensures n <= |s|
    ensures n == 0 <==> forall i :: 0 <= i < |s| ==> s[i] !in floor
  {
    if |s| == 0 then 0
    else
      var rest := CountIn(s[1..], floor);
      assert forall i :: 1 <= i < |s| ==> s[i] == s[1..][i - 1];
      (if s[0] in floor then 1 else 0) + rest
  }

  /** The number of black tiles among the six around `c`. */
  function BlackNeighbours(floor: set<Coord>, c: Coord): (n: nat)
    ensures n <= 6
  {
    CountIn(Neighbours(c), floor)
  }

  /** The rule of the day step: a black tile stays black with 1 or 2 black neighbours, a white
      tile turns black with exactly 2. */
  predicate Rule(isBlack: bool, blackNeighbours: nat) {
    (isBlack && (blackNeighbours == 1 || blackNeighbours == 2)) || (!isBlack && blackNeighbours == 2)
  }

  /** `tiles_to_check`: the black tiles and all their neighbours. */
  function Around(floor: set<Coord>): set<Coord> {
    floor + set t, i | t in floor && 0 <= i < 6 :: Neighbours(t)[i]
  }

  /** The next floor, ruling only on the tiles of `Around(floor)`. */
  function Step(floor: set<Coord>): set<Coord> {
    set c | c in Around(floor) && Rule(c in floor, BlackNeighbours(floor, c))
  }



  /** A tile is in `Around(floor)` iff it is black or has a black neighbour. */
  lemma AroundMember(floor: set<Coord>, c: Coord)
    ensures c in Around(floor) <==> c in floor || BlackNeighbours(floor, c) > 0
  {
    var ns := Neighbours(c);
    if c in Around(floor) && c !in floor {
      var t, i :| t in floor && 0 <= i < 6 && c == Neighbours(t)[i];
      NeighbourBack(t, i);
      assert ns[Opposite(i)] in floor;
    }
    if BlackNeighbours(floor, c) > 0 {
      var i :| 0 <= i < 6 && ns[i] in floor;
      NeighbourBack(c, i);
      assert c == Neighbours(ns[i])[Opposite(i)];
    }
  }

  /** Looking only at `tiles_to_check` loses nothing: every tile of the whole floor obeys the
      rule, since a tile outside the set is white with no black neighbour. */
  lemma StepRule(floor: set<Coord>, c: Coord)
    ensures c in Step(floor) <==> Rule(c in floor, BlackNeighbours(floor, c))
  {
    AroundMember(floor, c);
  }

  /** The floor after `n` days. */
  function Days(floor: set<Coord>, n: nat): set<Coord> {
    if n == 0 then floor else Step(Days(floor, n - 1))
  }

  /** A day keeps every black tile on the plane. */
  lemma StepOnPlane(floor: set<Coord>)
    requires AllOnPlane(floor)
    ensures AllOnPlane(Step(floor))
  {
    forall c | c in Step(floor)
      ensures OnPlane(c)
    {
      if c !in floor {
        var t, i :| t in floor && 0 <= i < 6 && c == Neighbours(t)[i];
        NeighboursDistinct(t);
      }
    }
  }

  /** Adding a black tile adds it and its neighbours to `Around`. */
  lemma AroundAdd(floor: set<Coord>, t: Coord)
    ensures Around(floor + {t}) == Around(floor) + {t} + set k | 0 <= k < 6 :: Neighbours(t)[k]
  {
    var lhs, rhs := Around(floor + {t}), Around(floor) + {t} + set k | 0 <= k < 6 :: Neighbours(t)[k];
    forall c | c in lhs
      ensures c in rhs
    {
      if c != t && c !in floor {
        var u, i :| u in floor + {t} && 0 <= i < 6 && c == Neighbours(u)[i];
        if u == t {
          assert c in set k | 0 <= k < 6 :: Neighbours(t)[k];
        }
      }
    }
  }

  /** The black tiles plus neighbours of the tiles visited so far, while building
      `tiles_to_check`. */
  method TilesToCheck(floor: set<Coord>) returns (tilesToCheck: set<Coord>)
    ensures tilesToCheck == Around(floor)
  {
    tilesToCheck := {};
    var rest := floor;
    while rest != {}
      invariant rest <= floor
      invariant tilesToCheck == Around(floor - rest)
      decreases |rest|
    {
      var tile :| tile in rest;
      AroundAdd(floor - rest, tile);
      tilesToCheck := tilesToCheck + {tile};
      var neighbours := Neighbours(tile);
      for j := 0 to 6
        invariant tilesToCheck == Around(floor - rest) + {tile} + set k | 0 <= k < j :: neighbours[k]
      {
        assert (set k | 0 <= k < j + 1 :: neighbours[k]) == (set k | 0 <= k < j :: neighbours[k]) + {neighbours[j]};
        tilesToCheck := tilesToCheck + {neighbours[j]};
      }
      assert floor - (rest - {tile}) == (floor - rest) + {tile};
      rest := rest - {tile};
    }
    assert floor - rest == floor;
  }

  /** One day of `part2`: collects `tiles_to_check`, then rules on each of them against the old
      floor; the new floor replaces the old one as a whole. */
  method DayStep(floor: set<Coord>) returns (newFloor: set<Coord>)
    ensures newFloor == Step(floor)
    ensures forall c :: c in newFloor <==> Rule(c in floor, BlackNeighbours(floor, c))
  {
    var tilesToCheck := TilesToCheck(floor);
    newFloor := {};
    var todo := tilesToCheck;
    while todo != {}
      invariant todo <= tilesToCheck
      invariant forall c :: c in newFloor <==> c in tilesToCheck && c !in todo && Rule(c in floor, BlackNeighbours(floor, c))
      decreases |todo|
    {
      var tile :| tile in todo;
      var blackNeighbours := BlackNeighbours(floor, tile);
      var isBlack := tile in floor;
      if isBlack && (blackNeighbours == 1 || blackNeighbours == 2) {
        newFloor := newFloor + {tile};
      }
      if !isBlack && blackNeighbours == 2 {
        newFloor := newFloor + {tile};
      }
      todo := todo - {tile};
    }
    forall c
      ensures c in newFloor <==> Rule(c in floor, BlackNeighbours(floor, c))
    {
      StepRule(floor, c);
    }
  }

  /** `part2`: the number of black tiles after 100 days; `None` where parsing panics. */
  method Part2(input: string) returns (r: Option<nat>)
    ensures r.None? <==> ParseTiles(Lines(input)).None?
    ensures r.Some? ==> r.value == |Days(InitialFloor(ParseTiles(Lines(input)).value), 100)|
  {
    var tiles := ParseInput(input);
    if tiles.None? {
      return None;
    }
    var floor := BuildInitialFloor(tiles.value);
    ghost var initial := floor;
    for day := 0 to 100
      invariant floor == Days(initial, day)
    {
      floor := DayStep(floor);
    }
    return Some(|floor|);
  }
}

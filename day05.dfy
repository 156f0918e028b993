/** Day 5: boarding passes. A pass is ten letters, F/B for the row and L/R for the column, read
    as a binary number. */
module Day05 {
  import opened Wrappers
  import opened Arith

  predicate IsPassChar(c: char) {
    c == 'F' || c == 'B' || c == 'L' || c == 'R'
  }

  /** The binary digit a letter stands for: F and L are 0, B and R are 1. */
  function Bit(c: char): (b: nat)
    ensures b <= 1
  {
    if c == 'B' || c == 'R' then 1 else 0
  }

  /** `from_str_radix(.., 2)` of the letters mapped to binary digits, most significant first. */
  function Binary(s: string): (n: nat)
    ensures n < Pow2(|s|)
  {
    if |s| == 0 then 0 else 2 * Binary(s[..|s| - 1]) + Bit(s[|s| - 1])
  }

  function Pow2(k: nat): (p: nat)
    ensures p >= 1
  {
    if k == 0 then 1 else 2 * Pow2(k - 1)
  }

  /** Reading a concatenation: the digits of the second part are the low ones. */
  lemma {:induction false} BinaryAppend(a: string, b: string)
    ensures Binary(a + b) == Binary(a) * Pow2(|b|) + Binary(b)
    decreases |b|
  {
    if |b| > 0 {
      var b' := b[..|b| - 1];
      assert (a + b)[..|a + b| - 1] == a + b';
      BinaryAppend(a, b');
      var x, y := Binary(a), Pow2(|b'|);
      assert Binary(a + b) == 2 * (x * y + Binary(b')) + Bit(b[|b| - 1]);
      MulAssoc(x, 2, y);
    } else {
      assert a + b == a;
    }
  }

  /** A pass `parse_seat_id` accepts: only the four letters (any other is `unreachable!()`), at
      least seven for the row and one more for the column (an empty column fails to parse). */
  predicate WellFormed(s: string) {
    |s| >= 8 && forall c :: c in s ==> IsPassChar(c)
  }

  datatype Seat = Seat(row: nat, col: nat, id: nat)

  /** `parse_seat_id`: the row is the first seven letters, the column the rest, and the id is
      `row * 8 + col`. */
  function ParseSeat(s: string): (seat: Seat)
    requires WellFormed(s)
    ensures seat.row == Binary(s[..7]) && seat.col == Binary(s[7..]) && seat.id == seat.row * 8 + seat.col
  {
    var row := Binary(s[..7]);
    var col := Binary(s[7..]);
    Seat(row, col, row * 8 + col)
  }

  /** For a ten-letter pass the row is below 128, the column below 8, and the id is the whole pass
      read as one ten-digit binary number, so below 1024. */
  lemma TenLetterPass(s: string)
    requires WellFormed(s) && |s| == 10
    ensures ParseSeat(s).row < 128 && ParseSeat(s).col < 8
    ensures ParseSeat(s).id == Binary(s) && ParseSeat(s).id < 1024
  {
    assert s == s[..7] + s[7..];
    BinaryAppend(s[..7], s[7..]);
    assert Pow2(3) == 8 && Pow2(7) == 128 && Pow2(10) == 1024;
  }

  /** The example of the tests. */
  lemma Example()
    ensures WellFormed("BFFFBBFRRR") && ParseSeat("BFFFBBFRRR").id == 567
  {
    var s := "BFFFBBFRRR";
    assert s[..7] == "BFFFBBF" && s[7..] == "RRR";
    assert Binary("BFFFBBF") == 70 by {
      assert "BFFFBBF"[..6] == "BFFFBB" && "BFFFBB"[..5] == "BFFFB" && "BFFFB"[..4] == "BFFF";
      assert "BFFF"[..3] == "BFF" && "BFF"[..2] == "BF" && "BF"[..1] == "B" && "B"[..0] == "";
    }
    assert Binary("RRR") == 7 by {
      assert "RRR"[..2] == "RR" && "RR"[..1] == "R" && "R"[..0] == "";
    }
  }

  /** `part1`: the largest id (`max().unwrap()` needs at least one pass). */
  function MaxId(passes: seq<string>): (m: nat)
    requires |passes| > 0 && forall i :: 0 <= i < |passes| ==> WellFormed(passes[i])
    ensures exists i :: 0 <= i < |passes| && m == ParseSeat(passes[i]).id
    ensures forall i :: 0 <= i < |passes| ==> ParseSeat(passes[i]).id <= m
  {
    if |passes| == 1 then ParseSeat(passes[0]).id
    else
      var rest := MaxId(passes[1..]);
      var first := ParseSeat(passes[0]).id;
      if first >= rest then first else rest
  }

  /** The smallest id (`min().unwrap()` in `part2`). */
  function MinId(passes: seq<string>): (m: nat)
    requires |passes| > 0 && forall i :: 0 <= i < |passes| ==> WellFormed(passes[i])
    ensures exists i :: 0 <= i < |passes| && m == ParseSeat(passes[i]).id
    ensures forall i :: 0 <= i < |passes| ==> m <= ParseSeat(passes[i]).id
  {
    if |passes| == 1 then ParseSeat(passes[0]).id
    else
      var rest := MinId(passes[1..]);
      var first := ParseSeat(passes[0]).id;
      if first <= rest then first else rest
  }

  /** The seats of the passes, as `part2`'s `HashSet`. */
  function Seats(passes: seq<string>): (r: set<Seat>)
    requires forall i :: 0 <= i < |passes| ==> WellFormed(passes[i])
    ensures forall x :: x in r <==> exists i :: 0 <= i < |passes| && x == ParseSeat(passes[i])
  {
    set i | 0 <= i < |passes| :: ParseSeat(passes[i])
  }

  /** The loops of `part2` return at row `row`, column `col`: its id lies in `[lo, hi]` and that
      seat is not taken. */
  predicate Free(seats: set<Seat>, lo: nat, hi: nat, row: nat, col: nat) {
    lo <= row * 8 + col <= hi && Seat(row, col, row * 8 + col) !in seats
  }

  /** The inner loop `for col in 0..7` of row `row`, from column `col` on; column 7 is never tried. */
  function SearchCols(seats: set<Seat>, lo: nat, hi: nat, row: nat, col: nat): (r: Result<nat>)
    requires col <= 7
    ensures r.Ok? <==> exists c: nat :: col <= c < 7 && Free(seats, lo, hi, row, c)
    ensures r.Ok? ==> exists c: nat :: && col <= c < 7 && Free(seats, lo, hi, row, c) && r.value == row * 8 + c
                                 && forall c': nat :: col <= c' < c ==> !Free(seats, lo, hi, row, c')
    decreases 7 - col
  {
    if col == 7 then Err
    else if Free(seats, lo, hi, row, col) then Ok(row * 8 + col)
    else SearchCols(seats, lo, hi, row, col + 1)
  }

  /** The outer loop `for row in 1..=126`, from row `row` on. */
  function SearchRows(seats: set<Seat>, lo: nat, hi: nat, row: nat): (r: Result<nat>)
    requires 1 <= row <= 127
    decreases 127 - row
  {
    if row == 127 then Err
    else
      match SearchCols(seats, lo, hi, row, 0)
      case Ok(id) => Ok(id)
      case Err => SearchRows(seats, lo, hi, row + 1)
  }

  /** Some column of row `row` is free. */
  predicate RowHit(seats: set<Seat>, lo: nat, hi: nat, row: nat) {
    exists c: nat :: 0 <= c < 7 && Free(seats, lo, hi, row, c)
  }

  /** `(row, col)` is the first free seat, in loop order, from row `from` on. */
  predicate FirstFree(seats: set<Seat>, lo: nat, hi: nat, from: nat, row: nat, col: nat) {
    && from <= row <= 126 && col < 7 && Free(seats, lo, hi, row, col)
    && (forall r: nat :: from <= r < row ==> !RowHit(seats, lo, hi, r))
    && (forall c: nat :: 0 <= c < col ==> !Free(seats, lo, hi, row, c))
  }

  lemma {:induction false} SearchRowsFirst(seats: set<Seat>, lo: nat, hi: nat, from: nat)
    requires 1 <= from <= 127
    ensures SearchRows(seats, lo, hi, from).Err? <==> forall r: nat :: from <= r <= 126 ==> !RowHit(seats, lo, hi, r)
    ensures SearchRows(seats, lo, hi, from).Ok? ==>
              exists row: nat, col: nat :: FirstFree(seats, lo, hi, from, row, col) && SearchRows(seats, lo, hi, from).value == row * 8 + col
    decreases 127 - from
  {
    if from <= 126 {
      var inner := SearchCols(seats, lo, hi, from, 0);
      SearchRowsFirst(seats, lo, hi, from + 1);
      if inner.Ok? {
        var c: nat :| && 0 <= c < 7 && Free(seats, lo, hi, from, c) && inner.value == from * 8 + c
                 && forall c': nat :: 0 <= c' < c ==> !Free(seats, lo, hi, from, c');
        assert RowHit(seats, lo, hi, from);
        assert FirstFree(seats, lo, hi, from, from, c);
      } else {
        assert !RowHit(seats, lo, hi, from);
        if SearchRows(seats, lo, hi, from).Ok? {
          var row: nat, col: nat :| FirstFree(seats, lo, hi, from + 1, row, col)
                          && SearchRows(seats, lo, hi, from + 1).value == row * 8 + col;
          assert FirstFree(seats, lo, hi, from, row, col);
        }
      }
    }
  }

  /** `part2`: the seats of the passes, their smallest and largest id, and the loops. */
  function Part2(passes: seq<string>): Result<nat>
    requires |passes| > 0 && forall i :: 0 <= i < |passes| ==> WellFormed(passes[i])
  {
    SearchRows(Seats(passes), MinId(passes), MaxId(passes), 1)
  }

  lemma Part2Unfold(passes: seq<string>)
    requires |passes| > 0 && forall i :: 0 <= i < |passes| ==> WellFormed(passes[i])
    ensures Part2(passes) == SearchRows(Seats(passes), MinId(passes), MaxId(passes), 1)
  {
  }

  /** `part2` returns the id of the first seat, rows 1 to 126 and columns 0 to 6 in loop order,
      whose id lies between the smallest and the largest id of the passes and which no pass names;
      it returns `Err` exactly when there is none. */
  lemma Part2First(passes: seq<string>)
    requires |passes| > 0 && forall i :: 0 <= i < |passes| ==> WellFormed(passes[i])
    ensures Part2(passes).Err? <==> forall r: nat :: 1 <= r <= 126 ==> !RowHit(Seats(passes), MinId(passes), MaxId(passes), r)
    ensures Part2(passes).Ok? ==>
              exists row: nat, col: nat :: && FirstFree(Seats(passes), MinId(passes), MaxId(passes), 1, row, col)
                                 && Part2(passes).value == row * 8 + col
                                 && MinId(passes) <= Part2(passes).value <= MaxId(passes)
                                 && forall i :: 0 <= i < |passes| ==> ParseSeat(passes[i]) != Seat(row, col, row * 8 + col)
  {
    var seats, lo, hi := Seats(passes), MinId(passes), MaxId(passes);
    Part2Unfold(passes);
    SearchRowsFirst(Seats(passes), MinId(passes), MaxId(passes), 1);
    if Part2(passes).Ok? {
      var row: nat, col: nat :| FirstFree(seats, lo, hi, 1, row, col) && Part2(passes).value == row * 8 + col;
      assert Free(seats, lo, hi, row, col);
      forall i | 0 <= i < |passes| ensures ParseSeat(passes[i]) != Seat(row, col, row * 8 + col) {
        assert ParseSeat(passes[i]) in seats;
      }
    }
  }
}

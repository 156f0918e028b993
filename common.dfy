/** Option and Result, the shapes of Rust's `Option<T>` and `Result<T, ()>`. */
module Wrappers {
  datatype Option<T> = None | Some(value: T)

  /** Every `Result` in the solvers has the unit error type `()`. */
  datatype Result<T> = Ok(value: T) | Err
}

/** Sequences without repeated elements. */
module Seqs {
  /** No element appears twice. */
  predicate Distinct<T(==)>(s: seq<T>) {
    forall i, j :: 0 <= i < j < |s| ==> s[i] != s[j]
  }

  /** In a sequence without repeats every value occurs at most once. */
  lemma {:induction false} OnceInDistinct<T>(s: seq<T>, x: T)
    requires Distinct(s)
    ensures multiset(s)[x] <= 1
    decreases |s|
  {
    if |s| > 0 {
      assert s == [s[0]] + s[1..];
      OnceInDistinct(s[1..], x);
      if s[0] == x {
        assert x !in s[1..];
      }
    }
  }

  /** A prefix one longer is the prefix followed by the next element. */
  lemma TakeSnoc<T>(s: seq<T>, k: nat)
    requires k < |s|
    ensures s[..k + 1] == s[..k] + [s[k]]
  {
  }

  /** A sequence without repeats has as many elements as the set of its elements. */
  lemma {:induction false} DistinctCard<T>(s: seq<T>, elems: set<T>)
    requires Distinct(s) && forall x :: x in elems <==> x in s
    ensures |elems| == |s|
    decreases |s|
  {
    if |s| > 0 {
      var rest := elems - {s[0]};
      forall x ensures x in rest <==> x in s[1..] {
        if x in s {
          var k :| 0 <= k < |s| && s[k] == x;
          if k > 0 {
            assert s[1..][k - 1] == x;
          }
        }
      }
      DistinctCard(s[1..], rest);
    }
  }

  /** A rearrangement of a sequence without repeats has no repeats. */
  lemma DistinctMultiset<T>(s: seq<T>, t: seq<T>)
    requires Distinct(s) && multiset(t) == multiset(s)
    ensures Distinct(t)
  {
    forall i, j | 0 <= i < j < |t| ensures t[i] != t[j] {
      if t[i] == t[j] {
        var x := t[i];
        assert multiset(t)[x] >= 2 by {
          assert t == t[..i] + [x] + t[i + 1..j] + [x] + t[j + 1..];
        }
        OnceInDistinct(s, x);
      }
    }
  }
}

/** Facts about integer division, remainders, products and powers that the models share. */
module Arith {

  lemma MulSign(k: int, w: int)
    requires w > 0
    ensures k >= 1 ==> k * w >= w
    ensures k <= -1 ==> k * w <= -w
  {
  }

  /** Division by a positive number is unique: `q*w + r` with `0 <= r < w` has quotient `q`, remainder `r`. */
  lemma DivModUnique(q: int, r: int, w: int)
    requires w > 0 && 0 <= r < w
    ensures (q * w + r) / w == q && (q * w + r) % w == r
  {
    var n := q * w + r;
    var d, m := n / w, n % w;
    assert n == d * w + m;
    assert (q - d) * w == m - r;
    MulSign(q - d, w);
  }

  /** The row and the column of a cell of a row-major `w`-wide grid. */
  lemma RowCol(idx: int, w: int)
    requires w > 0 && idx >= 0
    ensures idx == (idx / w) * w + idx % w
    ensures 0 <= idx % w < w && idx / w >= 0
  {
  }

  /** A cell `r*w + c` of an `h`-row, `w`-wide grid lies inside the grid. */
  lemma CellInGrid(r: int, c: int, w: int, h: int)
    requires 0 <= r < h && 0 <= c < w
    ensures 0 <= r * w + c < w * h
  {
    assert r * w <= (h - 1) * w by { MulMono(r, h - 1, w); }
    assert (h - 1) * w + w == w * h;
  }

  lemma MulMono(a: int, b: int, w: int)
    requires a <= b && w >= 0
    ensures a * w <= b * w
  {
    assert b * w - a * w == (b - a) * w;
  }

  lemma MulAssoc(a: int, b: int, c: int)
    ensures (a * b) * c == a * (b * c) && (a * b) * c == (a * c) * b
  {
  }

  function Pow(b: int, e: nat): (r: int)
    ensures b >= 1 ==> r >= 1
    ensures b >= 0 ==> r >= 0
  {
    if e == 0 then 1 else b * Pow(b, e - 1)
  }

  lemma {:induction false} PowAdd(b: int, e1: nat, e2: nat)
    ensures Pow(b, e1 + e2) == Pow(b, e1) * Pow(b, e2)
  {
    if e1 > 0 {
      PowAdd(b, e1 - 1, e2);
      assert Pow(b, e1 + e2) == b * Pow(b, e1 - 1 + e2);
      MulAssoc(b, Pow(b, e1 - 1), Pow(b, e2));
    }
  }

  /** The number of `i < hi` satisfying `P`, as a counting `filter(..).count()` computes it. */
  function CountBelow(P: nat -> bool, hi: nat): (n: nat)
    ensures n <= hi
  {
    if hi == 0 then 0 else CountBelow(P, hi - 1) + (if P(hi - 1) then 1 else 0)
  }

  /** The count is the size of the set of indices that satisfy `P`. */
  lemma {:induction false} CountBelowIsCardinality(P: nat -> bool, hi: nat)
    ensures CountBelow(P, hi) == |set i: nat | i < hi && P(i)|
  {
    if hi > 0 {
      CountBelowIsCardinality(P, hi - 1);
      var below := set i: nat | i < hi - 1 && P(i);
      var upTo := set i: nat | i < hi && P(i);
      if P(hi - 1) {
        assert upTo == below + {hi - 1};
      } else {
        assert upTo == below;
      }
    }
  }

  /** A subset is no larger. */
  lemma {:induction false} SubsetCard<T>(a: set<T>, b: set<T>)
    requires a <= b
    ensures |a| <= |b|
    decreases |b|
  {
    if a != {} {
      var x :| x in a;
      SubsetCard(a - {x}, b - {x});
    }
  }

  /** Rust's `usize`: every arithmetic result is taken modulo 2^64. */
  const USIZE: int := 0x1_0000_0000_0000_0000

  function Wrap(x: int): (r: nat)
    ensures r < USIZE
    ensures 0 <= x < USIZE ==> r == x
    ensures -USIZE <= x < 0 ==> r == x + USIZE
  {
    if 0 <= x < USIZE then x
    else if -USIZE <= x < 0 then x + USIZE
    else x % USIZE
  }
}

/** String handling shared by the parsers: Rust's `split`, `split_whitespace`, `lines`,
    `split_terminator`, `contains`, `parse` and `join`, on strings as sequences of chars. */
module Text {
  import opened Wrappers
  import opened Arith

  /** `char::is_whitespace`, restricted to the ASCII whitespace characters. */
  predicate IsWhitespace(c: char) {
    c == ' ' || c == '\t' || c == '\n' || c == '\r' || c == '\U{0B}' || c == '\U{0C}'
  }

  predicate IsDigit(c: char) {
    '0' <= c <= '9'
  }

  /** Rust's `str::split` with a character predicate: the pieces between the separators. */
  function SplitWhere(s: string, isSep: char -> bool): (r: seq<string>)
    ensures |r| >= 1
    ensures forall i :: 0 <= i < |r| ==> forall c :: c in r[i] ==> !isSep(c)
  {
    if |s| == 0 then [""]
    else if isSep(s[0]) then [""] + SplitWhere(s[1..], isSep)
    else
      var rest := SplitWhere(s[1..], isSep);
      [[s[0]] + rest[0]] + rest[1..]
  }

  /** A string without separators is a single piece. */
  lemma {:induction false} SplitWhereNone(a: string, isSep: char -> bool)
    requires forall c :: c in a ==> !isSep(c)
    ensures SplitWhere(a, isSep) == [a]
  {
    if |a| > 0 {
      assert a[0] in a;
      assert forall c :: c in a[1..] ==> c in a;
      SplitWhereNone(a[1..], isSep);
      assert [a[0]] + a[1..] == a;
    }
  }

  /** The first piece ends at the first separator. */
  lemma {:induction false} SplitWhereFirst(a: string, c: char, b: string, isSep: char -> bool)
    requires forall x :: x in a ==> !isSep(x)
    requires isSep(c)
    ensures SplitWhere(a + [c] + b, isSep) == [a] + SplitWhere(b, isSep)
  {
    var s := a + [c] + b;
    if |a| == 0 {
      assert s[0] == c && s[1..] == b;
    } else {
      assert a[0] in a;
      assert forall x :: x in a[1..] ==> x in a;
      SplitWhereFirst(a[1..], c, b, isSep);
      assert s[0] == a[0] && s[1..] == a[1..] + [c] + b;
      assert [a[0]] + a[1..] == a;
    }
  }

  function Split(s: string, sep: char): (r: seq<string>)
    ensures |r| >= 1
    ensures forall i :: 0 <= i < |r| ==> sep !in r[i]
  {
    SplitWhere(s, c => c == sep)
  }

  lemma SplitNone(a: string, sep: char)
    requires sep !in a
    ensures Split(a, sep) == [a]
  {
    SplitWhereNone(a, c => c == sep);
  }

  lemma SplitFirst(a: string, sep: char, b: string)
    requires sep !in a
    ensures Split(a + [sep] + b, sep) == [a] + Split(b, sep)
  {
    SplitWhereFirst(a, sep, b, c => c == sep);
  }

  /** Joining pieces with a separator, Rust's `join`. */
  function Join(pieces: seq<string>, sep: string): string
  {
    if |pieces| == 0 then ""
    else if |pieces| == 1 then pieces[0]
    else pieces[0] + sep + Join(pieces[1..], sep)
  }

  /** Splitting at a character and joining with it again gives back the string. */
  lemma {:induction false} JoinSplit(s: string, sep: char)
    ensures Join(Split(s, sep), [sep]) == s
  {
    if |s| > 0 {
      JoinSplit(s[1..], sep);
      var rest := Split(s[1..], sep);
      assert Split(s[1..], sep) == SplitWhere(s[1..], c => c == sep);
      if s[0] != sep {
        assert Split(s, sep) == [[s[0]] + rest[0]] + rest[1..];
        if |rest| > 1 {
          assert rest == [rest[0]] + rest[1..];
          assert ([[s[0]] + rest[0]] + rest[1..])[1..] == rest[1..];
        }
      } else {
        assert Split(s, sep) == [""] + rest;
        assert ([""] + rest)[1..] == rest;
      }
    }
  }

  /** Rust's `str::split` with a string pattern: matches are found left to right, never overlapping. */
  function SplitStr(s: string, sep: string): (r: seq<string>)
    requires |sep| > 0
    ensures |r| >= 1
    decreases |s|
  {
    if |s| == 0 then [""]
    else if sep <= s then [""] + SplitStr(s[|sep|..], sep)
    else
      var rest := SplitStr(s[1..], sep);
      [[s[0]] + rest[0]] + rest[1..]
  }

  lemma {:induction false} JoinSplitStr(s: string, sep: string)
    requires |sep| > 0
    ensures Join(SplitStr(s, sep), sep) == s
    decreases |s|
  {
    if |s| > 0 {
      if sep <= s {
        var rest := SplitStr(s[|sep|..], sep);
        JoinSplitStr(s[|sep|..], sep);
        assert ([""] + rest)[1..] == rest;
        assert s == sep + s[|sep|..];
      } else {
        var rest := SplitStr(s[1..], sep);
        JoinSplitStr(s[1..], sep);
        if |rest| > 1 {
          assert ([[s[0]] + rest[0]] + rest[1..])[1..] == rest[1..];
          assert rest == [rest[0]] + rest[1..];
        }
      }
    }
  }

  /** A piece that cannot start a separator is not split. */
  lemma {:induction false} SplitStrNone(s: string, sep: string)
    requires |sep| > 0 && sep[0] !in s
    ensures SplitStr(s, sep) == [s]
    decreases |s|
  {
    if |s| > 0 {
      assert !(sep <= s) by {
        assert s[0] in s;
      }
      assert sep[0] !in s[1..] by {
        assert forall c :: c in s[1..] ==> c in s;
      }
      SplitStrNone(s[1..], sep);
      assert [s[0]] + s[1..] == s;
    }
  }

  /** The first separator after a piece that cannot start one ends that piece. */
  lemma {:induction false} SplitStrFirst(a: string, sep: string, b: string)
    requires |sep| > 0 && sep[0] !in a
    ensures SplitStr(a + sep + b, sep) == [a] + SplitStr(b, sep)
    decreases |a|
  {
    var s := a + sep + b;
    if |a| == 0 {
      assert s == sep + b && sep <= s && s[|sep|..] == b;
    } else {
      assert s[0] == a[0] && a[0] in a;
      assert !(sep <= s);
      assert sep[0] !in a[1..] by {
        assert forall c :: c in a[1..] ==> c in a;
      }
      SplitStrFirst(a[1..], sep, b);
      assert s[1..] == a[1..] + sep + b;
      assert [a[0]] + a[1..] == a;
    }
  }

  /** A piece without the separator's second character, which differs from its first, is not split. */
  lemma {:induction false} SplitStrNoSecond(s: string, sep: string)
    requires |sep| >= 2 && sep[1] != sep[0] && sep[1] !in s
    ensures SplitStr(s, sep) == [s]
    decreases |s|
  {
    if |s| > 0 {
      assert !(sep <= s) by {
        if |s| >= 2 {
          assert s[1] in s;
        }
      }
      assert sep[1] !in s[1..] by {
        assert forall c :: c in s[1..] ==> c in s;
      }
      SplitStrNoSecond(s[1..], sep);
      assert [s[0]] + s[1..] == s;
    }
  }

  /** The first separator after such a piece ends that piece. */
  lemma {:induction false} SplitStrFirstSecond(a: string, sep: string, b: string)
    requires |sep| >= 2 && sep[1] != sep[0] && sep[1] !in a
    ensures SplitStr(a + sep + b, sep) == [a] + SplitStr(b, sep)
    decreases |a|
  {
    var s := a + sep + b;
    if |a| == 0 {
      assert s == sep + b && sep <= s && s[|sep|..] == b;
    } else {
      assert !(sep <= s) by {
        if |a| >= 2 {
          assert s[1] == a[1] && a[1] in a;
        } else {
          assert s[1] == sep[0];
        }
      }
      assert sep[1] !in a[1..] by {
        assert forall c :: c in a[1..] ==> c in a;
      }
      SplitStrFirstSecond(a[1..], sep, b);
      assert s[0] == a[0] && s[1..] == a[1..] + sep + b;
      assert [a[0]] + a[1..] == a;
    }
  }

  /** Whether `sub` occurs in `s` (Rust's `str::contains` with a string pattern). */
  predicate ContainsStr(s: string, sub: string)
    decreases |s|
  {
    sub <= s || (|s| > 0 && ContainsStr(s[1..], sub))
  }

  /** Drops the empty pieces. */
  function NonEmpty(pieces: seq<string>): (r: seq<string>)
    ensures forall i :: 0 <= i < |r| ==> r[i] != "" && r[i] in pieces
    ensures |r| <= |pieces|
  {
    if |pieces| == 0 then []
    else if pieces[0] == "" then NonEmpty(pieces[1..])
    else [pieces[0]] + NonEmpty(pieces[1..])
  }

  /** Dropping empty pieces distributes over concatenation. */
  lemma {:induction false} NonEmptyAppend(a: seq<string>, b: seq<string>)
    ensures NonEmpty(a + b) == NonEmpty(a) + NonEmpty(b)
  {
    if |a| > 0 {
      assert (a + b)[0] == a[0] && (a + b)[1..] == a[1..] + b;
      NonEmptyAppend(a[1..], b);
    } else {
      assert a + b == b;
    }
  }

  lemma {:induction false} NonEmptyKeeps(pieces: seq<string>)
    requires forall i :: 0 <= i < |pieces| ==> pieces[i] != ""
    ensures NonEmpty(pieces) == pieces
  {
    if |pieces| > 0 {
      NonEmptyKeeps(pieces[1..]);
    }
  }

  /** Rust's `split_whitespace`: the maximal non-empty runs of non-whitespace characters. */
  function Words(s: string): (r: seq<string>)
    ensures forall i :: 0 <= i < |r| ==> r[i] != "" && forall c :: c in r[i] ==> !IsWhitespace(c)
  {
    NonEmpty(SplitWhere(s, IsWhitespace))
  }

  /** Pieces without whitespace, joined by single spaces, split back into the pieces. */
  lemma {:induction false} WordsOfJoin(pieces: seq<string>)
    requires forall i :: 0 <= i < |pieces| ==> pieces[i] != "" && forall c :: c in pieces[i] ==> !IsWhitespace(c)
    ensures Words(Join(pieces, " ")) == pieces
  {
    if |pieces| == 0 {
      assert SplitWhere("", IsWhitespace) == [""];
    } else {
      SplitWhereJoin(pieces);
      NonEmptyKeeps(pieces);
    }
  }

  lemma {:induction false} SplitWhereJoin(pieces: seq<string>)
    requires |pieces| > 0 && forall i :: 0 <= i < |pieces| ==> forall c :: c in pieces[i] ==> !IsWhitespace(c)
    ensures SplitWhere(Join(pieces, " "), IsWhitespace) == pieces
  {
    if |pieces| == 1 {
      SplitWhereNone(pieces[0], IsWhitespace);
    } else {
      var rest := pieces[1..];
      assert forall c :: c in pieces[0] ==> !IsWhitespace(c);
      SplitWhereFirst(pieces[0], ' ', Join(rest, " "), IsWhitespace);
      assert Join(pieces, " ") == pieces[0] + [' '] + Join(rest, " ");
      SplitWhereJoin(rest);
      assert pieces == [pieces[0]] + rest;
    }
  }

  /** Joining one more piece appends the separator and the piece. */
  lemma {:induction false} JoinSnoc(pieces: seq<string>, x: string, sep: string)
    requires |pieces| > 0
    ensures Join(pieces + [x], sep) == Join(pieces, sep) + sep + x
  {
    var p := pieces + [x];
    if |pieces| == 1 {
      assert p[1..] == [x];
    } else {
      assert p[0] == pieces[0] && p[1..] == pieces[1..] + [x];
      JoinSnoc(pieces[1..], x, sep);
    }
  }

  /** A trailing space adds no word. */
  lemma WordsOfJoinSpace(pieces: seq<string>)
    requires |pieces| > 0
    requires forall i :: 0 <= i < |pieces| ==> pieces[i] != "" && forall c :: c in pieces[i] ==> !IsWhitespace(c)
    ensures Words(Join(pieces, " ") + " ") == pieces
  {
    var q := pieces + [""];
    JoinSnoc(pieces, "", " ");
    assert Join(pieces, " ") + " " + "" == Join(pieces, " ") + " ";
    SnocEmptyNoWhitespace(pieces);
    SplitWhereJoin(q);
    assert SplitWhere(Join(pieces, " ") + " ", IsWhitespace) == q;
    NonEmptyAppend(pieces, [""]);
    NonEmptyKeeps(pieces);
    assert NonEmpty([""]) == [];
    assert NonEmpty(q) == pieces + [];
    assert pieces + [] == pieces;
  }

  lemma SnocEmptyNoWhitespace(pieces: seq<string>)
    requires forall i :: 0 <= i < |pieces| ==> forall c :: c in pieces[i] ==> !IsWhitespace(c)
    ensures forall i :: 0 <= i < |pieces + [""]| ==> forall c :: c in (pieces + [""])[i] ==> !IsWhitespace(c)
  {
    var q := pieces + [""];
    forall i | 0 <= i < |q| ensures forall c :: c in q[i] ==> !IsWhitespace(c) {
      if i < |pieces| {
        assert q[i] == pieces[i];
      }
    }
  }

  /** A character in neither the pieces nor the separator is not in their join. */
  lemma {:induction false} NotInJoin(pieces: seq<string>, sep: string, c: char)
    requires c !in sep && forall i :: 0 <= i < |pieces| ==> c !in pieces[i]
    ensures c !in Join(pieces, sep)
  {
    if |pieces| > 1 {
      NotInJoin(pieces[1..], sep, c);
    }
  }

  /** Pieces that cannot start a separator, joined with it, split back into the pieces. */
  lemma {:induction false} SplitStrJoin(pieces: seq<string>, sep: string)
    requires |pieces| > 0 && |sep| > 0
    requires forall i :: 0 <= i < |pieces| ==> sep[0] !in pieces[i]
    ensures SplitStr(Join(pieces, sep), sep) == pieces
  {
    if |pieces| == 1 {
      SplitStrNone(pieces[0], sep);
    } else {
      SplitStrFirst(pieces[0], sep, Join(pieces[1..], sep));
      SplitStrJoin(pieces[1..], sep);
      assert pieces == [pieces[0]] + pieces[1..];
    }
  }

  /** Rust's `split_terminator`: like `split`, except that a final empty piece is not produced. */
  function SplitTerminatorStr(s: string, sep: string): (r: seq<string>)
    requires |sep| > 0
    ensures |r| <= |SplitStr(s, sep)|
  {
    var pieces := SplitStr(s, sep);
    if pieces[|pieces| - 1] == "" then pieces[..|pieces| - 1] else pieces
  }

  /** Rust's `lines`: split at '\n' without a final empty line (carriage returns are not modelled). */
  function Lines(s: string): (r: seq<string>)
    ensures forall i :: 0 <= i < |r| ==> '\n' !in r[i]
  {
    var pieces := Split(s, '\n');
    if pieces[|pieces| - 1] == "" then pieces[..|pieces| - 1] else pieces
  }

  /** Rust's `trim`: drops leading and trailing whitespace. */
  function Trim(s: string): (r: string)
    ensures |r| <= |s|
    ensures |r| > 0 ==> !IsWhitespace(r[0]) && !IsWhitespace(r[|r| - 1])
    decreases |s|
  {
    if |s| > 0 && IsWhitespace(s[0]) then Trim(s[1..])
    else if |s| > 0 && IsWhitespace(s[|s| - 1]) then Trim(s[..|s| - 1])
    else s
  }

  /** The value of a string of decimal digits, most significant first. */
  function DigitsValue(s: string): nat
    requires forall c :: c in s ==> IsDigit(c)
  {
    if |s| == 0 then 0
    else
      var last := s[|s| - 1];
      assert last in s;
      assert IsDigit(last) && '0' <= last;
      DigitsValue(s[..|s| - 1]) * 10 + (last as int - '0' as int)
  }

  /** Rust's `str::parse::<usize>()`: an optional '+' and at least one digit, else an error. */
  function ParseNat(s: string): (r: Option<nat>)
    ensures r.Some? <==> ((|s| > 0 && (forall c :: c in s ==> IsDigit(c)))
                          || (|s| > 1 && s[0] == '+' && forall c :: c in s[1..] ==> IsDigit(c)))
  {
    if |s| > 0 && forall c :: c in s ==> IsDigit(c) then Some(DigitsValue(s))
    else if |s| > 1 && s[0] == '+' && forall c :: c in s[1..] ==> IsDigit(c) then Some(DigitsValue(s[1..]))
    else None
  }

  /** Rust's `str::parse::<usize>()`: as `ParseNat`, and an error above the largest `usize`. */
  function ParseUsize(s: string): (r: Option<nat>)
    ensures r.Some? <==> ParseNat(s).Some? && ParseNat(s).value < USIZE
    ensures r.Some? ==> r.value == ParseNat(s).value
  {
    match ParseNat(s)
    case Some(n) => if n < USIZE then Some(n) else None
    case None => None
  }

  /** Rust's `str::parse::<isize>()`: an optional sign and at least one digit, else an error. */
  function ParseInt(s: string): (r: Option<int>)
    ensures (|s| > 0 && forall c :: c in s ==> IsDigit(c)) ==> r == Some(DigitsValue(s))
    ensures (|s| > 1 && s[0] == '-' && forall c :: c in s[1..] ==> IsDigit(c)) ==> r == Some(0 - DigitsValue(s[1..]))
  {
    if |s| > 0 && forall c :: c in s ==> IsDigit(c) then
      assert s[0] in s;
      Some(DigitsValue(s))
    else if |s| > 1 && s[0] == '-' && forall c :: c in s[1..] ==> IsDigit(c) then Some(0 - DigitsValue(s[1..]))
    else match ParseNat(s)
      case Some(n) => Some(n)
      case None => None
  }

  /** Decimal representation, Rust's `to_string` on `usize`. */
  function NatToString(n: nat): (r: string)
    ensures |r| > 0 && forall c :: c in r ==> IsDigit(c)
  {
    if n < 10 then [('0' as int + n) as char]
    else NatToString(n / 10) + [('0' as int + n % 10) as char]
  }

  lemma {:induction false} DigitsOfNatToString(n: nat)
    ensures DigitsValue(NatToString(n)) == n
  {
    var s := NatToString(n);
    if n >= 10 {
      DigitsOfNatToString(n / 10);
      assert s[..|s| - 1] == NatToString(n / 10);
    }
  }

  /** Printing a number and parsing it back gives the number. */
  lemma ParseNatToString(n: nat)
    ensures ParseNat(NatToString(n)) == Some(n)
  {
    DigitsOfNatToString(n);
  }
}

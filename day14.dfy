/** Day 14: the docking program. A 36-character mask of '0', '1' and 'X' rewrites the values
    written to memory (part 1) or the addresses they are written to, with every 'X' floating
    over both bits (part 2). Numbers are `usize`; the bitwise operations are defined bit by bit
    on naturals. */
module Day14 {
  import opened Wrappers
  import opened Arith
  import opened Text

  // ---------------------------------------------------------------------------------------------
  // Bits

  /** Bit `i` of `n`, counting from the least significant. */
  function Bit(n: nat, i: nat): (b: nat)
    ensures b < 2
  {
    if i == 0 then n % 2 else Bit(n / 2, i - 1)
  }

  /** `a & b`. */
  function BitAnd(a: nat, b: nat): nat
    decreases a
  {
    if a == 0 then 0 else 2 * BitAnd(a / 2, b / 2) + (if a % 2 == 1 && b % 2 == 1 then 1 else 0)
  }

  /** `a | b`. */
  function BitOr(a: nat, b: nat): nat
    decreases a + b
  {
    if a == 0 && b == 0 then 0 else 2 * BitOr(a / 2, b / 2) + (if a % 2 == 1 || b % 2 == 1 then 1 else 0)
  }

  lemma {:induction false} ZeroBit(i: nat)
    ensures Bit(0, i) == 0
  {
    if i > 0 {
      ZeroBit(i - 1);
    }
  }

  /** The bits of `2 * m + d`: `d`, then the bits of `m`. */
  lemma ShiftBit(m: nat, d: nat, i: nat)
    requires d < 2
    ensures Bit(2 * m + d, i) == if i == 0 then d else Bit(m, i - 1)
  {
  }

  lemma {:induction false} AndBit(a: nat, b: nat, i: nat)
    ensures Bit(BitAnd(a, b), i) == (if Bit(a, i) == 1 && Bit(b, i) == 1 then 1 else 0)
  {
    if a == 0 {
      ZeroBit(i);
    } else {
      var d := if a % 2 == 1 && b % 2 == 1 then 1 else 0;
      ShiftBit(BitAnd(a / 2, b / 2), d, i);
      if i > 0 {
        AndBit(a / 2, b / 2, i - 1);
      }
    }
  }

  lemma {:induction false} OrBit(a: nat, b: nat, i: nat)
    ensures Bit(BitOr(a, b), i) == (if Bit(a, i) == 1 || Bit(b, i) == 1 then 1 else 0)
    decreases a + b
  {
    if a == 0 && b == 0 {
      ZeroBit(i);
    } else {
      var d := if a % 2 == 1 || b % 2 == 1 then 1 else 0;
      ShiftBit(BitOr(a / 2, b / 2), d, i);
      if i > 0 {
        OrBit(a / 2, b / 2, i - 1);
      }
    }
  }

  // ---------------------------------------------------------------------------------------------
  // Binary strings

  predicate IsBinary(s: string) {
    forall i :: 0 <= i < |s| ==> s[i] == '0' || s[i] == '1'
  }

  /** The value of a string of binary digits, most significant first. */
  function BinaryValue(s: string): nat
    requires IsBinary(s)
  {
    if |s| == 0 then 0 else 2 * BinaryValue(s[..|s| - 1]) + (if s[|s| - 1] == '1' then 1 else 0)
  }

  /** Bit `i` of the value is the `i`-th digit from the right, and 0 past the digits. */
  lemma {:induction false} BinaryBit(s: string, i: nat)
    requires IsBinary(s)
    ensures Bit(BinaryValue(s), i) == if i < |s| && s[|s| - 1 - i] == '1' then 1 else 0
  {
    if |s| == 0 {
      ZeroBit(i);
    } else {
      var init := s[..|s| - 1];
      ShiftBit(BinaryValue(init), if s[|s| - 1] == '1' then 1 else 0, i);
      if i > 0 {
        BinaryBit(init, i - 1);
        if i < |s| {
          assert init[|init| - 1 - (i - 1)] == s[|s| - 1 - i];
        }
      }
    }
  }

  lemma {:induction false} BinaryBound(s: string)
    requires IsBinary(s)
    ensures BinaryValue(s) < Pow(2, |s|)
  {
    if |s| > 0 {
      BinaryBound(s[..|s| - 1]);
    }
  }

  lemma {:induction false} PowMono(a: nat, b: nat)
    requires a <= b
    ensures Pow(2, a) <= Pow(2, b)
  {
    if a < b {
      PowMono(a, b - 1);
    }
  }

  /** `usize::from_str_radix(s, 2)`: an optional '+', then at least one binary digit, with a
      value that fits in 64 bits. */
  function FromBinary(s: string): (r: Option<nat>)
    ensures r.Some? ==> r.value < USIZE
  {
    var digits := if |s| > 0 && s[0] == '+' then s[1..] else s;
    if |digits| == 0 || !IsBinary(digits) || BinaryValue(digits) >= USIZE then None
    else Some(BinaryValue(digits))
  }

  /** One to 64 binary digits always parse, to their value. */
  lemma FromBinaryDigits(s: string)
    requires IsBinary(s) && 0 < |s| <= 64
    ensures FromBinary(s) == Some(BinaryValue(s))
  {
    BinaryBound(s);
    PowMono(|s|, 64);
    Pow64();
  }

  lemma Pow64()
    ensures Pow(2, 64) == USIZE
  {
    assert Pow(2, 2) == 4;
    PowAdd(2, 2, 2);
    PowAdd(2, 4, 4);
    PowAdd(2, 8, 8);
    PowAdd(2, 16, 16);
    PowAdd(2, 32, 32);
  }

  /** `str::replace` of one character by another. */
  function Replace(s: string, from: char, to: char): (r: string)
    ensures |r| == |s| && forall i :: 0 <= i < |s| ==> r[i] == if s[i] == from then to else s[i]
  {
    if |s| == 0 then "" else [if s[0] == from then to else s[0]] + Replace(s[1..], from, to)
  }

  // ---------------------------------------------------------------------------------------------
  // Part 1

  /** A mask the source can use: one to 64 characters of '0', '1' and 'X' (otherwise its
      `from_str_radix(..).unwrap()` panics). */
  predicate ValidMask(mask: string) {
    0 < |mask| <= 64 && forall i :: 0 <= i < |mask| ==> mask[i] == '0' || mask[i] == '1' || mask[i] == 'X'
  }

  /** `and_mask`: the mask with 'X' read as 1. */
  function AndMask(mask: string): nat
    requires ValidMask(mask)
  {
    BinaryValue(Replace(mask, 'X', '1'))
  }

  /** `or_mask`: the mask with 'X' read as 0. */
  function OrMask(mask: string): nat
    requires ValidMask(mask)
  {
    BinaryValue(Replace(mask, 'X', '0'))
  }

  /** Both readings of a valid mask parse, so the source's `unwrap`s succeed. */
  lemma MasksParse(mask: string)
    requires ValidMask(mask)
    ensures FromBinary(Replace(mask, 'X', '1')) == Some(AndMask(mask))
    ensures FromBinary(Replace(mask, 'X', '0')) == Some(OrMask(mask))
  {
    FromBinaryDigits(Replace(mask, 'X', '1'));
    FromBinaryDigits(Replace(mask, 'X', '0'));
  }

  /** `value & and_mask | or_mask`. */
  function Masked(value: nat, andMask: nat, orMask: nat): nat {
    BitOr(BitAnd(value, andMask), orMask)
  }

  /** A masked bit is set by `or`, else kept by `and`, else cleared. */
  lemma MaskedBitOf(value: nat, andMask: nat, orMask: nat, i: nat)
    ensures Bit(Masked(value, andMask, orMask), i)
            == if Bit(orMask, i) == 1 then 1 else if Bit(andMask, i) == 1 then Bit(value, i) else 0
  {
    AndBit(value, andMask, i);
    OrBit(BitAnd(value, andMask), orMask, i);
  }

  /** Bit `i` under binary masks `a` (and) and `o` (or) of one width: 1 where `o` has '1', else
      the value's bit where `a` has '1', else 0; and 0 above the masks. */
  function DigitBit(a: string, o: string, value: nat, i: nat): nat
    requires |a| == |o|
  {
    if i >= |a| then 0
    else if o[|o| - 1 - i] == '1' then 1
    else if a[|a| - 1 - i] == '1' then Bit(value, i)
    else 0
  }

  lemma MaskedDigits(a: string, o: string, value: nat, i: nat)
    requires IsBinary(a) && IsBinary(o) && |a| == |o|
    ensures Bit(Masked(value, BinaryValue(a), BinaryValue(o)), i) == DigitBit(a, o, value, i)
  {
    var andMask, orMask := BinaryValue(a), BinaryValue(o);
    BinaryBit(a, i);
    BinaryBit(o, i);
    MaskedBitOf(value, andMask, orMask, i);
    if i >= |a| {
      assert Bit(orMask, i) == 0 && Bit(andMask, i) == 0;
    } else {
      var p := |a| - 1 - i;
      if o[p] == '1' {
        assert Bit(orMask, i) == 1;
      } else if a[p] == '1' {
        assert Bit(orMask, i) == 0 && Bit(andMask, i) == 1;
      } else {
        assert Bit(orMask, i) == 0 && Bit(andMask, i) == 0;
      }
    }
  }

  /** A 1 where the mask has '1', a 0 where it has '0', the value's bit where it has 'X', and 0
      above the mask. */
  function MaskBit(mask: string, value: nat, i: nat): nat {
    if i >= |mask| then 0
    else if mask[|mask| - 1 - i] == '1' then 1
    else if mask[|mask| - 1 - i] == '0' then 0
    else Bit(value, i)
  }

  /** The masked value has a 1 where the mask has '1', a 0 where it has '0', the value's bit
      where it has 'X', and 0 above the mask. */
  lemma MaskedBit(mask: string, value: nat, i: nat)
    requires ValidMask(mask)
    ensures Bit(Masked(value, AndMask(mask), OrMask(mask)), i) == MaskBit(mask, value, i)
  {
    var a, o := Replace(mask, 'X', '1'), Replace(mask, 'X', '0');
    MaskedDigits(a, o, value, i);
    if i < |mask| {
      var p := |mask| - 1 - i;
      assert a[p] == (if mask[p] == 'X' then '1' else mask[p]);
      assert o[p] == (if mask[p] == 'X' then '0' else mask[p]);
    }
  }

  datatype Operation = Mask(mask: string) | Assignment(address: nat, value: nat)

  /** Every mask of the program is one the source can parse. */
  predicate MasksValid(ops: seq<Operation>) {
    forall i :: 0 <= i < |ops| && ops[i].Mask? ==> ValidMask(ops[i].mask)
  }

  /** The mask in force after `ops`: the last one, if any. */
  function CurrentMask(ops: seq<Operation>): (r: Option<string>)
    ensures r.Some? ==> exists i :: 0 <= i < |ops| && ops[i] == Mask(r.value)
  {
    if |ops| == 0 then None
    else if ops[|ops| - 1].Mask? then Some(ops[|ops| - 1].mask)
    else CurrentMask(ops[..|ops| - 1])
  }

  /** The (and, or) masks in force after `ops`: both 0 before the first mask. */
  function Masks1(ops: seq<Operation>): (nat, nat)
    requires MasksValid(ops)
  {
    match CurrentMask(ops)
    case None => (0, 0)
    case Some(m) => (AndMask(m), OrMask(m))
  }

  /** The memory after `ops` in part 1: each assignment stores the value under the masks in
      force, replacing what the address held. */
  function Memory1(ops: seq<Operation>): map<nat, nat>
    requires MasksValid(ops)
  {
    if |ops| == 0 then map[]
    else
      var prev := ops[..|ops| - 1];
      match ops[|ops| - 1]
      case Mask(_) => Memory1(prev)
      case Assignment(a, v) => Memory1(prev)[a := Masked(v, Masks1(prev).0, Masks1(prev).1)]
  }

  /** The last assignment to `address` is at `j`. */
  predicate LastWrite(ops: seq<Operation>, address: nat, j: nat) {
    && j < |ops| && ops[j].Assignment? && ops[j].address == address
    && forall k :: j < k < |ops| ==> !(ops[k].Assignment? && ops[k].address == address)
  }

  /** An address holds a value iff some assignment wrote it. */
  lemma {:induction false} Memory1Keys(ops: seq<Operation>, address: nat)
    requires MasksValid(ops)
    ensures address in Memory1(ops) <==> exists j :: 0 <= j < |ops| && ops[j].Assignment? && ops[j].address == address
  {
    if |ops| > 0 {
      var prev := ops[..|ops| - 1];
      assert MasksValid(prev);
      Memory1Keys(prev, address);
      assert forall j :: 0 <= j < |prev| ==> prev[j] == ops[j];
    }
  }

  /** An address holds the value of its last write, under the masks in force at that write. */
  lemma {:induction false} Memory1LastWrite(ops: seq<Operation>, address: nat, j: nat)
    requires MasksValid(ops) && LastWrite(ops, address, j)
    ensures address in Memory1(ops)
    ensures Memory1(ops)[address] == Masked(ops[j].value, Masks1(ops[..j]).0, Masks1(ops[..j]).1)
  {
    var prev := ops[..|ops| - 1];
    assert MasksValid(prev);
    if j < |prev| {
      assert prev[j] == ops[j] && prev[..j] == ops[..j];
      assert forall k :: j < k < |prev| ==> prev[k] == ops[k];
      assert LastWrite(prev, address, j);
      Memory1LastWrite(prev, address, j);
    } else {
      assert ops[..j] == prev;
    }
  }

  /** The memory's values, summed. */
  ghost function SumValues(m: map<nat, nat>): nat
    decreases |m.Keys|
  {
    if m == map[] then 0
    else
      var k :| k in m;
      assert |(m - {k}).Keys| < |m.Keys| by {
        assert m.Keys == (m - {k}).Keys + {k};
      }
      m[k] + SumValues(m - {k})
  }

  /** The sum does not depend on which key is taken first. */
  lemma {:induction false} SumRemove(m: map<nat, nat>, k: nat)
    requires k in m
    ensures SumValues(m) == m[k] + SumValues(m - {k})
    decreases |m.Keys|
  {
    var k0 :| k0 in m && SumValues(m) == m[k0] + SumValues(m - {k0});
    if k0 != k {
      assert m.Keys == (m - {k0}).Keys + {k0};
      assert m.Keys == (m - {k}).Keys + {k};
      SumRemove(m - {k0}, k);
      SumRemove(m - {k}, k0);
      assert m - {k0} - {k} == m - {k} - {k0};
    }
  }

  /** `memory.values().sum()`, over the keys in whatever order the map yields them. */
  method SumMemory(memory: map<nat, nat>) returns (sum: nat)
    ensures sum == SumValues(memory)
  {
    sum := 0;
    var rest := memory;
    while rest != map[]
      invariant sum + SumValues(rest) == SumValues(memory)
      decreases |rest.Keys|
    {
      var k :| k in rest;
      SumRemove(rest, k);
      assert rest.Keys == (rest - {k}).Keys + {k};
      sum := sum + rest[k];
      rest := rest - {k};
    }
  }

  /** `part1`: run the program, then sum the memory. */
  method Part1(ops: seq<Operation>) returns (memory: map<nat, nat>, sum: nat)
    requires MasksValid(ops)
    ensures memory == Memory1(ops) && sum == SumValues(memory)
  {
    memory := map[];
    var andMask, orMask := 0, 0;
    for k := 0 to |ops|
      invariant MasksValid(ops[..k])
      invariant (andMask, orMask) == Masks1(ops[..k]) && memory == Memory1(ops[..k])
    {
      assert ops[..k + 1][..k] == ops[..k];
      match ops[k]
      case Mask(m) => {
        MasksParse(m);
        andMask := FromBinary(Replace(m, 'X', '1')).value;
        orMask := FromBinary(Replace(m, 'X', '0')).value;
      }
      case Assignment(address, value) => {
        memory := memory[address := Masked(value, andMask, orMask)];
      }
    }
    assert ops[..|ops|] == ops;
    sum := SumMemory(memory);
  }

  // ---------------------------------------------------------------------------------------------
  // Part 2: floating bits

  /** `replace('0', "N").replace('1', "E")`: fixed zeros and ones get letters of their own, so
      that the digits chosen for 'X' can be told apart from them. */
  function Relabel(mask: string): string {
    Replace(Replace(mask, '0', 'N'), '1', 'E')
  }

  /** The number of 'X' left. */
  function XCount(s: string): nat {
    if |s| == 0 then 0 else (if s[0] == 'X' then 1 else 0) + XCount(s[1..])
  }

  lemma {:induction false} XCountZero(s: string)
    ensures XCount(s) == 0 <==> 'X' !in s
  {
    if |s| > 0 {
      XCountZero(s[1..]);
      assert s == [s[0]] + s[1..];
    }
  }

  lemma {:induction false} XCountUpdate(s: string, j: nat, c: char)
    requires j < |s| && s[j] == 'X' && c != 'X'
    ensures XCount(s[j := c]) == XCount(s) - 1
  {
    if j > 0 {
      XCountUpdate(s[1..], j - 1, c);
      assert s[j := c][1..] == s[1..][j - 1 := c];
    } else {
      assert s[j := c][1..] == s[1..];
    }
  }

  /** The position of the first 'X'. */
  function FirstX(s: string): (j: nat)
    requires 'X' in s
    ensures j < |s| && s[j] == 'X' && forall k :: 0 <= k < j ==> s[k] != 'X'
  {
    if s[0] == 'X' then 0 else FirstX(s[1..]) + 1
  }

  /** `replacen("X", c, 1)`: the first 'X' becomes `c`. */
  function ReplaceFirstX(s: string, c: char): string
    requires 'X' in s
  {
    s[FirstX(s) := c]
  }

  /** Every way of filling the 'X's with '0' or '1', in the order the source's queue finishes
      them: depth first, with the first 'X' as '0' before the first 'X' as '1'. */
  function Choices(s: string): seq<string>
    decreases XCount(s)
  {
    if 'X' !in s then [s]
    else
      XCountUpdate(s, FirstX(s), '0');
      XCountUpdate(s, FirstX(s), '1');
      Choices(ReplaceFirstX(s, '0')) + Choices(ReplaceFirstX(s, '1'))
  }

  /** `c` agrees with `s` except that each 'X' of `s` is a binary digit in `c`. */
  predicate Fills(s: string, c: string) {
    |c| == |s| && forall i :: 0 <= i < |s| ==> FillsAt(s, c, i)
  }

  predicate FillsAt(s: string, c: string, i: nat)
    requires i < |s| && i < |c|
  {
    if s[i] == 'X' then c[i] == '0' || c[i] == '1' else c[i] == s[i]
  }

  lemma {:induction false} ChoicesFill(s: string)
    ensures forall k :: 0 <= k < |Choices(s)| ==> Fills(s, Choices(s)[k])
    decreases XCount(s)
  {
    if 'X' in s {
      var j := FirstX(s);
      var s0, s1 := ReplaceFirstX(s, '0'), ReplaceFirstX(s, '1');
      XCountUpdate(s, j, '0');
      XCountUpdate(s, j, '1');
      ChoicesFill(s0);
      ChoicesFill(s1);
      forall k | 0 <= k < |Choices(s)| ensures Fills(s, Choices(s)[k]) {
        var c := Choices(s)[k];
        var t := if k < |Choices(s0)| then s0 else s1;
        assert Fills(t, c) by {
          if k < |Choices(s0)| {
            assert c == Choices(s0)[k];
          } else {
            assert c == Choices(s1)[k - |Choices(s0)|];
          }
        }
        forall i | 0 <= i < |s| ensures FillsAt(s, c, i) {
          assert FillsAt(t, c, i);
        }
      }
    } else {
      assert forall i :: 0 <= i < |s| ==> s[i] != 'X';
    }
  }

  /** Every filling is among the choices. */
  lemma {:induction false} ChoicesComplete(s: string, c: string)
    requires Fills(s, c)
    ensures c in Choices(s)
    decreases XCount(s)
  {
    if 'X' in s {
      var j := FirstX(s);
      assert FillsAt(s, c, j);
      var t := ReplaceFirstX(s, c[j]);
      XCountUpdate(s, j, c[j]);
      forall i | 0 <= i < |t| ensures FillsAt(t, c, i) {
        assert FillsAt(s, c, i);
      }
      ChoicesComplete(t, c);
    } else {
      assert c == s by {
        forall i | 0 <= i < |s| ensures c[i] == s[i] {
          assert FillsAt(s, c, i);
        }
      }
    }
  }

  /** There are 2^k choices for k floating bits. */
  lemma {:induction false} ChoicesCount(s: string)
    ensures |Choices(s)| == Pow(2, XCount(s))
    decreases XCount(s)
  {
    if 'X' in s {
      var j := FirstX(s);
      var s0, s1 := ReplaceFirstX(s, '0'), ReplaceFirstX(s, '1');
      var n := XCount(s);
      XCountUpdate(s, j, '0');
      XCountUpdate(s, j, '1');
      ChoicesCount(s0);
      ChoicesCount(s1);
      assert |Choices(s)| == |Choices(s0)| + |Choices(s1)|;
      assert Pow(2, n) == 2 * Pow(2, n - 1);
    } else {
      XCountZero(s);
    }
  }

  /** No choice comes twice. */
  lemma {:induction false} ChoicesDistinct(s: string)
    ensures forall a, b :: 0 <= a < b < |Choices(s)| ==> Choices(s)[a] != Choices(s)[b]
    decreases XCount(s)
  {
    if 'X' in s {
      var j := FirstX(s);
      var s0, s1 := ReplaceFirstX(s, '0'), ReplaceFirstX(s, '1');
      XCountUpdate(s, j, '0');
      XCountUpdate(s, j, '1');
      ChoicesDistinct(s0);
      ChoicesDistinct(s1);
      ChoicesFill(s0);
      ChoicesFill(s1);
      var c0, c1 := Choices(s0), Choices(s1);
      forall a, b | 0 <= a < b < |Choices(s)| ensures Choices(s)[a] != Choices(s)[b] {
        if a < |c0| && b >= |c0| {
          assert Fills(s0, c0[a]) && Fills(s1, c1[b - |c0|]);
          assert FillsAt(s0, c0[a], j) && FillsAt(s1, c1[b - |c0|], j);
        } else if a >= |c0| {
          assert Choices(s)[a] == c1[a - |c0|] && Choices(s)[b] == c1[b - |c0|];
        }
      }
    }
  }

  /** The letters the relabelled mask and its choices are made of. */
  predicate Floating(s: string) {
    forall i :: 0 <= i < |s| ==> s[i] == 'N' || s[i] == 'E' || s[i] == 'X' || s[i] == '0' || s[i] == '1'
  }

  predicate Settled(s: string) {
    forall i :: 0 <= i < |s| ==> s[i] == 'N' || s[i] == 'E' || s[i] == '0' || s[i] == '1'
  }

  /** `or_mask`'s digits: 'E' as 1, 'N' as 0, the chosen digits as they are. */
  function OrString(c: string): string {
    Replace(Replace(c, 'E', '1'), 'N', '0')
  }

  /** `and_mask`'s digits: 'E' as 0, 'N' as 1, the chosen digits as they are. */
  function AndString(c: string): string {
    Replace(Replace(c, 'E', '0'), 'N', '1')
  }

  /** Both digit strings of a finished choice are binary, of its length. */
  lemma LeafDigits(c: string)
    requires Settled(c)
    ensures |OrString(c)| == |c| && |AndString(c)| == |c|
    ensures IsBinary(OrString(c)) && IsBinary(AndString(c))
  {
    forall p | 0 <= p < |c| ensures (OrString(c)[p] == '0' || OrString(c)[p] == '1') && (AndString(c)[p] == '0' || AndString(c)[p] == '1') {
      LeafDigitAt(c, p);
    }
  }

  /** The digits of both masks at one position of a finished choice. */
  lemma LeafDigitAt(c: string, p: nat)
    requires Settled(c) && p < |c|
    ensures |OrString(c)| == |c| && |AndString(c)| == |c|
    ensures c[p] == 'N' ==> OrString(c)[p] == '0' && AndString(c)[p] == '1'
    ensures c[p] == 'E' ==> OrString(c)[p] == '1' && AndString(c)[p] == '0'
    ensures c[p] == '0' || c[p] == '1' ==> OrString(c)[p] == c[p] && AndString(c)[p] == c[p]
  {
  }

  /** A finished choice as the `(or_mask, and_mask)` pair of the source. */
  function Leaf(c: string): (nat, nat)
    requires Settled(c)
  {
    LeafDigits(c);
    (BinaryValue(OrString(c)), BinaryValue(AndString(c)))
  }

  /** Both strings of a finished choice of at most 64 letters parse. */
  lemma LeafParses(c: string)
    requires Settled(c) && 0 < |c| <= 64
    ensures IsBinary(OrString(c)) && IsBinary(AndString(c))
    ensures FromBinary(OrString(c)) == Some(Leaf(c).0) && FromBinary(AndString(c)) == Some(Leaf(c).1)
  {
    LeafDigits(c);
    FromBinaryDigits(OrString(c));
    FromBinaryDigits(AndString(c));
  }

  /** All finished. */
  predicate AllSettled(cs: seq<string>) {
    forall k :: 0 <= k < |cs| ==> Settled(cs[k])
  }

  /** The pairs of a sequence of finished choices. */
  function Leaves(cs: seq<string>): (r: seq<(nat, nat)>)
    requires AllSettled(cs)
    ensures |r| == |cs| && forall k :: 0 <= k < |cs| ==> r[k] == Leaf(cs[k])
  {
    if |cs| == 0 then [] else [Leaf(cs[0])] + Leaves(cs[1..])
  }

  lemma LeavesAppend(a: seq<string>, b: seq<string>)
    requires AllSettled(a) && AllSettled(b)
    ensures AllSettled(a + b) && Leaves(a + b) == Leaves(a) + Leaves(b)
  {
    assert forall k :: 0 <= k < |a + b| ==> (a + b)[k] == if k < |a| then a[k] else b[k - |a|];
  }

  /** The choices of a string of the mask's letters are finished strings of its width. */
  lemma ChoicesSettled(s: string)
    requires Floating(s)
    ensures AllSettled(Choices(s))
    ensures forall k :: 0 <= k < |Choices(s)| ==> |Choices(s)[k]| == |s|
  {
    ChoicesFill(s);
    forall k | 0 <= k < |Choices(s)| ensures Settled(Choices(s)[k]) {
      var c := Choices(s)[k];
      assert Fills(s, c);
      forall i | 0 <= i < |c| ensures c[i] == 'N' || c[i] == 'E' || c[i] == '0' || c[i] == '1' {
        assert FillsAt(s, c, i);
      }
    }
  }

  lemma RelabelFloating(mask: string)
    requires ValidMask(mask)
    ensures Floating(Relabel(mask)) && |Relabel(mask)| == |mask|
    ensures forall i :: 0 <= i < |mask| ==> Relabel(mask)[i] == (if mask[i] == '0' then 'N' else if mask[i] == '1' then 'E' else 'X')
  {
  }

  /** `find_mask_variations`' result: the pairs of all choices of the relabelled mask. */
  function Variations(mask: string): seq<(nat, nat)>
    requires ValidMask(mask)
  {
    RelabelFloating(mask);
    ChoicesSettled(Relabel(mask));
    Leaves(Choices(Relabel(mask)))
  }

  /** The choices the queued strings will still produce, in order. */
  function Pending(queue: seq<string>): seq<string> {
    if |queue| == 0 then [] else Choices(queue[0]) + Pending(queue[1..])
  }

  predicate AllFloating(queue: seq<string>) {
    forall k :: 0 <= k < |queue| ==> Floating(queue[k])
  }

  predicate Width(queue: seq<string>, width: nat) {
    forall k :: 0 <= k < |queue| ==> |queue[k]| == width
  }

  /** The nodes of the tree of choices below `s`: the work left for the queue. */
  function Nodes(s: string): nat
    decreases XCount(s)
  {
    if 'X' !in s then 1
    else
      XCountUpdate(s, FirstX(s), '0');
      XCountUpdate(s, FirstX(s), '1');
      1 + Nodes(ReplaceFirstX(s, '0')) + Nodes(ReplaceFirstX(s, '1'))
  }

  function Work(queue: seq<string>): nat {
    if |queue| == 0 then 0 else Nodes(queue[0]) + Work(queue[1..])
  }

  /** What the loop of `find_mask_variations` keeps: the strings finished so far (`done`, whose
      pairs are `masks`) followed by those the queue will still finish are the mask's choices. */
  ghost predicate QueueInv(mask: string, queue: seq<string>, done: seq<string>, masks: seq<(nat, nat)>)
    requires ValidMask(mask)
  {
    && AllFloating(queue) && Width(queue, |mask|)
    && done + Pending(queue) == Choices(Relabel(mask))
    && AllSettled(done) && masks == Leaves(done)
  }

  lemma FloatingFirstX(s: string, c: char)
    requires Floating(s) && 'X' in s && (c == '0' || c == '1')
    ensures Floating(ReplaceFirstX(s, c)) && |ReplaceFirstX(s, c)| == |s|
  {
  }

  /** The queue after a split: the two versions of the front string, then the rest. */
  function SplitFront(queue: seq<string>): seq<string>
    requires |queue| > 0 && 'X' in queue[0]
  {
    [ReplaceFirstX(queue[0], '0'), ReplaceFirstX(queue[0], '1')] + queue[1..]
  }

  lemma SplitShape(queue: seq<string>, width: nat)
    requires |queue| > 0 && 'X' in queue[0] && AllFloating(queue) && Width(queue, width)
    ensures AllFloating(SplitFront(queue)) && Width(SplitFront(queue), width)
  {
    var next := SplitFront(queue);
    FloatingFirstX(queue[0], '0');
    FloatingFirstX(queue[0], '1');
    forall k | 2 <= k < |next| ensures next[k] == queue[k - 1] {
    }
  }

  /** Splitting the front string leaves the pending choices as they were. */
  lemma SplitPending(queue: seq<string>)
    requires |queue| > 0 && 'X' in queue[0]
    ensures Pending(SplitFront(queue)) == Pending(queue)
  {
    var s, rest := queue[0], queue[1..];
    var s0, s1 := ReplaceFirstX(s, '0'), ReplaceFirstX(s, '1');
    var tail := [s1] + rest;
    assert SplitFront(queue) == [s0] + tail;
    assert ([s0] + tail)[1..] == tail && tail[1..] == rest;
    var a, b, c := Choices(s0), Choices(s1), Pending(rest);
    assert Pending(tail) == b + c;
    assert Pending([s0] + tail) == a + (b + c);
    assert Choices(s) == a + b;
    assert Pending(queue) == (a + b) + c;
    assert a + (b + c) == (a + b) + c;
  }

  /** ... and leaves one node less to visit. */
  lemma SplitWork(queue: seq<string>)
    requires |queue| > 0 && 'X' in queue[0]
    ensures Work(SplitFront(queue)) < Work(queue)
  {
    var s, rest := queue[0], queue[1..];
    var s0, s1 := ReplaceFirstX(s, '0'), ReplaceFirstX(s, '1');
    var tail := [s1] + rest;
    assert SplitFront(queue) == [s0] + tail;
    assert ([s0] + tail)[1..] == tail && tail[1..] == rest;
    assert Work(tail) == Nodes(s1) + Work(rest);
    assert Work([s0] + tail) == Nodes(s0) + Work(tail);
    assert Nodes(s) == 1 + Nodes(s0) + Nodes(s1);
  }

  lemma QueueSplit(mask: string, queue: seq<string>, done: seq<string>, masks: seq<(nat, nat)>)
    requires ValidMask(mask) && |queue| > 0 && 'X' in queue[0] && QueueInv(mask, queue, done, masks)
    ensures QueueInv(mask, SplitFront(queue), done, masks)
    ensures Work(SplitFront(queue)) < Work(queue)
  {
    SplitShape(queue, |mask|);
    SplitPending(queue);
    SplitWork(queue);
  }

  /** A finished front string moves to the finished ones. */
  lemma QueueLeaf(mask: string, queue: seq<string>, done: seq<string>, masks: seq<(nat, nat)>)
    requires ValidMask(mask) && |queue| > 0 && 'X' !in queue[0] && QueueInv(mask, queue, done, masks)
    ensures Settled(queue[0]) && 0 < |queue[0]| <= 64
    ensures QueueInv(mask, queue[1..], done + [queue[0]], masks + [Leaf(queue[0])])
    ensures Work(queue[1..]) < Work(queue)
  {
    var s := queue[0];
    LeafSettled(s);
    LeavesAppend(done, [s]);
    DropFront(queue, |mask|);
    assert Pending(queue) == [s] + Pending(queue[1..]);
    Assoc(done, [s], Pending(queue[1..]));
  }

  lemma Assoc(a: seq<string>, b: seq<string>, c: seq<string>)
    ensures a + b + c == a + (b + c)
  {
  }

  /** A string without 'X' is its only choice, and a finished string. */
  lemma LeafSettled(s: string)
    requires Floating(s) && 'X' !in s
    ensures Choices(s) == [s] && Settled(s) && AllSettled([s]) && Leaves([s]) == [Leaf(s)]
  {
    assert forall i :: 0 <= i < |s| ==> s[i] != 'X';
  }

  lemma DropFront(queue: seq<string>, width: nat)
    requires |queue| > 0 && AllFloating(queue) && Width(queue, width)
    ensures AllFloating(queue[1..]) && Width(queue[1..], width)
  {
    assert forall k :: 0 <= k < |queue[1..]| ==> queue[1..][k] == queue[k + 1];
  }

  /** `find_mask_variations`: a queue of strings, the front one popped; an 'X' splits it into
      its '0' and '1' versions, pushed to the front so the '0' version comes next; a string
      without 'X' becomes an (or, and) pair. */
  method FindMaskVariations(mask: string) returns (masks: seq<(nat, nat)>)
    requires ValidMask(mask)
    ensures masks == Variations(mask)
  {
    masks := [];
    ghost var done: seq<string> := [];
    RelabelFloating(mask);
    var queue := [Relabel(mask)];
    assert Pending(queue) == Choices(Relabel(mask));
    while |queue| > 0
      invariant QueueInv(mask, queue, done, masks)
      decreases Work(queue)
    {
      var remainder := queue[0];
      if 'X' in remainder {
        QueueSplit(mask, queue, done, masks);
        var x := ReplaceFirstX(remainder, '1');
        var y := ReplaceFirstX(remainder, '0');
        assert [y, x] + queue[1..] == SplitFront(queue);
        queue := [y, x] + queue[1..];
      } else {
        QueueLeaf(mask, queue, done, masks);
        LeafParses(remainder);
        var orMask := FromBinary(OrString(remainder)).value;
        var andMask := FromBinary(AndString(remainder)).value;
        masks := masks + [(orMask, andMask)];
        done := done + [remainder];
        queue := queue[1..];
      }
    }
    assert done == Choices(Relabel(mask));
  }

  // ---------------------------------------------------------------------------------------------
  // Part 2: the addresses written

  /** `address & and_mask | or_mask` for one `(or_mask, and_mask)` pair. */
  function Target(address: nat, pair: (nat, nat)): nat {
    Masked(address, pair.1, pair.0)
  }

  /** Bit `i` of the address a finished choice writes to: the address's bit under 'N', 0 under
      a chosen '0', 1 under 'E' and a chosen '1', 0 above the mask. */
  function ChoiceBit(c: string, address: nat, i: nat): nat {
    if i >= |c| then 0
    else if c[|c| - 1 - i] == 'N' then Bit(address, i)
    else if c[|c| - 1 - i] == '0' then 0
    else 1
  }

  lemma TargetBit(c: string, address: nat, i: nat)
    requires Settled(c)
    ensures Bit(Target(address, Leaf(c)), i) == ChoiceBit(c, address, i)
  {
    LeafDigits(c);
    var a, o := AndString(c), OrString(c);
    MaskedDigits(a, o, address, i);
    assert Target(address, Leaf(c)) == Masked(address, BinaryValue(a), BinaryValue(o));
    DigitChoiceBit(c, address, i);
  }

  /** The digit rule on a finished choice's masks is the choice rule. */
  lemma DigitChoiceBit(c: string, address: nat, i: nat)
    requires Settled(c)
    ensures |AndString(c)| == |OrString(c)| && DigitBit(AndString(c), OrString(c), address, i) == ChoiceBit(c, address, i)
  {
    LeafDigits(c);
    if i < |c| {
      LeafDigitAt(c, |c| - 1 - i);
    }
  }

  /** Bit `i` of `target` is one the mask allows for `address`: the address's bit under '0', 1
      under '1', either under 'X', and 0 above the mask. */
  predicate BitAllowed(mask: string, address: nat, target: nat, i: nat) {
    if i >= |mask| then Bit(target, i) == 0
    else if mask[|mask| - 1 - i] == '0' then Bit(target, i) == Bit(address, i)
    else if mask[|mask| - 1 - i] == '1' then Bit(target, i) == 1
    else true
  }

  /** `target` is one of the addresses the mask's floating bits make of `address`. */
  ghost predicate Floats(mask: string, address: nat, target: nat) {
    forall i: nat :: BitAllowed(mask, address, target, i)
  }

  /** Numbers with the same bits are equal. */
  lemma {:induction false} BitsEqual(a: nat, b: nat)
    requires forall i: nat :: Bit(a, i) == Bit(b, i)
    ensures a == b
    decreases a + b
  {
    if a + b > 0 {
      assert Bit(a, 0) == Bit(b, 0);
      forall i: nat ensures Bit(a / 2, i) == Bit(b / 2, i) {
        assert Bit(a, i + 1) == Bit(b, i + 1);
      }
      BitsEqual(a / 2, b / 2);
    }
  }

  /** How a choice of the relabelled mask reads at each position. */
  lemma ChoiceOfMask(mask: string, c: string, p: nat)
    requires ValidMask(mask) && Fills(Relabel(mask), c) && p < |mask|
    ensures mask[p] == '0' ==> c[p] == 'N'
    ensures mask[p] == '1' ==> c[p] == 'E'
    ensures mask[p] == 'X' ==> c[p] == '0' || c[p] == '1'
  {
    RelabelFloating(mask);
    assert FillsAt(Relabel(mask), c, p);
  }

  /** Every address a variation writes to floats from `address`. */
  lemma VariationFloats(mask: string, address: nat, k: nat)
    requires ValidMask(mask) && k < |Variations(mask)|
    ensures Floats(mask, address, Target(address, Variations(mask)[k]))
  {
    RelabelFloating(mask);
    ChoicesFill(Relabel(mask));
    ChoicesSettled(Relabel(mask));
    var c := Choices(Relabel(mask))[k];
    assert Fills(Relabel(mask), c);
    forall i: nat ensures BitAllowed(mask, address, Target(address, Variations(mask)[k]), i) {
      TargetBit(c, address, i);
      if i < |mask| {
        ChoiceOfMask(mask, c, |mask| - 1 - i);
      }
    }
  }

  /** The choice of the relabelled mask that takes `target`'s bits at the 'X's. */
  function Chosen(mask: string, target: nat): (c: string)
    ensures |c| == |mask|
    ensures forall p :: 0 <= p < |mask| ==> c[p] == ChosenAt(mask, target, p)
  {
    seq(|mask|, p requires 0 <= p < |mask| => ChosenAt(mask, target, p))
  }

  function ChosenAt(mask: string, target: nat, p: nat): char
    requires p < |mask|
  {
    if mask[p] == 'X' then (if Bit(target, |mask| - 1 - p) == 1 then '1' else '0')
    else if mask[p] == '0' then 'N'
    else 'E'
  }

  lemma ChosenFills(mask: string, target: nat)
    requires ValidMask(mask)
    ensures Fills(Relabel(mask), Chosen(mask, target))
  {
    RelabelFloating(mask);
    var r, c := Relabel(mask), Chosen(mask, target);
    forall p | 0 <= p < |r| ensures FillsAt(r, c, p) {
      assert c[p] == ChosenAt(mask, target, p);
    }
  }

  /** Every address that floats from `address` is written by some variation. */
  lemma FloatsIsVariation(mask: string, address: nat, target: nat)
    requires ValidMask(mask) && Floats(mask, address, target)
    ensures exists k :: 0 <= k < |Variations(mask)| && Target(address, Variations(mask)[k]) == target
  {
    RelabelFloating(mask);
    var r, c := Relabel(mask), Chosen(mask, target);
    ChosenFills(mask, target);
    ChoicesComplete(r, c);
    ChoicesSettled(r);
    var k :| 0 <= k < |Choices(r)| && Choices(r)[k] == c;
    var t := Target(address, Variations(mask)[k]);
    assert t == Target(address, Leaf(c));
    forall i: nat ensures Bit(t, i) == Bit(target, i) {
      TargetBit(c, address, i);
      ChosenBit(mask, address, target, i);
    }
    BitsEqual(t, target);
  }

  /** The chosen string gives `target`'s bits. */
  lemma ChosenBit(mask: string, address: nat, target: nat, i: nat)
    requires ValidMask(mask) && Floats(mask, address, target)
    ensures ChoiceBit(Chosen(mask, target), address, i) == Bit(target, i)
  {
    assert BitAllowed(mask, address, target, i);
    if i < |mask| {
      assert Chosen(mask, target)[|mask| - 1 - i] == ChosenAt(mask, target, |mask| - 1 - i);
    }
  }

  /** Two different choices differ at an 'X', one with '0' there and the other with '1'. */
  lemma ChoicesDiffer(s: string, a: nat, b: nat) returns (p: nat)
    requires a < b < |Choices(s)|
    ensures p < |s| && p < |Choices(s)[a]| && p < |Choices(s)[b]|
    ensures Choices(s)[a][p] in {'0', '1'} && Choices(s)[b][p] in {'0', '1'}
    ensures Choices(s)[a][p] != Choices(s)[b][p]
  {
    ChoicesFill(s);
    ChoicesDistinct(s);
    var ca, cb := Choices(s)[a], Choices(s)[b];
    assert Fills(s, ca) && Fills(s, cb);
    assert exists q :: 0 <= q < |s| && ca[q] != cb[q];
    p :| 0 <= p < |s| && ca[p] != cb[p];
    assert FillsAt(s, ca, p) && FillsAt(s, cb, p);
  }

  /** Different variations write to different addresses. */
  lemma VariationsDistinct(mask: string, address: nat, a: nat, b: nat)
    requires ValidMask(mask) && a < b < |Variations(mask)|
    ensures Target(address, Variations(mask)[a]) != Target(address, Variations(mask)[b])
  {
    RelabelFloating(mask);
    var r := Relabel(mask);
    ChoicesSettled(r);
    var ca, cb := Choices(r)[a], Choices(r)[b];
    var p := ChoicesDiffer(r, a, b);
    var i := |mask| - 1 - p;
    assert Variations(mask)[a] == Leaf(ca) && Variations(mask)[b] == Leaf(cb);
    TargetBit(ca, address, i);
    TargetBit(cb, address, i);
    assert ca[|ca| - 1 - i] == ca[p] && cb[|cb| - 1 - i] == cb[p];
    assert ChoiceBit(ca, address, i) != ChoiceBit(cb, address, i);
  }

  lemma {:induction false} XCountReplace(s: string, from: char, to: char)
    requires from != 'X' && to != 'X'
    ensures XCount(Replace(s, from, to)) == XCount(s)
  {
    if |s| > 0 {
      XCountReplace(s[1..], from, to);
      assert Replace(s, from, to)[1..] == Replace(s[1..], from, to);
    }
  }

  /** A mask with `n` floating bits has `2^n` variations. */
  lemma VariationsCount(mask: string)
    requires ValidMask(mask)
    ensures |Variations(mask)| == Pow(2, XCount(mask))
  {
    RelabelFloating(mask);
    ChoicesCount(Relabel(mask));
    XCountReplace(mask, '0', 'N');
    XCountReplace(Replace(mask, '0', 'N'), '1', 'E');
  }

  // ---------------------------------------------------------------------------------------------
  // Part 2: the memory

  /** The addresses the pairs `vs` make of `address`. */
  function Targets(address: nat, vs: seq<(nat, nat)>): set<nat> {
    set k | 0 <= k < |vs| :: Target(address, vs[k])
  }

  /** The inner loop of `part2`: `value` stored at every address the pairs make of `address`.
      Since the value is the same everywhere, the order of the writes does not matter. */
  function WriteAll(memory: map<nat, nat>, address: nat, value: nat, vs: seq<(nat, nat)>): (r: map<nat, nat>)
    ensures r.Keys == memory.Keys + Targets(address, vs)
    ensures forall t :: t in r ==> r[t] == if t in Targets(address, vs) then value else memory[t]
  {
    if |vs| == 0 then memory
    else
      var init := vs[..|vs| - 1];
      assert Targets(address, vs) == Targets(address, init) + {Target(address, vs[|vs| - 1])} by {
        assert forall k :: 0 <= k < |init| ==> init[k] == vs[k];
      }
      WriteAll(memory, address, value, init)[Target(address, vs[|vs| - 1]) := value]
  }

  /** The variations in force after the first `n` operations: none before the first mask. */
  function VariationsAt(ops: seq<Operation>, n: nat): seq<(nat, nat)>
    requires MasksValid(ops) && n <= |ops|
  {
    if n == 0 then []
    else if ops[n - 1].Mask? then Variations(ops[n - 1].mask)
    else VariationsAt(ops, n - 1)
  }

  /** The pairs in force before each operation. */
  function VarTable(ops: seq<Operation>): (r: seq<seq<(nat, nat)>>)
    requires MasksValid(ops)
    ensures |r| == |ops| && forall k :: 0 <= k < |ops| ==> r[k] == VariationsAt(ops, k)
  {
    seq(|ops|, k requires 0 <= k < |ops| => VariationsAt(ops, k))
  }

  /** The memory after the first `n` operations in part 2, assignment `k` writing through the
      pairs `vars[k]`. */
  function MemoryWith(ops: seq<Operation>, vars: seq<seq<(nat, nat)>>, n: nat): map<nat, nat>
    requires n <= |ops| <= |vars|
  {
    if n == 0 then map[]
    else
      match ops[n - 1]
      case Mask(_) => MemoryWith(ops, vars, n - 1)
      case Assignment(a, v) => WriteAll(MemoryWith(ops, vars, n - 1), a, v, vars[n - 1])
  }

  /** The memory after `ops` in part 2: each assignment stores its value at every address its
      address floats to under the mask in force. */
  function Memory2(ops: seq<Operation>): map<nat, nat>
    requires MasksValid(ops)
  {
    MemoryWith(ops, VarTable(ops), |ops|)
  }

  /** Assignment `j` writes to `t`. */
  predicate WritesTo(ops: seq<Operation>, j: nat, t: nat)
    requires MasksValid(ops) && j < |ops|
  {
    ops[j].Assignment? && t in Targets(ops[j].address, VariationsAt(ops, j))
  }

  /** Assignment `j` writes to `t` through the pairs `vars[j]`. */
  predicate WritesWith(ops: seq<Operation>, vars: seq<seq<(nat, nat)>>, j: nat, t: nat)
    requires j < |ops| <= |vars|
  {
    ops[j].Assignment? && t in Targets(ops[j].address, vars[j])
  }

  /** One step of the memory: the keys and values after operation `n - 1`. */
  lemma MemoryStep(ops: seq<Operation>, vars: seq<seq<(nat, nat)>>, n: nat, t: nat)
    requires 0 < n <= |ops| <= |vars|
    ensures t in MemoryWith(ops, vars, n) <==> t in MemoryWith(ops, vars, n - 1) || WritesWith(ops, vars, n - 1, t)
    ensures WritesWith(ops, vars, n - 1, t) ==> MemoryWith(ops, vars, n)[t] == ops[n - 1].value
    ensures !WritesWith(ops, vars, n - 1, t) && t in MemoryWith(ops, vars, n) ==> MemoryWith(ops, vars, n)[t] == MemoryWith(ops, vars, n - 1)[t]
  {
  }

  /** An address holding a value after the first `m` operations holds one after any later prefix. */
  lemma {:induction false} MemoryGrows(ops: seq<Operation>, vars: seq<seq<(nat, nat)>>, m: nat, n: nat, t: nat)
    requires m <= n <= |ops| <= |vars| && t in MemoryWith(ops, vars, m)
    ensures t in MemoryWith(ops, vars, n)
    decreases n
  {
    if m < n {
      MemoryGrows(ops, vars, m, n - 1, t);
      MemoryStep(ops, vars, n, t);
    }
  }

  /** Operations `m` to `n` that do not write to `t` keep its value. */
  lemma {:induction false} MemoryKeeps(ops: seq<Operation>, vars: seq<seq<(nat, nat)>>, m: nat, n: nat, t: nat)
    requires m <= n <= |ops| <= |vars| && t in MemoryWith(ops, vars, m)
    requires forall k :: m <= k < n ==> !WritesWith(ops, vars, k, t)
    ensures t in MemoryWith(ops, vars, n) && MemoryWith(ops, vars, n)[t] == MemoryWith(ops, vars, m)[t]
    decreases n
  {
    if m < n {
      MemoryKeeps(ops, vars, m, n - 1, t);
      MemoryStep(ops, vars, n, t);
    }
  }

  /** An address holding a value after the first `n` operations was written by one of them. */
  lemma {:induction false} MemoryWriter(ops: seq<Operation>, vars: seq<seq<(nat, nat)>>, n: nat, t: nat) returns (j: nat)
    requires n <= |ops| <= |vars| && t in MemoryWith(ops, vars, n)
    ensures j < n && WritesWith(ops, vars, j, t)
    decreases n
  {
    assert n > 0;
    MemoryStep(ops, vars, n, t);
    if WritesWith(ops, vars, n - 1, t) {
      j := n - 1;
    } else {
      j := MemoryWriter(ops, vars, n - 1, t);
    }
  }

  /** The writes of part 2 are those through the table of pairs in force. */
  lemma WritesToTable(ops: seq<Operation>, j: nat, t: nat)
    requires MasksValid(ops) && j < |ops|
    ensures WritesTo(ops, j, t) == WritesWith(ops, VarTable(ops), j, t)
  {
  }

  /** An address holds a value iff some assignment wrote to it. */
  lemma Memory2Keys(ops: seq<Operation>, t: nat)
    requires MasksValid(ops)
    ensures t in Memory2(ops) <==> exists j :: 0 <= j < |ops| && WritesTo(ops, j, t)
  {
    var vars := VarTable(ops);
    if t in Memory2(ops) {
      var j := MemoryWriter(ops, vars, |ops|, t);
      WritesToTable(ops, j, t);
    }
    if j :| 0 <= j < |ops| && WritesTo(ops, j, t) {
      WritesToTable(ops, j, t);
      MemoryStep(ops, vars, j + 1, t);
      MemoryGrows(ops, vars, j + 1, |ops|, t);
    }
  }

  /** An address holds the value of the last assignment that wrote to it. */
  lemma Memory2LastWrite(ops: seq<Operation>, t: nat, j: nat)
    requires MasksValid(ops) && j < |ops| && WritesTo(ops, j, t)
    requires forall k :: j < k < |ops| ==> !WritesTo(ops, k, t)
    ensures t in Memory2(ops) && Memory2(ops)[t] == ops[j].value
  {
    var vars := VarTable(ops);
    WritesToTable(ops, j, t);
    MemoryStep(ops, vars, j + 1, t);
    forall k | j + 1 <= k < |ops| ensures !WritesWith(ops, vars, k, t) {
      WritesToTable(ops, k, t);
    }
    MemoryKeeps(ops, vars, j + 1, |ops|, t);
  }

  /** One more operation of the program, in part 2. */
  lemma Memory2Prefix(ops: seq<Operation>, k: nat)
    requires MasksValid(ops) && k < |ops|
    ensures ops[k].Mask? ==> VariationsAt(ops, k + 1) == Variations(ops[k].mask)
                             && MemoryWith(ops, VarTable(ops), k + 1) == MemoryWith(ops, VarTable(ops), k)
    ensures ops[k].Assignment? ==> && VariationsAt(ops, k + 1) == VariationsAt(ops, k)
                                   && MemoryWith(ops, VarTable(ops), k + 1)
                                      == WriteAll(MemoryWith(ops, VarTable(ops), k), ops[k].address, ops[k].value, VariationsAt(ops, k))
  {
  }

  /** The inner loop of `part2`: every pair's address gets the value. */
  method WriteVariations(memory: map<nat, nat>, address: nat, value: nat, vs: seq<(nat, nat)>) returns (m: map<nat, nat>)
    ensures m == WriteAll(memory, address, value, vs)
  {
    m := memory;
    for j := 0 to |vs|
      invariant m == WriteAll(memory, address, value, vs[..j])
    {
      assert vs[..j + 1][..j] == vs[..j];
      var (orMask, andMask) := vs[j];
      m := m[Masked(address, andMask, orMask) := value];
    }
    assert vs[..|vs|] == vs;
  }

  /** `part2`: run the program with floating addresses, then sum the memory. */
  method Part2(ops: seq<Operation>) returns (memory: map<nat, nat>, sum: nat)
    requires MasksValid(ops)
    ensures memory == Memory2(ops) && sum == SumValues(memory)
  {
    memory := map[];
    var maskVariations: seq<(nat, nat)> := [];
    for k := 0 to |ops|
      invariant maskVariations == VariationsAt(ops, k) && memory == MemoryWith(ops, VarTable(ops), k)
    {
      Memory2Prefix(ops, k);
      match ops[k]
      case Mask(m) => {
        maskVariations := FindMaskVariations(m);
      }
      case Assignment(address, value) => {
        memory := WriteVariations(memory, address, value, maskVariations);
      }
    }
    sum := SumMemory(memory);
  }

  // ---------------------------------------------------------------------------------------------
  // Parsing
  /** One line of the program: a line starting with "mask" is a mask, its third word; any other
      line is `mem[<address>] = <value>`, the address read from the fifth character to the one
      before last of the text before " = ". `None` where the source panics (a missing word or
      part, an address text shorter than five characters, a number that does not parse). */
  function ParseLine(line: string): Option<Operation> {
    if "mask" <= line then
      var words := Words(line);
      if |words| < 3 then None else Some(Mask(words[2]))
    else
      var parts := SplitStr(line, " = ");
      var address := parts[0];
      if |address| < 5 || |parts| < 2 then None
      else
        var a, v := ParseUsize(address[4..|address| - 1]), ParseUsize(parts[1]);
        if a.Some? && v.Some? then Some(Assignment(a.value, v.value)) else None
  }

  /** `parse_input`: every line parsed; `None` if any line is malformed. */
  function ParseLines(lines: seq<string>): (r: Option<seq<Operation>>)
    ensures r.Some? <==> forall i :: 0 <= i < |lines| ==> ParseLine(lines[i]).Some?
    ensures r.Some? ==> |r.value| == |lines| && forall i :: 0 <= i < |lines| ==> r.value[i] == ParseLine(lines[i]).value
  {
    if |lines| == 0 then Some([])
    else
      var first, rest := ParseLine(lines[0]), ParseLines(lines[1..]);
      if first.Some? && rest.Some? then Some([first.value] + rest.value) else None
  }

  function ParseInput(text: string): Option<seq<Operation>> {
    ParseLines(Lines(text))
  }

  /** A mask line as the puzzle writes it parses to that mask. */
  lemma ParseMaskLine(mask: string)
    requires ValidMask(mask)
    ensures ParseLine("mask = " + mask) == Some(Mask(mask))
  {
    assert "mask" <= "mask = " + mask;
    MaskWords(mask);
  }

  lemma MaskWords(mask: string)
    requires ValidMask(mask)
    ensures Words("mask = " + mask) == ["mask", "=", mask]
  {
    var rest := "=" + [' '] + mask;
    assert "mask = " + mask == "mask" + [' '] + rest;
    MaskPieces(mask);
    SplitWhereFirst("mask", ' ', rest, IsWhitespace);
    assert SplitWhere("mask = " + mask, IsWhitespace) == ["mask", "=", mask];
    NonEmptyKeeps(["mask", "=", mask]);
  }

  lemma MaskPieces(mask: string)
    requires ValidMask(mask)
    ensures SplitWhere("=" + [' '] + mask, IsWhitespace) == ["=", mask]
  {
    assert forall c :: c in mask ==> !IsWhitespace(c);
    SplitWhereNone(mask, IsWhitespace);
    SplitWhereFirst("=", ' ', mask, IsWhitespace);
  }

  /** An assignment line as the puzzle writes it parses to that assignment. */
  lemma ParseAssignmentLine(address: nat, value: nat)
    requires address < USIZE && value < USIZE
    ensures ParseLine("mem[" + NatToString(address) + "] = " + NatToString(value)) == Some(Assignment(address, value))
  {
    var a, v := NatToString(address), NatToString(value);
    var left := "mem[" + a + "]";
    var line := "mem[" + a + "] = " + v;
    assert line[1] == 'e';
    assert !("mask" <= line);
    assert ' ' !in left by {
      assert forall c :: c in left ==> c in "mem[" || c in a || c == ']';
    }
    assert ' ' !in v;
    assert line == left + " = " + v;
    SplitStrFirst(left, " = ", v);
    SplitStrNone(v, " = ");
    assert left[4..|left| - 1] == a;
    ParseNatToString(address);
    ParseNatToString(value);
  }
}


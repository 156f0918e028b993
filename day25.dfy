/** Day 25: the door's and the card's public keys are powers of the subject number 7 modulo
    20201227. The loop sizes (the exponents) are recovered with the baby-step giant-step
    discrete logarithm, and the encryption key is one public key raised to the other loop size. */
module Day25 {
  import opened Wrappers
  import opened Arith

  const Modulus: nat := 20201227
  const Subject: nat := 7

  /** The ceiling of the square root of `Modulus`, the `m` that `babystep_giantstep` computes. */
  const Steps: nat := 4495

  /** `m` is the ceiling of the square root of `p`. */
  predicate IsCeilSqrt(m: nat, p: nat) {
    0 < m && Square(m - 1) < p <= Square(m)
  }

  function Square(x: int): int {
    x * x
  }

  lemma StepsIsCeilSqrt()
    ensures IsCeilSqrt(Steps, Modulus)
  {
  }

  /** One step of both loops of `babystep_giantstep`: `(e * x) % mod`. */
  function MulMod(e: nat, x: nat, p: nat): (r: nat)
    requires p > 0
    ensures r < p
  {
    e * x % p
  }

  /** The logarithm from giant step `i` and baby step `j`: `i * m + j`. */
  function Index(i: nat, m: nat, j: nat): nat {
    i * m + j
  }

  /** Multiplying by a residue is multiplying by the number, modulo `p`. */
  lemma ResidueMul(x: int, y: int, p: int)
    requires p > 0
    ensures (x % p) * y % p == x * y % p
  {
    var q, r := x / p, x % p;
    assert x * y == (q * y) * p + r * y by {
      assert x == q * p + r;
      MulAssoc(q, p, y);
    }
    var q2, r2 := (r * y) / p, (r * y) % p;
    assert x * y == (q * y + q2) * p + r2;
    DivModUnique(q * y + q2, r2, p);
  }

  /** The external `mod_exp(b, e, p)`: `b` to the power `e`, modulo `p`, by repeated
      multiplication. */
  function ModExp(b: nat, e: nat, p: nat): (r: nat)
    requires p > 0
    ensures r < p
  {
    if e == 0 then 1 % p else MulMod(ModExp(b, e - 1, p), b, p)
  }

  /** `mod_exp` computes the power modulo `p`. */
  lemma {:induction false} ModExpIsPow(b: nat, e: nat, p: nat)
    requires p > 0
    ensures ModExp(b, e, p) == Pow(b, e) % p
  {
    if e > 0 {
      ModExpIsPow(b, e - 1, p);
      ResidueMul(Pow(b, e - 1), b, p);
      assert Pow(b, e - 1) * b == Pow(b, e);
    }
  }

  lemma MulModComm(x: nat, y: nat, p: nat)
    requires p > 0
    ensures MulMod(x, y, p) == MulMod(y, x, p)
  {
    assert x * y == y * x;
  }

  lemma MulModReduced(x: nat, y: nat, p: nat)
    requires p > 0
    ensures MulMod(x % p, y, p) == MulMod(x, y, p) == MulMod(x, y % p, p)
  {
    ResidueMul(x, y, p);
    ResidueMul(y, x, p);
    assert x * y == y * x && (y % p) * x == x * (y % p);
  }

  lemma MulModAssoc(x: nat, y: nat, z: nat, p: nat)
    requires p > 0
    ensures MulMod(MulMod(x, y, p), z, p) == MulMod(x, MulMod(y, z, p), p)
  {
    MulModReduced(x * y, z, p);
    MulModReduced(x, y * z, p);
    MulAssoc(x, y, z);
  }

  /** Reducing the base first does not change the result. */
  lemma {:induction false} ModExpReduced(b: nat, e: nat, p: nat)
    requires p > 0
    ensures ModExp(b % p, e, p) == ModExp(b, e, p)
  {
    if e > 0 {
      ModExpReduced(b, e - 1, p);
      MulModReduced(ModExp(b, e - 1, p), b, p);
    }
  }

  /** A power of a power multiplies the exponents. */
  lemma {:induction false} PowMul(g: int, a: nat, b: nat)
    ensures Pow(Pow(g, a), b) == Pow(g, a * b)
  {
    if b > 0 {
      PowMul(g, a, b - 1);
      PowAdd(g, a, a * (b - 1));
      assert a + a * (b - 1) == a * b;
    }
  }

  /** Raising either public key to the other side's loop size yields the same key: both are
      `g` to the power `a * b`. */
  lemma KeyAgreement(g: nat, a: nat, b: nat, p: nat)
    requires p > 0
    ensures ModExp(ModExp(g, a, p), b, p) == ModExp(ModExp(g, b, p), a, p)
  {
    ModExpIsPow(g, a, p);
    ModExpIsPow(g, b, p);
    ModExpIsPow(Pow(g, a), b, p);
    ModExpIsPow(Pow(g, b), a, p);
    ModExpIsPow(g, a * b, p);
    ModExpReduced(Pow(g, a), b, p);
    ModExpReduced(Pow(g, b), a, p);
    PowMul(g, a, b);
    PowMul(g, b, a);
    assert a * b == b * a;
  }

  // ---------------------------------------------------------------------------------------------
  // babystep_giantstep

  /** `e` after `j` rounds of the baby-step loop: it starts at 1 and is multiplied by `g`. */
  function Baby(g: nat, p: nat, j: nat): (e: nat)
    requires p > 0
    ensures j > 0 ==> e < p
  {
    if j == 0 then 1 else MulMod(Baby(g, p, j - 1), g, p)
  }

  /** For a modulus above 1 the baby steps are the powers of `g`. */
  lemma {:induction false} BabyPowers(g: nat, p: nat, j: nat)
    requires p > 1
    ensures Baby(g, p, j) == ModExp(g, j, p)
  {
    if j > 0 {
      BabyPowers(g, p, j - 1);
    }
  }

  /** `table` after `k` baby steps: `Baby(j)` is mapped to `j`, a later `j` overwriting an
      earlier one with the same key. */
  function Table(g: nat, p: nat, k: nat): map<nat, nat>
    requires p > 0
  {
    if k == 0 then map[] else Table(g, p, k - 1)[Baby(g, p, k - 1) := k - 1]
  }

  /** Every baby step is a key of the table. */
  lemma {:induction false} TableHasBabies(g: nat, p: nat, k: nat)
    requires p > 0
    ensures forall j :: 0 <= j < k ==> Baby(g, p, j) in Table(g, p, k)
  {
    if k > 0 {
      TableHasBabies(g, p, k - 1);
    }
  }

  /** Each key maps to a baby step with that value. */
  lemma {:induction false} TableValues(g: nat, p: nat, k: nat)
    requires p > 0
    ensures forall e :: e in Table(g, p, k) ==> Table(g, p, k)[e] < k && Baby(g, p, Table(g, p, k)[e]) == e
  {
    if k > 0 {
      TableValues(g, p, k - 1);
      var t', b, t := Table(g, p, k - 1), Baby(g, p, k - 1), Table(g, p, k);
      assert t == t'[b := k - 1];
      forall e | e in t
        ensures t[e] < k && Baby(g, p, t[e]) == e
      {
        if e != b {
          assert e in t' && t[e] == t'[e];
        }
      }
    }
  }

  /** Each key maps to the last baby step with that value. */
  lemma {:induction false} TableLast(g: nat, p: nat, k: nat)
    requires p > 0
    ensures forall e, j :: e in Table(g, p, k) && Table(g, p, k)[e] < j < k ==> Baby(g, p, j) != e
  {
    if k > 0 {
      TableLast(g, p, k - 1);
      var t', b, t := Table(g, p, k - 1), Baby(g, p, k - 1), Table(g, p, k);
      assert t == t'[b := k - 1];
      forall e, j | e in t && t[e] < j < k
        ensures Baby(g, p, j) != e
      {
        if e != b {
          assert e in t' && t[e] == t'[e];
        }
      }
    }
  }

  /** `e` after `i` rounds of the giant-step loop: it starts at `h` and is multiplied by
      `factor`. */
  function Giant(h: nat, factor: nat, p: nat, i: nat): nat
    requires p > 0
  {
    if i == 0 then h else MulMod(Giant(h, factor, p, i - 1), factor, p)
  }

  /** The giant steps are `h` times the powers of `factor`. */
  lemma {:induction false} GiantPowers(h: nat, factor: nat, p: nat, i: nat)
    requires p > 0
    ensures i > 0 || h < p ==> Giant(h, factor, p, i) == MulMod(h, ModExp(factor, i, p), p)
  {
    if i > 1 {
      GiantPowers(h, factor, p, i - 1);
      MulModAssoc(h, ModExp(factor, i - 1, p), factor, p);
    } else if i == 1 {
      MulModReduced(1, factor, p);
      MulModReduced(h, factor, p);
      assert ModExp(factor, 1, p) == MulMod(1, factor, p) == factor % p;
    } else if h < p {
      assert ModExp(factor, 0, p) == 1 % p;
      MulModReduced(h, 1, p);
      assert h * 1 == h;
    }
  }

  /** `mod_exp(g, mod - m - 1, mod)`, the multiplier of the giant steps. */
  function Factor(g: nat, p: nat, m: nat): nat
    requires m < p
  {
    ModExp(g, p - m - 1, p)
  }

  /** The first giant step at or after `i`, and before `m`, that is a key of `table`. */
  function FirstHit(table: map<nat, nat>, h: nat, factor: nat, p: nat, m: nat, i: nat): (r: Option<nat>)
    requires p > 0
    ensures r.Some? ==> i <= r.value < m && Giant(h, factor, p, r.value) in table
    ensures r.Some? ==> forall k :: i <= k < r.value ==> Giant(h, factor, p, k) !in table
    ensures r.None? ==> forall k :: i <= k < m ==> Giant(h, factor, p, k) !in table
    decreases m - i
  {
    if i >= m then None
    else if Giant(h, factor, p, i) in table then Some(i)
    else FirstHit(table, h, factor, p, m, i + 1)
  }

  /** The answer of `babystep_giantstep(g, p, h)` with `m` the ceiling of the square root of
      `p`: `i * m + j` for the first hit `i` and `j = table[e]`. */
  function Dlog(g: nat, p: nat, h: nat, m: nat): Option<nat>
    requires 0 < m < p
  {
    var table := Table(g, p, m);
    var factor := Factor(g, p, m);
    match FirstHit(table, h, factor, p, m, 0)
    case None => None
    case Some(i) => Some(Index(i, m, table[Giant(h, factor, p, i)]))
  }

  /** The ceiling of the square root of a modulus above 2 is below the modulus, so
      `mod - m - 1` does not underflow. */
  lemma CeilSqrtBelow(m: nat, p: nat)
    requires 2 < p && IsCeilSqrt(m, p)
    ensures m < p
  {
    if m >= p {
      MulMono(p - 1, m - 1, m - 1);
      MulMono(p - 1, m - 1, p - 1);
      assert (p - 1) * (p - 1) == p * p - 2 * p + 1;
      MulMono(3, p, p);
    }
  }

  /** What a hit means: `h * factor^i` and `g^j` agree modulo `p`, with `i` the first giant step
      that hits and `j` the last baby step with that value; `None` means no giant step hits. */
  lemma DlogMeaning(g: nat, p: nat, h: nat, m: nat)
    requires 2 < p && 0 < m < p && h < p
    ensures var r := Dlog(g, p, h, m);
      r.None? <==> forall i :: 0 <= i < m ==> Giant(h, Factor(g, p, m), p, i) !in Table(g, p, m)
    ensures var r := Dlog(g, p, h, m);
      r.Some? ==>
        exists i, j ::
          0 <= i < m && 0 <= j < m && r.value == Index(i, m, j) &&
          MulMod(h, ModExp(Factor(g, p, m), i, p), p) == ModExp(g, j, p) &&
          forall j' :: j < j' < m ==> ModExp(g, j', p) != ModExp(g, j, p)
  {
    var table, factor := Table(g, p, m), Factor(g, p, m);
    var hit := FirstHit(table, h, factor, p, m, 0);
    if hit.Some? {
      var i := hit.value;
      var e := Giant(h, factor, p, i);
      TableValues(g, p, m);
      TableLast(g, p, m);
      var j := table[e];
      GiantPowers(h, factor, p, i);
      BabyPowers(g, p, j);
      forall j' | j < j' < m
        ensures ModExp(g, j', p) != ModExp(g, j, p)
      {
        BabyPowers(g, p, j');
      }
      assert 0 <= i < m && 0 <= j < m && Dlog(g, p, h, m).value == Index(i, m, j);
    }
  }

  /** `babystep_giantstep(g, mod, h)`: fills `table` with the baby steps, then walks the giant
      steps until one is a key of `table`. `m` is passed in rather than computed with a
      floating-point square root. */
  method BabystepGiantstep(g: nat, p: nat, h: nat, m: nat) returns (r: Option<nat>)
    requires 2 < p && IsCeilSqrt(m, p)
    ensures m < p && r == Dlog(g, p, h, m)
  {
    CeilSqrtBelow(m, p);
    var table: map<nat, nat> := map[];
    var e := 1;
    for j := 0 to m
      invariant table == Table(g, p, j) && e == Baby(g, p, j)
    {
      table := table[e := j];
      e := MulMod(e, g, p);
    }
    var factor := ModExp(g, p - m - 1, p);
    e := h;
    for i := 0 to m
      invariant e == Giant(h, factor, p, i)
      invariant FirstHit(table, h, factor, p, m, i) == FirstHit(table, h, factor, p, m, 0)
    {
      if e in table {
        return Some(Index(i, m, table[e]));
      }
      e := MulMod(e, factor, p);
    }
    return None;
  }

  lemma ExampleTable()
    ensures Table(2, 11, 4) == map[1 := 0, 2 := 1, 4 := 2, 8 := 3]
  {
    assert Baby(2, 11, 1) == 2 && Baby(2, 11, 2) == 4 && Baby(2, 11, 3) == 8;
  }

  lemma ExamplePowers()
    ensures Factor(2, 11, 4) == 9 && ModExp(2, 4, 11) == 5
  {
    ModExpIsPow(2, 4, 11);
    ModExpIsPow(2, 6, 11);
    assert Pow(2, 4) == 16 && Pow(2, 6) == 64;
  }

  lemma ExampleHit()
    ensures FirstHit(map[1 := 0, 2 := 1, 4 := 2, 8 := 3], 5, 9, 11, 4, 0) == Some(1)
    ensures Giant(5, 9, 11, 1) == 1
  {
    assert Giant(5, 9, 11, 1) == 1;
  }

  /** A small instance: modulo 11 with m = 4, the baby steps of 2 are 1, 2, 4, 8; the first giant
      step 5 misses and the second, 5 * 2^6 mod 11 = 1, hits at j = 0, so the logarithm of 5 is
      1 * 4 + 0 = 4, and indeed 2^4 mod 11 = 5. */
  lemma DlogExample()
    ensures Dlog(2, 11, 5, 4) == Some(4) && ModExp(2, 4, 11) == 5
  {
    ExampleTable();
    ExamplePowers();
    ExampleHit();
    var table := Table(2, 11, 4);
    assert FirstHit(table, 5, Factor(2, 11, 4), 11, 4, 0) == Some(1);
    assert table[Giant(5, 9, 11, 1)] == 0;
  }

  // ---------------------------------------------------------------------------------------------
  // part1

  /** `part1`: the two loop sizes, then the encryption key computed from both sides; `None` where
      the source panics (a loop size not found, or the two keys differing). */
  method Part1(pkey1: nat, pkey2: nat) returns (r: Option<nat>)
    ensures var card, door := Dlog(Subject, Modulus, pkey1, Steps), Dlog(Subject, Modulus, pkey2, Steps);
      r.Some? <==> card.Some? && door.Some? && ModExp(pkey1, door.value, Modulus) == ModExp(pkey2, card.value, Modulus)
    ensures r.Some? ==> r.value == ModExp(pkey1, Dlog(Subject, Modulus, pkey2, Steps).value, Modulus) && r.value < Modulus
  {
    StepsIsCeilSqrt();
    var loopSizeCard := BabystepGiantstep(Subject, Modulus, pkey1, Steps);
    var loopSizeDoor := BabystepGiantstep(Subject, Modulus, pkey2, Steps);
    if loopSizeCard.None? || loopSizeDoor.None? {
      return None;
    }
    var encKey1 := ModExp(pkey1, loopSizeDoor.value, Modulus);
    var encKey2 := ModExp(pkey2, loopSizeCard.value, Modulus);
    if encKey1 != encKey2 {
      return None;
    }
    return Some(ModExp(pkey1, loopSizeDoor.value, Modulus));
  }

  /** When the loop sizes found are true exponents of the public keys, the assertion of `part1`
      holds. */
  lemma Part1Agrees(pkey1: nat, pkey2: nat, card: nat, door: nat)
    requires pkey1 == ModExp(Subject, card, Modulus) && pkey2 == ModExp(Subject, door, Modulus)
    ensures ModExp(pkey1, door, Modulus) == ModExp(pkey2, card, Modulus)
  {
    KeyAgreement(Subject, card, door, Modulus);
  }
}

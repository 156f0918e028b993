/** Day 4: passports. A batch is split into passports at blank lines; a passport is a set of
    `key:value` fields separated by whitespace. */
module Day04 {
  import opened Wrappers
  import opened Text

  type Passport = map<string, string>

  /** The whitespace-separated words, each split at ':', flattened in order. */
  function Tokens(words: seq<string>): (r: seq<string>)
    ensures |r| >= |words|
  {
    if |words| == 0 then [] else Split(words[0], ':') + Tokens(words[1..])
  }

  /** `keys.zip(values).collect()`: tokens 0, 2, 4, ... are keys, each followed by its value; an
      unpaired last token is dropped, and a later key overwrites an earlier one. */
  function FromPairs(t: seq<string>): Passport
    decreases |t|
  {
    if |t| < 2 then map[]
    else
      var m := FromPairs(t[2..]);
      if t[0] in m then m else m[t[0] := t[1]]
  }

  /** A key position: an even token index with a following value token. */
  predicate KeyAt(t: seq<string>, i: int) {
    0 <= i < |t| - 1 && i % 2 == 0
  }

  /** `i` is the last key position holding its key. */
  predicate LastKeyAt(t: seq<string>, i: int) {
    KeyAt(t, i) && forall j :: i < j < |t| && KeyAt(t, j) ==> t[j] != t[i]
  }

  /** The keys are exactly the tokens at key positions, and each key's value is the token after its
      last key position. */
  lemma {:induction false} FromPairsSpec(t: seq<string>)
    ensures forall k :: k in FromPairs(t) <==> exists i :: KeyAt(t, i) && t[i] == k
    ensures forall i {:trigger LastKeyAt(t, i)} :: LastKeyAt(t, i) ==> t[i] in FromPairs(t) && FromPairs(t)[t[i]] == t[i + 1]
    decreases |t|
  {
    if |t| >= 2 {
      var rest := t[2..];
      FromPairsSpec(rest);
      forall p | KeyAt(rest, p) ensures KeyAt(t, p + 2) && t[p + 2] == rest[p] {}
      forall p | KeyAt(t, p) && p >= 2 ensures KeyAt(rest, p - 2) && rest[p - 2] == t[p] {}
      forall key ensures key in FromPairs(t) <==> exists i :: KeyAt(t, i) && t[i] == key {
        KeysStep(t, rest, key);
      }
      forall p | LastKeyAt(t, p)
        ensures t[p] in FromPairs(t) && FromPairs(t)[t[p]] == t[p + 1]
      {
        LastStep(t, rest, p);
      }
    }
  }

  lemma KeysStep(t: seq<string>, rest: seq<string>, key: string)
    requires |t| >= 2 && rest == t[2..]
    requires key in FromPairs(rest) <==> exists i :: KeyAt(rest, i) && rest[i] == key
    ensures key in FromPairs(t) <==> exists i :: KeyAt(t, i) && t[i] == key
  {
    if key in FromPairs(rest) {
      var p :| KeyAt(rest, p) && rest[p] == key;
      assert KeyAt(t, p + 2) && t[p + 2] == key;
    } else if key == t[0] {
      assert KeyAt(t, 0);
    }
  }

  lemma LastStep(t: seq<string>, rest: seq<string>, p: int)
    requires |t| >= 2 && rest == t[2..] && LastKeyAt(t, p)
    requires forall k :: k in FromPairs(rest) <==> exists i :: KeyAt(rest, i) && rest[i] == k
    requires forall i {:trigger LastKeyAt(rest, i)} :: LastKeyAt(rest, i) ==> rest[i] in FromPairs(rest) && FromPairs(rest)[rest[i]] == rest[i + 1]
    ensures t[p] in FromPairs(t) && FromPairs(t)[t[p]] == t[p + 1]
  {
    if p == 0 {
      FirstKeyStep(t, rest);
    } else {
      assert KeyAt(rest, p - 2) && rest[p - 2] == t[p];
      forall n | p - 2 < n && KeyAt(rest, n) ensures rest[n] != rest[p - 2] {
        assert KeyAt(t, n + 2);
      }
      assert LastKeyAt(rest, p - 2);
      LaterKeyStep(t, rest, p);
    }
  }

  /** A later key keeps the value the rest gives it, whether or not it is also the first key. */
  lemma LaterKeyStep(t: seq<string>, rest: seq<string>, p: int)
    requires |t| >= 2 && rest == t[2..] && 2 <= p < |t| - 1
    requires rest[p - 2] in FromPairs(rest) && FromPairs(rest)[rest[p - 2]] == rest[p - 1]
    ensures t[p] in FromPairs(t) && FromPairs(t)[t[p]] == t[p + 1]
  {
    assert rest[p - 2] == t[p] && rest[p - 1] == t[p + 1];
  }

  /** A first key that does not come back is new to the rest, so it takes the first value. */
  lemma FirstKeyStep(t: seq<string>, rest: seq<string>)
    requires |t| >= 2 && rest == t[2..] && LastKeyAt(t, 0)
    requires forall k :: k in FromPairs(rest) <==> exists i :: KeyAt(rest, i) && rest[i] == k
    ensures t[0] in FromPairs(t) && FromPairs(t)[t[0]] == t[1]
  {
    forall i | KeyAt(rest, i) ensures rest[i] != t[0] {
      assert KeyAt(t, i + 2);
    }
    assert t[0] !in FromPairs(rest);
  }

  /** `parse_passport`. */
  function ParsePassport(raw: string): Passport {
    FromPairs(Tokens(Words(raw)))
  }

  /** `parse_input`: the passports are the pieces of `split_terminator("\n\n")`. */
  function ParseInput(input: string): (r: seq<Passport>)
    ensures |r| == |SplitTerminatorStr(input, "\n\n")|
    ensures forall i :: 0 <= i < |r| ==> r[i] == ParsePassport(SplitTerminatorStr(input, "\n\n")[i])
  {
    var pieces := SplitTerminatorStr(input, "\n\n");
    seq(|pieces|, i requires 0 <= i < |pieces| => ParsePassport(pieces[i]))
  }

  /** The seven fields both parts require; `cid` is not among them. */
  const Required: seq<string> := ["byr", "iyr", "eyr", "hgt", "hcl", "ecl", "pid"]

  predicate HasRequired(p: Passport) {
    forall f :: f in Required ==> f in p
  }

  /** `cid` is optional: adding or replacing it never changes whether a passport has the
      required fields. */
  lemma CidOptional(p: Passport, v: string)
    ensures HasRequired(p["cid" := v]) <==> HasRequired(p)
  {
    assert "cid" !in Required;
  }

  /** `validate_passport` matches on these keys and reaches `unreachable!()` on any other. */
  predicate KnownKey(k: string) {
    k in Required || k == "cid"
  }

  /** `hgt` slices off its last two characters, which panics on a shorter value. */
  predicate Checkable(k: string, v: string) {
    KnownKey(k) && (k == "hgt" ==> |v| >= 2)
  }

  const I32_MIN: int := -0x8000_0000
  const I32_MAX: int := 0x7FFF_FFFF

  /** `value.parse::<i32>().unwrap_or(0)`. */
  function ParseOrZero(s: string): (n: int)
    ensures I32_MIN <= n <= I32_MAX
  {
    match ParseInt(s)
    case Some(n) => if I32_MIN <= n <= I32_MAX then n else 0
    case None => 0
  }

  predicate IsHexDigit(c: char) {
    IsDigit(c) || 'a' <= c <= 'f' || 'A' <= c <= 'F'
  }

  /** The arm of `validate_passport` for one field. */
  predicate ValidField(k: string, v: string)
    requires Checkable(k, v)
  {
    if k == "byr" then 1920 <= ParseOrZero(v) <= 2002
    else if k == "iyr" then 2010 <= ParseOrZero(v) <= 2020
    else if k == "eyr" then 2020 <= ParseOrZero(v) <= 2030
    else if k == "hgt" then
      var height := ParseOrZero(v[..|v| - 2]);
      var unit := v[|v| - 2..];
      if unit == "cm" then 150 <= height <= 193
      else if unit == "in" then 59 <= height <= 76
      else false
    else if k == "hcl" then |v| == 7 && v[0] == '#' && forall c :: c in v[1..] ==> IsHexDigit(c)
    else if k == "ecl" then v in ["amb", "blu", "brn", "gry", "grn", "hzl", "oth"]
    else if k == "pid" then |v| == 9 && forall c :: c in v ==> IsDigit(c)
    else true
  }

  /** Every field of the passport can be checked without a panic. */
  predicate CheckablePassport(p: Passport) {
    forall k :: k in p ==> Checkable(k, p[k])
  }

  /** `validate_passport`: every field passes its check, in whatever order the map is visited. */
  predicate ValidatePassport(p: Passport)
    requires CheckablePassport(p)
  {
    forall k :: k in p ==> ValidField(k, p[k])
  }

  /** `part1`: the number of passports with all required fields. */
  function Part1(ps: seq<Passport>): (n: nat)
    ensures n <= |ps|
    ensures n == |ps| <==> forall i :: 0 <= i < |ps| ==> HasRequired(ps[i])
    ensures n == 0 <==> forall i :: 0 <= i < |ps| ==> !HasRequired(ps[i])
  {
    if |ps| == 0 then 0 else (if HasRequired(ps[0]) then 1 else 0) + Part1(ps[1..])
  }

  /** `part2` validates only the passports that passed the first filter. */
  predicate Part2Checkable(ps: seq<Passport>) {
    forall i :: 0 <= i < |ps| && HasRequired(ps[i]) ==> CheckablePassport(ps[i])
  }

  /** `part2`: the number of passports with all required fields that also validate. */
  function Part2(ps: seq<Passport>): (n: nat)
    requires Part2Checkable(ps)
  {
    if |ps| == 0 then 0
    else (if HasRequired(ps[0]) && ValidatePassport(ps[0]) then 1 else 0) + Part2(ps[1..])
  }

  /** The second filter only removes passports. */
  lemma {:induction false} Part2AtMostPart1(ps: seq<Passport>)
    requires Part2Checkable(ps)
    ensures Part2(ps) <= Part1(ps)
  {
    if |ps| > 0 {
      Part2AtMostPart1(ps[1..]);
    }
  }

  /** A year field holds exactly the years of its range, written in decimal. */
  lemma YearField(k: string, n: nat)
    requires k in ["byr", "iyr", "eyr"]
    ensures Checkable(k, NatToString(n))
    ensures k == "byr" ==> (ValidField(k, NatToString(n)) <==> 1920 <= n <= 2002)
    ensures k == "iyr" ==> (ValidField(k, NatToString(n)) <==> 2010 <= n <= 2020)
    ensures k == "eyr" ==> (ValidField(k, NatToString(n)) <==> 2020 <= n <= 2030)
  {
    ParseIntToString(n);
  }

  /** A height is a decimal number and a unit; only "cm" in [150, 193] and "in" in [59, 76] pass. */
  lemma HeightField(n: nat, unit: string)
    requires |unit| == 2
    ensures Checkable("hgt", NatToString(n) + unit)
    ensures ValidField("hgt", NatToString(n) + unit) <==>
              (unit == "cm" && 150 <= n <= 193) || (unit == "in" && 59 <= n <= 76)
  {
    var v := NatToString(n) + unit;
    assert v[..|v| - 2] == NatToString(n) && v[|v| - 2..] == unit;
    ParseIntToString(n);
  }

  /** A value that does not parse as a number counts as 0 and fails every year range. */
  lemma UnparsableYear(k: string, v: string)
    requires k in ["byr", "iyr", "eyr"] && ParseInt(v).None?
    ensures Checkable(k, v) && !ValidField(k, v)
  {
  }

  lemma ParseIntToString(n: nat)
    ensures ParseInt(NatToString(n)) == Some(n)
    ensures n <= I32_MAX ==> ParseOrZero(NatToString(n)) == n
    ensures n > I32_MAX ==> ParseOrZero(NatToString(n)) == 0
  {
    DigitsOfNatToString(n);
  }
}

/** Day 2: password policies. Each input line is `min-max c: password`. */
module Day02 {
  import opened Wrappers
  import opened Text

  /** Rust's `u8`. */
  newtype u8 = x: int | 0 <= x < 256

  datatype PasswordRule = PasswordRule(min: u8, max: u8, ch: char, password: string)

  /** `password.chars().filter(|c| c == ch).count()`. */
  function Count(s: string, ch: char): (n: nat)
    ensures n <= |s|
  {
    if |s| == 0 then 0 else (if s[0] == ch then 1 else 0) + Count(s[1..], ch)
  }

  /** The filter-count is the number of occurrences of `ch`. */
  lemma {:induction false} CountIsMultiplicity(s: string, ch: char)
    ensures Count(s, ch) == multiset(s)[ch]
  {
    if |s| > 0 {
      CountIsMultiplicity(s[1..], ch);
      assert s == [s[0]] + s[1..];
      assert multiset(s) == multiset{s[0]} + multiset(s[1..]);
    }
  }

  /** `is_valid`: the count, cast to `u8` (so taken modulo 256), lies in `[min, max]`. */
  predicate IsValid(rule: PasswordRule) {
    var count := (Count(rule.password, rule.ch) % 256) as u8;
    rule.min <= count <= rule.max
  }

  /** For a password shorter than 256 characters the cast changes nothing: the rule holds
      exactly when `ch` occurs between `min` and `max` times. */
  lemma IsValidOccurrences(rule: PasswordRule)
    requires |rule.password| < 256
    ensures IsValid(rule) <==> rule.min as int <= multiset(rule.password)[rule.ch] <= rule.max as int
  {
    CountIsMultiplicity(rule.password, rule.ch);
  }

  /** `is_valid2` indexes the password at `min - 1` and `max - 1` and unwraps: both positions
      must exist (and `min - 1` must not underflow). */
  predicate Positioned(rule: PasswordRule) {
    1 <= rule.min as int <= |rule.password| && 1 <= rule.max as int <= |rule.password|
  }

  /** `is_valid2`: exactly one of the two 1-based positions holds `ch`. */
  predicate IsValid2(rule: PasswordRule)
    requires Positioned(rule)
  {
    (rule.password[rule.min - 1] == rule.ch) != (rule.password[rule.max - 1] == rule.ch)
  }

  /** Of the two characters at the named positions exactly one is `ch`; in particular equal
      positions never make a valid password. */
  lemma IsValid2ExactlyOne(rule: PasswordRule)
    requires Positioned(rule)
    ensures IsValid2(rule) <==> Count([rule.password[rule.min - 1], rule.password[rule.max - 1]], rule.ch) == 1
    ensures rule.min == rule.max ==> !IsValid2(rule)
  {
    var pair := [rule.password[rule.min - 1], rule.password[rule.max - 1]];
    assert pair[1..][1..] == [];
  }

  /** `part1`: the rules that pass `is_valid`, in input order. */
  function Part1(rules: seq<PasswordRule>): (r: seq<PasswordRule>)
    ensures forall x :: x in r <==> x in rules && IsValid(x)
    ensures |r| <= |rules|
  {
    if |rules| == 0 then [] else (if IsValid(rules[0]) then [rules[0]] else []) + Part1(rules[1..])
  }

  /** The filter works line by line, so it keeps input order and multiplicities. */
  lemma {:induction false} Part1Append(a: seq<PasswordRule>, b: seq<PasswordRule>)
    ensures Part1(a + b) == Part1(a) + Part1(b)
  {
    if |a| > 0 {
      assert (a + b)[0] == a[0] && (a + b)[1..] == a[1..] + b;
      Part1Append(a[1..], b);
    } else {
      assert a + b == b;
    }
  }

  /** `part2`: the rules that pass `is_valid2`, in input order. */
  function Part2(rules: seq<PasswordRule>): (r: seq<PasswordRule>)
    requires forall i :: 0 <= i < |rules| ==> Positioned(rules[i])
    ensures forall x :: x in r <==> x in rules && IsValid2(x)
    ensures |r| <= |rules|
  {
    if |rules| == 0 then [] else (if IsValid2(rules[0]) then [rules[0]] else []) + Part2(rules[1..])
  }

  lemma {:induction false} Part2Append(a: seq<PasswordRule>, b: seq<PasswordRule>)
    requires forall i :: 0 <= i < |a| ==> Positioned(a[i])
    requires forall i :: 0 <= i < |b| ==> Positioned(b[i])
    ensures forall i :: 0 <= i < |a + b| ==> Positioned((a + b)[i])
    ensures Part2(a + b) == Part2(a) + Part2(b)
  {
    if |a| > 0 {
      assert (a + b)[0] == a[0] && (a + b)[1..] == a[1..] + b;
      Part2Append(a[1..], b);
    } else {
      assert a + b == b;
    }
  }

  /** The separators of `read_input`'s split. */
  predicate IsFieldSep(c: char) {
    c == ' ' || c == ':' || c == '-'
  }

  /** `parse::<u8>()`. */
  function ParseU8(s: string): (r: Option<u8>)
    ensures r.Some? ==> ParseNat(s) == Some(r.value as nat)
  {
    match ParseNat(s)
    case Some(n) => if n < 256 then Some(n as u8) else None
    case None => None
  }

  /** One line of `read_input`: split at ' ', ':' and '-', drop empty pieces, then read the
      bounds, the first character of the third piece and the fourth piece. Any later pieces
      are ignored; a missing piece or an unparsable bound (a panic in the source) is `None`. */
  function ParseLine(line: string): (r: Option<PasswordRule>)
    ensures r.Some? ==> r.value.password != "" && !IsFieldSep(r.value.ch)
  {
    var parts := NonEmpty(SplitWhere(line, IsFieldSep));
    if |parts| < 4 then None
    else
      match (ParseU8(parts[0]), ParseU8(parts[1]))
      case (Some(lo), Some(hi)) =>
        assert parts[2] in SplitWhere(line, IsFieldSep) && parts[2][0] in parts[2];
        Some(PasswordRule(lo, hi, parts[2][0], parts[3]))
      case _ => None
  }

  /** A rule written out in the input format. */
  function Format(rule: PasswordRule): string {
    NatToString(rule.min as nat) + "-" + NatToString(rule.max as nat) + " " + [rule.ch] + ": " + rule.password
  }

  /** The pieces of a written rule, before empty ones are dropped. */
  lemma FormatPieces(lo: string, hi: string, ch: char, pw: string)
    requires forall c :: c in lo ==> !IsFieldSep(c)
    requires forall c :: c in hi ==> !IsFieldSep(c)
    requires !IsFieldSep(ch)
    requires forall c :: c in pw ==> !IsFieldSep(c)
    ensures SplitWhere(lo + "-" + hi + " " + [ch] + ": " + pw, IsFieldSep) == [lo, hi, [ch], "", pw]
  {
    var tail3 := "" + [' '] + pw;
    var tail2 := [ch] + [':'] + tail3;
    var tail1 := hi + [' '] + tail2;
    assert lo + "-" + hi + " " + [ch] + ": " + pw == lo + ['-'] + tail1;
    SplitWhereNone(pw, IsFieldSep);
    SplitWhereFirst("", ' ', pw, IsFieldSep);
    SplitWhereFirst([ch], ':', tail3, IsFieldSep);
    SplitWhereFirst(hi, ' ', tail2, IsFieldSep);
    SplitWhereFirst(lo, '-', tail1, IsFieldSep);
  }

  lemma NonEmptyPieces(lo: string, hi: string, ch: char, pw: string)
    requires lo != "" && hi != "" && pw != ""
    ensures NonEmpty([lo, hi, [ch], "", pw]) == [lo, hi, [ch], pw]
  {
    assert [lo, hi, [ch], "", pw] == [lo] + ([hi] + ([[ch]] + ([""] + [pw])));
    NonEmptyAppend([lo], [hi] + ([[ch]] + ([""] + [pw])));
    NonEmptyAppend([hi], [[ch]] + ([""] + [pw]));
    NonEmptyAppend([[ch]], [""] + [pw]);
    NonEmptyAppend([""], [pw]);
  }

  /** Parsing a written rule gives it back, provided neither the character nor the password
      contains a separator and the password is not empty. */
  lemma ParseFormat(rule: PasswordRule)
    requires !IsFieldSep(rule.ch) && rule.password != ""
    requires forall c :: c in rule.password ==> !IsFieldSep(c)
    ensures ParseLine(Format(rule)) == Some(rule)
  {
    var lo, hi := NatToString(rule.min as nat), NatToString(rule.max as nat);
    assert forall c :: c in lo ==> !IsFieldSep(c);
    assert forall c :: c in hi ==> !IsFieldSep(c);
    FormatPieces(lo, hi, rule.ch, rule.password);
    NonEmptyPieces(NatToString(rule.min as nat), NatToString(rule.max as nat), rule.ch, rule.password);
    ParseNatToString(rule.min as nat);
    ParseNatToString(rule.max as nat);
  }

  /** `read_input`: every line parsed; `None` if any line is malformed. */
  function ReadLines(lines: seq<string>): (r: Option<seq<PasswordRule>>)
    ensures r.Some? <==> forall i :: 0 <= i < |lines| ==> ParseLine(lines[i]).Some?
    ensures r.Some? ==> |r.value| == |lines| && forall i :: 0 <= i < |lines| ==> r.value[i] == ParseLine(lines[i]).value
  {
    if |lines| == 0 then Some([])
    else
      match (ParseLine(lines[0]), ReadLines(lines[1..]))
      case (Some(rule), Some(rest)) => Some([rule] + rest)
      case _ => None
  }

  function ReadInput(text: string): Option<seq<PasswordRule>> {
    ReadLines(Lines(text))
  }
}

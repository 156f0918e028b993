/** Day 6: customs declarations. Groups are separated by blank lines; each line of a group is
    one person's answers, one character per question. */
module Day06 {
  import opened Text
  import opened Arith

  /** `flat_map(|line| line.chars())`: the characters of all lines, in order. */
  function Concat(lines: seq<string>): (r: string)
    ensures forall c :: c in r <==> exists i :: 0 <= i < |lines| && c in lines[i]
  {
    if |lines| == 0 then "" else lines[0] + Concat(lines[1..])
  }

  /** `part1`'s group value: the number of distinct characters over the group's lines. */
  function Anyone(group: string): nat {
    |set c | c in Concat(Lines(group))|
  }

  /** `part2`'s fold: the number of times each character occurs. */
  function Tally(chars: string): (t: map<char, nat>)
    ensures forall c :: c in t <==> c in chars
    ensures forall c :: c in t ==> t[c] == multiset(chars)[c]
  {
    if |chars| == 0 then map[]
    else
      var init := chars[..|chars| - 1];
      var c := chars[|chars| - 1];
      assert chars == init + [c];
      var m := Tally(init);
      if c in m then m[c := m[c] + 1] else m[c := 1]
  }

  /** `part2`'s group value: the number of characters whose count equals the group's line count. */
  function Everyone(group: string): nat {
    var lines := Lines(group);
    var size := |lines|;
    var t := Tally(Concat(lines));
    |set c | c in t && t[c] == size|
  }

  /** `part1`: the sum of `Anyone` over the `split_terminator("\n\n")` groups. */
  function Part1(input: string): nat {
    SumAnyone(SplitTerminatorStr(input, "\n\n"))
  }

  function SumAnyone(groups: seq<string>): nat {
    if |groups| == 0 then 0 else Anyone(groups[0]) + SumAnyone(groups[1..])
  }

  /** `part2`: the sum of `Everyone` over the groups. */
  function Part2(input: string): nat {
    SumEveryone(SplitTerminatorStr(input, "\n\n"))
  }

  function SumEveryone(groups: seq<string>): nat {
    if |groups| == 0 then 0 else Everyone(groups[0]) + SumEveryone(groups[1..])
  }

  /** A character every person answered is one someone answered, so a group's `part2` value is at
      most its `part1` value. */
  lemma EveryoneAtMostAnyone(group: string)
    ensures Everyone(group) <= Anyone(group)
  {
    var lines := Lines(group);
    var t := Tally(Concat(lines));
    var size := |lines|;
    SubsetCard(set c | c in t && t[c] == size, set c | c in Concat(lines));
  }

  lemma {:induction false} SumsOrdered(groups: seq<string>)
    ensures SumEveryone(groups) <= SumAnyone(groups)
  {
    if |groups| > 0 {
      EveryoneAtMostAnyone(groups[0]);
      SumsOrdered(groups[1..]);
    }
  }

  /** The answer to `part2` never exceeds the answer to `part1`. */
  lemma Part2AtMostPart1(input: string)
    ensures Part2(input) <= Part1(input)
  {
    SumsOrdered(SplitTerminatorStr(input, "\n\n"));
  }

  /** A person answers each question at most once. */
  predicate NoRepeats(line: string) {
    forall j, k :: 0 <= j < k < |line| ==> line[j] != line[k]
  }

  lemma {:induction false} NoRepeatsOnce(line: string, c: char)
    requires NoRepeats(line)
    ensures multiset(line)[c] == if c in line then 1 else 0
  {
    if |line| > 0 {
      assert line == [line[0]] + line[1..];
      NoRepeatsOnce(line[1..], c);
      if c == line[0] {
        assert c !in line[1..];
      }
    }
  }

  /** The number of lines that contain `c`. */
  function Containing(lines: seq<string>, c: char): (n: nat)
    ensures n <= |lines|
    ensures n == |lines| <==> forall i :: 0 <= i < |lines| ==> c in lines[i]
  {
    if |lines| == 0 then 0 else (if c in lines[0] then 1 else 0) + Containing(lines[1..], c)
  }

  lemma {:induction false} CountIsContaining(lines: seq<string>, c: char)
    requires forall i :: 0 <= i < |lines| ==> NoRepeats(lines[i])
    ensures multiset(Concat(lines))[c] == Containing(lines, c)
  {
    if |lines| > 0 {
      CountIsContaining(lines[1..], c);
      NoRepeatsOnce(lines[0], c);
    }
  }

  /** The characters on every line. */
  function AnsweredByAll(lines: seq<string>): set<char> {
    set c | c in Concat(lines) && forall i :: 0 <= i < |lines| ==> c in lines[i]
  }

  /** When no line repeats a character, `part2`'s count-equals-size test picks exactly the
      characters on every line of the group: the questions everyone answered. */
  lemma EveryoneAnswered(group: string)
    requires forall i :: 0 <= i < |Lines(group)| ==> NoRepeats(Lines(group)[i])
    ensures Everyone(group) == |AnsweredByAll(Lines(group))|
  {
    var lines := Lines(group);
    var t := Tally(Concat(lines));
    var size := |lines|;
    var picked := set c | c in t && t[c] == size;
    forall c ensures c in picked <==> c in AnsweredByAll(lines) {
      if c in t {
        CountIsContaining(lines, c);
      }
    }
    assert picked == AnsweredByAll(lines);
  }
}

/** Day 8: the handheld console. A program is a list of (operation, argument) lines; the machine
    has an accumulator and an instruction pointer, and the puzzle is about the first instruction
    that would run twice. */
module Day08 {
  import opened Wrappers
  import opened Arith
  import opened Text

  /** One line of memory: the operation name and its signed argument. */
  type Instr = (string, int)

  /** The operations `evaluate_line` knows; any other one reaches `unreachable!()`. */
  predicate KnownOp(op: string) {
    op == "nop" || op == "acc" || op == "jmp"
  }

  /** A program the machine can run: every operation is known, and positions fit in a `usize`. */
  predicate Valid(program: seq<Instr>) {
    |program| < USIZE && forall i :: 0 <= i < |program| ==> KnownOp(program[i].0)
  }

  /** The machine state: `Computer { acc, ip }`. */
  datatype State = State(acc: int, ip: nat)

  /** `evaluate_line` on a state: `acc v` adds `v` to the accumulator, `jmp v` moves the pointer
      by `v` (a negative result wraps around, as the `as usize` cast does), and every operation
      except `jmp` then steps to the next line. */
  function Exec(s: State, line: Instr): State
    requires KnownOp(line.0)
  {
    if line.0 == "acc" then State(s.acc + line.1, Wrap(s.ip + 1))
    else if line.0 == "jmp" then State(s.acc, Wrap(s.ip + line.1))
    else State(s.acc, Wrap(s.ip + 1))
  }

  class Computer {
    var acc: int
    var ip: nat

    /** `Computer::new`. */
    constructor ()
      ensures acc == 0 && ip == 0
    {
      acc := 0;
      ip := 0;
    }

    /** `evaluate_line`: first the operation's own effect, then the step to the next line for
        everything but a jump. */
    method EvaluateLine(line: Instr)
      requires KnownOp(line.0)
      modifies this
      ensures line.0 == "nop" ==> acc == old(acc) && ip == Wrap(old(ip) + 1)
      ensures line.0 == "acc" ==> acc == old(acc) + line.1 && ip == Wrap(old(ip) + 1)
      ensures line.0 == "jmp" ==> acc == old(acc) && ip == Wrap(old(ip) + line.1)
      ensures State(acc, ip) == Exec(old(State(acc, ip)), line)
    {
      if line.0 == "acc" {
        acc := acc + line.1;
      } else if line.0 == "jmp" {
        ip := Wrap(ip + line.1);
      }
      if line.0 != "jmp" {
        ip := Wrap(ip + 1);
      }
    }
  }

  /** The state after `n` steps from `Computer::new()`, or `None` once the pointer has left the
      program at an earlier step. */
  function StateAt(program: seq<Instr>, n: nat): Option<State>
    requires Valid(program)
  {
    if n == 0 then Some(State(0, 0))
    else
      match StateAt(program, n - 1)
      case Some(s) => if s.ip < |program| then Some(Exec(s, program[s.ip])) else None
      case None => None
  }

  /** The pointer after `n` steps, or -1 if the machine stopped earlier. */
  function IpAt(program: seq<Instr>, n: nat): int
    requires Valid(program)
  {
    match StateAt(program, n)
    case Some(s) => s.ip
    case None => -1
  }

  /** The accumulator after `n` steps (0 if the machine stopped earlier). */
  function AccAt(program: seq<Instr>, n: nat): int
    requires Valid(program)
  {
    match StateAt(program, n)
    case Some(s) => s.acc
    case None => 0
  }

  /** The first `n` steps execute `n` different lines of the program. */
  predicate Fresh(program: seq<Instr>, n: nat) {
    && Valid(program)
    && (forall i: nat :: i < n ==> 0 <= IpAt(program, i) < |program|)
    && (forall i: nat, j: nat :: i < j < n ==> IpAt(program, i) != IpAt(program, j))
  }

  /** After `n` fresh steps the pointer is at a line executed before: the machine loops. */
  predicate Loops(program: seq<Instr>, n: nat) {
    Fresh(program, n) && exists j: nat :: j < n && IpAt(program, j) == IpAt(program, n)
  }

  /** After `n` fresh steps the pointer is past the program (`ip >= len`): the machine halts. */
  predicate Halts(program: seq<Instr>, n: nat) {
    Fresh(program, n) && StateAt(program, n).Some? && IpAt(program, n) >= |program|
  }

  ghost predicate LoopsWith(program: seq<Instr>, acc: int) {
    exists n: nat :: Loops(program, n) && AccAt(program, n) == acc
  }

  ghost predicate HaltsWith(program: seq<Instr>, acc: int) {
    exists n: nat :: Halts(program, n) && AccAt(program, n) == acc
  }

  ghost predicate EverLoops(program: seq<Instr>) {
    exists n: nat :: Loops(program, n)
  }

  /** Once `m` steps are fresh, no earlier step is a halt or a repeat. */
  lemma FreshExcludes(program: seq<Instr>, n: nat, m: nat)
    requires Fresh(program, m) && n < m
    ensures !Halts(program, n) && !Loops(program, n)
  {
    assert 0 <= IpAt(program, n) < |program|;
    forall j: nat | j < n ensures IpAt(program, j) != IpAt(program, n) {
      assert j < n < m;
    }
  }

  /** The run has one outcome: it cannot both halt and loop, and the step at which it halts or
      loops, and so the accumulator there, is unique. */
  lemma OutcomeUnique(program: seq<Instr>, n: nat, m: nat)
    requires Halts(program, n) || Loops(program, n)
    requires Halts(program, m) || Loops(program, m)
    ensures n == m && (Halts(program, n) <==> Halts(program, m))
  {
    if n < m {
      FreshExcludes(program, n, m);
    } else if m < n {
      FreshExcludes(program, m, n);
    }
  }

  /** Hence the accumulator a looping program reports is determined by the program. */
  lemma LoopsWithUnique(program: seq<Instr>, a: int, b: int)
    requires LoopsWith(program, a) && LoopsWith(program, b)
    ensures a == b
  {
    var n: nat :| Loops(program, n) && AccAt(program, n) == a;
    var m: nat :| Loops(program, m) && AccAt(program, m) == b;
    OutcomeUnique(program, n, m);
  }

  /** A program that halts does not loop. */
  lemma HaltsNotLoops(program: seq<Instr>, a: int)
    requires HaltsWith(program, a)
    ensures !EverLoops(program)
  {
    var n: nat :| Halts(program, n) && AccAt(program, n) == a;
    forall m: nat ensures !Loops(program, m) {
      if Loops(program, m) {
        OutcomeUnique(program, n, m);
      }
    }
  }

  /** The positions `0..k`. */
  function Range(k: nat): (r: set<nat>)
    ensures forall x :: x in r <==> 0 <= x < k
  {
    if k == 0 then {} else Range(k - 1) + {k - 1}
  }

  lemma {:induction false} RangeCard(k: nat)
    ensures |Range(k)| == k
  {
    if k > 0 {
      var below := Range(k - 1);
      RangeCard(k - 1);
      assert k - 1 !in below;
      assert Range(k) == below + {k - 1};
      assert |below + {k - 1}| == |below| + 1;
    }
  }

  /** What the run loop keeps after `steps` steps: the machine is in the state `s` the trace
      gives, those steps were fresh, `seen` holds exactly their lines. */
  ghost predicate RunInv(program: seq<Instr>, s: State, seen: set<nat>, steps: nat) {
    && Valid(program)
    && StateAt(program, steps) == Some(s)
    && Fresh(program, steps)
    && (forall x :: x in seen <==> exists i: nat :: i < steps && IpAt(program, i) == x)
    && seen <= Range(|program|)
  }

  /** One step of the run loop: the fresh prefix grows by the line just executed. */
  lemma RunAdvance(program: seq<Instr>, s: State, seen: set<nat>, steps: nat)
    requires RunInv(program, s, seen, steps) && s.ip < |program| && s.ip !in seen
    ensures RunInv(program, Exec(s, program[s.ip]), seen + {s.ip}, steps + 1)
    ensures |seen| < |seen + {s.ip}| <= |program|
  {
    assert IpAt(program, steps) == s.ip;
    FreshGrows(program, steps, seen);
    SeenGrows(program, steps, seen);
    RangeCard(|program|);
    SubsetCard(seen + {s.ip}, Range(|program|));
  }

  lemma FreshGrows(program: seq<Instr>, steps: nat, seen: set<nat>)
    requires Fresh(program, steps) && 0 <= IpAt(program, steps) < |program| && IpAt(program, steps) !in seen
    requires forall x :: x in seen <==> exists i: nat :: i < steps && IpAt(program, i) == x
    ensures Fresh(program, steps + 1)
  {
    forall i: nat, j: nat | i < j < steps + 1 ensures IpAt(program, i) != IpAt(program, j) {
      if j == steps {
        assert IpAt(program, i) != IpAt(program, steps);
      }
    }
  }

  lemma SeenGrows(program: seq<Instr>, steps: nat, seen: set<nat>)
    requires Valid(program)
    requires forall x :: x in seen <==> exists i: nat :: i < steps && IpAt(program, i) == x
    ensures forall x :: x in seen + {IpAt(program, steps)} <==> exists i: nat :: i < steps + 1 && IpAt(program, i) == x
  {
    forall x ensures x in seen + {IpAt(program, steps)} <==> exists i: nat :: i < steps + 1 && IpAt(program, i) == x {
      if x == IpAt(program, steps) {
        assert IpAt(program, steps) == x;
      }
    }
  }

  lemma RunHalt(program: seq<Instr>, s: State, seen: set<nat>, steps: nat)
    requires RunInv(program, s, seen, steps) && s.ip >= |program|
    ensures HaltsWith(program, s.acc)
  {
    assert Halts(program, steps) && AccAt(program, steps) == s.acc;
  }

  lemma RunLoop(program: seq<Instr>, s: State, seen: set<nat>, steps: nat)
    requires RunInv(program, s, seen, steps) && s.ip in seen
    ensures LoopsWith(program, s.acc)
  {
    var j: nat :| j < steps && IpAt(program, j) == s.ip;
    assert Loops(program, steps) && AccAt(program, steps) == s.acc;
  }

  /** The loop of `part1` and `part2`: run until the pointer leaves the program (`halted`) or
      reaches a line already executed, recording executed lines in `seen_ops`. */
  method Run(program: seq<Instr>) returns (halted: bool, acc: int)
    requires Valid(program)
    ensures halted ==> HaltsWith(program, acc)
    ensures !halted ==> LoopsWith(program, acc)
  {
    var com := new Computer();
    var seen: set<nat> := {};
    ghost var steps: nat := 0;
    RangeCard(|program|);
    while true
      invariant RunInv(program, State(com.acc, com.ip), seen, steps)
      invariant |seen| <= |program|
      decreases |program| - |seen|
    {
      if com.ip >= |program| {
        RunHalt(program, State(com.acc, com.ip), seen, steps);
        return true, com.acc;
      }
      if com.ip in seen {
        RunLoop(program, State(com.acc, com.ip), seen, steps);
        return false, com.acc;
      }
      RunAdvance(program, State(com.acc, com.ip), seen, steps);
      seen := seen + {com.ip};
      com.EvaluateLine(program[com.ip]);
      steps := steps + 1;
    }
  }

  /** `part1`: the accumulator just before some line would run a second time. Indexing past
      the end of memory panics in the source; here that is `Err`. */
  method Part1(memory: seq<Instr>) returns (r: Result<int>)
    requires Valid(memory)
    ensures r.Ok? ==> LoopsWith(memory, r.value)
    ensures r.Err? ==> exists a :: HaltsWith(memory, a)
  {
    var halted, acc := Run(memory);
    if halted {
      return Err;
    }
    return Ok(acc);
  }

  /** The mutations for line `idx`: an operation containing "jmp" becomes "nop", one containing
      "nop" becomes "jmp", each with its argument kept. */
  function MutationsAt(memory: seq<Instr>, idx: nat): seq<(seq<Instr>, nat)>
    requires idx < |memory|
  {
    var line := memory[idx];
    (if ContainsStr(line.0, "jmp") then [(memory[idx := ("nop", line.1)], idx)] else [])
    + (if ContainsStr(line.0, "nop") then [(memory[idx := ("jmp", line.1)], idx)] else [])
  }

  /** The mutations of the first `k` lines, in line order. */
  function MutationsUpTo(memory: seq<Instr>, k: nat): seq<(seq<Instr>, nat)>
    requires k <= |memory|
  {
    if k == 0 then [] else MutationsUpTo(memory, k - 1) + MutationsAt(memory, k - 1)
  }

  function Mutations(memory: seq<Instr>): seq<(seq<Instr>, nat)> {
    MutationsUpTo(memory, |memory|)
  }

  /** `build_mutations`. */
  method BuildMutations(memory: seq<Instr>) returns (mutations: seq<(seq<Instr>, nat)>)
    ensures mutations == Mutations(memory)
  {
    mutations := [];
    for idx := 0 to |memory|
      invariant mutations == MutationsUpTo(memory, idx)
    {
      var line := memory[idx];
      if ContainsStr(line.0, "jmp") {
        var mutation := memory[idx := ("nop", line.1)];
        mutations := mutations + [(mutation, idx)];
      }
      if ContainsStr(line.0, "nop") {
        var mutation := memory[idx := ("jmp", line.1)];
        mutations := mutations + [(mutation, idx)];
      }
    }
  }

  /** On a known operation, "contains jmp" and "contains nop" mean "is jmp" and "is nop". */
  lemma KnownContains(op: string)
    requires KnownOp(op)
    ensures ContainsStr(op, "jmp") <==> op == "jmp"
    ensures ContainsStr(op, "nop") <==> op == "nop"
  {
    SameLengthContains(op, "jmp");
    SameLengthContains(op, "nop");
  }

  /** A string shorter than `sub` does not contain it. */
  lemma {:induction false} ShortNotContains(s: string, sub: string)
    requires |s| < |sub|
    ensures !ContainsStr(s, sub)
  {
    if |s| > 0 {
      ShortNotContains(s[1..], sub);
    }
  }

  /** A string as long as `sub` contains it only by being it. */
  lemma SameLengthContains(s: string, sub: string)
    requires |s| == |sub| > 0
    ensures ContainsStr(s, sub) <==> s == sub
  {
    ShortNotContains(s[1..], sub);
    if sub <= s {
      assert s == sub;
    }
  }

  /** The line-by-line shape of the mutations: program `k` is the original with only line
      `idx` changed, to the swapped operation with the same argument; lines come in order. */
  predicate MutationOf(memory: seq<Instr>, m: (seq<Instr>, nat)) {
    && m.1 < |memory|
    && ((ContainsStr(memory[m.1].0, "jmp") && m.0 == memory[m.1 := ("nop", memory[m.1].1)])
        || (ContainsStr(memory[m.1].0, "nop") && m.0 == memory[m.1 := ("jmp", memory[m.1].1)]))
  }

  lemma {:induction false} MutationsUpToShape(memory: seq<Instr>, k: nat)
    requires k <= |memory|
    ensures forall i :: 0 <= i < |MutationsUpTo(memory, k)| ==>
              MutationOf(memory, MutationsUpTo(memory, k)[i]) && MutationsUpTo(memory, k)[i].1 < k
    ensures forall i, j :: 0 <= i < j < |MutationsUpTo(memory, k)| ==>
              MutationsUpTo(memory, k)[i].1 <= MutationsUpTo(memory, k)[j].1
  {
    if k > 0 {
      MutationsUpToShape(memory, k - 1);
    }
  }

  /** Every mutation changes one line to the swapped operation, keeping its argument, and the
      mutations come in line order. */
  lemma MutationsShape(memory: seq<Instr>)
    ensures forall i :: 0 <= i < |Mutations(memory)| ==> MutationOf(memory, Mutations(memory)[i])
    ensures forall i, j :: 0 <= i < j < |Mutations(memory)| ==> Mutations(memory)[i].1 <= Mutations(memory)[j].1
  {
    MutationsUpToShape(memory, |memory|);
  }

  /** Every "jmp" and every "nop" line has its mutation among the first `k` lines' mutations. */
  lemma MutationsAtComplete(memory: seq<Instr>, idx: nat)
    requires idx < |memory|
    ensures ContainsStr(memory[idx].0, "jmp") ==> (memory[idx := ("nop", memory[idx].1)], idx) in MutationsAt(memory, idx)
    ensures ContainsStr(memory[idx].0, "nop") ==> (memory[idx := ("jmp", memory[idx].1)], idx) in MutationsAt(memory, idx)
  {
  }

  /** The mutations of line `j` are among those of any longer prefix. */
  lemma {:induction false} MutationsUpToKeeps(memory: seq<Instr>, k: nat, j: nat, m: (seq<Instr>, nat))
    requires j < k <= |memory| && m in MutationsAt(memory, j)
    ensures m in MutationsUpTo(memory, k)
  {
    var pre, at := MutationsUpTo(memory, k - 1), MutationsAt(memory, k - 1);
    assert MutationsUpTo(memory, k) == pre + at;
    if j < k - 1 {
      MutationsUpToKeeps(memory, k - 1, j, m);
      assert m in pre;
    } else {
      assert m in at;
    }
  }

  /** Every "jmp" line and every "nop" line has its mutation. */
  lemma MutationsComplete(memory: seq<Instr>, idx: nat)
    requires idx < |memory|
    ensures ContainsStr(memory[idx].0, "jmp") ==> (memory[idx := ("nop", memory[idx].1)], idx) in Mutations(memory)
    ensures ContainsStr(memory[idx].0, "nop") ==> (memory[idx := ("jmp", memory[idx].1)], idx) in Mutations(memory)
  {
    MutationsAtComplete(memory, idx);
    var toNop, toJmp := (memory[idx := ("nop", memory[idx].1)], idx), (memory[idx := ("jmp", memory[idx].1)], idx);
    if toNop in MutationsAt(memory, idx) {
      MutationsUpToKeeps(memory, |memory|, idx, toNop);
    }
    if toJmp in MutationsAt(memory, idx) {
      MutationsUpToKeeps(memory, |memory|, idx, toJmp);
    }
  }

  /** A mutation of a runnable program is runnable. */
  lemma MutationsValid(memory: seq<Instr>)
    requires Valid(memory)
    ensures forall i :: 0 <= i < |Mutations(memory)| ==> Valid(Mutations(memory)[i].0)
  {
    MutationsShape(memory);
  }

  /** The lines that are not `acc`, as a predicate on positions. */
  function Swappable(memory: seq<Instr>): nat -> bool {
    (i: nat) => i < |memory| && memory[i].0 != "acc"
  }

  /** In a runnable program a line has one mutation if it is "jmp" or "nop", none if "acc". */
  lemma MutationsAtCount(memory: seq<Instr>, idx: nat)
    requires Valid(memory) && idx < |memory|
    ensures |MutationsAt(memory, idx)| == if Swappable(memory)(idx) then 1 else 0
  {
    KnownContains(memory[idx].0);
  }

  lemma {:induction false} MutationsUpToCount(memory: seq<Instr>, k: nat)
    requires Valid(memory) && k <= |memory|
    ensures |MutationsUpTo(memory, k)| == CountBelow(Swappable(memory), k)
  {
    if k > 0 {
      MutationsUpToCount(memory, k - 1);
      MutationsAtCount(memory, k - 1);
    }
  }

  /** A runnable program has exactly one mutation per "jmp" or "nop" line. */
  lemma MutationsCount(memory: seq<Instr>)
    requires Valid(memory)
    ensures |Mutations(memory)| == |set i: nat | i < |memory| && memory[i].0 != "acc"|
  {
    MutationsUpToCount(memory, |memory|);
    CountBelowIsCardinality(Swappable(memory), |memory|);
    assert (set i: nat | i < |memory| && Swappable(memory)(i)) == set i: nat | i < |memory| && memory[i].0 != "acc";
  }

  /** The mutation `k` is the first whose program halts. */
  ghost predicate FirstHalting(mutations: seq<(seq<Instr>, nat)>, k: nat) {
    k < |mutations| && forall j :: 0 <= j < k ==> EverLoops(mutations[j].0)
  }

  /** `part2`: the first mutation, in order, whose run halts, with its line and the final
      accumulator; `Err` if every mutation loops. */
  method Part2(memory: seq<Instr>) returns (r: Result<(nat, int)>)
    requires Valid(memory)
    ensures r.Ok? ==> exists k: nat :: && FirstHalting(Mutations(memory), k)
                                       && Mutations(memory)[k].1 == r.value.0
                                       && HaltsWith(Mutations(memory)[k].0, r.value.1)
    ensures r.Err? ==> forall k :: 0 <= k < |Mutations(memory)| ==> EverLoops(Mutations(memory)[k].0)
  {
    var mutations := BuildMutations(memory);
    MutationsValid(memory);
    for k := 0 to |mutations|
      invariant forall j :: 0 <= j < k ==> EverLoops(mutations[j].0)
    {
      var halted, acc := Run(mutations[k].0);
      if halted {
        assert FirstHalting(mutations, k);
        return Ok((mutations[k].1, acc));
      }
    }
    return Err;
  }

  /** One line: the first two whitespace-separated words, the second parsed as an `isize`;
      `None` where the source's `unwrap`s panic. */
  function ParseLine(line: string): Option<Instr> {
    var parts := Words(line);
    if |parts| < 2 then None
    else
      match ParseInt(parts[1])
      case Some(v) => Some((parts[0], v))
      case None => None
  }

  /** `parse_input`: every line parsed; `None` if any line is malformed. */
  function ParseLines(lines: seq<string>): (r: Option<seq<Instr>>)
    ensures r.Some? <==> forall i :: 0 <= i < |lines| ==> ParseLine(lines[i]).Some?
    ensures r.Some? ==> |r.value| == |lines| && forall i :: 0 <= i < |lines| ==> r.value[i] == ParseLine(lines[i]).value
  {
    if |lines| == 0 then Some([])
    else
      var first, rest := ParseLine(lines[0]), ParseLines(lines[1..]);
      assert forall i :: 1 <= i < |lines| ==> lines[i] == lines[1..][i - 1];
      if first.Some? && rest.Some? then Some([first.value] + rest.value) else None
  }

  function ParseInput(text: string): Option<seq<Instr>> {
    ParseLines(Lines(text))
  }

  /** How the puzzle writes an argument: an explicit sign, then the digits. */
  function Signed(v: int): string {
    if v < 0 then "-" + NatToString(-v) else "+" + NatToString(v)
  }

  lemma ParseSigned(v: int)
    ensures ParseInt(Signed(v)) == Some(v)
  {
    var s := Signed(v);
    var digits := NatToString(if v < 0 then -v else v);
    DigitsOfNatToString(if v < 0 then -v else v);
    assert s[1..] == digits;
    assert s[0] in s && !IsDigit(s[0]);
  }

  /** A signed argument holds no whitespace. */
  lemma SignedNoWhitespace(v: int)
    ensures forall c :: c in Signed(v) ==> !IsWhitespace(c)
  {
    var arg := Signed(v);
    assert forall c :: c in arg ==> c in arg[1..] || c == arg[0];
    assert arg[1..] == NatToString(if v < 0 then -v else v);
  }

  /** Parsing a written line `op ±n` gives it back, for any operation name without whitespace. */
  lemma ParseFormat(op: string, v: int)
    requires op != "" && forall c :: c in op ==> !IsWhitespace(c)
    ensures ParseLine(op + " " + Signed(v)) == Some((op, v))
  {
    var arg := Signed(v);
    SignedNoWhitespace(v);
    var pieces := [op, arg];
    assert Join(pieces, " ") == op + " " + arg;
    WordsOfJoin(pieces);
    ParseSigned(v);
  }

}

/** Day 18: operation order. A line is turned into reverse Polish notation by the shunting-yard
    algorithm, and the result is evaluated on a value stack. When `additionFirst` is false, `+`
    and `*` share one precedence level and associate to the left. When it is true, `+` binds
    tighter than `*`. */
module Day18 {
  import opened Wrappers
  import opened Text
  import opened Arith

  /** `Expression`: an operator character, or the value of one digit. */
  datatype Expression = Operation(op: char) | Value(value: nat)

  /** A character, other than the space, that a line may hold. */
  predicate Token(c: char) {
    c == '(' || c == ')' || c == '+' || c == '*' || IsDigit(c)
  }

  predicate Tokens(ts: string) {
    forall i :: 0 <= i < |ts| ==> Token(ts[i])
  }

  /** Every character is a space or a token. Any other one makes `to_digit(10).unwrap()` panic. */
  predicate ValidLine(line: string) {
    forall i :: 0 <= i < |line| ==> line[i] == ' ' || Token(line[i])
  }

  function DigitValue(c: char): (d: nat)
    requires IsDigit(c)
    ensures d < 10
  {
    c as int - '0' as int
  }

  /** `line.chars().filter(|c| *c != ' ')`. */
  function NoSpaces(s: string): (r: string)
    ensures forall i :: 0 <= i < |r| ==> r[i] != ' '
    ensures ValidLine(s) ==> Tokens(r)
  {
    if |s| == 0 then []
    else NoSpaces(s[..|s| - 1]) + (if s[|s| - 1] == ' ' then [] else [s[|s| - 1]])
  }

  /** The operators an incoming operator pops first: only `+` when addition goes first. */
  function Precedence(additionFirst: bool): seq<char> {
    if additionFirst then ['+'] else ['+', '*']
  }

  /** The operator stack (its top last) and the output queue. */
  datatype Stacks = Stacks(operations: seq<char>, output: seq<Expression>)

  /** The operators of `ops` from the top down, as output expressions. */
  function Popped(ops: seq<char>): (r: seq<Expression>)
    ensures |r| == |ops|
  {
    if |ops| == 0 then [] else [Operation(ops[|ops| - 1])] + Popped(ops[..|ops| - 1])
  }

  /** The `i`-th expression popped is the `i`-th operator from the top. */
  lemma {:induction false} PoppedAt(ops: seq<char>, i: nat)
    requires i < |ops|
    ensures Popped(ops)[i] == Operation(ops[|ops| - 1 - i])
    decreases |ops|
  {
    if i > 0 {
      PoppedAt(ops[..|ops| - 1], i - 1);
    }
  }

  // ---------------------------------------------------------------------------------------
  // The shunting-yard steps
  // ---------------------------------------------------------------------------------------

  /** The `')'` arm: operators are popped to the output until a `'('`, which is dropped, or
      until the stack is empty. */
  function CloseParen(s: Stacks): Stacks
    decreases |s.operations|
  {
    if |s.operations| == 0 then s
    else
      var top := s.operations[|s.operations| - 1];
      var rest := s.operations[..|s.operations| - 1];
      if top == '(' then Stacks(rest, s.output)
      else CloseParen(Stacks(rest, s.output + [Operation(top)]))
  }

  /** The loop of the operator arm: operators in the precedence set are popped to the output
      until another one, or nothing, is on top. */
  function PopPrecedence(s: Stacks, precedence: seq<char>): Stacks
    decreases |s.operations|
  {
    var n := |s.operations|;
    if n > 0 && s.operations[n - 1] in precedence then
      PopPrecedence(Stacks(s.operations[..n - 1], s.output + [Operation(s.operations[n - 1])]), precedence)
    else s
  }

  /** One iteration of the main loop, on a character that is not a space. */
  function Feed(s: Stacks, ch: char, precedence: seq<char>): Stacks
    requires Token(ch)
  {
    if ch == '(' then Stacks(s.operations + ['('], s.output)
    else if ch == ')' then CloseParen(s)
    else if ch == '+' || ch == '*' then
      var p := PopPrecedence(s, precedence);
      Stacks(p.operations + [ch], p.output)
    else Stacks(s.operations, s.output + [Value(DigitValue(ch))])
  }

  /** The main loop over the characters `ts`. */
  function FeedAll(s: Stacks, ts: string, precedence: seq<char>): Stacks
    requires Tokens(ts)
  {
    if |ts| == 0 then s
    else Feed(FeedAll(s, ts[..|ts| - 1], precedence), ts[|ts| - 1], precedence)
  }

  /** The final loop: the remaining operators go to the output, top first. */
  function Flush(s: Stacks): seq<Expression>
    decreases |s.operations|
  {
    var n := |s.operations|;
    if n == 0 then s.output
    else Flush(Stacks(s.operations[..n - 1], s.output + [Operation(s.operations[n - 1])]))
  }

  /** The expressions `shunting_yard` hands to `reverse_polish_notation`. */
  function Output(line: string, additionFirst: bool): seq<Expression>
    requires ValidLine(line)
  {
    Flush(FeedAll(Stacks([], []), NoSpaces(line), Precedence(additionFirst)))
  }

  // ---------------------------------------------------------------------------------------
  // What the steps do to the stacks
  // ---------------------------------------------------------------------------------------

  /** The index of the topmost `'('`, or -1 when there is none. */
  function LastOpen(ops: seq<char>): (j: int)
    ensures -1 <= j < |ops|
    ensures j >= 0 ==> ops[j] == '('
    ensures forall k :: j < k < |ops| ==> ops[k] != '('
  {
    if |ops| == 0 then -1
    else if ops[|ops| - 1] == '(' then |ops| - 1
    else LastOpen(ops[..|ops| - 1])
  }

  /** `')'` outputs the operators above the topmost `'('`, top first, and removes them and the
      `'('`. With no `'('` it outputs the whole stack and empties it. */
  lemma {:induction false} CloseParenSpec(s: Stacks)
    ensures LastOpen(s.operations) >= 0 ==>
              CloseParen(s) == Stacks(s.operations[..LastOpen(s.operations)],
                                      s.output + Popped(s.operations[LastOpen(s.operations) + 1..]))
    ensures LastOpen(s.operations) < 0 ==> CloseParen(s) == Stacks([], s.output + Popped(s.operations))
    decreases |s.operations|
  {
    var ops := s.operations;
    var n := |ops|;
    if n > 0 && ops[n - 1] != '(' {
      var init := ops[..n - 1];
      var top := [Operation(ops[n - 1])];
      CloseParenSpec(Stacks(init, s.output + top));
      var j := LastOpen(ops);
      assert LastOpen(init) == j;
      if j >= 0 {
        assert init[..j] == ops[..j];
        PoppedTop(ops, j + 1);
        SeqAssoc(s.output, top, Popped(init[j + 1..]));
      } else {
        PoppedTop(ops, 0);
        assert ops[0..] == ops && init[0..] == init;
        SeqAssoc(s.output, top, Popped(init));
      }
    } else if n > 0 {
      assert ops[n..] == [];
    }
  }

  lemma SeqAssoc<T>(a: seq<T>, b: seq<T>, c: seq<T>)
    ensures a + b + c == a + (b + c)
  {
  }

  /** Popping from `ops[j..]` starts with the top of `ops`. */
  lemma PoppedTop(ops: seq<char>, j: nat)
    requires j < |ops|
    ensures Popped(ops[j..]) == [Operation(ops[|ops| - 1])] + Popped(ops[..|ops| - 1][j..])
  {
    assert ops[j..][..|ops[j..]| - 1] == ops[..|ops| - 1][j..];
  }

  lemma PoppedSnoc(ops: seq<char>, c: char)
    ensures Popped(ops + [c]) == [Operation(c)] + Popped(ops)
  {
    assert (ops + [c])[..|ops|] == ops;
  }

  /** Where a run of operators in the precedence set starts, counted from the top. */
  function PrecedenceRun(ops: seq<char>, precedence: seq<char>): (j: nat)
    ensures j <= |ops|
  {
    if |ops| > 0 && ops[|ops| - 1] in precedence then PrecedenceRun(ops[..|ops| - 1], precedence)
    else |ops|
  }

  /** The run is the longest: every operator above it is in the set, the one below is not. */
  lemma {:induction false} PrecedenceRunSpec(ops: seq<char>, precedence: seq<char>)
    ensures forall k :: PrecedenceRun(ops, precedence) <= k < |ops| ==> ops[k] in precedence
    ensures var j := PrecedenceRun(ops, precedence); j == 0 || ops[j - 1] !in precedence
    decreases |ops|
  {
    if |ops| > 0 && ops[|ops| - 1] in precedence {
      PrecedenceRunSpec(ops[..|ops| - 1], precedence);
    }
  }

  /** The operator arm outputs the longest run of operators in the precedence set at the top,
      top first, and removes them: what is left has no such operator on top. */
  lemma {:induction false} PopPrecedenceSpec(s: Stacks, precedence: seq<char>)
    ensures PopPrecedence(s, precedence).operations == s.operations[..PrecedenceRun(s.operations, precedence)]
    ensures PopPrecedence(s, precedence).output
            == s.output + Popped(s.operations[PrecedenceRun(s.operations, precedence)..])
    decreases |s.operations|
  {
    var ops := s.operations;
    var n := |ops|;
    if n > 0 && ops[n - 1] in precedence {
      var init := ops[..n - 1];
      var top := [Operation(ops[n - 1])];
      PopPrecedenceSpec(Stacks(init, s.output + top), precedence);
      var j := PrecedenceRun(ops, precedence);
      assert PrecedenceRun(init, precedence) == j;
      assert init[..j] == ops[..j];
      PoppedTop(ops, j);
      SeqAssoc(s.output, top, Popped(init[j..]));
    } else {
      assert ops[n..] == [] && ops[..n] == ops;
    }
  }

  /** The final loop outputs the whole stack, top first. */
  lemma {:induction false} FlushSpec(s: Stacks)
    ensures Flush(s) == s.output + Popped(s.operations)
    decreases |s.operations|
  {
    var ops := s.operations;
    var n := |ops|;
    if n > 0 {
      FlushSpec(Stacks(ops[..n - 1], s.output + [Operation(ops[n - 1])]));
      assert ops == ops[..n - 1] + [ops[n - 1]];
      PoppedSnoc(ops[..n - 1], ops[n - 1]);
    }
  }

  lemma FeedAllAppend(s: Stacks, a: string, b: string, precedence: seq<char>)
    requires Tokens(a) && Tokens(b)
    ensures Tokens(a + b)
    ensures FeedAll(s, a + b, precedence) == FeedAll(FeedAll(s, a, precedence), b, precedence)
    decreases |b|
  {
    if |b| > 0 {
      var b' := b[..|b| - 1];
      FeedAllAppend(s, a, b', precedence);
      assert (a + b)[..|a + b| - 1] == a + b';
    } else {
      assert a + b == a;
    }
  }

  lemma FeedOne(s: Stacks, ch: char, precedence: seq<char>)
    requires Token(ch)
    ensures FeedAll(s, [ch], precedence) == Feed(s, ch, precedence)
  {
    assert [ch][..0] == [];
  }

  /** Only `'('`, `+` and `*` are ever on the operator stack. */
  predicate StackChars(ops: seq<char>) {
    forall i :: 0 <= i < |ops| ==> ops[i] == '(' || ops[i] == '+' || ops[i] == '*'
  }

  /** Only `+` and `*` are ever in the output. */
  predicate OutputOps(es: seq<Expression>) {
    forall i :: 0 <= i < |es| ==> es[i].Operation? ==> es[i].op == '+' || es[i].op == '*'
  }

  /** Operators that compute: `+` and `*`. */
  predicate Ops(fo: seq<char>) {
    forall i :: 0 <= i < |fo| ==> fo[i] == '+' || fo[i] == '*'
  }

  lemma OutputOpsPopped(out: seq<Expression>, ops: seq<char>)
    requires OutputOps(out) && Ops(ops)
    ensures OutputOps(out + Popped(ops))
  {
    forall i | 0 <= i < |out + Popped(ops)| && (out + Popped(ops))[i].Operation?
      ensures (out + Popped(ops))[i].op == '+' || (out + Popped(ops))[i].op == '*'
    {
      if i >= |out| {
        PoppedAt(ops, i - |out|);
        assert (out + Popped(ops))[i] == Operation(ops[|ops| - 1 - (i - |out|)]);
      }
    }
  }

  /** Neither parenthesis reaches the output, and `')'` never reaches the operator stack. */
  lemma {:induction false} FeedAllShape(s: Stacks, ts: string, precedence: seq<char>)
    requires Tokens(ts) && Ops(precedence)
    requires StackChars(s.operations) && OutputOps(s.output)
    ensures StackChars(FeedAll(s, ts, precedence).operations)
    ensures OutputOps(FeedAll(s, ts, precedence).output)
    decreases |ts|
  {
    if |ts| > 0 {
      FeedAllShape(s, ts[..|ts| - 1], precedence);
      FeedShape(FeedAll(s, ts[..|ts| - 1], precedence), ts[|ts| - 1], precedence);
    }
  }

  lemma FeedShape(t: Stacks, ch: char, precedence: seq<char>)
    requires Token(ch) && Ops(precedence)
    requires StackChars(t.operations) && OutputOps(t.output)
    ensures StackChars(Feed(t, ch, precedence).operations)
    ensures OutputOps(Feed(t, ch, precedence).output)
  {
    if ch == ')' {
      CloseShape(t);
    } else if ch == '+' || ch == '*' {
      PopShape(t, precedence);
    } else if IsDigit(ch) {
      assert OutputOps(t.output + [Value(DigitValue(ch))]);
    }
  }

  /** `')'` moves only `+` and `*` to the output and keeps the rest of the stack. */
  lemma CloseShape(t: Stacks)
    requires StackChars(t.operations) && OutputOps(t.output)
    ensures StackChars(CloseParen(t).operations) && OutputOps(CloseParen(t).output)
  {
    var ops := t.operations;
    CloseParenSpec(t);
    var j := LastOpen(ops);
    if j >= 0 {
      assert Ops(ops[j + 1..]);
      OutputOpsPopped(t.output, ops[j + 1..]);
    } else {
      assert Ops(ops);
      OutputOpsPopped(t.output, ops);
    }
  }

  /** Popping operators of higher precedence moves only `+` and `*` to the output. */
  lemma PopShape(t: Stacks, precedence: seq<char>)
    requires Ops(precedence) && StackChars(t.operations) && OutputOps(t.output)
    ensures StackChars(PopPrecedence(t, precedence).operations) && OutputOps(PopPrecedence(t, precedence).output)
  {
    var ops := t.operations;
    PopPrecedenceSpec(t, precedence);
    var j := PrecedenceRun(ops, precedence);
    PrecedenceRunSpec(ops, precedence);
    assert Ops(ops[j..]);
    OutputOpsPopped(t.output, ops[j..]);
  }

  /** Through the main loop of a line, `')'` never reaches the operator stack and only `+` and
      `*` reach the output. The final loop also outputs any unmatched `'('`. */
  lemma LoopShape(line: string, additionFirst: bool)
    requires ValidLine(line)
    ensures var t := FeedAll(Stacks([], []), NoSpaces(line), Precedence(additionFirst));
            StackChars(t.operations) && OutputOps(t.output)
  {
    FeedAllShape(Stacks([], []), NoSpaces(line), Precedence(additionFirst));
  }

  // ---------------------------------------------------------------------------------------
  // The values keep their order
  // ---------------------------------------------------------------------------------------

  /** The values of an expression list, in order. */
  function Values(es: seq<Expression>): seq<nat> {
    if |es| == 0 then []
    else Values(es[..|es| - 1]) + (if es[|es| - 1].Value? then [es[|es| - 1].value] else [])
  }

  /** The values of the digits of a line, in order. */
  function Digits(ts: string): seq<nat>
    requires Tokens(ts)
  {
    if |ts| == 0 then []
    else Digits(ts[..|ts| - 1]) + (if IsDigit(ts[|ts| - 1]) then [DigitValue(ts[|ts| - 1])] else [])
  }

  lemma {:induction false} ValuesAppend(a: seq<Expression>, b: seq<Expression>)
    ensures Values(a + b) == Values(a) + Values(b)
    decreases |b|
  {
    if |b| > 0 {
      ValuesAppend(a, b[..|b| - 1]);
      assert (a + b)[..|a + b| - 1] == a + b[..|b| - 1];
    } else {
      assert a + b == a;
    }
  }

  lemma {:induction false} ValuesPopped(ops: seq<char>)
    ensures Values(Popped(ops)) == []
    decreases |ops|
  {
    if |ops| > 0 {
      ValuesPopped(ops[..|ops| - 1]);
      ValuesAppend([Operation(ops[|ops| - 1])], Popped(ops[..|ops| - 1]));
      assert Values([Operation(ops[|ops| - 1])]) == Values([]) + [];
    }
  }

  /** Moving operators to the output leaves its values as they were. */
  lemma ValuesPushPopped(out: seq<Expression>, ops: seq<char>)
    ensures Values(out + Popped(ops)) == Values(out)
  {
    ValuesAppend(out, Popped(ops));
    ValuesPopped(ops);
  }

  lemma {:induction false} FeedAllValues(s: Stacks, ts: string, precedence: seq<char>)
    requires Tokens(ts)
    ensures Values(FeedAll(s, ts, precedence).output) == Values(s.output) + Digits(ts)
    decreases |ts|
  {
    if |ts| > 0 {
      FeedAllValues(s, ts[..|ts| - 1], precedence);
      var ch := ts[|ts| - 1];
      FeedValues(FeedAll(s, ts[..|ts| - 1], precedence), ch, precedence);
      SeqAssoc(Values(s.output), Digits(ts[..|ts| - 1]), if IsDigit(ch) then [DigitValue(ch)] else []);
    }
  }

  /** One step outputs the character's value if it is a digit, and no value otherwise. */
  lemma FeedValues(t: Stacks, ch: char, precedence: seq<char>)
    requires Token(ch)
    ensures Values(Feed(t, ch, precedence).output)
            == Values(t.output) + (if IsDigit(ch) then [DigitValue(ch)] else [])
  {
    if ch == ')' {
      CloseParenSpec(t);
      var j := LastOpen(t.operations);
      if j >= 0 {
        ValuesPushPopped(t.output, t.operations[j + 1..]);
      } else {
        ValuesPushPopped(t.output, t.operations);
      }
    } else if ch == '+' || ch == '*' {
      PopPrecedenceSpec(t, precedence);
      ValuesPushPopped(t.output, t.operations[PrecedenceRun(t.operations, precedence)..]);
    } else if IsDigit(ch) {
      assert (t.output + [Value(DigitValue(ch))])[..|t.output|] == t.output;
    } else {
      assert t.output + [] == t.output;
    }
  }

  /** The values in the output are the line's digits, in the order they appear. */
  lemma OutputValues(line: string, additionFirst: bool)
    requires ValidLine(line)
    ensures Values(Output(line, additionFirst)) == Digits(NoSpaces(line))
  {
    var t := FeedAll(Stacks([], []), NoSpaces(line), Precedence(additionFirst));
    FeedAllValues(Stacks([], []), NoSpaces(line), Precedence(additionFirst));
    FlushSpec(t);
    ValuesPushPopped(t.output, t.operations);
  }

  // ---------------------------------------------------------------------------------------
  // Reverse Polish notation
  // ---------------------------------------------------------------------------------------

  /** What an operator computes from the value popped first (`left`) and the one popped next. */
  function RpnApply(op: char, left: nat, right: nat): nat {
    if op == '+' then left + right else left * right
  }

  /** One step of `reverse_polish_notation`. `None` stands for a `pop().unwrap()` on too short a
      stack or an operator that is `unreachable!`. Parentheses are skipped. */
  function RpnStep(stack: seq<nat>, e: Expression): Option<seq<nat>> {
    match e
    case Value(v) => Some(stack + [v])
    case Operation(op) =>
      if op == ')' || op == '(' then Some(stack)
      else if |stack| < 2 || (op != '+' && op != '*') then None
      else Some(stack[..|stack| - 2] + [RpnApply(op, stack[|stack| - 1], stack[|stack| - 2])])
  }

  /** The value stack after the expressions `es`, starting from `stack`. */
  function Run(stack: seq<nat>, es: seq<Expression>): Option<seq<nat>> {
    if |es| == 0 then Some(stack)
    else
      match Run(stack, es[..|es| - 1])
      case None => None
      case Some(st) => RpnStep(st, es[|es| - 1])
  }

  /** The value `reverse_polish_notation` returns: the top of the final stack. */
  function Rpn(es: seq<Expression>): Option<nat> {
    match Run([], es)
    case None => None
    case Some(st) => if |st| > 0 then Some(st[|st| - 1]) else None
  }

  lemma {:induction false} RunAppend(stack: seq<nat>, a: seq<Expression>, b: seq<Expression>)
    ensures Run(stack, a + b) == match Run(stack, a) { case None => None case Some(st) => Run(st, b) }
    decreases |b|
  {
    if |b| == 0 {
      assert a + b == a;
    } else {
      RunAppend(stack, a, b[..|b| - 1]);
      assert (a + b)[..|a + b| - 1] == a + b[..|b| - 1];
    }
  }

  /** A run that succeeds has succeeded on every prefix. */
  lemma RunPrefix(es: seq<Expression>, k: nat)
    requires k <= |es| && Run([], es).Some?
    ensures Run([], es[..k]).Some?
  {
    assert es == es[..k] + es[k..];
    RunAppend([], es[..k], es[k..]);
  }

  /** `reverse_polish_notation`, with the value stack as a local vector. */
  method ReversePolishNotation(input: seq<Expression>) returns (r: nat)
    requires Rpn(input).Some?
    ensures Some(r) == Rpn(input)
  {
    var stack: seq<nat> := [];
    for k := 0 to |input|
      invariant Run([], input[..k]) == Some(stack)
    {
      RunPrefix(input, k + 1);
      assert input[..k + 1][..k] == input[..k];
      assert Run([], input[..k + 1]) == RpnStep(stack, input[k]);
      ghost var before := stack;
      match input[k] {
        case Operation(op) =>
          if op == ')' {
          } else if op == '(' {
          } else {
            var left := stack[|stack| - 1];
            stack := stack[..|stack| - 1];
            var right := stack[|stack| - 1];
            stack := stack[..|stack| - 1];
            var result := if op == '+' then left + right else left * right;
            stack := stack + [result];
            assert stack == before[..|before| - 2] + [RpnApply(op, left, right)];
          }
        case Value(v) =>
          stack := stack + [v];
      }
    }
    assert input[..|input|] == input;
    r := stack[|stack| - 1];
  }

  // ---------------------------------------------------------------------------------------
  // The shunting-yard methods
  // ---------------------------------------------------------------------------------------

  /** The `')'` arm. */
  method PopToParen(operations: seq<char>, output: seq<Expression>)
    returns (operations': seq<char>, output': seq<Expression>)
    ensures Stacks(operations', output') == CloseParen(Stacks(operations, output))
  {
    operations', output' := operations, output;
    var done := false;
    while !done
      invariant !done ==> CloseParen(Stacks(operations', output')) == CloseParen(Stacks(operations, output))
      invariant done ==> Stacks(operations', output') == CloseParen(Stacks(operations, output))
      decreases |operations'|, !done
    {
      if |operations'| == 0 {
        done := true;
      } else {
        var op := operations'[|operations'| - 1];
        operations' := operations'[..|operations'| - 1];
        if op == '(' {
          done := true;
        } else {
          output' := output' + [Operation(op)];
        }
      }
    }
  }

  /** The loop of the operator arm. An operator outside the precedence set is popped, pushed
      back, and ends the loop. */
  method PopOperators(operations: seq<char>, output: seq<Expression>, precedence: seq<char>)
    returns (operations': seq<char>, output': seq<Expression>)
    ensures Stacks(operations', output') == PopPrecedence(Stacks(operations, output), precedence)
  {
    operations', output' := operations, output;
    var done := false;
    while !done
      invariant !done ==> PopPrecedence(Stacks(operations', output'), precedence)
                          == PopPrecedence(Stacks(operations, output), precedence)
      invariant done ==> Stacks(operations', output') == PopPrecedence(Stacks(operations, output), precedence)
      decreases |operations'|, !done
    {
      if |operations'| == 0 {
        done := true;
      } else {
        var op := operations'[|operations'| - 1];
        operations' := operations'[..|operations'| - 1];
        if op in precedence {
          output' := output' + [Operation(op)];
        } else {
          operations' := operations' + [op];
          done := true;
        }
      }
    }
  }

  /** The final loop. */
  method FlushOperations(operations: seq<char>, output: seq<Expression>) returns (output': seq<Expression>)
    ensures output' == Flush(Stacks(operations, output))
  {
    var ops := operations;
    output' := output;
    while |ops| > 0
      invariant Flush(Stacks(ops, output')) == Flush(Stacks(operations, output))
      decreases |ops|
    {
      var op := ops[|ops| - 1];
      ops := ops[..|ops| - 1];
      output' := output' + [Operation(op)];
    }
  }

  /** The body of the main loop, on a character that is not a space. */
  method Shunt(operations: seq<char>, output: seq<Expression>, ch: char, precedence: seq<char>)
    returns (operations': seq<char>, output': seq<Expression>)
    requires Token(ch)
    ensures Stacks(operations', output') == Feed(Stacks(operations, output), ch, precedence)
  {
    operations', output' := operations, output;
    if ch == '(' {
      operations' := operations' + [ch];
    } else if ch == ')' {
      operations', output' := PopToParen(operations', output');
    } else if ch == '+' || ch == '*' {
      operations', output' := PopOperators(operations', output', precedence);
      operations' := operations' + [ch];
    } else {
      output' := output' + [Value(ch as int - '0' as int)];
    }
  }

  lemma NoSpacesSnoc(line: string, i: nat)
    requires i < |line|
    ensures NoSpaces(line[..i + 1]) == NoSpaces(line[..i]) + (if line[i] == ' ' then [] else [line[i]])
  {
    assert line[..i + 1][..i] == line[..i];
  }

  /** A line whose output evaluates without a panic. */
  predicate Computable(line: string, additionFirst: bool) {
    ValidLine(line) && Rpn(Output(line, additionFirst)).Some?
  }

  /** `shunting_yard`: the line's value, which the recursive-descent evaluator below agrees
      with whenever the line is an expression. */
  method ShuntingYard(line: string, additionFirst: bool) returns (r: nat)
    requires Computable(line, additionFirst)
    ensures Some(r) == Rpn(Output(line, additionFirst))
    ensures Evaluate(line, additionFirst).Some? ==> Some(r) == Evaluate(line, additionFirst)
  {
    var precedence := if additionFirst then ['+'] else ['+', '*'];
    var operations, output := ShuntLine(line, precedence);
    output := FlushOperations(operations, output);
    r := ReversePolishNotation(output);
    if Evaluate(line, additionFirst).Some? {
      ShuntingYardCorrect(line, additionFirst);
    }
  }

  /** The main loop of `shunting_yard`: the line's characters, spaces skipped. */
  method ShuntLine(line: string, precedence: seq<char>) returns (operations: seq<char>, output: seq<Expression>)
    requires ValidLine(line)
    ensures Stacks(operations, output) == FeedAll(Stacks([], []), NoSpaces(line), precedence)
  {
    operations, output := [], [];
    for i := 0 to |line|
      invariant Stacks(operations, output) == FeedAll(Stacks([], []), NoSpaces(line[..i]), precedence)
    {
      NoSpacesSnoc(line, i);
      var ch := line[i];
      if ch == ' ' {
        assert NoSpaces(line[..i + 1]) == NoSpaces(line[..i]);
      } else {
        assert NoSpaces(line[..i + 1]) == NoSpaces(line[..i]) + [ch];
        FeedAllAppend(Stacks([], []), NoSpaces(line[..i]), [ch], precedence);
        FeedOne(Stacks(operations, output), ch, precedence);
        operations, output := Shunt(operations, output, ch, precedence);
      }
    }
    assert line[..|line|] == line;
  }

  /** The sum of the lines' values. */
  function Total(lines: seq<string>, additionFirst: bool): nat
    requires forall i :: 0 <= i < |lines| ==> Computable(lines[i], additionFirst)
  {
    if |lines| == 0 then 0
    else
      var last := lines[|lines| - 1];
      assert Computable(last, additionFirst);
      Total(lines[..|lines| - 1], additionFirst) + Rpn(Output(last, additionFirst)).value
  }

  /** The sum of the reference values of lines that are all expressions. */
  function EvaluatedTotal(lines: seq<string>, additionFirst: bool): nat
    requires forall i :: 0 <= i < |lines| ==> Evaluate(lines[i], additionFirst).Some?
  {
    if |lines| == 0 then 0
    else
      var last := lines[|lines| - 1];
      assert Evaluate(last, additionFirst).Some?;
      EvaluatedTotal(lines[..|lines| - 1], additionFirst) + Evaluate(last, additionFirst).value
  }

  /** `input.lines().map(|line| shunting_yard(line, additionFirst)).sum()`. */
  method SumLines(input: string, additionFirst: bool) returns (r: nat)
    requires forall i :: 0 <= i < |Lines(input)| ==> Computable(Lines(input)[i], additionFirst)
    ensures r == Total(Lines(input), additionFirst)
  {
    var lines := Lines(input);
    r := 0;
    for k := 0 to |lines|
      invariant r == Total(lines[..k], additionFirst)
    {
      assert lines[..k + 1][..k] == lines[..k];
      var v := ShuntingYard(lines[k], additionFirst);
      r := r + v;
    }
    assert lines[..|lines|] == lines;
  }

  /** `part1`: `+` and `*` at one level. */
  method Part1(input: string) returns (r: nat)
    requires forall i :: 0 <= i < |Lines(input)| ==> Computable(Lines(input)[i], false)
    ensures r == Total(Lines(input), false)
  {
    r := SumLines(input, false);
  }

  /** `part2`: `+` before `*`. */
  method Part2(input: string) returns (r: nat)
    requires forall i :: 0 <= i < |Lines(input)| ==> Computable(Lines(input)[i], true)
    ensures r == Total(Lines(input), true)
  {
    r := SumLines(input, true);
  }

  /** For lines that are all expressions, the total is that of the reference evaluator. */
  lemma {:induction false} TotalIsEvaluated(lines: seq<string>, additionFirst: bool)
    requires forall i :: 0 <= i < |lines| ==> ValidLine(lines[i]) && Evaluate(lines[i], additionFirst).Some?
    ensures forall i :: 0 <= i < |lines| ==> Computable(lines[i], additionFirst)
    ensures Total(lines, additionFirst) == EvaluatedTotal(lines, additionFirst)
    decreases |lines|
  {
    forall i | 0 <= i < |lines|
      ensures Computable(lines[i], additionFirst)
      ensures Rpn(Output(lines[i], additionFirst)) == Evaluate(lines[i], additionFirst)
    {
      ShuntingYardCorrect(lines[i], additionFirst);
    }
    if |lines| > 0 {
      var prefix := lines[..|lines| - 1];
      assert forall i :: 0 <= i < |prefix| ==> prefix[i] == lines[i];
      TotalIsEvaluated(prefix, additionFirst);
      var last := lines[|lines| - 1];
      assert Rpn(Output(last, additionFirst)) == Evaluate(last, additionFirst);
    }
  }

  // ---------------------------------------------------------------------------------------
  // A reference evaluator: recursive descent over the grammar each mode stands for
  // ---------------------------------------------------------------------------------------

  function Apply(op: char, a: nat, b: nat): nat {
    if op == '+' then a + b else a * b
  }

  /** A digit, or an expression in parentheses, at position `i` of `ts`: its value and the
      position after it. */
  function Factor(ts: string, i: nat, additionFirst: bool): (r: Option<(nat, nat)>)
    requires i <= |ts|
    ensures r.Some? ==> i < r.value.1 <= |ts|
    decreases |ts| - i, 0
  {
    if i == |ts| then None
    else if IsDigit(ts[i]) then Some((DigitValue(ts[i]), i + 1))
    else if ts[i] == '(' then
      match Expr(ts, i + 1, additionFirst)
      case None => None
      case Some(e) => if e.1 < |ts| && ts[e.1] == ')' then Some((e.0, e.1 + 1)) else None
    else None
  }

  /** With one precedence level: factors joined by `+` and `*`, left to right. */
  function FlatTail(ts: string, acc: nat, i: nat): (r: Option<(nat, nat)>)
    requires i <= |ts|
    ensures r.Some? ==> i <= r.value.1 <= |ts|
    decreases |ts| - i
  {
    if i < |ts| && (ts[i] == '+' || ts[i] == '*') then
      match Factor(ts, i + 1, false)
      case None => None
      case Some(f) => FlatTail(ts, Apply(ts[i], acc, f.0), f.1)
    else Some((acc, i))
  }

  /** With addition first: a sum of factors. */
  function Term(ts: string, i: nat): (r: Option<(nat, nat)>)
    requires i <= |ts|
    ensures r.Some? ==> i < r.value.1 <= |ts|
    decreases |ts| - i, 1
  {
    match Factor(ts, i, true)
    case None => None
    case Some(f) => SumTail(ts, f.0, f.1)
  }

  function SumTail(ts: string, acc: nat, i: nat): (r: Option<(nat, nat)>)
    requires i <= |ts|
    ensures r.Some? ==> i <= r.value.1 <= |ts|
    decreases |ts| - i
  {
    if i < |ts| && ts[i] == '+' then
      match Factor(ts, i + 1, true)
      case None => None
      case Some(f) => SumTail(ts, acc + f.0, f.1)
    else Some((acc, i))
  }

  /** With addition first: an expression is a product of terms. */
  function ProductTail(ts: string, acc: nat, i: nat): (r: Option<(nat, nat)>)
    requires i <= |ts|
    ensures r.Some? ==> i <= r.value.1 <= |ts|
    decreases |ts| - i
  {
    if i < |ts| && ts[i] == '*' then
      match Term(ts, i + 1)
      case None => None
      case Some(t) => ProductTail(ts, acc * t.0, t.1)
    else Some((acc, i))
  }

  /** An expression at position `i`: its value and the position after it. */
  function Expr(ts: string, i: nat, additionFirst: bool): (r: Option<(nat, nat)>)
    requires i <= |ts|
    ensures r.Some? ==> i < r.value.1 <= |ts|
    decreases |ts| - i, 2
  {
    if additionFirst then
      match Term(ts, i)
      case None => None
      case Some(t) => ProductTail(ts, t.0, t.1)
    else
      match Factor(ts, i, false)
      case None => None
      case Some(f) => FlatTail(ts, f.0, f.1)
  }

  /** The value of a line that is one expression and nothing else. */
  function Evaluate(line: string, additionFirst: bool): Option<nat> {
    var ts := NoSpaces(line);
    match Expr(ts, 0, additionFirst)
    case None => None
    case Some(e) => if e.1 == |ts| then Some(e.0) else None
  }

  // ---------------------------------------------------------------------------------------
  // The shunting-yard algorithm computes what the reference evaluator does
  // ---------------------------------------------------------------------------------------

  /** The main loop over the characters `ts[i..j]`. */
  function FeedRange(s: Stacks, ts: string, i: nat, j: nat, precedence: seq<char>): Stacks
    requires Tokens(ts) && i <= j <= |ts|
    decreases j - i
  {
    if i == j then s else Feed(FeedRange(s, ts, i, j - 1, precedence), ts[j - 1], precedence)
  }

  lemma {:induction false} FeedRangeTrans(s: Stacks, ts: string, i: nat, j: nat, k: nat, precedence: seq<char>)
    requires Tokens(ts) && i <= j <= k <= |ts|
    ensures FeedRange(s, ts, i, k, precedence) == FeedRange(FeedRange(s, ts, i, j, precedence), ts, j, k, precedence)
    decreases k - j
  {
    if j < k {
      FeedRangeTrans(s, ts, i, j, k - 1, precedence);
    }
  }

  /** Feeding `ts[i]`, then `ts[i + 1..j]`, then `ts[j..k]`. */
  lemma FeedParts(s: Stacks, ts: string, i: nat, j: nat, k: nat, precedence: seq<char>)
    requires Tokens(ts) && i < j <= k <= |ts|
    ensures FeedRange(s, ts, i, k, precedence)
            == FeedRange(FeedRange(Feed(s, ts[i], precedence), ts, i + 1, j, precedence), ts, j, k, precedence)
  {
    FeedRangeTrans(s, ts, i, i + 1, k, precedence);
    FeedRangeTrans(Feed(s, ts[i], precedence), ts, i + 1, j, k, precedence);
    assert FeedRange(s, ts, i, i + 1, precedence) == Feed(s, ts[i], precedence);
  }

  lemma {:induction false} FeedRangeAll(s: Stacks, ts: string, j: nat, precedence: seq<char>)
    requires Tokens(ts) && j <= |ts|
    ensures FeedRange(s, ts, 0, j, precedence) == FeedAll(s, ts[..j], precedence)
    decreases j
  {
    if j > 0 {
      FeedRangeAll(s, ts, j - 1, precedence);
      assert ts[..j][..j - 1] == ts[..j - 1];
    }
  }

  /** What the stack frame `fv` (values) and `fo` (operators) collapses to when its operators
      are applied, top first. */
  function Collapse(fv: seq<nat>, fo: seq<char>): nat
    requires |fv| == |fo| + 1
    decreases |fo|
  {
    if |fo| == 0 then fv[0]
    else Collapse(fv[..|fv| - 2] + [RpnApply(fo[|fo| - 1], fv[|fv| - 1], fv[|fv| - 2])], fo[..|fo| - 1])
  }

  /** Popping the operators of a frame to the output and running them collapses the frame. */
  lemma {:induction false} CloseFrame(vs: seq<nat>, fv: seq<nat>, fo: seq<char>)
    requires Ops(fo) && |fv| == |fo| + 1
    ensures Run(vs + fv, Popped(fo)) == Some(vs + [Collapse(fv, fo)])
    decreases |fo|
  {
    if |fo| > 0 {
      var o := fo[|fo| - 1];
      var fv' := fv[..|fv| - 2] + [RpnApply(o, fv[|fv| - 1], fv[|fv| - 2])];
      assert Popped(fo) == [Operation(o)] + Popped(fo[..|fo| - 1]);
      RunAppend(vs + fv, [Operation(o)], Popped(fo[..|fo| - 1]));
      assert [Operation(o)][..0] == [];
      assert (vs + fv)[..|vs + fv| - 2] + [RpnApply(o, fv[|fv| - 1], fv[|fv| - 2])] == vs + fv';
      CloseFrame(vs, fv', fo[..|fo| - 1]);
    } else {
      assert fv == [fv[0]];
    }
  }

  /** Collapsing the top part of a frame first changes nothing. */
  lemma {:induction false} CollapseSplit(a: seq<nat>, f: seq<nat>, fo1: seq<char>, fo2: seq<char>)
    requires |a| == |fo1| && |f| == |fo2| + 1
    ensures Collapse(a + f, fo1 + fo2) == Collapse(a + [Collapse(f, fo2)], fo1)
    decreases |fo2|
  {
    if |fo2| == 0 {
      assert fo1 + fo2 == fo1 && f == [f[0]];
    } else {
      var o := fo2[|fo2| - 1];
      var f' := f[..|f| - 2] + [RpnApply(o, f[|f| - 1], f[|f| - 2])];
      assert (a + f)[..|a + f| - 2] + [RpnApply(o, (a + f)[|a + f| - 1], (a + f)[|a + f| - 2])] == a + f';
      assert (fo1 + fo2)[..|fo1 + fo2| - 1] == fo1 + fo2[..|fo2| - 1];
      CollapseSplit(a, f', fo1, fo2[..|fo2| - 1]);
    }
  }

  /** The two values of a frame with one operator. */
  lemma CollapsePair(a: nat, b: nat, o: char)
    ensures Collapse([a, b], [o]) == RpnApply(o, b, a)
  {
    assert [a, b][..0] + [RpnApply(o, b, a)] == [RpnApply(o, b, a)];
  }

  /** `k` multiplications waiting on the stack. */
  function Stars(k: nat): (r: seq<char>)
    ensures |r| == k && Ops(r)
  {
    if k == 0 then [] else Stars(k - 1) + ['*']
  }

  function Product(ts: seq<nat>): nat {
    if |ts| == 0 then 1 else Product(ts[..|ts| - 1]) * ts[|ts| - 1]
  }

  /** A frame of multiplications collapses to the product of its values. */
  lemma {:induction false} CollapseStars(ts: seq<nat>, x: nat)
    ensures Collapse(ts + [x], Stars(|ts|)) == Product(ts) * x
    decreases |ts|
  {
    var k := |ts|;
    if k > 0 {
      var ts' := ts[..k - 1];
      assert (ts + [x])[..|ts + [x]| - 2] + [RpnApply('*', x, ts[k - 1])] == ts' + [x * ts[k - 1]];
      assert Stars(k)[..k - 1] == Stars(k - 1);
      CollapseStars(ts', x * ts[k - 1]);
      MulAssoc(Product(ts'), ts[k - 1], x);
    }
  }

  /** An operator stack whose top is `'('`, or that is empty: a place an expression starts. */
  predicate Barrier(ops: seq<char>) {
    |ops| == 0 || ops[|ops| - 1] == '('
  }

  /** Before an operator, the frame's operators that are in the precedence set are popped. */
  lemma PopFrame(ops0: seq<char>, fo: seq<char>, out: seq<Expression>, precedence: seq<char>)
    requires forall i :: 0 <= i < |fo| ==> fo[i] in precedence
    requires |ops0| == 0 || ops0[|ops0| - 1] !in precedence
    ensures PopPrecedence(Stacks(ops0 + fo, out), precedence) == Stacks(ops0, out + Popped(fo))
  {
    var ops := ops0 + fo;
    PopPrecedenceSpec(Stacks(ops, out), precedence);
    PrecedenceRunSpec(ops, precedence);
    var j := PrecedenceRun(ops, precedence);
    assert ops[..|ops0|] == ops0 && ops[|ops0|..] == fo;
  }

  /** `')'` closes a frame that sits on a `'('`. */
  lemma CloseParenFrame(ops0: seq<char>, fo: seq<char>, out: seq<Expression>)
    requires |ops0| > 0 && ops0[|ops0| - 1] == '(' && Ops(fo)
    ensures CloseParen(Stacks(ops0 + fo, out)) == Stacks(ops0[..|ops0| - 1], out + Popped(fo))
  {
    var ops := ops0 + fo;
    CloseParenSpec(Stacks(ops, out));
    assert ops[|ops0| - 1] == '(';
    assert ops[..|ops0| - 1] == ops0[..|ops0| - 1] && ops[|ops0|..] == fo;
  }

  /** An operator pops the frame to the output, where it collapses, and is pushed. */
  lemma OperatorFeeds(s: Stacks, o: char, p: seq<char>, ops0: seq<char>, fo0: seq<char>, fv0: seq<nat>, vs: seq<nat>)
    requires o == '+' || o == '*'
    requires s.operations == ops0 + fo0 && forall i :: 0 <= i < |fo0| ==> fo0[i] in p
    requires |ops0| == 0 || ops0[|ops0| - 1] !in p
    requires Ops(fo0) && |fv0| == |fo0| + 1 && Run([], s.output) == Some(vs + fv0)
    ensures Feed(s, o, p) == Stacks(ops0 + [o], s.output + Popped(fo0))
    ensures Run([], s.output + Popped(fo0)) == Some(vs + [Collapse(fv0, fo0)])
  {
    PopFrame(ops0, fo0, s.output, p);
    RunAppend([], s.output, Popped(fo0));
    CloseFrame(vs, fv0, fo0);
  }

  /** Feeding a factor pushes its value and leaves the operator stack as it was. */
  lemma {:induction false} FactorFeeds(ts: string, i: nat, additionFirst: bool, v: nat, j: nat, s: Stacks, vs: seq<nat>)
    requires Tokens(ts) && i <= |ts| && Factor(ts, i, additionFirst) == Some((v, j))
    requires Run([], s.output) == Some(vs)
    ensures FeedRange(s, ts, i, j, Precedence(additionFirst)).operations == s.operations
    ensures Run([], FeedRange(s, ts, i, j, Precedence(additionFirst)).output) == Some(vs + [v])
    decreases |ts| - i, 1
  {
    var p := Precedence(additionFirst);
    if IsDigit(ts[i]) {
      assert FeedRange(s, ts, i, i + 1, p) == Feed(s, ts[i], p);
      assert (s.output + [Value(v)])[..|s.output|] == s.output;
    } else {
      var e := Expr(ts, i + 1, additionFirst).value;
      ParenFeeds(ts, i, additionFirst, e.0, e.1, s, vs);
    }
  }

  /** An expression in parentheses: `'('` is a barrier for the frame the expression pushes, and
      `')'` collapses that frame and removes the `'('`. */
  lemma {:induction false} ParenFeeds(ts: string, i: nat, additionFirst: bool, v: nat, k: nat, s: Stacks, vs: seq<nat>)
    requires Tokens(ts) && i < |ts| && ts[i] == '(' && Expr(ts, i + 1, additionFirst) == Some((v, k))
    requires k < |ts| && ts[k] == ')'
    requires Run([], s.output) == Some(vs)
    ensures FeedRange(s, ts, i, k + 1, Precedence(additionFirst)).operations == s.operations
    ensures Run([], FeedRange(s, ts, i, k + 1, Precedence(additionFirst)).output) == Some(vs + [v])
    decreases |ts| - i, 0
  {
    var p := Precedence(additionFirst);
    var s1 := Feed(s, '(', p);
    var fo, fv := ExprFeeds(ts, i + 1, additionFirst, v, k, s1, vs);
    var s2 := FeedRange(s1, ts, i + 1, k, p);
    var s3 := Feed(s2, ')', p);
    assert s3 == Stacks(s.operations, s2.output + Popped(fo)) by {
      CloseParenFrame(s.operations + ['('], fo, s2.output);
      assert (s.operations + ['('])[..|s.operations|] == s.operations;
    }
    assert Run([], s3.output) == Some(vs + [v]) by {
      RunAppend([], s2.output, Popped(fo));
      CloseFrame(vs, fv, fo);
    }
    FeedParts(s, ts, i, k, k + 1, p);
    assert FeedRange(s2, ts, k, k + 1, p) == s3;
  }

  lemma AppendEmpty(a: seq<nat>, b: seq<nat>)
    ensures a + [] + b == a + b
  {
  }

  /** Feeding an expression that starts at a barrier pushes a frame onto the stacks that
      collapses to the expression's value. */
  lemma {:induction false} ExprFeeds(ts: string, i: nat, additionFirst: bool, v: nat, j: nat, s: Stacks, vs: seq<nat>)
    returns (fo: seq<char>, fv: seq<nat>)
    requires Tokens(ts) && i <= |ts| && Expr(ts, i, additionFirst) == Some((v, j))
    requires Barrier(s.operations) && Run([], s.output) == Some(vs)
    ensures Ops(fo) && |fv| == |fo| + 1 && Collapse(fv, fo) == v
    ensures FeedRange(s, ts, i, j, Precedence(additionFirst)).operations == s.operations + fo
    ensures Run([], FeedRange(s, ts, i, j, Precedence(additionFirst)).output) == Some(vs + fv)
    decreases |ts| - i, 3
  {
    var p := Precedence(additionFirst);
    if additionFirst {
      var t := Term(ts, i).value;
      var p1, f1 := TermFeeds(ts, i, t.0, t.1, s, vs);
      var s1 := FeedRange(s, ts, i, t.1, p);
      assert s1.operations == s.operations + Stars(0) + p1;
      AppendEmpty(vs, f1);
      assert Product([]) * Collapse(f1, p1) == t.0 by {
        assert Product([]) == 1;
      }
      fo, fv := ProductTailFeeds(ts, t.0, t.1, v, j, s1, s.operations, vs, 0, [], p1, f1);
      FeedRangeTrans(s, ts, i, t.1, j, p);
    } else {
      var f := Factor(ts, i, false).value;
      FactorFeeds(ts, i, false, f.0, f.1, s, vs);
      var s1 := FeedRange(s, ts, i, f.1, p);
      assert s1.operations == s.operations + [];
      fo, fv := FlatTailFeeds(ts, f.0, f.1, v, j, s1, s.operations, vs, [], [f.0]);
      FeedRangeTrans(s, ts, i, f.1, j, p);
    }
  }

  /** With one precedence level the frame holds at most one operator. */
  predicate FlatFrame(fo: seq<char>, fv: seq<nat>, acc: nat) {
    && Ops(fo) && |fo| <= 1 && |fv| == |fo| + 1
    && Collapse(fv, fo) == acc
  }

  /** One operator and the factor after it, with one precedence level. */
  lemma {:induction false} FlatStep(ts: string, acc: nat, i: nat, f: nat, j: nat, s: Stacks,
                                    ops0: seq<char>, vs: seq<nat>, fo0: seq<char>, fv0: seq<nat>)
    requires Tokens(ts) && i < |ts| && (ts[i] == '+' || ts[i] == '*')
    requires Factor(ts, i + 1, false) == Some((f, j))
    requires Barrier(ops0) && s.operations == ops0 + fo0 && FlatFrame(fo0, fv0, acc)
    requires Run([], s.output) == Some(vs + fv0)
    ensures FeedRange(Feed(s, ts[i], Precedence(false)), ts, i + 1, j, Precedence(false)).operations
            == ops0 + [ts[i]]
    ensures Run([], FeedRange(Feed(s, ts[i], Precedence(false)), ts, i + 1, j, Precedence(false)).output)
            == Some(vs + [acc, f])
    ensures FlatFrame([ts[i]], [acc, f], Apply(ts[i], acc, f))
    decreases |ts| - i, 4
  {
    FlatOperator(s, ts[i], ops0, vs, fo0, fv0, acc);
    FactorFeeds(ts, i + 1, false, f, j, Feed(s, ts[i], Precedence(false)), vs + [acc]);
    FlatPair(vs, ts[i], acc, f);
  }

  /** A frame of one operator between two values. */
  lemma FlatPair(vs: seq<nat>, o: char, acc: nat, f: nat)
    requires o == '+' || o == '*'
    ensures vs + [acc] + [f] == vs + [acc, f]
    ensures FlatFrame([o], [acc, f], Apply(o, acc, f))
  {
    CollapsePair(acc, f, o);
  }

  /** With one precedence level an operator pops the frame's operator, if any, and is pushed. */
  lemma FlatOperator(s: Stacks, o: char, ops0: seq<char>, vs: seq<nat>, fo0: seq<char>, fv0: seq<nat>, acc: nat)
    requires o == '+' || o == '*'
    requires Barrier(ops0) && s.operations == ops0 + fo0 && FlatFrame(fo0, fv0, acc)
    requires Run([], s.output) == Some(vs + fv0)
    ensures Feed(s, o, Precedence(false)).operations == ops0 + [o]
    ensures Run([], Feed(s, o, Precedence(false)).output) == Some(vs + [acc])
  {
    OperatorFeeds(s, o, Precedence(false), ops0, fo0, fv0, vs);
  }

  lemma {:induction false} FlatTailFeeds(ts: string, acc: nat, i: nat, v: nat, j: nat, s: Stacks,
                                         ops0: seq<char>, vs: seq<nat>, fo0: seq<char>, fv0: seq<nat>)
    returns (fo: seq<char>, fv: seq<nat>)
    requires Tokens(ts) && i <= |ts| && FlatTail(ts, acc, i) == Some((v, j))
    requires Barrier(ops0) && s.operations == ops0 + fo0 && FlatFrame(fo0, fv0, acc)
    requires Run([], s.output) == Some(vs + fv0)
    ensures Ops(fo) && |fv| == |fo| + 1 && Collapse(fv, fo) == v
    ensures FeedRange(s, ts, i, j, Precedence(false)).operations == ops0 + fo
    ensures Run([], FeedRange(s, ts, i, j, Precedence(false)).output) == Some(vs + fv)
    decreases |ts| - i, 5
  {
    var p := Precedence(false);
    if i < |ts| && (ts[i] == '+' || ts[i] == '*') {
      var f := Factor(ts, i + 1, false).value;
      FlatStep(ts, acc, i, f.0, f.1, s, ops0, vs, fo0, fv0);
      var s2 := FeedRange(Feed(s, ts[i], p), ts, i + 1, f.1, p);
      fo, fv := FlatTailFeeds(ts, Apply(ts[i], acc, f.0), f.1, v, j, s2, ops0, vs, [ts[i]], [acc, f.0]);
      FeedParts(s, ts, i, f.1, j, p);
    } else {
      fo, fv := fo0, fv0;
    }
  }

  /** Feeding a term, with no `+` on top of the stack, pushes a frame of at most one `+`. */
  lemma {:induction false} TermFeeds(ts: string, i: nat, v: nat, j: nat, s: Stacks, vs: seq<nat>)
    returns (p: seq<char>, f: seq<nat>)
    requires Tokens(ts) && i <= |ts| && Term(ts, i) == Some((v, j))
    requires |s.operations| == 0 || s.operations[|s.operations| - 1] != '+'
    requires Run([], s.output) == Some(vs)
    ensures (p == [] || p == ['+']) && |f| == |p| + 1 && Collapse(f, p) == v
    ensures FeedRange(s, ts, i, j, Precedence(true)).operations == s.operations + p
    ensures Run([], FeedRange(s, ts, i, j, Precedence(true)).output) == Some(vs + f)
    decreases |ts| - i, 2
  {
    var pr := Precedence(true);
    var g := Factor(ts, i, true).value;
    FactorFeeds(ts, i, true, g.0, g.1, s, vs);
    var s1 := FeedRange(s, ts, i, g.1, pr);
    assert s1.operations == s.operations + [];
    p, f := SumTailFeeds(ts, g.0, g.1, v, j, s1, s.operations, vs, [], [g.0]);
    FeedRangeTrans(s, ts, i, g.1, j, pr);
  }

  /** One `+` and the factor after it, with addition first. */
  lemma {:induction false} SumStep(ts: string, acc: nat, i: nat, g: nat, j: nat, s: Stacks,
                                   ops0: seq<char>, vs: seq<nat>, p0: seq<char>, f0: seq<nat>)
    requires Tokens(ts) && i < |ts| && ts[i] == '+'
    requires Factor(ts, i + 1, true) == Some((g, j))
    requires (|ops0| == 0 || ops0[|ops0| - 1] != '+') && s.operations == ops0 + p0
    requires (p0 == [] || p0 == ['+']) && |f0| == |p0| + 1 && Collapse(f0, p0) == acc
    requires Run([], s.output) == Some(vs + f0)
    ensures FeedRange(Feed(s, '+', Precedence(true)), ts, i + 1, j, Precedence(true)).operations
            == ops0 + ['+']
    ensures Run([], FeedRange(Feed(s, '+', Precedence(true)), ts, i + 1, j, Precedence(true)).output)
            == Some(vs + [acc, g])
    ensures Collapse([acc, g], ['+']) == acc + g
    decreases |ts| - i, 4
  {
    var p := Precedence(true);
    OperatorFeeds(s, '+', p, ops0, p0, f0, vs);
    FactorFeeds(ts, i + 1, true, g, j, Feed(s, '+', p), vs + [acc]);
    assert vs + [acc] + [g] == vs + [acc, g];
    CollapsePair(acc, g, '+');
  }

  lemma {:induction false} SumTailFeeds(ts: string, acc: nat, i: nat, v: nat, j: nat, s: Stacks,
                                        ops0: seq<char>, vs: seq<nat>, p0: seq<char>, f0: seq<nat>)
    returns (p: seq<char>, f: seq<nat>)
    requires Tokens(ts) && i <= |ts| && SumTail(ts, acc, i) == Some((v, j))
    requires (|ops0| == 0 || ops0[|ops0| - 1] != '+') && s.operations == ops0 + p0
    requires (p0 == [] || p0 == ['+']) && |f0| == |p0| + 1 && Collapse(f0, p0) == acc
    requires Run([], s.output) == Some(vs + f0)
    ensures (p == [] || p == ['+']) && |f| == |p| + 1 && Collapse(f, p) == v
    ensures FeedRange(s, ts, i, j, Precedence(true)).operations == ops0 + p
    ensures Run([], FeedRange(s, ts, i, j, Precedence(true)).output) == Some(vs + f)
    decreases |ts| - i, 5
  {
    var pr := Precedence(true);
    if i < |ts| && ts[i] == '+' {
      var g := Factor(ts, i + 1, true).value;
      SumStep(ts, acc, i, g.0, g.1, s, ops0, vs, p0, f0);
      var s2 := FeedRange(Feed(s, '+', pr), ts, i + 1, g.1, pr);
      p, f := SumTailFeeds(ts, acc + g.0, g.1, v, j, s2, ops0, vs, ['+'], [acc, g.0]);
      FeedParts(s, ts, i, g.1, j, pr);
    } else {
      p, f := p0, f0;
    }
  }

  /** One `*` and the term after it, with addition first. */
  lemma {:induction false} ProductStep(ts: string, i: nat, t: nat, j: nat, s: Stacks, ops0: seq<char>, vs: seq<nat>,
                                       k: nat, terms: seq<nat>, p0: seq<char>, f0: seq<nat>)
    returns (p1: seq<char>, f1: seq<nat>)
    requires Tokens(ts) && i < |ts| && ts[i] == '*'
    requires Term(ts, i + 1) == Some((t, j))
    requires Barrier(ops0) && s.operations == ops0 + Stars(k) + p0
    requires |terms| == k && (p0 == [] || p0 == ['+']) && |f0| == |p0| + 1
    requires Run([], s.output) == Some(vs + terms + f0)
    ensures (p1 == [] || p1 == ['+']) && |f1| == |p1| + 1 && Collapse(f1, p1) == t
    ensures FeedRange(Feed(s, '*', Precedence(true)), ts, i + 1, j, Precedence(true)).operations
            == ops0 + Stars(k + 1) + p1
    ensures Run([], FeedRange(Feed(s, '*', Precedence(true)), ts, i + 1, j, Precedence(true)).output)
            == Some(vs + (terms + [Collapse(f0, p0)]) + f1)
    decreases |ts| - i, 4
  {
    ProductOperator(s, ops0, vs, k, terms, p0, f0);
    p1, f1 := TermFeeds(ts, i + 1, t, j, Feed(s, '*', Precedence(true)), vs + (terms + [Collapse(f0, p0)]));
  }

  /** A `*` with addition first pops at most one `+` and stacks one more multiplication. */
  lemma ProductOperator(s: Stacks, ops0: seq<char>, vs: seq<nat>, k: nat, terms: seq<nat>, p0: seq<char>, f0: seq<nat>)
    requires Barrier(ops0) && s.operations == ops0 + Stars(k) + p0
    requires |terms| == k && (p0 == [] || p0 == ['+']) && |f0| == |p0| + 1
    requires Run([], s.output) == Some(vs + terms + f0)
    ensures Feed(s, '*', Precedence(true)).operations == ops0 + Stars(k + 1)
    ensures Stars(k + 1)[k] == '*'
    ensures Run([], Feed(s, '*', Precedence(true)).output) == Some(vs + (terms + [Collapse(f0, p0)]))
  {
    var base := ops0 + Stars(k);
    assert |base| == 0 || base[|base| - 1] != '+' by {
      if k > 0 {
        assert base[|base| - 1] == Stars(k)[k - 1];
      }
    }
    OperatorFeeds(s, '*', Precedence(true), base, p0, f0, vs + terms);
    SeqAssoc(ops0, Stars(k), ['*']);
    SeqAssoc(vs, terms, [Collapse(f0, p0)]);
  }

  /** With addition first, an expression's frame is `k` multiplications and at most one `+` on
      top, over the values `terms + f0`; it collapses to the product so far. */
  lemma {:induction false} ProductTailFeeds(ts: string, acc: nat, i: nat, v: nat, j: nat, s: Stacks,
                                            ops0: seq<char>, vs: seq<nat>, k: nat, terms: seq<nat>,
                                            p0: seq<char>, f0: seq<nat>)
    returns (fo: seq<char>, fv: seq<nat>)
    requires Tokens(ts) && i <= |ts| && ProductTail(ts, acc, i) == Some((v, j))
    requires Barrier(ops0) && s.operations == ops0 + Stars(k) + p0
    requires |terms| == k && (p0 == [] || p0 == ['+']) && |f0| == |p0| + 1
    requires Product(terms) * Collapse(f0, p0) == acc
    requires Run([], s.output) == Some(vs + terms + f0)
    ensures Ops(fo) && |fv| == |fo| + 1 && Collapse(fv, fo) == v
    ensures FeedRange(s, ts, i, j, Precedence(true)).operations == ops0 + fo
    ensures Run([], FeedRange(s, ts, i, j, Precedence(true)).output) == Some(vs + fv)
    decreases |ts| - i, 5
  {
    var pr := Precedence(true);
    if i < |ts| && ts[i] == '*' {
      var t := Term(ts, i + 1).value;
      var p1, f1 := ProductStep(ts, i, t.0, t.1, s, ops0, vs, k, terms, p0, f0);
      var s2 := FeedRange(Feed(s, '*', pr), ts, i + 1, t.1, pr);
      var terms' := terms + [Collapse(f0, p0)];
      assert terms'[..|terms'| - 1] == terms;
      assert Product(terms') * Collapse(f1, p1) == acc * t.0;
      MulMono(0, acc, t.0);
      fo, fv := ProductTailFeeds(ts, acc * t.0, t.1, v, j, s2, ops0, vs, k + 1, terms', p1, f1);
      FeedParts(s, ts, i, t.1, j, pr);
    } else {
      fo, fv := Stars(k) + p0, terms + f0;
      ProductClose(ops0, vs, k, terms, p0, f0);
    }
  }

  /** The frame of a finished product: `k` multiplications and at most one `+`. */
  lemma ProductClose(ops0: seq<char>, vs: seq<nat>, k: nat, terms: seq<nat>, p0: seq<char>, f0: seq<nat>)
    requires |terms| == k && (p0 == [] || p0 == ['+']) && |f0| == |p0| + 1
    ensures Ops(Stars(k) + p0) && |terms + f0| == |Stars(k) + p0| + 1
    ensures Collapse(terms + f0, Stars(k) + p0) == Product(terms) * Collapse(f0, p0)
    ensures ops0 + Stars(k) + p0 == ops0 + (Stars(k) + p0)
    ensures vs + terms + f0 == vs + (terms + f0)
  {
    CollapseSplit(terms, f0, Stars(k), p0);
    CollapseStars(terms, Collapse(f0, p0));
    var st := Stars(k);
    forall n | 0 <= n < |st + p0| ensures (st + p0)[n] == '+' || (st + p0)[n] == '*' {
      if n < |st| {
        assert (st + p0)[n] == st[n];
      }
    }
  }

  /** Whenever a line is one expression, the shunting-yard output evaluates to its value. */
  lemma ShuntingYardCorrect(line: string, additionFirst: bool)
    requires ValidLine(line) && Evaluate(line, additionFirst).Some?
    ensures Rpn(Output(line, additionFirst)) == Evaluate(line, additionFirst)
  {
    var ts := NoSpaces(line);
    var v := Evaluate(line, additionFirst).value;
    var t := FeedAll(Stacks([], []), ts, Precedence(additionFirst));
    var fo, fv := LineFeeds(ts, additionFirst, v);
    FlushSpec(t);
    RunAppend([], t.output, Popped(fo));
    CloseFrame([], fv, fo);
    assert [] + fv == fv && [] + [v] == [v];
  }

  /** The main loop over a whole expression leaves one frame that collapses to its value. */
  lemma LineFeeds(ts: string, additionFirst: bool, v: nat) returns (fo: seq<char>, fv: seq<nat>)
    requires Tokens(ts) && Expr(ts, 0, additionFirst) == Some((v, |ts|))
    ensures Ops(fo) && |fv| == |fo| + 1 && Collapse(fv, fo) == v
    ensures FeedAll(Stacks([], []), ts, Precedence(additionFirst)).operations == fo
    ensures Run([], FeedAll(Stacks([], []), ts, Precedence(additionFirst)).output) == Some(fv)
  {
    fo, fv := ExprFeeds(ts, 0, additionFirst, v, |ts|, Stacks([], []), []);
    FeedRangeAll(Stacks([], []), ts, |ts|, Precedence(additionFirst));
    assert ts[..|ts|] == ts;
    assert [] + fo == fo && [] + fv == fv;
  }

  // ---------------------------------------------------------------------------------------
  // A test line, written without its spaces
  // ---------------------------------------------------------------------------------------

  /** A line without spaces is its own token string. */
  lemma {:induction false} NoSpacesKeeps(s: string)
    requires forall i :: 0 <= i < |s| ==> s[i] != ' '
    ensures NoSpaces(s) == s
  {
    if |s| > 0 {
      NoSpacesKeeps(s[..|s| - 1]);
    }
  }
  lemma ValidExample()
    ensures ValidLine("2*3+(4*5)") && NoSpaces("2*3+(4*5)") == "2*3+(4*5)"
  {
    var l := "2*3+(4*5)";
    forall i | 0 <= i < |l| ensures l[i] == ' ' || Token(l[i]) {
      assert l[i] in "0123456789+*()";
    }
    NoSpacesKeeps(l);
  }
  /** The parenthesised part `(4 * 5)` of the test line. */
  lemma ParenExample()
    ensures Factor("2*3+(4*5)", 4, false) == Some((20, 9))
    ensures Factor("2*3+(4*5)", 4, true) == Some((20, 9))
  {
    var ts := "2*3+(4*5)";
    assert FlatTail(ts, 4, 6) == Some((20, 8));
    assert Expr(ts, 5, false) == Some((20, 8));
    assert Term(ts, 7) == Some((5, 8));
    assert ProductTail(ts, 4, 6) == Some((20, 8));
    assert Term(ts, 5) == Some((4, 6));
    assert Expr(ts, 5, true) == Some((20, 8));
  }
  lemma EvaluateFlat()
    ensures Evaluate("2*3+(4*5)", false) == Some(26)
  {
    var ts := "2*3+(4*5)";
    ValidExample();
    ParenExample();
    assert FlatTail(ts, 6, 3) == Some((26, 9));
    assert FlatTail(ts, 2, 1) == Some((26, 9));
    assert Expr(ts, 0, false) == Some((26, 9));
  }
  lemma EvaluateAdditionFirst()
    ensures Evaluate("2*3+(4*5)", true) == Some(46)
  {
    var ts := "2*3+(4*5)";
    ValidExample();
    ParenExample();
    assert SumTail(ts, 3, 3) == Some((23, 9));
    assert Term(ts, 2) == Some((23, 9));
    assert ProductTail(ts, 2, 1) == Some((46, 9));
    assert Term(ts, 0) == Some((2, 1));
  }
  /** The test line `2 * 3 + (4 * 5)` gives 26 left to right and 46 with addition first. */
  lemma Example26()
    ensures Rpn(Output("2*3+(4*5)", false)) == Some(26)
    ensures Rpn(Output("2*3+(4*5)", true)) == Some(46)
  {
    EvaluateFlat();
    EvaluateAdditionFirst();
    ValidExample();
    ShuntingYardCorrect("2*3+(4*5)", false);
    ShuntingYardCorrect("2*3+(4*5)", true);
  }
}

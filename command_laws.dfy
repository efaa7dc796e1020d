/** What each Befunge-93 command does to the machine, stated on explicit operands,
    and what `run_forever` promises over many steps. */
module CommandLaws {
  import opened Int64
  import opened Machine
  import opened Playfield
  import opened Io
  import opened Semantics

  /** The byte under the program counter. */
  function Current(s: State): byte
    requires Valid(s)
  {
    CellAt(s.grid, s.pc.position)
  }

  /** One step left the playfield, the string mode and the I/O alone and was
      counted. */
  predicate Kept(s: State, n: State) {
    n.grid == s.grid && n.stringMode == s.stringMode && n.input == s.input
    && n.output == s.output && n.steps == s.steps + 1
  }

  /** How many values a command pops. */
  function Arity(c: byte): nat {
    match GroupOf(c)
    case StackCommand => if c == '\\' as int then 2 else 1
    case Arithmetic => 2
    case InputOutput => if c == ',' as int || c == '.' as int then 1 else 0
    case Conditional => 1
    case GridAccess => if c == 'g' as int then 2 else 3
    case _ => 0
  }

  /** `rest` is what is left of `input` after reading some bytes from its front. */
  predicate Suffix(rest: seq<byte>, input: seq<byte>) {
    |rest| <= |input| && rest == input[|input| - |rest|..]
  }

  lemma SuffixTransitive(a: seq<byte>, b: seq<byte>, c: seq<byte>)
    requires Suffix(a, b) && Suffix(b, c)
    ensures Suffix(a, c)
  {
  }

  // ---- String mode and literals ----

  /** In string mode every byte but `"` is pushed as its unsigned value; `"` leaves
      string mode and pushes nothing; either way the program counter advances. */
  lemma StringModePushes(s: State, choice: Direction)
    requires Valid(s) && s.stringMode
    ensures var r := StepSpec(s, choice); var c := Current(s);
      && r.0 == Ok(())
      && r.1.pc == Advance(s.pc)
      && r.1.grid == s.grid && r.1.input == s.input && r.1.output == s.output
      && (c == '"' as int ==> !r.1.stringMode && r.1.stack == s.stack)
      && (c != '"' as int ==> r.1.stringMode && r.1.stack == s.stack + [c] && 0 <= c < 256)
  {
    assert StepSpec(s, choice) == (Ok(()), StringModeStep(s.(steps := s.steps + 1), Current(s)));
  }

  /** `"` enters string mode without pushing; a digit pushes its value 0 to 9. */
  lemma LiteralCommands(s: State, choice: Direction)
    requires Valid(s) && !s.stringMode && GroupOf(Current(s)) == Literal
    ensures var r := StepSpec(s, choice); var c := Current(s);
      && r.0 == Ok(())
      && r.1.pc == Advance(s.pc)
      && r.1.grid == s.grid && r.1.input == s.input && r.1.output == s.output
      && (c == '"' as int ==> r.1.stringMode && r.1.stack == s.stack)
      && (c != '"' as int ==>
            !r.1.stringMode && r.1.stack == s.stack + [c - '0' as int] && 0 <= c - '0' as int <= 9)
  {
    assert StepSpec(s, choice) == (Ok(()), LiteralStep(s.(steps := s.steps + 1), Current(s)));
  }

  // ---- Stack commands ----

  /** `:` `\` `$` `!` on a stack whose top two values are `a` and `b` (`b` on top);
      the values below them are untouched. */
  lemma StackCommands(s: State, choice: Direction, below: seq<Int>, a: Int, b: Int)
    requires Valid(s) && !s.stringMode && GroupOf(Current(s)) == StackCommand
    requires s.stack == below + [a, b]
    ensures var r := StepSpec(s, choice); var c := Current(s);
      && r.0 == Ok(()) && Kept(s, r.1) && r.1.pc == Advance(s.pc)
      && (c == ':' as int ==> r.1.stack == below + [a, b, b])
      && (c == '\\' as int ==> r.1.stack == below + [b, a])
      && (c == '$' as int ==> r.1.stack == below + [a])
      && (c == '!' as int ==> r.1.stack == below + [a, if b == 0 then 1 else 0])
  {
    assert StepSpec(s, choice) == (Ok(()), StackStep(s.(steps := s.steps + 1), Current(s)));
    assert Rest(s.stack) == below + [a];
  }

  /** On an empty stack `:` pushes two zeros, `\` pushes two zeros, `$` does
      nothing and `!` pushes 1. */
  lemma StackCommandsOnEmptyStack(s: State, choice: Direction)
    requires Valid(s) && !s.stringMode && GroupOf(Current(s)) == StackCommand && s.stack == []
    ensures var r := StepSpec(s, choice); var c := Current(s);
      && r.0 == Ok(()) && Kept(s, r.1) && r.1.pc == Advance(s.pc)
      && (c == ':' as int ==> r.1.stack == [0, 0])
      && (c == '\\' as int ==> r.1.stack == [0, 0])
      && (c == '$' as int ==> r.1.stack == [])
      && (c == '!' as int ==> r.1.stack == [1])
  {
    assert StepSpec(s, choice) == (Ok(()), StackStep(s.(steps := s.steps + 1), Current(s)));
  }

  /** A value a command pops from an exhausted stack reads as 0: putting one more
      0 under a stack too short for the command does not change the step. */
  lemma MissingOperandsReadAsZero(s: State, choice: Direction)
    requires Valid(s) && !s.stringMode && |s.stack| < Arity(Current(s))
    ensures StepSpec(s.(stack := [0] + s.stack), choice) == StepSpec(s, choice)
  {
    var c := Current(s);
    var t := s.(steps := s.steps + 1);
    var u := t.(stack := [0] + s.stack);
    assert s.(stack := [0] + s.stack).(steps := s.steps + 1) == u;
    match GroupOf(c)
    case StackCommand => StackPadded(t, c);
    case Arithmetic => ArithmeticPadded(t, c);
    case InputOutput => IoPadded(t, c);
    case Conditional => ConditionalPadded(t, c);
    case GridAccess => GridPadded(t, c);
    case _ =>
  }

  /** The stack after popping up to three values, from a stack with a 0 put under
      it. */
  lemma PopsPadded(st: seq<Int>)
    ensures Top([0] + st) == Top(st)
    ensures |st| >= 1 ==> Top(Rest([0] + st)) == Top(Rest(st))
    ensures |st| >= 2 ==> Top(Rest(Rest([0] + st))) == Top(Rest(Rest(st)))
    ensures |st| < 1 ==> Rest([0] + st) == Rest(st)
    ensures |st| < 2 ==> Rest(Rest([0] + st)) == Rest(Rest(st))
    ensures |st| < 3 ==> Rest(Rest(Rest([0] + st))) == Rest(Rest(Rest(st)))
  {
    PopPadded(st);
    if |st| >= 1 {
      PopPadded(Rest(st));
      if |st| >= 2 {
        PopPadded(Rest(Rest(st)));
      }
    }
  }

  lemma StackPadded(t: State, c: byte)
    requires Valid(t) && GroupOf(c) == StackCommand && |t.stack| < Arity(c)
    ensures StackStep(t.(stack := [0] + t.stack), c) == StackStep(t, c)
  {
    PopsPadded(t.stack);
  }

  lemma ArithmeticPadded(t: State, c: byte)
    requires Valid(t) && GroupOf(c) == Arithmetic && |t.stack| < Arity(c)
    ensures ArithmeticStep(t.(stack := [0] + t.stack), c) == ArithmeticStep(t, c)
  {
    PopsPadded(t.stack);
  }

  lemma IoPadded(t: State, c: byte)
    requires Valid(t) && GroupOf(c) == InputOutput && |t.stack| < Arity(c)
    ensures IoStep(t.(stack := [0] + t.stack), c) == IoStep(t, c)
  {
    PopsPadded(t.stack);
  }

  lemma ConditionalPadded(t: State, c: byte)
    requires Valid(t) && GroupOf(c) == Conditional && |t.stack| < Arity(c)
    ensures ConditionalStep(t.(stack := [0] + t.stack), c) == ConditionalStep(t, c)
  {
    PopsPadded(t.stack);
  }

  lemma GridPadded(t: State, c: byte)
    requires Valid(t) && GroupOf(c) == GridAccess && |t.stack| < Arity(c)
    ensures GridStep(t.(stack := [0] + t.stack), c) == GridStep(t, c)
  {
    PopsPadded(t.stack);
  }

  /** Popping from a stack with a 0 put under it. */
  lemma PopPadded(st: seq<Int>)
    ensures Top([0] + st) == Top(st)
    ensures Rest([0] + st) == if st == [] then [] else [0] + Rest(st)
  {
    if st != [] {
      assert ([0] + st)[..|st|] == [0] + st[..|st| - 1];
    }
  }

  // ---- Arithmetic ----

  /** `+ - * / % \`` pop `b`, then `a`, and push `a op b` in 64-bit wrapping
      arithmetic; a zero divisor panics. */
  lemma ArithmeticCommands(s: State, choice: Direction, below: seq<Int>, a: Int, b: Int)
    requires Valid(s) && !s.stringMode && GroupOf(Current(s)) == Arithmetic
    requires s.stack == below + [a, b]
    ensures var r := StepSpec(s, choice); var c := Current(s);
      && (r.0.Ok? ==> Kept(s, r.1) && r.1.pc == Advance(s.pc))
      && (c == '+' as int ==> r.0 == Ok(()) && r.1.stack == below + [WrappingAdd(a, b)])
      && (c == '-' as int ==> r.0 == Ok(()) && r.1.stack == below + [WrappingSub(a, b)])
      && (c == '*' as int ==> r.0 == Ok(()) && r.1.stack == below + [WrappingMul(a, b)])
      && (c == '/' as int && b == 0 ==> r.0 == Panic(DivideByZero))
      && (c == '/' as int && b != 0 ==> r.0 == Ok(()) && r.1.stack == below + [WrappingDiv(a, b)])
      && (c == '%' as int && b == 0 ==> r.0 == Panic(RemainderByZero))
      && (c == '%' as int && b != 0 ==> r.0 == Ok(()) && r.1.stack == below + [WrappingRem(a, b)])
      && (c == '`' as int ==> r.0 == Ok(()) && r.1.stack == below + [if a > b then 1 else 0])
  {
    assert StepSpec(s, choice) == ArithmeticStep(s.(steps := s.steps + 1), Current(s));
    assert Rest(s.stack) == below + [a];
  }

  // ---- Movement and conditionals ----

  /** `> < ^ v` turn and advance, `?` turns to the random direction and advances,
      `#` advances twice, the space advances; none touches the stack. */
  lemma MovementCommands(s: State, choice: Direction)
    requires Valid(s) && !s.stringMode && GroupOf(Current(s)) == Movement
    ensures var r := StepSpec(s, choice); var c := Current(s); var p := s.pc.position;
      && r.0 == Ok(()) && Kept(s, r.1) && r.1.stack == s.stack
      && (c == '>' as int ==> r.1.pc == Advance(PC(p, Right)))
      && (c == '<' as int ==> r.1.pc == Advance(PC(p, Left)))
      && (c == '^' as int ==> r.1.pc == Advance(PC(p, Up)))
      && (c == 'v' as int ==> r.1.pc == Advance(PC(p, Down)))
      && (c == '?' as int ==> r.1.pc == Advance(PC(p, choice)))
      && (c == '#' as int ==> r.1.pc == Advance(Advance(s.pc)))
      && (c == ' ' as int ==> r.1.pc == Advance(s.pc))
  {
    assert StepSpec(s, choice) == (Ok(()), MovementStep(s.(steps := s.steps + 1), Current(s), choice));
  }

  /** `_` pops and heads right on 0, left otherwise; `|` heads down on 0, up
      otherwise. */
  lemma ConditionalCommands(s: State, choice: Direction, below: seq<Int>, top: Int)
    requires Valid(s) && !s.stringMode && GroupOf(Current(s)) == Conditional
    requires s.stack == below + [top]
    ensures var r := StepSpec(s, choice); var c := Current(s); var p := s.pc.position;
      && r.0 == Ok(()) && Kept(s, r.1) && r.1.stack == below
      && (c == '_' as int ==> r.1.pc == Advance(PC(p, if top == 0 then Right else Left)))
      && (c == '|' as int ==> r.1.pc == Advance(PC(p, if top == 0 then Down else Up)))
  {
    assert StepSpec(s, choice) == (Ok(()), ConditionalStep(s.(steps := s.steps + 1), Current(s)));
  }

  // ---- `g` and `p` ----

  /** `g` pops `y` and `x` and pushes the cell at `(x, y)`: 0 off the playfield,
      the byte read as signed 8-bit on it. */
  lemma GetCommand(s: State, choice: Direction, below: seq<Int>, x: Int, y: Int)
    requires Valid(s) && !s.stringMode && Current(s) == 'g' as int
    requires s.stack == below + [x, y]
    ensures var r := StepSpec(s, choice);
      && r.0 == Ok(()) && Kept(s, r.1) && r.1.pc == Advance(s.pc)
      && r.1.stack == below + [GetCell(s.grid, x, y)]
  {
    assert StepSpec(s, choice) == (Ok(()), GridStep(s.(steps := s.steps + 1), Current(s)));
    assert Rest(s.stack) == below + [x];
  }

  /** `p` pops `y`, `x` and `v` and stores `v`'s low byte at `(x, y)` if that is on
      the playfield, and changes no other cell. */
  lemma PutCommand(s: State, choice: Direction, below: seq<Int>, v: Int, x: Int, y: Int)
    requires Valid(s) && !s.stringMode && Current(s) == 'p' as int
    requires s.stack == below + [v, x, y]
    ensures var r := StepSpec(s, choice);
      && r.0 == Ok(()) && r.1.pc == Advance(s.pc)
      && r.1.stringMode == s.stringMode && r.1.input == s.input && r.1.output == s.output
      && r.1.grid == PutCell(s.grid, x, y, v) && r.1.stack == below
  {
    assert StepSpec(s, choice) == (Ok(()), GridStep(s.(steps := s.steps + 1), Current(s)));
    assert Rest(s.stack) == below + [v, x];
    assert Rest(Rest(s.stack)) == below + [v];
  }

  /** `p` followed by `g` of the same cell reads back any signed 8-bit value. */
  lemma PutThenGet(s: State, choice: Direction, below: seq<Int>, v: Int, x: Int, y: Int)
    requires Valid(s) && !s.stringMode && Current(s) == 'p' as int
    requires s.stack == below + [x, y, v, x, y]
    requires InGrid(Position(x, y)) && -128 <= v < 128
    requires CellAt(PutCell(s.grid, x, y, v), Advance(s.pc).position) == 'g' as int
    ensures var n := StepSpec(s, choice).1;
      StepSpec(n, choice).0 == Ok(()) && StepSpec(n, choice).1.stack == below + [v]
  {
    var r := StepSpec(s, choice);
    assert s.stack == (below + [x, y]) + [v, x, y];
    PutCommand(s, choice, below + [x, y], v, x, y);
    GetCommand(r.1, choice, below, x, y);
    GetAfterPut(s.grid, x, y, v);
  }

  // ---- I/O ----

  /** `,` writes an ASCII value and fails with `NonAscii` otherwise, without
      moving; `.` writes the value in decimal followed by a space. */
  lemma OutputCommands(s: State, choice: Direction, below: seq<Int>, top: Int)
    requires Valid(s) && !s.stringMode && (Current(s) == ',' as int || Current(s) == '.' as int)
    requires s.stack == below + [top]
    ensures var r := StepSpec(s, choice); var c := Current(s);
      && r.1.stack == below && r.1.grid == s.grid && r.1.input == s.input
      && (c == ',' as int && 0 <= top < 128 ==>
            r.0 == Ok(()) && r.1.output == s.output + [top] && r.1.pc == Advance(s.pc))
      && (c == ',' as int && !(0 <= top < 128) ==>
            r.0 == Err(NonAscii(top)) && r.1.output == s.output && r.1.pc == s.pc)
      && (c == '.' as int ==>
            r.0 == Ok(()) && r.1.output == s.output + DecimalOutput(top) && r.1.pc == Advance(s.pc))
  {
    assert StepSpec(s, choice) == IoStep(s.(steps := s.steps + 1), Current(s));
  }

  /** `~` pushes the next input byte, or -1 at the end of the input or for a 0xFF
      byte; `&` pushes the next decimal token, fails with `InvalidData` on a token
      that is not one (without moving), and never returns when only delimiters are
      left. */
  lemma InputCommands(s: State, choice: Direction)
    requires Valid(s) && !s.stringMode && (Current(s) == '~' as int || Current(s) == '&' as int)
    ensures var r := StepSpec(s, choice); var c := Current(s); var scan := ScanSpec(s.input);
      && r.1.grid == s.grid && r.1.output == s.output
      && (c == '~' as int && s.input == [] ==>
            r.0 == Ok(()) && r.1.stack == s.stack + [-1] && r.1.input == [] && r.1.pc == Advance(s.pc))
      && (c == '~' as int && s.input != [] ==>
            && r.0 == Ok(()) && r.1.input == s.input[1..] && r.1.pc == Advance(s.pc)
            && r.1.stack == s.stack + [if s.input[0] == 0xFF then -1 else s.input[0]])
      && (c == '&' as int && scan.0.Token? ==>
            && r.0 == Ok(()) && r.1.stack == s.stack + [scan.0.value] && r.1.input == scan.1
            && r.1.pc == Advance(s.pc))
      && (c == '&' as int && scan.0 == BadToken ==>
            r.0 == Err(Io(InvalidData)) && r.1.stack == s.stack && r.1.pc == s.pc)
      && (c == '&' as int && scan.0 == NeverReturns ==> r.0 == Hang)
  {
    assert StepSpec(s, choice) == IoStep(s.(steps := s.steps + 1), Current(s));
  }

  /** A value written by `.` is read back by `&` from the same bytes. */
  lemma DecimalEcho(s: State, choice: Direction, n: Int, rest: seq<byte>)
    requires Valid(s) && !s.stringMode && Current(s) == '&' as int
    requires s.input == DecimalOutput(n) + rest
    ensures var r := StepSpec(s, choice);
      r.0 == Ok(()) && r.1.stack == s.stack + [n] && r.1.input == rest
  {
    assert StepSpec(s, choice) == IoStep(s.(steps := s.steps + 1), Current(s));
    ScanReadsDecimalOutput(n, rest);
  }

  // ---- `@` and illegal commands ----

  /** `@` ends the program and any byte that is no command fails with
      `IllegalCommand`; both leave the machine as it was apart from the step
      count. */
  lemma EndAndIllegalCommands(s: State, choice: Direction)
    requires Valid(s) && !s.stringMode
    ensures var r := StepSpec(s, choice); var c := Current(s);
      && (c == '@' as int ==> r == (Err(ProgramEnd), s.(steps := s.steps + 1)))
      && (GroupOf(c) == Illegal ==> r == (Err(IllegalCommand(c)), s.(steps := s.steps + 1)))
      && (GroupOf(c) != Illegal && c != '@' as int ==> !r.0.Err? || r.0.error.Io? || r.0.error.NonAscii?)
  {
  }

  // ---- What a step may change ----

  /** A step changes the playfield only at `p`, consumes input only at `~` and `&`
      and writes output only at `,` and `.`; input is only ever consumed from the
      front and output only ever appended to. */
  lemma StepFrame(s: State, choice: Direction)
    requires Valid(s)
    ensures var r := StepSpec(s, choice); var c := Current(s);
      && (r.1.grid != s.grid ==> !s.stringMode && c == 'p' as int)
      && (r.1.input != s.input ==> !s.stringMode && (c == '~' as int || c == '&' as int))
      && (r.1.output != s.output ==> !s.stringMode && (c == ',' as int || c == '.' as int))
      && Suffix(r.1.input, s.input)
      && s.output <= r.1.output
  {
    var c := Current(s);
    var t := s.(steps := s.steps + 1);
    if s.stringMode {
      assert StepSpec(s, choice) == (Ok(()), StringModeStep(t, c));
    } else {
      match GroupOf(c)
      case Movement => assert StepSpec(s, choice) == (Ok(()), MovementStep(t, c, choice));
      case Literal => assert StepSpec(s, choice) == (Ok(()), LiteralStep(t, c));
      case StackCommand => assert StepSpec(s, choice) == (Ok(()), StackStep(t, c));
      case Arithmetic => assert StepSpec(s, choice) == ArithmeticStep(t, c);
      case InputOutput =>
        assert StepSpec(s, choice) == IoStep(t, c);
        IoFrame(t, c);
      case Conditional => assert StepSpec(s, choice) == (Ok(()), ConditionalStep(t, c));
      case GridAccess => assert StepSpec(s, choice) == (Ok(()), GridStep(t, c));
      case End =>
      case Illegal =>
    }
  }

  /** The I/O commands' part of `StepFrame`. */
  lemma IoFrame(t: State, c: byte)
    requires Valid(t) && GroupOf(c) == InputOutput
    ensures var r := IoStep(t, c);
      && r.1.grid == t.grid
      && (r.1.input != t.input ==> c == '~' as int || c == '&' as int)
      && (r.1.output != t.output ==> c == ',' as int || c == '.' as int)
      && Suffix(r.1.input, t.input)
      && t.output <= r.1.output
  {
    var r := IoStep(t, c);
    match c as char
    case ',' =>
      assert r.1.input == t.input;
    case '.' =>
      assert r.1.input == t.input;
    case '~' =>
      ReadAsciiConsumes(t.input);
      assert r.1.input == ReadAscii(t.input).1 && r.1.output == t.output;
    case _ =>
      var scan := ScanSpec(t.input);
      assert r.1.input == scan.1 && r.1.output == t.output;
  }

  /** The I/O part of `StepFrame` alone. */
  lemma StepReadsAndAppends(s: State, choice: Direction)
    requires Valid(s)
    ensures var r := StepSpec(s, choice); Suffix(r.1.input, s.input) && s.output <= r.1.output
  {
    StepFrame(s, choice);
  }

  lemma ReadAsciiConsumes(input: seq<byte>)
    ensures Suffix(ReadAscii(input).1, input)
  {
  }

  // ---- `run_forever` ----

  /** More fuel changes nothing once the run has ended within the smaller bound. */
  lemma {:induction false} RunFuelMonotone(s: State, oracle: nat -> Direction, fuel: nat, more: nat)
    requires Valid(s) && fuel <= more && Run(s, oracle, fuel).0 != OutOfFuel
    ensures Run(s, oracle, more) == Run(s, oracle, fuel)
    decreases fuel, 0
  {
    AfterStepFuelMonotone(StepSpec(s, oracle(s.steps)), oracle, fuel - 1, more - 1);
  }

  lemma {:induction false} AfterStepFuelMonotone(step: (Outcome<()>, State), oracle: nat -> Direction, fuel: nat, more: nat)
    requires Valid(step.1) && fuel <= more && AfterStep(step, oracle, fuel).0 != OutOfFuel
    ensures AfterStep(step, oracle, more) == AfterStep(step, oracle, fuel)
    decreases fuel, 1
  {
    if step.0 != Err(ProgramEnd) && step.0.Ok? {
      RunFuelMonotone(step.1, oracle, fuel, more);
    }
  }

  /** A run ends normally only on an `@` outside string mode, with the program
      counter still on it. */
  lemma {:induction false} RunOkOnlyAtEnd(s: State, oracle: nat -> Direction, fuel: nat)
    requires Valid(s)
    ensures var r := Run(s, oracle, fuel);
      r.0 == Ok(()) ==> !r.1.stringMode && Current(r.1) == '@' as int
    decreases fuel
  {
    if fuel > 0 {
      var step := StepSpec(s, oracle(s.steps));
      if step.0 == Err(ProgramEnd) {
        EndOnlyByAt(s, oracle(s.steps));
      } else if step.0.Ok? {
        RunOkOnlyAtEnd(step.1, oracle, fuel - 1);
      }
    }
  }

  /** Only `@` yields `ProgramEnd`, and leaves the machine where it was. */
  lemma EndOnlyByAt(s: State, choice: Direction)
    requires Valid(s) && StepSpec(s, choice).0 == Err(ProgramEnd)
    ensures !s.stringMode && Current(s) == '@' as int
    ensures StepSpec(s, choice).1 == s.(steps := s.steps + 1)
  {
  }

  /** Over a whole run the output only grows, the input is only consumed from the
      front, and the step count rises by at most the fuel. */
  lemma RunFrame(s: State, oracle: nat -> Direction, fuel: nat)
    requires Valid(s)
    ensures var r := Run(s, oracle, fuel);
      && s.output <= r.1.output
      && Suffix(r.1.input, s.input)
      && s.steps <= r.1.steps <= s.steps + fuel
  {
    forall a: State, b: State, c: State | ReadsAndAppends(a, b) && ReadsAndAppends(b, c)
      ensures ReadsAndAppends(a, c)
    {
      SuffixTransitive(c.input, b.input, a.input);
    }
    forall a: State, choice: Direction | Valid(a)
      ensures ReadsAndAppends(a, StepSpec(a, choice).1)
    {
      StepReadsAndAppends(a, choice);
    }
    RunPreserves(ReadsAndAppends, s, oracle, fuel);
    RunCounts(s, oracle, fuel);
  }

  /** Any reflexive and transitive relation that every step keeps, a whole run
      keeps. */
  lemma {:induction false} RunPreserves(keeps: (State, State) -> bool, s: State, oracle: nat -> Direction, fuel: nat)
    requires forall a: State :: keeps(a, a)
    requires forall a: State, b: State, c: State :: keeps(a, b) && keeps(b, c) ==> keeps(a, c)
    requires forall a: State, choice: Direction :: Valid(a) ==> keeps(a, StepSpec(a, choice).1)
    requires Valid(s)
    ensures keeps(s, Run(s, oracle, fuel).1)
    decreases fuel
  {
    if fuel > 0 {
      var step := StepSpec(s, oracle(s.steps));
      if step.0 != Err(ProgramEnd) && step.0.Ok? {
        RunPreserves(keeps, step.1, oracle, fuel - 1);
      }
    }
  }

  /** The relation `RunFrame` states about the I/O. */
  predicate ReadsAndAppends(a: State, b: State) {
    Suffix(b.input, a.input) && a.output <= b.output
  }

  lemma {:induction false} RunCounts(s: State, oracle: nat -> Direction, fuel: nat)
    requires Valid(s)
    ensures s.steps <= Run(s, oracle, fuel).1.steps <= s.steps + fuel
    decreases fuel
  {
    if fuel > 0 {
      var step := StepSpec(s, oracle(s.steps));
      if step.0 != Err(ProgramEnd) && step.0.Ok? {
        RunCounts(step.1, oracle, fuel - 1);
      }
    }
  }
}

/** `Interpreter`: the reference interpreter as an object whose fields `run_step`
    updates in place. Every method is proved to compute the functions of
    `Semantics` on the object's `Snapshot`. */
module Interp {
  import opened Int64
  import opened Machine
  import opened Playfield
  import opened Io
  import opened Semantics

  class Interpreter {
    /** `program_grid`, rewritten in place by `p`. */
    const grid: array2<byte>
    var stack: seq<Int>
    var stringMode: bool
    var pc: PC
    var steps: nat
    /** What `input` has not yet yielded. */
    var input: seq<byte>
    /** Everything written to `output`. */
    var output: seq<byte>

    ghost predicate Valid()
      reads this`pc
    {
      grid.Length0 == Height && grid.Length1 == Width && InGrid(pc.position)
    }

    /** The object's fields as a `Semantics.State`. */
    ghost function Snapshot(): (s: State)
      requires Valid()
      reads this, grid
      ensures Semantics.Valid(s)
    {
      State(GridOf(grid), stack, stringMode, pc, steps, input, output)
    }

    /** `new_with_io` after a successful `parse_grid`: an empty stack, the program
        counter at the top-left heading right, no steps taken. */
    constructor(g: Grid, input: seq<byte>)
      requires WellFormed(g)
      ensures Valid() && fresh(grid)
      ensures Snapshot() == Initial(g, input)
    {
      var a := GridArray(g);
      grid := a;
      stack := [];
      stringMode := false;
      pc := InitialPC;
      steps := 0;
      this.input := input;
      output := [];
    }

    /** `stack.pop().unwrap_or_default()`. */
    method Pop() returns (v: Int)
      modifies this`stack
      ensures v == Top(old(stack)) && stack == Rest(old(stack))
    {
      if |stack| == 0 {
        v := 0;
      } else {
        v := stack[|stack| - 1];
        stack := stack[..|stack| - 1];
      }
    }

    method Push(v: Int)
      modifies this`stack
      ensures stack == old(stack) + [v]
    {
      stack := stack + [v];
    }

    /** Set the direction, then `move_pc!`. */
    method Turn(d: Direction)
      requires Valid()
      modifies this`pc
      ensures Valid() && pc == Advance(PC(old(pc).position, d))
    {
      pc := PC(pc.position, d);
      MoveOn();
    }

    /** `move_pc!`: `step`, then `constrain`. */
    method MoveOn()
      requires Valid()
      modifies this`pc
      ensures Valid() && pc == Advance(old(pc))
    {
      AdvanceStaysInGrid(pc);
      pc := Step(pc);
      pc := Constrain(pc);
    }

    /** `Interpreter::run_step`; `choice` is the direction `?` draws. */
    method RunStep(choice: Direction) returns (r: Outcome<()>)
      requires Valid()
      modifies this, grid
      ensures Valid()
      ensures (r, Snapshot()) == StepSpec(old(Snapshot()), choice)
    {
      ghost var before := Snapshot();
      steps := steps + 1;
      var c := grid[pc.position.y, pc.position.x];
      ghost var t := Snapshot();
      assert t == before.(steps := before.steps + 1) && c == CellAt(before.grid, before.pc.position);
      if stringMode {
        assert StepSpec(before, choice) == (Ok(()), StringModeStep(t, c));
        if c == '"' as int {
          stringMode := false;
        } else {
          Push(c);
        }
        MoveOn();
        return Ok(());
      }
      match GroupOf(c)
      case Movement =>
        assert StepSpec(before, choice) == (Ok(()), MovementStep(t, c, choice));
        Redirect(c, choice);
        r := Ok(());
      case Literal =>
        assert StepSpec(before, choice) == (Ok(()), LiteralStep(t, c));
        PushLiteral(c);
        r := Ok(());
      case StackCommand =>
        assert StepSpec(before, choice) == (Ok(()), StackStep(t, c));
        ManipulateStack(c);
        r := Ok(());
      case Arithmetic =>
        assert StepSpec(before, choice) == ArithmeticStep(t, c);
        r := Calculate(c);
      case InputOutput =>
        assert StepSpec(before, choice) == IoStep(t, c);
        r := Communicate(c);
      case Conditional =>
        assert StepSpec(before, choice) == (Ok(()), ConditionalStep(t, c));
        Branch(c);
        r := Ok(());
      case GridAccess =>
        assert StepSpec(before, choice) == (Ok(()), GridStep(t, c));
        AccessGrid(c);
        r := Ok(());
      case End =>
        r := Err(ProgramEnd);
      case Illegal =>
        r := Err(IllegalCommand(c));
    }

    method Redirect(c: byte, choice: Direction)
      requires Valid() && GroupOf(c) == Movement
      modifies this`pc
      ensures Valid() && Snapshot() == MovementStep(old(Snapshot()), c, choice)
    {
      match c as char
      case '>' => Turn(Right);
      case '<' => Turn(Left);
      case '^' => Turn(Up);
      case 'v' => Turn(Down);
      case '?' => Turn(choice);
      case '#' => MoveOn(); MoveOn();
      case _ => MoveOn();
    }

    method PushLiteral(c: byte)
      requires Valid() && GroupOf(c) == Literal
      modifies this`stack, this`stringMode, this`pc
      ensures Valid() && Snapshot() == LiteralStep(old(Snapshot()), c)
    {
      if c == '"' as int {
        stringMode := true;
      } else {
        Push(c - '0' as int);
      }
      MoveOn();
    }

    method ManipulateStack(c: byte)
      requires Valid() && GroupOf(c) == StackCommand
      modifies this`stack, this`pc
      ensures Valid() && Snapshot() == StackStep(old(Snapshot()), c)
    {
      ghost var before := Snapshot();
      match c as char {
        case ':' =>
          var top := Pop();
          Push(top);
          Push(top);
        case '\\' =>
          var top := Pop();
          var second := Pop();
          Push(top);
          Push(second);
        case '$' =>
          var _ := Pop();
        case _ =>
          var b := Pop();
          Push(if b == 0 then 1 else 0);
      }
      assert stack == StackEffect(c, before.stack);
      MoveOn();
    }

    method Calculate(c: byte) returns (r: Outcome<()>)
      requires Valid() && GroupOf(c) == Arithmetic
      modifies this`stack, this`pc
      ensures Valid() && (r, Snapshot()) == ArithmeticStep(old(Snapshot()), c)
    {
      ghost var before := Snapshot();
      var b := Pop();
      var a := Pop();
      assert Snapshot() == before.(stack := Rest(Rest(before.stack)));
      var v: Int;
      match c as char {
        case '+' => v := WrappingAdd(a, b);
        case '-' => v := WrappingSub(a, b);
        case '*' => v := WrappingMul(a, b);
        case '/' =>
          if b == 0 {
            return Panic(DivideByZero);
          }
          v := WrappingDiv(a, b);
        case '%' =>
          if b == 0 {
            return Panic(RemainderByZero);
          }
          v := WrappingRem(a, b);
        case _ => v := if a > b then 1 else 0;
      }
      assert BinaryValue(c, a, b) == Ok(v);
      Push(v);
      MoveOn();
      r := Ok(());
    }

    method Communicate(c: byte) returns (r: Outcome<()>)
      requires Valid() && GroupOf(c) == InputOutput
      modifies this`stack, this`pc, this`input, this`output
      ensures Valid() && (r, Snapshot()) == IoStep(old(Snapshot()), c)
    {
      match c as char
      case ',' =>
        var top := Pop();
        if !(0 <= top < 128) {
          return Err(NonAscii(top));
        }
        output := output + [top];
        MoveOn();
        r := Ok(());
      case '.' =>
        var top := Pop();
        output := output + DecimalOutput(top);
        MoveOn();
        r := Ok(());
      case '~' =>
        var ascii: byte := 0xFF;
        if |input| > 0 {
          ascii := input[0];
          input := input[1..];
        }
        Push(if ascii != 0xFF then ascii else -1);
        MoveOn();
        r := Ok(());
      case _ =>
        var scanned, rest := ScanNext(input);
        input := rest;
        match scanned
        case Token(v) =>
          Push(v);
          MoveOn();
          r := Ok(());
        case BadToken =>
          r := Err(Io(InvalidData));
        case NeverReturns =>
          r := Hang;
    }

    method Branch(c: byte)
      requires Valid() && GroupOf(c) == Conditional
      modifies this`stack, this`pc
      ensures Valid() && Snapshot() == ConditionalStep(old(Snapshot()), c)
    {
      var top := Pop();
      if c == '_' as int {
        Turn(if top == 0 then Right else Left);
      } else {
        Turn(if top == 0 then Down else Up);
      }
    }

    method AccessGrid(c: byte)
      requires Valid() && GroupOf(c) == GridAccess
      modifies this`stack, this`pc, grid
      ensures Valid() && Snapshot() == GridStep(old(Snapshot()), c)
    {
      var y := Pop();
      var x := Pop();
      if c == 'g' as int {
        Push(if 0 <= x < Width && 0 <= y < Height then SignExtend(grid[y, x]) else 0);
      } else {
        var v := Pop();
        if 0 <= x < Width && 0 <= y < Height {
          ghost var before := Snapshot();
          grid[y, x] := LowByte(v);
          GridExtensionality(GridOf(grid), PutCell(before.grid, x, y, v));
        }
      }
      MoveOn();
    }

    /** `Executer::run_forever` for at most `fuel` steps; `oracle` gives the
        direction `?` draws at each step count. */
    method RunForever(oracle: nat -> Direction, fuel: nat) returns (r: Outcome<()>)
      requires Valid()
      modifies this, grid
      ensures Valid()
      ensures (r, Snapshot()) == Run(old(Snapshot()), oracle, fuel)
    {
      ghost var target := Run(Snapshot(), oracle, fuel);
      var remaining := fuel;
      while remaining > 0
        invariant Valid() && Run(Snapshot(), oracle, remaining) == target
        decreases remaining
      {
        var stop;
        stop, r, remaining := Round(oracle, remaining, target);
        if stop {
          return;
        }
      }
      r := OutOfFuel;
    }

    /** One pass of `run_forever`'s loop: a step, then stop with `Ok` at `@`,
        stop with any other failure, or go on with `left` steps left. */
    method Round(oracle: nat -> Direction, remaining: nat, ghost target: (Outcome<()>, State))
      returns (stop: bool, r: Outcome<()>, left: nat)
      requires Valid() && remaining > 0 && Run(Snapshot(), oracle, remaining) == target
      modifies this, grid
      ensures Valid() && left == remaining - 1
      ensures stop ==> (r, Snapshot()) == target
      ensures !stop ==> Run(Snapshot(), oracle, left) == target
    {
      left := remaining - 1;
      var result := RunStep(oracle(steps));
      if result == Err(ProgramEnd) {
        return true, Ok(()), left;
      }
      if !result.Ok? {
        return true, result, left;
      }
      return false, result, left;
    }
  }

  /** `Interpreter::new_with_io`: load the program text, or fail as `parse_grid`
      does. */
  method NewWithIo(source: string, input: seq<byte>) returns (r: Outcome<Interpreter>)
    ensures ParseGrid(source).Err? ==> r == Err(ParseGrid(source).error)
    ensures ParseGrid(source).Ok? ==>
      && r.Ok? && fresh(r.value) && fresh(r.value.grid) && r.value.Valid()
      && r.value.Snapshot() == Initial(ParseGrid(source).value, input)
  {
    var parsed := ParseGrid(source);
    if parsed.Err? {
      return Err(parsed.error);
    }
    var interpreter := new Interpreter(parsed.value, input);
    r := Ok(interpreter);
  }
}

/** The reference interpreter's machine state and `Interpreter::run_step` as a
    function on it, command by command, and `run_forever` over a bounded number of
    steps. The class in `interpreter.dfy` is proved to compute these functions. */
module Semantics {
  import opened Int64
  import opened Machine
  import opened Playfield
  import opened Io

  /** The fields of `Interpreter`: the playfield, the stack (top at the end), the
      string-mode flag, the program counter, the step counter, the input not yet
      read and the output written so far. */
  datatype State = State(
    grid: Grid,
    stack: seq<Int>,
    stringMode: bool,
    pc: PC,
    steps: nat,
    input: seq<byte>,
    output: seq<byte>)

  /** What every reachable state satisfies: a full playfield, and a program
      counter on it (so that indexing the playfield by it never panics). */
  predicate Valid(s: State) {
    WellFormed(s.grid) && InGrid(s.pc.position)
  }

  /** `Interpreter::new_with_io` once `parse_grid` has succeeded. */
  function Initial(grid: Grid, input: seq<byte>): (s: State)
    requires WellFormed(grid)
    ensures Valid(s) && s.pc == InitialPC
  {
    State(grid, [], false, InitialPC, 0, input, [])
  }

  /** `move_pc!`: step in the current direction and wrap; nothing else changes. */
  function Move(t: State): (r: State)
    requires Valid(t)
    ensures Valid(r) && r.pc.direction == t.pc.direction
    ensures r.(pc := t.pc) == t
  {
    AdvanceStaysInGrid(t.pc);
    t.(pc := Advance(t.pc))
  }

  /** Turn to `d`, then `move_pc!`. */
  function Go(t: State, d: Direction): (r: State)
    requires Valid(t)
    ensures Valid(r) && r.pc.direction == d
    ensures r.(pc := t.pc) == t
  {
    Move(t.(pc := PC(t.pc.position, d)))
  }

  // ---- The command groups of `run_step` ----

  /** The commands of `run_step` outside string mode, by what they act on. */
  datatype Group =
    | Movement      // `> < ^ v ? #` and the space
    | Literal       // `"` and the digits
    | StackCommand  // `: \ $ !`
    | Arithmetic    // `+ - * / %` and the backquote
    | InputOutput   // `, . ~ &`
    | Conditional   // `_ |`
    | GridAccess    // `g p`
    | End           // `@`
    | Illegal       // every other byte

  function GroupOf(c: byte): Group {
    match c as char
    case '>' | '<' | '^' | 'v' | '?' | '#' | ' ' => Movement
    case '"' | '0' | '1' | '2' | '3' | '4' | '5' | '6' | '7' | '8' | '9' => Literal
    case ':' | '\\' | '$' | '!' => StackCommand
    case '+' | '-' | '*' | '/' | '%' | '`' => Arithmetic
    case ',' | '.' | '~' | '&' => InputOutput
    case '_' | '|' => Conditional
    case 'g' | 'p' => GridAccess
    case '@' => End
    case _ => Illegal
  }

  /** String mode: `"` leaves it, every other byte is pushed unsigned. */
  function StringModeStep(t: State, c: byte): State
    requires Valid(t)
  {
    if c == '"' as int then Move(t.(stringMode := false)) else Move(t.(stack := t.stack + [c]))
  }

  /** `> < ^ v` turn, `?` turns to the random direction, `#` moves twice, the space
      just moves. */
  function MovementStep(t: State, c: byte, choice: Direction): State
    requires Valid(t) && GroupOf(c) == Movement
  {
    match c as char
    case '>' => Go(t, Right)
    case '<' => Go(t, Left)
    case '^' => Go(t, Up)
    case 'v' => Go(t, Down)
    case '?' => Go(t, choice)
    case '#' => Move(Move(t))
    case _ => Move(t)
  }

  /** `"` enters string mode; a digit pushes its value. */
  function LiteralStep(t: State, c: byte): State
    requires Valid(t) && GroupOf(c) == Literal
  {
    if c == '"' as int then Move(t.(stringMode := true))
    else Move(t.(stack := t.stack + [c - '0' as int]))
  }

  /** `:` duplicates, `\` swaps, `$` drops, `!` negates logically; each pop of an
      empty stack reads 0. */
  function StackEffect(c: byte, stack: seq<Int>): seq<Int>
    requires GroupOf(c) == StackCommand
  {
    var top := Top(stack);
    var popped := Rest(stack);
    match c as char
    case ':' => popped + [top, top]
    case '\\' => Rest(popped) + [top, Top(popped)]
    case '$' => popped
    case _ => popped + [if top == 0 then 1 else 0]
  }

  function StackStep(t: State, c: byte): State
    requires Valid(t) && GroupOf(c) == StackCommand
  {
    Move(t.(stack := StackEffect(c, t.stack)))
  }

  /** The value a binary command computes from `a` (popped second) and `b` (popped
      first), or the panic of a zero divisor. The JIT's `BinaryOperation::call`
      is proved to agree with it. */
  function BinaryValue(c: byte, a: Int, b: Int): (r: Outcome<Int>)
    requires GroupOf(c) == Arithmetic
    ensures r.Ok? || r.Panic?
    ensures r.Panic? <==> (c == '/' as int || c == '%' as int) && b == 0
  {
    match c as char
    case '+' => Ok(WrappingAdd(a, b))
    case '-' => Ok(WrappingSub(a, b))
    case '*' => Ok(WrappingMul(a, b))
    case '/' => if b == 0 then Panic(DivideByZero) else Ok(WrappingDiv(a, b))
    case '%' => if b == 0 then Panic(RemainderByZero) else Ok(WrappingRem(a, b))
    case _ => Ok(if a > b then 1 else 0)
  }

  /** `+ - * / %` and the backquote: pop `b`, pop `a`, push `a op b`. */
  function ArithmeticStep(t: State, c: byte): (Outcome<()>, State)
    requires Valid(t) && GroupOf(c) == Arithmetic
  {
    var b := Top(t.stack);
    var a := Top(Rest(t.stack));
    var popped := t.(stack := Rest(Rest(t.stack)));
    var v := BinaryValue(c, a, b);
    if v.Ok? then (Ok(()), Move(popped.(stack := popped.stack + [v.value])))
    else (Panic(v.reason), popped)
  }

  /** `,` writes an ASCII character, `.` a decimal and a space, `~` reads a byte,
      `&` reads a decimal token. */
  function IoStep(t: State, c: byte): (Outcome<()>, State)
    requires Valid(t) && GroupOf(c) == InputOutput
  {
    var top := Top(t.stack);
    var popped := t.(stack := Rest(t.stack));
    match c as char
    case ',' =>
      if 0 <= top < 128 then (Ok(()), Move(popped.(output := popped.output + [top])))
      else (Err(NonAscii(top)), popped)
    case '.' => (Ok(()), Move(popped.(output := popped.output + DecimalOutput(top))))
    case '~' =>
      var read := ReadAscii(t.input);
      (Ok(()), Move(t.(stack := t.stack + [read.0], input := read.1)))
    case _ =>
      var scan := ScanSpec(t.input);
      match scan.0
      case Token(v) => (Ok(()), Move(t.(stack := t.stack + [v], input := scan.1)))
      case BadToken => (Err(Io(InvalidData)), t.(input := scan.1))
      case NeverReturns => (Hang, t.(input := scan.1))
  }

  /** `_` goes right on 0 and left otherwise; `|` goes down on 0 and up otherwise. */
  function ConditionalStep(t: State, c: byte): State
    requires Valid(t) && GroupOf(c) == Conditional
  {
    var top := Top(t.stack);
    var popped := t.(stack := Rest(t.stack));
    if c == '_' as int then Go(popped, if top == 0 then Right else Left)
    else Go(popped, if top == 0 then Down else Up)
  }

  /** `g` pops `y` and `x` and pushes the cell; `p` pops `y`, `x` and a value and
      stores it. Both are bounds-checked. */
  function GridStep(t: State, c: byte): State
    requires Valid(t) && GroupOf(c) == GridAccess
  {
    var y := Top(t.stack);
    var x := Top(Rest(t.stack));
    var below := Rest(Rest(t.stack));
    if c == 'g' as int then Move(t.(stack := below + [GetCell(t.grid, x, y)]))
    else Move(t.(stack := Rest(below), grid := PutCell(t.grid, x, y, Top(below))))
  }

  /** `Interpreter::run_step`: count the step, read the cell under the program
      counter, and act on it. `choice` is what the random generator yields for `?`. */
  function StepSpec(s: State, choice: Direction): (r: (Outcome<()>, State))
    requires Valid(s)
    ensures Valid(r.1)
    ensures r.1.steps == s.steps + 1
  {
    var t := s.(steps := s.steps + 1);
    var c := CellAt(s.grid, s.pc.position);
    if s.stringMode then (Ok(()), StringModeStep(t, c))
    else
      match GroupOf(c)
      case Movement => (Ok(()), MovementStep(t, c, choice))
      case Literal => (Ok(()), LiteralStep(t, c))
      case StackCommand => (Ok(()), StackStep(t, c))
      case Arithmetic => ArithmeticStep(t, c)
      case InputOutput => IoStep(t, c)
      case Conditional => (Ok(()), ConditionalStep(t, c))
      case GridAccess => (Ok(()), GridStep(t, c))
      case End => (Err(ProgramEnd), t)
      case Illegal => (Err(IllegalCommand(c)), t)
  }

  /** `Executer::run_forever` for at most `fuel` steps: step until a step fails;
      `ProgramEnd` is a normal end. `oracle` gives the random direction of the step
      with each step count. */
  function Run(s: State, oracle: nat -> Direction, fuel: nat): (r: (Outcome<()>, State))
    requires Valid(s)
    ensures Valid(r.1)
    decreases fuel, 0
  {
    if fuel == 0 then (OutOfFuel, s)
    else AfterStep(StepSpec(s, oracle(s.steps)), oracle, fuel - 1)
  }

  /** What `run_forever` does with the result of a step: `ProgramEnd` ends the run
      normally, any other failure ends it with that failure, success goes on. */
  function AfterStep(step: (Outcome<()>, State), oracle: nat -> Direction, fuel: nat): (r: (Outcome<()>, State))
    requires Valid(step.1)
    ensures Valid(r.1)
    decreases fuel, 1
  {
    if step.0 == Err(ProgramEnd) then (Ok(()), step.1)
    else if step.0.Ok? then Run(step.1, oracle, fuel)
    else step
  }
}

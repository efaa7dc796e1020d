/** The JIT's bytecode and its compiler. `compile_basic_block_from` walks the
    playfield from an entry program counter, turning each command into at most one
    bytecode operation, until a control-flow command (or the size limit) ends the
    basic block; it also lists every cell it visited. */
module JitCode {
  import opened Int64
  import opened Machine
  import opened Playfield

  /** `BASIC_BLOCK_SIZE_LIMIT`: outside string mode, a block whose bytecode has grown
      past this many operations is cut off with a jump to where compilation stopped. */
  const BasicBlockSizeLimit: nat := 2048

  /** How many passes of its loop the model lets one compilation take. The source's
      loop has no bound: a compilation that never ends (a cycle of redirects that
      emits nothing) ends here with `OutOfFuel`. Every compilation that does end
      ends within this bound: between two emitted operations the loop passes at
      most the 16,000 distinct (cell, direction, string mode) states without
      repeating one, and a block holds at most about 2,130 operations (2,049 before
      the size limit cuts it, plus one string-mode run, which meets its closing or
      its own opening `"` within 80 cells), so about 34 million passes. */
  const CompileFuel: nat := 40_000_000

  datatype IoMode = Ascii | Decimal

  /** `BinaryOperation`: the commands that map two stack values to one. */
  datatype BinaryOperation = Add | Subtract | Divide | Multiply | Remainder | Greater

  /** `Operation`, the JIT's bytecode. */
  datatype Operation =
    | PushConstant(value: Int)
    | Duplicate
    | Swap
    | Drop
    | Binary(operation: BinaryOperation)
    | Negate
    | Input(inMode: IoMode)
    | Output(outMode: IoMode)
    | GetValue
      /** `pcAfter` is where execution goes on if the write invalidates the block
          that is running. */
    | SetValue(pcAfter: PC)

  /** `ControlFlowDecision`: what happens once a block's bytecode has run. `Random`
      holds the four choices in the order Up, Down, Left, Right. */
  datatype Decision =
    | Jump(target: PC)
    | Branch(trueTarget: PC, falseTarget: PC)
    | EndProgram
    | Random(up: PC, down: PC, left: PC, right: PC)

  /** `BasicBlock`: identified by its entry program counter. */
  datatype BasicBlock = BasicBlock(entryPoint: PC, bytecode: seq<Operation>, decision: Decision)

  /** `BinaryOperation::call`, `a` being popped second and `b` first; Rust's
      `wrapping_div` and `wrapping_rem` panic on a zero divisor. */
  function Call(operation: BinaryOperation, a: Int, b: Int): (r: Outcome<Int>)
    ensures r.Ok? || r.Panic?
    ensures r.Panic? <==> (operation == Divide || operation == Remainder) && b == 0
  {
    match operation
    case Add => Ok(WrappingAdd(a, b))
    case Subtract => Ok(WrappingSub(a, b))
    case Divide => if b == 0 then Panic(DivideByZero) else Ok(WrappingDiv(a, b))
    case Multiply => Ok(WrappingMul(a, b))
    case Remainder => if b == 0 then Panic(RemainderByZero) else Ok(WrappingRem(a, b))
    case Greater => Ok(if a > b then 1 else 0)
  }

  /** The program counter one cell from `at` heading `d`, as `position + direction`
      builds it: not wrapped onto the playfield. */
  function Neighbour(at: Position, d: Direction): PC {
    PC(AddDirection(at, d), d)
  }

  /** What the compiler makes of one command outside string mode. */
  datatype Translation =
    | Emit(op: Operation)            // one operation, then move on
    | Redirect(direction: Direction) // `> < ^ v`: turn, then move on
    | Bridge                         // `#`: two steps, one constrain
    | Blank                          // the space: move on
    | Quote                          // `"`: enter string mode, move on
    | Put                            // `p`: move on, then `SetValue` with that program counter
    | Terminate(decision: Decision)  // `? _ | @` end the block
    | Reject                         // any other byte is an illegal command

  /** The `match current_command` of `compile_basic_block_from`, at position `at`. */
  function Translate(c: byte, at: Position): Translation {
    match c as char
    case '>' => Redirect(Right)
    case '<' => Redirect(Left)
    case '^' => Redirect(Up)
    case 'v' => Redirect(Down)
    case '?' => Terminate(Random(Neighbour(at, Up), Neighbour(at, Down), Neighbour(at, Left), Neighbour(at, Right)))
    case '#' => Bridge
    case ' ' => Blank
    case '"' => Quote
    case '0' | '1' | '2' | '3' | '4' | '5' | '6' | '7' | '8' | '9' => Emit(PushConstant(c - '0' as int))
    case ':' => Emit(Duplicate)
    case '\\' => Emit(Swap)
    case '$' => Emit(Drop)
    case '+' => Emit(Binary(Add))
    case '-' => Emit(Binary(Subtract))
    case '*' => Emit(Binary(Multiply))
    case '/' => Emit(Binary(Divide))
    case '%' => Emit(Binary(Remainder))
    case '!' => Emit(Negate)
    case '`' => Emit(Binary(Greater))
    case ',' => Emit(Output(Ascii))
    case '.' => Emit(Output(Decimal))
    case '~' => Emit(Input(Ascii))
    case '&' => Emit(Input(Decimal))
    case '_' => Terminate(Branch(Neighbour(at, Left), Neighbour(at, Right)))
    case '|' => Terminate(Branch(Neighbour(at, Up), Neighbour(at, Down)))
    case '@' => Terminate(EndProgram)
    case 'g' => Emit(GetValue)
    case 'p' => Put
    case _ => Reject
  }

  /** The variables of `compile_basic_block_from`'s loop: `current_pc`,
      `string_mode`, the bytecode so far and `pcs`, the cells visited so far. */
  datatype Compiling = Compiling(pc: PC, stringMode: bool, bytecode: seq<Operation>, cells: seq<Position>)

  /** How one pass of the loop ends: with the next loop state, with the block's
      control-flow decision, or with an error. */
  datatype Pass = Next(next: Compiling) | Finish(decision: Decision) | Failed(error: Error)

  /** One pass of the loop: read the cell, record it, and act on it. A finished
      block keeps the bytecode so far and the cells including this one. */
  function CompilePass(g: Grid, w: Compiling): (r: Pass)
    requires WellFormed(g) && InGrid(w.pc.position)
    ensures r.Next? ==> InGrid(r.next.pc.position) && r.next.cells == w.cells + [w.pc.position]
    ensures r.Failed? ==> r.error.IllegalCommand?
  {
    CellPass(w, CellAt(g, w.pc.position))
  }

  /** A pass on the command `c` read at the current cell: in string mode leave it
      on `"` or push the byte; otherwise cut the block at the size limit or act on
      the command. */
  function CellPass(w: Compiling, c: byte): (r: Pass)
    requires InGrid(w.pc.position)
    ensures r.Next? ==> InGrid(r.next.pc.position) && r.next.cells == w.cells + [w.pc.position]
    ensures r.Failed? ==> r.error.IllegalCommand?
  {
    var cells := w.cells + [w.pc.position];
    AdvanceStaysInGrid(w.pc);
    if w.stringMode then
      if c == '"' as int then Next(Compiling(Advance(w.pc), false, w.bytecode, cells))
      else Next(Compiling(Advance(w.pc), true, w.bytecode + [PushConstant(c)], cells))
    else if |w.bytecode| > BasicBlockSizeLimit then Finish(Jump(w.pc))
    else CommandPass(w, c, cells)
  }

  /** A pass outside string mode, below the size limit, on command `c`. */
  function CommandPass(w: Compiling, c: byte, cells: seq<Position>): (r: Pass)
    requires InGrid(w.pc.position)
    ensures r.Next? ==> InGrid(r.next.pc.position) && r.next.cells == cells
    ensures r.Failed? ==> r.error.IllegalCommand?
  {
    AdvanceStaysInGrid(w.pc);
    match Translate(c, w.pc.position)
    case Emit(op) => Next(Compiling(Advance(w.pc), false, w.bytecode + [op], cells))
    case Redirect(d) =>
      AdvanceStaysInGrid(PC(w.pc.position, d));
      Next(Compiling(Advance(PC(w.pc.position, d)), false, w.bytecode, cells))
    case Bridge =>
      BridgeAgrees(w.pc);
      Next(Compiling(Constrain(Step(Step(w.pc))), false, w.bytecode, cells))
    case Blank => Next(Compiling(Advance(w.pc), false, w.bytecode, cells))
    case Quote => Next(Compiling(Advance(w.pc), true, w.bytecode, cells))
    case Put => Next(Compiling(Advance(w.pc), false, w.bytecode + [SetValue(Advance(w.pc))], cells))
    case Terminate(decision) => Finish(decision)
    case Reject => Failed(IllegalCommand(c))
  }

  /** The rest of the loop from state `w`, with `fuel` passes left. */
  function CompileFrom(g: Grid, entry: PC, w: Compiling, fuel: nat): Outcome<(BasicBlock, seq<Position>)>
    requires WellFormed(g) && InGrid(w.pc.position)
    decreases fuel
  {
    if fuel == 0 then OutOfFuel
    else
      var pass := CompilePass(g, w);
      if pass.Next? then CompileFrom(g, entry, pass.next, fuel - 1)
      else if pass.Finish? then Ok((BasicBlock(entry, w.bytecode, pass.decision), w.cells + [w.pc.position]))
      else Err(pass.error)
  }

  /** `compile_basic_block_from(start_pc, grid)`: the block and the cells it was
      compiled from. A start off the playfield panics at the first cell read. */
  function Compile(g: Grid, start: PC): Outcome<(BasicBlock, seq<Position>)>
    requires WellFormed(g)
  {
    if !InGrid(start.position) then Panic(IndexOutOfBounds)
    else CompileFrom(g, start, Compiling(start, false, [], []), CompileFuel)
  }

  /** Every position in `cells` is on the playfield, and `g` and `h` agree there. */
  predicate SameCells(g: Grid, h: Grid, cells: seq<Position>)
    requires WellFormed(g) && WellFormed(h)
  {
    forall p :: p in cells ==> InGrid(p) && CellAt(g, p) == CellAt(h, p)
  }

  // ---- What a compilation produces ----

  /** A finished compilation extends the loop state it started from: the block
      carries `entry`, the bytecode so far is a prefix of the block's, and the cells
      so far are a prefix of the cells returned, which gain at least the current
      one and all lie on the playfield. */
  lemma {:induction false} CompileFromExtends(g: Grid, entry: PC, w: Compiling, fuel: nat)
    requires WellFormed(g) && InGrid(w.pc.position)
    requires forall p :: p in w.cells ==> InGrid(p)
    ensures var r := CompileFrom(g, entry, w, fuel);
      r.Ok? ==>
        && r.value.0.entryPoint == entry
        && w.bytecode <= r.value.0.bytecode
        && w.cells + [w.pc.position] <= r.value.1
        && forall p :: p in r.value.1 ==> InGrid(p)
    decreases fuel
  {
    var pass := CompilePass(g, w);
    if fuel > 0 && pass.Next? {
      CompileFromExtends(g, entry, pass.next, fuel - 1);
    }
  }

  /** `compile_basic_block_from` ends in one of four ways: a block whose entry is
      `start` and whose cells start at `start`'s position and lie on the
      playfield, an illegal command, a panic for a start off the playfield, or (in
      the model) running out of passes. */
  lemma CompiledBlock(g: Grid, start: PC)
    requires WellFormed(g)
    ensures var r := Compile(g, start);
      && (r.Ok? ==>
            && r.value.0.entryPoint == start
            && |r.value.1| > 0 && r.value.1[0] == start.position
            && forall p :: p in r.value.1 ==> InGrid(p))
      && (r.Err? ==> r.error.IllegalCommand?)
      && (r.Panic? <==> !InGrid(start.position))
      && (r.Ok? || r.Err? || r.Panic? || r.OutOfFuel?)
  {
    if InGrid(start.position) {
      CompileFromErrors(g, start, Compiling(start, false, [], []), CompileFuel);
      CompileFromExtends(g, start, Compiling(start, false, [], []), CompileFuel);
    }
  }

  /** The loop only fails with an illegal command or by running out of passes. */
  lemma {:induction false} CompileFromErrors(g: Grid, entry: PC, w: Compiling, fuel: nat)
    requires WellFormed(g) && InGrid(w.pc.position)
    ensures var r := CompileFrom(g, entry, w, fuel);
      (r.Err? && r.error.IllegalCommand?) || r.Ok? || r.OutOfFuel?
    decreases fuel
  {
    var pass := CompilePass(g, w);
    if fuel > 0 && pass.Next? {
      CompileFromErrors(g, entry, pass.next, fuel - 1);
    }
  }

  /** Compilation reads no cell it does not list: on any playfield that agrees with
      `g` on the listed cells, the loop produces the same block and the same
      cells. This is what lets invalidation touch only the blocks listed at the
      cell that `p` wrote. */
  lemma {:induction false} CompileFromFrame(g: Grid, h: Grid, entry: PC, w: Compiling, fuel: nat)
    requires WellFormed(g) && WellFormed(h) && InGrid(w.pc.position)
    requires forall p :: p in w.cells ==> InGrid(p)
    requires CompileFrom(g, entry, w, fuel).Ok?
    requires SameCells(g, h, CompileFrom(g, entry, w, fuel).value.1)
    ensures CompileFrom(h, entry, w, fuel) == CompileFrom(g, entry, w, fuel)
    decreases fuel
  {
    var cells := CompileFrom(g, entry, w, fuel).value.1;
    CompileFromExtends(g, entry, w, fuel);
    assert cells[|w.cells|] == w.pc.position;
    assert CompilePass(h, w) == CompilePass(g, w);
    var pass := CompilePass(g, w);
    if pass.Next? {
      CompileFromFrame(g, h, entry, pass.next, fuel - 1);
    }
  }

  lemma CompileFrame(g: Grid, h: Grid, start: PC)
    requires WellFormed(g) && WellFormed(h)
    requires Compile(g, start).Ok? && SameCells(g, h, Compile(g, start).value.1)
    ensures Compile(h, start) == Compile(g, start)
  {
    CompileFromFrame(g, h, start, Compiling(start, false, [], []), CompileFuel);
  }

  // ---- `compile_basic_block_from` ----

  /** A pass that ends the loop decides its result. */
  lemma CompileFromStops(g: Grid, entry: PC, w: Compiling, fuel: nat, pass: Pass)
    requires WellFormed(g) && InGrid(w.pc.position) && fuel > 0 && pass == CompilePass(g, w)
    ensures pass.Finish? ==>
      CompileFrom(g, entry, w, fuel) == Ok((BasicBlock(entry, w.bytecode, pass.decision), w.cells + [w.pc.position]))
    ensures pass.Failed? ==> CompileFrom(g, entry, w, fuel) == Err(pass.error)
  {
  }

  /** A pass that goes on to `next` leaves the rest of the loop, with one pass
      fewer, to `next`. */
  lemma CompileFromGoesOn(g: Grid, entry: PC, w: Compiling, fuel: nat, next: Compiling, rest: nat)
    requires WellFormed(g) && InGrid(w.pc.position) && rest + 1 == fuel && CompilePass(g, w) == Next(next)
    ensures CompileFrom(g, entry, w, fuel) == CompileFrom(g, entry, next, rest)
  {
  }

  /** `JustInTimeCompiler::compile_basic_block_from`: the loop over the playfield
      from `start`, with the model's bound of `CompileFuel` passes. */
  method CompileBasicBlockFrom(start: PC, grid: array2<byte>) returns (r: Outcome<(BasicBlock, seq<Position>)>)
    requires grid.Length0 == Height && grid.Length1 == Width
    ensures r == Compile(GridOf(grid), start)
  {
    if !InGrid(start.position) {
      return Panic(IndexOutOfBounds);
    }
    ghost var g := GridOf(grid);
    ghost var target := Compile(g, start);
    // the loop's variables `current_pc`, `string_mode`, the block's bytecode and `pcs`
    var w := Compiling(start, false, [], []);
    var fuel := CompileFuel;
    while fuel > 0
      invariant InGrid(w.pc.position)
      invariant CompileFrom(g, start, w, fuel) == target
      decreases fuel
    {
      // `grid[current_pc.position.y][current_pc.position.x]`, then the pass on it
      var command := grid[w.pc.position.y, w.pc.position.x];
      var pass := CellPass(w, command);
      match pass {
        case Next(next) =>
          ghost var (before, passes) := (w, fuel);
          w, fuel := next, fuel - 1;
          CompileFromGoesOn(g, start, before, passes, w, fuel);
        case Finish(decision) =>
          CompileFromStops(g, start, w, fuel, pass);
          return Ok((BasicBlock(start, w.bytecode, decision), w.cells + [w.pc.position]));
        case Failed(error) =>
          CompileFromStops(g, start, w, fuel, pass);
          return Err(error);
      }
    }
    r := OutOfFuel;
  }
}

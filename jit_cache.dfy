/** The state of `JustInTimeCompiler` as a value, and what its operations do to
    it: `ensure_basic_block` (the block cache), `invalidate_bytecode` (evicting the
    blocks compiled through a cell), `BasicBlock::execute` and `run_forever`. The
    class in `jit.dfy` is proved to compute these functions. */
module JitCache {
  import opened Int64
  import opened Machine
  import opened Playfield
  import opened Io
  import opened JitCode

  /** `GridBlockMap`, indexed `[y][x]`: the entry program counters of the blocks
      compiled through each cell. */
  type BlockMap = seq<seq<seq<PC>>>

  predicate Shaped(m: BlockMap) {
    |m| == Height && forall y :: 0 <= y < Height ==> |m[y]| == Width
  }

  function EntriesAt(m: BlockMap, p: Position): seq<PC>
    requires Shaped(m) && InGrid(p)
  {
    m[p.y][p.x]
  }

  /** The fields of `JustInTimeCompiler` the core uses: the block cache, the
      playfield, the block map, the stack, the program counter, the input not yet
      read, the output written so far and `basic_block_compiles`. */
  datatype JitState = JitState(
    blocks: map<PC, BasicBlock>,
    grid: Grid,
    blockMap: BlockMap,
    stack: seq<Int>,
    pc: PC,
    input: seq<byte>,
    output: seq<byte>,
    compiles: nat)

  /** A full playfield and a full block map; the program counter may be off the
      playfield (a branch target is not wrapped). */
  predicate Valid(s: JitState) {
    WellFormed(s.grid) && Shaped(s.blockMap)
  }

  /** `JustInTimeCompiler::new_with_io` once `parse_grid` has succeeded. */
  function Initial(grid: Grid, input: seq<byte>): (s: JitState)
    requires WellFormed(grid)
    ensures Valid(s) && s.blocks == map[] && s.pc == InitialPC
    ensures forall y, x :: 0 <= y < Height && 0 <= x < Width ==> s.blockMap[y][x] == []
  {
    JitState(map[], grid, seq(Height, _ => seq(Width, _ => [])), [], InitialPC, input, [], 0)
  }

  /** The block map a class keeps in place, read as a value. */
  ghost function MapOf(a: array2<seq<PC>>): (m: BlockMap)
    requires a.Length0 == Height && a.Length1 == Width
    reads a
    ensures Shaped(m)
    ensures forall y, x :: 0 <= y < Height && 0 <= x < Width ==> m[y][x] == a[y, x]
  {
    seq(Height, y reads a requires 0 <= y < Height =>
      seq(Width, x reads a requires 0 <= x < Width => a[y, x]))
  }

  lemma MapExtensionality(m: BlockMap, n: BlockMap)
    requires Shaped(m) && Shaped(n)
    requires forall y, x :: 0 <= y < Height && 0 <= x < Width ==> m[y][x] == n[y][x]
    ensures m == n
  {
    forall y | 0 <= y < Height
      ensures m[y] == n[y]
    {
    }
  }

  /** A failure of one type passed on as a failure of another, as `?` does. */
  function Fail<T, U>(o: Outcome<T>): (r: Outcome<U>)
    requires !o.Ok?
  {
    match o
    case Err(e) => Err(e)
    case Panic(reason) => Panic(reason)
    case Hang => Hang
    case OutOfFuel => OutOfFuel
  }

  // ---- `ensure_basic_block` ----

  /** `grid_block_map[cell.y][cell.x].push(entry)`. */
  function Append(m: BlockMap, cell: Position, entry: PC): (r: BlockMap)
    requires Shaped(m) && InGrid(cell)
    ensures Shaped(r)
  {
    m[cell.y := m[cell.y][cell.x := m[cell.y][cell.x] + [entry]]]
  }

  predicate OnGrid(cells: seq<Position>) {
    forall p :: p in cells ==> InGrid(p)
  }

  /** The loop of `ensure_basic_block` that pushes `entry` at each cell of a new
      block, in order. */
  function Record(m: BlockMap, cells: seq<Position>, entry: PC): (r: BlockMap)
    requires Shaped(m) && OnGrid(cells)
    ensures Shaped(r)
    decreases |cells|
  {
    if |cells| == 0 then m
    else Append(Record(m, cells[..|cells| - 1], entry), cells[|cells| - 1], entry)
  }

  /** `ensure_basic_block`: a cached block for the program counter is returned and
      nothing changes; otherwise the block is compiled, cached, counted, and its
      entry recorded at every cell it was compiled from. A failed compilation
      changes nothing. */
  function Ensure(s: JitState): (r: (Outcome<BasicBlock>, JitState))
    requires Valid(s)
    ensures Valid(r.1)
  {
    if s.pc in s.blocks then (Ok(s.blocks[s.pc]), s)
    else
      var compiled := Compile(s.grid, s.pc);
      if compiled.Ok? then
        CompiledBlock(s.grid, s.pc);
        var block := compiled.value.0;
        (Ok(block), s.(blocks := s.blocks[s.pc := block], compiles := s.compiles + 1,
                       blockMap := Record(s.blockMap, compiled.value.1, s.pc)))
      else (Fail(compiled), s)
  }

  // ---- `invalidate_bytecode` ----

  /** `.map(|pc| pc.position)`. */
  function Positions(entries: seq<PC>): (r: seq<Position>)
    ensures |r| == |entries| && forall i :: 0 <= i < |r| ==> r[i] == entries[i].position
  {
    seq(|entries|, i requires 0 <= i < |entries| => entries[i].position)
  }

  /** The entries of a list, as a set. */
  function Members(entries: seq<PC>): set<PC> {
    set e | e in entries
  }

  /** `invalidate_bytecode(cell)`: every block listed at the cell leaves the cache,
      the cell's list is drained, and the drained entries' positions are returned
      in order. A cell off the playfield panics on the unchecked index. */
  function Invalidate(s: JitState, cell: Position): (r: (Outcome<seq<Position>>, JitState))
    requires Valid(s)
    ensures Valid(r.1)
  {
    if !InGrid(cell) then (Panic(IndexOutOfBounds), s)
    else
      var entries := EntriesAt(s.blockMap, cell);
      var row := s.blockMap[cell.y][cell.x := []];
      (Ok(Positions(entries)),
       s.(blocks := s.blocks - Members(entries), blockMap := s.blockMap[cell.y := row]))
  }

  // ---- `BasicBlock::execute` ----

  /** One `SetValue`: pop `y`, `x` and the value, write the low byte to the
      playfield when `(x, y)` is on it, then invalidate at `(x, y)`. The block that
      is running (entered at `entry`) stops with `Jump(pcAfter)` when its entry
      position is among those invalidated. */
  function SetValueStep(s: JitState, pcAfter: PC, entry: PC): (r: (Outcome<Option<Decision>>, JitState))
    requires Valid(s)
    ensures Valid(r.1)
  {
    var y := Top(s.stack);
    var x := Top(Rest(s.stack));
    var below := Rest(Rest(s.stack));
    var written := s.(stack := Rest(below), grid := PutCell(s.grid, x, y, Top(below)));
    var invalidated := Invalidate(written, Position(x, y));
    if !invalidated.0.Ok? then (Fail(invalidated.0), invalidated.1)
    else if entry.position in invalidated.0.value then (Ok(Some(Jump(pcAfter))), invalidated.1)
    else (Ok(None), invalidated.1)
  }

  /** The stack operations: each pop of an empty stack reads 0. */
  function StackOp(op: Operation, stack: seq<Int>): (Outcome<()>, seq<Int>)
    requires op.PushConstant? || op.Duplicate? || op.Swap? || op.Drop? || op.Binary? || op.Negate?
  {
    var top := Top(stack);
    var popped := Rest(stack);
    match op
    case PushConstant(v) => (Ok(()), stack + [v])
    case Duplicate => (Ok(()), popped + [top, top])
    case Swap => (Ok(()), Rest(popped) + [top, Top(popped)])
    case Drop => (Ok(()), popped)
    case Negate => (Ok(()), popped + [if top == 0 then 1 else 0])
    case Binary(operation) =>
      var v := Call(operation, Top(popped), top);
      if v.Ok? then (Ok(()), Rest(popped) + [v.value]) else (Panic(v.reason), Rest(popped))
  }

  /** The I/O operations: `~` reads a byte (-1 at the end of input), `&` a
      decimal token, `,` writes an ASCII character, `.` a decimal and a space. */
  function IoOp(s: JitState, op: Operation): (r: (Outcome<()>, JitState))
    requires op.Input? || op.Output?
    ensures r.1.(stack := s.stack, input := s.input, output := s.output) == s
  {
    var top := Top(s.stack);
    var popped := s.(stack := Rest(s.stack));
    match op
    case Input(Ascii) =>
      var read := ReadAscii(s.input);
      (Ok(()), s.(stack := s.stack + [read.0], input := read.1))
    case Input(Decimal) =>
      var scan := ScanSpec(s.input);
      (match scan.0
       case Token(v) => (Ok(()), s.(stack := s.stack + [v], input := scan.1))
       case BadToken => (Err(Io(InvalidData)), s.(input := scan.1))
       case NeverReturns => (Hang, s.(input := scan.1)))
    case Output(Ascii) =>
      if 0 <= top < 128 then (Ok(()), popped.(output := popped.output + [top]))
      else (Err(NonAscii(top)), popped)
    case Output(Decimal) => (Ok(()), popped.(output := popped.output + DecimalOutput(top)))
  }

  /** One operation of `BasicBlock::execute` in the block entered at `entry`: go
      on (`Some` absent), leave the block early with a decision, or fail. */
  function ApplyOp(s: JitState, op: Operation, entry: PC): (r: (Outcome<Option<Decision>>, JitState))
    requires Valid(s)
    ensures Valid(r.1)
    ensures !op.SetValue? ==> r.1.(stack := s.stack, input := s.input, output := s.output) == s
  {
    if op.Input? || op.Output? then
      var done := IoOp(s, op);
      (if done.0.Ok? then Ok(None) else Fail(done.0), done.1)
    else if op.GetValue? then
      var y := Top(s.stack);
      var x := Top(Rest(s.stack));
      (Ok(None), s.(stack := Rest(Rest(s.stack)) + [GetCell(s.grid, x, y)]))
    else if op.SetValue? then SetValueStep(s, op.pcAfter, entry)
    else
      var done := StackOp(op, s.stack);
      (if done.0.Ok? then Ok(None) else Fail(done.0), s.(stack := done.1))
  }

  /** `BasicBlock::execute` from operation `i` on: the operations in order, then
      the block's decision, unless an operation fails or leaves early. */
  function ExecuteFrom(s: JitState, block: BasicBlock, i: nat): (r: (Outcome<Decision>, JitState))
    requires Valid(s) && i <= |block.bytecode|
    ensures Valid(r.1)
    decreases |block.bytecode| - i
  {
    if i == |block.bytecode| then (Ok(block.decision), s)
    else
      var step := ApplyOp(s, block.bytecode[i], block.entryPoint);
      if !step.0.Ok? then (Fail(step.0), step.1)
      else if step.0.value.Some? then (Ok(step.0.value.value), step.1)
      else ExecuteFrom(step.1, block, i + 1)
  }

  /** The cell a `SetValue` run in `s` writes and then invalidates: `x` and `y`
      from the top of the stack. */
  function SetTarget(s: JitState): Position {
    Position(Top(Rest(s.stack)), Top(s.stack))
  }

  /** A `SetValue` run in `s` evicts the running block entered at `entry`: the
      written cell is on the playfield and lists a block whose entry has `entry`'s
      position. */
  predicate SelfInvalidating(s: JitState, entry: PC)
    requires Valid(s)
  {
    InGrid(SetTarget(s)) && entry.position in Positions(EntriesAt(s.blockMap, SetTarget(s)))
  }

  /** `SetValue` panics exactly off the playfield; on it, it leaves the block with
      `Jump(pcAfter)` exactly when it evicts the running block, and otherwise lets
      the block go on. */
  lemma SetValueLeaves(s: JitState, pcAfter: PC, entry: PC)
    requires Valid(s)
    ensures var r := SetValueStep(s, pcAfter, entry);
      && (r.0.Ok? <==> InGrid(SetTarget(s)))
      && (!r.0.Ok? ==> r.0 == Panic(IndexOutOfBounds))
      && (r.0.Ok? ==> (r.0.value.Some? <==> SelfInvalidating(s, entry)))
      && (r.0.Ok? && r.0.value.Some? ==> r.0.value == Some(Jump(pcAfter)))
  {
  }

  /** The state before operation `k` of the block, when each operation from `i` up
      to `k` went on to the next; `None` when one of them failed or left the block. */
  function Reached(s: JitState, block: BasicBlock, i: nat, k: nat): (r: Option<JitState>)
    requires Valid(s) && i <= k <= |block.bytecode|
    ensures r.Some? ==> Valid(r.value)
    ensures k == i ==> r == Some(s)
    decreases k - i
  {
    if i == k then Some(s)
    else
      var step := ApplyOp(s, block.bytecode[i], block.entryPoint);
      if step.0 == Ok(None) then Reached(step.1, block, i + 1, k) else None
  }

  /** When every operation goes on, `execute` returns the block's decision in the
      state after the last operation. */
  lemma {:induction false} ExecuteRunsThrough(s: JitState, block: BasicBlock, i: nat)
    requires Valid(s) && i <= |block.bytecode| && Reached(s, block, i, |block.bytecode|).Some?
    ensures ExecuteFrom(s, block, i) == (Ok(block.decision), Reached(s, block, i, |block.bytecode|).value)
    decreases |block.bytecode| - i
  {
    if i < |block.bytecode| {
      var step := ApplyOp(s, block.bytecode[i], block.entryPoint);
      ExecuteRunsThrough(step.1, block, i + 1);
    }
  }

  /** A `SetValue` reached at `k` that evicts the running block ends `execute`
      there with `Jump` to the cell after it; the operations after `k` do not run. */
  lemma {:induction false} ExecuteLeavesAt(s: JitState, block: BasicBlock, i: nat, k: nat)
    requires Valid(s) && i <= k < |block.bytecode| && Reached(s, block, i, k).Some?
    requires block.bytecode[k].SetValue? && SelfInvalidating(Reached(s, block, i, k).value, block.entryPoint)
    ensures var t := Reached(s, block, i, k).value;
      ExecuteFrom(s, block, i) ==
        (Ok(Jump(block.bytecode[k].pcAfter)), SetValueStep(t, block.bytecode[k].pcAfter, block.entryPoint).1)
    decreases k - i
  {
    if i == k {
      SetValueLeaves(s, block.bytecode[k].pcAfter, block.entryPoint);
    } else {
      var step := ApplyOp(s, block.bytecode[i], block.entryPoint);
      ExecuteLeavesAt(step.1, block, i + 1, k);
    }
  }

  /** What `execute` returns, for every block: either every operation went on and
      it returns the block's decision, or it stops at the first operation `k` that
      did not go on, which either failed (and `execute` fails with its error) or is
      a `SetValue` evicting the running block (and `execute` returns `Jump` to the
      cell after it). */
  lemma {:induction false} ExecuteDecision(s: JitState, block: BasicBlock, i: nat)
    requires Valid(s) && i <= |block.bytecode|
    ensures var r := ExecuteFrom(s, block, i);
      || (Reached(s, block, i, |block.bytecode|) == Some(r.1) && r.0 == Ok(block.decision))
      || exists k :: i <= k < |block.bytecode| && Reached(s, block, i, k).Some? && StopsAt(Reached(s, block, i, k).value, block, k, r)
    decreases |block.bytecode| - i
  {
    if i < |block.bytecode| {
      var step := ApplyOp(s, block.bytecode[i], block.entryPoint);
      if step.0 == Ok(None) {
        ExecuteDecision(step.1, block, i + 1);
        var r := ExecuteFrom(s, block, i);
        if Reached(step.1, block, i + 1, |block.bytecode|) != Some(r.1) || r.0 != Ok(block.decision) {
          var k :| i + 1 <= k < |block.bytecode| && Reached(step.1, block, i + 1, k).Some?
            && StopsAt(Reached(step.1, block, i + 1, k).value, block, k, r);
          assert Reached(s, block, i, k) == Reached(step.1, block, i + 1, k);
        }
      } else {
        assert Reached(s, block, i, i) == Some(s);
        if block.bytecode[i].SetValue? {
          SetValueLeaves(s, block.bytecode[i].pcAfter, block.entryPoint);
        }
      }
    }
  }

  /** Operation `k` of `block`, run in `t`, does not go on and gives `execute`'s
      result `r`: a failure passed on, or `Jump(pcAfter)` from a `SetValue` that
      evicts the running block. */
  predicate StopsAt(t: JitState, block: BasicBlock, k: nat, r: (Outcome<Decision>, JitState))
    requires Valid(t) && k < |block.bytecode|
  {
    var op := block.bytecode[k];
    var step := ApplyOp(t, op, block.entryPoint);
    r.1 == step.1 &&
    if step.0.Ok? then
      op.SetValue? && SelfInvalidating(t, block.entryPoint) && r.0 == Ok(Jump(op.pcAfter))
    else r.0 == Fail(step.0)
  }

  // ---- `run_forever` ----

  /** The choice `choices.choose(&mut rng)` makes from a `Random` decision, given
      as the direction drawn. */
  function Chosen(decision: Decision, d: Direction): PC
    requires decision.Random?
  {
    match d
    case Up => decision.up
    case Down => decision.down
    case Left => decision.left
    case Right => decision.right
  }

  /** Where a decision sends the program counter: a jump to its target, a branch
      pops and takes `falseTarget` on 0, a random decision takes the drawn choice. */
  function Follow(s: JitState, decision: Decision, d: Direction): (r: JitState)
    requires !decision.EndProgram?
    ensures r.(pc := s.pc, stack := s.stack) == s
  {
    match decision
    case Jump(target) => s.(pc := target)
    case Branch(yes, no) => s.(stack := Rest(s.stack), pc := if Top(s.stack) == 0 then no else yes)
    case Random(_, _, _, _) => s.(pc := Chosen(decision, d))
  }

  /** One pass of `run_forever`'s loop: ensure the block, execute it, and follow
      its decision. `Ok(true)` goes on, `Ok(false)` is a normal end. */
  function RoundSpec(s: JitState, d: Direction): (r: (Outcome<bool>, JitState))
    requires Valid(s)
    ensures Valid(r.1)
  {
    var ensured := Ensure(s);
    if !ensured.0.Ok? then (Fail(ensured.0), ensured.1)
    else
      var executed := ExecuteFrom(ensured.1, ensured.0.value, 0);
      var t := executed.1;
      if executed.0.Ok? then
        if executed.0.value.EndProgram? then (Ok(false), t)
        else (Ok(true), Follow(t, executed.0.value, d))
      else if executed.0 == Err(ProgramEnd) then (Ok(false), t)
      else (Fail(executed.0), t)
  }

  /** `JustInTimeCompiler::run_forever` for at most `fuel` rounds; `oracle` gives
      the direction drawn in each round, numbered from `round`. */
  function JitRun(s: JitState, oracle: nat -> Direction, round: nat, fuel: nat): (r: (Outcome<()>, JitState))
    requires Valid(s)
    ensures Valid(r.1)
    decreases fuel, 0
  {
    if fuel == 0 then (OutOfFuel, s)
    else PlayRound(s, oracle, round, fuel - 1)
  }

  /** One round from `s`, then the rest of the run with `fuel` more rounds. */
  function PlayRound(s: JitState, oracle: nat -> Direction, round: nat, fuel: nat): (r: (Outcome<()>, JitState))
    requires Valid(s)
    ensures Valid(r.1)
    decreases fuel, 2
  {
    AfterRound(RoundSpec(s, oracle(round)), oracle, round + 1, fuel)
  }

  /** What the loop does with a round's result `done`: a failure ends the run with
      that failure, a normal end ends it with `Ok`, and otherwise the run goes on
      from round `next` with `fuel` more rounds. */
  function AfterRound(done: (Outcome<bool>, JitState), oracle: nat -> Direction, next: nat, fuel: nat): (r: (Outcome<()>, JitState))
    requires Valid(done.1)
    ensures Valid(r.1)
    decreases fuel, 1
  {
    if !done.0.Ok? then (Fail(done.0), done.1)
    else if done.0.value then JitRun(done.1, oracle, next, fuel)
    else (Ok(()), done.1)
  }

  /** A run with rounds left is its first round, then what the loop does with the
      result, from the next round with one round fewer. */
  lemma JitRunUnfolds(s: JitState, oracle: nat -> Direction, round: nat, fuel: nat, next: nat, left: nat)
    requires Valid(s) && fuel > 0 && next == round + 1 && left == fuel - 1
    ensures JitRun(s, oracle, round, fuel) == AfterRound(RoundSpec(s, oracle(round)), oracle, next, left)
  {
    assert JitRun(s, oracle, round, fuel) == PlayRound(s, oracle, round, left);
  }
}

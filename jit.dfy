/** `JustInTimeCompiler`: the JIT as an object whose block cache, playfield, block
    map, stack and program counter its methods update in place. Every method is
    proved to compute the functions of `JitCache` on the object's `Snapshot`. */
module JitEngine {
  import opened Int64
  import opened Machine
  import opened Playfield
  import opened Io
  import opened JitCode
  import opened JitCache

  class JustInTimeCompiler {
    /** `basic_blocks`, keyed by entry program counter. */
    var blocks: map<PC, BasicBlock>
    /** `program_grid`, rewritten in place by `SetValue`. */
    const grid: array2<byte>
    /** `grid_block_map`. */
    const blockMap: array2<seq<PC>>
    var stack: seq<Int>
    /** `program_counter`. */
    var pc: PC
    /** What `input` has not yet yielded. */
    var input: seq<byte>
    /** Everything written to `output`. */
    var output: seq<byte>
    /** `basic_block_compiles`. */
    var compiles: nat

    ghost predicate Valid() {
      grid.Length0 == Height && grid.Length1 == Width
      && blockMap.Length0 == Height && blockMap.Length1 == Width
    }

    /** The object's fields as a `JitCache.JitState`. */
    ghost function Snapshot(): (s: JitState)
      requires Valid()
      reads this, grid, blockMap
      ensures JitCache.Valid(s)
    {
      JitState(blocks, GridOf(grid), MapOf(blockMap), stack, pc, input, output, compiles)
    }

    /** `new_with_io` after a successful `parse_grid`: no blocks, empty block map
        lists, an empty stack, the program counter at the top-left heading right. */
    constructor(g: Grid, input: seq<byte>)
      requires WellFormed(g)
      ensures Valid() && fresh(grid) && fresh(blockMap)
      ensures Snapshot() == Initial(g, input)
    {
      var a := GridArray(g);
      var m := new seq<PC>[Height, Width]((y, x) => []);
      MapExtensionality(MapOf(m), Initial(g, input).blockMap);
      blocks := map[];
      grid := a;
      blockMap := m;
      stack := [];
      pc := InitialPC;
      this.input := input;
      output := [];
      compiles := 0;
    }

    /** `stack.pop().unwrap_or_default()`. */
    method Pop() returns (v: Int)
      modifies this`stack
      ensures v == Top(old(stack)) && stack == Rest(old(stack))
    {
      if |stack| == 0 {
        v := 0;
      } else {
        v := stack[|stack| - 1];
        stack := stack[..|stack| - 1];
      }
    }

    method Push(v: Int)
      modifies this`stack
      ensures stack == old(stack) + [v]
    {
      stack := stack + [v];
    }

    // ---- The block cache ----

    /** `ensure_basic_block`. */
    method EnsureBasicBlock() returns (r: Outcome<BasicBlock>)
      requires Valid()
      modifies this`blocks, this`compiles, blockMap
      ensures Valid() && (r, Snapshot()) == Ensure(old(Snapshot()))
    {
      if pc in blocks {
        return Ok(blocks[pc]);
      }
      ghost var s0 := Snapshot();
      var compiled := CompileBasicBlockFrom(pc, grid);
      assert compiled == Compile(s0.grid, s0.pc);
      if !compiled.Ok? {
        return Fail(compiled);
      }
      var block := compiled.value.0;
      var cells := compiled.value.1;
      CompiledBlock(s0.grid, pc);
      assert Snapshot() == s0;
      ghost var s1 := s0.(blocks := s0.blocks[s0.pc := block], compiles := s0.compiles + 1,
                          blockMap := Record(s0.blockMap, cells, s0.pc));
      assert Ensure(s0) == (Ok(block), s1);
      Cache(block, cells);
      assert Snapshot() == s1;
      r := Ok(block);
    }

    /** Store a newly compiled block under the program counter, count the compile,
        and record the entry at the block's cells. */
    method Cache(block: BasicBlock, cells: seq<Position>)
      requires Valid() && OnGrid(cells)
      modifies this`blocks, this`compiles, blockMap
      ensures Valid()
      ensures Snapshot() == old(Snapshot()).(blocks := old(blocks)[pc := block], compiles := old(compiles) + 1,
                                             blockMap := Record(old(MapOf(blockMap)), cells, pc))
    {
      compiles := compiles + 1;
      blocks := blocks[pc := block];
      RecordEntry(cells, pc);
    }

    /** The loop of `ensure_basic_block` that pushes `entry` onto the list of each
        cell the new block was compiled from. */
    method RecordEntry(cells: seq<Position>, entry: PC)
      requires Valid() && OnGrid(cells)
      modifies blockMap
      ensures MapOf(blockMap) == Record(old(MapOf(blockMap)), cells, entry)
    {
      ghost var m := MapOf(blockMap);
      for i := 0 to |cells|
        invariant MapOf(blockMap) == Record(m, cells[..i], entry)
      {
        var cell := cells[i];
        assert cell in cells;
        ghost var before := MapOf(blockMap);
        blockMap[cell.y, cell.x] := blockMap[cell.y, cell.x] + [entry];
        assert cells[..i + 1][..i] == cells[..i];
        MapExtensionality(MapOf(blockMap), Append(before, cell, entry));
      }
      assert cells[..|cells|] == cells;
    }

    /** `invalidate_bytecode(cell)`. */
    method InvalidateBytecode(cell: Position) returns (r: Outcome<seq<Position>>)
      requires Valid()
      modifies this`blocks, blockMap
      ensures Valid() && (r, Snapshot()) == Invalidate(old(Snapshot()), cell)
    {
      if !InGrid(cell) {
        return Panic(IndexOutOfBounds);
      }
      ghost var s0 := Snapshot();
      var entries := blockMap[cell.y, cell.x];
      for i := 0 to |entries|
        invariant blocks == old(blocks) - Members(entries[..i])
        invariant unchanged(blockMap)
      {
        assert Members(entries[..i + 1]) == Members(entries[..i]) + {entries[i]} by {
          assert entries[..i + 1] == entries[..i] + [entries[i]];
        }
        blocks := blocks - {entries[i]};
      }
      assert entries[..|entries|] == entries;
      blockMap[cell.y, cell.x] := [];
      MapExtensionality(MapOf(blockMap), Invalidate(s0, cell).1.blockMap);
      r := Ok(Positions(entries));
    }

    // ---- `BasicBlock::execute` ----

    /** `BasicBlock::execute`: run the block's operations in order, then return its
        decision, unless an operation fails or the block invalidates itself. */
    method Execute(block: BasicBlock) returns (r: Outcome<Decision>)
      requires Valid()
      modifies this`blocks, this`stack, this`input, this`output, grid, blockMap
      ensures Valid() && (r, Snapshot()) == ExecuteFrom(old(Snapshot()), block, 0)
    {
      ghost var target := ExecuteFrom(Snapshot(), block, 0);
      for i := 0 to |block.bytecode|
        invariant Valid() && ExecuteFrom(Snapshot(), block, i) == target
      {
        var step := Perform(block.bytecode[i], block.entryPoint);
        if !step.Ok? {
          return Fail(step);
        }
        if step.value.Some? {
          return Ok(step.value.value);
        }
      }
      r := Ok(block.decision);
    }

    /** One operation of the block entered at `entry`. */
    method Perform(op: Operation, entry: PC) returns (r: Outcome<Option<Decision>>)
      requires Valid()
      modifies this`blocks, this`stack, this`input, this`output, grid, blockMap
      ensures Valid() && (r, Snapshot()) == ApplyOp(old(Snapshot()), op, entry)
    {
      if op.Input? || op.Output? {
        var done := Communicate(op);
        r := if done.Ok? then Ok(None) else Fail(done);
      } else if op.GetValue? {
        var y := Pop();
        var x := Pop();
        Push(if 0 <= x < Width && 0 <= y < Height then SignExtend(grid[y, x]) else 0);
        r := Ok(None);
      } else if op.SetValue? {
        r := SetValue(op.pcAfter, entry);
      } else {
        var done := OperateOnStack(op);
        r := if done.Ok? then Ok(None) else Fail(done);
      }
    }

    /** The operations on the stack alone; a zero divisor panics. */
    method OperateOnStack(op: Operation) returns (r: Outcome<()>)
      requires op.PushConstant? || op.Duplicate? || op.Swap? || op.Drop? || op.Binary? || op.Negate?
      modifies this`stack
      ensures (r, stack) == StackOp(op, old(stack))
    {
      match op {
        case PushConstant(v) =>
          Push(v);
        case Duplicate =>
          var top := Pop();
          Push(top);
          Push(top);
          assert stack == Rest(old(stack)) + [top, top];
        case Swap =>
          var first := Pop();
          var second := Pop();
          Push(first);
          Push(second);
          assert stack == Rest(Rest(old(stack))) + [first, second];
        case Drop =>
          var _ := Pop();
        case Binary(operation) =>
          var b := Pop();
          var a := Pop();
          var v := Call(operation, a, b);
          if !v.Ok? {
            return Panic(v.reason);
          }
          Push(v.value);
        case Negate =>
          var top := Pop();
          Push(if top == 0 then 1 else 0);
      }
      r := Ok(());
    }

    /** `Input` and `Output`. */
    method Communicate(op: Operation) returns (r: Outcome<()>)
      requires Valid() && (op.Input? || op.Output?)
      modifies this`stack, this`input, this`output
      ensures Valid() && (r, Snapshot()) == IoOp(old(Snapshot()), op)
    {
      match op
      case Input(Ascii) =>
        var ascii: byte := 0xFF;
        if |input| > 0 {
          ascii := input[0];
          input := input[1..];
        }
        Push(if ascii != 0xFF then ascii else -1);
        r := Ok(());
      case Input(Decimal) =>
        var scanned, rest := ScanNext(input);
        input := rest;
        match scanned {
          case Token(v) =>
            Push(v);
            r := Ok(());
          case BadToken =>
            r := Err(Io(InvalidData));
          case NeverReturns =>
            r := Hang;
        }
      case Output(Ascii) =>
        var top := Pop();
        if !(0 <= top < 128) {
          return Err(NonAscii(top));
        }
        output := output + [top];
        r := Ok(());
      case Output(Decimal) =>
        var top := Pop();
        output := output + DecimalOutput(top);
        r := Ok(());
    }

    /** `SetValue { pc_after }` in the block entered at `entry`. */
    method SetValue(pcAfter: PC, entry: PC) returns (r: Outcome<Option<Decision>>)
      requires Valid()
      modifies this`blocks, this`stack, grid, blockMap
      ensures Valid() && (r, Snapshot()) == SetValueStep(old(Snapshot()), pcAfter, entry)
    {
      ghost var before := Snapshot();
      var y := Pop();
      var x := Pop();
      var value := Pop();
      if 0 <= x < Width && 0 <= y < Height {
        grid[y, x] := LowByte(value);
      }
      GridExtensionality(GridOf(grid), PutCell(before.grid, x, y, value));
      assert Snapshot() == before.(stack := stack, grid := PutCell(before.grid, x, y, value));
      var invalidated := InvalidateBytecode(Position(x, y));
      if !invalidated.Ok? {
        return Fail(invalidated);
      }
      if entry.position in invalidated.value {
        return Ok(Some(Jump(pcAfter)));
      }
      r := Ok(None);
    }

    // ---- `run_forever` ----

    /** `Executer::run_forever` for at most `fuel` rounds; `oracle` gives the
        direction drawn in each round. */
    method RunForever(oracle: nat -> Direction, fuel: nat) returns (r: Outcome<()>)
      requires Valid()
      modifies this, grid, blockMap
      ensures Valid()
      ensures (r, Snapshot()) == JitRun(old(Snapshot()), oracle, 0, fuel)
    {
      ghost var target := JitRun(Snapshot(), oracle, 0, fuel);
      var round := 0;
      var remaining := fuel;
      while remaining > 0
        invariant Valid()
        invariant JitRun(Snapshot(), oracle, round, remaining) == target
        decreases remaining
      {
        var stop;
        stop, r, round, remaining := Round(oracle, round, remaining, target);
        if stop {
          return;
        }
      }
      r := OutOfFuel;
    }

    /** One pass of `run_forever`'s loop, stopping the run at a normal end or a
        failure; otherwise the round and rounds left for the next pass. */
    method Round(oracle: nat -> Direction, round: nat, remaining: nat, ghost target: (Outcome<()>, JitState))
      returns (stop: bool, r: Outcome<()>, next: nat, left: nat)
      requires Valid() && remaining > 0 && JitRun(Snapshot(), oracle, round, remaining) == target
      modifies this, grid, blockMap
      ensures Valid() && next == round + 1 && left == remaining - 1
      ensures stop ==> (r, Snapshot()) == target
      ensures !stop ==> JitRun(Snapshot(), oracle, next, left) == target
    {
      ghost var before := Snapshot();
      next, left := round + 1, remaining - 1;
      JitRunUnfolds(before, oracle, round, remaining, next, left);
      var done := RunRound(oracle(round));
      if !done.Ok? {
        return true, Fail(done), next, left;
      }
      if !done.value {
        return true, Ok(()), next, left;
      }
      return false, Ok(()), next, left;
    }

    /** Ensure the block at the program counter, execute it, and follow its
        decision: `Ok(true)` goes on, `Ok(false)` ends the run normally. */
    method RunRound(d: Direction) returns (r: Outcome<bool>)
      requires Valid()
      modifies this, grid, blockMap
      ensures Valid() && (r, Snapshot()) == RoundSpec(old(Snapshot()), d)
    {
      var ensured := EnsureBasicBlock();
      if !ensured.Ok? {
        return Fail(ensured);
      }
      var executed := Execute(ensured.value);
      if !executed.Ok? {
        if executed == Err(ProgramEnd) {
          return Ok(false);
        }
        return Fail(executed);
      }
      var decision := executed.value;
      match decision {
        case Jump(target) =>
          pc := target;
        case Branch(yes, no) =>
          var top := Pop();
          pc := if top == 0 then no else yes;
        case EndProgram =>
          return Ok(false);
        case Random(_, _, _, _) =>
          pc := Chosen(decision, d);
      }
      r := Ok(true);
    }
  }

  /** `JustInTimeCompiler::new_with_io`: load the program text, or fail as
      `parse_grid` does. */
  method NewWithIo(source: string, input: seq<byte>) returns (r: Outcome<JustInTimeCompiler>)
    ensures ParseGrid(source).Err? ==> r == Err(ParseGrid(source).error)
    ensures ParseGrid(source).Ok? ==>
      && r.Ok? && fresh(r.value) && fresh(r.value.grid) && fresh(r.value.blockMap) && r.value.Valid()
      && r.value.Snapshot() == Initial(ParseGrid(source).value, input)
  {
    var parsed := ParseGrid(source);
    if parsed.Err? {
      return Err(parsed.error);
    }
    var compiler := new JustInTimeCompiler(parsed.value, input);
    r := Ok(compiler);
  }
}

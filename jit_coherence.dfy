/** The JIT's cache invariant: every cached block is what compiling from its entry
    on the current playfield would give, and its entry is listed in the block map
    at every cell that compilation visits. `ensure_basic_block`,
    `invalidate_bytecode`, every bytecode operation and so all of `run_forever`
    keep it, and under it the cache is invisible: `ensure_basic_block` returns
    what compiling now would return. */
module JitCoherence {
  import opened Int64
  import opened Machine
  import opened Playfield
  import opened JitCode
  import opened JitCache

  /** `k` is in the list of every cell in `cells`, all of which lie on the
      playfield. */
  predicate Listed(m: BlockMap, cells: seq<Position>, k: PC)
    requires Shaped(m)
  {
    forall p :: p in cells ==> InGrid(p) && k in EntriesAt(m, p)
  }

  /** The block cached for `k` is the one compiling from `k` on the current
      playfield gives, and `k` is listed at every cell that compilation visits. */
  predicate UpToDate(s: JitState, k: PC)
    requires Valid(s) && k in s.blocks
  {
    var compiled := Compile(s.grid, k);
    compiled.Ok? && compiled.value.0 == s.blocks[k] && Listed(s.blockMap, compiled.value.1, k)
  }

  predicate Coherent(s: JitState)
    requires Valid(s)
  {
    forall k :: k in s.blocks ==> UpToDate(s, k)
  }

  /** What `ensure_basic_block` would return with no cache at all. */
  function Uncached(compiled: Outcome<(BasicBlock, seq<Position>)>): Outcome<BasicBlock> {
    if compiled.Ok? then Ok(compiled.value.0) else Fail(compiled)
  }

  lemma InitialCoherent(grid: Grid, input: seq<byte>)
    requires WellFormed(grid)
    ensures Coherent(Initial(grid, input))
  {
  }

  // ---- Recording a block's entry ----

  /** `n` copies of `entry`. */
  function Copies(entry: PC, n: nat): (r: seq<PC>)
    ensures |r| == n && forall i :: 0 <= i < n ==> r[i] == entry
  {
    seq(n, _ => entry)
  }

  /** Recording appends to the list of each cell as many copies of the entry as
      the cell occurs in `cells`, and nothing else. */
  lemma {:induction false} RecordAppends(m: BlockMap, cells: seq<Position>, entry: PC, p: Position)
    requires Shaped(m) && OnGrid(cells) && InGrid(p)
    ensures EntriesAt(Record(m, cells, entry), p) == EntriesAt(m, p) + Copies(entry, multiset(cells)[p])
    decreases |cells|
  {
    if |cells| > 0 {
      var init := cells[..|cells| - 1];
      var last := cells[|cells| - 1];
      assert cells == init + [last];
      assert multiset(cells) == multiset(init) + multiset{last};
      RecordAppends(m, init, entry, p);
      var before := EntriesAt(m, p) + Copies(entry, multiset(init)[p]);
      if p == last {
        assert EntriesAt(Record(m, cells, entry), p) == before + [entry];
      } else {
        assert EntriesAt(Record(m, cells, entry), p) == before;
      }
    }
  }

  /** After recording, the entry is listed at each of the cells, and every list
      keeps what it held. */
  lemma RecordLists(m: BlockMap, cells: seq<Position>, entry: PC, p: Position)
    requires Shaped(m) && OnGrid(cells) && InGrid(p)
    ensures EntriesAt(m, p) <= EntriesAt(Record(m, cells, entry), p)
    ensures p in cells ==> entry in EntriesAt(Record(m, cells, entry), p)
  {
    RecordAppends(m, cells, entry, p);
    if p in cells {
      assert multiset(cells)[p] > 0;
      assert EntriesAt(Record(m, cells, entry), p)[|EntriesAt(m, p)|] == entry;
    }
  }

  // ---- `ensure_basic_block` ----

  /** A hit returns the cached block and changes nothing; a miss that compiles
      caches the block under the program counter, counts exactly one compile and
      leaves the playfield, stack, program counter and I/O alone; a failed
      compilation changes nothing. */
  lemma EnsureCaches(s: JitState)
    requires Valid(s)
    ensures var r := Ensure(s);
      && (s.pc in s.blocks ==> r == (Ok(s.blocks[s.pc]), s))
      && (!r.0.Ok? ==> r.1 == s)
      && (r.0.Ok? ==>
            && s.pc in r.1.blocks && r.1.blocks[s.pc] == r.0.value
            && r.1.blocks - {s.pc} == s.blocks - {s.pc}
            && r.1.compiles == s.compiles + (if s.pc in s.blocks then 0 else 1)
            && r.1.(blocks := s.blocks, blockMap := s.blockMap, compiles := s.compiles) == s)
  {
  }

  /** Under the invariant the cache is invisible: `ensure_basic_block` returns
      exactly what compiling from the program counter on the current playfield
      returns. */
  lemma EnsureTransparent(s: JitState)
    requires Valid(s) && Coherent(s)
    ensures Ensure(s).0 == Uncached(Compile(s.grid, s.pc))
  {
    if s.pc in s.blocks {
      assert UpToDate(s, s.pc);
    }
  }

  lemma EnsureKeepsCoherent(s: JitState)
    requires Valid(s) && Coherent(s)
    ensures Coherent(Ensure(s).1)
  {
    var r := Ensure(s).1;
    if s.pc !in s.blocks && Compile(s.grid, s.pc).Ok? {
      var cells := Compile(s.grid, s.pc).value.1;
      CompiledBlock(s.grid, s.pc);
      forall k | k in r.blocks
        ensures UpToDate(r, k)
      {
        var ks := Compile(s.grid, k).value.1;
        if k != s.pc {
          assert UpToDate(s, k);
        }
        forall p | p in ks
          ensures InGrid(p) && k in EntriesAt(r.blockMap, p)
        {
          RecordLists(s.blockMap, cells, s.pc, p);
        }
      }
    }
  }

  // ---- `invalidate_bytecode` ----

  /** `g` differs from `h` at most in the cell `cell`. */
  ghost predicate OnlyChanged(g: Grid, h: Grid, cell: Position)
    requires WellFormed(g) && WellFormed(h)
  {
    forall p :: InGrid(p) && p != cell ==> CellAt(g, p) == CellAt(h, p)
  }

  /** The state invalidation at `cell` leaves after the playfield became `g`: the
      entries listed at the cell are gone from the cache, the cell's list is empty
      and every other list is as it was. */
  lemma InvalidatedState(s: JitState, g: Grid, cell: Position)
    requires Valid(s) && InGrid(cell) && WellFormed(g)
    ensures var r := Invalidate(s.(grid := g), cell).1;
      && r.grid == g
      && r.blocks == s.blocks - Members(EntriesAt(s.blockMap, cell))
      && EntriesAt(r.blockMap, cell) == []
      && forall p :: InGrid(p) && p != cell ==> EntriesAt(r.blockMap, p) == EntriesAt(s.blockMap, p)
  {
  }

  /** A cached block not listed at `cell` survives invalidation there and stays up
      to date: its compilation never visits `cell`, so it reads the same cells of
      `g` as before. */
  lemma StaysUpToDate(s: JitState, g: Grid, cell: Position, k: PC)
    requires Valid(s) && Coherent(s) && InGrid(cell)
    requires WellFormed(g) && OnlyChanged(s.grid, g, cell)
    requires k in s.blocks && k !in EntriesAt(s.blockMap, cell)
    ensures var r := Invalidate(s.(grid := g), cell).1;
      k in r.blocks && UpToDate(r, k) && cell !in Compile(g, k).value.1
  {
    var r := Invalidate(s.(grid := g), cell).1;
    InvalidatedState(s, g, cell);
    assert UpToDate(s, k);
    var ks := Compile(s.grid, k).value.1;
    assert cell !in ks;
    forall p | p in ks
      ensures InGrid(p) && CellAt(s.grid, p) == CellAt(g, p)
    {
    }
    CompileFrame(s.grid, g, k);
    forall p | p in ks
      ensures InGrid(p) && k in EntriesAt(r.blockMap, p)
    {
    }
  }

  /** Invalidating at `cell` evicts exactly the blocks listed there, drains that
      list, and leaves no cached block whose compilation visits `cell`; so the
      invariant survives any change to that one cell made just before. */
  lemma InvalidateEvicts(s: JitState, g: Grid, cell: Position)
    requires Valid(s) && Coherent(s) && InGrid(cell)
    requires WellFormed(g) && OnlyChanged(s.grid, g, cell)
    ensures var r := Invalidate(s.(grid := g), cell).1;
      && Coherent(r)
      && EntriesAt(r.blockMap, cell) == []
      && (forall k :: k in EntriesAt(s.blockMap, cell) ==> k !in r.blocks)
      && (forall k :: k in s.blocks && k !in EntriesAt(s.blockMap, cell) ==>
            k in r.blocks && r.blocks[k] == s.blocks[k])
      && (forall k :: k in r.blocks ==> cell !in Compile(r.grid, k).value.1)
  {
    var r := Invalidate(s.(grid := g), cell).1;
    InvalidatedState(s, g, cell);
    forall k | k in r.blocks
      ensures UpToDate(r, k) && cell !in Compile(r.grid, k).value.1
    {
      StaysUpToDate(s, g, cell, k);
    }
  }

  /** `invalidate_bytecode` on its own keeps the invariant and returns the
      positions of the entries that were listed at the cell, in order; off the
      playfield it panics and changes nothing. */
  lemma InvalidateKeepsCoherent(s: JitState, cell: Position)
    requires Valid(s) && Coherent(s)
    ensures var r := Invalidate(s, cell);
      && Coherent(r.1)
      && (InGrid(cell) ==> r.0 == Ok(Positions(EntriesAt(s.blockMap, cell))))
      && (!InGrid(cell) ==> r == (Panic(IndexOutOfBounds), s))
  {
    if InGrid(cell) {
      assert s.(grid := s.grid) == s;
      InvalidateEvicts(s, s.grid, cell);
    }
  }

  // ---- `BasicBlock::execute` and `run_forever` ----

  /** `SetValue` keeps the invariant: the one cell it writes is the cell it
      invalidates. */
  lemma SetValueKeepsCoherent(s: JitState, pcAfter: PC, entry: PC)
    requires Valid(s) && Coherent(s)
    ensures Coherent(SetValueStep(s, pcAfter, entry).1)
  {
    var y := Top(s.stack);
    var x := Top(Rest(s.stack));
    var below := Rest(Rest(s.stack));
    var popped := s.(stack := Rest(below));
    var g := PutCell(s.grid, x, y, Top(below));
    assert popped.(grid := g) == s.(stack := Rest(below), grid := g);
    if InGrid(Position(x, y)) {
      InvalidateEvicts(popped, g, Position(x, y));
    }
  }

  /** A `SetValue` that lets the running block go on leaves that block cached
      unchanged and still what compiling from its entry on the written playfield
      gives; one that leaves the block jumps to the cell after it. */
  lemma SetValueKeepsRunningBlock(s: JitState, pcAfter: PC, entry: PC)
    requires Valid(s) && Coherent(s) && entry in s.blocks
    ensures var r := SetValueStep(s, pcAfter, entry);
      && (r.0 == Ok(None) ==>
            && entry in r.1.blocks && r.1.blocks[entry] == s.blocks[entry]
            && Compile(r.1.grid, entry).Ok? && Compile(r.1.grid, entry).value.0 == s.blocks[entry])
      && (r.0.Ok? && r.0.value.Some? ==> r.0.value == Some(Jump(pcAfter)))
  {
    var r := SetValueStep(s, pcAfter, entry);
    SetValueLeaves(s, pcAfter, entry);
    SetValueKeepsCoherent(s, pcAfter, entry);
    if r.0 == Ok(None) {
      var cell := SetTarget(s);
      var below := Rest(Rest(s.stack));
      var popped := s.(stack := Rest(below));
      var g := PutCell(s.grid, cell.x, cell.y, Top(below));
      assert popped.(grid := g) == s.(stack := Rest(below), grid := g);
      InvalidateEvicts(popped, g, cell);
      assert UpToDate(r.1, entry);
    }
  }

  /** An operation of a cached block that lets it go on keeps the state coherent
      and the block cached unchanged. */
  lemma GoingOnKeepsBlock(s: JitState, op: Operation, entry: PC)
    requires Valid(s) && Coherent(s) && entry in s.blocks
    ensures var step := ApplyOp(s, op, entry);
      step.0 == Ok(None) ==> Coherent(step.1) && entry in step.1.blocks && step.1.blocks[entry] == s.blocks[entry]
  {
    ApplyOpKeepsCoherent(s, op, entry);
    if op.SetValue? {
      SetValueKeepsRunningBlock(s, op.pcAfter, entry);
    }
  }

  /** Whatever every operation of `block` that goes on keeps holds before each
      operation the block reaches. */
  lemma {:induction false} ReachedPreserves(inv: JitState -> bool, s: JitState, block: BasicBlock, i: nat, k: nat)
    requires forall t: JitState, op: Operation :: Valid(t) && inv(t) && ApplyOp(t, op, block.entryPoint).0 == Ok(None) ==>
      inv(ApplyOp(t, op, block.entryPoint).1)
    requires Valid(s) && inv(s) && i <= k <= |block.bytecode| && Reached(s, block, i, k).Some?
    ensures inv(Reached(s, block, i, k).value)
    decreases k - i
  {
    if i < k {
      var step := ApplyOp(s, block.bytecode[i], block.entryPoint);
      ReachedPreserves(inv, step.1, block, i + 1, k);
    }
  }

  /** Running a cached block from a coherent state keeps the state coherent and
      the block cached and current before each operation it reaches, so going on
      past a `SetValue` runs code that compiling now would give. */
  lemma ReachedKeepsBlock(s: JitState, block: BasicBlock, i: nat, k: nat)
    requires Valid(s) && Coherent(s) && i <= k <= |block.bytecode|
    requires block.entryPoint in s.blocks && s.blocks[block.entryPoint] == block
    requires Reached(s, block, i, k).Some?
    ensures var t := Reached(s, block, i, k).value;
      && Coherent(t) && block.entryPoint in t.blocks && t.blocks[block.entryPoint] == block
      && Compile(t.grid, block.entryPoint).Ok? && Compile(t.grid, block.entryPoint).value.0 == block
  {
    var entry := block.entryPoint;
    var inv := (t: JitState) => Valid(t) && Coherent(t) && entry in t.blocks && t.blocks[entry] == block;
    forall t: JitState, op: Operation | Valid(t) && inv(t) && ApplyOp(t, op, entry).0 == Ok(None)
      ensures inv(ApplyOp(t, op, entry).1)
    {
      GoingOnKeepsBlock(t, op, entry);
    }
    ReachedPreserves(inv, s, block, i, k);
    var t := Reached(s, block, i, k).value;
    assert inv(t);
    assert UpToDate(t, entry);
  }

  lemma ApplyOpKeepsCoherent(s: JitState, op: Operation, entry: PC)
    requires Valid(s) && Coherent(s)
    ensures Coherent(ApplyOp(s, op, entry).1)
  {
    if op.SetValue? {
      SetValueKeepsCoherent(s, op.pcAfter, entry);
    } else {
      CacheUnchanged(s, ApplyOp(s, op, entry).1);
    }
  }

  /** The invariant reads only the cache, the playfield and the block map. */
  lemma CacheUnchanged(s: JitState, r: JitState)
    requires Valid(s) && Coherent(s)
    requires r.blocks == s.blocks && r.grid == s.grid && r.blockMap == s.blockMap
    ensures Valid(r) && Coherent(r)
  {
    forall k | k in r.blocks
      ensures UpToDate(r, k)
    {
      assert UpToDate(s, k);
    }
  }

  lemma {:induction false} ExecuteKeepsCoherent(s: JitState, block: BasicBlock, i: nat)
    requires Valid(s) && Coherent(s) && i <= |block.bytecode|
    ensures Coherent(ExecuteFrom(s, block, i).1)
    decreases |block.bytecode| - i
  {
    if i < |block.bytecode| {
      ApplyOpKeepsCoherent(s, block.bytecode[i], block.entryPoint);
      var step := ApplyOp(s, block.bytecode[i], block.entryPoint);
      if step.0.Ok? && step.0.value.None? {
        ExecuteKeepsCoherent(step.1, block, i + 1);
      }
    }
  }

  lemma RoundKeepsCoherent(s: JitState, d: Direction)
    requires Valid(s) && Coherent(s)
    ensures Coherent(RoundSpec(s, d).1)
  {
    EnsureKeepsCoherent(s);
    var ensured := Ensure(s);
    if ensured.0.Ok? {
      ExecuteKeepsCoherent(ensured.1, ensured.0.value, 0);
      var t := ExecuteFrom(ensured.1, ensured.0.value, 0);
      if t.0.Ok? && !t.0.value.EndProgram? {
        CacheUnchanged(t.1, Follow(t.1, t.0.value, d));
      }
    }
  }

  /** `run_forever` keeps the invariant over any number of rounds, whatever the
      random draws. */
  lemma JitRunKeepsCoherent(s: JitState, oracle: nat -> Direction, round: nat, fuel: nat)
    requires Valid(s) && Coherent(s)
    ensures Coherent(JitRun(s, oracle, round, fuel).1)
  {
    var inv := (t: JitState) => Valid(t) && Coherent(t);
    forall t: JitState, d: Direction | inv(t)
      ensures inv(RoundSpec(t, d).1)
    {
      RoundKeepsCoherent(t, d);
    }
    JitRunPreserves(inv, s, oracle, round, fuel);
  }

  /** Whatever every round keeps, `run_forever` keeps. */
  lemma {:induction false} JitRunPreserves(inv: JitState -> bool, s: JitState, oracle: nat -> Direction, round: nat, fuel: nat)
    requires forall t: JitState, d: Direction :: Valid(t) && inv(t) ==> inv(RoundSpec(t, d).1)
    requires Valid(s) && inv(s)
    ensures inv(JitRun(s, oracle, round, fuel).1)
    decreases fuel
  {
    if fuel > 0 {
      var next, left := round + 1, fuel - 1;
      JitRunUnfolds(s, oracle, round, fuel, next, left);
      var done := RoundSpec(s, oracle(round));
      assert inv(done.1);
      if done.0.Ok? && done.0.value {
        JitRunPreserves(inv, done.1, oracle, next, left);
      }
    }
  }

  /** Every round of `run_forever` from a coherent state executes the block that
      compiling from the program counter on the current playfield gives. */
  lemma RoundRunsCurrentCode(s: JitState, d: Direction)
    requires Valid(s) && Coherent(s)
    ensures var compiled := Compile(s.grid, s.pc);
      && (compiled.Ok? ==> Ensure(s).0 == Ok(compiled.value.0))
      && (!compiled.Ok? ==> RoundSpec(s, d) == (Fail(compiled), s))
  {
    EnsureTransparent(s);
  }
}

/** The JIT against the reference interpreter: what one pass of the compiler makes
    of the cell under the program counter, and what the bytecode it emits and the
    decision it ends a block with do, compared with `Interpreter::run_step` on the
    same cell. */
module JitLaws {
  import opened Int64
  import opened Machine
  import opened Playfield
  import opened Semantics
  import opened CommandLaws
  import opened JitCode
  import opened JitCache

  /** The JIT state `t` holds the interpreter state `s`'s playfield, stack, input
      and output. */
  predicate Corresponds(t: JitState, s: State) {
    t.grid == s.grid && t.stack == s.stack && t.input == s.input && t.output == s.output
  }

  /** The commands outside string mode that the compiler turns into one operation:
      those that act on the stack, the playfield or the I/O. */
  predicate Emits(c: byte) {
    GroupOf(c) in {StackCommand, Arithmetic, InputOutput, GridAccess} || (GroupOf(c) == Literal && c != '"' as int)
  }

  /** The operation a pass of the compiler from `w` emits, if any. */
  function Emitted(g: Grid, w: Compiling): Option<Operation>
    requires WellFormed(g) && InGrid(w.pc.position)
  {
    var pass := CompilePass(g, w);
    if pass.Next? && |pass.next.bytecode| > |w.bytecode| then Some(pass.next.bytecode[|pass.next.bytecode| - 1])
    else None
  }

  /** `BinaryOperation::call` is the interpreter's arithmetic: each arithmetic
      command compiles to a `Binary` operation that computes the same wrapped
      value, or the same panic on a zero divisor. */
  lemma CallAgrees(c: byte, at: Position, a: Int, b: Int)
    requires GroupOf(c) == Arithmetic
    ensures Translate(c, at).Emit? && Translate(c, at).op.Binary?
    ensures Call(Translate(c, at).op.operation, a, b) == BinaryValue(c, a, b)
  {
  }

  /** In string mode a pass always goes on: `"` leaves string mode and emits
      nothing, every other byte is pushed as `PushConstant` of its unsigned value. */
  lemma StringModePass(g: Grid, w: Compiling)
    requires WellFormed(g) && InGrid(w.pc.position) && w.stringMode
    ensures var c := CellAt(g, w.pc.position); var r := CompilePass(g, w);
      && r.Next?
      && r.next.stringMode == (c != '"' as int)
      && r.next.bytecode == w.bytecode + (if c == '"' as int then [] else [PushConstant(c)])
  {
  }

  /** Outside string mode a pass past the size limit ends the block with a jump to
      the cell it has not compiled; below it, the pass fails exactly at an illegal
      command, ends the block exactly at `? _ | @`, and otherwise goes on having
      emitted one operation for a command that acts on the stack, the playfield or
      the I/O, and none for a movement, the space or `"`. */
  lemma CommandPassShape(g: Grid, w: Compiling)
    requires WellFormed(g) && InGrid(w.pc.position) && !w.stringMode
    ensures var c := CellAt(g, w.pc.position); var r := CompilePass(g, w);
      && (|w.bytecode| > BasicBlockSizeLimit ==> r == Finish(Jump(w.pc)))
      && (|w.bytecode| <= BasicBlockSizeLimit ==>
            && (r.Failed? <==> GroupOf(c) == Illegal)
            && (r.Finish? <==> GroupOf(c) == Conditional || GroupOf(c) == End || c == '?' as int)
            && (r.Next? ==>
                  && r.next.bytecode[..|w.bytecode|] == w.bytecode
                  && |r.next.bytecode| == |w.bytecode| + (if Emits(c) then 1 else 0)))
  {
    var c := CellAt(g, w.pc.position);
    if |w.bytecode| <= BasicBlockSizeLimit {
      TranslationGroups(c, w.pc.position);
    }
  }

  /** The translation table against the interpreter's command groups. */
  lemma TranslationGroups(c: byte, at: Position)
    ensures var t := Translate(c, at);
      && (t.Reject? <==> GroupOf(c) == Illegal)
      && (t.Terminate? <==> GroupOf(c) == Conditional || GroupOf(c) == End || c == '?' as int)
      && ((t.Emit? || t.Put?) <==> Emits(c))
  {
  }

  /** When the interpreter's step on the cell under the program counter succeeds,
      a pass of the compiler that goes on goes on where the step goes, in the same
      string mode. */
  lemma PassAgrees(s: State, choice: Direction, w: Compiling)
    requires Semantics.Valid(s) && w.pc == s.pc && w.stringMode == s.stringMode
    requires CompilePass(s.grid, w).Next? && StepSpec(s, choice).0.Ok?
    ensures var n := CompilePass(s.grid, w).next; var step := StepSpec(s, choice);
      n.pc == step.1.pc && n.stringMode == step.1.stringMode
  {
    var c := CellAt(s.grid, s.pc.position);
    if s.stringMode {
      assert StepSpec(s, choice) == (Ok(()), StringModeStep(s.(steps := s.steps + 1), c));
    } else {
      assert CompilePass(s.grid, w) == CommandPass(w, c, w.cells + [w.pc.position]);
      if GroupOf(c) == Movement {
        MovementCommands(s, choice);
        if c == '#' as int {
          BridgeAgrees(s.pc);
        }
      } else {
        TranslationGroups(c, s.pc.position);
        StepMovesOn(s, choice);
      }
    }
  }

  /** Outside string mode, a successful step on a command that is not a movement or
      a conditional moves one cell on, entering string mode exactly at `"`. */
  lemma StepMovesOn(s: State, choice: Direction)
    requires Semantics.Valid(s) && !s.stringMode && StepSpec(s, choice).0.Ok?
    requires GroupOf(CellAt(s.grid, s.pc.position)) !in {Movement, Conditional}
    ensures var step := StepSpec(s, choice); var c := CellAt(s.grid, s.pc.position);
      step.1.pc == Advance(s.pc) && step.1.stringMode == (c == '"' as int)
  {
    var c := CellAt(s.grid, s.pc.position);
    var t := s.(steps := s.steps + 1);
    match GroupOf(c)
    case Literal => assert StepSpec(s, choice) == (Ok(()), LiteralStep(t, c));
    case StackCommand => assert StepSpec(s, choice) == (Ok(()), StackStep(t, c));
    case Arithmetic => assert StepSpec(s, choice) == ArithmeticStep(t, c);
    case InputOutput => assert StepSpec(s, choice) == IoStep(t, c);
    case GridAccess => assert StepSpec(s, choice) == (Ok(()), GridStep(t, c));
    case End =>
    case Illegal =>
  }

  /** Running `op` from `t` does to the stack, the playfield, the input and the
      output what the interpreter's step from `s` does, goes on exactly when the
      step succeeds, and otherwise fails as the step fails. */
  predicate RunsAsStep(t: JitState, op: Operation, entry: PC, s: State, choice: Direction)
    requires JitCache.Valid(t) && Semantics.Valid(s)
  {
    var jit := ApplyOp(t, op, entry);
    var step := StepSpec(s, choice);
    && Corresponds(jit.1, step.1)
    && (step.0.Ok? <==> jit.0 == Ok(None))
    && (!step.0.Ok? ==> jit.0 == Fail(step.0))
  }

  /** Every operation the compiler emits, other than `SetValue`, runs as the
      interpreter's step on the cell it was compiled from. */
  lemma OperationAgrees(s: State, choice: Direction, w: Compiling, t: JitState, entry: PC)
    requires Semantics.Valid(s) && w.pc == s.pc && w.stringMode == s.stringMode
    requires JitCache.Valid(t) && Corresponds(t, s)
    requires Emitted(s.grid, w).Some? && !Emitted(s.grid, w).value.SetValue?
    ensures RunsAsStep(t, Emitted(s.grid, w).value, entry, s, choice)
  {
    var c := CellAt(s.grid, s.pc.position);
    if s.stringMode {
      StringModeAgrees(s, choice, t, entry);
    } else {
      var at := s.pc.position;
      assert CompilePass(s.grid, w) == CommandPass(w, c, w.cells + [w.pc.position]);
      TranslationGroups(c, at);
      assert Emitted(s.grid, w).value == Translate(c, at).op;
      match GroupOf(c)
      case Literal => DigitAgrees(s, choice, t, entry);
      case StackCommand => StackCommandAgrees(s, choice, t, entry);
      case Arithmetic => ArithmeticAgrees(s, choice, t, entry);
      case InputOutput => InputOutputAgrees(s, choice, t, entry);
      case GridAccess => GetAgrees(s, choice, t, entry);
      case Movement =>
      case Conditional =>
      case End =>
      case Illegal =>
    }
  }

  /** In string mode the `PushConstant` of the byte under the program counter. */
  lemma StringModeAgrees(s: State, choice: Direction, t: JitState, entry: PC)
    requires Semantics.Valid(s) && s.stringMode && JitCache.Valid(t) && Corresponds(t, s)
    requires CellAt(s.grid, s.pc.position) != '"' as int
    ensures RunsAsStep(t, PushConstant(CellAt(s.grid, s.pc.position)), entry, s, choice)
  {
    assert StepSpec(s, choice) == (Ok(()), StringModeStep(s.(steps := s.steps + 1), CellAt(s.grid, s.pc.position)));
  }

  /** A digit's `PushConstant`. */
  lemma DigitAgrees(s: State, choice: Direction, t: JitState, entry: PC)
    requires Semantics.Valid(s) && !s.stringMode && JitCache.Valid(t) && Corresponds(t, s)
    requires GroupOf(CellAt(s.grid, s.pc.position)) == Literal && CellAt(s.grid, s.pc.position) != '"' as int
    ensures var e := Translate(CellAt(s.grid, s.pc.position), s.pc.position);
      e.Emit? && RunsAsStep(t, e.op, entry, s, choice)
  {
    var c := CellAt(s.grid, s.pc.position);
    assert StepSpec(s, choice) == (Ok(()), LiteralStep(s.(steps := s.steps + 1), c));
  }

  /** `Duplicate`, `Swap`, `Drop` and `Negate`. */
  lemma StackCommandAgrees(s: State, choice: Direction, t: JitState, entry: PC)
    requires Semantics.Valid(s) && !s.stringMode && JitCache.Valid(t) && Corresponds(t, s)
    requires GroupOf(CellAt(s.grid, s.pc.position)) == StackCommand
    ensures var e := Translate(CellAt(s.grid, s.pc.position), s.pc.position);
      e.Emit? && RunsAsStep(t, e.op, entry, s, choice)
  {
    var c := CellAt(s.grid, s.pc.position);
    var op := Translate(c, s.pc.position).op;
    assert StepSpec(s, choice) == (Ok(()), StackStep(s.(steps := s.steps + 1), c));
    assert StackOp(op, t.stack) == (Ok(()), StackEffect(c, s.stack));
  }

  /** `Binary`, through `CallAgrees`. */
  lemma ArithmeticAgrees(s: State, choice: Direction, t: JitState, entry: PC)
    requires Semantics.Valid(s) && !s.stringMode && JitCache.Valid(t) && Corresponds(t, s)
    requires GroupOf(CellAt(s.grid, s.pc.position)) == Arithmetic
    ensures var e := Translate(CellAt(s.grid, s.pc.position), s.pc.position);
      e.Emit? && RunsAsStep(t, e.op, entry, s, choice)
  {
    var c := CellAt(s.grid, s.pc.position);
    assert StepSpec(s, choice) == ArithmeticStep(s.(steps := s.steps + 1), c);
    CallAgrees(c, s.pc.position, Top(Rest(s.stack)), Top(s.stack));
  }

  /** `Input` and `Output`. */
  lemma InputOutputAgrees(s: State, choice: Direction, t: JitState, entry: PC)
    requires Semantics.Valid(s) && !s.stringMode && JitCache.Valid(t) && Corresponds(t, s)
    requires GroupOf(CellAt(s.grid, s.pc.position)) == InputOutput
    ensures var e := Translate(CellAt(s.grid, s.pc.position), s.pc.position);
      e.Emit? && RunsAsStep(t, e.op, entry, s, choice)
  {
    var c := CellAt(s.grid, s.pc.position);
    assert StepSpec(s, choice) == IoStep(s.(steps := s.steps + 1), c);
  }

  /** `GetValue` (`g`; `p` is `PutAgrees`). */
  lemma GetAgrees(s: State, choice: Direction, t: JitState, entry: PC)
    requires Semantics.Valid(s) && !s.stringMode && JitCache.Valid(t) && Corresponds(t, s)
    requires CellAt(s.grid, s.pc.position) == 'g' as int
    ensures Translate('g' as int, s.pc.position) == Emit(GetValue)
    ensures RunsAsStep(t, GetValue, entry, s, choice)
  {
    assert StepSpec(s, choice) == (Ok(()), GridStep(s.(steps := s.steps + 1), 'g' as int));
  }

  /** `p` compiles to `SetValue` carrying the program counter the interpreter's
      step moves to; running it writes the playfield and pops the stack as the
      step does. Unlike the interpreter, which ignores a write off the playfield,
      the JIT then panics on its unchecked block map index. */
  lemma PutAgrees(s: State, choice: Direction, w: Compiling, t: JitState, entry: PC)
    requires Semantics.Valid(s) && w.pc == s.pc && !w.stringMode && !s.stringMode
    requires |w.bytecode| <= BasicBlockSizeLimit && CellAt(s.grid, s.pc.position) == 'p' as int
    requires JitCache.Valid(t) && Corresponds(t, s)
    ensures var step := StepSpec(s, choice);
      && step.0 == Ok(())
      && Emitted(s.grid, w) == Some(SetValue(step.1.pc))
      && var jit := SetValueStep(t, step.1.pc, entry);
         && Corresponds(jit.1, step.1)
         && (jit.0.Panic? <==> !InGrid(Position(Top(Rest(s.stack)), Top(s.stack))))
         && (!jit.0.Panic? ==> jit.0.Ok?)
  {
  }

  /** A block that ends at `@` ends the run as the interpreter's `ProgramEnd`
      does; one that ends at `_`, `|` or `?` sends the JIT, once it has followed
      the decision, to the unwrapped neighbour that the interpreter's step wraps
      onto the playfield: the same program counter whenever that neighbour lies on
      the playfield, and an off-playfield one (where the next block panics) only
      at an edge. The stack and everything else correspond. */
  lemma DecisionAgrees(s: State, choice: Direction, w: Compiling, t: JitState)
    requires Semantics.Valid(s) && w.pc == s.pc && !w.stringMode && !s.stringMode
    requires |w.bytecode| <= BasicBlockSizeLimit && CompilePass(s.grid, w).Finish?
    requires JitCache.Valid(t) && Corresponds(t, s)
    ensures var decision := CompilePass(s.grid, w).decision; var step := StepSpec(s, choice);
      && (decision.EndProgram? <==> step.0 == Err(ProgramEnd))
      && (!decision.EndProgram? ==>
            && decision.Branch? == (GroupOf(CellAt(s.grid, s.pc.position)) == Conditional)
            && step.0 == Ok(())
            && var followed := Follow(t, decision, choice);
               && Corresponds(followed, step.1)
               && Constrain(followed.pc) == step.1.pc
               && (InGrid(followed.pc.position) ==> followed.pc == step.1.pc))
  {
    var c := CellAt(s.grid, s.pc.position);
    TranslationGroups(c, s.pc.position);
    var decision := CompilePass(s.grid, w).decision;
    if !decision.EndProgram? {
      var followed := Follow(t, decision, choice);
      var d := followed.pc.direction;
      NeighbourWraps(s.pc.position, d);
    }
  }

  /** Wrapping the unwrapped neighbour is the interpreter's `move_pc!` after
      turning; a neighbour on the playfield needs no wrapping. */
  lemma NeighbourWraps(at: Position, d: Direction)
    ensures Constrain(Neighbour(at, d)) == Advance(PC(at, d))
    ensures InGrid(Neighbour(at, d).position) ==> Constrain(Neighbour(at, d)) == Neighbour(at, d)
  {
  }
}

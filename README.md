# boxfunge in Dafny

boxfunge runs Befunge-93 programs. A program is a 80×25 playfield of command
bytes. The program counter walks across the playfield, and the playfield wraps
at its edges. Commands work on a stack of signed 64-bit integers (`c_long`).
Popping an empty stack yields 0. Because `p` can rewrite any cell, a program can
modify itself.

The repository has two engines, and this project models both:

- **The reference interpreter** (`src/main.rs`). `Interpreter::run_step` executes
  one command and `run_forever` repeats it.
  - `semantics.dfy` defines one step as a function on a state value (`StepSpec`) and
    a run as a bounded iteration of it (`Run`).
  - `interpreter.dfy` is the `Interpreter` struct as a class. The playfield is an
    `array2`. Every method is proved to compute the matching function.
  - `command_laws.dfy` states what each command does, the frame of a step, and
    what holds over whole runs.
  - `int64.dfy` holds the wrapping 64-bit arithmetic, `machine.dfy` the program
    counter and its wrap-around, and `playfield.dfy` the grid and `parse_grid`.
  - `io.dfy` holds `scan_next` (the decimal reader) and decimal output.
- **The basic-block JIT** (`src/jit.rs`). It compiles straight-line runs of
  commands into bytecode ending in a control-flow decision. It caches blocks by
  entry program counter, and records, for every playfield cell, the blocks
  compiled through it. When `p` writes a cell, it evicts those blocks.
  - `jit_compile.dfy` holds the bytecode, `compile_basic_block_from` as a function
    (`Compile`) and as a loop over an `array2`.
  - `jit_cache.dfy` holds the cache, execution and the run loop as functions.
  - `jit.dfy` is the `JustInTimeCompiler` class, proved against those functions.
  - `jit_coherence.dfy` proves the cache invariant: every cached block is exactly
    what compiling the current playfield would give, and it is listed at every cell
    it was compiled from. So eviction on `p` is enough, and the cache never changes
    what runs.
  - `jit_laws.dfy` proves that the compiler's passes and the bytecode agree
    command by command with the interpreter's `run_step`, in string mode as well
    as outside it, except at the playfield edges listed below.

Design choices:

- Random directions (`?`) are an oracle parameter. The interpreter draws one per
  step, keyed by the step count. The JIT draws one per round of its loop.
- Input is the sequence of bytes not yet read, and output is the sequence of bytes
  written so far.
- A run that would loop forever is modelled by a fuel bound and the `OutOfFuel`
  outcome.
- A read that never returns is the `Hang` outcome. `scan_next` retries forever
  once input is exhausted.
- A Rust panic is the `Panic` outcome: division by zero, and an index off the
  playfield in the JIT.

Where the code and the language description it follows disagree, the model
follows the code:

- Stack cells are 64-bit (`c_long`), not 32-bit.
- `g` and `p` off the playfield read 0 and write nothing. They do not wrap the
  coordinates.
- A program with more than 25 lines, or whose *first* line is longer than 80
  characters, is rejected with `InvalidGridSize`. Other long lines are cut to 80.
- A non-ASCII character in the program is rejected with `NonAscii`.
- `&` at the end of input never returns (`Hang`). It does not push a sentinel.

The JIT differs from the interpreter in when it reports an illegal command and
at the playfield edge, and the model keeps that behaviour:

- The JIT compiles a whole basic block before it runs any of it, and an illegal
  command anywhere in the block fails that compilation with `IllegalCommand`.
  So none of the block's earlier commands run: on the program `1.x` the
  interpreter writes "1 " and then fails, while the JIT fails with no output. In
  the model, `RoundSpec` fails at `Ensure`, and `JitCoherence.EnsureCaches`
  states that a failed compilation changes nothing.

- The targets of `_`, `|` and `?` are the neighbouring cells, without wrap-around.
  A target off the playfield makes the next compilation index out of bounds, a
  `Panic`.
- `p` with coordinates off the playfield writes nothing. It then indexes the block
  map with them, which is also a `Panic`.

`JitLaws.DecisionAgrees` and `JitLaws.PutAgrees` state these cases exactly.

## Model

| member | source | states |
|---|---|---|
| Int64.Wrap | src/main.rs:24 | the 64-bit two's-complement value congruent to x modulo 2^64, and x itself when x is in range |
| Int64.TruncDivision | src/main.rs:392-405 | Rust's truncating `/` and `%`: a == q*b + r, abs(r) < abs(b), r is 0 or has a's sign, abs(q) <= abs(a) |
| Int64.WrappingAdd | src/main.rs:371-377 | `wrapping_add`: congruent to a+b mod 2^64, equal to a+b when that fits |
| Int64.WrappingSub | src/main.rs:378-384 | `wrapping_sub`: congruent to a-b mod 2^64, equal to a-b when that fits |
| Int64.WrappingMul | src/main.rs:385-391 | `wrapping_mul`: congruent to a*b mod 2^64, equal to a*b when that fits |
| Int64.WrappingDiv | src/main.rs:392-398 | `wrapping_div`: the truncating quotient, except MIN / -1 which wraps to MIN |
| Int64.WrappingRem | src/main.rs:399-405 | `wrapping_rem`: the truncating remainder, abs(r) < abs(b), r is 0 or has a's sign (so MIN % -1 is 0) |
| Int64.SignExtend | src/main.rs:499 | `as i8 as Int` on a cell byte: a value in [-128, 128) congruent to the byte mod 256 |
| Int64.LowByte | src/main.rs:510 | `value as u8`: a byte congruent to the value mod 256 |
| Int64.SignExtendLowByte | src/main.rs:489-515 | a value in [-128, 128) written by `p` reads back unchanged through `g`'s sign extension |
| Machine.WrapCoordinateLands | src/main.rs:92-99 | `constrain` on a coordinate at most one lap off the playfield adds or subtracts the side length exactly once |
| Machine.AdvanceStaysInGrid | src/main.rs:88-99 | `step` then `constrain` keeps an on-grid program counter on the grid, keeps its direction, and moves it one cell modulo the playfield size |
| Machine.BridgeAgrees | src/jit.rs:361-365 | the JIT's `#` (two steps, one constrain) lands where the interpreter's `#` (two steps, each constrained) lands, on the grid |
| Machine.WrapTwice | src/main.rs:328-332 | wrapping two unit moves at once equals wrapping each move |
| Playfield.PutCell | src/main.rs:505-515 | `p` leaves a full playfield; the target cell holds the value's low byte when on the grid, and every other cell is unchanged |
| Playfield.GetAfterPut | src/main.rs:489-515 | `g` after `p` at an on-grid cell returns the stored value (in the signed byte range); off the grid `p` changes nothing and `g` returns 0 |
| Playfield.GridOf | src/main.rs:28-29 | the playfield array seen as a full 25×80 grid value, cell by cell |
| Playfield.GridArray | src/main.rs:236-237 | a fresh 25×80 array holding exactly the parsed grid |
| Playfield.NewlineIndex | src/main.rs:248-249 | the index of the first `\n`, or the length when there is none; no earlier `\n` |
| Playfield.LinesJoinLines | src/main.rs:248-249 | `lines()` splits back the lines that were joined with `\n` (lines without `\n` or a trailing `\r`) |
| Playfield.NewlineAfter | src/main.rs:248-249 | the first newline of `l + "\n" + rest` is right after `l` when `l` has none |
| Playfield.FirstNonAsciiFinds | src/main.rs:251-257 | the first non-ASCII character is absent exactly when every character is ASCII, and otherwise is the first one that is not |
| Playfield.AsciiBytes | src/main.rs:250-259 | a line converts to bytes or fails with an error, never anything else |
| Playfield.AsciiLines | src/main.rs:248-262 | the lines convert to byte lines or fail with an error, never anything else |
| Playfield.ResizeLine | src/main.rs:270-271 | `resize(GRID_WIDTH, b' ')` gives a line of exactly 80 bytes |
| Playfield.PadGrid | src/main.rs:266-278 | padding at most 25 lines gives a full 25×80 playfield |
| Playfield.ParseGrid | src/main.rs:247-280 | `parse_grid` returns a full playfield or an error, never anything else; its cases are the three lemmas below |
| Playfield.FirstNonAsciiConcat | src/main.rs:251-262 | the first non-ASCII character of a concatenation is that of the first part if it has one, else that of the second |
| Playfield.LinesKeepFirstNonAscii | src/main.rs:248-262 | splitting into lines neither adds nor loses the first non-ASCII character |
| Playfield.FirstLineKeepsFirstNonAscii | src/main.rs:248-262 | the induction step of the previous lemma at the first newline |
| Playfield.LinesAtNewline | src/main.rs:248-249 | `lines()` of a text with a newline is its first line (without a trailing `\r`) followed by the lines of the rest |
| Playfield.FlattenCons | src/main.rs:248-262 | concatenating a line before some lines concatenates it before their flattening |
| Playfield.FirstNonAsciiAroundNewline | src/main.rs:248-262 | the first non-ASCII character of a text lies before its first newline if one is there, else after it |
| Playfield.StripKeepsFirstNonAscii | src/main.rs:248-249 | dropping a trailing `\r` does not change the first non-ASCII character |
| Playfield.AsciiBytesOutcome | src/main.rs:250-259 | a line with a non-ASCII character fails with `NonAscii` of the first one; otherwise it converts character by character |
| Playfield.AsciiLinesOutcome | src/main.rs:248-262 | the lines fail with `NonAscii` of the first non-ASCII character in reading order; otherwise they convert character by character |
| Playfield.ParseGridRejectsNonAscii | src/main.rs:247-262 | `parse_grid` fails with `NonAscii` exactly when the text has a non-ASCII character, and names the first one |
| Playfield.ParseGridChecksSize | src/main.rs:262-266 | an ASCII text fails exactly when it has more than 25 lines or its first line is longer than 80, with `InvalidGridSize(width, height)` |
| Playfield.ParseGridCells | src/main.rs:247-280 | a parsed playfield holds each line's character where the line has one, and a space everywhere else (longer lines are cut at 80) |
| Io.DigitsValueOfDigits | src/main.rs:433-437 | the decimal digits written for n are a non-empty digit string whose value is n |
| Io.ParseFormatDecimal | src/main.rs:210-212 | parsing the decimal text written for any 64-bit n gives back n |
| Io.SkipLength | src/main.rs:189-197 | the skipped prefix is no longer than the input |
| Io.SkipLengthSkips | src/main.rs:189-197 | the first loop of `scan_next` skips exactly the leading whitespace and NUL bytes |
| Io.TokenLength | src/main.rs:199-208 | the token is no longer than the input |
| Io.TokenLengthTakes | src/main.rs:199-208 | the second loop takes exactly the bytes up to the first whitespace or NUL |
| Io.ScanSpec | src/main.rs:184-216 | when `scan_next` returns, it has consumed a non-empty prefix and the rest is a suffix of the input |
| Io.ScanNeverReturns | src/main.rs:189-197 | `scan_next` never returns exactly when the remaining input is all whitespace and NUL bytes (end of input reads as NUL) |
| Io.ReadToken | src/main.rs:199-216 | once a token starts, `scan_next` returns and consumes at least that byte |
| Io.ScanNext | src/main.rs:184-216 | the byte-by-byte loops of `scan_next` compute the token and remaining input of `ScanSpec` |
| Io.SkipDelimiters | src/main.rs:189-197 | the first loop finds a byte exactly when the input is not all delimiters, and stops right after the first non-delimiter |
| Io.TakeToken | src/main.rs:199-208 | the second loop collects the token and consumes it together with the one delimiter after it |
| Io.TokenOfScan | src/main.rs:199-208 | when the second loop stops, what it collected is the token and what is left is the input after the token's delimiter |
| Io.SkipLengthAfterDelimiters | src/main.rs:189-197 | leading delimiters add their count to the skipped prefix |
| Io.ScanSkipsDelimiters | src/main.rs:184-216 | leading whitespace and NULs do not change what `scan_next` reads |
| Io.FormatDecimalIsToken | src/main.rs:433-437 | the decimal text `.` writes is non-empty and free of delimiters |
| Io.ScanReadsDecimalOutput | src/main.rs:433-466 | `scan_next` on what `.` wrote for n (digits and a space) reads n and consumes exactly that text |
| Io.TokenLengthOfPrefix | src/main.rs:199-208 | a delimiter-free token followed by a delimiter (or end of input) is taken whole |
| Semantics.Initial | src/main.rs:225-246 | a new interpreter starts valid, at (0, 0) heading right |
| Semantics.Move | src/main.rs:282-287 | `move_pc!` keeps the state valid and the direction, and changes only the program counter |
| Semantics.Go | src/main.rs:303-322 | turning and then `move_pc!` keeps the state valid, sets the direction, and changes only the program counter |
| Semantics.BinaryValue | src/main.rs:371-419 | a binary command panics exactly for `/` or `%` by zero, and otherwise has a value |
| Semantics.StepSpec | src/main.rs:281-522 | `run_step` counts exactly one step and keeps the program counter on the grid; each command's effect is in CommandLaws |
| Semantics.Run | src/main.rs:525-535 | `run_forever` keeps the state valid; its results are in CommandLaws |
| Semantics.AfterStep | src/main.rs:527-533 | handling a step's result keeps the state valid |
| CommandLaws.StringModePushes | src/main.rs:292-299 | in string mode a quote leaves string mode; any other byte is pushed (as 0..255); the counter moves on |
| CommandLaws.LiteralCommands | src/main.rs:338-348 | `"` enters string mode; a digit pushes its value 0..9; the counter moves on |
| CommandLaws.StackCommands | src/main.rs:350-369 | `:` duplicates, `\` swaps, `$` drops the top, `!` replaces it with its logical not |
| CommandLaws.StackCommandsOnEmptyStack | src/main.rs:350-369 | on an empty stack `:` and `\` leave [0, 0], `$` leaves [], `!` leaves [1] |
| CommandLaws.MissingOperandsReadAsZero | src/main.rs:350-515 | a command with fewer operands than it pops behaves exactly as if a 0 were below the stack |
| CommandLaws.ArithmeticCommands | src/main.rs:371-419 | each of `+ - * / % backquote` pushes its wrapping result; `/` and `%` by zero panic |
| CommandLaws.MovementCommands | src/main.rs:303-337 | `> < ^ v` turn and move, `?` takes the drawn direction, `#` skips a cell, space moves on; the stack is unchanged |
| CommandLaws.ConditionalCommands | src/main.rs:468-488 | `_` goes right on 0 and left otherwise, `|` goes down on 0 and up otherwise; the top is popped |
| CommandLaws.GetCommand | src/main.rs:489-504 | `g` pops y and x and pushes the sign-extended cell, or 0 off the grid |
| CommandLaws.PutCommand | src/main.rs:505-515 | `p` pops y, x and v and writes v's low byte at (x, y) when on the grid |
| CommandLaws.PutThenGet | src/main.rs:489-515 | a `p` followed by a `g` of the same on-grid cell pushes the stored value back |
| CommandLaws.OutputCommands | src/main.rs:420-438 | `,` writes an ASCII top or fails with `NonAscii(top)` without moving; `.` writes the decimal text and a space |
| CommandLaws.InputCommands | src/main.rs:439-467 | `~` pushes the next byte (-1 at end of input or for byte 0xFF); `&` pushes the scanned number, fails with `InvalidData` on a bad token, or never returns |
| CommandLaws.DecimalEcho | src/main.rs:433-466 | `&` reading what `.` wrote for n pushes n and consumes exactly that text |
| CommandLaws.EndAndIllegalCommands | src/main.rs:516-520 | `@` reports `ProgramEnd`, any other unknown byte `IllegalCommand`; other commands fail only with I/O or `NonAscii` errors |
| CommandLaws.StepFrame | src/main.rs:281-522 | only `p` changes the playfield, only `~ &` consume input, only `, .` write output; input only shrinks from the front and output only grows |
| CommandLaws.IoFrame | src/main.rs:420-467 | I/O commands keep the playfield; only the input commands consume input and only the output commands append output |
| CommandLaws.StepReadsAndAppends | src/main.rs:281-522 | a step leaves a suffix of the input and extends the output |
| CommandLaws.ReadAsciiConsumes | src/main.rs:439-460 | `~` leaves a suffix of the input |
| CommandLaws.RunFuelMonotone | src/main.rs:525-535 | a run that ends within some number of steps ends the same way with any larger bound |
| CommandLaws.RunOkOnlyAtEnd | src/main.rs:525-535 | `run_forever` succeeds only by reaching an `@` outside string mode |
| CommandLaws.EndOnlyByAt | src/main.rs:516 | `ProgramEnd` comes only from `@` outside string mode, which changes nothing but the step count |
| CommandLaws.RunFrame | src/main.rs:525-538 | over a whole run the output only grows, the input only shrinks from the front, and at most one step is counted per unit of fuel |
| CommandLaws.RunPreserves | src/main.rs:525-535 | any reflexive, transitive relation that every step keeps also holds between the start and the end of a run |
| CommandLaws.RunCounts | src/main.rs:536-538 | `steps()` grows by at most the number of steps allowed |
| Interp.Interpreter.constructor | src/main.rs:225-246 | the new interpreter is the initial state of the parsed playfield |
| Interp.Interpreter.Pop | src/main.rs:351 | `pop().unwrap_or_default()`: the top or 0, and the stack without it |
| Interp.Interpreter.Push | src/main.rs:352 | `push`: the value is appended on top |
| Interp.Interpreter.Turn | src/main.rs:303-306 | sets the direction and moves one wrapped cell |
| Interp.Interpreter.MoveOn | src/main.rs:282-287 | `move_pc!`: moves one wrapped cell |
| Interp.Interpreter.RunStep | src/main.rs:281-522 | the step it takes on its fields is exactly `StepSpec` on the state they form |
| Interp.Interpreter.Redirect | src/main.rs:303-337 | the movement commands on the fields equal their step function |
| Interp.Interpreter.PushLiteral | src/main.rs:338-348 | `"` and the digits on the fields equal their step function |
| Interp.Interpreter.ManipulateStack | src/main.rs:350-369 | `: \ $ !` on the fields equal their step function |
| Interp.Interpreter.Calculate | src/main.rs:371-419 | the arithmetic commands on the fields equal their step function |
| Interp.Interpreter.Communicate | src/main.rs:420-467 | the I/O commands on the fields equal their step function |
| Interp.Interpreter.Branch | src/main.rs:468-488 | `_` and `|` on the fields equal their step function |
| Interp.Interpreter.AccessGrid | src/main.rs:489-515 | `g` and `p` on the array playfield equal their step function |
| Interp.Interpreter.RunForever | src/main.rs:525-535 | the loop's result and final fields are exactly `Run` of the starting state |
| Interp.Interpreter.Round | src/main.rs:527-534 | one iteration of the loop either stops with the run's result or leaves a state whose run with one step fewer, returned as the steps left, has the same result |
| Interp.NewWithIo | src/main.rs:225-246 | a parse error is returned as is; otherwise a fresh interpreter in the initial state of the parsed playfield |
| JitCode.Call | src/jit.rs:95-112 | a binary operation panics exactly for division or remainder by zero |
| JitCode.CompilePass | src/jit.rs:300-520 | one loop pass records the current cell, stays on the grid, and fails only with `IllegalCommand` |
| JitCode.CommandPass | src/jit.rs:321-520 | one command outside string mode stays on the grid and fails only with `IllegalCommand` |
| JitCode.CompileFromExtends | src/jit.rs:291-524 | compilation only appends: the block keeps its entry, extends the bytecode and the visited cells, all on the grid |
| JitCode.CompiledBlock | src/jit.rs:291-524 | a compiled block starts at its entry, lists the entry's cell first and only on-grid cells; it fails only with `IllegalCommand`, and panics exactly when the entry is off the grid |
| JitCode.CompileFromErrors | src/jit.rs:291-524 | the loop ends only with a block, an `IllegalCommand`, or the fuel bound |
| JitCode.CompileFromFrame | src/jit.rs:291-524 | the loop's result depends only on the cells it visited |
| JitCode.CompileFrame | src/jit.rs:291-524 | compiling on a playfield that agrees on a block's cells gives the same block and cells |
| JitCode.CompileBasicBlockFrom | src/jit.rs:291-524 | the loop over the array playfield returns exactly `Compile` of it |
| JitCache.Initial | src/jit.rs:268-289 | a new JIT starts valid at (0, 0) heading right, with no blocks and an empty list at every cell |
| JitCache.MapOf | src/jit.rs:245 | the block-map array seen as a 25×80 grid of entry lists, cell by cell |
| JitCache.Ensure | src/jit.rs:526-547 | `ensure_basic_block` keeps the state valid; its cache behaviour is `EnsureCaches` |
| JitCache.Positions | src/jit.rs:556-559 | the positions of the invalidated entries, in order |
| JitCache.Invalidate | src/jit.rs:549-560 | `invalidate_bytecode` keeps the state valid; its effect is `InvalidateEvicts` |
| JitCache.SetValueStep | src/jit.rs:224-237 | `SetValue` keeps the state valid; `SetValueLeaves` states its outcomes |
| JitCache.SetValueLeaves | src/jit.rs:224-237 | `SetValue` panics exactly when `(x, y)` is off the playfield; on it, it returns `Jump(pc_after)` exactly when the invalidated entries include the running block's entry position, and otherwise lets the block go on |
| JitCache.IoOp | src/jit.rs:171-209 | the I/O operations change only the stack, the input and the output |
| JitCache.ApplyOp | src/jit.rs:146-237 | every operation keeps the state valid; all but `SetValue` change only the stack, input and output |
| JitCache.ExecuteFrom | src/jit.rs:144-241 | executing bytecode keeps the state valid; `ExecuteDecision` states what it returns |
| JitCache.ExecuteRunsThrough | src/jit.rs:145-240 | when every operation goes on, `execute` returns the block's `cf_decision` in the state after the last operation |
| JitCache.ExecuteLeavesAt | src/jit.rs:224-237 | a `SetValue` reached after all earlier operations went on, which evicts the running block, ends `execute` with `Jump(pc_after)`; the operations after it do not run |
| JitCache.ExecuteDecision | src/jit.rs:144-241 | every result of `execute`: the block's decision after all operations went on, or the result of the first operation that did not go on, which is either its failure or `Jump(pc_after)` from a `SetValue` evicting the running block |
| JitCache.Follow | src/jit.rs:568-588 | following a decision changes only the program counter, and the stack for a branch |
| JitCache.RoundSpec | src/jit.rs:564-593 | one round of the loop keeps the state valid |
| JitCache.JitRun | src/jit.rs:564-594 | `run_forever` keeps the state valid |
| JitCache.PlayRound | src/jit.rs:566-567 | one round (ensure the block, execute it) followed by the rest of the run keeps the state valid |
| JitCache.AfterRound | src/jit.rs:568-591 | handling a round's result keeps the state valid: a failure or a normal end stops the run, anything else goes on from the next round |
| JitCoherence.InitialCoherent | src/jit.rs:268-289 | a new JIT is coherent |
| JitCoherence.RecordAppends | src/jit.rs:539-542 | recording a block appends its entry to a cell's list once per time the block passed the cell |
| JitCoherence.RecordLists | src/jit.rs:539-542 | recording keeps each cell's old entries and lists the entry at every cell the block passed |
| JitCoherence.EnsureCaches | src/jit.rs:526-547 | a cached block is returned unchanged; on failure nothing changes; on success the block is cached at the program counter, other entries are kept, and the compile count goes up by one exactly when it was missing |
| JitCoherence.EnsureTransparent | src/jit.rs:526-547 | in a coherent state `ensure_basic_block` returns what compiling the current playfield returns, cached or not |
| JitCoherence.EnsureKeepsCoherent | src/jit.rs:526-547 | `ensure_basic_block` keeps the cache coherent |
| JitCoherence.InvalidatedState | src/jit.rs:549-560 | invalidation removes exactly the blocks listed at the cell, empties its list, and leaves every other cell's list alone |
| JitCoherence.StaysUpToDate | src/jit.rs:549-560 | a block not listed at the written cell did not pass it, so it stays cached and up to date after the write |
| JitCoherence.InvalidateEvicts | src/jit.rs:224-237 | after writing one cell and invalidating it, the cache is coherent again: exactly the blocks through the cell are evicted, the others are kept unchanged, and no cached block passes the cell |
| JitCoherence.InvalidateKeepsCoherent | src/jit.rs:549-560 | invalidation keeps coherence and returns the positions listed at the cell; off the grid it panics and changes nothing |
| JitCoherence.SetValueKeepsRunningBlock | src/jit.rs:224-237 | from a coherent state, a `SetValue` that lets the block go on leaves the running block cached unchanged and equal to what compiling its entry on the written playfield gives; one that leaves returns `Jump(pc_after)` |
| JitCoherence.GoingOnKeepsBlock | src/jit.rs:145-237 | any operation that lets the block go on keeps the state coherent and the running block cached unchanged |
| JitCoherence.ReachedPreserves | src/jit.rs:145 | what every continuing operation keeps holds before each operation the block reaches |
| JitCoherence.ReachedKeepsBlock | src/jit.rs:145-237 | running a cached block from a coherent state, before each operation it reaches the state is coherent and the block is still cached and is what compiling its entry on the current playfield gives, so going on past a `SetValue` runs current code |
| JitCoherence.SetValueKeepsCoherent | src/jit.rs:224-237 | `SetValue` keeps the cache coherent |
| JitCoherence.ApplyOpKeepsCoherent | src/jit.rs:146-237 | every operation keeps the cache coherent |
| JitCoherence.ExecuteKeepsCoherent | src/jit.rs:144-241 | executing a block keeps the cache coherent |
| JitCoherence.RoundKeepsCoherent | src/jit.rs:564-593 | one round of the loop keeps the cache coherent |
| JitCoherence.JitRunKeepsCoherent | src/jit.rs:564-594 | a whole run keeps the cache coherent |
| JitCoherence.JitRunPreserves | src/jit.rs:564-594 | any property every round keeps holds at the end of a run |
| JitCoherence.RoundRunsCurrentCode | src/jit.rs:564-568 | in a coherent state each round runs the block compiled from the current playfield, or fails as that compilation fails |
| JitEngine.JustInTimeCompiler.constructor | src/jit.rs:268-289 | the new JIT is the initial state of the parsed playfield |
| JitEngine.JustInTimeCompiler.Pop | src/jit.rs:149 | `pop().unwrap_or_default()`: the top or 0, and the stack without it |
| JitEngine.JustInTimeCompiler.Push | src/jit.rs:147 | `push`: the value is appended on top |
| JitEngine.JustInTimeCompiler.EnsureBasicBlock | src/jit.rs:526-547 | the method on the fields is exactly `Ensure` |
| JitEngine.JustInTimeCompiler.Cache | src/jit.rs:532-537 | inserts the block at the program counter and counts one compile, nothing else |
| JitEngine.JustInTimeCompiler.RecordEntry | src/jit.rs:539-542 | the block map afterwards is `Record` of the old one |
| JitEngine.JustInTimeCompiler.InvalidateBytecode | src/jit.rs:549-560 | the method on the fields is exactly `Invalidate` |
| JitEngine.JustInTimeCompiler.Execute | src/jit.rs:144-241 | the loop over the bytecode is exactly `ExecuteFrom` from the first operation |
| JitEngine.JustInTimeCompiler.Perform | src/jit.rs:146-237 | one operation on the fields is exactly `ApplyOp` |
| JitEngine.JustInTimeCompiler.OperateOnStack | src/jit.rs:147-170 | the stack operations on the stack field are exactly `StackOp` |
| JitEngine.JustInTimeCompiler.Communicate | src/jit.rs:171-209 | the I/O operations on the fields are exactly `IoOp` |
| JitEngine.JustInTimeCompiler.SetValue | src/jit.rs:224-237 | the write-and-invalidate on the fields is exactly `SetValueStep` |
| JitEngine.JustInTimeCompiler.RunForever | src/jit.rs:564-594 | the loop's result and final fields are exactly `JitRun` of the starting state |
| JitEngine.JustInTimeCompiler.Round | src/jit.rs:565-592 | one iteration either stops with the run's result or leaves a state whose run from the next round, with one round fewer, has the same result |
| JitEngine.JustInTimeCompiler.RunRound | src/jit.rs:565-592 | one round on the fields is exactly `RoundSpec` |
| JitEngine.NewWithIo | src/jit.rs:268-289 | a parse error is returned as is; otherwise a fresh JIT in the initial state of the parsed playfield |
| JitLaws.CallAgrees | src/jit.rs:95-112 | each arithmetic command compiles to a binary operation whose result is the interpreter's |
| JitLaws.StringModePass | src/jit.rs:304-313 | in string mode a quote leaves string mode and any other byte is compiled to a push of it |
| JitLaws.CommandPassShape | src/jit.rs:314-520 | over the size limit the block ends with a jump to the current counter; otherwise a pass fails exactly on illegal commands, ends exactly at `_ | ? @`, and emits one operation exactly for the commands that act on data |
| JitLaws.TranslationGroups | src/jit.rs:321-518 | the compiler rejects exactly the illegal bytes, ends blocks exactly at `_ | ? @`, and emits exactly for the data commands |
| JitLaws.PassAgrees | src/jit.rs:300-520 | a pass that goes on leaves the counter and string mode where the interpreter's step leaves them |
| JitLaws.StepMovesOn | src/main.rs:338-515 | every successful command other than movement and conditionals moves one cell on; only `"` sets string mode |
| JitLaws.OperationAgrees | src/jit.rs:144-223 | every emitted operation except `SetValue` has the same effect on stack, playfield, input and output as the interpreter's step, and fails exactly when and as the step does |
| JitLaws.StringModeAgrees | src/jit.rs:304-313 | the push compiled in string mode acts as the interpreter's string-mode step |
| JitLaws.DigitAgrees | src/jit.rs:376-383 | the push compiled for a digit acts as the interpreter's digit |
| JitLaws.StackCommandAgrees | src/jit.rs:385-400 | the operations compiled for `: \ $ !` act as the interpreter's commands |
| JitLaws.ArithmeticAgrees | src/jit.rs:401-448 | the binary operation compiled for each arithmetic command acts as the interpreter's command, panics included |
| JitLaws.InputOutputAgrees | src/jit.rs:449-470 | the I/O operations compiled for `, . ~ &` act as the interpreter's commands, errors included |
| JitLaws.GetAgrees | src/jit.rs:505-509 | `g` compiles to `GetValue`, which acts as the interpreter's `g` |
| JitLaws.PutAgrees | src/jit.rs:510-516 | `p` compiles to `SetValue` with the counter after it; it writes as the interpreter does, and panics exactly when the coordinates are off the grid |
| JitLaws.DecisionAgrees | src/jit.rs:345-360 | a block ends at `@` exactly when the step ends the program; otherwise its branch or random decision leads where the interpreter goes, up to wrapping an off-grid target |
| JitLaws.NeighbourWraps | src/jit.rs:472-499 | a decision's unwrapped neighbour, once wrapped, is where the interpreter moves, and an on-grid neighbour needs no wrapping |

## Left out

- Real I/O: reading and writing are modelled on byte sequences. The only I/O error
  modelled is `InvalidData` from a bad decimal token. Other errors of `read_exact`
  and `write_all` (closed streams and the like) are not modelled.
- The random generator and its seeding from the clock are replaced by a direction
  oracle.
- The command line (`Arguments`, `LanguageStandard`, `run_interpreter`, `main`),
  timing and statistics output, and the test module are not part of this model.
- `new` (stdin and stdout) is not modelled; `new_with_io` is.
- Semantics.Run, JitCache.JitRun: a run is bounded by fuel. A program that never
  ends gives `OutOfFuel` rather than running forever.
- JitCode.Compile: compilation is bounded by a large fuel constant. The source
  loops forever on a cycle of pure redirections; the model gives `OutOfFuel`
  there.
- Io.ScanSpec: `scan_next` at the end of input loops forever in the source
  (end of input reads as a NUL delimiter). The model reports `Hang` instead.
- The step counter (`usize`) and the compile counter are unbounded naturals. Their
  overflow is not modelled.
- `Rc` sharing of blocks, the hasher of the block map and `Error`'s `Display` and
  `PartialEq` are not modelled. Blocks are values, and errors are compared
  structurally.
- The JIT's `steps()` and `position()` accessors and the interpreter's `position()`
  are not modelled. They read a field.
- Machine.WrapCoordinateLands: stated only for coordinates at most one lap off the
  playfield, which is all that `constrain` ever receives after one step.
- Io.ScanSpec: a token is parsed as an optionally signed run of ASCII digits that
  fits in 64 bits, which is what `i64::from_str` accepts. Invalid UTF-8 in a token
  is a bad token, as in the source.
- JitLaws.OperationAgrees: `SetValue` is stated separately by `PutAgrees`. Its
  invalidation side is stated by the coherence lemmas, not compared with the
  interpreter.
- JitLaws.DecisionAgrees: a branch or random target off the playfield makes the
  JIT panic where the interpreter wraps. The lemma states the agreement up to
  that wrapping.

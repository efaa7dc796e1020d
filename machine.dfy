/** The types shared by the interpreter and the JIT: the program counter with its
    toroidal movement over the 80 x 25 playfield, the operand stack's pop-with-default,
    and the error and outcome values a step can end in. */
module Machine {
  import opened Int64

  const Width: int := 80
  const Height: int := 25

  /** A playfield cell or an I/O byte (`u8`). */
  type byte = x: int | 0 <= x < 256

  datatype Option<T> = None | Some(value: T)

  datatype Direction = Up | Down | Left | Right

  /** `glam::I64Vec2`; coordinates stay within a cell or two of the playfield. */
  datatype Position = Position(x: int, y: int)

  datatype PC = PC(position: Position, direction: Direction)

  /** `PC::default()`: the top-left cell, heading right. */
  const InitialPC := PC(Position(0, 0), Right)

  predicate InGrid(p: Position) {
    0 <= p.x < Width && 0 <= p.y < Height
  }

  /** `Position + Direction`: the neighbouring position, not wrapped. */
  function AddDirection(p: Position, d: Direction): Position {
    match d
    case Up => Position(p.x, p.y - 1)
    case Down => Position(p.x, p.y + 1)
    case Left => Position(p.x - 1, p.y)
    case Right => Position(p.x + 1, p.y)
  }

  /** `PC::step`: one cell in the current direction, not wrapped. */
  function Step(pc: PC): PC {
    PC(AddDirection(pc.position, pc.direction), pc.direction)
  }

  /** One coordinate of `PC::constrain`: a value outside `[0, n)` becomes
      `(v + n) % n` with Rust's truncating `%`. */
  function WrapCoordinate(v: int, n: int): int
    requires n > 0
  {
    if 0 <= v < n then v else TruncRem(v + n, n)
  }

  /** `PC::constrain`. */
  function Constrain(pc: PC): PC {
    PC(Position(WrapCoordinate(pc.position.x, Width), WrapCoordinate(pc.position.y, Height)),
       pc.direction)
  }

  /** The interpreter's `move_pc!`: step, then constrain. */
  function Advance(pc: PC): PC {
    Constrain(Step(pc))
  }

  /** Within one lap of the playfield on either side, wrapping moves a coordinate
      back by exactly one lap: one past either edge lands on the opposite edge. */
  lemma WrapCoordinateLands(v: int, n: int)
    requires n == Width || n == Height
    requires -n <= v < 2 * n
    ensures WrapCoordinate(v, n) == if v < 0 then v + n else if v < n then v else v - n
  {
    if v >= n {
      if n == Width {
        assert (v + Width) % Width == v - Width;
      } else {
        assert (v + Height) % Height == v - Height;
      }
    }
  }

  /** After a step and a constrain, the program counter is back on the playfield,
      one cell further in its direction modulo the playfield's size. */
  lemma AdvanceStaysInGrid(pc: PC)
    requires InGrid(pc.position)
    ensures InGrid(Advance(pc).position)
    ensures Advance(pc).direction == pc.direction
    ensures (Advance(pc).position.x - AddDirection(pc.position, pc.direction).x) % Width == 0
    ensures (Advance(pc).position.y - AddDirection(pc.position, pc.direction).y) % Height == 0
  {
    var p := Step(pc).position;
    WrapCoordinateLands(p.x, Width);
    WrapCoordinateLands(p.y, Height);
  }

  /** The JIT's `#` (two steps, one constrain) agrees with the interpreter's `#`
      (two steps, each followed by a constrain). */
  lemma BridgeAgrees(pc: PC)
    requires InGrid(pc.position)
    ensures Constrain(Step(Step(pc))) == Advance(Advance(pc))
    ensures InGrid(Constrain(Step(Step(pc))).position)
  {
    var p := pc.position;
    match pc.direction
    case Up => WrapTwice(p.y, Height, -1); WrapCoordinateLands(p.x, Width);
    case Down => WrapTwice(p.y, Height, 1); WrapCoordinateLands(p.x, Width);
    case Left => WrapTwice(p.x, Width, -1); WrapCoordinateLands(p.y, Height);
    case Right => WrapTwice(p.x, Width, 1); WrapCoordinateLands(p.y, Height);
  }

  /** Two unit moves wrapped once land where two wrapped unit moves do. */
  lemma WrapTwice(v: int, n: int, d: int)
    requires n == Width || n == Height
    requires 0 <= v < n && (d == 1 || d == -1)
    ensures WrapCoordinate(v + 2 * d, n) == WrapCoordinate(WrapCoordinate(v + d, n) + d, n)
    ensures 0 <= WrapCoordinate(v + 2 * d, n) < n
  {
    WrapCoordinateLands(v + d, n);
    WrapCoordinateLands(v + 2 * d, n);
    WrapCoordinateLands(WrapCoordinate(v + d, n) + d, n);
  }

  // ---- The operand stack (`Vec<Int>`, top at the end) ----

  /** `stack.pop().unwrap_or_default()`'s value: the top, or 0 on an empty stack. */
  function Top(s: seq<Int>): Int {
    if |s| == 0 then 0 else s[|s| - 1]
  }

  /** The stack after `stack.pop()`: an empty stack stays empty. */
  function Rest(s: seq<Int>): seq<Int> {
    if |s| == 0 then [] else s[..|s| - 1]
  }

  // ---- Errors and outcomes ----

  datatype IoErrorKind = InvalidData

  /** The source's `Error` enum, without the wrapped `io::Error` payloads other than
      the `InvalidData` kind `&` produces. */
  datatype Error =
    | Io(kind: IoErrorKind)
    | InvalidGridSize(width: int, height: int)
    | NonAscii(value: int)
    | IllegalCommand(command: byte)
    | ProgramEnd

  /** The Rust panics the core can reach. */
  datatype PanicReason = DivideByZero | RemainderByZero | IndexOutOfBounds

  /** How a call ends: with a value, with an `Err`, with a panic, by never returning
      (`Hang`), or by exhausting the step bound the model gives an unbounded loop. */
  datatype Outcome<T> =
    | Ok(value: T)
    | Err(error: Error)
    | Panic(reason: PanicReason)
    | Hang
    | OutOfFuel
}

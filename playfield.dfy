/** The 80 x 25 playfield (`Grid = [[u8; 80]; 25]`, indexed `[y][x]`): the
    bounds-checked cell access of `g` and `p`, and `Interpreter::parse_grid`,
    which builds the playfield from the program text. */
module Playfield {
  import opened Int64
  import opened Machine

  type Grid = seq<seq<byte>>

  /** The byte a blank cell holds, and the delimiter `.` writes after a number. */
  const Space: byte := 32

  predicate WellFormed(g: Grid) {
    |g| == Height && forall y :: 0 <= y < Height ==> |g[y]| == Width
  }

  function CellAt(g: Grid, p: Position): byte
    requires WellFormed(g) && InGrid(p)
  {
    g[p.y][p.x]
  }

  /** What `g` pushes for `(x, y)`: 0 off the playfield, otherwise the cell's byte
      read as a signed 8-bit value. */
  function GetCell(g: Grid, x: Int, y: Int): Int
    requires WellFormed(g)
  {
    if InGrid(Position(x, y)) then SignExtend(g[y][x]) else 0
  }

  /** What `p` does to the playfield: off the playfield nothing; otherwise the one
      cell `(x, y)` becomes the low byte of `v`. */
  function PutCell(g: Grid, x: Int, y: Int, v: Int): (r: Grid)
    requires WellFormed(g)
    ensures WellFormed(r)
    ensures forall yy, xx :: 0 <= yy < Height && 0 <= xx < Width ==>
      r[yy][xx] == if InGrid(Position(x, y)) && yy == y && xx == x then LowByte(v) else g[yy][xx]
  {
    if InGrid(Position(x, y)) then
      var row: seq<byte> := g[y][x := LowByte(v)];
      g[y := row]
    else g
  }

  /** `g` right after `p` at the same cell gives back every signed 8-bit value; off
      the playfield `p` changes nothing and `g` yields 0. */
  lemma GetAfterPut(g: Grid, x: Int, y: Int, v: Int)
    requires WellFormed(g)
    ensures InGrid(Position(x, y)) && -128 <= v < 128 ==> GetCell(PutCell(g, x, y, v), x, y) == v
    ensures !InGrid(Position(x, y)) ==> PutCell(g, x, y, v) == g && GetCell(g, x, y) == 0
  {
    if InGrid(Position(x, y)) && -128 <= v < 128 {
      SignExtendLowByte(v);
    }
  }

  /** Two well-formed playfields with the same cells are the same playfield. */
  lemma GridExtensionality(g: Grid, h: Grid)
    requires WellFormed(g) && WellFormed(h)
    requires forall y, x :: 0 <= y < Height && 0 <= x < Width ==> g[y][x] == h[y][x]
    ensures g == h
  {
    forall y | 0 <= y < Height
      ensures g[y] == h[y]
    {
    }
  }

  /** The playfield a class keeps in place, read as a value. */
  ghost function GridOf(a: array2<byte>): (g: Grid)
    requires a.Length0 == Height && a.Length1 == Width
    reads a
    ensures WellFormed(g)
    ensures forall y, x :: 0 <= y < Height && 0 <= x < Width ==> g[y][x] == a[y, x]
  {
    seq(Height, y reads a requires 0 <= y < Height =>
      seq(Width, x reads a requires 0 <= x < Width => a[y, x]))
  }

  /** A fresh in-place playfield holding the cells of `g`. */
  method GridArray(g: Grid) returns (a: array2<byte>)
    requires WellFormed(g)
    ensures fresh(a) && a.Length0 == Height && a.Length1 == Width
    ensures GridOf(a) == g
  {
    a := new byte[Height, Width]((y, x) requires 0 <= y < Height && 0 <= x < Width => g[y][x]);
    GridExtensionality(GridOf(a), g);
  }

  // ---- Splitting the program text into lines (`str::lines`) ----

  /** The index of the first `'\n'`, or the length when there is none. */
  function NewlineIndex(s: string): (i: nat)
    ensures i <= |s|
    ensures i < |s| ==> s[i] == '\n'
    ensures forall j :: 0 <= j < i ==> s[j] != '\n'
  {
    if s == [] || s[0] == '\n' then 0 else 1 + NewlineIndex(s[1..])
  }

  /** A line that was ended by `"\r\n"` loses its `'\r'`. */
  function StripCarriageReturn(line: string): string {
    if |line| > 0 && line[|line| - 1] == '\r' then line[..|line| - 1] else line
  }

  /** `str::lines`: split after every `'\n'`, drop the `'\n'` and a `'\r'` just
      before it; a final line without `'\n'` keeps everything; no empty line is
      produced after a final `'\n'`. */
  function Lines(s: string): seq<string>
    decreases |s|
  {
    if s == [] then []
    else
      var i := NewlineIndex(s);
      if i == |s| then [s] else [StripCarriageReturn(s[..i])] + Lines(s[i + 1..])
  }

  /** Writing each line followed by `'\n'`. */
  function JoinLines(lines: seq<string>): string {
    if lines == [] then "" else lines[0] + "\n" + JoinLines(lines[1..])
  }

  predicate PlainLine(line: string) {
    '\n' !in line && (|line| == 0 || line[|line| - 1] != '\r')
  }

  /** Splitting undoes joining, for lines that hold no line terminator. */
  lemma {:induction false} LinesJoinLines(lines: seq<string>)
    requires forall i :: 0 <= i < |lines| ==> PlainLine(lines[i])
    ensures Lines(JoinLines(lines)) == lines
  {
    if lines != [] {
      var l := lines[0];
      var s := JoinLines(lines);
      assert s == l + ("\n" + JoinLines(lines[1..]));
      NewlineAfter(l, JoinLines(lines[1..]));
      assert s[..|l|] == l;
      assert s[|l| + 1..] == JoinLines(lines[1..]);
      LinesJoinLines(lines[1..]);
    }
  }

  lemma NewlineAfter(l: string, rest: string)
    requires '\n' !in l
    ensures NewlineIndex(l + ("\n" + rest)) == |l|
  {
    var s := l + ("\n" + rest);
    assert s[|l|] == '\n';
    assert forall j :: 0 <= j < |l| ==> s[j] == l[j];
  }

  // ---- ASCII check ----

  predicate IsAscii(c: char) {
    c as int < 128
  }

  /** The first non-ASCII character, if any. */
  function FirstNonAscii(s: string): Option<char> {
    if s == [] then None
    else if !IsAscii(s[0]) then Some(s[0])
    else FirstNonAscii(s[1..])
  }

  /** `FirstNonAscii` finds nothing exactly on ASCII text, and otherwise the
      non-ASCII character that comes first. */
  lemma {:induction false} FirstNonAsciiFinds(s: string)
    ensures FirstNonAscii(s).None? <==> forall i :: 0 <= i < |s| ==> IsAscii(s[i])
    ensures FirstNonAscii(s).Some? ==>
      exists i :: 0 <= i < |s| && s[i] == FirstNonAscii(s).value && !IsAscii(s[i]) &&
                  forall j :: 0 <= j < i ==> IsAscii(s[j])
  {
    if s != [] && IsAscii(s[0]) {
      FirstNonAsciiFinds(s[1..]);
      assert forall i :: 1 <= i < |s| ==> s[i] == s[1..][i - 1];
      if FirstNonAscii(s).Some? {
        var i :| 0 <= i < |s| - 1 && s[1..][i] == FirstNonAscii(s).value && !IsAscii(s[1..][i])
                 && forall j :: 0 <= j < i ==> IsAscii(s[1..][j]);
        assert s[i + 1] == s[1..][i];
        assert forall j :: 0 <= j < i + 1 ==> IsAscii(s[j]);
      }
    }
  }

  /** One line as bytes, or `NonAscii` carrying the code of its first non-ASCII
      character. */
  function AsciiBytes(line: string): (r: Outcome<seq<byte>>)
    ensures r.Ok? || r.Err?
  {
    if line == [] then Ok([])
    else if !IsAscii(line[0]) then Err(NonAscii(line[0] as int))
    else
      match AsciiBytes(line[1..])
      case Ok(rest) => Ok([line[0] as int as byte] + rest)
      case other => other
  }

  /** Every line as bytes, or the first line's error. */
  function AsciiLines(lines: seq<string>): (r: Outcome<seq<seq<byte>>>)
    ensures r.Ok? || r.Err?
  {
    if lines == [] then Ok([])
    else
      match AsciiBytes(lines[0])
      case Ok(first) =>
        (match AsciiLines(lines[1..])
         case Ok(rest) => Ok([first] + rest)
         case other => other)
      case Err(e) => Err(e)
      case Panic(p) => Panic(p)
      case Hang => Hang
      case OutOfFuel => OutOfFuel
  }

  /** `line.resize(80, b' ')`: cut to, or padded to, the playfield's width. */
  function ResizeLine(line: seq<byte>): (r: seq<byte>)
    ensures |r| == Width
  {
    seq(Width, x requires 0 <= x < Width => if x < |line| then line[x] else Space)
  }

  /** `grid.resize(25, [b' '; 80])` over the resized lines. */
  function PadGrid(lines: seq<seq<byte>>): (g: Grid)
    requires |lines| <= Height
    ensures WellFormed(g)
  {
    seq(Height, y requires 0 <= y < Height =>
      if y < |lines| then ResizeLine(lines[y]) else ResizeLine([]))
  }

  /** `Interpreter::parse_grid`. Only the first line's width is checked. */
  function ParseGrid(source: string): (r: Outcome<Grid>)
    ensures r.Ok? || r.Err?
    ensures r.Ok? ==> WellFormed(r.value)
  {
    match AsciiLines(Lines(source))
    case Ok(lines) =>
      var height := |lines|;
      var width := if height == 0 then 0 else |lines[0]|;
      if height > Height || width > Width then Err(InvalidGridSize(width, height))
      else Ok(PadGrid(lines))
    case other => other
  }

  // ---- What `parse_grid` promises ----

  function Flatten(lines: seq<string>): string {
    if lines == [] then "" else lines[0] + Flatten(lines[1..])
  }

  lemma {:induction false} FirstNonAsciiConcat(a: string, b: string)
    ensures FirstNonAscii(a + b) == if FirstNonAscii(a).Some? then FirstNonAscii(a) else FirstNonAscii(b)
  {
    if a != [] {
      assert (a + b)[0] == a[0];
      assert (a + b)[1..] == a[1..] + b;
      FirstNonAsciiConcat(a[1..], b);
    } else {
      assert a + b == b;
    }
  }

  /** Splitting into lines drops only ASCII line terminators, so the first
      non-ASCII character is the same before and after. */
  lemma {:induction false} LinesKeepFirstNonAscii(s: string)
    ensures FirstNonAscii(Flatten(Lines(s))) == FirstNonAscii(s)
    decreases |s|
  {
    if s != [] {
      var i := NewlineIndex(s);
      if i == |s| {
        assert Lines(s) == [s];
        assert Flatten([s]) == s + Flatten([s][1..]);
        assert [s][1..] == [] && s + "" == s;
      } else {
        LinesKeepFirstNonAscii(s[i + 1..]);
        FirstLineKeepsFirstNonAscii(s, i);
      }
    }
  }

  lemma FirstLineKeepsFirstNonAscii(s: string, i: nat)
    requires i == NewlineIndex(s) < |s|
    requires FirstNonAscii(Flatten(Lines(s[i + 1..]))) == FirstNonAscii(s[i + 1..])
    ensures FirstNonAscii(Flatten(Lines(s))) == FirstNonAscii(s)
  {
    var line, rest := s[..i], s[i + 1..];
    var first := StripCarriageReturn(line);
    LinesAtNewline(s, i);
    FlattenCons(first, Lines(rest));
    FirstNonAsciiConcat(first, Flatten(Lines(rest)));
    StripKeepsFirstNonAscii(line);
    FirstNonAsciiAroundNewline(s, i);
  }

  lemma LinesAtNewline(s: string, i: nat)
    requires i == NewlineIndex(s) < |s|
    ensures Lines(s) == [StripCarriageReturn(s[..i])] + Lines(s[i + 1..])
  {
  }

  lemma FlattenCons(first: string, lines: seq<string>)
    ensures Flatten([first] + lines) == first + Flatten(lines)
  {
    assert ([first] + lines)[1..] == lines;
  }

  lemma FirstNonAsciiAroundNewline(s: string, i: nat)
    requires i < |s| && s[i] == '\n'
    ensures FirstNonAscii(s) ==
      if FirstNonAscii(s[..i]).Some? then FirstNonAscii(s[..i]) else FirstNonAscii(s[i + 1..])
  {
    assert s == s[..i] + ("\n" + s[i + 1..]);
    FirstNonAsciiConcat(s[..i], "\n" + s[i + 1..]);
    assert ("\n" + s[i + 1..])[1..] == s[i + 1..];
  }

  lemma StripKeepsFirstNonAscii(line: string)
    ensures FirstNonAscii(StripCarriageReturn(line)) == FirstNonAscii(line)
  {
    if |line| > 0 && line[|line| - 1] == '\r' {
      assert line == StripCarriageReturn(line) + "\r";
      FirstNonAsciiConcat(StripCarriageReturn(line), "\r");
    }
  }

  /** One line converts exactly when it is all ASCII, byte for character. */
  lemma {:induction false} AsciiBytesOutcome(line: string)
    ensures FirstNonAscii(line).Some? ==> AsciiBytes(line) == Err(NonAscii(FirstNonAscii(line).value as int))
    ensures FirstNonAscii(line).None? ==>
      AsciiBytes(line).Ok? && |AsciiBytes(line).value| == |line| &&
      forall x :: 0 <= x < |line| ==> AsciiBytes(line).value[x] == line[x] as int
  {
    if line != [] && IsAscii(line[0]) {
      AsciiBytesOutcome(line[1..]);
    }
  }

  /** All lines convert exactly when their text is all ASCII; otherwise the error
      names the first non-ASCII character. */
  lemma {:induction false} AsciiLinesOutcome(lines: seq<string>)
    ensures FirstNonAscii(Flatten(lines)).Some? ==>
      AsciiLines(lines) == Err(NonAscii(FirstNonAscii(Flatten(lines)).value as int))
    ensures FirstNonAscii(Flatten(lines)).None? ==>
      AsciiLines(lines).Ok? && |AsciiLines(lines).value| == |lines| &&
      forall y :: 0 <= y < |lines| ==>
        |AsciiLines(lines).value[y]| == |lines[y]| &&
        forall x :: 0 <= x < |lines[y]| ==> AsciiLines(lines).value[y][x] == lines[y][x] as int
  {
    if lines != [] {
      FirstNonAsciiConcat(lines[0], Flatten(lines[1..]));
      AsciiBytesOutcome(lines[0]);
      AsciiLinesOutcome(lines[1..]);
      if FirstNonAscii(Flatten(lines)).None? {
        var r := AsciiLines(lines).value;
        assert r == [AsciiBytes(lines[0]).value] + AsciiLines(lines[1..]).value;
        forall y | 0 <= y < |lines|
          ensures |r[y]| == |lines[y]|
          ensures forall x :: 0 <= x < |lines[y]| ==> r[y][x] == lines[y][x] as int
        {
          if y > 0 {
            assert r[y] == AsciiLines(lines[1..]).value[y - 1];
            assert lines[y] == lines[1..][y - 1];
          }
        }
      }
    }
  }

  /** `parse_grid` fails with `NonAscii` exactly when the text holds a non-ASCII
      character, and then names the first one. */
  lemma ParseGridRejectsNonAscii(source: string)
    ensures (ParseGrid(source).Err? && ParseGrid(source).error.NonAscii?) <==> FirstNonAscii(source).Some?
    ensures FirstNonAscii(source).Some? ==>
      ParseGrid(source) == Err(NonAscii(FirstNonAscii(source).value as int))
  {
    LinesKeepFirstNonAscii(source);
    AsciiLinesOutcome(Lines(source));
  }

  /** On ASCII text, `parse_grid` fails with `InvalidGridSize(width, height)` exactly
      when there are more than 25 lines or the FIRST line is longer than 80. */
  lemma ParseGridChecksSize(source: string)
    requires FirstNonAscii(source).None?
    ensures var lines := Lines(source);
            var width := if |lines| == 0 then 0 else |lines[0]|;
            (ParseGrid(source).Err? <==> |lines| > Height || width > Width) &&
            (ParseGrid(source).Err? ==> ParseGrid(source).error == InvalidGridSize(width, |lines|)) &&
            (ParseGrid(source).Ok? || ParseGrid(source).Err?)
  {
    LinesKeepFirstNonAscii(source);
    AsciiLinesOutcome(Lines(source));
  }

  /** On success, cell `[y][x]` is byte `x` of line `y` when that exists and a space
      otherwise; lines after the first that are longer than 80 are cut. */
  lemma ParseGridCells(source: string)
    requires ParseGrid(source).Ok?
    ensures var lines := Lines(source); var g := ParseGrid(source).value;
            WellFormed(g) && |lines| <= Height &&
            forall y, x :: 0 <= y < Height && 0 <= x < Width ==>
              g[y][x] == if y < |lines| && x < |lines[y]| then lines[y][x] as int else Space
  {
    LinesKeepFirstNonAscii(source);
    AsciiLinesOutcome(Lines(source));
  }
}

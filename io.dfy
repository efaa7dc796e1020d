/** The byte-level I/O of `~`, `&`, `,` and `.`: input is a byte sequence consumed
    from the front, output a byte sequence appended to. Holds `scan_next`, the
    whitespace-delimited token reader behind `&`, and the decimal text `.` writes. */
module Io {
  import opened Int64
  import opened Machine
  import opened Playfield

  const Minus: byte := 45
  const Plus: byte := 43
  const Zero: byte := 48

  /** `~`: the next byte, or -1 at end of input; a 0xFF byte also reads as -1
      because 0xFF doubles as the "nothing read" marker. */
  function ReadAscii(input: seq<byte>): (Int, seq<byte>) {
    var none: Int := -1;
    if input == [] then (none, [])
    else (if input[0] == 0xFF then none else input[0], input[1..])
  }

  // ---- Decimal text ----

  predicate IsDigit(b: byte) {
    Zero <= b <= Zero + 9
  }

  predicate AllDigits(t: seq<byte>) {
    forall i :: 0 <= i < |t| ==> IsDigit(t[i])
  }

  /** The digits of a natural number, most significant first. */
  function Digits(n: nat): seq<byte>
    decreases n
  {
    if n < 10 then [Zero + n] else Digits(n / 10) + [Zero + n % 10]
  }

  /** Rust's `Display` of an integer. */
  function FormatDecimal(n: int): seq<byte> {
    if n < 0 then [Minus] + Digits(-n) else Digits(n)
  }

  /** What `.` writes: `write!(output, "{} ", top)`. */
  function DecimalOutput(n: int): seq<byte> {
    FormatDecimal(n) + [Space]
  }

  /** The value of a run of decimal digits. */
  function DigitsValue(t: seq<byte>): nat
    requires AllDigits(t)
  {
    if t == [] then 0 else DigitsValue(t[..|t| - 1]) * 10 + (t[|t| - 1] - Zero)
  }

  /** `i64::from_str`: an optional `+` or `-`, then at least one decimal digit and
      nothing else, with a value that fits in 64 bits. */
  function ParseDecimal(t: seq<byte>): Option<Int> {
    var signed := |t| > 0 && (t[0] == Minus || t[0] == Plus);
    var digits := if signed then t[1..] else t;
    if |digits| == 0 || !AllDigits(digits) then None
    else
      var magnitude: int := DigitsValue(digits);
      var v := if |t| > 0 && t[0] == Minus then -magnitude else magnitude;
      if Min <= v <= Max then Some(v) else None
  }

  lemma {:induction false} DigitsValueOfDigits(n: nat)
    ensures |Digits(n)| > 0 && AllDigits(Digits(n))
    ensures DigitsValue(Digits(n)) == n
    decreases n
  {
    if n >= 10 {
      DigitsValueOfDigits(n / 10);
      var d := Digits(n);
      assert d[..|d| - 1] == Digits(n / 10);
    }
  }

  /** Reading back the decimal text of any 64-bit value gives the value. */
  lemma ParseFormatDecimal(n: Int)
    ensures ParseDecimal(FormatDecimal(n)) == Some(n)
  {
    if n < 0 {
      DigitsValueOfDigits(Abs(n));
      assert FormatDecimal(n)[1..] == Digits(Abs(n));
    } else {
      DigitsValueOfDigits(n);
    }
  }

  // ---- `scan_next` ----

  /** `(b as char).is_whitespace()` for a byte read as a Latin-1 code point. */
  predicate IsWhitespace(b: byte) {
    (9 <= b <= 13) || b == 32 || b == 0x85 || b == 0xA0
  }

  /** The bytes `scan_next` treats as delimiters: whitespace and NUL. */
  predicate Skippable(b: byte) {
    b == 0 || IsWhitespace(b)
  }

  /** The number of leading delimiter bytes. */
  function SkipLength(input: seq<byte>): (k: nat)
    ensures k <= |input|
  {
    if input == [] || !Skippable(input[0]) then 0 else 1 + SkipLength(input[1..])
  }

  /** `SkipLength` counts delimiters and stops at the first other byte. */
  lemma {:induction false} SkipLengthSkips(input: seq<byte>)
    ensures var k := SkipLength(input);
      && (forall i :: 0 <= i < k ==> Skippable(input[i]))
      && (k < |input| ==> !Skippable(input[k]))
  {
    if input != [] && Skippable(input[0]) {
      SkipLengthSkips(input[1..]);
      assert forall i :: 1 <= i < |input| ==> input[i] == input[1..][i - 1];
    }
  }

  /** The length of the leading run of non-delimiter bytes. */
  function TokenLength(input: seq<byte>): (n: nat)
    ensures n <= |input|
  {
    if input == [] || Skippable(input[0]) then 0 else 1 + TokenLength(input[1..])
  }

  /** `TokenLength` counts non-delimiters and stops at the first delimiter. */
  lemma {:induction false} TokenLengthTakes(input: seq<byte>)
    ensures var n := TokenLength(input);
      && (forall i :: 0 <= i < n ==> !Skippable(input[i]))
      && (n < |input| ==> Skippable(input[n]))
  {
    if input != [] && !Skippable(input[0]) {
      TokenLengthTakes(input[1..]);
      assert forall i :: 1 <= i < |input| ==> input[i] == input[1..][i - 1];
    }
  }

  /** How `scan_next` ends: a parsed value, an `InvalidData` error, or never (at end
      of input the skip loop reads a NUL forever). */
  datatype Scan = Token(value: Int) | BadToken | NeverReturns

  /** `scan_next` on what is left of the input: skip delimiters, take the maximal
      run of other bytes, consume the one delimiter after it, parse the run. Returns
      how it ends and the input left over. */
  function ScanSpec(input: seq<byte>): (r: (Scan, seq<byte>))
    ensures r.0 != NeverReturns ==> |r.1| < |input| && r.1 == input[|input| - |r.1|..]
  {
    var k := SkipLength(input);
    if k == |input| then (NeverReturns, [])
    else
      var r := ReadToken(input[k..]);
      assert r.1 == input[|input| - |r.1|..];
      r
  }

  /** `scan_next` never returns exactly when nothing but delimiters is left. */
  lemma ScanNeverReturns(input: seq<byte>)
    ensures ScanSpec(input).0 == NeverReturns <==> forall i :: 0 <= i < |input| ==> Skippable(input[i])
  {
    SkipLengthSkips(input);
  }

  /** The part of `scan_next` after the delimiters: the token, the delimiter after
      it, and the parse. */
  function ReadToken(after: seq<byte>): (r: (Scan, seq<byte>))
    requires |after| > 0
    ensures r.0 != NeverReturns
    ensures |r.1| < |after| && r.1 == after[|after| - |r.1|..]
  {
    var n := TokenLength(after);
    var rest := if n < |after| then after[n + 1..] else [];
    (match ParseDecimal(after[..n]) case Some(v) => Token(v) case None => BadToken, rest)
  }

  /** `scan_next`: its delimiter loop, its token loop, then the parse. */
  method ScanNext(input: seq<byte>) returns (r: Scan, rest: seq<byte>)
    ensures (r, rest) == ScanSpec(input)
  {
    var found, buffer, i := SkipDelimiters(input);
    if !found {
      ScanNeverReturns(input);
      return NeverReturns, [];
    }
    var raw, j := TakeToken(input, buffer, i);
    rest := input[j..];
    ghost var after := input[i - 1..];
    assert ScanSpec(input) == ReadToken(after);
    assert raw == after[..TokenLength(after)];
    match ParseDecimal(raw)
    case Some(v) => r := Token(v);
    case None => r := BadToken;
  }

  /** The first loop of `scan_next`: read until a byte that is no delimiter. At the
      end of the input it reads NUL forever, which `found == false` stands for. */
  method SkipDelimiters(input: seq<byte>) returns (found: bool, buffer: byte, i: nat)
    ensures found <==> SkipLength(input) < |input|
    ensures found ==> i == SkipLength(input) + 1 && buffer == input[i - 1]
  {
    SkipLengthSkips(input);
    buffer := Space;
    i := 0;
    while Skippable(buffer)
      invariant i <= |input|
      invariant forall j :: 0 <= j < i - 1 ==> Skippable(input[j])
      invariant buffer == if i == 0 then Space else input[i - 1]
      decreases |input| - i
    {
      if i == |input| {
        // `read_exact` reports end of input: the buffer becomes 0, which is
        // skippable, and every further read ends the same way.
        return false, 0, i;
      }
      buffer := input[i];
      i := i + 1;
    }
    found := true;
  }

  /** The second loop of `scan_next`: collect bytes up to the next delimiter, which
      it reads and drops, or up to the end of the input. */
  method TakeToken(input: seq<byte>, first: byte, next: nat) returns (raw: seq<byte>, i: nat)
    requires 0 < next <= |input| && next - 1 == SkipLength(input) && first == input[next - 1]
    ensures next <= i <= |input|
    ensures var after := input[next - 1..]; var n := TokenLength(after);
      raw == after[..n] && input[i..] == (if n < |after| then after[n + 1..] else [])
  {
    SkipLengthSkips(input);
    var buffer := first;
    i := next;
    ghost var start := next - 1;
    ghost var ended := false;
    raw := [];
    while !Skippable(buffer)
      invariant start < i <= |input|
      invariant forall j :: 0 <= j < |raw| ==> !Skippable(raw[j])
      invariant !ended ==> buffer == input[i - 1] && raw == input[start..i - 1]
      invariant ended ==> buffer == 0 && i == |input| && raw == input[start..]
      decreases |input| - i + (if ended then 0 else 1)
    {
      raw := raw + [buffer];
      assert raw == input[start..i];
      if i < |input| {
        buffer := input[i];
        i := i + 1;
      } else {
        buffer := 0;
        ended := true;
        assert input[start..i] == input[start..];
      }
    }
    TokenOfScan(input, start, i, raw, ended);
  }

  /** Where the token loop of `scan_next` stops: after the token's first delimiter,
      or at the end of the input. */
  lemma TokenOfScan(input: seq<byte>, start: nat, i: nat, raw: seq<byte>, ended: bool)
    requires start == SkipLength(input) < i <= |input|
    requires forall j :: 0 <= j < |raw| ==> !Skippable(raw[j])
    requires !ended ==> Skippable(input[i - 1]) && raw == input[start..i - 1]
    requires ended ==> i == |input| && raw == input[start..]
    ensures var after := input[start..]; var n := TokenLength(after);
            raw == after[..n] && input[i..] == (if n < |after| then after[n + 1..] else [])
  {
    var after := input[start..];
    var tail := if ended then [] else input[i - 1..];
    assert after == raw + tail;
    TokenLengthOfPrefix(raw, tail);
    if !ended {
      assert after[|raw| + 1..] == input[i..];
    }
  }

  // ---- What `&` reads back ----

  /** Leading delimiters add to the skipped length and to nothing else. */
  lemma {:induction false} SkipLengthAfterDelimiters(pad: seq<byte>, input: seq<byte>)
    requires forall i :: 0 <= i < |pad| ==> Skippable(pad[i])
    ensures SkipLength(pad + input) == |pad| + SkipLength(input)
  {
    if pad != [] {
      assert (pad + input)[1..] == pad[1..] + input;
      SkipLengthAfterDelimiters(pad[1..], input);
      assert (pad + input)[0] == pad[0];
    } else {
      assert pad + input == input;
    }
  }

  /** Leading delimiters never change what `scan_next` reads. */
  lemma ScanSkipsDelimiters(pad: seq<byte>, input: seq<byte>)
    requires forall i :: 0 <= i < |pad| ==> Skippable(pad[i])
    ensures ScanSpec(pad + input) == ScanSpec(input)
  {
    SkipLengthAfterDelimiters(pad, input);
    var k := SkipLength(input);
    if k < |input| {
      assert (pad + input)[|pad| + k..] == input[k..];
    }
  }

  /** Decimal text is one token: non-empty, with no delimiter in it. */
  lemma FormatDecimalIsToken(n: Int)
    ensures |FormatDecimal(n)| > 0
    ensures forall i :: 0 <= i < |FormatDecimal(n)| ==> !Skippable(FormatDecimal(n)[i])
  {
    DigitsValueOfDigits(Abs(n));
    var text := FormatDecimal(n);
    if n < 0 {
      assert forall i :: 1 <= i < |text| ==> text[i] == Digits(Abs(n))[i - 1];
    }
  }

  /** What `.` writes, `&` reads back: the decimal text of any value followed by
      its space yields that value and leaves exactly the input after the space. */
  lemma ScanReadsDecimalOutput(n: Int, rest: seq<byte>)
    ensures ScanSpec(DecimalOutput(n) + rest) == (Token(n), rest)
  {
    var text := FormatDecimal(n);
    var input := DecimalOutput(n) + rest;
    assert input == text + ([Space] + rest);
    FormatDecimalIsToken(n);
    TokenLengthOfPrefix(text, [Space] + rest);
    assert input[0] == text[0];
    assert SkipLength(input) == 0;
    assert input[0..] == input;
    assert input[..|text|] == text;
    assert input[|text| + 1..] == rest;
    ParseFormatDecimal(n);
  }

  lemma {:induction false} TokenLengthOfPrefix(token: seq<byte>, tail: seq<byte>)
    requires forall i :: 0 <= i < |token| ==> !Skippable(token[i])
    requires |tail| > 0 ==> Skippable(tail[0])
    ensures TokenLength(token + tail) == |token|
  {
    if token == [] {
      assert token + tail == tail;
    } else {
      assert (token + tail)[1..] == token[1..] + tail;
      TokenLengthOfPrefix(token[1..], tail);
    }
  }
}

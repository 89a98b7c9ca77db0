/** The text line that opens an Xexportbin frame: `&6 <result id> <columns> <rows> <offset>`. */
module FrameHeader {
  import opened Bytes
  import opened Sequences
  import StringEncoder

  const U64_MAX: nat := 0xFFFF_FFFF_FFFF_FFFF
  const I64_MAX: nat := 0x7FFF_FFFF_FFFF_FFFF

  const NEWLINE: Byte := 10
  const PLUS: Byte := 43
  const MINUS: Byte := 45
  const SPACE: ByteString := [32]
  const LINE_END: ByteString := [10]
  const HEADER_PREFIX: ByteString := [38, 54, 32]

  // ----- Decimal numbers -----

  predicate Digit(b: Byte) {
    48 <= b <= 57
  }

  function Decimal(n: nat): (s: ByteString)
    ensures s != []
  {
    if n < 10 then [48 + n] else Decimal(n / 10) + [48 + n % 10]
  }

  /** A number, or nothing when a character is not a digit or there is none. */
  datatype Number = Number(value: int) | NaN

  function Unsigned(s: ByteString): (n: Number)
    ensures n.Number? ==> n.value >= 0
  {
    if s == [] || !Digit(s[|s| - 1]) then NaN
    else if |s| == 1 then Number(s[0] - 48)
    else
      var high := Unsigned(s[..|s| - 1]);
      if high.NaN? then NaN else Number(10 * high.value + (s[|s| - 1] - 48))
  }

  function ParseU64(s: ByteString): (n: Number)
    ensures n.Number? ==> 0 <= n.value <= U64_MAX
  {
    var n := Unsigned(if s != [] && s[0] == PLUS then s[1..] else s);
    if n.Number? && n.value <= U64_MAX then n else NaN
  }

  function ParseI64(s: ByteString): Number {
    if s != [] && s[0] == MINUS then
      var n := Unsigned(s[1..]);
      if n.Number? && n.value <= I64_MAX + 1 then Number(-n.value) else NaN
    else
      var n := ParseU64(s);
      if n.Number? && n.value <= I64_MAX then n else NaN
  }

  function SignedText(n: int): (s: ByteString)
    ensures s != []
  {
    if n < 0 then [MINUS] + Decimal(-n) else Decimal(n)
  }

  lemma {:induction false} UnsignedInverts(n: nat)
    ensures Unsigned(Decimal(n)) == Number(n)
  {
    if n >= 10 {
      UnsignedInverts(n / 10);
      var last: Byte := 48 + n % 10;
      After(Decimal(n / 10), [last]);
    }
  }

  lemma {:induction false} DecimalDigits(n: nat)
    ensures forall i :: 0 <= i < |Decimal(n)| ==> Digit(Decimal(n)[i])
  {
    if n >= 10 {
      DecimalDigits(n / 10);
    }
  }

  lemma U64Inverts(n: nat)
    requires n <= U64_MAX
    ensures ParseU64(Decimal(n)) == Number(n)
  {
    UnsignedInverts(n);
    DecimalDigits(n);
    assert Digit(Decimal(n)[0]);
  }

  lemma I64Inverts(n: int)
    requires 0 - I64_MAX - 1 <= n <= I64_MAX
    ensures ParseI64(SignedText(n)) == Number(n)
  {
    if n < 0 {
      UnsignedInverts(-n);
      After([MINUS], Decimal(-n));
    } else {
      U64Inverts(n);
      DecimalDigits(n);
      assert Digit(Decimal(n)[0]);
    }
  }

  function Pow10(k: nat): (p: nat)
    ensures p >= 1
  {
    if k == 0 then 1 else 10 * Pow10(k - 1)
  }

  lemma {:induction false} DecimalLength(n: nat, k: nat)
    requires k >= 1 && n < Pow10(k)
    ensures |Decimal(n)| <= k
  {
    if n >= 10 {
      DecimalLength(n / 10, k - 1);
    }
  }

  lemma TwentyDigits()
    ensures Pow10(20) > U64_MAX
  {
    assert Pow10(2) == 100 && Pow10(4) == 100 * Pow10(2) && Pow10(6) == 100 * Pow10(4) && Pow10(8) == 100 * Pow10(6);
    assert Pow10(10) == 100 * Pow10(8) && Pow10(12) == 100 * Pow10(10) && Pow10(14) == 100 * Pow10(12);
    assert Pow10(16) == 100 * Pow10(14) && Pow10(18) == 100 * Pow10(16) && Pow10(20) == 100 * Pow10(18);
  }

  // ----- Words of a line -----

  predicate White(b: Byte) {
    b == 32 || b == 9 || b == 10 || b == 12 || b == 13
  }

  function WordLen(s: ByteString): (n: nat)
    ensures n <= |s| && (s != [] && !White(s[0]) ==> n >= 1)
  {
    if s == [] || White(s[0]) then 0 else 1 + WordLen(s[1..])
  }

  function Words(s: ByteString): seq<ByteString>
    decreases |s|
  {
    if s == [] then []
    else if White(s[0]) then Words(s[1..])
    else [s[..WordLen(s)]] + Words(s[WordLen(s)..])
  }

  /** Words made of digits and signs. */
  predicate Plain(w: ByteString) {
    w != [] && forall i :: 0 <= i < |w| ==> Digit(w[i]) || w[i] == MINUS
  }

  lemma {:induction false} WordEnds(w: ByteString, rest: ByteString)
    requires (forall i :: 0 <= i < |w| ==> !White(w[i])) && (rest == [] || White(rest[0]))
    ensures WordLen(w + rest) == |w|
    decreases |w|
  {
    if w == [] {
      assert w + rest == rest;
    } else {
      assert (w + rest)[1..] == w[1..] + rest;
      WordEnds(w[1..], rest);
    }
  }

  lemma FirstWord(w: ByteString, rest: ByteString)
    requires Plain(w)
    ensures Words(w + (SPACE + rest)) == [w] + Words(rest)
  {
    WordEnds(w, SPACE + rest);
    After(w, SPACE + rest);
    After(SPACE, rest);
    assert (w + (SPACE + rest))[0] == w[0];
  }

  lemma LastWord(w: ByteString)
    requires Plain(w)
    ensures Words(w) == [w]
  {
    WordEnds(w, []);
    assert w + [] == w;
  }

  // ----- The header -----

  datatype Header = Header(resultId: int, columnCount: nat, rowCount: nat, startRow: nat, bodyStart: nat) | BadHeader

  /** The first position of `b`, or the length. */
  function Find(s: ByteString, b: Byte): (n: nat)
    ensures n <= |s| && (n < |s| ==> s[n] == b)
  {
    if s == [] || s[0] == b then 0 else 1 + Find(s[1..], b)
  }

  function ParseFields(words: seq<ByteString>, bodyStart: nat): Header {
    if |words| < 4 then BadHeader
    else
      var id, columns, rows, start := ParseI64(words[0]), ParseU64(words[1]), ParseU64(words[2]), ParseU64(words[3]);
      if id.NaN? || columns.NaN? || rows.NaN? || start.NaN? then BadHeader
      else Header(id.value, columns.value, rows.value, start.value, bodyStart)
  }

  function ParseHeader(frame: ByteString): Header {
    if !(HEADER_PREFIX <= frame) then BadHeader
    else
      var scope := Scope(frame);
      var end := Find(scope, NEWLINE);
      assert HEADER_PREFIX <= scope;
      if end == |scope| then BadHeader else ParseLine(frame[3..end], end + 1)
  }

  function ParseLine(line: ByteString, bodyStart: nat): Header {
    if !StringEncoder.Utf8(line) then BadHeader else ParseFields(Words(line), bodyStart)
  }

  function Line(id: ByteString, columns: ByteString, rows: ByteString, start: ByteString): ByteString {
    id + (SPACE + (columns + (SPACE + (rows + (SPACE + start)))))
  }

  function HeaderText(resultId: int, columnCount: nat, rowCount: nat, startRow: nat): ByteString {
    HEADER_PREFIX + (Line(SignedText(resultId), Decimal(columnCount), Decimal(rowCount), Decimal(startRow)) + LINE_END)
  }

  lemma PlainNumbers(n: int)
    ensures Plain(SignedText(n)) && (n >= 0 ==> Plain(Decimal(n)))
  {
    if n < 0 {
      DecimalDigits(-n);
    } else {
      DecimalDigits(n);
    }
  }

  lemma LineWords(a: ByteString, b: ByteString, c: ByteString, d: ByteString)
    requires Plain(a) && Plain(b) && Plain(c) && Plain(d)
    ensures Words(Line(a, b, c, d)) == [a, b, c, d]
  {
    LastWord(d);
    FirstWord(c, d);
    FirstWord(b, c + (SPACE + d));
    FirstWord(a, b + (SPACE + (c + (SPACE + d))));
  }

  lemma {:induction false} FindFirst(a: ByteString, b: Byte, rest: ByteString)
    requires forall i :: 0 <= i < |a| ==> a[i] != b
    ensures Find(a + ([b] + rest), b) == |a|
  {
    if a == [] {
      assert a + ([b] + rest) == [b] + rest;
    } else {
      assert (a + ([b] + rest))[1..] == a[1..] + ([b] + rest);
      FindFirst(a[1..], b, rest);
    }
  }

  lemma {:induction false} AsciiIsUtf8(s: ByteString)
    requires forall i :: 0 <= i < |s| ==> s[i] < 0x80
    ensures StringEncoder.Utf8(s)
  {
    if s != [] {
      AsciiIsUtf8(s[1..]);
    }
  }

  /** A line of digits, signs and spaces. */
  predicate LineText(s: ByteString) {
    forall i :: 0 <= i < |s| ==> Digit(s[i]) || s[i] == MINUS || s[i] == 32
  }

  function Scope(frame: ByteString): ByteString {
    if |frame| <= 128 then frame else frame[..128]
  }

  lemma FrameShape(line: ByteString, rest: ByteString)
    ensures var before, frame := HEADER_PREFIX + line, (HEADER_PREFIX + (line + LINE_END)) + rest;
            && frame == before + ([NEWLINE] + rest) && HEADER_PREFIX <= frame
            && frame[3..|before|] == line
  {
    Assoc(HEADER_PREFIX, line, LINE_END);
    Assoc(HEADER_PREFIX + line, LINE_END, rest);
    Assoc(HEADER_PREFIX, line, LINE_END + rest);
  }

  lemma LineEnd(before: ByteString, rest: ByteString)
    requires (forall i :: 0 <= i < |before| ==> before[i] != NEWLINE) && |before| < 128
    ensures var scope := Scope(before + ([NEWLINE] + rest));
            Find(scope, NEWLINE) == |before| < |scope|
  {
    var frame := before + ([NEWLINE] + rest);
    if |frame| <= 128 {
      FindFirst(before, NEWLINE, rest);
    } else {
      var less := rest[..128 - |before| - 1];
      assert frame[..128] == before + ([NEWLINE] + less);
      FindFirst(before, NEWLINE, less);
    }
  }

  /** The header ends at its first newline. */
  lemma LineFound(line: ByteString, rest: ByteString)
    requires LineText(line) && |line| + 4 <= 128
    ensures ParseHeader((HEADER_PREFIX + (line + LINE_END)) + rest) == ParseLine(line, |line| + 4)
  {
    FrameShape(line, rest);
    LineEnd(HEADER_PREFIX + line, rest);
  }

  lemma LineTextJoin(a: ByteString, b: ByteString)
    requires LineText(a) && LineText(b)
    ensures LineText(a + b)
  {
  }

  lemma LineIsText(a: ByteString, b: ByteString, c: ByteString, d: ByteString)
    requires Plain(a) && Plain(b) && Plain(c) && Plain(d)
    ensures LineText(Line(a, b, c, d))
  {
    LineTextJoin(SPACE, d);
    LineTextJoin(c, SPACE + d);
    LineTextJoin(SPACE, c + (SPACE + d));
    LineTextJoin(b, SPACE + (c + (SPACE + d)));
    LineTextJoin(SPACE, b + (SPACE + (c + (SPACE + d))));
    LineTextJoin(a, SPACE + (b + (SPACE + (c + (SPACE + d)))));
  }

  lemma NumberFits(n: int)
    requires 0 - U64_MAX <= n <= U64_MAX
    ensures |SignedText(n)| <= 21 && (n >= 0 ==> |Decimal(n)| <= 20)
  {
    TwentyDigits();
    DecimalLength(if n < 0 then -n else n, 20);
  }

  /** Reading back a header that the server writes, whatever follows it. */
  lemma HeaderRoundTrip(resultId: int, columnCount: nat, rowCount: nat, startRow: nat, rest: ByteString)
    requires 0 - I64_MAX - 1 <= resultId <= I64_MAX && columnCount <= U64_MAX && rowCount <= U64_MAX && startRow <= U64_MAX
    ensures var text := HeaderText(resultId, columnCount, rowCount, startRow);
            ParseHeader(text + rest) == Header(resultId, columnCount, rowCount, startRow, |text|)
  {
    var a, b, c, d := SignedText(resultId), Decimal(columnCount), Decimal(rowCount), Decimal(startRow);
    PlainNumbers(resultId);
    PlainNumbers(columnCount);
    PlainNumbers(rowCount);
    PlainNumbers(startRow);
    NumberFits(resultId);
    NumberFits(columnCount);
    NumberFits(rowCount);
    NumberFits(startRow);
    LineIsText(a, b, c, d);
    LineFound(Line(a, b, c, d), rest);
    AsciiIsUtf8(Line(a, b, c, d));
    LineWords(a, b, c, d);
    FieldsInvert(resultId, columnCount, rowCount, startRow, |Line(a, b, c, d)| + 4);
  }

  lemma FieldsInvert(resultId: int, columnCount: nat, rowCount: nat, startRow: nat, bodyStart: nat)
    requires 0 - I64_MAX - 1 <= resultId <= I64_MAX && columnCount <= U64_MAX && rowCount <= U64_MAX && startRow <= U64_MAX
    ensures ParseFields([SignedText(resultId), Decimal(columnCount), Decimal(rowCount), Decimal(startRow)], bodyStart)
         == Header(resultId, columnCount, rowCount, startRow, bodyStart)
  {
    I64Inverts(resultId);
    U64Inverts(columnCount);
    U64Inverts(rowCount);
    U64Inverts(startRow);
  }
}

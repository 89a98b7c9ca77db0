/** Decoding what the encoder wrote, chunk after independently encoded chunk. */
module StringRoundTrip {
  import opened Arithmetic
  import opened Bytes
  import opened Sequences
  import opened StringEncoder
  import opened RowDecoder
  import opened StringDecoder

  // ----- One row -----

  lemma ReadsLiteral(v: ByteString, rest: ByteString, history: Column)
    requires Utf8(v) && 0 !in v
    ensures ReadValue(Literal(v) + rest, history) == Value(Text(v), |Literal(v)|)
  {
    var s := Literal(v) + rest;
    assert s[|v|] == 0 && s[..|v|] == v;
    assert forall i :: 0 <= i < |v| ==> s[i] == v[i];
    assert FindNul(s) == |v|;
    if v != [] {
      LiteralHead(v);
    }
  }

  lemma ReadsShort(d: nat, rest: ByteString, history: Column)
    requires 1 <= d <= |history| && d <= 63
    ensures ReadValue(Backref(d) + rest, history) == Value(history[|history| - d], |Backref(d)|)
  {
    assert (Backref(d) + rest)[0] == 0x80 + d;
  }

  lemma ReadsLong(d: nat, rest: ByteString, history: Column)
    requires 64 <= d <= |history| <= USIZE_MAX
    ensures ReadValue(Backref(d) + rest, history) == Value(history[|history| - d], |Backref(d)|)
  {
    ReadsDistance(d, rest);
    LongSplit(d, rest);
  }

  lemma {:induction false} ReadsVarint(d: nat, rest: ByteString, left: nat)
    requires left >= 1 && d < Pow128(left)
    ensures Digits(Varint(d) + rest, left) == Distance(d, |Varint(d)|)
    decreases d
  {
    if d >= 128 {
      ReadsVarint(d / 128, rest, left - 1);
      VarintSplit(d, rest);
    }
  }

  lemma VarintSplit(d: nat, rest: ByteString)
    requires d >= 128
    ensures (Varint(d) + rest)[0] == 0x80 + d % 128 && (Varint(d) + rest)[1..] == Varint(d / 128) + rest
    ensures |Varint(d)| == 1 + |Varint(d / 128)|
  {
    var first: ByteString := [0x80 + d % 128];
    Assoc(first, Varint(d / 128), rest);
    After(first, Varint(d / 128) + rest);
  }

  lemma TenDigits()
    ensures Pow128(MAX_DIGITS) > USIZE_MAX
  {
    assert Pow128(2) == 128 * 128 && Pow128(4) == 128 * (128 * Pow128(2));
    assert Pow128(6) == 128 * (128 * Pow128(4)) && Pow128(8) == 128 * (128 * Pow128(6));
  }

  lemma ReadsDistance(d: nat, rest: ByteString)
    requires d <= USIZE_MAX
    ensures LongDistance(Varint(d) + rest) == Distance(d, |Varint(d)|)
  {
    TenDigits();
    ReadsVarint(d, rest, MAX_DIGITS);
  }

  lemma LongSplit(d: nat, rest: ByteString)
    requires d >= 64
    ensures (Backref(d) + rest)[0] == 0x80 && (Backref(d) + rest)[1..] == Varint(d) + rest
    ensures |Backref(d)| == 1 + |Varint(d)|
  {
    Assoc(LONG_REFERENCE, Varint(d), rest);
    After(LONG_REFERENCE, Varint(d) + rest);
  }

  lemma ReadsNull(rest: ByteString, history: Column)
    ensures ReadValue(NULL_REFERENCE + rest, history) == Value(Null, |NULL_REFERENCE|)
  {
    var s := NULL_REFERENCE + rest;
    assert s[0] == 0x80 && s[1..][0] == 0;
    assert LongDistance(s[1..]) == Distance(0, 1);
  }

  predicate Encodable(values: Column) {
    forall i :: 0 <= i < |values| ==> values[i].Text? ==> Utf8(values[i].bytes) && 0 !in values[i].bytes
  }

  /** References stay within their chunk, so rows before the chunk do not matter. */
  lemma RowReads(history: Column, chunk: Column, i: nat, rest: ByteString)
    requires i < |chunk| && Encodable(chunk) && i <= |history| <= USIZE_MAX
    requires forall j :: 0 <= j < i ==> history[|history| - i + j] == chunk[j]
    ensures ReadValue(RowBytes(chunk, i) + rest, history) == Value(chunk[i], |RowBytes(chunk, i)|)
  {
    var previous := LastEqual(chunk, chunk[i], i);
    if previous.Some? && (chunk[i].Text? || i - previous.value < 64) {
      var d := i - previous.value;
      assert history[|history| - d] == chunk[i];
      if d <= 63 {
        ReadsShort(d, rest, history);
      } else {
        ReadsLong(d, rest, history);
      }
    } else if chunk[i].Text? {
      ReadsLiteral(chunk[i].bytes, rest, history);
    } else {
      ReadsNull(rest, history);
    }
  }

  /** A reader that reads back every row the encoder wrote, whatever came before its chunk. */
  ghost predicate Understands(read: Reader) {
    Advances(read) && forall before: Column, chunk: Column, i: nat :: UnderstandsRow(read, before, chunk, i)
  }

  ghost predicate UnderstandsRow(read: Reader, before: Column, chunk: Column, i: nat) {
    i < |chunk| && Encodable(chunk) && |before| + |chunk| <= USIZE_MAX ==>
      Denotes(read, RowBytes(chunk, i), before + chunk[..i], chunk[i])
  }

  lemma ReadValueUnderstands()
    ensures Understands(ReadValue)
  {
    ReadersAgree();
    forall before: Column, chunk: Column, i: nat ensures UnderstandsRow(ReadValue, before, chunk, i) {
      if i < |chunk| && Encodable(chunk) && |before| + |chunk| <= USIZE_MAX {
        RowDenotes(before, chunk, i);
      }
    }
  }

  lemma RowDenotes(before: Column, chunk: Column, i: nat)
    requires i < |chunk| && Encodable(chunk) && |before| + |chunk| <= USIZE_MAX
    ensures Denotes(ReadValue, RowBytes(chunk, i), before + chunk[..i], chunk[i])
  {
    var history := before + chunk[..i];
    assert forall j :: 0 <= j < i ==> history[|history| - i + j] == chunk[j];
    RowNotEmpty(chunk, i);
    forall rest: ByteString
      ensures ReadValue(RowBytes(chunk, i) + rest, history) == Value(chunk[i], |RowBytes(chunk, i)|)
    {
      RowReads(history, chunk, i, rest);
    }
  }

  lemma RowNotEmpty(chunk: Column, i: nat)
    requires i < |chunk|
    ensures RowBytes(chunk, i) != []
  {
  }

  // ----- Chunk after chunk -----

  function RowPieces(chunk: Column, n: nat): (pieces: seq<ByteString>)
    requires n <= |chunk|
    ensures |pieces| == n
  {
    if n == 0 then [] else RowPieces(chunk, n - 1) + [RowBytes(chunk, n - 1)]
  }

  lemma {:induction false} RowPiecesFlatten(chunk: Column, n: nat)
    requires n <= |chunk|
    ensures Flatten(RowPieces(chunk, n)) == Encoded(chunk, n)
  {
    if n > 0 {
      RowPiecesFlatten(chunk, n - 1);
      FlattenPush(RowPieces(chunk, n - 1), RowBytes(chunk, n - 1));
    }
  }

  function Pieces(chunks: seq<Column>): seq<ByteString> {
    if chunks == [] then []
    else Pieces(chunks[..|chunks| - 1]) + RowPieces(chunks[|chunks| - 1], |chunks[|chunks| - 1]|)
  }

  lemma {:induction false} PiecesFlatten(chunks: seq<Column>)
    ensures Flatten(Pieces(chunks)) == Wire(chunks)
  {
    if chunks != [] {
      var init, last := chunks[..|chunks| - 1], chunks[|chunks| - 1];
      PiecesFlatten(init);
      RowPiecesFlatten(last, |last|);
      FlattenConcat(Pieces(init), RowPieces(last, |last|));
    }
  }

  predicate AllEncodable(chunks: seq<Column>) {
    forall c :: 0 <= c < |chunks| ==> Encodable(chunks[c])
  }

  lemma AppendRow(read: Reader, pieces: seq<ByteString>, values: Column, chunk: Column, i: nat)
    requires Understands(read) && i < |chunk| && Encodable(chunk) && |values| + |chunk| <= USIZE_MAX
    requires AllDenote(read, pieces + RowPieces(chunk, i), values + chunk[..i])
    ensures AllDenote(read, pieces + RowPieces(chunk, i + 1), values + chunk[..i + 1])
  {
    var b: ByteString := RowBytes(chunk, i);
    assert UnderstandsRow(read, values, chunk, i);
    PushDenotes(read, pieces + RowPieces(chunk, i), values + chunk[..i], b, chunk[i]);
    Assoc(pieces, RowPieces(chunk, i), [b]);
    Snoc(chunk, i);
    Assoc(values, chunk[..i], [chunk[i]]);
  }

  lemma {:induction false} AppendDenotes(read: Reader, pieces: seq<ByteString>, values: Column, chunk: Column, n: nat)
    requires Understands(read) && AllDenote(read, pieces, values)
    requires Encodable(chunk) && |values| + |chunk| <= USIZE_MAX && n <= |chunk|
    ensures AllDenote(read, pieces + RowPieces(chunk, n), values + chunk[..n])
    decreases n
  {
    if n == 0 {
      Whole(pieces);
      Whole(values);
    } else {
      AppendDenotes(read, pieces, values, chunk, n - 1);
      AppendRow(read, pieces, values, chunk, n - 1);
    }
  }

  lemma {:induction false} ChunksDenote(read: Reader, chunks: seq<Column>)
    requires Understands(read) && AllEncodable(chunks) && |Flatten(chunks)| <= USIZE_MAX
    ensures AllDenote(read, Pieces(chunks), Flatten(chunks))
  {
    if chunks != [] {
      var init, last := chunks[..|chunks| - 1], chunks[|chunks| - 1];
      ChunksDenote(read, init);
      AppendDenotes(read, Pieces(init), Flatten(init), last, |last|);
      Whole(last);
    }
  }

  /**
   The general decoder returns the rows of independently encoded chunks exactly when the expanded
   strings stay within its bound; beyond it, it reports the expansion.
   */
  lemma GeneralRoundTrip(chunks: seq<Column>)
    requires AllEncodable(chunks) && |Flatten(chunks)| <= USIZE_MAX
    ensures Returns(General(Wire(chunks), |Flatten(chunks)|), Flatten(chunks), Bound(|Wire(chunks)|))
  {
    PiecesFlatten(chunks);
    ReadValueUnderstands();
    ChunksDenote(ReadValue, chunks);
    DecodesPieces(ReadValue, Pieces(chunks), Flatten(chunks), 0, Bound(|Wire(chunks)|));
  }

  lemma EncodedLength(chunk: Column, n: nat)
    requires n <= |chunk|
    ensures |Encoded(chunk, n)| >= n
  {
    PiecesNotEmpty(chunk, n);
    PiecesLength(RowPieces(chunk, n));
    RowPiecesFlatten(chunk, n);
  }

  lemma {:induction false} PiecesNotEmpty(chunk: Column, n: nat)
    requires n <= |chunk|
    ensures AllNonEmpty(RowPieces(chunk, n))
  {
    if n > 0 {
      PiecesNotEmpty(chunk, n - 1);
      RowNotEmpty(chunk, n - 1);
      OneMore(RowPieces(chunk, n - 1), RowBytes(chunk, n - 1));
    }
  }

  ghost predicate AllNonEmpty(pieces: seq<ByteString>) {
    forall i :: 0 <= i < |pieces| ==> pieces[i] != []
  }

  lemma OneMore(pieces: seq<ByteString>, b: ByteString)
    requires AllNonEmpty(pieces) && b != []
    ensures AllNonEmpty(pieces + [b])
  {
  }

  lemma {:induction false} PiecesLength(pieces: seq<ByteString>)
    requires AllNonEmpty(pieces)
    ensures |Flatten(pieces)| >= |pieces|
  {
    if pieces != [] {
      var init, last := pieces[..|pieces| - 1], pieces[|pieces| - 1];
      PiecesLength(init);
      FlattenPush(init, last);
      assert pieces == init + [last];
    }
  }

  lemma {:induction false} WireLength(chunks: seq<Column>)
    ensures |Wire(chunks)| >= |Flatten(chunks)|
  {
    if chunks != [] {
      var last := chunks[|chunks| - 1];
      WireLength(chunks[..|chunks| - 1]);
      EncodedLength(last, |last|);
    }
  }

  /** Decoding gives every encoded column back exactly when wire and expansion are within the limits. */
  lemma RoundTrip(chunks: seq<Column>)
    requires AllEncodable(chunks)
    ensures ColumnOf(Wire(chunks), |Flatten(chunks)|) == Decoded(Flatten(chunks))
       <==> |Wire(chunks)| <= I32_MAX && ExpandedSize(Flatten(chunks)) <= Bound(|Wire(chunks)|)
  {
    WireLength(chunks);
    if |Wire(chunks)| <= I32_MAX {
      GeneralRoundTrip(chunks);
    }
  }
}

/**
 Decoding a column row by row: the general decoder, which keeps every earlier row and bounds the
 expansion, and the fast decoder, which gives up at the first reference.  Both are stated for any way
 of reading one value.
 */
module RowDecoder {
  import opened Bytes
  import opened Sequences
  import opened StringEncoder

  const I32_MAX := 0x7FFF_FFFF

  datatype DecodeError =
    | Length(expected: nat, actual: nat)
    | NotTerminated(row: nat)
    | InvalidUtf8(row: nat)
    | InvalidBackref(row: nat)
    | TooLarge(row: nat)
    | OffsetLimit(row: nat)
    | TooManyRows
    | ColumnTooLarge

  /** A decoded column, or why there is none. */
  datatype Decoding = Decoded(column: Column) | Failed(error: DecodeError)

  /** The value at one position and the bytes it takes. */
  datatype Reading = Value(cell: Cell, used: nat) | Unreadable(error: DecodeError)

  /** Reads the value at the head of a byte string, given the earlier rows. */
  type Reader = (ByteString, Column) -> Reading

  ghost predicate Advances(read: Reader) {
    forall s: ByteString, history: Column :: read(s, history).Value? ==> 1 <= read(s, history).used <= |s|
  }

  function ValueBytes(v: Cell): nat {
    if v.Text? then |v.bytes| else 0
  }

  function ExpandedSize(values: Column): nat {
    if values == [] then 0 else ExpandedSize(values[..|values| - 1]) + ValueBytes(values[|values| - 1])
  }

  // ----- The general decoder -----

  ghost function DecodeFrom(read: Reader, bytes: ByteString, pos: nat, rows: nat, history: Column, size: nat, bound: nat)
    : Decoding
    requires Advances(read) && pos <= |bytes| && |history| <= rows
    decreases rows - |history|
  {
    if |history| == rows then
      if pos == |bytes| then Decoded(history) else Failed(Length(pos, |bytes|))
    else if pos == |bytes| then Failed(Length(pos + 1, |bytes|))
    else
      var next := read(bytes[pos..], history);
      if next.Unreadable? then Failed(next.error)
      else if next.cell.Text? && size + |next.cell.bytes| > bound then Failed(TooLarge(|history|))
      else DecodeFrom(read, bytes, pos + next.used, rows, history + [next.cell], size + ValueBytes(next.cell), bound)
  }

  method DecodeRows(read: Reader, bytes: ByteString, rows: nat, bound: nat) returns (r: Decoding)
    requires Advances(read)
    ensures r == DecodeFrom(read, bytes, 0, rows, [], 0, bound)
  {
    var history: Column := [];
    var pos: nat, size: nat := 0, 0;
    while |history| < rows
      invariant |history| <= rows && pos <= |bytes|
      invariant DecodeFrom(read, bytes, pos, rows, history, size, bound) == DecodeFrom(read, bytes, 0, rows, [], 0, bound)
      decreases rows - |history|
    {
      if pos == |bytes| {
        return Failed(Length(pos + 1, |bytes|));
      }
      var next := read(bytes[pos..], history);
      if next.Unreadable? {
        return Failed(next.error);
      }
      if next.cell.Text? && size + |next.cell.bytes| > bound {
        return Failed(TooLarge(|history|));
      }
      size := size + ValueBytes(next.cell);
      pos, history := pos + next.used, history + [next.cell];
    }
    if pos != |bytes| {
      return Failed(Length(pos, |bytes|));
    }
    r := Decoded(history);
  }

  // ----- The fast decoder -----

  /** What a position holds on its own, if it does not refer to an earlier row. */
  datatype Plain = Plain(reading: Reading) | Reference

  type PlainReader = (ByteString, nat) -> Plain

  /** What the fast decoder says: an answer, or that it met a reference. */
  datatype Fast = Answer(decoding: Decoding) | Declined

  ghost predicate PlainAdvances(plain: PlainReader) {
    forall s: ByteString, row: nat ::
      plain(s, row).Plain? && plain(s, row).reading.Value? ==> 1 <= plain(s, row).reading.used <= |s|
  }

  /** The plain reader reads what the reader reads, and no text is longer than its wire form. */
  ghost predicate Agrees(plain: PlainReader, read: Reader) {
    forall s: ByteString, history: Column :: s != [] && plain(s, |history|).Plain? ==>
      && read(s, history) == plain(s, |history|).reading
      && (read(s, history).Value? ==> ValueBytes(read(s, history).cell) < read(s, history).used)
  }

  ghost function FastFrom(plain: PlainReader, bytes: ByteString, pos: nat, rows: nat, built: Column, size: nat): Fast
    requires PlainAdvances(plain) && pos <= |bytes| && |built| <= rows
    decreases rows - |built|
  {
    if |built| == rows then
      Answer(if pos == |bytes| then Decoded(built) else Failed(Length(pos, |bytes|)))
    else if pos == |bytes| then Answer(Failed(Length(pos + 1, |bytes|)))
    else
      var next := plain(bytes[pos..], |built|);
      if next.Reference? then Declined
      else if next.reading.Unreadable? then Answer(Failed(next.reading.error))
      else
        var cell := next.reading.cell;
        if cell.Text? && size + |cell.bytes| > I32_MAX then Answer(Failed(OffsetLimit(|built|)))
        else FastFrom(plain, bytes, pos + next.reading.used, rows, built + [cell], size + ValueBytes(cell))
  }

  method FastRows(plain: PlainReader, bytes: ByteString, rows: nat) returns (r: Fast)
    requires PlainAdvances(plain)
    ensures r == FastFrom(plain, bytes, 0, rows, [], 0)
  {
    var built: Column := [];
    var pos: nat, size: nat := 0, 0;
    while |built| < rows
      invariant |built| <= rows && pos <= |bytes|
      invariant FastFrom(plain, bytes, pos, rows, built, size) == FastFrom(plain, bytes, 0, rows, [], 0)
      decreases rows - |built|
    {
      if pos == |bytes| {
        return Answer(Failed(Length(pos + 1, |bytes|)));
      }
      var next := plain(bytes[pos..], |built|);
      if next.Reference? {
        return Declined;
      }
      if next.reading.Unreadable? {
        return Answer(Failed(next.reading.error));
      }
      var cell := next.reading.cell;
      if cell.Text? && size + |cell.bytes| > I32_MAX {
        return Answer(Failed(OffsetLimit(|built|)));
      }
      size := size + ValueBytes(cell);
      pos, built := pos + next.reading.used, built + [cell];
    }
    r := Answer(if pos == |bytes| then Decoded(built) else Failed(Length(pos, |bytes|)));
  }

  /**
   Whenever the fast decoder answers, the general decoder answers the same: literal bytes never
   outgrow the wire, so neither decoder's size limit can be reached.
   */
  lemma {:induction false} FastRefinesGeneral(plain: PlainReader, read: Reader, bytes: ByteString, pos: nat, rows: nat,
                                              built: Column, size: nat, bound: nat)
    requires Advances(read) && PlainAdvances(plain) && Agrees(plain, read)
    requires pos <= |bytes| <= I32_MAX && |bytes| <= bound && |built| <= rows && size <= pos
    ensures var fast := FastFrom(plain, bytes, pos, rows, built, size);
            fast.Answer? ==> fast.decoding == DecodeFrom(read, bytes, pos, rows, built, size, bound)
    decreases rows - |built|
  {
    if |built| < rows && pos < |bytes| {
      var next := plain(bytes[pos..], |built|);
      assert next.Plain? ==> read(bytes[pos..], built) == next.reading;
      if next.Plain? && next.reading.Value? {
        var cell, used := next.reading.cell, next.reading.used;
        FastRefinesGeneral(plain, read, bytes, pos + used, rows, built + [cell], size + ValueBytes(cell), bound);
      }
    }
  }

  // ----- Reading a known column -----

  lemma SizeAt(values: Column, r: nat)
    requires r < |values|
    ensures ExpandedSize(values[..r + 1]) == ExpandedSize(values[..r]) + ValueBytes(values[r])
    ensures ExpandedSize(values[..r + 1]) <= ExpandedSize(values)
    decreases |values| - r
  {
    assert values[..r + 1][..r] == values[..r];
    if r + 1 < |values| {
      SizeAt(values, r + 1);
    } else {
      Whole(values);
    }
  }

  /** Whatever follows it, the piece `b` stands for `v` after the rows `history`. */
  ghost predicate Denotes(read: Reader, b: ByteString, history: Column, v: Cell) {
    b != [] && forall rest: ByteString :: read(b + rest, history) == Value(v, |b|)
  }

  /** Piece by piece, `pieces` stand for `values`. */
  ghost predicate AllDenote(read: Reader, pieces: seq<ByteString>, values: Column) {
    && |pieces| == |values|
    && (pieces == []
        || (var n := |pieces| - 1;
            AllDenote(read, pieces[..n], values[..n]) && Denotes(read, pieces[n], values[..n], values[n])))
  }

  lemma PushDenotes(read: Reader, pieces: seq<ByteString>, values: Column, b: ByteString, v: Cell)
    requires AllDenote(read, pieces, values) && Denotes(read, b, values, v)
    ensures AllDenote(read, pieces + [b], values + [v])
  {
    After(pieces, [b]);
    After(values, [v]);
  }

  lemma {:induction false} DenotesAt(read: Reader, pieces: seq<ByteString>, values: Column, r: nat, rest: ByteString)
    requires AllDenote(read, pieces, values) && r < |values|
    ensures pieces[r] != [] && read(pieces[r] + rest, values[..r]) == Value(values[r], |pieces[r]|)
    decreases |values|
  {
    var n := |pieces| - 1;
    if r < n {
      DenotesAt(read, pieces[..n], values[..n], r, rest);
      assert values[..n][..r] == values[..r];
    }
  }

  /** The decoder returned `all`, or reports that it expands beyond the bound. */
  ghost predicate Returns(d: Decoding, all: Column, bound: nat) {
    if ExpandedSize(all) <= bound then d == Decoded(all) else d.Failed? && d.error.TooLarge?
  }

  lemma {:induction false} DecodesPieces(read: Reader, pieces: seq<ByteString>, all: Column, r: nat, bound: nat)
    requires Advances(read) && AllDenote(read, pieces, all) && r <= |all| && ExpandedSize(all[..r]) <= bound
    ensures |Flatten(pieces[..r])| <= |Flatten(pieces)|
    ensures Returns(DecodeFrom(read, Flatten(pieces), |Flatten(pieces[..r])|, |all|, all[..r], ExpandedSize(all[..r]), bound),
                    all, bound)
    decreases |all| - r
  {
    if r == |all| {
      Whole(all);
      Whole(pieces);
    } else {
      PieceReads(read, pieces, all, r);
      SizeAt(all, r);
      Snoc(all, r);
      if ExpandedSize(all[..r + 1]) <= bound {
        DecodesPieces(read, pieces, all, r + 1, bound);
      }
    }
  }

  /** At the start of piece `r` the reader finds its value, and the next piece begins behind it. */
  lemma PieceReads(read: Reader, pieces: seq<ByteString>, all: Column, r: nat)
    requires AllDenote(read, pieces, all) && r < |all|
    ensures var bytes, pos := Flatten(pieces), |Flatten(pieces[..r])|;
            && pos < |bytes| && read(bytes[pos..], all[..r]) == Value(all[r], |pieces[r]|)
            && |Flatten(pieces[..r + 1])| == pos + |pieces[r]| <= |bytes|
  {
    FlattenAt(pieces, r);
    After(Flatten(pieces[..r]), pieces[r] + Flatten(pieces[r + 1..]));
    DenotesAt(read, pieces, all, r, Flatten(pieces[r + 1..]));
  }
}

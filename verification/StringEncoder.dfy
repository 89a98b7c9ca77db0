/**
 The COPY BINARY string format: NUL-terminated UTF-8 literals, and back-references that repeat an
 earlier row.  Tag bytes 0x80..0xBF introduce references; no UTF-8 string begins with one.
 */
module StringEncoder {
  import opened Arithmetic
  import opened Wrappers
  import opened Bytes
  import opened Sequences

  /** A nullable string. */
  datatype Cell = Null | Text(bytes: ByteString)

  type Column = seq<Cell>

  /** An encoding, or the row that has none. */
  datatype Encoding = Encoding(bytes: ByteString) | BadRow(row: nat)

  // ----- UTF-8, section 4 of RFC 3629 -----

  predicate Tail(b: Byte) {
    0x80 <= b <= 0xBF
  }

  /** The length of the well-formed character at the head of `s`, or 0. */
  function CharLen(s: ByteString): (n: nat)
    ensures n <= |s|
  {
    if |s| >= 1 && s[0] < 0x80 then 1
    else if |s| >= 2 && 0xC2 <= s[0] <= 0xDF && Tail(s[1]) then 2
    else if |s| >= 3 && 0xE0 <= s[0] <= 0xEF && Tail(s[1]) && Tail(s[2])
            && (s[0] == 0xE0 ==> 0xA0 <= s[1]) && (s[0] == 0xED ==> s[1] <= 0x9F) then 3
    else if |s| >= 4 && 0xF0 <= s[0] <= 0xF4 && Tail(s[1]) && Tail(s[2]) && Tail(s[3])
            && (s[0] == 0xF0 ==> 0x90 <= s[1]) && (s[0] == 0xF4 ==> s[1] <= 0x8F) then 4
    else 0
  }

  predicate Utf8(s: ByteString) {
    s == [] || (CharLen(s) > 0 && Utf8(s[CharLen(s)..]))
  }

  /** Literals never start like a reference. */
  lemma LiteralHead(s: ByteString)
    requires Utf8(s) && s != []
    ensures !Tail(s[0])
  {
  }

  // ----- References -----

  function Varint(d: nat): (s: ByteString)
    ensures s != []
  {
    if d < 128 then [d] else [0x80 + d % 128] + Varint(d / 128)
  }

  const LONG_REFERENCE: ByteString := [0x80]

  function Backref(d: nat): (s: ByteString)
    ensures s != []
  {
    if d <= 63 then [0x80 + d] else LONG_REFERENCE + Varint(d)
  }

  method AppendBackref(distance: nat, out: ByteString) returns (r: ByteString)
    ensures r == out + Backref(distance)
  {
    if distance <= 63 {
      var tag: Byte := 0x80 + distance;
      return out + [tag];
    }
    Assoc(out, LONG_REFERENCE, Varint(distance));
    r := out + LONG_REFERENCE;
    var d := distance;
    var done := false;
    while !done
      invariant r + (if done then [] else Varint(d)) == out + Backref(distance)
      decreases if done then 0 else d + 1
    {
      VarintMoves(r, d);
      var last := d / 128 == 0;
      var b: Byte := if last then d % 128 else d % 128 + 0x80;
      d := d / 128;
      r := r + [b];
      done := d == 0;
    }
  }

  lemma VarintMoves(out: ByteString, d: nat)
    ensures d / 128 == 0 ==> out + Varint(d) == (out + [d % 128]) + []
    ensures d / 128 != 0 ==> out + Varint(d) == (out + [d % 128 + 0x80]) + Varint(d / 128)
  {
    if d / 128 != 0 {
      assert Varint(d) == [d % 128 + 0x80] + Varint(d / 128);
    }
  }

  // ----- Rows -----

  const NULL_REFERENCE: ByteString := [0x80, 0]
  const TERMINATOR: ByteString := [0]

  function Literal(v: ByteString): (s: ByteString)
    ensures s != []
  {
    v + TERMINATOR
  }

  /** The last of the first `n` rows that equals `v`. */
  function LastEqual(values: Column, v: Cell, n: nat): (p: Option<nat>)
    requires n <= |values|
    ensures p.Some? ==> p.value < n && values[p.value] == v
    ensures p.None? ==> forall i :: 0 <= i < n ==> values[i] != v
  {
    if n == 0 then None else if values[n - 1] == v then Some(n - 1) else LastEqual(values, v, n - 1)
  }

  function RowBytes(values: Column, row: nat): ByteString
    requires row < |values|
  {
    var previous := LastEqual(values, values[row], row);
    match values[row]
    case Text(v) => if previous.Some? then Backref(row - previous.value) else Literal(v)
    case Null => if previous.Some? && row - previous.value < 64 then Backref(row - previous.value) else NULL_REFERENCE
  }

  /** The encoding of the first `n` rows. */
  function Encoded(values: Column, n: nat): ByteString
    requires n <= |values|
  {
    if n == 0 then [] else Encoded(values, n - 1) + RowBytes(values, n - 1)
  }

  predicate HasNul(v: Cell) {
    v.Text? && 0 in v.bytes
  }

  /** None of the first `n` rows contains a NUL byte. */
  predicate NulFree(values: Column, n: nat)
    requires n <= |values|
  {
    forall i :: 0 <= i < n ==> !HasNul(values[i])
  }

  /** The encoder's map and last null row hold the last occurrences among the first `row` rows. */
  ghost predicate Tracks(values: Column, row: nat, seen: map<ByteString, nat>, lastNull: Option<nat>)
    requires row <= |values|
  {
    && (forall v :: LastEqual(values, Text(v), row) == if v in seen then Some(seen[v]) else None)
    && LastEqual(values, Null, row) == lastNull
  }

  lemma TracksString(values: Column, row: nat, seen: map<ByteString, nat>, lastNull: Option<nat>, v: ByteString)
    requires row < |values| && values[row] == Text(v) && Tracks(values, row, seen, lastNull)
    ensures Tracks(values, row + 1, seen[v := row], lastNull)
  {
  }

  lemma TracksNull(values: Column, row: nat, seen: map<ByteString, nat>, lastNull: Option<nat>)
    requires row < |values| && values[row] == Null && Tracks(values, row, seen, lastNull)
    ensures Tracks(values, row + 1, seen, Some(row))
  {
  }

  /** The bytes of the next row, from what the encoder remembers. */
  method EncodeRow(ghost values: Column, row: nat, value: Cell, seen: map<ByteString, nat>, lastNull: Option<nat>,
                   out: ByteString)
    returns (r: ByteString)
    requires row < |values| && values[row] == value && Tracks(values, row, seen, lastNull)
    ensures r == out + RowBytes(values, row)
  {
    match value {
      case Text(v) =>
        assert LastEqual(values, Text(v), row) == if v in seen then Some(seen[v]) else None;
        if v in seen {
          r := AppendBackref(row - seen[v], out);
        } else {
          r := out + Literal(v);
        }
      case Null =>
        if lastNull.Some? && row - lastNull.value < 64 {
          r := AppendBackref(row - lastNull.value, out);
        } else {
          r := out + NULL_REFERENCE;
        }
    }
  }

  /** One pass with a map of last occurrences; fails at the first string that contains a NUL byte. */
  method EncodeStrings(values: Column) returns (r: Encoding)
    ensures r.Encoding? ==> r.bytes == Encoded(values, |values|) && NulFree(values, |values|)
    ensures r.BadRow? ==> r.row < |values| && HasNul(values[r.row]) && NulFree(values, r.row)
  {
    var out: ByteString := [];
    var seen: map<ByteString, nat> := map[];
    var lastNull: Option<nat> := None;
    for row: nat := 0 to |values|
      invariant out == Encoded(values, row) && NulFree(values, row)
      invariant Tracks(values, row, seen, lastNull)
    {
      if HasNul(values[row]) {
        return BadRow(row);
      }
      out := EncodeRow(values, row, values[row], seen, lastNull, out);
      match values[row] {
        case Text(v) =>
          TracksString(values, row, seen, lastNull, v);
          seen := seen[v := row];
        case Null =>
          TracksNull(values, row, seen, lastNull);
          lastNull := Some(row);
      }
    }
    r := Encoding(out);
  }

  // ----- Chunks -----

  /** Independently encoded chunks, one after the other. */
  function Wire(chunks: seq<Column>): ByteString {
    if chunks == [] then []
    else Wire(chunks[..|chunks| - 1]) + Encoded(chunks[|chunks| - 1], |chunks[|chunks| - 1]|)
  }

  lemma ChunksPush(chunks: seq<Column>, c: Column)
    ensures Flatten(chunks + [c]) == Flatten(chunks) + c
    ensures Wire(chunks + [c]) == Wire(chunks) + Encoded(c, |c|)
  {
    FlattenPush(chunks, c);
    assert (chunks + [c])[..|chunks|] == chunks;
  }

  function EstimatedSize(values: Column): nat {
    if values == [] then 0
    else EstimatedSize(values[1..]) + if values[0].Text? then |values[0].bytes| + 1 else 2
  }

  lemma QuotientFits(total: nat, size: nat)
    requires size > 0
    ensures (total / size) * size <= total < (total / size + 1) * size
  {
    assert total == (total / size) * size + total % size;
  }

  /**
   How many rows of an array go into one chunk: at least one, at most all, and by the average estimate
   as many as the target holds.
   */
  method RowsPerChunk(rows: nat, estimated: nat, targetBytes: nat) returns (n: nat)
    ensures 1 <= n && (rows > 0 ==> n <= rows) && (estimated == 0 && rows > 0 ==> n == rows)
    ensures estimated > 0 ==> n == 1 || n * estimated <= targetBytes * rows
    ensures estimated > 0 && 0 < rows && targetBytes * rows <= USIZE_MAX ==> n == rows || targetBytes * rows < (n + 1) * estimated
  {
    var most := if rows >= 1 then rows else 1;
    if estimated == 0 {
      return most;
    }
    var scaled := targetBytes * rows;
    var fitting := Saturate(scaled) / estimated;
    n := if fitting < 1 then 1 else if fitting > most then most else fitting;
    QuotientFits(Saturate(scaled), estimated);
    if n <= fitting {
      MulMono(n, fitting, estimated);
    } else {
      MulMono(fitting + 1, n + 1, estimated);
    }
  }

  predicate AllNulFree(arrays: seq<Column>, n: nat)
    requires n <= |arrays|
  {
    forall a :: 0 <= a < n ==> NulFree(arrays[a], |arrays[a]|)
  }

  /** Cuts every array into chunks of whole rows and encodes each chunk on its own. */
  method EncodeColumnChunks(arrays: seq<Column>, targetBytes: nat)
    returns (r: Encoding, ghost chunks: seq<Column>)
    requires targetBytes > 0
    ensures r.Encoding? ==> Flatten(chunks) == Flatten(arrays) && r.bytes == Wire(chunks)
    ensures r.Encoding? <==> AllNulFree(arrays, |arrays|)
  {
    chunks := [];
    r := Encoding([]);
    for a: nat := 0 to |arrays|
      invariant r.Encoding? && Flatten(chunks) == Flatten(arrays[..a]) && r.bytes == Wire(chunks)
      invariant AllNulFree(arrays, a)
    {
      r, chunks := EncodeArray(arrays[a], targetBytes, r.bytes, chunks);
      if r.BadRow? {
        return;
      }
      FlattenAt(arrays, a);
    }
    Whole(arrays);
  }

  lemma TakeSlice(rows: Column, start: nat, len: nat)
    requires start + len <= |rows|
    ensures rows[..start + len] == rows[..start] + rows[start..start + len]
  {
  }

  lemma SliceRows(chunks: seq<Column>, more: seq<Column>, rows: Column, start: nat, len: nat)
    requires start + len <= |rows| && Flatten(more) == Flatten(chunks) + rows[..start]
    ensures Flatten(more + [rows[start..start + len]]) == Flatten(chunks) + rows[..start + len]
  {
    var slice := rows[start..start + len];
    FlattenPush(more, slice);
    TakeSlice(rows, start, len);
    Assoc(Flatten(chunks), rows[..start], slice);
  }

  lemma SliceNulFree(rows: Column, start: nat, len: nat)
    requires start + len <= |rows| && NulFree(rows, start)
    ensures NulFree(rows[start..start + len], len) <==> NulFree(rows, start + len)
  {
    var slice := rows[start..start + len];
    assert forall i :: start <= i < start + len ==> rows[i] == slice[i - start];
  }

  method EncodeArray(rows: Column, targetBytes: nat, before: ByteString, ghost chunks: seq<Column>)
    returns (r: Encoding, ghost more: seq<Column>)
    requires before == Wire(chunks)
    ensures r.Encoding? ==> Flatten(more) == Flatten(chunks) + rows && r.bytes == Wire(more)
    ensures r.Encoding? <==> NulFree(rows, |rows|)
  {
    var step := RowsPerChunk(|rows|, EstimatedSize(rows), targetBytes);
    r, more := Encoding(before), chunks;
    var start: nat := 0;
    while start < |rows|
      invariant start <= |rows| && r.Encoding? && r.bytes == Wire(more)
      invariant Flatten(more) == Flatten(chunks) + rows[..start] && NulFree(rows, start)
    {
      var len: nat := if |rows| - start < step then |rows| - start else step;
      r, more := EncodeSlice(rows, start, len, r.bytes, chunks, more);
      if r.BadRow? {
        return;
      }
      start := start + len;
    }
    Whole(rows);
  }

  method EncodeSlice(rows: Column, start: nat, len: nat, before: ByteString, ghost chunks: seq<Column>,
                     ghost so: seq<Column>)
    returns (r: Encoding, ghost more: seq<Column>)
    requires start + len <= |rows| && before == Wire(so)
    requires Flatten(so) == Flatten(chunks) + rows[..start] && NulFree(rows, start)
    ensures r.Encoding? ==> Flatten(more) == Flatten(chunks) + rows[..start + len] && r.bytes == Wire(more)
    ensures r.Encoding? <==> NulFree(rows, start + len)
  {
    var slice := rows[start..start + len];
    SliceRows(chunks, so, rows, start, len);
    SliceNulFree(rows, start, len);
    r := EncodeStrings(slice);
    more := so;
    if r.Encoding? {
      ChunksPush(so, slice);
      r, more := Encoding(before + r.bytes), so + [slice];
    }
  }
}

/** Ingest windows: one stored column per field, with late batches kept as they arrived. */
module IngestWindow {
  import opened Wrappers
  import opened Bytes
  import opened Sequences
  import opened Shuffle
  import opened ColumnStore

  /** The encoded pieces of a batch, field by field. */
  type Fields = seq<seq<ByteString>>

  ghost predicate Wide(batches: seq<Fields>, fields: nat) {
    forall k :: 0 <= k < |batches| ==> |batches[k]| == fields
  }

  /** The bytes of field `i` in a list of batches. */
  ghost function FieldBytes(batches: seq<Fields>, fields: nat, i: nat): ByteString
    requires Wide(batches, fields) && i < fields
  {
    if batches == [] then []
    else FieldBytes(batches[..|batches| - 1], fields, i) + Flatten(batches[|batches| - 1][i])
  }

  lemma FieldBytesPush(so: ByteString, batches: seq<Fields>, b: Fields, fields: nat, i: nat)
    requires Wide(batches, fields) && |b| == fields && i < fields
    ensures Wide(batches + [b], fields)
    ensures so + FieldBytes(batches + [b], fields, i) == (so + FieldBytes(batches, fields, i)) + Flatten(b[i])
  {
    assert (batches + [b])[..|batches|] == batches;
    assert FieldBytes(batches + [b], fields, i) == FieldBytes(batches, fields, i) + Flatten(b[i]);
  }

  /** The encoded bytes of all fields. */
  function EncodedSize(batch: Fields): nat {
    if batch == [] then 0 else EncodedSize(batch[..|batch| - 1]) + |Flatten(batch[|batch| - 1])|
  }

  method CountBytes(batch: Fields) returns (n: nat)
    ensures n == EncodedSize(batch)
  {
    n := 0;
    for i: nat := 0 to |batch|
      invariant n == EncodedSize(batch[..i])
    {
      assert batch[..i + 1][..i] == batch[..i];
      n := n + |Flatten(batch[i])|;
    }
    Whole(batch);
  }

  datatype Content = Content(flushed: ByteString, disabled: bool)

  /** The column holds more bytes and, once disabled, is still so. */
  ghost predicate Grown(before: Content, column: EncodedColumn, more: ByteString)
    reads column
  {
    column.flushed == before.flushed + more && (before.disabled ==> column.compression.Disabled?)
  }

  class EncodedIngestWindow {
    const codec: Codec
    const wire: Wire
    const columns: seq<EncodedColumn>
    const arena: CompressedArena
    var retained: seq<Fields>
    var incompressible: bool
    var retainEligible: bool
    var retainArrow: bool
    var encodedBytes: nat
    ghost var appended: seq<Fields>

    ghost predicate ColumnsSound()
      reads arena, columns
    {
      && (forall i, j :: 0 <= i < j < |columns| ==> columns[i] != columns[j])
      && (forall i :: 0 <= i < |columns| ==>
            columns[i].codec == codec && columns[i].wire == wire && columns[i].pending == null
            && columns[i].Sound(arena.stored))
    }

    /** Field by field, what is stored and what is retained add up to what was appended. */
    ghost predicate Valid()
      reads this, arena, arena.slabs, columns
    {
      && arena.Valid() && ColumnsSound()
      && Wide(retained, |columns|) && Wide(appended, |columns|)
      && (wire.Lz4Wire? ==> retained == [] && !retainArrow)
      && (retained != [] ==> retainArrow)
      && (forall i :: 0 <= i < |columns| ==>
            columns[i].flushed + FieldBytes(retained, |columns|, i) == FieldBytes(appended, |columns|, i))
    }

    constructor (codec: Codec, wire: Wire, widths: seq<Option<nat>>)
      requires Lossless(codec)
      ensures Valid() && |columns| == |widths| && appended == [] && this.wire == wire && this.codec == codec
      ensures fresh(arena) && arena.slabs == [] && fresh(columns)
    {
      this.codec, this.wire := codec, wire;
      arena := new CompressedArena();
      var made := MakeColumns(codec, wire, widths);
      columns, retained, appended := made, [], [];
      incompressible, retainEligible, retainArrow, encodedBytes := false, true, false, 0;
    }

    /** What each column holds and whether it still compresses. */
    ghost function Contents(): (r: seq<Content>)
      reads columns
      ensures |r| == |columns| && forall i :: 0 <= i < |columns| ==> r[i] == Content(columns[i].flushed, columns[i].compression.Disabled?)
    {
      seq(|columns|, i requires 0 <= i < |columns| reads columns => Content(columns[i].flushed, columns[i].compression.Disabled?))
    }

    method AppendEncoded(batch: Fields)
      requires |batch| == |columns| && arena.Valid() && ColumnsSound()
      modifies arena, arena.slabs, columns, `encodedBytes
      ensures arena.Valid() && ColumnsSound()
      ensures forall i :: 0 <= i < |arena.slabs| ==> arena.slabs[i] in old(arena.slabs) || fresh(arena.slabs[i])
      ensures forall i :: 0 <= i < |columns| ==> columns[i].flushed == old(columns[i].flushed) + Flatten(batch[i])
      ensures forall i :: 0 <= i < |columns| && old(columns[i].compression).Disabled? ==> columns[i].compression.Disabled?
      ensures encodedBytes == old(encodedBytes) + EncodedSize(batch)
    {
      var added := CountBytes(batch);
      encodedBytes := encodedBytes + added;
      PushColumns(batch);
    }

    method PushColumns(batch: Fields)
      requires |batch| == |columns| && arena.Valid() && ColumnsSound()
      modifies arena, arena.slabs, columns
      ensures arena.Valid() && ColumnsSound()
      ensures forall i :: 0 <= i < |arena.slabs| ==> arena.slabs[i] in old(arena.slabs) || fresh(arena.slabs[i])
      ensures forall i :: 0 <= i < |columns| ==> columns[i].flushed == old(columns[i].flushed) + Flatten(batch[i])
      ensures forall i :: 0 <= i < |columns| && old(columns[i].compression).Disabled? ==> columns[i].compression.Disabled?
    {
      ghost var before := Contents();
      for index := 0 to |columns|
        invariant arena.Valid() && ColumnsSound()
        invariant forall i :: 0 <= i < |arena.slabs| ==> arena.slabs[i] in old(arena.slabs) || fresh(arena.slabs[i])
        invariant forall i :: 0 <= i < index ==> Grown(before[i], columns[i], Flatten(batch[i]))
        invariant forall i :: index <= i < |columns| ==> Grown(before[i], columns[i], [])
      {
        PushColumn(index, batch[index]);
      }
    }

    method PushColumn(index: nat, pieces: seq<ByteString>)
      requires index < |columns| && arena.Valid() && ColumnsSound()
      modifies arena, arena.slabs, columns[index]
      ensures arena.Valid() && ColumnsSound()
      ensures forall i :: 0 <= i < |arena.slabs| ==> arena.slabs[i] in old(arena.slabs) || fresh(arena.slabs[i])
      ensures forall i :: 0 <= i < |columns| ==>
                columns[i].flushed == if i == index then old(columns[i].flushed) + Flatten(pieces) else old(columns[i].flushed)
      ensures forall i :: 0 <= i < |columns| && old(columns[i].compression).Disabled? ==> columns[i].compression.Disabled?
    {
      columns[index].PushAll(pieces, arena);
      forall i | 0 <= i < |columns| && i != index ensures columns[i].Sound(arena.stored) {
        columns[i].SoundStable(old(arena.stored), arena.stored);
      }
    }

    /** Retained batches are uploaded after the stored chunks, so retaining starts only once. */
    method Append(batch: Fields, noNulls: bool)
      requires Valid() && |batch| == |columns|
      modifies this, arena, arena.slabs, columns
      ensures Valid() && appended == old(appended) + [batch]
      ensures forall i :: 0 <= i < |arena.slabs| ==> arena.slabs[i] in old(arena.slabs) || fresh(arena.slabs[i])
      ensures forall i :: 0 <= i < |columns| && old(columns[i].compression).Disabled? ==> columns[i].compression.Disabled?
    {
      retainEligible := retainEligible && noNulls;
      if retainArrow {
        AppendRetained(batch);
      } else {
        AppendStored(batch);
        ReconsiderRetaining();
      }
    }

    /** Incompressible windows without nulls keep later batches as they are; wire windows never do. */
    method ReconsiderRetaining()
      requires Valid() && retained == []
      modifies `incompressible, `retainArrow
      ensures Valid() && retainArrow == (incompressible && retainEligible)
      ensures incompressible <==> !wire.Lz4Wire? && StoredUpTo(|columns|) * 8 > encodedBytes * 7
    {
      var stored := StoredBytes();
      incompressible := !wire.Lz4Wire? && stored * 8 > encodedBytes * 7;
      retainArrow := incompressible && retainEligible;
    }

    method AppendRetained(batch: Fields)
      requires Valid() && |batch| == |columns| && retainArrow
      modifies `retained, `appended
      ensures Valid() && appended == old(appended) + [batch]
    {
      var n := |columns|;
      forall i | 0 <= i < n
        ensures Wide(retained + [batch], n) && Wide(appended + [batch], n)
        ensures columns[i].flushed + FieldBytes(retained + [batch], n, i) == FieldBytes(appended + [batch], n, i)
      {
        FieldBytesPush(columns[i].flushed, retained, batch, n, i);
        FieldBytesPush([], appended, batch, n, i);
      }
      retained, appended := retained + [batch], appended + [batch];
    }

    method AppendStored(batch: Fields)
      requires Valid() && |batch| == |columns| && !retainArrow
      modifies `encodedBytes, `appended, arena, arena.slabs, columns
      ensures Valid() && appended == old(appended) + [batch]
      ensures encodedBytes == old(encodedBytes) + EncodedSize(batch)
      ensures forall i :: 0 <= i < |arena.slabs| ==> arena.slabs[i] in old(arena.slabs) || fresh(arena.slabs[i])
      ensures forall i :: 0 <= i < |columns| && old(columns[i].compression).Disabled? ==> columns[i].compression.Disabled?
    {
      ghost var before := Contents();
      AppendEncoded(batch);
      RecordStored(batch, before);
    }

    /** What was appended follows a batch that has just been stored. */
    ghost method RecordStored(batch: Fields, before: seq<Content>)
      requires |batch| == |columns| == |before| && arena.Valid() && ColumnsSound() && !retainArrow && retained == []
      requires Wide(appended, |columns|)
      requires forall i :: 0 <= i < |columns| ==> before[i].flushed == FieldBytes(appended, |columns|, i)
      requires forall i :: 0 <= i < |columns| ==> columns[i].flushed == before[i].flushed + Flatten(batch[i])
      modifies `appended
      ensures Valid() && appended == old(appended) + [batch]
    {
      var n := |columns|;
      forall i | 0 <= i < n
        ensures Wide(appended + [batch], n)
        ensures columns[i].flushed + [] == FieldBytes(appended + [batch], n, i)
      {
        FieldBytesPush([], appended, batch, n, i);
        Whole(columns[i].flushed);
      }
      appended := appended + [batch];
    }

    /** The stored bytes of the first `n` columns. */
    ghost function StoredUpTo(n: nat): nat
      requires n <= |columns|
      reads columns
    {
      if n == 0 then 0 else StoredUpTo(n - 1) + StoredBytesOf(columns[n - 1].chunks)
    }

    method StoredBytes() returns (total: nat)
      ensures total == StoredUpTo(|columns|)
    {
      total := 0;
      for i: nat := 0 to |columns|
        invariant total == StoredUpTo(i)
      {
        total := total + StoredBytesOf(columns[i].chunks);
      }
    }

    /** Every column has chunks, and all of them are frames the server can inflate. */
    ghost predicate OnlyWireFrames()
      reads columns
    {
      forall i :: 0 <= i < |columns| ==> columns[i].chunks != [] && AllWireFrames(columns[i].chunks)
    }

    /** Whether the window may go over the wire as LZ4 frames. */
    method UsesWireLz4() returns (yes: bool)
      requires Valid()
      ensures yes ==> retained == [] && forall i :: 0 <= i < |columns| ==> AllWireFrames(columns[i].chunks)
      ensures wire.NoWire? ==> !yes
      ensures wire.Lz4Wire? ==> yes
      ensures wire.AutoWire? ==> (yes <==> retained == [] && OnlyWireFrames())
    {
      if wire.NoWire? {
        return false;
      }
      if wire.Lz4Wire? {
        return true;
      }
      if retained != [] {
        return false;
      }
      for i := 0 to |columns|
        invariant forall j :: 0 <= j < i ==> columns[j].chunks != [] && AllWireFrames(columns[j].chunks)
      {
        var chunks := columns[i].chunks;
        if chunks == [] || exists k :: 0 <= k < |chunks| && !WireFrame(chunks[k]) {
          return false;
        }
      }
      yes := true;
    }

    /**
     The bytes of one column as the server receives them.  A wire upload sends the stored frames,
     and every frame is one the server can decompress by itself; any other upload sends exactly
     the bytes that were appended.
     */
    method UploadColumn(index: nat, wireLz4: bool) returns (sink: Result<ByteString, string>, ghost frames: seq<ByteString>)
      requires Valid() && index < |columns|
      requires wireLz4 ==> retained == [] && AllWireFrames(columns[index].chunks)
      ensures sink.Ok?
      ensures !wireLz4 ==> sink.value == FieldBytes(appended, |columns|, index)
      ensures wireLz4 ==> sink.value == Flatten(frames)
                          && Inflated(codec, frames) == Some(FieldBytes(appended, |columns|, index))
    {
      frames := [];
      var column := columns[index];
      var chunks := column.chunks;
      var out: ByteString := [];
      ghost var slabs := arena.stored;
      ghost var plain: ByteString := [];
      for k := 0 to |chunks|
        invariant DecodeChunks(codec, chunks[..k], slabs) == Some(plain)
        invariant !wireLz4 ==> out == plain
        invariant wireLz4 ==> out == Flatten(frames) && Inflated(codec, frames) == Some(plain)
      {
        DecodeNext(codec, chunks, k, slabs);
        ghost var more := DecodeChunk(codec, chunks[k], slabs).value;
        var sent := SendChunk(chunks[k], wireLz4);
        if wireLz4 {
          InflatedPush(codec, frames, sent.value, plain, more);
          frames := frames + [sent.value];
        }
        out, plain := out + sent.value, plain + more;
      }
      assert chunks[..|chunks|] == chunks;
      assert column.flushed + [] == column.flushed;
      if !wireLz4 {
        for k := 0 to |retained|
          invariant Wide(retained[..k], |columns|)
          invariant out == column.flushed + FieldBytes(retained[..k], |columns|, index)
        {
          FieldBytesPush(column.flushed, retained[..k], retained[k], |columns|, index);
          assert retained[..k] + [retained[k]] == retained[..k + 1];
          out := out + Flatten(retained[k][index]);
        }
        assert retained[..|retained|] == retained;
      }
      sink := Ok(out);
    }

    /** One chunk of an upload; a client-only transform on the wire is an error that cannot happen. */
    method SendChunk(chunk: Chunk, wireLz4: bool) returns (sent: Result<ByteString, string>)
      requires arena.Valid() && Stored(chunk, arena.stored) && DecodeChunk(codec, chunk, arena.stored).Some?
      requires wireLz4 ==> WireFrame(chunk)
      ensures sent.Ok?
      ensures !wireLz4 ==> sent.value == DecodeChunk(codec, chunk, arena.stored).value
      ensures wireLz4 ==> codec.decompress(Frame, sent.value) == DecodeChunk(codec, chunk, arena.stored)
    {
      match chunk {
        case Raw(data) => sent := Ok(data);
        case Lz4(at, len, decodedLen, transform, format) =>
          var data := arena.SliceOf(at, len);
          if wireLz4 {
            if !transform.Plain? || !format.Frame? {
              return Err("wire-compressed ingest contains a client-only transform");
            }
            return Ok(data);
          }
          var inflated := codec.decompress(format, data);
          if inflated.None? || |inflated.value| != decodedLen {
            return Err("decompressing an ingest buffer failed");
          }
          match transform {
            case Plain => sent := Ok(inflated.value);
            case Shuffled(width) =>
              var output := new Byte[|inflated.value|];
              UnshuffleBytes(inflated.value, width, output);
              sent := Ok(output[..]);
          }
      }
    }
  }

  /** What the server makes of a sequence of LZ4 frames. */
  function Inflated(codec: Codec, frames: seq<ByteString>): Option<ByteString> {
    if frames == [] then Some([])
    else
      var init := Inflated(codec, frames[..|frames| - 1]);
      var last := codec.decompress(Frame, frames[|frames| - 1]);
      if init.Some? && last.Some? then Some(init.value + last.value) else None
  }

  lemma InflatedPush(codec: Codec, frames: seq<ByteString>, frame: ByteString, plain: ByteString, more: ByteString)
    requires Inflated(codec, frames) == Some(plain) && codec.decompress(Frame, frame) == Some(more)
    ensures Inflated(codec, frames + [frame]) == Some(plain + more)
    ensures Flatten(frames + [frame]) == Flatten(frames) + frame
  {
    After(frames, [frame]);
    FlattenPush(frames, frame);
  }

  /** Decoding a whole list decodes each next chunk. */
  lemma DecodeNext(codec: Codec, chunks: seq<Chunk>, k: nat, slabs: Slabs)
    requires AllStored(chunks, slabs) && DecodeChunks(codec, chunks, slabs).Some? && k < |chunks|
    ensures DecodeChunks(codec, chunks[..k], slabs).Some? && DecodeChunk(codec, chunks[k], slabs).Some?
    ensures DecodeChunks(codec, chunks[..k + 1], slabs)
         == Some(DecodeChunks(codec, chunks[..k], slabs).value + DecodeChunk(codec, chunks[k], slabs).value)
    decreases |chunks|
  {
    assert chunks[..k + 1][..k] == chunks[..k];
    if k + 1 == |chunks| {
      assert chunks[..k + 1] == chunks;
    } else {
      DecodeNext(codec, chunks[..|chunks| - 1], k, slabs);
      assert chunks[..|chunks| - 1][..k] == chunks[..k] && chunks[..|chunks| - 1][..k + 1] == chunks[..k + 1];
    }
  }

  /**
   Any sequence of batches, stored and uploaded: without wire compression the server receives
   exactly the encoded bytes of every field; with it, frames that inflate to those bytes.
   */
  method StoreAndUpload(codec: Codec, wire: Wire, widths: seq<Option<nat>>, batches: seq<Fields>, noNulls: seq<bool>)
    returns (window: EncodedIngestWindow, wireLz4: bool, uploads: seq<ByteString>, ghost frames: seq<seq<ByteString>>)
    requires Lossless(codec) && Wide(batches, |widths|) && |noNulls| == |batches|
    ensures window.Valid() && window.appended == batches && window.wire == wire && |window.columns| == |widths|
    ensures (wire.NoWire? ==> !wireLz4) && (wire.Lz4Wire? ==> wireLz4)
    ensures wire.AutoWire? ==> (wireLz4 <==> window.retained == [] && window.OnlyWireFrames())
    ensures |uploads| == |frames| == |widths|
    ensures !wireLz4 ==> forall i :: 0 <= i < |widths| ==> uploads[i] == FieldBytes(batches, |widths|, i)
    ensures wireLz4 ==> forall i :: 0 <= i < |widths| ==>
              uploads[i] == Flatten(frames[i]) && Inflated(codec, frames[i]) == Some(FieldBytes(batches, |widths|, i))
  {
    window := BuildWindow(codec, wire, widths, batches, noNulls);
    wireLz4 := window.UsesWireLz4();
    uploads, frames := UploadAll(window, wireLz4);
  }

  method BuildWindow(codec: Codec, wire: Wire, widths: seq<Option<nat>>, batches: seq<Fields>, noNulls: seq<bool>)
    returns (window: EncodedIngestWindow)
    requires Lossless(codec) && Wide(batches, |widths|) && |noNulls| == |batches|
    ensures window.Valid() && window.appended == batches && window.codec == codec && |window.columns| == |widths|
    ensures window.wire == wire
  {
    window := new EncodedIngestWindow(codec, wire, widths);
    for k := 0 to |batches|
      invariant window.Valid() && window.appended == batches[..k]
      invariant fresh(window) && fresh(window.arena) && fresh(window.columns)
      invariant forall i :: 0 <= i < |window.arena.slabs| ==> fresh(window.arena.slabs[i])
    {
      window.Append(batches[k], noNulls[k]);
      assert batches[..k] + [batches[k]] == batches[..k + 1];
    }
    assert batches[..|batches|] == batches;
  }

  method UploadAll(window: EncodedIngestWindow, wireLz4: bool)
    returns (uploads: seq<ByteString>, ghost frames: seq<seq<ByteString>>)
    requires window.Valid()
    requires wireLz4 ==> window.retained == []
    requires wireLz4 ==> forall i :: 0 <= i < |window.columns| ==> AllWireFrames(window.columns[i].chunks)
    ensures |uploads| == |frames| == |window.columns|
    ensures !wireLz4 ==> forall i :: 0 <= i < |uploads| ==> uploads[i] == FieldBytes(window.appended, |uploads|, i)
    ensures wireLz4 ==> forall i :: 0 <= i < |uploads| ==>
              uploads[i] == Flatten(frames[i]) && Inflated(window.codec, frames[i]) == Some(FieldBytes(window.appended, |uploads|, i))
  {
    uploads, frames := [], [];
    var n := |window.columns|;
    for i := 0 to n
      invariant |uploads| == |frames| == i
      invariant !wireLz4 ==> forall j :: 0 <= j < i ==> uploads[j] == FieldBytes(window.appended, n, j)
      invariant wireLz4 ==> forall j :: 0 <= j < i ==>
                  uploads[j] == Flatten(frames[j]) && Inflated(window.codec, frames[j]) == Some(FieldBytes(window.appended, n, j))
    {
      var sink;
      ghost var sent;
      sink, sent := window.UploadColumn(i, wireLz4);
      uploads, frames := uploads + [sink.value], frames + [sent];
    }
  }

  method MakeColumns(codec: Codec, wire: Wire, widths: seq<Option<nat>>) returns (columns: seq<EncodedColumn>)
    requires Lossless(codec)
    ensures |columns| == |widths| && fresh(columns)
    ensures forall i, j :: 0 <= i < j < |columns| ==> columns[i] != columns[j]
    ensures forall i :: 0 <= i < |columns| ==>
              columns[i].codec == codec && columns[i].wire == wire && columns[i].flushed == []
              && columns[i].pending == null && columns[i].Sound([])
  {
    columns := [];
    for k := 0 to |widths|
      invariant |columns| == k && fresh(columns)
      invariant forall i, j :: 0 <= i < j < |columns| ==> columns[i] != columns[j]
      invariant forall i :: 0 <= i < |columns| ==>
                  columns[i].codec == codec && columns[i].wire == wire && columns[i].flushed == []
                  && columns[i].pending == null && columns[i].Sound([])
    {
      var column := new EncodedColumn(codec, widths[k], wire);
      columns := columns + [column];
    }
  }
}

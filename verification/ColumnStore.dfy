/**
 The encoded column store behind an ingest window: a bump arena for compressed chunks, columns
 that cut their byte stream into chunks and compress them when it pays, and windows that keep one
 such column per field.
 */
module ColumnStore {
  import opened Arithmetic
  import opened Wrappers
  import opened Bytes
  import opened Sequences
  import opened Shuffle

  const ENCODE_CHUNK_BYTES := 1024 * 1024
  const MIN_ENCODE_BUFFER_BYTES := 64 * 1024
  const COMPRESSED_ARENA_SLAB_BYTES := 16 * 1024 * 1024
  const COMPRESSION_PROBE_BYTES := 256 * 1024

  datatype Format = Block | Frame
  datatype Transform = Plain | Shuffled(width: nat)
  datatype Wire = NoWire | AutoWire | Lz4Wire
  datatype Mode = Unknown | Enabled(transform: Transform) | Disabled

  /** LZ4 as a pair of functions. */
  datatype Codec = Codec(compress: (Format, ByteString) -> ByteString,
                         decompress: (Format, ByteString) -> Option<ByteString>)

  ghost predicate Lossless(codec: Codec) {
    forall f, s :: codec.decompress(f, codec.compress(f, s)) == Some(s)
  }

  datatype CompressedData = CompressedData(slab: nat, offset: nat)

  datatype Chunk =
    | Raw(data: ByteString)
    | Lz4(at: CompressedData, len: nat, decodedLen: nat, transform: Transform, format: Format)

  // ----- Reading stored chunks back -----

  /** The stored bytes of the arena's slabs. */
  type Slabs = seq<ByteString>

  predicate InSlabs(d: CompressedData, len: nat, slabs: Slabs) {
    d.slab < |slabs| && d.offset + len <= |slabs[d.slab]|
  }

  predicate Extends(before: Slabs, after: Slabs) {
    && |before| <= |after|
    && forall i :: 0 <= i < |before| ==> before[i] <= after[i]
  }

  predicate Stored(c: Chunk, slabs: Slabs) {
    c.Lz4? ==> InSlabs(c.at, c.len, slabs)
  }

  function Slice(d: CompressedData, len: nat, slabs: Slabs): ByteString
    requires InSlabs(d, len, slabs)
  {
    slabs[d.slab][d.offset..d.offset + len]
  }

  function Restore(transform: Transform, s: ByteString): Option<ByteString> {
    match transform
    case Plain => Some(s)
    case Shuffled(width) => if width > 0 then Some(Unshuffled(s, width)) else None
  }

  /** The upload's decoding of one chunk: slice, decompress, check the length, unshuffle. */
  function DecodeChunk(codec: Codec, c: Chunk, slabs: Slabs): Option<ByteString>
    requires Stored(c, slabs)
  {
    match c
    case Raw(data) => Some(data)
    case Lz4(at, len, decodedLen, transform, format) =>
      var s := codec.decompress(format, Slice(at, len, slabs));
      if s.Some? && |s.value| == decodedLen then Restore(transform, s.value) else None
  }

  predicate AllStored(chunks: seq<Chunk>, slabs: Slabs) {
    forall i :: 0 <= i < |chunks| ==> Stored(chunks[i], slabs)
  }

  function DecodeChunks(codec: Codec, chunks: seq<Chunk>, slabs: Slabs): Option<ByteString>
    requires AllStored(chunks, slabs)
  {
    if chunks == [] then Some([])
    else
      var init := DecodeChunks(codec, chunks[..|chunks| - 1], slabs);
      var last := DecodeChunk(codec, chunks[|chunks| - 1], slabs);
      if init.Some? && last.Some? then Some(init.value + last.value) else None
  }

  lemma ChunkStable(codec: Codec, c: Chunk, before: Slabs, after: Slabs)
    requires Extends(before, after) && Stored(c, before)
    ensures Stored(c, after) && DecodeChunk(codec, c, before) == DecodeChunk(codec, c, after)
  {
    if c.Lz4? {
      assert before[c.at.slab] <= after[c.at.slab];
      assert Slice(c.at, c.len, before) == Slice(c.at, c.len, after);
    }
  }

  /** Later arena stores never disturb earlier chunks. */
  lemma {:induction false} DecodeStable(codec: Codec, chunks: seq<Chunk>, before: Slabs, after: Slabs)
    requires Extends(before, after) && AllStored(chunks, before)
    ensures AllStored(chunks, after)
    ensures DecodeChunks(codec, chunks, before) == DecodeChunks(codec, chunks, after)
  {
    if chunks != [] {
      DecodeStable(codec, chunks[..|chunks| - 1], before, after);
      ChunkStable(codec, chunks[|chunks| - 1], before, after);
      assert forall i :: 0 <= i < |chunks| - 1 ==> chunks[i] == chunks[..|chunks| - 1][i];
    }
  }

  /** A newly stored chunk decodes after the ones before it. */
  lemma DecodePush(codec: Codec, chunks: seq<Chunk>, c: Chunk, before: Slabs, after: Slabs, so: ByteString, more: ByteString)
    requires Extends(before, after) && AllStored(chunks, before) && Stored(c, after)
    requires DecodeChunks(codec, chunks, before) == Some(so) && DecodeChunk(codec, c, after) == Some(more)
    ensures AllStored(chunks + [c], after) && DecodeChunks(codec, chunks + [c], after) == Some(so + more)
  {
    DecodeStable(codec, chunks, before, after);
    assert (chunks + [c])[..|chunks|] == chunks;
  }

  lemma BumpExtends(before: Slabs, grown: Slabs, last: nat, bytes: ByteString)
    requires grown == before || grown == before + [[]]
    requires last + 1 == |grown|
    ensures var after := grown[last := grown[last] + bytes];
            Extends(before, after) && after[last][|grown[last]|..|grown[last]| + |bytes|] == bytes
  {
  }

  // ----- The arena -----

  class CompressedArena {
    var slabs: seq<array<Byte>>
    var used: seq<nat>
    ghost var stored: Slabs

    constructor ()
      ensures Valid() && stored == [] && slabs == []
    {
      slabs, used, stored := [], [], [];
    }

    ghost predicate Valid()
      reads this, slabs
    {
      && |slabs| == |used| == |stored|
      && (forall i, j :: 0 <= i < j < |slabs| ==> slabs[i] != slabs[j])
      && (forall i :: 0 <= i < |slabs| ==> used[i] <= slabs[i].Length && stored[i] == slabs[i][..used[i]])
    }

    /** Bump allocation in the last slab; a full slab is left behind for a new one. */
    method Store(bytes: ByteString) returns (data: CompressedData)
      requires Valid()
      modifies this, slabs
      ensures Valid()
      ensures forall i :: 0 <= i < |slabs| ==> slabs[i] in old(slabs) || fresh(slabs[i])
      ensures Extends(old(stored), stored)
      ensures InSlabs(data, |bytes|, stored) && Slice(data, |bytes|, stored) == bytes
    {
      var last := |slabs| - 1;
      if last < 0 || slabs[last].Length - used[last] < |bytes| {
        AddSlab(Max(COMPRESSED_ARENA_SLAB_BYTES, |bytes|));
        last := last + 1;
      }
      BumpExtends(old(stored), stored, last, bytes);
      data := Bump(last, bytes);
    }

    method AddSlab(capacity: nat)
      requires Valid()
      modifies this
      ensures Valid() && |slabs| == |old(slabs)| + 1
      ensures slabs[..|old(slabs)|] == old(slabs) && fresh(slabs[|old(slabs)|]) && slabs[|old(slabs)|].Length == capacity
      ensures stored == old(stored) + [[]] && used[|old(slabs)|] == 0
    {
      var slab := new Byte[capacity];
      slabs, used, stored := slabs + [slab], used + [0], stored + [[]];
    }

    method Bump(last: nat, bytes: ByteString) returns (data: CompressedData)
      requires Valid() && last + 1 == |slabs| && slabs[last].Length - used[last] >= |bytes|
      modifies this, slabs
      ensures Valid() && slabs == old(slabs)
      ensures stored == old(stored)[last := old(stored)[last] + bytes]
      ensures data == CompressedData(last, old(used)[last])
    {
      var offset := used[last];
      var slab := slabs[last];
      forall k | 0 <= k < |bytes| {
        slab[offset + k] := bytes[k];
      }
      assert slab[..offset] == old(slab[..offset]);
      used := used[last := offset + |bytes|];
      stored := stored[last := stored[last] + bytes];
      assert slab[..offset + |bytes|] == stored[last];
      data := CompressedData(last, offset);
    }

    method SliceOf(data: CompressedData, len: nat) returns (bytes: ByteString)
      requires Valid() && InSlabs(data, len, stored)
      ensures bytes == Slice(data, len, stored)
    {
      bytes := slabs[data.slab][data.offset..data.offset + len];
    }
  }

  // ----- Compression of one chunk -----

  /** Plain LZ4 frames are the only chunks that may go over the wire as they are. */
  predicate WireFrame(c: Chunk) {
    c.Lz4? && c.transform.Plain? && c.format.Frame?
  }

  predicate AllWireFrames(chunks: seq<Chunk>) {
    forall i :: 0 <= i < |chunks| ==> WireFrame(chunks[i])
  }

  function Apply(transform: Transform, s: ByteString): ByteString {
    if transform.Shuffled? && transform.width > 0 then Shuffle.Shuffled(s, transform.width) else s
  }

  predicate WorthIt(compressed: nat, input: nat) {
    compressed * 8 <= input * 7
  }

  /** The smaller of the probes: the sample as it is, and shuffled when it holds at least one wide value. */
  function SmallestProbe(codec: Codec, sample: ByteString, width: Option<nat>, format: Format): nat {
    var plain := |codec.compress(format, sample)|;
    if width.Some? && 1 < width.value <= |sample|
    then Min(plain, |codec.compress(format, Shuffle.Shuffled(sample, width.value))|) else plain
  }

  /** Probes the head of a chunk, plain and shuffled; no transform when neither saves an eighth. */
  function SelectTransform(codec: Codec, input: ByteString, fixedWidth: Option<nat>, allowShuffle: bool, format: Format):
    (best: Option<Transform>)
    ensures best.Some? && best.value.Shuffled? ==> allowShuffle && fixedWidth == Some(best.value.width) && best.value.width > 1
    ensures var sample := input[..Min(COMPRESSION_PROBE_BYTES, |input|)];
            var smallest := SmallestProbe(codec, sample, if allowShuffle then fixedWidth else None, format);
            && (best.Some? <==> WorthIt(smallest, |sample|))
            && (best.Some? ==> |codec.compress(format, Apply(best.value, sample))| == smallest)
  {
    var sample := input[..Min(COMPRESSION_PROBE_BYTES, |input|)];
    var plain := |codec.compress(format, sample)|;
    if allowShuffle && fixedWidth.Some? && fixedWidth.value > 1 && |sample| >= fixedWidth.value
       && |codec.compress(format, Shuffle.Shuffled(sample, fixedWidth.value))| < plain
    then
      if WorthIt(|codec.compress(format, Shuffle.Shuffled(sample, fixedWidth.value))|, |sample|)
      then Some(Transform.Shuffled(fixedWidth.value)) else None
    else if WorthIt(plain, |sample|) then Some(Plain) else None
  }

  lemma RestoreApply(transform: Transform, s: ByteString)
    requires transform.Shuffled? ==> transform.width > 0
    ensures Restore(transform, Apply(transform, s)) == Some(s) && |Apply(transform, s)| == |s|
  {
    if transform.Shuffled? {
      UnshuffleInvertsShuffle(s, transform.width);
    }
  }

  lemma CompressedDecodes(codec: Codec, c: Chunk, input: ByteString, slabs: Slabs)
    requires Lossless(codec) && c.Lz4? && Stored(c, slabs) && c.decodedLen == |input|
    requires c.transform.Shuffled? ==> c.transform.width > 0
    requires Slice(c.at, c.len, slabs) == codec.compress(c.format, Apply(c.transform, input))
    ensures DecodeChunk(codec, c, slabs) == Some(input)
  {
    RestoreApply(c.transform, input);
  }

  method CopyInto(buffer: array<Byte>, start: nat, bytes: ByteString, count: nat)
    requires start + count <= buffer.Length && count <= |bytes|
    modifies buffer
    ensures buffer[..start + count] == old(buffer[..start]) + bytes[..count]
  {
    forall k | 0 <= k < count {
      buffer[start + k] := bytes[k];
    }
  }

  lemma Resplit(so: ByteString, bytes: ByteString, k: nat)
    requires k <= |bytes|
    ensures (so + bytes[..k]) + bytes[k..] == so + bytes
  {
    assert bytes[..k] + bytes[k..] == bytes;
  }

  class EncodedColumn {
    const codec: Codec
    const fixedWidth: Option<nat>
    const wire: Wire
    var chunks: seq<Chunk>
    var pending: array?<Byte>
    var pendingLen: nat
    var compression: Mode
    ghost var flushed: ByteString

    constructor (codec: Codec, fixedWidth: Option<nat>, wire: Wire)
      requires Lossless(codec)
      ensures Sound([]) && flushed == [] && pending == null && chunks == []
      ensures this.codec == codec && this.wire == wire
    {
      this.codec, this.fixedWidth, this.wire := codec, fixedWidth, wire;
      chunks, pending, pendingLen, compression, flushed := [], null, 0, Unknown, [];
    }

    /** The stored chunks decode to `flushed`, and a wire-compressed column holds only wire frames. */
    ghost predicate Sound(slabs: Slabs)
      reads this
    {
      && Lossless(codec)
      && AllStored(chunks, slabs)
      && DecodeChunks(codec, chunks, slabs) == Some(flushed)
      && (compression.Enabled? && compression.transform.Shuffled? ==> compression.transform.width > 0)
      && (wire.Lz4Wire? ==> AllWireFrames(chunks) && !compression.Disabled?
                            && (compression.Enabled? ==> compression.transform.Plain?))
    }

    ghost predicate BufferValid()
      reads this
    {
      pending != null ==> pendingLen <= pending.Length
    }

    /** Everything pushed so far. */
    ghost function Content(): ByteString
      requires BufferValid()
      reads this, pending
    {
      flushed + if pending != null then pending[..pendingLen] else []
    }

    /** This column's buffer is no part of the arena. */
    ghost predicate Apart(arena: CompressedArena)
      reads this, arena
    {
      forall i :: 0 <= i < |arena.slabs| ==> arena.slabs[i] != pending
    }

    lemma SoundStable(before: Slabs, after: Slabs)
      requires Sound(before) && Extends(before, after)
      ensures Sound(after)
    {
      DecodeStable(codec, chunks, before, after);
    }

    method AddChunk(chunk: Chunk, ghost input: ByteString, ghost before: Slabs, ghost after: Slabs)
      requires Sound(before) && Extends(before, after)
      requires Stored(chunk, after) && DecodeChunk(codec, chunk, after) == Some(input)
      requires wire.Lz4Wire? ==> WireFrame(chunk)
      modifies `chunks, `flushed
      ensures Sound(after) && flushed == old(flushed) + input
    {
      DecodePush(codec, chunks, chunk, before, after, flushed, input);
      chunks := chunks + [chunk];
      flushed := flushed + input;
    }

    method StoreRaw(input: ByteString, ghost slabs: Slabs)
      requires Sound(slabs) && !wire.Lz4Wire?
      modifies `chunks, `flushed
      ensures Sound(slabs) && flushed == old(flushed) + input
    {
      AddChunk(Raw(input), input, slabs, slabs);
    }

    method StoreCompressed(input: ByteString, transform: Transform, format: Format, arena: CompressedArena)
      requires arena.Valid() && Sound(arena.stored)
      requires transform.Shuffled? ==> transform.width > 0
      requires wire.Lz4Wire? ==> transform.Plain? && format.Frame?
      modifies `chunks, `flushed, `compression, arena, arena.slabs
      ensures arena.Valid() && Extends(old(arena.stored), arena.stored)
      ensures forall i :: 0 <= i < |arena.slabs| ==> arena.slabs[i] in old(arena.slabs) || fresh(arena.slabs[i])
      ensures Sound(arena.stored) && flushed == old(flushed) + input
      ensures compression == Enabled(transform)
    {
      var compressed := codec.compress(format, Apply(transform, input));
      var data := arena.Store(compressed);
      var chunk := Lz4(data, |compressed|, |input|, transform, format);
      CompressedDecodes(codec, chunk, input, arena.stored);
      compression := Enabled(transform);
      AddChunk(chunk, input, old(arena.stored), arena.stored);
    }

    /** The transform a chunk would be compressed with, or none when it should stay raw. */
    function ChosenTransform(input: ByteString): (t: Option<Transform>)
      requires compression.Enabled? && compression.transform.Shuffled? ==> compression.transform.width > 0
      requires wire.Lz4Wire? ==> !compression.Disabled? && (compression.Enabled? ==> compression.transform.Plain?)
      reads this
      ensures t.Some? && t.value.Shuffled? ==> t.value.width > 0
      ensures wire.Lz4Wire? ==> t == Some(Plain)
      ensures compression.Disabled? ==> t.None?
    {
      match compression
      case Disabled => None
      case Enabled(transform) => Some(transform)
      case Unknown =>
        if wire.Lz4Wire? then Some(Plain)
        else SelectTransform(codec, input, fixedWidth, true, Block)
    }

    /** Compresses when it pays or when the wire demands it; once raw, a column stays raw. */
    method StoreChunk(input: ByteString, arena: CompressedArena)
      requires arena.Valid() && Sound(arena.stored)
      modifies `chunks, `flushed, `compression, arena, arena.slabs
      ensures arena.Valid() && Extends(old(arena.stored), arena.stored)
      ensures forall i :: 0 <= i < |arena.slabs| ==> arena.slabs[i] in old(arena.slabs) || fresh(arena.slabs[i])
      ensures Sound(arena.stored) && flushed == old(flushed) + input
      ensures old(compression).Disabled? ==> compression.Disabled?
    {
      var transform := ChosenTransform(input);
      if transform.Some? {
        var format := if !wire.NoWire? && transform.value.Plain? then Frame else Block;
        var compressed := |codec.compress(format, Apply(transform.value, input))|;
        if wire.Lz4Wire? || WorthIt(compressed, |input|) {
          StoreCompressed(input, transform.value, format, arena);
          return;
        }
      }
      compression := Disabled;
      StoreRaw(input, arena.stored);
    }

    method FinishPending(arena: CompressedArena)
      requires arena.Valid() && Sound(arena.stored) && BufferValid()
      modifies this, arena, arena.slabs
      ensures arena.Valid() && Extends(old(arena.stored), arena.stored)
      ensures forall i :: 0 <= i < |arena.slabs| ==> arena.slabs[i] in old(arena.slabs) || fresh(arena.slabs[i])
      ensures Sound(arena.stored) && flushed == old(Content()) && pending == null
      ensures old(compression).Disabled? ==> compression.Disabled?
    {
      if pending == null {
        return;
      }
      var input := pending[..pendingLen];
      pending := null;
      StoreChunk(input, arena);
    }

    /** Copies as much as fits into the pending buffer, opening one when there is none. */
    method Buffer(bytes: ByteString) returns (copied: nat)
      requires bytes != [] && (pending != null ==> pendingLen < pending.Length)
      modifies `pending, `pendingLen, pending
      ensures BufferValid() && pending != null && (pending == old(pending) || fresh(pending))
      ensures 0 < copied <= |bytes| && Content() == old(Content()) + bytes[..copied]
      ensures copied < |bytes| ==> pendingLen == pending.Length
    {
      if pending == null {
        var capacity := Max(MIN_ENCODE_BUFFER_BYTES, Min(|bytes|, ENCODE_CHUNK_BYTES));
        pending, pendingLen := new Byte[capacity], 0;
      }
      copied := Min(|bytes|, pending.Length - pendingLen);
      ghost var before := pending[..pendingLen];
      CopyInto(pending, pendingLen, bytes, copied);
      pendingLen := pendingLen + copied;
      assert flushed + (before + bytes[..copied]) == (flushed + before) + bytes[..copied];
    }

    method PushSome(bytes: ByteString, arena: CompressedArena) returns (rest: ByteString)
      requires arena.Valid() && Sound(arena.stored) && Apart(arena) && bytes != []
      requires pending != null ==> pendingLen < pending.Length
      modifies this, pending, arena, arena.slabs
      ensures arena.Valid() && Extends(old(arena.stored), arena.stored)
      ensures forall i :: 0 <= i < |arena.slabs| ==> arena.slabs[i] in old(arena.slabs) || fresh(arena.slabs[i])
      ensures Sound(arena.stored) && Apart(arena) && BufferValid()
      ensures |rest| < |bytes| && Content() + rest == old(Content()) + bytes
      ensures pending != null ==> pendingLen < pending.Length && (pending == old(pending) || fresh(pending))
      ensures old(compression).Disabled? ==> compression.Disabled?
    {
      var copied := Buffer(bytes);
      rest := bytes[copied..];
      Resplit(old(Content()), bytes, copied);
      if pendingLen == pending.Length {
        FinishPending(arena);
      }
    }

    /** Appends bytes to the column; full buffers are compressed or stored as they fill up. */
    method Push(bytes: ByteString, arena: CompressedArena)
      requires arena.Valid() && Sound(arena.stored) && Apart(arena)
      requires pending != null ==> pendingLen < pending.Length
      modifies this, pending, arena, arena.slabs
      ensures arena.Valid() && Extends(old(arena.stored), arena.stored)
      ensures forall i :: 0 <= i < |arena.slabs| ==> arena.slabs[i] in old(arena.slabs) || fresh(arena.slabs[i])
      ensures Sound(arena.stored) && Apart(arena) && BufferValid() && Content() == old(Content()) + bytes
      ensures pending != null ==> pendingLen < pending.Length && (pending == old(pending) || fresh(pending))
      ensures old(compression).Disabled? ==> compression.Disabled?
    {
      var rest := bytes;
      while rest != []
        invariant arena.Valid() && Extends(old(arena.stored), arena.stored)
        invariant forall i :: 0 <= i < |arena.slabs| ==> arena.slabs[i] in old(arena.slabs) || fresh(arena.slabs[i])
        invariant Sound(arena.stored) && Apart(arena) && BufferValid()
        invariant Content() + rest == old(Content()) + bytes
        invariant pending != null ==> pendingLen < pending.Length && (pending == old(pending) || fresh(pending))
        invariant old(compression).Disabled? ==> compression.Disabled?
        decreases |rest|
      {
        rest := PushSome(rest, arena);
      }
    }

    /** The pieces of one column of one batch, leaving no buffer behind. */
    method PushAll(pieces: seq<ByteString>, arena: CompressedArena)
      requires arena.Valid() && Sound(arena.stored) && pending == null
      modifies this, arena, arena.slabs
      ensures arena.Valid() && Extends(old(arena.stored), arena.stored)
      ensures forall i :: 0 <= i < |arena.slabs| ==> arena.slabs[i] in old(arena.slabs) || fresh(arena.slabs[i])
      ensures Sound(arena.stored) && pending == null && flushed == old(flushed) + Flatten(pieces)
      ensures old(compression).Disabled? ==> compression.Disabled?
    {
      for k := 0 to |pieces|
        invariant arena.Valid() && Extends(old(arena.stored), arena.stored)
        invariant forall i :: 0 <= i < |arena.slabs| ==> arena.slabs[i] in old(arena.slabs) || fresh(arena.slabs[i])
        invariant Sound(arena.stored) && Apart(arena) && BufferValid()
        invariant Content() == old(flushed) + Flatten(pieces[..k])
        invariant pending != null ==> pendingLen < pending.Length && fresh(pending)
        invariant old(compression).Disabled? ==> compression.Disabled?
      {
        Push(pieces[k], arena);
        FlattenMore(old(flushed), pieces, k);
      }
      assert pieces[..|pieces|] == pieces;
      FinishPending(arena);
    }
  }

  function StoredBytesOf(chunks: seq<Chunk>): nat {
    if chunks == [] then 0
    else StoredBytesOf(chunks[1..]) + (if chunks[0].Raw? then |chunks[0].data| else chunks[0].len)
  }

  lemma FlattenMore(so: ByteString, pieces: seq<ByteString>, k: nat)
    requires k < |pieces|
    ensures so + Flatten(pieces[..k + 1]) == (so + Flatten(pieces[..k])) + pieces[k]
  {
    Snoc(pieces, k);
    FlattenPush(pieces[..k], pieces[k]);
    Assoc(so, Flatten(pieces[..k]), pieces[k]);
  }
}

/** Writing an Xexportbin frame the way the server does, and reading it back. */
module ExportFrameBuilder {
  import opened Bytes
  import opened Sequences
  import opened FrameHeader
  import opened ExportFrame

  const ZERO: ByteString := [0]

  // ----- Padding -----

  /** How far the next multiple of 32 is. */
  function Missing(n: nat): nat {
    (32 - n % 32) % 32
  }

  lemma MissingStep(n: nat)
    requires n % 32 != 0
    ensures Missing(n + 1) == Missing(n) - 1
  {
    var q, r := n / 32, n % 32;
    assert n == 32 * q + r;
    assert (n + 1) % 32 == if r == 31 then 0 else r + 1;
  }

  /** Zero bytes up to the next multiple of 32. */
  function Pad(s: ByteString): (r: ByteString)
    ensures s <= r
    decreases Missing(|s|)
  {
    if |s| % 32 == 0 then s else
      MissingStep(|s|);
      Pad(s + ZERO)
  }

  lemma {:induction false} PadAligned(s: ByteString)
    ensures |Pad(s)| % 32 == 0 && |Pad(s)| == |s| + Missing(|s|)
    decreases Missing(|s|)
  {
    if |s| % 32 != 0 {
      MissingStep(|s|);
      PadAligned(s + ZERO);
    }
  }

  method PadFrame(s: ByteString) returns (r: ByteString)
    ensures r == Pad(s)
  {
    r := s;
    while |r| % 32 != 0
      invariant Pad(r) == Pad(s)
      decreases Missing(|r|)
    {
      MissingStep(|r|);
      r := r + ZERO;
    }
  }

  // ----- Columns and their starts -----

  /** The header and the first `n` columns. */
  function Body(header: ByteString, columns: seq<ByteString>, n: nat): ByteString
    requires n <= |columns|
  {
    if n == 0 then header else Pad(Body(header, columns, n - 1)) + columns[n - 1]
  }

  /** Where the first `n` columns start, and where the next part would. */
  function Starts(header: ByteString, columns: seq<ByteString>, n: nat): (starts: seq<nat>)
    requires n <= |columns|
    ensures |starts| == n + 1 && starts[n] == |Pad(Body(header, columns, n))|
  {
    (if n == 0 then [] else Starts(header, columns, n - 1)) + [|Pad(Body(header, columns, n))|]
  }

  /** Columns start at multiples of 32. */
  lemma {:induction false} StartsAligned(header: ByteString, columns: seq<ByteString>, n: nat)
    requires n <= |columns|
    ensures forall i :: 0 <= i <= n ==> Starts(header, columns, n)[i] % 32 == 0
  {
    PadAligned(Body(header, columns, n));
    if n > 0 {
      StartsAligned(header, columns, n - 1);
    }
  }

  /** One table entry for each column, each number in 64 bits. */
  ghost predicate Fit(columns: seq<ByteString>, starts: seq<nat>) {
    && |starts| == |columns| + 1 && starts[|columns|] <= I64_MAX
    && forall i :: 0 <= i < |columns| ==> starts[i] <= I64_MAX && |columns[i]| <= I64_MAX
  }

  function Entry(start: nat, length: nat): (e: ByteString)
    requires start <= I64_MAX && length <= I64_MAX
    ensures |e| == 16
  {
    I64Bytes(start) + I64Bytes(length)
  }

  ghost function Entries(columns: seq<ByteString>, starts: seq<nat>, n: nat): (t: seq<ByteString>)
    requires n <= |columns| && Fit(columns, starts)
    ensures |t| == n
  {
    seq(n, i requires 0 <= i < n => Entry(starts[i], |columns[i]|))
  }

  ghost function Built(header: ByteString, columns: seq<ByteString>): ByteString
    requires Fit(columns, Starts(header, columns, |columns|))
  {
    var starts := Starts(header, columns, |columns|);
    Pad(Body(header, columns, |columns|)) + (Flatten(Entries(columns, starts, |columns|)) + I64Bytes(starts[|columns|]))
  }

  /** Columns one after the other, noting where each starts; then the table of contents. */
  method BuildFrame(resultId: int, rowCount: nat, startRow: nat, columns: seq<ByteString>) returns (frame: ByteString)
    requires var header := HeaderText(resultId, |columns|, rowCount, startRow);
             Fit(columns, Starts(header, columns, |columns|))
    ensures frame == Built(HeaderText(resultId, |columns|, rowCount, startRow), columns)
  {
    var header := HeaderText(resultId, |columns|, rowCount, startRow);
    var starts;
    frame, starts := AppendColumns(header, columns);
    var toc := WriteToc(columns, starts);
    frame := frame + (toc + I64Bytes(starts[|columns|]));
  }

  method AppendColumns(header: ByteString, columns: seq<ByteString>) returns (frame: ByteString, starts: seq<nat>)
    ensures frame == Pad(Body(header, columns, |columns|)) && starts == Starts(header, columns, |columns|)
    ensures |frame| % 32 == 0 && forall i :: 0 <= i < |starts| ==> starts[i] % 32 == 0
  {
    frame := PadFrame(header);
    starts := [|frame|];
    for i: nat := 0 to |columns|
      invariant frame == Pad(Body(header, columns, i)) && starts == Starts(header, columns, i)
    {
      frame := PadFrame(frame + columns[i]);
      starts := starts + [|frame|];
    }
    PadAligned(Body(header, columns, |columns|));
    StartsAligned(header, columns, |columns|);
  }

  method WriteToc(columns: seq<ByteString>, starts: seq<nat>) returns (toc: ByteString)
    requires Fit(columns, starts)
    ensures toc == Flatten(Entries(columns, starts, |columns|))
  {
    toc := [];
    for i: nat := 0 to |columns|
      invariant toc == Flatten(Entries(columns, starts, i))
    {
      var entry := Entry(starts[i], |columns[i]|);
      FlattenPush(Entries(columns, starts, i), entry);
      EntriesPush(columns, starts, i);
      toc := toc + entry;
    }
  }

  lemma EntriesPush(columns: seq<ByteString>, starts: seq<nat>, i: nat)
    requires i < |columns| && Fit(columns, starts)
    ensures Entries(columns, starts, i + 1) == Entries(columns, starts, i) + [Entry(starts[i], |columns[i]|)]
  {
  }

  // ----- Where everything is -----

  /** The bytes of `b` at position `p`. */
  ghost predicate Has(s: ByteString, p: nat, b: ByteString) {
    p + |b| <= |s| && s[p..p + |b|] == b
  }

  lemma HasPart(s: ByteString, p: nat, b: ByteString, i: nat, j: nat)
    requires Has(s, p, b) && i <= j <= |b|
    ensures Has(s, p + i, b[i..j])
  {
    SliceOfSlice(s, p, p + |b|, i, j);
  }

  lemma HasMore(s: ByteString, p: nat, b: ByteString, more: ByteString)
    requires Has(s, p, b)
    ensures Has(s + more, p, b)
  {
    Before(s, more, p, p + |b|);
  }

  /** The columns are at their starts and do not run into each other. */
  ghost predicate ColumnsAt(s: ByteString, columns: seq<ByteString>, starts: seq<nat>, n: nat) {
    && n <= |columns| && n < |starts| && |s| == starts[n]
    && forall i :: 0 <= i < n ==> Has(s, starts[i], columns[i]) && starts[i] + |columns[i]| <= starts[i + 1]
  }

  lemma {:induction false} BodyHasColumns(header: ByteString, columns: seq<ByteString>, n: nat)
    requires n <= |columns|
    ensures header <= Pad(Body(header, columns, n)) && |header| <= Starts(header, columns, n)[0]
    ensures ColumnsAt(Pad(Body(header, columns, n)), columns, Starts(header, columns, n), n)
  {
    if n > 0 {
      BodyHasColumns(header, columns, n - 1);
      var before, column := Pad(Body(header, columns, n - 1)), columns[n - 1];
      ColumnAdded(before, column, Pad(before + column), columns, Starts(header, columns, n - 1), n - 1);
    }
  }

  lemma ColumnAdded(before: ByteString, column: ByteString, after: ByteString, columns: seq<ByteString>, starts: seq<nat>, n: nat)
    requires n < |columns| && |starts| == n + 1 && ColumnsAt(before, columns, starts, n) && columns[n] == column
    requires before + column <= after
    ensures ColumnsAt(after, columns, starts + [|after|], n + 1)
  {
    var more := after[|before|..];
    assert after == before + more;
    forall i | 0 <= i < n + 1
      ensures Has(after, (starts + [|after|])[i], columns[i])
           && (starts + [|after|])[i] + |columns[i]| <= (starts + [|after|])[i + 1]
    {
      if i < n {
        HasMore(before, starts[i], columns[i], more);
      } else {
        assert after[..|before| + |column|] == before + column;
      }
    }
  }

  /** A frame with its header, columns, table entries and table position in place. */
  ghost predicate Laid(frame: ByteString, header: ByteString, columns: seq<ByteString>, starts: seq<nat>) {
    && Fit(columns, starts) && header <= frame && |header| <= starts[0]
    && |frame| == starts[|columns|] + 16 * |columns| + 8 && frame[|frame| - 8..] == I64Bytes(starts[|columns|])
    && forall i :: 0 <= i < |columns| ==> LaidColumn(frame, columns, starts, i)
  }

  ghost predicate LaidColumn(frame: ByteString, columns: seq<ByteString>, starts: seq<nat>, i: int)
    requires Fit(columns, starts) && 0 <= i < |columns|
  {
    && Has(frame, starts[i], columns[i]) && starts[i] + |columns[i]| <= starts[i + 1]
    && Has(frame, starts[|columns|] + 16 * i, Entry(starts[i], |columns[i]|))
  }

  lemma LaidOut(body: ByteString, header: ByteString, columns: seq<ByteString>, starts: seq<nat>)
    requires Fit(columns, starts) && header <= body && |header| <= starts[0] && ColumnsAt(body, columns, starts, |columns|)
    ensures Laid(body + (Flatten(Entries(columns, starts, |columns|)) + I64Bytes(starts[|columns|])), header, columns, starts)
  {
    var toc: ByteString, tail: ByteString := Flatten(Entries(columns, starts, |columns|)), I64Bytes(starts[|columns|]);
    var frame := body + (toc + tail);
    Assoc(body, toc, tail);
    EntriesLength(columns, starts);
    After(body + toc, tail);
    forall i | 0 <= i < |columns| ensures LaidColumn(frame, columns, starts, i) {
      HasMore(body, starts[i], columns[i], toc + tail);
      EntryInToc(body, columns, starts, i, tail);
    }
  }

  lemma EntriesLength(columns: seq<ByteString>, starts: seq<nat>)
    requires Fit(columns, starts)
    ensures |Flatten(Entries(columns, starts, |columns|))| == 16 * |columns|
  {
    if columns != [] {
      FlattenFixed(Entries(columns, starts, |columns|), 0);
    }
  }

  lemma EntryInToc(body: ByteString, columns: seq<ByteString>, starts: seq<nat>, i: nat, tail: ByteString)
    requires Fit(columns, starts) && i < |columns|
    ensures Has(body + (Flatten(Entries(columns, starts, |columns|)) + tail), |body| + 16 * i, Entry(starts[i], |columns[i]|))
  {
    var entries := Entries(columns, starts, |columns|);
    FlattenFixed(entries, i);
    HasMore(Flatten(entries), 16 * i, entries[i], tail);
    HasAfter(body, Flatten(entries) + tail, 16 * i, entries[i]);
  }

  lemma HasAfter(a: ByteString, s: ByteString, p: nat, b: ByteString)
    requires Has(s, p, b)
    ensures Has(a + s, |a| + p, b)
  {
    After(a, s);
    SliceOfSlice(a + s, |a|, |a + s|, p, p + |b|);
    Whole(a + s);
  }

  // ----- Reading it back -----

  lemma EntryReads(frame: ByteString, p: nat, start: nat, length: nat)
    requires start <= I64_MAX && length <= I64_MAX && Has(frame, p, Entry(start, length))
    ensures p + 16 <= |frame| && I64Of(frame[p..p + 8]) == start && I64Of(frame[p + 8..p + 16]) == length
  {
    var e := Entry(start, length);
    HasPart(frame, p, e, 0, 8);
    HasPart(frame, p, e, 8, 16);
    After(I64Bytes(start), I64Bytes(length));
    Whole(e);
    I64RoundTrip(start);
    I64RoundTrip(length);
  }

  lemma {:induction false} StartsGrow(columns: seq<ByteString>, starts: seq<nat>, i: nat, j: nat)
    requires |starts| == |columns| + 1 && i <= j <= |columns|
    requires forall k :: 0 <= k < |columns| ==> starts[k] + |columns[k]| <= starts[k + 1]
    ensures starts[i] <= starts[j]
    decreases j - i
  {
    if i < j {
      StartsGrow(columns, starts, i, j - 1);
    }
  }

  ghost predicate Growing(columns: seq<ByteString>, starts: seq<nat>) {
    && |starts| == |columns| + 1
    && forall i, j :: 0 <= i < |columns| && i < j <= |columns| ==> starts[i] + |columns[i]| <= starts[j]
  }

  lemma LaidGrows(frame: ByteString, header: ByteString, columns: seq<ByteString>, starts: seq<nat>)
    requires Laid(frame, header, columns, starts)
    ensures Growing(columns, starts) && |header| <= starts[|columns|]
    ensures forall i :: 0 <= i < |columns| ==> |header| <= starts[i]
  {
    forall k | 0 <= k < |columns| ensures starts[k] + |columns[k]| <= starts[k + 1] {
      assert LaidColumn(frame, columns, starts, k);
    }
    forall i, j | 0 <= i < |columns| && i < j <= |columns| ensures starts[i] + |columns[i]| <= starts[j] {
      StartsGrow(columns, starts, i + 1, j);
    }
    forall i | 0 <= i < |starts| ensures |header| <= starts[i] {
      StartsGrow(columns, starts, 0, i);
    }
  }

  /** The table entry of each column is its range. */
  ghost predicate EntriesRead(frame: ByteString, bodyStart: nat, columns: seq<ByteString>, starts: seq<nat>) {
    && |starts| == |columns| + 1 && starts[|columns|] + 16 * |columns| <= |frame|
    && forall i :: 0 <= i < |columns| ==>
         EntryAt(frame, bodyStart, starts[|columns|], i) == Extent(Range(starts[i], starts[i] + |columns[i]|))
  }

  lemma LaidReads(frame: ByteString, header: ByteString, columns: seq<ByteString>, starts: seq<nat>)
    requires Laid(frame, header, columns, starts)
    ensures EntriesRead(frame, |header|, columns, starts)
  {
    LaidGrows(frame, header, columns, starts);
    forall i | 0 <= i < |columns|
      ensures EntryAt(frame, |header|, starts[|columns|], i) == Extent(Range(starts[i], starts[i] + |columns[i]|))
    {
      assert LaidColumn(frame, columns, starts, i);
      EntryReads(frame, starts[|columns|] + 16 * i, starts[i], |columns[i]|);
    }
  }

  lemma {:induction false} RangesApart(frame: ByteString, bodyStart: nat, columns: seq<ByteString>, starts: seq<nat>, n: nat)
    requires EntriesRead(frame, bodyStart, columns, starts) && Growing(columns, starts) && n <= |columns|
    requires InBounds(frame, bodyStart, starts[|columns|], n)
    ensures Pairwise(RangesOf(frame, bodyStart, starts[|columns|], n))
  {
    if n > 0 {
      RangesApart(frame, bodyStart, columns, starts, n - 1);
      var init := RangesOf(frame, bodyStart, starts[|columns|], n - 1);
      var last := Range(starts[n - 1], starts[n - 1] + |columns[n - 1]|);
      forall y | y in init ensures Apart(y, last) {
        var i :| 0 <= i < n - 1 && init[i] == y;
        assert y == Range(starts[i], starts[i] + |columns[i]|);
      }
      PairwisePush(init, last);
    }
  }

  lemma LaidToc(frame: ByteString, header: ByteString, columns: seq<ByteString>, starts: seq<nat>)
    requires Laid(frame, header, columns, starts)
    ensures GoodToc(frame, |header|, starts[|columns|], |columns|)
  {
    LaidReads(frame, header, columns, starts);
    LaidGrows(frame, header, columns, starts);
    RangesApart(frame, |header|, columns, starts, |columns|);
  }

  lemma LaidRange(frame: ByteString, header: ByteString, columns: seq<ByteString>, starts: seq<nat>, i: nat)
    requires Laid(frame, header, columns, starts) && i < |columns|
    ensures EntryAt(frame, |header|, starts[|columns|], i).Extent?
    ensures var range := EntryAt(frame, |header|, starts[|columns|], i).range;
            |header| <= range.start <= range.end <= starts[|columns|] && columns[i] == frame[range.start..range.end]
  {
    LaidReads(frame, header, columns, starts);
    LaidGrows(frame, header, columns, starts);
    assert LaidColumn(frame, columns, starts, i);
  }

  lemma LaidContents(frame: ByteString, header: ByteString, columns: seq<ByteString>, starts: seq<nat>)
    requires Laid(frame, header, columns, starts)
    ensures Contents(frame, |header|, starts[|columns|], |columns|, columns)
  {
    LaidToc(frame, header, columns, starts);
    forall i | 0 <= i < |columns|
      ensures var range := EntryAt(frame, |header|, starts[|columns|], i).range;
              |header| <= range.start <= range.end <= starts[|columns|] && columns[i] == frame[range.start..range.end]
    {
      LaidRange(frame, header, columns, starts, i);
    }
  }

  lemma LaidHeader(frame: ByteString, header: ByteString, columns: seq<ByteString>, starts: seq<nat>)
    requires Laid(frame, header, columns, starts) && HEADER_PREFIX <= header
    ensures |header| <= |frame| && frame == header + frame[|header|..] && frame[0] != ERROR_MARK && |frame| >= 11
    ensures TocPos(frame) == starts[|columns|]
  {
    LaidGrows(frame, header, columns, starts);
    I64RoundTrip(starts[|columns|]);
    Cut(frame, |header|);
  }

  lemma LaidRoundTrip(frame: ByteString, resultId: int, rowCount: nat, startRow: nat, columns: seq<ByteString>, starts: seq<nat>)
    requires 0 - I64_MAX - 1 <= resultId <= I64_MAX && rowCount <= U64_MAX && startRow <= U64_MAX && |columns| <= U64_MAX
    requires Laid(frame, HeaderText(resultId, |columns|, rowCount, startRow), columns, starts)
    ensures Acceptable(frame)
    ensures var header := HeaderText(resultId, |columns|, rowCount, startRow);
            && ParseHeader(frame) == Header(resultId, |columns|, rowCount, startRow, |header|)
            && Contents(frame, |header|, TocPos(frame), |columns|, columns)
  {
    var header := HeaderText(resultId, |columns|, rowCount, startRow);
    LaidHeader(frame, header, columns, starts);
    HeaderRoundTrip(resultId, |columns|, rowCount, startRow, frame[|header|..]);
    LaidContents(frame, header, columns, starts);
  }

  /** The parser accepts every frame the builder writes, and gives back its header and its columns. */
  lemma FrameRoundTrip(resultId: int, rowCount: nat, startRow: nat, columns: seq<ByteString>)
    requires 0 - I64_MAX - 1 <= resultId <= I64_MAX && rowCount <= U64_MAX && startRow <= U64_MAX && |columns| <= U64_MAX
    requires var header := HeaderText(resultId, |columns|, rowCount, startRow);
             Fit(columns, Starts(header, columns, |columns|))
    ensures var header := HeaderText(resultId, |columns|, rowCount, startRow);
            var frame := Built(header, columns);
            && Acceptable(frame)
            && ParseHeader(frame) == Header(resultId, |columns|, rowCount, startRow, |header|)
            && Contents(frame, |header|, TocPos(frame), |columns|, columns)
  {
    var header := HeaderText(resultId, |columns|, rowCount, startRow);
    var starts := Starts(header, columns, |columns|);
    BodyHasColumns(header, columns, |columns|);
    LaidOut(Pad(Body(header, columns, |columns|)), header, columns, starts);
    LaidRoundTrip(Built(header, columns), resultId, rowCount, startRow, columns, starts);
  }

  lemma ContentsUnique(frame: ByteString, bodyStart: nat, tocPos: nat, n: nat, a: seq<ByteString>, b: seq<ByteString>)
    requires Contents(frame, bodyStart, tocPos, n, a) && Contents(frame, bodyStart, tocPos, n, b)
    ensures a == b
  {
  }

  /** Building and parsing: the parser inverts the builder. */
  method BuildAndParse(resultId: int, rowCount: nat, startRow: nat, columns: seq<ByteString>) returns (r: ParseResult)
    requires 0 - I64_MAX - 1 <= resultId <= I64_MAX && rowCount <= U64_MAX && startRow <= U64_MAX && |columns| <= U64_MAX
    requires var header := HeaderText(resultId, |columns|, rowCount, startRow);
             Fit(columns, Starts(header, columns, |columns|))
    ensures r == Parsed(Frame(resultId, rowCount, startRow, columns))
  {
    var frame := BuildFrame(resultId, rowCount, startRow, columns);
    FrameRoundTrip(resultId, rowCount, startRow, columns);
    r := ParseFrame(frame);
    ContentsUnique(frame, ParseHeader(frame).bodyStart, TocPos(frame), |columns|, r.frame.columns, columns);
  }
}

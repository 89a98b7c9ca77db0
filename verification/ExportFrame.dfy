/**
 Parsing an Xexportbin frame: a header line, the bytes of each column, a table of contents with a start
 and a length per column, and the position of that table; a negative position announces an error.
 */
module ExportFrame {
  import opened Bytes
  import opened Sequences
  import opened FrameHeader

  const TOC_ENTRY_SIZE: nat := 16
  const ERROR_MARK: Byte := 33
  const TWO_64: nat := 0x1_0000_0000_0000_0000

  // ----- Little-endian 64-bit numbers -----

  function LeBytes(n: nat, k: nat): (s: ByteString)
    ensures |s| == k
  {
    if k == 0 then [] else [n % 256] + LeBytes(n / 256, k - 1)
  }

  function LeValue(s: ByteString): (n: nat) {
    if s == [] then 0 else s[0] + 256 * LeValue(s[1..])
  }

  function Pow256(k: nat): nat {
    if k == 0 then 1 else 256 * Pow256(k - 1)
  }

  lemma {:induction false} LeInverts(n: nat, k: nat)
    requires n < Pow256(k)
    ensures LeValue(LeBytes(n, k)) == n
  {
    if k > 0 {
      LeInverts(n / 256, k - 1);
      var low: Byte := n % 256;
      After([low], LeBytes(n / 256, k - 1));
    }
  }

  function I64Bytes(v: int): (s: ByteString)
    requires 0 - I64_MAX - 1 <= v <= I64_MAX
    ensures |s| == 8
  {
    LeBytes(if v < 0 then v + TWO_64 else v, 8)
  }

  function I64Of(s: ByteString): int {
    var u := LeValue(s);
    if u > I64_MAX then u - TWO_64 else u
  }

  lemma I64RoundTrip(v: int)
    requires 0 - I64_MAX - 1 <= v <= I64_MAX
    ensures I64Of(I64Bytes(v)) == v
  {
    assert Pow256(2) == 65536 && Pow256(4) == 65536 * Pow256(2) && Pow256(6) == 65536 * Pow256(4);
    assert Pow256(8) == 65536 * Pow256(6) == TWO_64;
    LeInverts(if v < 0 then v + TWO_64 else v, 8);
  }

  // ----- Column ranges -----

  datatype Range = Range(start: nat, end: nat)

  datatype Extent = Extent(range: Range) | BadExtent

  function ColumnRange(start: int, length: int, bodyStart: nat, tocPos: nat): Extent {
    if start < 0 || length < 0 then BadExtent
    else if start < bodyStart || start + length > tocPos then BadExtent
    else Extent(Range(start, start + length))
  }

  /** No common byte. */
  predicate Apart(a: Range, b: Range) {
    a.start >= a.end || b.start >= b.end || a.end <= b.start || b.end <= a.start
  }

  predicate ApartFrom(s: seq<Range>, x: Range) {
    forall y :: y in s ==> Apart(y, x)
  }

  ghost predicate Pairwise(s: seq<Range>) {
    s == [] || (Pairwise(s[..|s| - 1]) && ApartFrom(s[..|s| - 1], s[|s| - 1]))
  }

  lemma {:induction false} PairwiseMeans(s: seq<Range>, i: nat, j: nat)
    requires Pairwise(s) && i < j < |s|
    ensures Apart(s[i], s[j])
  {
    var n := |s| - 1;
    if j < n {
      PairwiseMeans(s[..n], i, j);
    } else {
      assert s[i] == s[..n][i];
    }
  }

  lemma PairwisePush(s: seq<Range>, x: Range)
    ensures Pairwise(s + [x]) <==> Pairwise(s) && ApartFrom(s, x)
  {
    After(s, [x]);
  }

  // ----- Sorting by start -----

  ghost predicate Sorted(s: seq<Range>) {
    forall i, j :: 0 <= i < j < |s| ==> s[i].start <= s[j].start
  }

  predicate Occupied(s: seq<Range>) {
    forall i :: 0 <= i < |s| ==> s[i].start < s[i].end
  }

  function Insert(s: seq<Range>, p: nat, x: Range): seq<Range>
    requires p <= |s|
  {
    s[..p] + [x] + s[p..]
  }

  lemma {:induction false} InsertKeepsPairs(s: seq<Range>, p: nat, x: Range)
    requires p <= |s|
    ensures Pairwise(Insert(s, p, x)) <==> Pairwise(s) && ApartFrom(s, x)
    decreases |s|
  {
    if p == |s| {
      assert Insert(s, p, x) == s + [x];
      PairwisePush(s, x);
    } else {
      var init, last := s[..|s| - 1], s[|s| - 1];
      assert s == init + [last];
      InsertKeepsPairs(init, p, x);
      InsertBeforeLast(init, last, p, x);
      PairwisePush(Insert(init, p, x), last);
      PairwisePush(init, last);
      InsertApart(init, p, x, last);
      ApartPush(init, last, x);
    }
  }

  lemma InsertBeforeLast(init: seq<Range>, last: Range, p: nat, x: Range)
    requires p <= |init|
    ensures Insert(init + [last], p, x) == Insert(init, p, x) + [last]
  {
  }

  lemma ApartPush(s: seq<Range>, last: Range, x: Range)
    ensures ApartFrom(s + [last], x) <==> ApartFrom(s, x) && Apart(last, x)
  {
  }

  lemma InsertApart(s: seq<Range>, p: nat, x: Range, y: Range)
    requires p <= |s|
    ensures ApartFrom(Insert(s, p, x), y) <==> ApartFrom(s, y) && Apart(x, y)
  {
    assert forall z :: z in Insert(s, p, x) <==> z in s || z == x by {
      Cut(s, p);
    }
  }

  method FindPlace(s: seq<Range>, x: Range) returns (p: nat)
    requires Sorted(s)
    ensures p <= |s| && Sorted(Insert(s, p, x))
  {
    p := |s|;
    while p > 0 && s[p - 1].start > x.start
      invariant p <= |s| && forall i :: p <= i < |s| ==> x.start <= s[i].start
    {
      p := p - 1;
    }
  }

  lemma SamePlaces(s: seq<Range>, t: seq<Range>, x: Range)
    requires multiset(s) == multiset(t)
    ensures ApartFrom(s, x) <==> ApartFrom(t, x)
  {
    assert forall y :: y in s <==> y in multiset(s);
    assert forall y :: y in t <==> y in multiset(t);
  }

  lemma InsertCounts(s: seq<Range>, p: nat, x: Range)
    requires p <= |s|
    ensures multiset(Insert(s, p, x)) == multiset(s) + multiset{x}
  {
    Cut(s, p);
  }

  /** In order of their starts; a permutation, so the same ranges overlap as before. */
  method SortByStart(s: seq<Range>) returns (r: seq<Range>)
    ensures Sorted(r) && multiset(r) == multiset(s) && (Pairwise(r) <==> Pairwise(s))
  {
    r := [];
    for k: nat := 0 to |s|
      invariant Sorted(r) && multiset(r) == multiset(s[..k]) && (Pairwise(r) <==> Pairwise(s[..k]))
    {
      var x := s[k];
      var p := FindPlace(r, x);
      InsertKeepsPairs(r, p, x);
      InsertCounts(r, p, x);
      SamePlaces(r, s[..k], x);
      PairwisePush(s[..k], x);
      Snoc(s, k);
      r := Insert(r, p, x);
    }
    Whole(s);
  }

  // ----- Overlaps -----

  /** In start order it is enough that neighbours do not overlap. */
  lemma {:induction false} NeighboursSuffice(s: seq<Range>)
    requires Sorted(s) && Occupied(s) && forall i :: 0 <= i < |s| - 1 ==> s[i].end <= s[i + 1].start
    ensures Pairwise(s)
  {
    if s != [] {
      var n := |s| - 1;
      NeighboursSuffice(s[..n]);
      forall y | y in s[..n] ensures Apart(y, s[n]) {
        var i :| 0 <= i < n && s[i] == y;
        assert s[i].end <= s[i + 1].start <= s[n].start;
      }
    }
  }

  method AnyNeighboursOverlap(s: seq<Range>) returns (overlap: bool)
    requires Sorted(s) && Occupied(s)
    ensures overlap <==> !Pairwise(s)
  {
    for i: nat := 0 to if |s| == 0 then 0 else |s| - 1
      invariant forall k :: 0 <= k < i ==> s[k].end <= s[k + 1].start
    {
      if s[i].end > s[i + 1].start {
        if Pairwise(s) {
          PairwiseMeans(s, i, i + 1);
        }
        return true;
      }
    }
    NeighboursSuffice(s);
    overlap := false;
  }

  method Overlapping(ranges: seq<Range>) returns (overlap: bool)
    ensures overlap <==> !Pairwise(ranges)
  {
    var occupied: seq<Range> := [];
    for k: nat := 0 to |ranges|
      invariant Occupied(occupied) && (Pairwise(occupied) <==> Pairwise(ranges[..k]))
      invariant forall x: Range :: x.start < x.end ==> (ApartFrom(occupied, x) <==> ApartFrom(ranges[..k], x))
    {
      var x := ranges[k];
      Snoc(ranges, k);
      PairwisePush(ranges[..k], x);
      if x.start < x.end {
        PairwisePush(occupied, x);
        occupied := occupied + [x];
      }
    }
    Whole(ranges);
    var sorted := SortByStart(occupied);
    SortedOccupied(occupied, sorted);
    overlap := AnyNeighboursOverlap(sorted);
  }

  lemma SortedOccupied(s: seq<Range>, t: seq<Range>)
    requires Occupied(s) && multiset(t) == multiset(s)
    ensures Occupied(t)
  {
    forall i | 0 <= i < |t| ensures t[i].start < t[i].end {
      assert t[i] in multiset(s);
      assert t[i] in s;
    }
  }

  // ----- Errors inside a frame -----

  /** The text from `offset` to its NUL, without the mark. */
  function ErrorMessage(frame: ByteString, offset: nat): ByteString
    requires offset <= |frame|
  {
    var message := frame[offset..];
    var text := message[..Find(message, 0)];
    if text != [] && text[0] == ERROR_MARK then text[1..] else text
  }

  lemma ErrorMessageFound(before: ByteString, message: ByteString, rest: ByteString)
    requires forall i :: 0 <= i < |message| ==> message[i] != 0
    ensures ErrorMessage(before + (([ERROR_MARK] + message) + ([0] + rest)), |before|) == message
  {
    var text := [ERROR_MARK] + message;
    After(before, text + ([0] + rest));
    FindFirst(text, 0, rest);
    After(text, [0] + rest);
    After([ERROR_MARK], message);
  }

  // ----- Frames -----

  datatype Frame = Frame(resultId: int, rowCount: nat, startRow: nat, columns: seq<ByteString>)

  datatype ParseResult = Parsed(frame: Frame) | ServerError(message: ByteString) | Malformed

  function TocPos(frame: ByteString): int
    requires |frame| >= 8
  {
    I64Of(frame[|frame| - 8..])
  }

  /** The range of column `i`, as the table of contents gives it. */
  function EntryAt(frame: ByteString, bodyStart: nat, tocPos: nat, i: nat): Extent
    requires tocPos + TOC_ENTRY_SIZE * (i + 1) <= |frame|
  {
    var p := tocPos + TOC_ENTRY_SIZE * i;
    ColumnRange(I64Of(frame[p..p + 8]), I64Of(frame[p + 8..p + 16]), bodyStart, tocPos)
  }

  /** The first `n` columns lie between header and table of contents. */
  ghost predicate InBounds(frame: ByteString, bodyStart: nat, tocPos: nat, n: nat)
    requires tocPos + TOC_ENTRY_SIZE * n <= |frame|
  {
    forall i :: 0 <= i < n ==> EntryAt(frame, bodyStart, tocPos, i).Extent?
  }

  ghost function RangesOf(frame: ByteString, bodyStart: nat, tocPos: nat, n: nat): (r: seq<Range>)
    requires tocPos + TOC_ENTRY_SIZE * n <= |frame| && InBounds(frame, bodyStart, tocPos, n)
    ensures |r| == n && forall i :: 0 <= i < n ==> r[i] == EntryAt(frame, bodyStart, tocPos, i).range
  {
    if n == 0 then [] else RangesOf(frame, bodyStart, tocPos, n - 1) + [EntryAt(frame, bodyStart, tocPos, n - 1).range]
  }

  /** The table of contents fills the frame up to its last 8 bytes, and its ranges are in bounds and disjoint. */
  ghost predicate GoodToc(frame: ByteString, bodyStart: nat, tocPos: nat, n: nat) {
    && bodyStart <= tocPos && tocPos + TOC_ENTRY_SIZE * n + 8 == |frame|
    && InBounds(frame, bodyStart, tocPos, n) && Pairwise(RangesOf(frame, bodyStart, tocPos, n))
  }

  ghost predicate Acceptable(frame: ByteString) {
    && |frame| >= 11 && frame[0] != ERROR_MARK
    && var h := ParseHeader(frame);
       h.Header? && TocPos(frame) >= 0 && GoodToc(frame, h.bodyStart, TocPos(frame), h.columnCount)
  }

  /** The columns are the bytes of their ranges. */
  ghost predicate Contents(frame: ByteString, bodyStart: nat, tocPos: nat, n: nat, columns: seq<ByteString>) {
    && GoodToc(frame, bodyStart, tocPos, n) && |columns| == n
    && forall i :: 0 <= i < n ==>
         var range := EntryAt(frame, bodyStart, tocPos, i).range;
         bodyStart <= range.start <= range.end <= tocPos && columns[i] == frame[range.start..range.end]
  }

  method ReadRanges(frame: ByteString, bodyStart: nat, tocPos: nat, n: nat) returns (ok: bool, ranges: seq<Range>)
    requires tocPos + TOC_ENTRY_SIZE * n <= |frame|
    ensures ok <==> InBounds(frame, bodyStart, tocPos, n)
    ensures ok ==> ranges == RangesOf(frame, bodyStart, tocPos, n)
  {
    ok, ranges := true, [];
    for i: nat := 0 to n
      invariant InBounds(frame, bodyStart, tocPos, i) && ranges == RangesOf(frame, bodyStart, tocPos, i)
    {
      var entry := EntryAt(frame, bodyStart, tocPos, i);
      if entry.BadExtent? {
        return false, ranges;
      }
      ranges := ranges + [entry.range];
    }
  }

  ghost predicate RangesWithin(ranges: seq<Range>, bodyStart: nat, tocPos: nat) {
    forall k :: 0 <= k < |ranges| ==> bodyStart <= ranges[k].start <= ranges[k].end <= tocPos
  }

  lemma InBoundsMeans(frame: ByteString, bodyStart: nat, tocPos: nat, n: nat)
    requires tocPos + TOC_ENTRY_SIZE * n <= |frame| && InBounds(frame, bodyStart, tocPos, n)
    ensures RangesWithin(RangesOf(frame, bodyStart, tocPos, n), bodyStart, tocPos)
  {
  }

  method Slice(frame: ByteString, ranges: seq<Range>) returns (columns: seq<ByteString>)
    requires RangesWithin(ranges, 0, |frame|)
    ensures |columns| == |ranges| && forall k :: 0 <= k < |ranges| ==> columns[k] == frame[ranges[k].start..ranges[k].end]
  {
    columns := [];
    for i: nat := 0 to |ranges|
      invariant |columns| == i && forall k :: 0 <= k < i ==> columns[k] == frame[ranges[k].start..ranges[k].end]
    {
      columns := columns + [frame[ranges[i].start..ranges[i].end]];
    }
  }

  /** Behind a good header, a negative table position points at an error mark. */
  ghost predicate ErrorInside(frame: ByteString) {
    && |frame| >= 11 && frame[0] != ERROR_MARK && !ParseHeader(frame).BadHeader?
    && 0 < -TocPos(frame) < |frame| - 8 && frame[-TocPos(frame)] == ERROR_MARK
  }

  /** Accepts exactly the frames whose ranges are in bounds and pairwise disjoint, and returns their bytes. */
  method ParseFrame(frame: ByteString) returns (r: ParseResult)
    ensures r.Parsed? <==> Acceptable(frame)
    ensures r.Parsed? ==> var h := ParseHeader(frame);
              && r.frame.resultId == h.resultId && r.frame.rowCount == h.rowCount && r.frame.startRow == h.startRow
              && Contents(frame, h.bodyStart, TocPos(frame), h.columnCount, r.frame.columns)
    ensures frame != [] && frame[0] == ERROR_MARK ==> r == ServerError(ErrorMessage(frame, 0))
    ensures r.ServerError? <==> (frame != [] && frame[0] == ERROR_MARK) || ErrorInside(frame)
    ensures ErrorInside(frame) ==> r == ServerError(ErrorMessage(frame[..|frame| - 8], -TocPos(frame)))
  {
    if frame != [] && frame[0] == ERROR_MARK {
      return ServerError(ErrorMessage(frame, 0));
    }
    if |frame| < 11 {
      return Malformed;
    }
    var h := ParseHeader(frame);
    if h.BadHeader? {
      return Malformed;
    }
    var tocPos := TocPos(frame);
    if tocPos < 0 {
      r := InFrameError(frame, -tocPos);
      return;
    }
    var ok, columns := ParseBody(frame, h.bodyStart, tocPos, h.columnCount);
    r := if ok then Parsed(Frame(h.resultId, h.rowCount, h.startRow, columns)) else Malformed;
  }

  method InFrameError(frame: ByteString, offset: nat) returns (r: ParseResult)
    requires |frame| >= 8
    ensures !r.Parsed?
    ensures r.ServerError? <==> offset < |frame| - 8 && frame[offset] == ERROR_MARK
    ensures r.ServerError? ==> r.message == ErrorMessage(frame[..|frame| - 8], offset)
  {
    var end := |frame| - 8;
    r := if offset < end && frame[offset] == ERROR_MARK then ServerError(ErrorMessage(frame[..end], offset)) else Malformed;
  }

  method ParseBody(frame: ByteString, bodyStart: nat, tocPos: nat, n: nat) returns (ok: bool, columns: seq<ByteString>)
    ensures ok <==> GoodToc(frame, bodyStart, tocPos, n)
    ensures ok ==> Contents(frame, bodyStart, tocPos, n, columns)
  {
    columns := [];
    if n > |frame| / TOC_ENTRY_SIZE || tocPos < bodyStart || tocPos + TOC_ENTRY_SIZE * n + 8 != |frame| {
      return false, columns;
    }
    var ranges;
    ok, ranges := ReadRanges(frame, bodyStart, tocPos, n);
    if !ok {
      return;
    }
    var overlap := Overlapping(ranges);
    if overlap {
      return false, columns;
    }
    InBoundsMeans(frame, bodyStart, tocPos, n);
    columns := Slice(frame, ranges);
  }

  /** On every accepted frame, non-empty columns share no byte and all lie between header and table. */
  lemma AcceptedColumns(frame: ByteString, i: nat, j: nat)
    requires Acceptable(frame) && i < j < ParseHeader(frame).columnCount
    ensures var h := ParseHeader(frame);
            var a := EntryAt(frame, h.bodyStart, TocPos(frame), i).range;
            var b := EntryAt(frame, h.bodyStart, TocPos(frame), j).range;
            && h.bodyStart <= a.start <= a.end <= TocPos(frame) && h.bodyStart <= b.start <= b.end <= TocPos(frame)
            && (a.start < a.end && b.start < b.end ==> a.end <= b.start || b.end <= a.start)
  {
    var h := ParseHeader(frame);
    PairwiseMeans(RangesOf(frame, h.bodyStart, TocPos(frame), h.columnCount), i, j);
  }
}

/**
 The ingest window scheduler: it reads batches, coalesces small ones, splits large ones, and
 hands out windows under byte and row budgets.
 */
module IngestScheduler {
  import opened Arithmetic
  import opened Wrappers
  import opened Sequences

  const ENCODE_STAGING_BYTES := 16 * 1024 * 1024
  const COMPACTION_FANOUT := 32
  const COMPACTION_MAX_BYTES := 16 * 1024 * 1024

  datatype RawRow = RawRow(cells: string, bytes: nat)

  /** Every row has at least one encoded byte, because a stream has at least one column. */
  type Row = r: RawRow | r.bytes >= 1 witness RawRow("", 1)

  type Rows = seq<Row>

  /** The size estimate of a batch is the sum over its rows. */
  function Size(rows: Rows): nat {
    if rows == [] then 0 else Size(rows[..|rows| - 1]) + rows[|rows| - 1].bytes
  }

  datatype PendingBatch = PendingBatch(rows: Rows, bytes: nat, level: nat)

  /** What the reader yields next. */
  datatype Read = Arrived(rows: Rows) | Broken(reason: string)

  datatype Window = Window(rows: Rows, bytes: nat, incompressible: bool, physical: nat, coalesced: bool)

  function Concat(pending: seq<PendingBatch>): Rows {
    if pending == [] then [] else pending[0].rows + Concat(pending[1..])
  }

  /** The rows the reader will still yield, up to its first error. */
  function Upcoming(source: seq<Read>): Rows {
    if source == [] || source[0].Broken? then [] else source[0].rows + Upcoming(source[1..])
  }

  function WindowRows(windows: seq<Window>): Rows {
    if windows == [] then [] else WindowRows(windows[..|windows| - 1]) + windows[|windows| - 1].rows
  }

  predicate Breaks(source: seq<Read>) {
    source != [] && (source[0].Broken? || Breaks(source[1..]))
  }

  // ----- Additive sizes -----

  lemma {:induction false} SizeConcat(a: Rows, b: Rows)
    ensures Size(a + b) == Size(a) + Size(b)
  {
    if b == [] {
      assert a + b == a;
    } else {
      var init := b[..|b| - 1];
      SizeConcat(a, init);
      assert (a + b)[..|a + b| - 1] == a + init;
    }
  }

  lemma SizeSplit(rows: Rows, k: nat)
    requires k <= |rows|
    ensures Size(rows[..k]) + Size(rows[k..]) == Size(rows)
  {
    assert rows == rows[..k] + rows[k..];
    SizeConcat(rows[..k], rows[k..]);
  }

  lemma SizeMonotone(rows: Rows, j: nat, k: nat)
    requires j <= k <= |rows|
    ensures Size(rows[..j]) <= Size(rows[..k])
  {
    SizeSplit(rows[..k], j);
    assert rows[..k][..j] == rows[..j];
  }

  lemma {:induction false} SizeAtLeastCount(rows: Rows)
    ensures Size(rows) >= |rows|
  {
    if rows != [] {
      SizeAtLeastCount(rows[..|rows| - 1]);
    }
  }

  lemma {:induction false} ConcatSplit(pending: seq<PendingBatch>, k: nat)
    requires k <= |pending|
    ensures Concat(pending[..k]) + Concat(pending[k..]) == Concat(pending)
  {
    if k == 0 {
      assert pending[..k] == [] && pending[k..] == pending;
    } else {
      ConcatSplit(pending[1..], k - 1);
      assert pending[..k][1..] == pending[1..][..k - 1] && pending[1..][k - 1..] == pending[k..];
    }
  }

  lemma ConcatPush(pending: seq<PendingBatch>, b: PendingBatch)
    ensures Concat(pending + [b]) == Concat(pending) + b.rows
  {
    ConcatSplit(pending + [b], |pending|);
    assert (pending + [b])[..|pending|] == pending && (pending + [b])[|pending|..] == [b];
    assert [b][1..] == [];
  }

  lemma Rejoin(rows: Rows, k: nat, rest: Rows)
    requires k <= |rows|
    ensures rows[..k] + (rows[k..] + rest) == rows + rest
  {
    assert rows[..k] + rows[k..] == rows;
  }

  lemma StagingGrows(staging: seq<PendingBatch>, b: PendingBatch, rest: Rows, whole: Rows)
    requires Concat(staging) + (b.rows + rest) == whole
    ensures Concat(staging + [b]) + rest == whole
    ensures |Concat(staging + [b])| == |Concat(staging)| + |b.rows|
    ensures Size(Concat(staging + [b])) == Size(Concat(staging)) + Size(b.rows)
  {
    ConcatPush(staging, b);
    SizeConcat(Concat(staging), b.rows);
    Assoc(Concat(staging), b.rows, rest);
  }

  // ----- Pending batches -----

  lemma PushedTotals(pending: seq<PendingBatch>, b: PendingBatch)
    ensures Concat(pending + [b]) == Concat(pending) + b.rows
    ensures |Concat(pending + [b])| == |Concat(pending)| + |b.rows|
    ensures Size(Concat(pending + [b])) == Size(Concat(pending)) + Size(b.rows)
  {
    ConcatPush(pending, b);
    SizeConcat(Concat(pending), b.rows);
  }

  predicate Sound(b: PendingBatch) {
    b.rows != [] && b.bytes == Size(b.rows)
  }

  predicate AllSound(pending: seq<PendingBatch>) {
    forall i :: 0 <= i < |pending| ==> Sound(pending[i])
  }

  function TotalBytes(pending: seq<PendingBatch>): nat {
    if pending == [] then 0 else pending[0].bytes + TotalBytes(pending[1..])
  }

  lemma {:induction false} TotalIsSize(pending: seq<PendingBatch>)
    requires AllSound(pending)
    ensures TotalBytes(pending) == Size(Concat(pending))
  {
    if pending != [] {
      TotalIsSize(pending[1..]);
      SizeConcat(pending[0].rows, Concat(pending[1..]));
    }
  }

  /** The longest prefix whose estimate fits the budget, found by binary search. */
  method RowsWithinBudget(rows: Rows, budget: nat) returns (fit: nat)
    ensures fit <= |rows| && Size(rows[..fit]) <= budget
    ensures forall k :: fit < k <= |rows| ==> Size(rows[..k]) > budget
  {
    var low, high := 0, |rows|;
    while low < high
      invariant 0 <= low <= high <= |rows|
      invariant Size(rows[..low]) <= budget
      invariant forall k :: high < k <= |rows| ==> Size(rows[..k]) > budget
    {
      var middle := low + (high - low + 1) / 2;
      if Size(rows[..middle]) <= budget {
        low := middle;
      } else {
        forall k | middle <= k <= |rows| ensures Size(rows[..k]) > budget {
          SizeMonotone(rows, middle, k);
        }
        high := middle - 1;
      }
    }
    fit := low;
  }

  /** The remainder's estimate is a subtraction that never underflows. */
  method SplitPending(b: PendingBatch, rows: nat) returns (prefix: PendingBatch, remainder: PendingBatch)
    requires Sound(b) && 0 < rows < |b.rows|
    ensures Sound(prefix) && Sound(remainder)
    ensures prefix.rows == b.rows[..rows] && remainder.rows == b.rows[rows..]
    ensures prefix.level == b.level == remainder.level
  {
    SizeSplit(b.rows, rows);
    prefix := PendingBatch(b.rows[..rows], Size(b.rows[..rows]), b.level);
    remainder := PendingBatch(b.rows[rows..], b.bytes - prefix.bytes, b.level);
  }

  class IngestWindowScheduler {
    var source: seq<Read>
    var pending: seq<PendingBatch>
    var pendingRows: nat
    var pendingBytes: nat
    var exhausted: bool
    const windowBudget: nat
    const physicalWindowBudget: nat
    const incompressibleWindowBudget: nat
    const configuredRows: Option<nat>
    var inputBatches: nat
    var coalescedWindows: nat
    var splitWindows: nat

    constructor (source: seq<Read>, windowBudget: nat, physicalWindowBudget: nat,
                 incompressibleWindowBudget: nat, configuredRows: Option<nat>)
      ensures Valid() && Remaining() == Upcoming(source) && this.source == source
      ensures this.windowBudget == windowBudget && this.configuredRows == configuredRows
    {
      this.source, pending, pendingRows, pendingBytes, exhausted := source, [], 0, 0, false;
      this.windowBudget := windowBudget;
      this.physicalWindowBudget := physicalWindowBudget;
      this.incompressibleWindowBudget := incompressibleWindowBudget;
      this.configuredRows := configuredRows;
      inputBatches, coalescedWindows, splitWindows := 0, 0, 0;
    }

    ghost predicate Valid()
      reads this
    {
      && AllSound(pending)
      && pendingRows == |Concat(pending)|
      && pendingBytes == Size(Concat(pending))
      && (exhausted ==> source == [])
    }

    /** The rows not yet handed out. */
    ghost function Remaining(): Rows
      reads this
    {
      Concat(pending) + Upcoming(source)
    }

    /** A window that respects the budget of its mode. */
    ghost predicate WithinBudget(rows: Rows)
      reads this
    {
      match configuredRows
      case None => Size(rows) <= windowBudget || |rows| == 1
      case Some(n) => |rows| <= n
    }

    // ----- The pending queue -----

    method PopFront() returns (front: Option<PendingBatch>)
      requires Valid()
      modifies `pending, `pendingRows, `pendingBytes
      ensures Valid()
      ensures front.None? <==> old(pending) == []
      ensures front.None? ==> pending == old(pending)
      ensures front.Some? ==> Sound(front.value) && old(pending) == [front.value] + pending
    {
      if pending == [] {
        return None;
      }
      var b := pending[0];
      SizeConcat(b.rows, Concat(pending[1..]));
      pending, pendingRows, pendingBytes := pending[1..], pendingRows - |b.rows|, pendingBytes - b.bytes;
      front := Some(b);
    }

    method PushFront(b: PendingBatch)
      requires Valid() && Sound(b)
      modifies `pending, `pendingRows, `pendingBytes
      ensures Valid() && pending == [b] + old(pending)
    {
      SizeConcat(b.rows, Concat(pending));
      pendingRows, pendingBytes := pendingRows + |b.rows|, pendingBytes + b.bytes;
      pending := [b] + pending;
      assert pending[1..] == old(pending);
    }

    method PushBack(b: PendingBatch)
      requires Valid() && Sound(b)
      modifies `pending, `pendingRows, `pendingBytes
      ensures Valid() && pending == old(pending) + [b]
      ensures Concat(pending) == old(Concat(pending)) + b.rows
    {
      PushedTotals(pending, b);
      pendingRows, pendingBytes := pendingRows + |b.rows|, pendingBytes + b.bytes;
      pending := pending + [b];
    }

    /** Merges the last batches of one level while they stay small; no row moves or changes. */
    method CompactPendingBatches()
      requires Valid()
      modifies `pending
      ensures Valid() && Concat(pending) == old(Concat(pending))
    {
      while true
        invariant Valid() && Concat(pending) == old(Concat(pending))
        decreases |pending|
      {
        if |pending| < COMPACTION_FANOUT {
          return;
        }
        var at := |pending| - COMPACTION_FANOUT;
        var level := pending[|pending| - 1].level;
        if exists i :: at <= i < |pending| && pending[i].level != level {
          return;
        }
        var tail := pending[at..];
        var bytes := TotalBytes(tail);
        if bytes > COMPACTION_MAX_BYTES {
          return;
        }
        Compact(at, bytes, level);
      }
    }

    method Compact(at: nat, bytes: nat, level: nat)
      requires Valid() && at + 1 < |pending| && bytes == TotalBytes(pending[at..])
      modifies `pending
      ensures Valid() && Concat(pending) == old(Concat(pending)) && |pending| == at + 1
    {
      var tail := pending[at..];
      TotalIsSize(tail);
      ConcatSplit(pending, at);
      assert tail[0] == pending[at];
      var merged := PendingBatch(Concat(tail), bytes, level + 1);
      ConcatPush(pending[..at], merged);
      pending := pending[..at] + [merged];
    }

    // ----- Reading -----

    method ReadBatch() returns (ok: bool)
      requires Valid() && !exhausted
      modifies `source, `pending, `pendingRows, `pendingBytes, `exhausted, `inputBatches
      ensures Valid()
      ensures !ok ==> Breaks(old(source))
      ensures ok ==> Remaining() == old(Remaining())
      ensures ok ==> if old(source) == [] then exhausted && source == [] else source == old(source)[1..] && !exhausted
      ensures ok ==> (Breaks(source) <==> Breaks(old(source)))
    {
      if source == [] {
        exhausted := true;
        return true;
      }
      var next := source[0];
      source := source[1..];
      if next.Broken? {
        return false;
      }
      inputBatches := inputBatches + 1;
      Enqueue(next.rows, Upcoming(source));
      ok := true;
    }

    /** Rows that were read, if any, go behind what is pending. */
    method Enqueue(rows: Rows, ghost later: Rows)
      requires Valid() && !exhausted
      modifies `pending, `pendingRows, `pendingBytes
      ensures Valid() && Concat(pending) + later == old(Concat(pending)) + (rows + later)
    {
      ghost var before := Concat(pending);
      if rows == [] {
        assert rows + later == later;
        return;
      }
      PushBack(PendingBatch(rows, Size(rows), 0));
      CompactPendingBatches();
      Assoc(before, rows, later);
    }

    method FillStaging(desiredRows: nat, desiredBytes: nat) returns (ok: bool)
      requires Valid()
      modifies `source, `pending, `pendingRows, `pendingBytes, `exhausted, `inputBatches
      ensures Valid()
      ensures !ok ==> Breaks(old(source))
      ensures ok ==> Remaining() == old(Remaining())
      ensures ok ==> (Breaks(source) <==> Breaks(old(source)))
      ensures ok && pendingRows == 0 && desiredRows > 0 && desiredBytes > 0 ==> exhausted
    {
      ok := true;
      while pendingRows < desiredRows && pendingBytes < desiredBytes && !exhausted
        invariant Valid() && Remaining() == old(Remaining())
        invariant Breaks(source) <==> Breaks(old(source))
        decreases |source|, !exhausted
      {
        ok := ReadBatch();
        if !ok {
          return;
        }
      }
    }

    // ----- Taking a staging batch -----

    /**
     Takes rows from the front of the queue, within both limits.  Only a first row may exceed the
     byte limit, and then it comes alone.
     */
    method TakeStaging(targetRows: nat, targetBytes: nat, allowOversizedRow: bool)
      returns (staging: seq<PendingBatch>)
      requires Valid()
      modifies `pending, `pendingRows, `pendingBytes, `splitWindows
      ensures Valid() && AllSound(staging)
      ensures Concat(staging) + Concat(pending) == old(Concat(pending))
      ensures |Concat(staging)| <= targetRows
      ensures Size(Concat(staging)) <= targetBytes || (allowOversizedRow && |Concat(staging)| == 1)
      ensures allowOversizedRow && targetRows > 0 && old(pending) != [] ==> staging != []
    {
      var remainingRows: nat, remainingBytes: nat := targetRows, targetBytes;
      staging := [];
      ghost var whole := Concat(pending);
      while remainingRows > 0
        invariant Valid() && AllSound(staging)
        invariant Concat(staging) + Concat(pending) == whole
        invariant |Concat(staging)| + remainingRows == targetRows
        invariant Size(Concat(staging)) + remainingBytes == targetBytes
        invariant staging == [] ==> pending == old(pending)
        decreases remainingRows
      {
        var selected := StageOne(staging, remainingRows, remainingBytes, allowOversizedRow, whole);
        if selected.None? {
          break;
        }
        staging := staging + [selected.value];
        remainingRows := remainingRows - |selected.value.rows|;
        remainingBytes := SaturatingSub(remainingBytes, selected.value.bytes);
        if remainingBytes == 0 {
          break;
        }
      }
    }

    /** The next piece for a staging batch, with what it does to the totals. */
    method StageOne(staging: seq<PendingBatch>, remainingRows: nat, remainingBytes: nat, allowOversizedRow: bool,
                    ghost whole: Rows)
      returns (selected: Option<PendingBatch>)
      requires Valid() && AllSound(staging) && remainingRows > 0
      requires Concat(staging) + Concat(pending) == whole
      modifies `pending, `pendingRows, `pendingBytes, `splitWindows
      ensures Valid()
      ensures selected.None? ==> pending == old(pending) && (allowOversizedRow && staging == [] ==> pending == [])
      ensures selected.Some? ==>
                && AllSound(staging + [selected.value]) && 0 < |selected.value.rows| <= remainingRows
                && Concat(staging + [selected.value]) + Concat(pending) == whole
                && |Concat(staging + [selected.value])| == |Concat(staging)| + |selected.value.rows|
                && Size(Concat(staging + [selected.value])) == Size(Concat(staging)) + selected.value.bytes
      ensures selected.Some? && selected.value.bytes > remainingBytes ==>
                allowOversizedRow && staging == [] && |selected.value.rows| == 1
    {
      ghost var oversized;
      selected, oversized := TakeOne(remainingRows, remainingBytes, allowOversizedRow && staging == []);
      if selected.Some? {
        StagingGrows(staging, selected.value, Concat(pending), whole);
      }
    }

    /** How much of a batch is within both limits. */
    static method FittingRows(batch: PendingBatch, maxRows: nat, maxBytes: nat) returns (rows: nat)
      requires Sound(batch)
      ensures rows <= |batch.rows| && rows <= maxRows && Size(batch.rows[..rows]) <= maxBytes
      ensures LongestWithin(batch.rows, rows, maxRows, maxBytes)
    {
      var rowsByBytes := |batch.rows|;
      assert batch.rows[..|batch.rows|] == batch.rows;
      if batch.bytes > maxBytes {
        rowsByBytes := RowsWithinBudget(batch.rows, maxBytes);
      }
      rows := Min(rowsByBytes, maxRows);
      SizeMonotone(batch.rows, rows, rowsByBytes);
    }

    /** No longer prefix is within both limits. */
    static ghost predicate LongestWithin(rows: Rows, n: nat, maxRows: nat, maxBytes: nat) {
      forall k :: n < k <= |rows| ==> k > maxRows || Size(rows[..k]) > maxBytes
    }

    /** The longest fitting piece of the front batch; `mayExceed` lets a single row through. */
    method TakeOne(remainingRows: nat, remainingBytes: nat, mayExceed: bool)
      returns (selected: Option<PendingBatch>, ghost oversized: bool)
      requires Valid() && remainingRows > 0
      modifies `pending, `pendingRows, `pendingBytes, `splitWindows
      ensures Valid()
      ensures selected.None? ==> pending == old(pending) && (mayExceed ==> pending == [])
      ensures selected.Some? ==> Sound(selected.value) && |selected.value.rows| <= remainingRows
      ensures selected.Some? ==> selected.value.rows + Concat(pending) == old(Concat(pending))
      ensures selected.Some? && !oversized ==> selected.value.bytes <= remainingBytes
      ensures selected.Some? && oversized ==> mayExceed && |selected.value.rows| == 1 && selected.value.bytes > remainingBytes
      ensures selected.Some? && !oversized ==>
                && old(pending) != []
                && LongestWithin(old(pending)[0].rows, |selected.value.rows|, remainingRows, remainingBytes)
      ensures selected.None? && pending != [] ==> LongestWithin(pending[0].rows, 0, remainingRows, remainingBytes)
    {
      oversized := false;
      var front := PopFront();
      if front.None? {
        return None, false;
      }
      var batch := front.value;
      ghost var rest := pending;
      assert old(pending)[1..] == rest;
      var rows := FittingRows(batch, remainingRows, remainingBytes);
      if rows == 0 && !mayExceed {
        PushFront(batch);
        return None, false;
      }
      oversized := rows == 0;
      rows := if rows == 0 then 1 else rows;
      assert batch.rows[..|batch.rows|] == batch.rows;
      if rows == |batch.rows| {
        return Some(batch), oversized;
      }
      var prefix, remainder := SplitPending(batch, rows);
      PushFront(remainder);
      splitWindows := splitWindows + 1;
      assert pending[1..] == rest;
      Rejoin(batch.rows, rows, Concat(rest));
      selected := Some(prefix);
    }

    // ----- Windows -----

    function RemainingStagingBytes(remainingWindowBytes: nat, window: Window): nat {
      if configuredRows.None? && window.incompressible
      then Min(SaturatingSub(incompressibleWindowBudget, window.bytes), remainingWindowBytes)
      else remainingWindowBytes
    }

    predicate ShouldFinishAutomaticWindow(window: Window) {
      && configuredRows.None?
      && (window.physical >= physicalWindowBudget
          || (window.incompressible && window.bytes >= incompressibleWindowBudget))
    }

    ghost predicate GoodWindow(window: Window)
      reads this
    {
      && window.bytes == Size(window.rows)
      && WithinBudget(window.rows)
      && (window.rows == [] ==> !window.incompressible)
    }

    /** Appends a staging batch; how well the encoded bytes compress is the server data's business. */
    method Append(window: Window, staging: seq<PendingBatch>) returns (w: Window)
      requires AllSound(staging) && staging != []
      ensures w.rows == window.rows + Concat(staging) && w.rows != []
      ensures w.bytes == window.bytes + Size(Concat(staging))
    {
      TotalIsSize(staging);
      var incompressible: bool := *;
      var physical: nat :| true;
      w := Window(window.rows + Concat(staging), window.bytes + TotalBytes(staging), incompressible, physical,
                  window.coalesced || |staging| > 1 || exists i :: 0 <= i < |staging| && staging[i].level > 0);
    }

    /** How many more rows and staging bytes the window may take; 0 ends it. */
    function RowLimit(window: Window): nat
      requires configuredRows.Some? ==> |window.rows| <= configuredRows.value
    {
      if configuredRows.Some? then configuredRows.value - |window.rows| else USIZE_MAX
    }

    function StagingLimit(window: Window): nat {
      var remaining := if configuredRows.Some? then COMPACTION_MAX_BYTES else SaturatingSub(windowBudget, window.bytes);
      Min(RemainingStagingBytes(remaining, window), ENCODE_STAGING_BYTES)
    }

    /** What TakeStaging yields under these limits keeps the window within its budget. */
    lemma BudgetKept(window: Window, taken: Rows)
      requires GoodWindow(window) && StagingLimit(window) > 0
      requires |taken| <= RowLimit(window)
      requires Size(taken) <= StagingLimit(window) || (window.rows == [] && |taken| == 1)
      ensures WithinBudget(window.rows + taken) && Size(window.rows + taken) == window.bytes + Size(taken)
    {
      SizeConcat(window.rows, taken);
      SizeAtLeastCount(window.rows);
    }

    /** One pass of the window loop.  It stops the window, or adds at least one row to it. */
    method GrowWindow(window: Window) returns (ok: bool, more: bool, w: Window)
      requires Valid() && GoodWindow(window)
      requires windowBudget > 0 && (configuredRows.Some? ==> configuredRows.value > 0)
      modifies `source, `pending, `pendingRows, `pendingBytes, `exhausted, `inputBatches, `splitWindows
      ensures Valid()
      ensures !ok ==> Breaks(old(source))
      ensures ok ==> GoodWindow(w) && w.rows + Remaining() == window.rows + old(Remaining())
      ensures ok ==> (Breaks(source) <==> Breaks(old(source)))
      ensures ok && more ==> |Remaining()| < |old(Remaining())|
      ensures ok && !more && w.rows == [] ==> Remaining() == [] && source == []
    {
      w, more := window, false;
      var rows, staging := RowLimit(window), StagingLimit(window);
      if rows == 0 || staging == 0 {
        return true, false, w;
      }
      ok := FillStaging(rows, staging);
      if !ok || pendingRows == 0 {
        return ok, false, w;
      }
      ghost var before := Concat(pending);
      more, w := TakeInto(window, rows, staging);
      Assoc(window.rows, before, Upcoming(source));
      Assoc(w.rows, Concat(pending), Upcoming(source));
    }

    method TakeInto(window: Window, rows: nat, staging: nat) returns (more: bool, w: Window)
      requires Valid() && GoodWindow(window) && pendingRows > 0
      requires 0 < rows <= RowLimit(window) && 0 < staging <= StagingLimit(window)
      modifies `pending, `pendingRows, `pendingBytes, `splitWindows
      ensures Valid() && GoodWindow(w) && w.rows != []
      ensures w.rows + Concat(pending) == window.rows + old(Concat(pending))
      ensures more ==> |Concat(pending)| < |old(Concat(pending))|
    {
      var taken := TakeStaging(rows, staging, window.rows == []);
      if taken == [] {
        return false, window;
      }
      BudgetKept(window, Concat(taken));
      Assoc(window.rows, Concat(taken), Concat(pending));
      w := Append(window, taken);
      more := !ShouldFinishAutomaticWindow(w);
      assert Concat(taken) == taken[0].rows + Concat(taken[1..]);
    }

    /**
     The next window takes at least one row off the front of what remains, in order, within its
     budget; no window means that the input is exhausted.
     */
    method NextWindow() returns (r: Result<Option<Window>, string>)
      requires Valid()
      requires windowBudget > 0 && (configuredRows.Some? ==> configuredRows.value > 0)
      modifies this
      ensures Valid()
      ensures r.Err? ==> Breaks(old(source))
      ensures r.Ok? ==> (Breaks(source) <==> Breaks(old(source)))
      ensures r.Ok? && r.value.None? ==> old(Remaining()) == [] && source == []
      ensures r.Ok? && r.value.Some? ==>
                var w := r.value.value;
                && w.rows != [] && old(Remaining()) == w.rows + Remaining()
                && w.bytes == Size(w.rows) && WithinBudget(w.rows)
    {
      var window := Window([], 0, false, 0, false);
      var more := true;
      while more
        invariant Valid() && GoodWindow(window)
        invariant window.rows + Remaining() == old(Remaining())
        invariant Breaks(source) <==> Breaks(old(source))
        invariant !more && window.rows == [] ==> Remaining() == [] && source == []
        decreases more, |Remaining()|
      {
        var ok;
        ok, more, window := GrowWindow(window);
        if !ok {
          return Err("the reader failed");
        }
      }
      if window.rows == [] {
        return Ok(None);
      }
      if window.coalesced {
        coalescedWindows := coalescedWindows + 1;
      }
      r := Ok(Some(window));
    }
  }

  /**
   The whole run: the windows of any reader concatenate to its rows, in order, and every window
   respects the budget.  A failing reader leaves windows that are a prefix of its rows.
   */
  method Drain(source: seq<Read>, windowBudget: nat, physicalWindowBudget: nat,
               incompressibleWindowBudget: nat, configuredRows: Option<nat>)
    returns (ok: bool, windows: seq<Window>)
    requires windowBudget > 0 && (configuredRows.Some? ==> configuredRows.value > 0)
    ensures ok ==> WindowRows(windows) == Upcoming(source)
    ensures WindowRows(windows) <= Upcoming(source)
    ensures ok <==> !Breaks(source)
    ensures forall i :: 0 <= i < |windows| ==> windows[i].rows != []
    ensures configuredRows.None? ==> forall i :: 0 <= i < |windows| ==>
              Size(windows[i].rows) <= windowBudget || |windows[i].rows| == 1
    ensures configuredRows.Some? ==> forall i :: 0 <= i < |windows| ==> |windows[i].rows| <= configuredRows.value
  {
    var scheduler := new IngestWindowScheduler(source, windowBudget, physicalWindowBudget,
                                               incompressibleWindowBudget, configuredRows);
    windows := [];
    while true
      invariant scheduler.Valid() && fresh(scheduler)
      invariant WindowRows(windows) + scheduler.Remaining() == Upcoming(source)
      invariant Breaks(scheduler.source) <==> Breaks(source)
      invariant Budgeted(scheduler, windows)
      decreases |scheduler.Remaining()|
    {
      ghost var before := scheduler.Remaining();
      var next := scheduler.NextWindow();
      if next.Err? {
        Prefix(WindowRows(windows), before);
        return false, windows;
      }
      if next.value.None? {
        return true, windows;
      }
      WindowsGrow(windows, next.value.value, scheduler.Remaining(), Upcoming(source));
      BudgetedMore(scheduler, windows, next.value.value);
      windows := windows + [next.value.value];
    }
  }

  /** Every window has rows and is within the budget of its mode. */
  ghost predicate Budgeted(scheduler: IngestWindowScheduler, windows: seq<Window>)
    reads scheduler
  {
    forall i :: 0 <= i < |windows| ==> windows[i].rows != [] && scheduler.WithinBudget(windows[i].rows)
  }

  lemma BudgetedMore(scheduler: IngestWindowScheduler, windows: seq<Window>, w: Window)
    requires Budgeted(scheduler, windows) && w.rows != [] && scheduler.WithinBudget(w.rows)
    ensures Budgeted(scheduler, windows + [w])
  {
  }

  lemma Prefix(a: Rows, b: Rows)
    ensures a <= a + b
  {
  }

  lemma WindowsGrow(windows: seq<Window>, w: Window, rest: Rows, whole: Rows)
    requires WindowRows(windows) + (w.rows + rest) == whole
    ensures WindowRows(windows + [w]) + rest == whole
  {
    assert (windows + [w])[..|windows|] == windows;
    Assoc(WindowRows(windows), w.rows, rest);
  }
}

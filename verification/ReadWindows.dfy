/**
 Reading a result in windows: a scheduler sizes each request from what earlier frames took, and the
 prefetch loop asks for one window after the other.
 */
module ReadWindows {
  import opened Arithmetic
  import opened Wrappers

  const EXPORT_GRANULE_ROWS: nat := 131_072
  const INITIAL_VARIABLE_READ_ROWS: nat := 1
  const MAX_READ_WINDOW_GROWTH: nat := 4

  // ----- Alignment -----

  predicate PowerOfTwo(n: nat) {
    n == 1 || (n >= 2 && n % 2 == 0 && PowerOfTwo(n / 2))
  }

  lemma Twice(n: nat)
    requires PowerOfTwo(n)
    ensures PowerOfTwo(n + n)
  {
    assert (n + n) / 2 == n && (n + n) % 2 == 0;
  }

  /** The highest bit of `n`. */
  function HighBit(n: nat): (p: nat)
    requires n >= 1
    ensures PowerOfTwo(p) && 1 <= p <= n < 2 * p
  {
    if n == 1 then 1
    else
      var half := HighBit(n / 2);
      Twice(half);
      half + half
  }

  lemma {:induction false} LargestPower(n: nat, p: nat)
    requires n >= 1 && PowerOfTwo(p) && p <= n
    ensures p <= HighBit(n)
  {
    if p > 1 {
      LargestPower(n / 2, p / 2);
    }
  }

  /** `a` is the largest power of two within the target and the export granule. */
  ghost predicate Alignment(a: nat, target: nat) {
    PowerOfTwo(a) && 1 <= a <= Min(target, EXPORT_GRANULE_ROWS) < 2 * a
  }

  /** Nothing larger would do. */
  lemma AlignmentIsLargest(a: nat, target: nat, p: nat)
    requires Alignment(a, target) && PowerOfTwo(p) && p <= target && p <= EXPORT_GRANULE_ROWS
    ensures p <= a
  {
    LargestPower(Min(target, EXPORT_GRANULE_ROWS), p);
    LargestPower(Min(target, EXPORT_GRANULE_ROWS), a);
    PowersApart(a, HighBit(Min(target, EXPORT_GRANULE_ROWS)));
  }

  lemma {:induction false} PowersApart(a: nat, b: nat)
    requires PowerOfTwo(a) && PowerOfTwo(b) && a <= b < 2 * a
    ensures a == b
  {
    if a > 1 {
      PowersApart(a / 2, b / 2);
    }
  }

  method ExportAlignmentRows(target: nat) returns (a: nat)
    ensures a >= 1 && (target >= 1 ==> Alignment(a, target))
  {
    a := HighBit(Max(1, Min(target, EXPORT_GRANULE_ROWS)));
  }

  /** A multiple of `a`. */
  predicate Multiple(n: nat, a: nat)
    requires a >= 1
  {
    n == 0 || (n >= a && Multiple(n - a, a))
  }

  /** The largest multiple of `a` up to `n`. */
  function RoundDown(n: nat, a: nat): (r: nat)
    requires a >= 1
    ensures Multiple(r, a) && r <= n < r + a
  {
    if n < a then 0 else a + RoundDown(n - a, a)
  }

  lemma QuotientUnique(x: nat, a: nat, q: nat, r: nat)
    requires a >= 1 && r < a && x == q * a + r
    ensures x % a == r
  {
    var d, m := x / a, x % a;
    assert x == d * a + m;
    if q < d {
      MulMono(q + 1, d, a);
    } else if q > d {
      MulMono(d + 1, q, a);
    }
  }

  lemma ModStep(n: nat, a: nat)
    requires 1 <= a <= n
    ensures n % a == (n - a) % a
  {
    var q, r := (n - a) / a, (n - a) % a;
    assert n - a == q * a + r;
    assert (q + 1) * a == q * a + a;
    QuotientUnique(n, a, q + 1, r);
  }

  lemma {:induction false} MultipleMeans(n: nat, a: nat)
    requires a >= 1
    ensures Multiple(n, a) <==> n % a == 0
  {
    if n >= a {
      ModStep(n, a);
      MultipleMeans(n - a, a);
    }
  }

  lemma {:induction false} RoundDownMeans(n: nat, a: nat)
    requires a >= 1
    ensures RoundDown(n, a) == n - n % a
  {
    if n >= a {
      ModStep(n, a);
      RoundDownMeans(n - a, a);
    }
  }

  method AlignDown(n: nat, a: nat) returns (r: nat)
    requires a >= 1
    ensures r == RoundDown(n, a)
  {
    RoundDownMeans(n, a);
    r := n - n % a;
  }

  lemma {:induction false} NoneBetween(r: nat, a: nat, n: nat)
    requires a >= 1 && Multiple(r, a) && r < n < r + a
    ensures !Multiple(n, a)
  {
    if r >= a {
      NoneBetween(r - a, a, n - a);
    }
  }

  lemma {:induction false} PowerIsMultiple(a: nat, b: nat)
    requires PowerOfTwo(a) && PowerOfTwo(b) && a <= b
    ensures b % a == 0
  {
    if a < b {
      if a > b / 2 {
        PowersApart(b / 2, a);
      } else {
        PowerIsMultiple(a, b / 2);
        var q := (b / 2) / a;
        assert b / 2 == q * a;
        assert b == (2 * q) * a + 0;
        QuotientUnique(b, a, 2 * q, 0);
      }
    } else {
      QuotientUnique(b, a, 1, 0);
    }
  }

  /** No word above `observed` is a multiple of the alignment. */
  predicate PastLastMultiple(observed: nat, alignment: nat)
    requires alignment >= 1
  {
    RoundDown(USIZE_MAX, alignment) <= observed
  }

  lemma GranuleIsPower()
    ensures PowerOfTwo(EXPORT_GRANULE_ROWS)
  {
    assert PowerOfTwo(256);
    assert PowerOfTwo(4096);
    assert PowerOfTwo(0x1_0000);
  }

  /** With the driver's alignments: the rows observed are within one alignment of the end of a word. */
  lemma PastLastMeans(observed: nat, alignment: nat)
    requires PowerOfTwo(alignment) && alignment <= EXPORT_GRANULE_ROWS
    ensures PastLastMultiple(observed, alignment) <==> USIZE_MAX < observed + alignment
  {
    LastRemainder(alignment);
    RoundDownMeans(USIZE_MAX, alignment);
  }

  lemma LastRemainder(alignment: nat)
    requires PowerOfTwo(alignment) && alignment <= EXPORT_GRANULE_ROWS
    ensures USIZE_MAX % alignment == alignment - 1
  {
    GranuleDivides(alignment);
    LastMultiple(alignment, EXPORT_GRANULE_ROWS / alignment);
  }

  lemma GranuleDivides(alignment: nat)
    requires PowerOfTwo(alignment) && alignment <= EXPORT_GRANULE_ROWS
    ensures alignment >= 1 && EXPORT_GRANULE_ROWS % alignment == 0
  {
    GranuleIsPower();
    PowerIsMultiple(alignment, EXPORT_GRANULE_ROWS);
  }

  /** A word is a whole number of granules. */
  lemma LastMultiple(alignment: nat, q: nat)
    requires alignment >= 1 && EXPORT_GRANULE_ROWS == q * alignment
    ensures USIZE_MAX % alignment == alignment - 1
  {
    var granules := 0x8000_0000_0000;
    assert USIZE_MAX + 1 == granules * EXPORT_GRANULE_ROWS;
    var times := granules * q;
    assert times * alignment == granules * (q * alignment);
    assert (times - 1) * alignment == times * alignment - alignment;
    assert times >= 1;
    QuotientUnique(USIZE_MAX, alignment, times - 1, alignment - 1);
  }

  // ----- One request -----

  /** What the scheduler knows when it sizes a request. */
  datatype Knowledge = Knowledge(
    exactBatchRows: Option<nat>, windowBudgetBytes: nat, fullGranuleFits: bool, estimatedBytesPerRow: nat,
    initialRowsLimit: Option<nat>, previousRows: Option<nat>, observedRows: nat)

  /** How a request is sized: the rows the budget holds, the rows to aim for, and the alignment of the end. */
  datatype Plan = Plan(fitting: nat, target: nat, alignment: nat)

  /** What the budget holds or a fitting granule, growing at most fourfold. */
  function Target(k: Knowledge, fitting: nat): nat {
    var most := Max(Max(fitting, 1), if k.fullGranuleFits then EXPORT_GRANULE_ROWS else 1);
    match k.previousRows
    case None => Min(most, if k.initialRowsLimit.Some? then k.initialRowsLimit.value else USIZE_MAX)
    case Some(previous) => Min(most, Saturate(previous * MAX_READ_WINDOW_GROWTH))
  }

  predicate Sound(k: Knowledge) {
    && k.estimatedBytesPerRow >= 1 && k.observedRows <= USIZE_MAX && k.windowBudgetBytes <= USIZE_MAX
    && (k.previousRows.Some? ==> k.previousRows.value >= 1)
    && (k.initialRowsLimit.Some? ==> k.initialRowsLimit.value >= 1)
    && (k.exactBatchRows.Some? ==> k.exactBatchRows.value >= 1)
  }

  ghost predicate PlanFor(k: Knowledge, plan: Plan) {
    && k.estimatedBytesPerRow >= 1 && plan.fitting == k.windowBudgetBytes / k.estimatedBytesPerRow
    && plan.target == Target(k, plan.fitting) && Alignment(plan.alignment, plan.target)
  }

  /** What a request must be: at least one row and no more than are left; unless fixed, sized and aligned. */
  ghost predicate Fair(k: Knowledge, plan: Plan, remaining: nat, rows: nat)
    requires plan.alignment >= 1
  {
    && 1 <= rows <= remaining
    && (k.exactBatchRows.Some? ==> rows == Min(k.exactBatchRows.value, remaining))
    && (k.exactBatchRows.None? ==>
          && (k.previousRows.Some? ==> rows <= MAX_READ_WINDOW_GROWTH * k.previousRows.value)
          && (k.previousRows.None? && k.initialRowsLimit.Some? ==> rows <= k.initialRowsLimit.value)
          && (rows <= plan.fitting || rows <= 1 || (k.fullGranuleFits && rows <= EXPORT_GRANULE_ROWS))
          && (rows == remaining || Multiple(k.observedRows + rows, plan.alignment)
              <==> !(remaining > 1 && PastLastMultiple(k.observedRows, plan.alignment))))
  }

  lemma WithinBudget(rows: nat, estimate: nat, budget: nat)
    requires estimate >= 1 && rows <= budget / estimate
    ensures rows * estimate <= budget
  {
    assert budget == budget / estimate * estimate + budget % estimate;
    MulMono(rows, budget / estimate, estimate);
  }

  /** A fair request fits the window's bytes by the estimate, unless it is one row or a fitting granule. */
  lemma FairFitsBytes(k: Knowledge, plan: Plan, remaining: nat, rows: nat)
    requires PlanFor(k, plan) && Fair(k, plan, remaining, rows) && k.exactBatchRows.None?
    ensures rows * k.estimatedBytesPerRow <= k.windowBudgetBytes || rows == 1 || (k.fullGranuleFits && rows <= EXPORT_GRANULE_ROWS)
  {
    if rows <= plan.fitting {
      WithinBudget(rows, k.estimatedBytesPerRow, k.windowBudgetBytes);
    }
  }

  /**
   From the rows observed to the aligned end of the target, or to the end of the result.  It ends
   aligned or clipped unless several rows remain and no word above the rows observed is aligned.
   */
  method Span(observed: nat, target: nat, alignment: nat, remaining: nat) returns (rows: nat)
    requires 1 <= alignment <= target && remaining >= 1 && observed + remaining <= USIZE_MAX
    ensures 1 <= rows <= remaining && rows <= target
    ensures rows == remaining || Multiple(observed + rows, alignment)
       <==> !(remaining > 1 && PastLastMultiple(observed, alignment))
  {
    var targetEnd := Saturate(observed + target);
    var alignedEnd := AlignDown(targetEnd, alignment);
    var span: nat := if alignedEnd >= observed then alignedEnd - observed else 0;
    rows := Min(Max(span, 1), remaining);
    SpanEnds(observed, target, alignment, alignedEnd);
    if remaining > 1 && PastLastMultiple(observed, alignment) {
      NoneBetween(RoundDown(USIZE_MAX, alignment), alignment, observed + 1);
    }
  }

  /** The aligned end lies beyond the rows observed exactly when some aligned word does. */
  lemma SpanEnds(observed: nat, target: nat, alignment: nat, alignedEnd: nat)
    requires 1 <= alignment <= target && observed <= USIZE_MAX
    requires alignedEnd == RoundDown(Saturate(observed + target), alignment)
    ensures alignedEnd > observed <==> !PastLastMultiple(observed, alignment)
  {
    RoundDownMono(Saturate(observed + target), USIZE_MAX, alignment);
  }

  lemma {:induction false} RoundDownMono(m: nat, n: nat, a: nat)
    requires a >= 1 && m <= n
    ensures RoundDown(m, a) <= RoundDown(n, a)
  {
    if m >= a {
      RoundDownMono(m - a, n - a, a);
    }
  }

  /** Four rows before the end of a word, with three to come, a request is for one row and ends unaligned. */
  lemma UnalignedRequest(k: Knowledge, plan: Plan, rows: nat)
    requires k.exactBatchRows.None? && k.observedRows == USIZE_MAX - 3 && plan.alignment == 4
    requires Fair(k, plan, 3, rows)
    ensures rows != 3 && !Multiple(k.observedRows + rows, 4)
  {
    RoundDownMeans(USIZE_MAX, 4);
  }

  /** A request for rows from `start` on, with what was known and planned. */
  datatype Request = Request(known: Knowledge, plan: Plan, start: nat, rows: nat)

  ghost predicate FairRequest(r: Request, total: nat) {
    && r.known.observedRows == r.start < total && r.plan.alignment >= 1 && Fair(r.known, r.plan, total - r.start, r.rows)
    && (r.known.exactBatchRows.None? ==> PlanFor(r.known, r.plan))
  }

  /** `estimate` is the least positive size per row at which the rows account for all bytes. */
  ghost predicate LeastPerRow(estimate: nat, bytes: nat, rows: nat) {
    1 <= estimate && bytes <= estimate * rows && (estimate > 1 ==> (estimate - 1) * rows < bytes)
  }

  lemma RoundedUp(bytes: nat, rows: nat)
    requires rows > 0
    ensures LeastPerRow(Max((bytes + (rows - 1)) / rows, 1), bytes, rows)
  {
    var q, r := (bytes + (rows - 1)) / rows, (bytes + (rows - 1)) % rows;
    assert q * rows + r == bytes + (rows - 1) && 0 <= r < rows;
    assert q > 1 ==> (q - 1) * rows == q * rows - rows;
  }

  /** What is known after a frame of `bytes` bytes and `rows` rows. */
  function Observed(k: Knowledge, bytes: nat, rows: nat): Knowledge {
    k.(observedRows := Saturate(k.observedRows + rows),
       estimatedBytesPerRow :=
         if k.exactBatchRows.None? && rows > 0 then Max(Saturate(bytes + (rows - 1)) / rows, 1) else k.estimatedBytesPerRow)
  }

  class ReadWindowScheduler {
    const exactBatchRows: Option<nat>
    const windowBudgetBytes: nat
    const fullGranuleFits: bool
    const initialRowsLimit: Option<nat>
    var estimatedBytesPerRow: nat
    var previousRows: Option<nat>
    var observedRows: nat

    function Known(): Knowledge
      reads this
    {
      Knowledge(exactBatchRows, windowBudgetBytes, fullGranuleFits, estimatedBytesPerRow, initialRowsLimit, previousRows,
                observedRows)
    }

    ghost predicate Valid()
      reads this
    {
      Sound(Known())
    }

    /** `granuleBytes` is the size of a full granule and `estimate` the estimated row, both from the columns. */
    constructor (batchRows: nat, windowBudgetBytes: nat, granuleBytes: Option<nat>, estimate: nat, fixedWidth: bool)
      requires windowBudgetBytes <= USIZE_MAX
      ensures Valid() && previousRows == None && observedRows == 0 && this.windowBudgetBytes == windowBudgetBytes
      ensures exactBatchRows == if batchRows > 0 then Some(batchRows) else None
      ensures fullGranuleFits <==> granuleBytes.Some? && granuleBytes.value <= windowBudgetBytes
      ensures initialRowsLimit == if fixedWidth then None else Some(INITIAL_VARIABLE_READ_ROWS)
    {
      exactBatchRows := if batchRows > 0 then Some(batchRows) else None;
      this.windowBudgetBytes := windowBudgetBytes;
      fullGranuleFits := granuleBytes.Some? && granuleBytes.value <= windowBudgetBytes;
      initialRowsLimit := if fixedWidth then None else Some(INITIAL_VARIABLE_READ_ROWS);
      estimatedBytesPerRow := Max(estimate, 1);
      previousRows, observedRows := None, 0;
    }

    method NextRows(remaining: nat) returns (rows: nat, request: Request)
      requires Valid() && 0 < remaining && observedRows + remaining <= USIZE_MAX
      modifies this`previousRows
      ensures Valid() && previousRows == Some(rows)
      ensures Known() == old(Known()).(previousRows := Some(rows))
      ensures request.known == old(Known()) && request.start == observedRows && request.rows == rows
      ensures FairRequest(request, observedRows + remaining)
    {
      request := Request(Known(), Plan(0, 0, 1), observedRows, 0);
      if exactBatchRows.Some? {
        rows := Min(exactBatchRows.value, remaining);
      } else {
        var plan;
        rows, plan := AlignedRows(remaining);
        request := request.(plan := plan);
      }
      request := request.(rows := rows);
      previousRows := Some(rows);
    }

    method AlignedRows(remaining: nat) returns (rows: nat, plan: Plan)
      requires Valid() && 0 < remaining && observedRows + remaining <= USIZE_MAX && exactBatchRows.None?
      ensures PlanFor(Known(), plan) && Fair(Known(), plan, remaining, rows)
    {
      var fitting := windowBudgetBytes / estimatedBytesPerRow;
      var target := Target(Known(), fitting);
      var alignment := ExportAlignmentRows(target);
      rows := Span(observedRows, target, alignment, remaining);
      plan := Plan(fitting, target, alignment);
    }

    method Observe(bytes: nat, rows: nat)
      requires Valid()
      modifies this`observedRows, this`estimatedBytesPerRow
      ensures Valid() && Known() == Observed(old(Known()), bytes, rows)
      ensures exactBatchRows.Some? || rows == 0 ==> estimatedBytesPerRow == old(estimatedBytesPerRow)
      ensures exactBatchRows.None? && rows > 0 && bytes + rows <= USIZE_MAX ==> LeastPerRow(estimatedBytesPerRow, bytes, rows)
    {
      observedRows := Saturate(observedRows + rows);
      if exactBatchRows.None? && rows > 0 {
        estimatedBytesPerRow := Max(Saturate(bytes + (rows - 1)) / rows, 1);
        if bytes + rows <= USIZE_MAX {
          RoundedUp(bytes, rows);
        }
      }
    }
  }

  // ----- The prefetch loop -----

  /** The header of a frame, as far as the loop looks at it, and the length of the response. */
  datatype Frame = Frame(resultId: int, startRow: nat, rowCount: nat, length: nat)

  /** What the server sends for a request: a frame, or nothing usable. */
  datatype Reply = Sent(frame: Frame) | NoFrame

  datatype Stop = Complete | Refused | WrongResult | WrongStart | TooManyRows | Empty

  /** A window that was handed on: what was asked for, and the frame that came. */
  datatype Window = Window(request: Request, frame: Frame) {
    const rows := frame.rowCount
  }

  /** What the server sends, by the number of the request, its first row and how many rows it asks for. */
  type Server = (nat, nat, nat) -> Reply

  /** Every reply is a frame of this result, from the row asked for, with between 1 and the requested rows. */
  ghost predicate Obliging(server: Server, resultId: nat) {
    forall n, start, requested :: requested >= 1 ==> Serves(server(n, start, requested), resultId, start, requested)
  }

  predicate Serves(reply: Reply, resultId: nat, start: nat, requested: nat) {
    Fault(reply, resultId, start, requested).None? && reply.frame.rowCount >= 1
  }

  /** What the scheduler knows after a window. */
  function AfterWindow(w: Window): Knowledge {
    Observed(w.request.known.(previousRows := Some(w.request.rows)), w.frame.length, w.frame.rowCount)
  }

  /** What the scheduler knows before request `i`: at first what it began with, then what the window before taught it. */
  function KnownBefore(initial: Knowledge, windows: seq<Window>, i: nat): Knowledge
    requires i <= |windows|
  {
    if i == 0 then initial else AfterWindow(windows[i - 1])
  }

  /** Window `n` is what the server sent for its request. */
  ghost predicate CameFrom(server: Server, resultId: nat, n: nat, w: Window) {
    && server(n, w.request.start, w.request.rows) == Sent(w.frame)
    && Fault(Sent(w.frame), resultId, w.request.start, w.request.rows).None?
  }

  /** The windows follow each other from row 0 and end at `next`; each knows the request before it. */
  ghost predicate Tiles(windows: seq<Window>, next: nat) {
    if windows == [] then next == 0
    else
      var w := windows[|windows| - 1];
      && w.request.start + w.rows == next && w.rows <= w.request.rows
      && w.request.known.previousRows == LastRequest(windows[..|windows| - 1])
      && Tiles(windows[..|windows| - 1], w.request.start)
  }

  ghost function LastRequest(windows: seq<Window>): Option<nat> {
    if windows == [] then None else Some(windows[|windows| - 1].request.rows)
  }

  lemma TilesMore(windows: seq<Window>, next: nat, w: Window)
    requires Tiles(windows, next) && w.request.start == next && w.rows <= w.request.rows
    requires w.request.known.previousRows == LastRequest(windows)
    ensures Tiles(windows + [w], next + w.rows)
  {
    assert (windows + [w])[..|windows|] == windows;
  }

  /** Why a reply cannot be used, if it cannot. */
  function Fault(reply: Reply, resultId: nat, nextRow: nat, requested: nat): (stop: Option<Stop>)
    ensures stop != Some(Complete) && stop != Some(Empty)
  {
    if reply.NoFrame? then Some(Refused)
    else if reply.frame.resultId != resultId then Some(WrongResult)
    else if reply.frame.startRow != nextRow then Some(WrongStart)
    else if reply.frame.rowCount > requested then Some(TooManyRows)
    else None
  }

  /** Windows come in row order and do not overlap. */
  lemma {:induction false} TilesInOrder(windows: seq<Window>, next: nat, i: nat, j: nat)
    requires Tiles(windows, next) && i < j < |windows|
    ensures windows[i].request.start + windows[i].rows <= windows[j].request.start
  {
    var n := |windows| - 1;
    if j < n {
      TilesInOrder(windows[..n], windows[n].request.start, i, j);
    } else if i < n - 1 {
      TilesInOrder(windows[..n], windows[n].request.start, i, n - 1);
    }
  }

  /** Every row up to `next` is in one of them. */
  lemma {:induction false} TilesCover(windows: seq<Window>, next: nat, row: nat) returns (i: nat)
    requires Tiles(windows, next) && row < next
    ensures i < |windows| && windows[i].request.start <= row < windows[i].request.start + windows[i].rows
    decreases |windows|
  {
    var n := |windows| - 1;
    if windows[n].request.start <= row {
      i := n;
    } else {
      i := TilesCover(windows[..n], windows[n].request.start, row);
    }
  }

  /** The scheduler has seen the windows up to row `next`. */
  ghost predicate Following(scheduler: ReadWindowScheduler, initial: Knowledge, windows: seq<Window>, next: nat, total: nat)
    reads scheduler
  {
    && scheduler.Known() == KnownBefore(initial, windows, |windows|) && scheduler.Valid() && scheduler.observedRows == next <= total <= USIZE_MAX
    && scheduler.previousRows == LastRequest(windows) && Tiles(windows, next)
  }

  /** Asks for one window and hands on what came, unless it is unusable. */
  method FetchWindow(scheduler: ReadWindowScheduler, resultId: nat, nextRow: nat, total: nat, server: Server,
                     windows: seq<Window>, ghost initial: Knowledge)
    returns (request: Request, fault: Option<Stop>, after: seq<Window>)
    requires nextRow < total && Following(scheduler, initial, windows, nextRow, total)
    modifies scheduler
    ensures FairRequest(request, total) && request.start == nextRow && request.known == old(scheduler.Known())
    ensures fault == Fault(server(|windows|, nextRow, request.rows), resultId, nextRow, request.rows)
    ensures fault.Some? ==> after == windows
    ensures fault.None? ==>
              && |after| == |windows| + 1 && after[..|windows|] == windows
              && after[|windows|].request == request && CameFrom(server, resultId, |windows|, after[|windows|])
              && Following(scheduler, initial, after, nextRow + after[|windows|].rows, total)
  {
    var requested;
    requested, request := scheduler.NextRows(total - nextRow);
    var reply := server(|windows|, nextRow, requested);
    fault := Fault(reply, resultId, nextRow, requested);
    after := windows;
    if fault.None? {
      scheduler.Observe(reply.frame.length, reply.frame.rowCount);
      TilesMore(windows, nextRow, Window(request, reply.frame));
      after := windows + [Window(request, reply.frame)];
    }
  }

  /** Why the loop stopped: the end, an empty window, or the reply to the request that was made next. */
  ghost predicate Explained(stop: Stop, server: Server, resultId: nat, initial: Knowledge, windows: seq<Window>, next: nat,
                            total: nat)
  {
    match stop
    case Complete => next == total && AllHaveRows(windows)
    case Empty => windows != [] && windows[|windows| - 1].rows == 0 && AllHaveRows(windows[..|windows| - 1])
    case _ => AllHaveRows(windows) && exists request: Request ::
      && FairRequest(request, total) && request.start == next && request.known == KnownBefore(initial, windows, |windows|)
      && Fault(server(|windows|, next, request.rows), resultId, next, request.rows) == Some(stop)
  }

  ghost predicate AllHaveRows(windows: seq<Window>) {
    forall i :: 0 <= i < |windows| ==> windows[i].rows > 0
  }

  /** Every window was requested fairly, with what the scheduler knew then, and is what the server sent. */
  ghost predicate AllCameFrom(server: Server, resultId: nat, initial: Knowledge, windows: seq<Window>, total: nat) {
    forall i :: 0 <= i < |windows| ==> Fetched(server, resultId, initial, windows, i, total)
  }

  ghost predicate Fetched(server: Server, resultId: nat, initial: Knowledge, windows: seq<Window>, i: nat, total: nat)
    requires i < |windows|
  {
    && FairRequest(windows[i].request, total) && windows[i].request.known == KnownBefore(initial, windows, i)
    && CameFrom(server, resultId, i, windows[i])
  }

  lemma AfterWindowKnows(w: Window)
    ensures var k, known := w.request.known, AfterWindow(w);
            && known.exactBatchRows == k.exactBatchRows && known.windowBudgetBytes == k.windowBudgetBytes
            && known.fullGranuleFits == k.fullGranuleFits && known.initialRowsLimit == k.initialRowsLimit
            && known.previousRows == Some(w.request.rows)
    ensures w.request.known.exactBatchRows.None? && w.rows > 0 && w.frame.length + w.rows <= USIZE_MAX ==>
              LeastPerRow(AfterWindow(w).estimatedBytesPerRow, w.frame.length, w.rows)
  {
    if w.rows > 0 {
      RoundedUp(w.frame.length, w.rows);
    }
  }

  /**
   Without a fixed batch size, a request is at most four times the one before, fits the bytes by the
   least size per row of the frame before, and ends aligned or clipped with the one exception.
   */
  lemma RequestsAreFair(server: Server, resultId: nat, initial: Knowledge, windows: seq<Window>, total: nat, i: nat)
    requires AllCameFrom(server, resultId, initial, windows, total) && 0 < i < |windows| && initial.exactBatchRows.None?
    requires windows[i - 1].rows > 0
    ensures Fetched(server, resultId, initial, windows, i, total)
    ensures var before, r := windows[i - 1], windows[i].request;
            && r.known.exactBatchRows.None? && r.known.windowBudgetBytes == initial.windowBudgetBytes
            && r.rows <= MAX_READ_WINDOW_GROWTH * before.request.rows
            && (before.frame.length + before.rows <= USIZE_MAX ==>
                  LeastPerRow(r.known.estimatedBytesPerRow, before.frame.length, before.rows))
            && (r.rows * r.known.estimatedBytesPerRow <= initial.windowBudgetBytes || r.rows == 1
                || (initial.fullGranuleFits && r.rows <= EXPORT_GRANULE_ROWS))
            && (r.rows == total - r.start || Multiple(r.start + r.rows, r.plan.alignment)
                <==> !(total - r.start > 1 && PastLastMultiple(r.start, r.plan.alignment)))
  {
    var r := windows[i].request;
    assert Fetched(server, resultId, initial, windows, i, total);
    SettingsStay(server, resultId, initial, windows, total, i - 1);
    AfterWindowKnows(windows[i - 1]);
    FairFitsBytes(r.known, r.plan, total - r.start, r.rows);
  }

  /** The scheduler's settings never change. */
  lemma {:induction false} SettingsStay(server: Server, resultId: nat, initial: Knowledge, windows: seq<Window>, total: nat, i: nat)
    requires AllCameFrom(server, resultId, initial, windows, total) && i < |windows|
    ensures var k := windows[i].request.known;
            && k.exactBatchRows == initial.exactBatchRows && k.windowBudgetBytes == initial.windowBudgetBytes
            && k.fullGranuleFits == initial.fullGranuleFits && k.initialRowsLimit == initial.initialRowsLimit
  {
    assert Fetched(server, resultId, initial, windows, i, total);
    if i > 0 {
      SettingsStay(server, resultId, initial, windows, total, i - 1);
      AfterWindowKnows(windows[i - 1]);
    }
  }

  /** An obliging server is asked until all rows have come. */
  lemma ObligedToComplete(stop: Stop, server: Server, resultId: nat, initial: Knowledge, windows: seq<Window>, next: nat,
                          total: nat)
    requires Explained(stop, server, resultId, initial, windows, next, total) && Obliging(server, resultId)
    requires AllCameFrom(server, resultId, initial, windows, total)
    ensures stop.Complete? && next == total
  {
    forall i | 0 <= i < |windows| ensures windows[i].rows > 0 {
      var r := windows[i].request;
      assert Fetched(server, resultId, initial, windows, i, total);
      assert Serves(server(i, r.start, r.rows), resultId, r.start, r.rows);
    }
    forall r: Request | FairRequest(r, total) ensures Fault(server(|windows|, next, r.rows), resultId, next, r.rows).None? {
      assert Serves(server(|windows|, next, r.rows), resultId, next, r.rows);
    }
  }

  /**
   Asks for window after window.  The windows handed on are what the server sent, tile the rows from 0
   in order, and are requested fairly with what the scheduler knew; the loop stops at the end or for the
   reason there is.  When every reply holds between 1 and the requested rows, the windows tile all rows.
   */
  method FetchBinaryFrames(scheduler: ReadWindowScheduler, resultId: nat, total: nat, server: Server)
    returns (stop: Stop, windows: seq<Window>, next: nat)
    requires scheduler.Valid() && scheduler.observedRows == 0 && scheduler.previousRows == None && total <= USIZE_MAX
    modifies scheduler
    ensures Tiles(windows, next) && next <= total
    ensures AllCameFrom(server, resultId, old(scheduler.Known()), windows, total)
    ensures Explained(stop, server, resultId, old(scheduler.Known()), windows, next, total)
    ensures Obliging(server, resultId) ==> stop.Complete? && next == total
  {
    ghost var initial := scheduler.Known();
    windows, next := [], 0;
    stop := Complete;
    while next < total
      invariant Following(scheduler, initial, windows, next, total)
      invariant AllCameFrom(server, resultId, initial, windows, total) && AllHaveRows(windows) && stop == Complete
    {
      var request, fault, after := FetchWindow(scheduler, resultId, next, total, server, windows, initial);
      if fault.Some? {
        stop := fault.value;
        break;
      }
      AllCameFromMore(server, resultId, initial, windows, after, total);
      var rows := after[|windows|].rows;
      windows := after;
      if rows == 0 {
        stop := Empty;
        break;
      }
      next := next + rows;
    }
    if Obliging(server, resultId) {
      ObligedToComplete(stop, server, resultId, initial, windows, next, total);
    }
  }

  lemma AllCameFromMore(server: Server, resultId: nat, initial: Knowledge, windows: seq<Window>, after: seq<Window>, total: nat)
    requires AllCameFrom(server, resultId, initial, windows, total) && |after| == |windows| + 1 && after[..|windows|] == windows
    requires FairRequest(after[|windows|].request, total) && CameFrom(server, resultId, |windows|, after[|windows|])
    requires after[|windows|].request.known == KnownBefore(initial, windows, |windows|)
    ensures AllCameFrom(server, resultId, initial, after, total)
    ensures AllHaveRows(windows) && after[|windows|].rows > 0 ==> AllHaveRows(after)
  {
    forall i: nat | i < |after| ensures Fetched(server, resultId, initial, after, i, total) {
      assert i < |windows| ==> Fetched(server, resultId, initial, windows, i, total) && after[i] == windows[i];
      assert 0 < i ==> after[i - 1] == windows[i - 1];
    }
    assert forall i :: 0 <= i < |windows| ==> after[i] == windows[i];
  }
}

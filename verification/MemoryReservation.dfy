/**
 The ingest memory reservation: threads reserve by weak compare-and-swap on one shared counter and
 release on drop, in any interleaving.
 */
module MemoryReservation {
  import opened Arithmetic
  import opened Wrappers

  const ENCODE_STAGING_BYTES: nat := 16 * 1024 * 1024
  const SOURCE_BYTES: nat := 64 * 1024 * 1024

  function ReservationBytes(windowBudget: nat): nat {
    Saturate(Saturate(Saturate(windowBudget + ENCODE_STAGING_BYTES) * 2) + SOURCE_BYTES)
  }

  function Allowed(limit: nat): nat {
    Saturate(limit * 9) / 10
  }

  /** Additions that leave 64 bits do not fit. */
  predicate Fits(allowed: nat, current: nat, reserved: nat, requested: nat) {
    current + reserved <= USIZE_MAX && current + reserved + requested <= USIZE_MAX
    && current + reserved + requested <= allowed
  }

  // ----- Threads and their atomic steps -----

  /** One ingest: not reserving, between its load and a successful exchange, or holding its bytes. */
  datatype Ingest =
    | Idle
    | Trying(bytes: nat, limit: nat, current: nat, reserved: nat)
    | Holding(bytes: nat)

  datatype State = State(counter: nat, ingests: seq<Ingest>)

  /** A step of one ingest; `cgroup` is what it reads of the limit and the usage, if there is a limit. */
  datatype Step =
    | Start(ingest: nat, windowBudget: nat, cgroup: Option<(nat, nat)>)
    | Exchange(ingest: nat, spurious: bool)
    | Drop(ingest: nat)

  function HeldBy(i: Ingest): nat {
    if i.Holding? then i.bytes else 0
  }

  function Held(ingests: seq<Ingest>): nat {
    if ingests == [] then 0 else Held(ingests[..|ingests| - 1]) + HeldBy(ingests[|ingests| - 1])
  }

  /** Subtraction on the shared counter wraps around. */
  function FetchSub(counter: nat, bytes: nat): nat {
    if bytes <= counter then counter - bytes else (counter - bytes) % (USIZE_MAX + 1)
  }

  predicate Possible(s: State, step: Step) {
    && step.ingest < |s.ingests|
    && match step {
         case Start(i, _, _) => s.ingests[i].Idle?
         case Exchange(i, _) => s.ingests[i].Trying?
         case Drop(i) => s.ingests[i].Holding?
       }
  }

  function Become(s: State, i: nat, ingest: Ingest): State
    requires i < |s.ingests|
  {
    s.(ingests := s.ingests[i := ingest])
  }

  function Next(s: State, step: Step): State
    requires Possible(s, step)
  {
    match step
    case Start(i, budget, cgroup) =>
      if cgroup.None? then Become(s, i, Holding(0))
      else Become(s, i, Trying(ReservationBytes(budget), cgroup.value.0, cgroup.value.1, s.counter))
    case Exchange(i, spurious) =>
      var t := s.ingests[i];
      if !Fits(Allowed(t.limit), t.current, t.reserved, t.bytes) then Become(s, i, Idle)
      else if s.counter == t.reserved && !spurious then
        Become(s.(counter := Saturate(t.reserved + t.bytes)), i, Holding(t.bytes))
      else Become(s, i, t.(reserved := s.counter))
    case Drop(i) =>
      var bytes := s.ingests[i].bytes;
      Become(if bytes > 0 then s.(counter := FetchSub(s.counter, bytes)) else s, i, Idle)
  }

  // ----- What every interleaving keeps -----

  predicate Limited(i: Ingest, limit: nat) {
    i.Trying? ==> i.limit == limit
  }

  /** The counter is the sum of the live reservations, within 64 bits. */
  ghost predicate Balanced(s: State) {
    s.counter == Held(s.ingests) <= USIZE_MAX
  }

  /** Everyone who is trying has read the same limit, and the reservations are within 90% of it. */
  ghost predicate Bounded(s: State, limit: nat) {
    && 10 * s.counter <= 9 * limit
    && forall i :: 0 <= i < |s.ingests| ==> Limited(s.ingests[i], limit)
  }

  predicate ReadsLimit(step: Step, limit: nat) {
    step.Start? && step.cgroup.Some? ==> step.cgroup.value.0 == limit
  }

  lemma {:induction false} HeldAfter(ingests: seq<Ingest>, i: nat, ingest: Ingest)
    requires i < |ingests|
    ensures Held(ingests[i := ingest]) == Held(ingests) - HeldBy(ingests[i]) + HeldBy(ingest)
  {
    var n := |ingests| - 1;
    var after := ingests[i := ingest];
    if i < n {
      HeldAfter(ingests[..n], i, ingest);
      assert after[..n] == ingests[..n][i := ingest];
    } else {
      assert after[..n] == ingests[..n];
    }
  }

  lemma {:induction false} HeldOne(ingests: seq<Ingest>, i: nat)
    requires i < |ingests|
    ensures HeldBy(ingests[i]) <= Held(ingests)
  {
    var n := |ingests| - 1;
    if i < n {
      HeldOne(ingests[..n], i);
    }
  }

  /** No subtraction wraps: what an ingest gives back is in the counter. */
  lemma NeverUnderflows(s: State, i: nat)
    requires Balanced(s) && i < |s.ingests| && s.ingests[i].Holding?
    ensures s.ingests[i].bytes <= s.counter && FetchSub(s.counter, s.ingests[i].bytes) == s.counter - s.ingests[i].bytes
  {
    HeldOne(s.ingests, i);
  }

  lemma StepKeepsBalance(s: State, step: Step)
    requires Balanced(s) && Possible(s, step)
    ensures Balanced(Next(s, step))
  {
    var after := Next(s, step);
    HeldAfter(s.ingests, step.ingest, after.ingests[step.ingest]);
    if step.Drop? {
      NeverUnderflows(s, step.ingest);
    }
  }

  lemma StepKeepsBound(s: State, step: Step, limit: nat)
    requires Balanced(s) && Bounded(s, limit) && Possible(s, step) && ReadsLimit(step, limit)
    ensures Bounded(Next(s, step), limit)
  {
    if step.Drop? {
      NeverUnderflows(s, step.ingest);
    }
  }

  /** A granted reservation fits the memory in use together with all live reservations. */
  lemma GrantFits(s: State, step: Step)
    requires Balanced(s) && Possible(s, step) && step.Exchange? && Next(s, step).ingests[step.ingest].Holding?
    ensures var t := s.ingests[step.ingest];
            t.current + Held(Next(s, step).ingests) <= Allowed(t.limit) && 10 * Allowed(t.limit) <= 9 * t.limit
  {
    StepKeepsBalance(s, step);
  }

  // ----- Whole runs -----

  predicate Schedule(s: State, steps: seq<Step>)
    decreases |steps|
  {
    steps == [] || (Possible(s, steps[0]) && Schedule(Next(s, steps[0]), steps[1..]))
  }

  function After(s: State, steps: seq<Step>): State
    requires Schedule(s, steps)
    decreases |steps|
  {
    if steps == [] then s else After(Next(s, steps[0]), steps[1..])
  }

  function Initial(n: nat): (s: State) {
    State(0, seq(n, _ => Idle))
  }

  lemma {:induction false} InitialBalanced(n: nat)
    ensures Balanced(Initial(n))
  {
    if n > 0 {
      InitialBalanced(n - 1);
      assert Initial(n).ingests[..n - 1] == Initial(n - 1).ingests;
    }
  }

  /** In every interleaving the counter is the sum of the live reservations. */
  lemma {:induction false} RunsStayBalanced(s: State, steps: seq<Step>)
    requires Balanced(s) && Schedule(s, steps)
    ensures Balanced(After(s, steps))
    decreases |steps|
  {
    if steps != [] {
      StepKeepsBalance(s, steps[0]);
      RunsStayBalanced(Next(s, steps[0]), steps[1..]);
    }
  }

  /** With a constant limit, no interleaving reserves more than 90% of it. */
  lemma {:induction false} RunsStayBounded(s: State, steps: seq<Step>, limit: nat)
    requires Balanced(s) && Bounded(s, limit) && Schedule(s, steps)
    requires forall k :: 0 <= k < |steps| ==> ReadsLimit(steps[k], limit)
    ensures Balanced(After(s, steps)) && Bounded(After(s, steps), limit)
    decreases |steps|
  {
    if steps != [] {
      StepKeepsBalance(s, steps[0]);
      StepKeepsBound(s, steps[0], limit);
      RunsStayBounded(Next(s, steps[0]), steps[1..], limit);
    }
  }

  /** From the start, for any number of ingests and any schedule. */
  lemma Reservations(n: nat, steps: seq<Step>, limit: nat)
    requires Schedule(Initial(n), steps)
    requires forall k :: 0 <= k < |steps| ==> ReadsLimit(steps[k], limit)
    ensures var s := After(Initial(n), steps);
            s.counter == Held(s.ingests) && 10 * s.counter <= 9 * limit
  {
    InitialBalanced(n);
    RunsStayBounded(Initial(n), steps, limit);
  }
}

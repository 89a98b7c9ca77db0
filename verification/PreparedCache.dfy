/**
 The least-recently-used cache of prepared statements as the driver keeps it: a map whose entries carry
 the stamp of their last use.  It is proved to do what the recency list does.
 */
module PreparedCache {
  import opened Wrappers
  import opened PreparedKeys
  import opened RecencyList

  const U64_MAX: nat := 0xFFFF_FFFF_FFFF_FFFF

  datatype Cached = Cached(outcome: Outcome, lastUsed: nat)

  type Entries = map<string, Cached>

  // ----- Maps with stamps and lists in order of use -----

  /** The entries are the items; stamps grow along the list and end at or below `bound`. */
  ghost predicate Represents(entries: Entries, items: seq<Item>, bound: int) {
    if items == [] then entries == map[]
    else
      var last := items[|items| - 1];
      && last.key in entries && entries[last.key].outcome == last.outcome && entries[last.key].lastUsed <= bound
      && Represents(entries - {last.key}, items[..|items| - 1], entries[last.key].lastUsed - 1)
  }

  function OutcomeOf(entries: Entries, key: string): Option<Outcome> {
    if key in entries then Some(entries[key].outcome) else None
  }

  lemma {:induction false} SameOutcome(entries: Entries, items: seq<Item>, bound: int, key: string)
    requires Represents(entries, items, bound)
    ensures OutcomeOf(entries, key) == Find(items, key) && (key in entries ==> entries[key].lastUsed <= bound)
  {
    if items != [] {
      var last := items[|items| - 1];
      SameOutcome(entries - {last.key}, items[..|items| - 1], entries[last.key].lastUsed - 1, key);
    }
  }

  lemma {:induction false} SameSize(entries: Entries, items: seq<Item>, bound: int)
    requires Represents(entries, items, bound)
    ensures |entries| == |items|
  {
    if items != [] {
      var last := items[|items| - 1];
      SameSize(entries - {last.key}, items[..|items| - 1], entries[last.key].lastUsed - 1);
      assert (entries - {last.key}).Keys == entries.Keys - {last.key};
    }
  }

  lemma LaterBound(entries: Entries, items: seq<Item>, bound: int, later: int)
    requires Represents(entries, items, bound) && bound <= later
    ensures Represents(entries, items, later)
  {
  }

  lemma {:induction false} Removed(entries: Entries, items: seq<Item>, bound: int, key: string)
    requires Represents(entries, items, bound)
    ensures Represents(entries - {key}, Without(items, key), bound)
  {
    if items == [] {
      assert entries - {key} == map[];
    } else {
      var init, last := items[..|items| - 1], items[|items| - 1];
      var earlier: int := entries[last.key].lastUsed - 1;
      Removed(entries - {last.key}, init, earlier, key);
      if last.key == key {
        assert entries - {key} - {key} == entries - {key};
        LaterBound(entries - {key}, Without(init, key), earlier, bound);
      } else {
        assert entries - {last.key} - {key} == entries - {key} - {last.key};
        assert (Without(init, key) + [last])[..|Without(init, key)|] == Without(init, key);
      }
    }
  }

  lemma Stored(entries: Entries, items: seq<Item>, bound: int, key: string, outcome: Outcome, stamp: nat)
    requires Represents(entries, items, bound) && bound < stamp
    ensures Represents(entries[key := Cached(outcome, stamp)], Used(items, key, outcome), stamp)
  {
    var after := entries[key := Cached(outcome, stamp)];
    Removed(entries, items, bound, key);
    assert after - {key} == entries - {key};
    LaterBound(entries - {key}, Without(items, key), bound, stamp - 1);
    assert Used(items, key, outcome)[..|Without(items, key)|] == Without(items, key);
  }

  /** The first item is the one with the smallest stamp, and can be taken away. */
  lemma {:induction false} FirstIsOldest(entries: Entries, items: seq<Item>, bound: int)
    requires Represents(entries, items, bound) && items != []
    ensures var first := items[0].key;
            && first in entries
            && (forall q :: q in entries && q != first ==> entries[first].lastUsed < entries[q].lastUsed)
            && Represents(entries - {first}, items[1..], bound)
  {
    var init, last := items[..|items| - 1], items[|items| - 1];
    var earlier: int := entries[last.key].lastUsed - 1;
    if init == [] {
      assert items[1..] == [] && entries - {last.key} == map[];
      forall q | q in entries ensures q == last.key {
        assert q !in entries - {last.key};
      }
    } else {
      var first := items[0].key;
      FirstIsOldest(entries - {last.key}, init, earlier);
      SameOutcome(entries - {last.key}, init, earlier, first);
      forall q | q in entries && q != first ensures entries[first].lastUsed < entries[q].lastUsed {
        assert q != last.key ==> q in entries - {last.key};
      }
      assert entries - {last.key} - {first} == entries - {first} - {last.key};
      assert items[1..][..|items| - 2] == init[1..] && items[1..][|items| - 2] == last;
      assert first != last.key && (entries - {first})[last.key] == entries[last.key];
    }
  }

  /** Stamps are distinct. */
  lemma {:induction false} StampsDistinct(entries: Entries, items: seq<Item>, bound: int, p: string, q: string)
    requires Represents(entries, items, bound) && p in entries && q in entries && p != q
    ensures entries[p].lastUsed != entries[q].lastUsed
  {
    var init, last := items[..|items| - 1], items[|items| - 1];
    var earlier: int := entries[last.key].lastUsed - 1;
    SameOutcome(entries - {last.key}, init, earlier, p);
    SameOutcome(entries - {last.key}, init, earlier, q);
    if p != last.key && q != last.key {
      StampsDistinct(entries - {last.key}, init, earlier, p, q);
    }
  }

  lemma NewestOfRest(items: seq<Item>, n: nat)
    requires n < |items|
    ensures Newest(items[1..], n) == Newest(items, n)
  {
  }

  method OldestKey(entries: Entries) returns (oldest: string)
    requires |entries| > 0
    ensures oldest in entries && forall q :: q in entries ==> entries[oldest].lastUsed <= entries[q].lastUsed
  {
    var left := entries.Keys;
    assert left != {};
    oldest :| oldest in left;
    left := left - {oldest};
    while left != {}
      invariant oldest in entries && left <= entries.Keys
      invariant forall q :: q in entries && q !in left ==> entries[oldest].lastUsed <= entries[q].lastUsed
      decreases |left|
    {
      var q :| q in left;
      if entries[q].lastUsed < entries[oldest].lastUsed {
        oldest := q;
      }
      left := left - {q};
    }
  }

  /** Evicting the smallest stamp leaves the most recently used items. */
  method Trim(entries: Entries, capacity: nat, ghost items: seq<Item>, ghost bound: int) returns (r: Entries)
    requires Represents(entries, items, bound)
    ensures Represents(r, Newest(items, capacity), bound)
  {
    r := entries;
    ghost var left := items;
    SameSize(r, left, bound);
    while |r| > capacity
      invariant Represents(r, left, bound) && |r| == |left| && Newest(left, capacity) == Newest(items, capacity)
    {
      var oldest := OldestKey(r);
      FirstIsOldest(r, left, bound);
      assert oldest == left[0].key;
      NewestOfRest(left, capacity);
      r, left := r - {oldest}, left[1..];
      SameSize(r, left, bound);
    }
  }

  // ----- The cache -----

  class Cache {
    var capacity: nat
    var entries: Entries
    var useCounter: nat
    ghost var items: seq<Item>

    ghost predicate Valid()
      reads this
    {
      capacity > 0 && |items| <= capacity && useCounter <= U64_MAX && Represents(entries, items, useCounter)
    }

    ghost function State(): State
      reads this
    {
      RecencyList.State(capacity, items)
    }

    constructor (capacity: nat)
      requires capacity > 0
      ensures Valid() && State() == RecencyList.State(capacity, []) && useCounter == 0
    {
      this.capacity, entries, useCounter, items := capacity, map[], 0, [];
    }

    method NextUse() returns (stamp: nat)
      requires useCounter <= U64_MAX
      modifies this`useCounter
      ensures stamp == useCounter == if old(useCounter) < U64_MAX then old(useCounter) + 1 else U64_MAX
    {
      useCounter := if useCounter < U64_MAX then useCounter + 1 else U64_MAX;
      stamp := useCounter;
    }

    /** Gives the key the current stamp. */
    method Touch(key: string, outcome: Outcome)
      requires capacity > 0 && |items| <= capacity && 0 < useCounter <= U64_MAX
      requires Represents(entries, items, useCounter - 1) && key in entries
      modifies this`entries, this`items
      ensures Valid() && State() == old(State()).Use(key, outcome)
    {
      SameOutcome(entries, items, useCounter - 1, key);
      UseWithin(State(), key, outcome);
      Stored(entries, items, useCounter - 1, key, outcome, useCounter);
      entries, items := entries[key := Cached(outcome, useCounter)], Used(items, key, outcome);
    }

    /** Stores an outcome under the current stamp and evicts. */
    method Store(key: string, outcome: Outcome)
      requires capacity > 0 && 0 < useCounter <= U64_MAX && Represents(entries, items, useCounter - 1)
      modifies this`entries, this`items
      ensures Valid() && State() == old(State()).Put(key, outcome) && OutcomeOf(entries, key) == Some(outcome)
    {
      Stored(entries, items, useCounter - 1, key, outcome, useCounter);
      NewestKeepsUsed(items, capacity, key, outcome);
      entries := Trim(entries[key := Cached(outcome, useCounter)], capacity, Used(items, key, outcome), useCounter);
      items := Newest(Used(items, key, outcome), capacity);
      SameOutcome(entries, items, useCounter, key);
    }

    method Remove(key: string)
      requires Valid()
      modifies this`entries, this`items
      ensures Valid() && State() == old(State()).Drop(key)
    {
      Removed(entries, items, useCounter, key);
      entries, items := entries - {key}, Without(items, key);
    }

    method GetOutcome(query: string) returns (r: Option<Outcome>)
      requires Valid() && useCounter < U64_MAX
      modifies this`entries, this`useCounter, this`items
      ensures Valid() && useCounter == old(useCounter) + 1
      ensures r == Find(old(items), Normalize(query)) && State() == old(State()).Look(Normalize(query))
    {
      var key := Normalize(query);
      SameOutcome(entries, items, useCounter, key);
      LaterBound(entries, items, useCounter, useCounter + 1);
      var _ := NextUse();
      if key !in entries {
        return None;
      }
      r := Some(entries[key].outcome);
      Touch(key, r.value);
    }

    /** The entry if the query is prepared. */
    method Get(query: string) returns (r: Option<nat>)
      requires Valid() && useCounter < U64_MAX
      modifies this`entries, this`useCounter, this`items
      ensures Valid() && useCounter == old(useCounter) + 1 && State() == old(State()).Look(Normalize(query))
      ensures var found := Find(old(items), Normalize(query));
              r == if found.Some? && found.value.Prepared? then Some(found.value.id) else None
    {
      var outcome := GetOutcome(query);
      r := if outcome.Some? && outcome.value.Prepared? then Some(outcome.value.id) else None;
    }

    /** A request for a resident query. */
    method AskResident(key: string, ghost template: nat, threshold: nat, request: Request) returns (d: Decision)
      requires capacity > 0 && |items| <= capacity && 0 < useCounter <= U64_MAX
      requires Represents(entries, items, useCounter - 1) && key in entries
      modifies this`entries, this`items
      ensures Valid() && Next(State(), Told(d)) == Decide(old(State()), key, template, threshold, request)
    {
      SameOutcome(entries, items, useCounter - 1, key);
      var outcome := entries[key].outcome;
      if outcome.Deferred? {
        if request.Execute? {
          outcome := outcome.(executions := outcome.executions + 1);
        }
        if request.Force? || (request.Execute? && !(threshold == 0 || outcome.executions < threshold)) {
          LaterBound(entries, items, useCounter - 1, useCounter);
          Remove(key);
          return Prepare;
        }
      }
      Touch(key, outcome);
      d := Answer(outcome, true);
    }

    /** A request for a query that is not in the cache. */
    method AskNew(key: string, template: nat, threshold: nat, request: Request) returns (d: Decision)
      requires capacity > 0 && |items| <= capacity && 0 < useCounter <= U64_MAX
      requires Represents(entries, items, useCounter - 1) && key !in entries
      modifies this`entries, this`items
      ensures Valid() && Next(State(), Told(d)) == Decide(old(State()), key, template, threshold, request)
    {
      SameOutcome(entries, items, useCounter - 1, key);
      if !request.Force? && threshold != 1 {
        d := Answer(Deferred(template, if request.Execute? then 1 else 0), false);
        Store(key, d.outcome);
        return;
      }
      LaterBound(entries, items, useCounter - 1, useCounter);
      d := Prepare;
    }

    /** Answers from the cache, or says to prepare. */
    method PrepareDecision(query: string, template: nat, threshold: nat, request: Request) returns (d: Decision)
      requires Valid() && useCounter < U64_MAX
      modifies this`entries, this`useCounter, this`items
      ensures Valid() && useCounter == old(useCounter) + 1
      ensures Next(State(), Told(d)) == Decide(old(State()), Normalize(query), template, threshold, request)
    {
      var key := Normalize(query);
      var _ := NextUse();
      if key in entries {
        d := AskResident(key, template, threshold, request);
      } else {
        d := AskNew(key, template, threshold, request);
      }
    }

    /** Keeps a prepared entry that is already there. */
    method Insert(query: string, candidate: nat) returns (id: nat)
      requires Valid() && useCounter + 1 < U64_MAX
      modifies this`entries, this`useCounter, this`items
      ensures Valid() && useCounter <= old(useCounter) + 2
      ensures Next(State(), Id(id)) == AddingPrepared(old(State()), Normalize(query), candidate)
    {
      var key := Normalize(query);
      var existing := GetOutcome(key);
      if existing.Some? && existing.value.Prepared? {
        return existing.value.id;
      }
      var _ := NextUse();
      Store(key, Prepared(candidate));
      id := candidate;
    }

    /** Keeps a decided outcome that is already there. */
    method InsertLiteral(query: string, candidate: nat) returns (r: Outcome)
      requires Valid() && useCounter + 1 < U64_MAX
      modifies this`entries, this`useCounter, this`items
      ensures Valid() && useCounter <= old(useCounter) + 2
      ensures Next(State(), Found(Some(r))) == AddingLiteral(old(State()), Normalize(query), candidate)
    {
      var key := Normalize(query);
      var existing := GetOutcome(key);
      if existing.Some? && !existing.value.Deferred? {
        return existing.value;
      }
      var _ := NextUse();
      r := Literal(candidate);
      Store(key, r);
    }

    /** Gives up on the prepared statement `id`, but not on a newer one. */
    method ReplacePreparedWithLiteral(query: string, id: nat, candidate: nat) returns (fallback: nat)
      requires Valid() && useCounter < U64_MAX
      modifies this`entries, this`useCounter, this`items
      ensures Valid() && useCounter <= old(useCounter) + 1
      ensures Next(State(), Fallback(fallback)) == GivingUp(old(State()), Normalize(query), id, candidate)
    {
      var key := Normalize(query);
      SameOutcome(entries, items, useCounter, key);
      if key in entries {
        if entries[key].outcome.Literal? {
          return entries[key].outcome.fallback;
        }
        if entries[key].outcome.Prepared? && entries[key].outcome.id != id {
          return candidate;
        }
      }
      var _ := NextUse();
      Store(key, Literal(candidate));
      fallback := candidate;
    }

    method RemoveIfId(query: string, id: nat)
      requires Valid()
      modifies this`entries, this`items
      ensures Valid() && State() == Step(old(State()), Forget(query, id), 0).state
    {
      var key := Normalize(query);
      SameOutcome(entries, items, useCounter, key);
      if key in entries && entries[key].outcome == Prepared(id) {
        Remove(key);
      }
    }

    method Clear()
      requires Valid()
      modifies this`entries, this`items
      ensures Valid() && State() == old(State()).(items := [])
    {
      entries, items := map[], [];
    }

    method SetCapacity(newCapacity: nat)
      requires Valid() && newCapacity > 0
      modifies this`capacity, this`entries, this`items
      ensures Valid() && State() == RecencyList.State(newCapacity, Newest(old(items), newCapacity))
    {
      capacity := newCapacity;
      entries := Trim(entries, newCapacity, items, useCounter);
      items := Newest(items, newCapacity);
    }

    /** One operation. */
    method Perform(op: Op, threshold: nat) returns (reply: Reply)
      requires Valid() && useCounter + 1 < U64_MAX && (op.Resize? ==> op.capacity > 0)
      modifies this
      ensures Valid() && useCounter <= old(useCounter) + 2
      ensures Next(State(), reply) == Step(old(State()), op, threshold)
    {
      match op {
        case Ask(query, template, request) =>
          var decision := PrepareDecision(query, template, threshold, request);
          reply := Told(decision);
        case Look(query) =>
          var outcome := GetOutcome(query);
          reply := Found(outcome);
        case AddPrepared(query, id) =>
          var kept := Insert(query, id);
          reply := Id(kept);
        case AddLiteral(query, fallback) =>
          var outcome := InsertLiteral(query, fallback);
          reply := Found(Some(outcome));
        case GiveUp(query, id, fallback) =>
          var used := ReplacePreparedWithLiteral(query, id, fallback);
          reply := Fallback(used);
        case _ =>
          Shrink(op);
          reply := Done;
      }
    }

    /** The operations that only take entries away. */
    method Shrink(op: Op)
      requires Valid() && (op.Forget? || op.Empty? || op.Resize?) && (op.Resize? ==> op.capacity > 0)
      modifies this`capacity, this`entries, this`items
      ensures Valid() && Next(State(), Done) == Step(old(State()), op, 0)
    {
      match op {
        case Forget(query, id) => RemoveIfId(query, id);
        case Empty => Clear();
        case Resize(newCapacity) => SetCapacity(newCapacity);
      }
    }
  }

  /** The next operation of a sequence. */
  method PerformNext(cache: Cache, ops: seq<Op>, i: nat, threshold: nat, ghost start: State) returns (reply: Reply)
    requires cache.Valid() && cache.useCounter + 1 < U64_MAX
    requires i < |ops| && (ops[i].Resize? ==> ops[i].capacity > 0) && cache.State() == After(start, ops[..i], threshold)
    modifies cache
    ensures cache.Valid() && cache.useCounter <= old(cache.useCounter) + 2
    ensures cache.State() == After(start, ops[..i + 1], threshold)
    ensures Replies(start, ops[..i + 1], threshold) == Replies(start, ops[..i], threshold) + [reply]
  {
    assert ops[..i + 1][..i] == ops[..i];
    reply := cache.Perform(ops[i], threshold);
  }

  /** Any sequence of operations with one threshold is answered, and ends, as in the recency list. */
  method Run(capacity: nat, ops: seq<Op>, threshold: nat) returns (cache: Cache, replies: seq<Reply>)
    requires capacity > 0 && 2 * |ops| + 1 < U64_MAX
    requires forall i :: 0 <= i < |ops| && ops[i].Resize? ==> ops[i].capacity > 0
    ensures cache.Valid() && cache.State() == After(State(capacity, []), ops, threshold)
    ensures replies == Replies(State(capacity, []), ops, threshold)
  {
    cache := new Cache(capacity);
    replies := [];
    ghost var start := State(capacity, []);
    for i: nat := 0 to |ops|
      invariant fresh(cache) && cache.Valid() && cache.useCounter <= 2 * i
      invariant cache.State() == After(start, ops[..i], threshold) && replies == Replies(start, ops[..i], threshold)
    {
      var reply := PerformNext(cache, ops, i, threshold, start);
      replies := replies + [reply];
    }
    assert ops[..|ops|] == ops;
  }
}

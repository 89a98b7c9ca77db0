/**
 What the cache of prepared statements does, without stamps: a list of keys and outcomes, least recently
 used first, and the laws of the threshold over every sequence of operations.
 */
module RecencyList {
  import opened Wrappers
  import opened PreparedKeys

  datatype Outcome = Prepared(id: nat) | Literal(fallback: nat) | Deferred(template: nat, executions: nat)

  datatype Request = Declare | Execute | Force

  datatype Decision = Answer(outcome: Outcome, hit: bool) | Prepare

  datatype Item = Item(key: string, outcome: Outcome)

  // ----- The list -----

  function Find(items: seq<Item>, key: string): Option<Outcome> {
    if items == [] then None
    else
      var last := items[|items| - 1];
      if last.key == key then Some(last.outcome) else Find(items[..|items| - 1], key)
  }

  function Without(items: seq<Item>, key: string): (r: seq<Item>)
    ensures |r| <= |items|
  {
    if items == [] then []
    else
      var rest, last := Without(items[..|items| - 1], key), items[|items| - 1];
      if last.key == key then rest else rest + [last]
  }

  /** The key becomes the most recently used one. */
  function Used(items: seq<Item>, key: string, outcome: Outcome): seq<Item> {
    Without(items, key) + [Item(key, outcome)]
  }

  /** The most recently used items, at most `n` of them. */
  function Newest(items: seq<Item>, n: nat): (r: seq<Item>)
    ensures |r| <= n
  {
    if |items| <= n then items else items[|items| - n..]
  }

  lemma {:induction false} FindWithout(items: seq<Item>, key: string, other: string)
    ensures Find(Without(items, key), other) == if other == key then None else Find(items, other)
  {
    if items != [] {
      var init, last := items[..|items| - 1], items[|items| - 1];
      FindWithout(init, key, other);
      assert (Without(init, key) + [last])[..|Without(init, key)|] == Without(init, key);
    }
  }

  lemma FindUsed(items: seq<Item>, key: string, outcome: Outcome, other: string)
    ensures Find(Used(items, key, outcome), other) == if other == key then Some(outcome) else Find(items, other)
  {
    FindWithout(items, key, other);
    assert Used(items, key, outcome)[..|Without(items, key)|] == Without(items, key);
  }

  lemma {:induction false} FindNewest(items: seq<Item>, n: nat, key: string)
    ensures Find(Newest(items, n), key) == None || Find(Newest(items, n), key) == Find(items, key)
  {
    if n < |items| && n > 0 {
      var init := items[..|items| - 1];
      FindNewest(init, n - 1, key);
      assert Newest(items, n)[..n - 1] == Newest(init, n - 1);
    }
  }

  /** What was just used is never evicted. */
  lemma NewestKeepsUsed(items: seq<Item>, n: nat, key: string, outcome: Outcome)
    requires n > 0
    ensures Find(Newest(Used(items, key, outcome), n), key) == Some(outcome)
  {
    var used := Used(items, key, outcome);
    assert Newest(used, n)[|Newest(used, n)| - 1] == used[|used| - 1];
  }

  // ----- Operations -----

  datatype State = State(capacity: nat, items: seq<Item>) {

    function Use(key: string, outcome: Outcome): State {
      this.(items := Used(items, key, outcome))
    }

    function Put(key: string, outcome: Outcome): State {
      this.(items := Newest(Used(items, key, outcome), capacity))
    }

    function Drop(key: string): State {
      this.(items := Without(items, key))
    }

    /** A lookup makes the key the most recently used one, if it is there. */
    function Look(key: string): State {
      var found := Find(items, key);
      if found.Some? then Use(key, found.value) else this
    }
  }

  /** An outcome after one more request. */
  function Recounted(outcome: Outcome, request: Request): Outcome {
    if outcome.Deferred? && request.Execute? then outcome.(executions := outcome.executions + 1) else outcome
  }

  datatype Op =
    | Ask(query: string, template: nat, request: Request)
    | Look(query: string)
    | AddPrepared(query: string, id: nat)
    | AddLiteral(query: string, fallback: nat)
    | GiveUp(query: string, id: nat, fallback: nat)
    | Forget(query: string, id: nat)
    | Empty
    | Resize(capacity: nat)

  datatype Reply = Told(decision: Decision) | Found(outcome: Option<Outcome>) | Id(id: nat) | Fallback(fallback: nat) | Done

  datatype Next = Next(state: State, reply: Reply)

  /** A request: answered from the cache, deferred, or told to prepare. */
  function Decide(s: State, key: string, template: nat, t: nat, request: Request): Next {
    match Find(s.items, key)
    case None =>
      if request.Force? || t == 1 then Next(s, Told(Prepare))
      else
        var outcome := Deferred(template, if request.Execute? then 1 else 0);
        Next(s.Put(key, outcome), Told(Answer(outcome, false)))
    case Some(outcome) =>
      if outcome.Deferred? && (request.Force? || (request.Execute? && t != 0 && outcome.executions + 1 >= t))
      then Next(s.Drop(key), Told(Prepare))
      else Next(s.Use(key, Recounted(outcome, request)), Told(Answer(Recounted(outcome, request), true)))
  }

  function AddingPrepared(s: State, key: string, id: nat): Next {
    var found := Find(s.items, Normalize(key));
    if found.Some? && found.value.Prepared? then Next(s.Look(Normalize(key)), Id(found.value.id))
    else Next(s.Look(Normalize(key)).Put(key, Prepared(id)), Id(id))
  }

  function AddingLiteral(s: State, key: string, fallback: nat): Next {
    var found := Find(s.items, Normalize(key));
    if found.Some? && !found.value.Deferred? then Next(s.Look(Normalize(key)), Found(found))
    else Next(s.Look(Normalize(key)).Put(key, Literal(fallback)), Found(Some(Literal(fallback))))
  }

  function GivingUp(s: State, key: string, id: nat, fallback: nat): Next {
    var found := Find(s.items, key);
    if found.Some? && found.value.Literal? then Next(s, Fallback(found.value.fallback))
    else if found.Some? && found.value.Prepared? && found.value.id != id then Next(s, Fallback(fallback))
    else Next(s.Put(key, Literal(fallback)), Fallback(fallback))
  }

  function Step(s: State, op: Op, t: nat): Next {
    match op
    case Ask(query, template, request) => Decide(s, Normalize(query), template, t, request)
    case Look(query) => Next(s.Look(Normalize(query)), Found(Find(s.items, Normalize(query))))
    case AddPrepared(query, id) => AddingPrepared(s, Normalize(query), id)
    case AddLiteral(query, fallback) => AddingLiteral(s, Normalize(query), fallback)
    case GiveUp(query, id, fallback) => GivingUp(s, Normalize(query), id, fallback)
    case Forget(query, id) =>
      Next(if Find(s.items, Normalize(query)) == Some(Prepared(id)) then s.Drop(Normalize(query)) else s, Done)
    case Empty => Next(s.(items := []), Done)
    case Resize(capacity) => Next(State(capacity, Newest(s.items, capacity)), Done)
  }

  /** The state after some operations. */
  function After(s: State, ops: seq<Op>, t: nat): State {
    if ops == [] then s else Step(After(s, ops[..|ops| - 1], t), ops[|ops| - 1], t).state
  }

  function ReplyAt(s: State, ops: seq<Op>, t: nat, i: nat): Reply
    requires i < |ops|
  {
    Step(After(s, ops[..i], t), ops[i], t).reply
  }

  /** The replies to all operations. */
  function Replies(s: State, ops: seq<Op>, t: nat): (r: seq<Reply>)
    ensures |r| == |ops|
  {
    if ops == [] then []
    else Replies(s, ops[..|ops| - 1], t) + [Step(After(s, ops[..|ops| - 1], t), ops[|ops| - 1], t).reply]
  }

  lemma {:induction false} RepliesAt(s: State, ops: seq<Op>, t: nat, i: nat)
    requires i < |ops|
    ensures Replies(s, ops, t)[i] == ReplyAt(s, ops, t, i)
    decreases |ops|
  {
    var init := ops[..|ops| - 1];
    if i < |init| {
      RepliesAt(s, init, t, i);
      assert init[..i] == ops[..i] && init[i] == ops[i];
      assert Replies(s, ops, t)[i] == Replies(s, init, t)[i];
    }
  }

  lemma AfterNext(s: State, ops: seq<Op>, t: nat, i: nat)
    requires i < |ops|
    ensures After(s, ops[..i + 1], t) == Step(After(s, ops[..i], t), ops[i], t).state
  {
    assert ops[..i + 1][..i] == ops[..i];
  }

  // ----- Deferred queries -----

  predicate Asks(op: Op, key: string) {
    op.Ask? && Normalize(op.query) == key
  }

  predicate Executing(op: Op, key: string) {
    Asks(op, key) && op.request.Execute?
  }

  predicate IsDeferred(found: Option<Outcome>) {
    found.Some? && found.value.Deferred?
  }

  lemma FindLook(s: State, looked: string, key: string)
    ensures Find(s.Look(looked).items, key) == Find(s.items, key)
  {
    var found := Find(s.items, looked);
    if found.Some? {
      FindUsed(s.items, looked, found.value, key);
    }
  }

  lemma FindPut(s: State, stored: string, outcome: Outcome, key: string)
    ensures var found := Find(s.Put(stored, outcome).items, key);
            found == None || found == if key == stored then Some(outcome) else Find(s.items, key)
  {
    FindUsed(s.items, stored, outcome, key);
    FindNewest(Used(s.items, stored, outcome), s.capacity, key);
  }

  /** What one operation does to a query that is deferred afterwards. */
  ghost predicate DeferredBy(before: Option<Outcome>, op: Op, t: nat, key: string, after: Option<Outcome>) {
    IsDeferred(after) ==>
      if before.None? then
        && Asks(op, key) && !op.request.Force? && t != 1
        && after.value.executions == if op.request.Execute? then 1 else 0
      else
        && IsDeferred(before)
        && after.value.executions == before.value.executions + (if Executing(op, key) then 1 else 0)
        && (Executing(op, key) && t != 0 ==> after.value.executions < t)
  }

  lemma AskDefers(s: State, op: Op, t: nat, key: string)
    requires op.Ask?
    ensures DeferredBy(Find(s.items, key), op, t, key, Find(Step(s, op, t).state.items, key))
  {
    var asked := Normalize(op.query);
    match Find(s.items, asked)
    case None => FindPut(s, asked, Deferred(op.template, if op.request.Execute? then 1 else 0), key);
    case Some(outcome) =>
      FindUsed(s.items, asked, Recounted(outcome, op.request), key);
      FindWithout(s.items, asked, key);
  }

  lemma StepDefers(s: State, op: Op, t: nat, key: string)
    ensures DeferredBy(Find(s.items, key), op, t, key, Find(Step(s, op, t).state.items, key))
  {
    match op
    case Ask(_, _, _) => AskDefers(s, op, t, key);
    case Look(query) => FindLook(s, Normalize(query), key);
    case AddPrepared(query, id) =>
      var looked := Normalize(Normalize(query));
      FindLook(s, looked, key);
      FindPut(s.Look(looked), Normalize(query), Prepared(id), key);
    case AddLiteral(query, fallback) =>
      var looked := Normalize(Normalize(query));
      FindLook(s, looked, key);
      FindPut(s.Look(looked), Normalize(query), Literal(fallback), key);
    case GiveUp(query, _, fallback) => FindPut(s, Normalize(query), Literal(fallback), key);
    case Forget(query, _) => FindWithout(s.items, Normalize(query), key);
    case Empty =>
    case Resize(capacity) => FindNewest(s.items, capacity, key);
  }

  // ----- The threshold, over every sequence of operations -----

  function FoundAt(s: State, ops: seq<Op>, t: nat, key: string, i: nat): Option<Outcome>
    requires i <= |ops|
  {
    Find(After(s, ops[..i], t).items, key)
  }

  /** Operation `i` made the query resident, and it was deferred ever since, up to operation `j`. */
  ghost predicate DeferredSince(s: State, ops: seq<Op>, t: nat, key: string, i: nat, j: nat) {
    && i < j <= |ops| && FoundAt(s, ops, t, key, i).None?
    && forall k :: i < k <= j ==> IsDeferred(FoundAt(s, ops, t, key, k))
  }

  /** How often the query was executed by the operations from `i` up to `j`. */
  function Executions(ops: seq<Op>, key: string, i: nat, j: nat): nat
    requires j <= |ops|
  {
    if j <= i then 0 else Executions(ops, key, i, j - 1) + if Executing(ops[j - 1], key) then 1 else 0
  }

  /** What was found before each operation and after the last. */
  type History = seq<Option<Outcome>>

  ghost predicate Explains(ops: seq<Op>, t: nat, key: string, history: History) {
    && |history| == |ops| + 1
    && forall k :: 0 <= k < |ops| ==> DeferredBy(history[k], ops[k], t, key, history[k + 1])
  }

  ghost predicate Lasting(history: History, i: nat, j: nat) {
    i < j < |history| && history[i].None? && forall k :: i < k <= j ==> IsDeferred(history[k])
  }

  lemma {:induction false} CountOver(history: History, ops: seq<Op>, t: nat, key: string, i: nat, j: nat)
    requires Explains(ops, t, key, history) && Lasting(history, i, j)
    ensures history[j].value.executions == Executions(ops, key, i, j)
    ensures t != 0 ==> Executions(ops, key, i, j) < t
    decreases j
  {
    if i < j - 1 {
      CountOver(history, ops, t, key, i, j - 1);
    }
  }

  lemma {:induction false} LastingTo(history: History, ops: seq<Op>, t: nat, key: string, j: nat) returns (i: nat)
    requires Explains(ops, t, key, history) && j < |history| && history[0].None? && IsDeferred(history[j])
    ensures Lasting(history, i, j)
    decreases j
  {
    i := j - 1;
    if history[j - 1].Some? {
      i := LastingTo(history, ops, t, key, j - 1);
    }
  }

  /** The history of a key in a run. */
  function HistoryOf(s: State, ops: seq<Op>, t: nat, key: string): (history: History)
    ensures |history| == |ops| + 1 && forall k :: 0 <= k <= |ops| ==> history[k] == FoundAt(s, ops, t, key, k)
  {
    seq(|ops| + 1, k requires 0 <= k <= |ops| => FoundAt(s, ops, t, key, k))
  }

  lemma RunExplains(s: State, ops: seq<Op>, t: nat, key: string)
    ensures Explains(ops, t, key, HistoryOf(s, ops, t, key))
  {
    var history := HistoryOf(s, ops, t, key);
    forall k | 0 <= k < |ops| ensures DeferredBy(history[k], ops[k], t, key, history[k + 1]) {
      AfterNext(s, ops, t, k);
      StepDefers(After(s, ops[..k], t), ops[k], t, key);
    }
  }

  lemma CountSince(s: State, ops: seq<Op>, t: nat, key: string, i: nat, j: nat)
    requires DeferredSince(s, ops, t, key, i, j)
    ensures FoundAt(s, ops, t, key, j).value.executions == Executions(ops, key, i, j)
    ensures t != 0 ==> Executions(ops, key, i, j) < t
  {
    RunExplains(s, ops, t, key);
    CountOver(HistoryOf(s, ops, t, key), ops, t, key, i, j);
  }

  /**
   A query that operation `i` made resident and that has been deferred since is told to prepare by
   Force, or on exactly its `t`-th execution, whatever declarations and other operations come between.
   */
  lemma ToldOnTthExecution(s: State, ops: seq<Op>, t: nat, key: string, i: nat, j: nat)
    requires DeferredSince(s, ops, t, key, i, j) && j < |ops| && Asks(ops[j], key)
    ensures ReplyAt(s, ops, t, j) == Told(Prepare)
       <==> ops[j].request.Force? || (ops[j].request.Execute? && t != 0 && Executions(ops, key, i, j + 1) == t)
  {
    CountSince(s, ops, t, key, i, j);
  }

  /** Every deferred query became resident at some operation and has been deferred since. */
  lemma BecameResident(capacity: nat, ops: seq<Op>, t: nat, key: string, j: nat) returns (i: nat)
    requires j <= |ops| && IsDeferred(FoundAt(State(capacity, []), ops, t, key, j))
    ensures DeferredSince(State(capacity, []), ops, t, key, i, j)
  {
    var s := State(capacity, []);
    RunExplains(s, ops, t, key);
    i := LastingTo(HistoryOf(s, ops, t, key), ops, t, key, j);
    forall k | i < k <= j ensures IsDeferred(FoundAt(s, ops, t, key, k)) {
      assert HistoryOf(s, ops, t, key)[k] == FoundAt(s, ops, t, key, k);
    }
  }

  /**
   When a request is told to prepare, in a run from an empty cache: a query that is not resident by
   Force or threshold 1, a resident deferred one by Force or on its `t`-th execution since it became
   resident, and one that is prepared or has a literal never.
   */
  lemma ToldToPrepare(capacity: nat, ops: seq<Op>, t: nat, j: nat)
    requires j < |ops| && ops[j].Ask?
    ensures var s, key, request := State(capacity, []), Normalize(ops[j].query), ops[j].request;
            var found := FoundAt(s, ops, t, key, j);
            && (found.None? ==> (ReplyAt(s, ops, t, j) == Told(Prepare) <==> request.Force? || t == 1))
            && (found.Some? && !found.value.Deferred? ==> ReplyAt(s, ops, t, j) != Told(Prepare))
            && (IsDeferred(found) ==>
                  exists i :: DeferredSince(s, ops, t, key, i, j)
                              && (ReplyAt(s, ops, t, j) == Told(Prepare)
                                  <==> request.Force? || (request.Execute? && t != 0 && Executions(ops, key, i, j + 1) == t)))
  {
    var s, key := State(capacity, []), Normalize(ops[j].query);
    if IsDeferred(FoundAt(s, ops, t, key, j)) {
      var i := BecameResident(capacity, ops, t, key, j);
      ToldOnTthExecution(s, ops, t, key, i, j);
    }
  }

  /** With threshold 0 only Force prepares. */
  lemma OnlyForcePrepares(s: State, ops: seq<Op>, j: nat)
    requires j < |ops| && ReplyAt(s, ops, 0, j) == Told(Prepare)
    ensures ops[j].Ask? && ops[j].request.Force?
  {
  }

  /** The size stays within the capacity. */
  lemma {:induction false} StaysWithin(s: State, ops: seq<Op>, t: nat)
    requires |s.items| <= s.capacity
    ensures var after := After(s, ops, t); |after.items| <= after.capacity
  {
    if ops != [] {
      StaysWithin(s, ops[..|ops| - 1], t);
      StepWithin(After(s, ops[..|ops| - 1], t), ops[|ops| - 1], t);
    }
  }

  lemma UseWithin(s: State, key: string, outcome: Outcome)
    requires Find(s.items, key).Some?
    ensures |s.Use(key, outcome).items| <= |s.items|
  {
    WithoutShrinks(s.items, key);
  }

  lemma {:induction false} WithoutShrinks(items: seq<Item>, key: string)
    requires Find(items, key).Some?
    ensures |Without(items, key)| < |items|
  {
    if items[|items| - 1].key != key {
      WithoutShrinks(items[..|items| - 1], key);
    }
  }

  lemma LookWithin(s: State, key: string)
    ensures |s.Look(key).items| <= |s.items|
  {
    var found := Find(s.items, key);
    if found.Some? {
      UseWithin(s, key, found.value);
    }
  }

  lemma StepWithin(s: State, op: Op, t: nat)
    requires |s.items| <= s.capacity
    ensures var after := Step(s, op, t).state; |after.items| <= after.capacity
  {
    match op
    case Ask(query, _, request) =>
      var found := Find(s.items, Normalize(query));
      if found.Some? {
        UseWithin(s, Normalize(query), Recounted(found.value, request));
      }
    case Look(query) => LookWithin(s, Normalize(query));
    case AddPrepared(query, _) => LookWithin(s, Normalize(Normalize(query)));
    case AddLiteral(query, _) => LookWithin(s, Normalize(Normalize(query)));
    case _ =>
  }
}

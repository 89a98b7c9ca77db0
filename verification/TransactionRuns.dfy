/**
 Whole runs of the transaction protocol: any list of calls against any server behaviour.
 */
module TransactionRuns {
  import opened AtomicView
  import opened Sequences
  import opened TransactionCalls
  import opened Transactions

  const Fresh := Ledger(true, [], [])

  function EffectsOf(outcomes: seq<Outcome>): seq<Effect> {
    if outcomes == [] then [] else EffectsOf(outcomes[..|outcomes| - 1]) + outcomes[|outcomes| - 1].effects
  }

  /** The atomic view after a run, from nothing but what the calls are known to have done. */
  function Replay(outcomes: seq<Outcome>): Ledger {
    Fresh.AfterAll(EffectsOf(outcomes))
  }

  ghost predicate LegalRun(calls: seq<Call>, outcomes: seq<Outcome>) {
    && |calls| == |outcomes|
    && forall i :: 0 <= i < |calls| ==> Legal(calls[i], outcomes[i])
  }

  lemma RunGrows(calls: seq<Call>, i: nat, outcomes: seq<Outcome>, o: Outcome)
    requires i < |calls| && LegalRun(calls[..i], outcomes) && Legal(calls[i], o)
    ensures LegalRun(calls[..i + 1], outcomes + [o])
    ensures Replay(outcomes + [o]) == Replay(outcomes).AfterAll(o.effects)
  {
    assert (outcomes + [o])[..|outcomes|] == outcomes;
    AfterAllConcat(Fresh, EffectsOf(outcomes), o.effects);
    assert calls[..i + 1] == calls[..i] + [calls[i]];
  }

  // ----- What calls mean when nothing fails -----

  /** The database as a caller sees it who knows only statements: durable ones and open ones. */
  datatype Plain = Plain(on: bool, durable: seq<Write>, open: seq<Write>) {

    function Write(op: Op): Plain {
      if on then this.(durable := durable + op) else this.(open := open + op)
    }

    function Settle(): Plain {
      this.(durable := durable + open, open := [])
    }
  }

  function AfterStatement(p: Plain, s: Statement): Plain {
    match s
    case Writes(w) => p.Write([w])
    case Commit => p.Settle()
    case Rollback => p.(open := [])
    case _ => p
  }

  function AfterStatements(p: Plain, ss: seq<Statement>): Plain
    decreases |ss|
  {
    if ss == [] then p else AfterStatements(AfterStatement(p, ss[0]), ss[1..])
  }

  /** A call that succeeds, without savepoints that are gone back to. */
  function AfterCall(p: Plain, c: Call): Plain {
    match c
    case Ingest(req) => p.Write(WholeOp(req))
    case Batch(rows, mayModify, _) => p.Write(OpOf(rows, mayModify))
    case Prepared(w, mayModify, _) => p.Write(OpOf([w], mayModify))
    case Text(statements, _) => AfterStatements(p, statements)
    case Script(statements, _) => AfterStatements(p, statements)
    case CommitCall => p.Settle()
    case RollbackCall => p.(open := [])
    case SetAutocommit(on) => if on then p.Settle().(on := true) else p.(on := false)
  }

  function AfterCalls(calls: seq<Call>): Plain {
    if calls == [] then Plain(true, [], []) else AfterCall(AfterCalls(calls[..|calls| - 1]), calls[|calls| - 1])
  }

  /** Each call is one that nothing but the world can make fail, in the mode it is made in. */
  ghost predicate AllowedRun(calls: seq<Call>) {
    forall i :: 0 <= i < |calls| ==> Allowed(calls[i], AfterCalls(calls[..i]).on)
  }

  function View(l: Ledger): Plain {
    Plain(l.autocommit, Flatten(l.durable), Flatten(l.open))
  }

  predicate Settled(l: Ledger) {
    l.autocommit ==> l.open == []
  }

  lemma ViewEffect(l: Ledger, op: Op)
    ensures View(l.After(Apply(op))) == View(l).Write(op)
    ensures View(l.After(Effect.Settle)) == View(l).Settle()
    ensures View(l.After(Discard)) == View(l).(open := [])
  {
    FlattenPush(l.durable, op);
    FlattenPush(l.open, op);
    FlattenConcat(l.durable, l.open);
  }

  lemma {:induction false} RanMeans(ss: seq<Statement>, es: seq<Effect>, l: Ledger, on: bool)
    requires Ran(ss, true, es) && AllPermitted(ss, on)
    ensures View(l.AfterAll(es)) == AfterStatements(View(l), ss)
    decreases |ss|
  {
    if ss != [] {
      var now, rest := FirstEffects(ss, es);
      var mid := l.AfterAll(now);
      StatementMeans(ss[0], now, l, on);
      RanMeans(ss[1..], rest, mid, on);
      AfterAllConcat(l, now, rest);
      assert AfterStatements(View(l), ss) == AfterStatements(View(mid), ss[1..]);
    }
  }

  /** The effects of the first statement, and the rest. */
  lemma FirstEffects(ss: seq<Statement>, es: seq<Effect>) returns (now: seq<Effect>, rest: seq<Effect>)
    requires ss != [] && Ran(ss, true, es)
    ensures es == now + rest && Did(ss[0], now) && Ran(ss[1..], true, rest)
  {
    var n := EffectCount(ss[0]);
    now, rest := es[..n], es[n..];
  }

  lemma StatementMeans(s: Statement, es: seq<Effect>, l: Ledger, on: bool)
    requires Did(s, es) && Permitted(s, on)
    ensures View(l.AfterAll(es)) == AfterStatement(View(l), s)
  {
    if es != [] {
      assert es == [es[0]];
      AfterFew(l, es[0], es[0]);
      ViewEffect(l, if s.Writes? then [s.w] else []);
    }
  }

  lemma ApplyMeans(l: Ledger, op: Op, o: Outcome)
    requires AllOrNothing(op, o) && o.ok
    ensures View(l.AfterAll(o.effects)) == View(l).Write(op)
  {
    AfterFew(l, Apply(op), Apply(op));
    ViewEffect(l, op);
    if op == [] {
      Whole(Flatten(l.durable));
      Whole(Flatten(l.open));
    }
  }

  lemma SwitchMeans(l: Ledger, on: bool, o: Outcome)
    requires SwitchLegal(on, o) && o.ok && Settled(l) && Settled(l.AfterAll(o.effects))
    ensures View(l.AfterAll(o.effects)) == AfterCall(View(l), SetAutocommit(on))
  {
    if o.effects == [Switch(on)] {
      AfterFew(l, Switch(on), Switch(on));
      if on {
        assert l.open == [];
        Whole(Flatten(l.durable));
      }
    } else {
      AfterFew(l, Effect.Settle, Switch(on));
      ViewEffect(l, []);
    }
  }

  /** What a successful call did is what it means. */
  lemma CallMeans(l: Ledger, c: Call, o: Outcome)
    requires Legal(c, o) && o.ok && Allowed(c, l.autocommit) && Settled(l) && Settled(l.AfterAll(o.effects))
    ensures View(l.AfterAll(o.effects)) == AfterCall(View(l), c)
  {
    match c
    case Ingest(req) => ApplyMeans(l, WholeOp(req), o);
    case Batch(rows, mayModify, _) => ApplyMeans(l, OpOf(rows, mayModify), o);
    case Prepared(w, mayModify, _) => ApplyMeans(l, OpOf([w], mayModify), o);
    case Text(ss, _) => RanMeans(ss, o.effects, l, l.autocommit);
    case Script(ss, _) => RanMeans(ss, o.effects, l, l.autocommit);
    case CommitCall => RanMeans([Commit], o.effects, l, false);
    case RollbackCall => RanMeans([Rollback], o.effects, l, false);
    case SetAutocommit(on) => SwitchMeans(l, on, o);
  }

  // ----- Runs -----

  /** No recovery rollback that was tried was refused. */
  predicate Recovered(connection: Connection)
    reads connection
  {
    forall k :: k in connection.world.unrecovered ==> connection.recoveries <= k
  }

  /** Nothing has failed so far, and everything is as the calls mean. */
  ghost predicate Undisturbed(connection: Connection, calls: seq<Call>, oks: seq<bool>)
    reads connection
  {
    && connection.poison.None? && View(connection.ledger) == AfterCalls(calls)
    && forall i :: 0 <= i < |oks| ==> oks[i]
  }

  method PerformNext(connection: Connection, calls: seq<Call>, oks: seq<bool>) returns (ok: bool, ghost effects: seq<Effect>)
    requires connection.Valid() && connection.trials.refused == connection.world.refused
    requires |oks| < |calls| && Classified(calls[|oks|])
    modifies connection, connection.trials
    ensures connection.Valid() && connection.ledger == old(connection.ledger).AfterAll(effects)
    ensures Legal(calls[|oks|], Outcome(ok, effects))
    ensures connection.world == World({}, {}) && AllowedRun(calls) && old(Undisturbed(connection, calls[..|oks|], oks))
            ==> Undisturbed(connection, calls[..|oks| + 1], oks + [ok])
  {
    ghost var before := connection.ledger;
    ok, effects := connection.Perform(calls[|oks|]);
    if connection.world == World({}, {}) && AllowedRun(calls) && old(Undisturbed(connection, calls[..|oks|], oks)) {
      StaysPlain(calls, |oks|, before, Outcome(ok, effects));
    }
  }

  /** One more call that was allowed and succeeded means what it says. */
  lemma StaysPlain(calls: seq<Call>, n: nat, before: Ledger, o: Outcome)
    requires n < |calls| && AllowedRun(calls) && View(before) == AfterCalls(calls[..n])
    requires Allowed(calls[n], before.autocommit) ==> o.ok
    requires Legal(calls[n], o) && Settled(before) && Settled(before.AfterAll(o.effects))
    ensures o.ok && View(before.AfterAll(o.effects)) == AfterCalls(calls[..n + 1])
  {
    assert Allowed(calls[n], AfterCalls(calls[..n]).on);
    CallMeans(before, calls[n], o);
    assert calls[..n + 1][..n] == calls[..n];
  }

  /**
   Every run, in every world, keeps the protocol's promises.  Unless a recovery rollback was refused,
   the durable data is the replay of whole operations.  A poisoned transaction is never in autocommit
   mode, the modified flag covers every open write, no COMMIT was ever sent while poisoned, and no
   recovery savepoint was ever taken over an earlier write.  In a world that refuses nothing, every
   call succeeds and the database holds what the calls say.
   */
  method Run(calls: seq<Call>, world: World)
    returns (connection: Connection, oks: seq<bool>, ghost outcomes: seq<Outcome>)
    requires forall i :: 0 <= i < |calls| ==> Classified(calls[i])
    ensures connection.world == world && LegalRun(calls, outcomes) && Answers(oks, outcomes)
    ensures Recovered(connection) ==> connection.committed == Flatten(Replay(outcomes).durable)
    ensures connection.poison.Some? ==> !connection.autocommit
    ensures connection.work != [] ==> connection.modified
    ensures forall i :: 0 <= i < |connection.sent| ==> Lawful(connection.sent[i])
    ensures world == World({}, {}) && AllowedRun(calls) ==>
              && (forall i :: 0 <= i < |oks| ==> oks[i])
              && Plain(connection.autocommit, connection.committed, connection.work) == AfterCalls(calls)
  {
    connection := new Connection(world);
    oks, outcomes := [], [];
    for i := 0 to |calls|
      invariant connection.Valid() && fresh(connection) && fresh(connection.trials)
      invariant connection.world == world && connection.trials.refused == world.refused
      invariant LegalRun(calls[..i], outcomes) && Answers(oks, outcomes)
      invariant connection.ledger == Replay(outcomes)
      invariant world == World({}, {}) && AllowedRun(calls) ==> Undisturbed(connection, calls[..i], oks)
    {
      ghost var effects;
      var ok;
      ok, effects := PerformNext(connection, calls, oks);
      RunGrows(calls, i, outcomes, Outcome(ok, effects));
      oks, outcomes := oks + [ok], outcomes + [Outcome(ok, effects)];
    }
    assert calls[..|calls|] == calls;
    Whole(Flatten(connection.ledger.open));
  }

  /** The outcomes report what the calls returned. */
  predicate Answers(oks: seq<bool>, outcomes: seq<Outcome>) {
    |oks| == |outcomes| && forall i :: 0 <= i < |oks| ==> outcomes[i].ok == oks[i]
  }

  // ----- What the durable data can be made of -----

  /** The operations a call may leave behind. */
  ghost predicate IsOperationOf(op: Op, c: Call) {
    match c
    case Ingest(req) => op == WholeOp(req)
    case Batch(rows, mayModify, _) => op == OpOf(rows, mayModify)
    case Prepared(w, mayModify, _) => op == OpOf([w], mayModify)
    case Text(statements, _) => exists s :: s in statements && s.Writes? && op == [s.w]
    case Script(statements, _) => exists s :: s in statements && s.Writes? && op == [s.w]
    case _ => false
  }

  ghost predicate Blocks(c: Call) {
    c.Ingest? ==> c.req.partial.Block?
  }

  lemma {:induction false} RanOnlyWrites(ss: seq<Statement>, ok: bool, es: seq<Effect>, op: Op)
    requires Ran(ss, ok, es) && Apply(op) in es
    ensures exists s :: s in ss && s.Writes? && op == [s.w]
  {
    if ss != [] && !(!ok && Stopped(ss[0], es)) {
      var n := EffectCount(ss[0]);
      assert es == es[..n] + es[n..];
      if Apply(op) in es[..n] {
        assert ss[0] in ss;
      } else {
        RanOnlyWrites(ss[1..], ok, es[n..], op);
        var s :| s in ss[1..] && s.Writes? && op == [s.w];
        assert s in ss;
      }
    }
  }

  lemma LegalOnlyWhole(c: Call, o: Outcome, op: Op)
    requires Legal(c, o) && Blocks(c) && Apply(op) in o.effects
    ensures IsOperationOf(op, c)
  {
    match c
    case Text(ss, _) => RanOnlyWrites(ss, o.ok, o.effects, op);
    case Script(ss, _) => RanOnlyWrites(ss, o.ok, o.effects, op);
    case CommitCall => RanOnlyWrites([Commit], o.ok, o.effects, op);
    case RollbackCall => RanOnlyWrites([Rollback], o.ok, o.effects, op);
    case _ =>
  }

  lemma {:induction false} LedgerOpsWereApplied(l: Ledger, es: seq<Effect>, op: Op)
    requires op in l.AfterAll(es).durable || op in l.AfterAll(es).open
    ensures op in l.durable || op in l.open || Apply(op) in es
  {
    if es != [] {
      var init := es[..|es| - 1];
      assert es == init + [es[|es| - 1]];
      if op in l.AfterAll(init).durable || op in l.AfterAll(init).open {
        LedgerOpsWereApplied(l, init, op);
      }
    }
  }

  lemma {:induction false} EffectHasSource(outcomes: seq<Outcome>, e: Effect) returns (i: nat)
    requires e in EffectsOf(outcomes)
    ensures i < |outcomes| && e in outcomes[i].effects
  {
    var last := |outcomes| - 1;
    if e in outcomes[last].effects {
      i := last;
    } else {
      i := EffectHasSource(outcomes[..last], e);
    }
  }

  /** With `ingest_partial=block`, durable data consists of whole operations the caller asked for. */
  lemma DurableComesFromWholeOperations(calls: seq<Call>, outcomes: seq<Outcome>, op: Op)
    requires LegalRun(calls, outcomes)
    requires forall i :: 0 <= i < |calls| ==> Blocks(calls[i])
    requires op in Replay(outcomes).durable
    ensures exists i :: 0 <= i < |calls| && IsOperationOf(op, calls[i])
  {
    LedgerOpsWereApplied(Fresh, EffectsOf(outcomes), op);
    var i := EffectHasSource(outcomes, Apply(op));
    LegalOnlyWhole(calls[i], outcomes[i], op);
  }
}

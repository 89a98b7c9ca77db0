/** What callers ask of a connection, and what each call may have done by the time it returns. */
module TransactionCalls {
  import opened AtomicView
  import opened Sequences
  import opened Savepoints

  datatype Statement =
    | Writes(w: Write)
    | Reads
    | Commit
    | Rollback
    | TakeSavepoint(name: string)
    | RollbackTo(name: string)
    | Release(name: string)

  datatype Mode = Create | Append | Replace | CreateAppend | UnknownMode
  datatype Atomicity = InTransaction | InSavepoint
  datatype Partial = Block | Allow

  datatype Path =
    | InsertRows(rows: Op)
    | CopyWindows(windows: Op)
    | StagedCopy(stage: Write, windows: Op, move: Write, drop: Write)

  datatype IngestRequest = IngestRequest(
    mode: Mode, create: Write, dropTarget: Write, path: Path,
    appendToExisting: bool, targetMissing: bool,
    atomicity: Atomicity, partial: Partial, retainSavepoint: bool)

  /** The statements that put the target table in place. */
  function Setup(req: IngestRequest): Op {
    match req.mode
    case Create => [req.create]
    case Replace => [req.dropTarget, req.create]
    case CreateAppend => [req.create]
    case Append => []
    case UnknownMode => []
  }

  function Body(path: Path): Op {
    match path
    case InsertRows(rows) => rows
    case CopyWindows(windows) => windows
    case StagedCopy(stage, windows, move, drop) => [stage] + windows + [move, drop]
  }

  function WholeOp(req: IngestRequest): Op {
    Setup(req) + Body(req.path)
  }

  datatype Call =
    | Ingest(req: IngestRequest)
    | Batch(rows: Op, mayModify: bool, retain: bool)
    | Prepared(w: Write, mayModify: bool, retain: bool)
    | Text(statements: seq<Statement>, mayModify: bool)
    | Script(statements: seq<Statement>, mayModify: bool)
    | CommitCall
    | RollbackCall
    | SetAutocommit(on: bool)

  predicate HasWrite(statements: seq<Statement>) {
    exists i :: 0 <= i < |statements| && statements[i].Writes?
  }

  /** The guard's classification errs only towards "may modify". */
  predicate Classified(c: Call) {
    match c
    case Text(statements, mayModify) => HasWrite(statements) ==> mayModify
    case Script(statements, mayModify) => HasWrite(statements) ==> mayModify
    case _ => true
  }

  /** The operation a multi-statement call stands for. */
  function OpOf(rows: Op, mayModify: bool): Op {
    if mayModify then rows else []
  }

  /** The server takes the statement in this mode: transactions are controlled only outside autocommit. */
  predicate Permitted(s: Statement, autocommit: bool) {
    s.Writes? || s.Reads? || (!autocommit && (s.Commit? || s.Rollback? || s.TakeSavepoint?))
  }

  predicate AllPermitted(ss: seq<Statement>, autocommit: bool) {
    forall i :: 0 <= i < |ss| ==> Permitted(ss[i], autocommit)
  }

  /** A call that nothing but the world can make fail. */
  predicate Allowed(c: Call, autocommit: bool) {
    match c
    case Ingest(req) => !req.mode.UnknownMode? && (autocommit || req.atomicity.InTransaction?)
    case Text(statements, _) => AllPermitted(statements, autocommit)
    case Script(statements, _) => AllPermitted(statements, autocommit)
    case CommitCall => !autocommit
    case RollbackCall => !autocommit
    case _ => true
  }

  datatype Outcome = Outcome(ok: bool, effects: seq<Effect>)

  /**
   All of an operation or none of it, whether or not autocommit came back on.  A failed operation
   took effect only if restoring autocommit is what failed.
   */
  predicate AllOrNothing(op: Op, o: Outcome) {
    && (!o.ok ==> o.effects != [Apply(op)])
    && (o.ok ==> o.effects == [Apply(op)] || (op == [] && o.effects == []))
    && (o.effects == [] || o.effects == [Apply(op)]
        || o.effects == [Switch(false)] || o.effects == [Apply(op), Switch(false)])
  }

  /** Only a direct append under `ingest_partial=allow` may keep a proper part. */
  predicate MayKeepPart(req: IngestRequest) {
    req.partial.Allow? && req.mode.Append? && req.path.CopyWindows?
  }

  predicate IngestLegal(req: IngestRequest, o: Outcome) {
    || AllOrNothing(WholeOp(req), o)
    || (!o.ok && MayKeepPart(req) && |o.effects| == 1 && o.effects[0].Apply? && o.effects[0].op <= WholeOp(req))
  }

  function EffectCount(s: Statement): nat {
    if s.Writes? || s.Commit? || s.Rollback? || s.RollbackTo? then 1 else 0
  }

  /** What a statement did when the server accepted it. */
  predicate Did(s: Statement, es: seq<Effect>) {
    && |es| == EffectCount(s)
    && (s.Writes? ==> es[0] == Apply([s.w]))
    && (s.Commit? ==> es[0] == Settle)
    && (s.Rollback? ==> es[0] == Discard)
    && (s.RollbackTo? ==> es[0].Cut?)
  }

  /** What a statement did when the server refused it. */
  predicate Stopped(s: Statement, es: seq<Effect>) {
    es == [] || (s.Commit? && es == [Discard])
  }

  /** The statements ran in order, all of them or up to the first refused one. */
  predicate Ran(ss: seq<Statement>, ok: bool, es: seq<Effect>) {
    if ss == [] then ok && es == []
    else
      || (!ok && Stopped(ss[0], es))
      || (EffectCount(ss[0]) <= |es| && Did(ss[0], es[..EffectCount(ss[0])])
          && Ran(ss[1..], ok, es[EffectCount(ss[0])..]))
  }

  lemma {:induction false} RanOn(ss: seq<Statement>, es: seq<Effect>, rest: seq<Statement>, ok: bool, more: seq<Effect>)
    requires Ran(ss, true, es) && Ran(rest, ok, more)
    ensures Ran(ss + rest, ok, es + more)
  {
    if ss == [] {
      assert ss + rest == rest && es + more == more;
    } else {
      var n := EffectCount(ss[0]);
      RanOn(ss[1..], es[n..], rest, ok, more);
      Sequences.CutFirst(ss, rest, 1);
      Sequences.CutFirst(es, more, n);
    }
  }

  lemma RanStep(ss: seq<Statement>, i: nat, ok: bool, es: seq<Effect>, now: seq<Effect>)
    requires i < |ss| && Ran(ss[..i], true, es)
    requires if ok then Did(ss[i], now) else Stopped(ss[i], now)
    ensures ok ==> Ran(ss[..i + 1], true, es + now)
    ensures !ok ==> Ran(ss, false, es + now)
  {
    if ok {
      assert now[..|now|] == now && now[|now|..] == [] && [ss[i]][1..] == [];
      assert Ran([ss[i]], true, now);
      RanOn(ss[..i], es, [ss[i]], true, now);
      assert ss[..i] + [ss[i]] == ss[..i + 1];
    } else {
      RanOn(ss[..i], es, ss[i..], false, now);
      assert ss[..i] + ss[i..] == ss;
    }
  }

  lemma {:induction false} RanRollback(ss: seq<Statement>, es: seq<Effect>)
    requires Ran(ss, true, es)
    ensures Rollback in ss ==> Discard in es
  {
    if ss != [] {
      var n := EffectCount(ss[0]);
      RanRollback(ss[1..], es[n..]);
      assert ss == [ss[0]] + ss[1..] && es == es[..n] + es[n..];
    }
  }

  predicate Legal(c: Call, o: Outcome) {
    match c
    case Ingest(req) => IngestLegal(req, o)
    case Batch(rows, mayModify, _) => AllOrNothing(OpOf(rows, mayModify), o)
    case Prepared(w, mayModify, _) => AllOrNothing(OpOf([w], mayModify), o)
    case Text(statements, _) => Ran(statements, o.ok, o.effects) || o == Outcome(false, [])
    case Script(statements, _) => Ran(statements, o.ok, o.effects) || o == Outcome(false, [])
    case CommitCall => Ran([Commit], o.ok, o.effects)
    case RollbackCall => Ran([Rollback], o.ok, o.effects)
    case SetAutocommit(on) => SwitchLegal(on, o)
  }

  predicate SwitchLegal(on: bool, o: Outcome) {
    && (o.ok && on ==> o.effects == [Settle, Switch(true)] || o.effects == [Switch(true)])
    && (o.ok && !on ==> o.effects == [Switch(false)])
    && (!o.ok ==> o.effects == [] || (on && (o.effects == [Settle] || o.effects == [Discard])))
  }

  // ----- The driver's atomic scopes -----

  datatype CallerScope = Direct | ViaSavepoint

  datatype AtomicScope =
    | AutocommitScope
    | CallerTransaction
    | SavepointScope(name: Name, retain: bool)

  function CallerScopeFor(req: IngestRequest): CallerScope {
    if req.path.InsertRows? || req.path.StagedCopy? || req.targetMissing then ViaSavepoint
    else if req.appendToExisting && req.atomicity.InTransaction? then Direct
    else ViaSavepoint
  }
}

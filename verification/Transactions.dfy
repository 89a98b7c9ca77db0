/**
 The driver's transaction protocol: the poison flag, the write guard, atomic
 scopes with their recovery, the autocommit switch, raw SQL, parameter batches
 and bulk ingest, run against an abstract server that may refuse any statement.
 */
module Transactions {
  import opened Wrappers
  import opened AtomicView
  import opened Sequences
  import opened Savepoints
  import opened TransactionCalls

  datatype CommitReply = Committed | Refused | RolledBack

  /** The sends the protocol must never get wrong, with the state they were sent in. */
  datatype Sent =
    | CommitSent(poisoned: bool)
    | RecoverySavepointSent(openWrites: bool)

  predicate Lawful(s: Sent) {
    match s
    case CommitSent(poisoned) => !poisoned
    case RecoverySavepointSent(openWrites) => !openWrites
  }

  /**
   How the world answers.  Whatever can fail is numbered in the order it is tried, and so are the
   rollbacks that a failed operation recovers with; these are the numbers of those that fail.
   */
  datatype World = World(refused: set<nat>, unrecovered: set<nat>)

  /** Counts what was tried, and tells whether it succeeds. */
  class Trials {
    const refused: set<nat>
    var tried: nat

    constructor (refused: set<nat>)
      ensures this.refused == refused && tried == 0
    {
      this.refused, tried := refused, 0;
    }

    method Try() returns (ok: bool)
      modifies this
      ensures ok == (old(tried) !in refused) && tried == old(tried) + 1
    {
      ok := tried !in refused;
      tried := tried + 1;
    }
  }

  class Connection {
    const world: World
    const trials: Trials
    var recoveries: nat

    // What the server holds for this session.
    var autocommit: bool
    var committed: seq<Write>
    var work: seq<Write>
    var savepoints: seq<Savepoint>

    // What the driver remembers.
    var modified: bool
    var poison: Option<string>
    var savepointId: nat

    // What the proofs follow: the atomic view, where each savepoint sits in it, whether the open
    // transaction is free of partial operations, the delicate sends so far, and which
    // recovery rollback was refused, if any.
    ghost var ledger: Ledger
    ghost var opMarks: seq<nat>
    ghost var aligned: bool
    ghost var sent: seq<Sent>
    ghost var recoveryFailed: bool
    ghost var refusedAt: nat

    constructor (world: World)
      ensures Valid() && autocommit && committed == [] && !recoveryFailed && poison.None?
      ensures ledger == Ledger(true, [], []) && sent == [] && this.world == world
      ensures fresh(trials) && trials.refused == world.refused
    {
      this.world, recoveries, refusedAt := world, 0, 0;
      trials := new Trials(world.refused);
      autocommit, committed, work, savepoints := true, [], [], [];
      modified, poison, savepointId := false, None, 0;
      ledger, opMarks, aligned, sent, recoveryFailed := Ledger(true, [], []), [], true, [], false;
    }

    // ----- Invariants -----

    ghost predicate Shape()
      reads this
    {
      && (autocommit ==> work == [] && savepoints == [])
      && |opMarks| == |savepoints|
      && Nested(savepoints, |work|)
    }

    /** The open transaction is the open operations and then `extra`. */
    ghost predicate AlignedWith(extra: seq<Write>)
      reads this
    {
      && work == Flatten(ledger.open) + extra
      && Fits(savepoints, opMarks, work, ledger.open)
    }

    ghost predicate Agrees()
      reads this
    {
      !recoveryFailed ==>
        && ledger.autocommit == autocommit
        && committed == Flatten(ledger.durable)
        && (autocommit ==> ledger.open == [])
        && (aligned ==> AlignedWith([]))
    }

    ghost predicate AllLawful()
      reads this
    {
      Accounted() && forall i :: 0 <= i < |sent| ==> Lawful(sent[i])
    }

    /** A recovery that failed is one that the world refused. */
    ghost predicate Accounted()
      reads this
    {
      recoveryFailed ==> refusedAt < recoveries && refusedAt in world.unrecovered
    }

    /** Nothing is refused, apart from recoveries, which are then never needed. */
    predicate Calm() {
      trials.refused == {}
    }

    /** The invariant while `m` stands for "the open transaction may hold a write". */
    ghost predicate Inv(m: bool)
      reads this
    {
      && Shape()
      && (poison.Some? ==> !autocommit && m)
      && (poison.None? ==> aligned)
      && (work != [] ==> m)
      && AllLawful()
      && Agrees()
    }

    ghost predicate Valid()
      reads this
    {
      Inv(modified)
    }

    /** The state inside an atomic scope whose operation has so far sent `extra`. */
    ghost predicate InScope(scope: AtomicScope, extra: seq<Write>)
      reads this
    {
      && Shape() && AllLawful() && !autocommit && (poison.None? ==> aligned)
      && (!recoveryFailed ==>
            && committed == Flatten(ledger.durable)
            && ledger.autocommit == scope.AutocommitScope?)
      && match scope
         case AutocommitScope =>
           poison.None? && savepoints == [] && work == extra && (!recoveryFailed ==> ledger.open == [])
         case SavepointScope(name, _) =>
           && poison.None? && work == extra
           && |savepoints| > 0 && savepoints[|savepoints| - 1] == Savepoint(name, 0)
           && (!recoveryFailed ==> AlignedWith(extra))
         case CallerTransaction =>
           !recoveryFailed && aligned ==> AlignedWith(extra)
    }

    // ----- Statements sent to the server, which may refuse any of them -----

    /** Whether the next recovery rollback is accepted. */
    method TryRecovery() returns (yes: bool)
      modifies `recoveries, `recoveryFailed, `refusedAt
      ensures yes == (old(recoveries) !in world.unrecovered) && recoveries == old(recoveries) + 1
      ensures recoveryFailed == (old(recoveryFailed) || !yes)
      ensures old(Accounted()) ==> Accounted()
    {
      yes := recoveries !in world.unrecovered;
      if !yes {
        recoveryFailed, refusedAt := true, recoveries;
      }
      recoveries := recoveries + 1;
    }

    method SendWrite(w: Write) returns (ok: bool)
      modifies `committed, `work, trials
      ensures !ok ==> committed == old(committed) && work == old(work)
      ensures ok && autocommit ==> committed == old(committed) + [w] && work == old(work)
      ensures ok && !autocommit ==> committed == old(committed) && work == old(work) + [w]
      ensures Calm() ==> ok
    {
      ok := trials.Try();
      if !ok {
        return;
      }
      if autocommit {
        committed := committed + [w];
      } else {
        work := work + [w];
      }
    }

    /** A refused COMMIT either leaves the transaction open or rolls it back. */
    method SendCommit() returns (reply: CommitReply)
      requires !autocommit
      modifies `committed, `work, `savepoints, `opMarks, `sent, trials
      ensures sent == old(sent) + [CommitSent(poison.Some?)]
      ensures reply.Committed? ==> committed == old(committed) + old(work)
      ensures !reply.Committed? ==> committed == old(committed)
      ensures !reply.Refused? ==> work == [] && savepoints == [] && opMarks == []
      ensures reply.Refused? ==> work == old(work) && savepoints == old(savepoints) && opMarks == old(opMarks)
      ensures Calm() ==> reply.Committed?
    {
      sent := sent + [CommitSent(poison.Some?)];
      var reached := trials.Try();
      if !reached {
        return Refused;
      }
      var accepted := trials.Try();
      if !accepted {
        work, savepoints, opMarks := [], [], [];
        return RolledBack;
      }
      committed, work, savepoints, opMarks := committed + work, [], [], [];
      reply := Committed;
    }

    method SendRollback(accepted: bool)
      requires !autocommit
      modifies `work, `savepoints, `opMarks
      ensures accepted ==> work == [] && savepoints == [] && opMarks == []
      ensures !accepted ==> work == old(work) && savepoints == old(savepoints) && opMarks == old(opMarks)
    {
      if accepted {
        work, savepoints, opMarks := [], [], [];
      }
    }

    method SendSavepoint(name: Name) returns (ok: bool)
      requires !autocommit && Shape()
      modifies `savepoints, `opMarks, trials
      ensures ok ==> savepoints == old(savepoints) + [Savepoint(name, |work|)]
      ensures ok ==> opMarks == old(opMarks) + [|ledger.open|]
      ensures !ok ==> savepoints == old(savepoints) && opMarks == old(opMarks)
      ensures Shape()
      ensures Calm() ==> ok
    {
      ok := trials.Try();
      if !ok {
        return;
      }
      savepoints, opMarks := savepoints + [Savepoint(name, |work|)], opMarks + [|ledger.open|];
      assert savepoints[..|savepoints| - 1] == old(savepoints);
    }

    /** The index of the innermost savepoint of that name, if any. */
    method FindSavepoint(name: Name) returns (at: Option<nat>)
      ensures at.Some? ==> at.value < |savepoints| && savepoints[at.value].name == name
      ensures at.Some? ==> forall i :: at.value < i < |savepoints| ==> savepoints[i].name != name
      ensures at.None? ==> forall i :: 0 <= i < |savepoints| ==> savepoints[i].name != name
    {
      var i := |savepoints|;
      while i > 0
        invariant 0 <= i <= |savepoints|
        invariant forall j :: i <= j < |savepoints| ==> savepoints[j].name != name
      {
        i := i - 1;
        if savepoints[i].name == name {
          return Some(i);
        }
      }
      at := None;
    }

    /** Keeps the savepoint itself and forgets the later ones. */
    method SendRollbackTo(name: Name, accepted: bool) returns (ok: bool, ghost at: nat)
      requires !autocommit && Shape()
      modifies `work, `savepoints, `opMarks
      ensures !ok ==> work == old(work) && savepoints == old(savepoints) && opMarks == old(opMarks)
      ensures ok ==> at < |old(savepoints)| && old(savepoints)[at].name == name
      ensures ok ==> forall i :: at < i < |old(savepoints)| ==> old(savepoints)[i].name != name
      ensures ok ==> old(savepoints)[at].mark <= |old(work)| && work == old(work)[..old(savepoints)[at].mark]
      ensures ok ==> savepoints == old(savepoints)[..at + 1] && opMarks == old(opMarks)[..at + 1]
      ensures ok <==> accepted && exists i :: 0 <= i < |old(savepoints)| && old(savepoints)[i].name == name
      ensures Shape()
    {
      at := 0;
      var found := FindSavepoint(name);
      if found.None? {
        return false, 0;
      }
      if !accepted {
        return false, 0;
      }
      at := found.value;
      NestedCut(savepoints, |work|, at);
      work := work[..savepoints[found.value].mark];
      savepoints, opMarks := savepoints[..found.value + 1], opMarks[..found.value + 1];
      ok := true;
    }

    /** Forgets the savepoint and the later ones; the work stays. */
    method SendRelease(name: Name) returns (ok: bool, ghost at: nat)
      requires !autocommit && Shape()
      modifies `savepoints, `opMarks, trials
      ensures !ok ==> savepoints == old(savepoints) && opMarks == old(opMarks)
      ensures ok ==> at < |old(savepoints)| && old(savepoints)[at].name == name
      ensures ok ==> forall i :: at < i < |old(savepoints)| ==> old(savepoints)[i].name != name
      ensures ok ==> savepoints == old(savepoints)[..at] && opMarks == old(opMarks)[..at]
      ensures Shape()
      ensures Calm() ==> ok || forall i :: 0 <= i < |old(savepoints)| ==> old(savepoints)[i].name != name
    {
      at := 0;
      var found := FindSavepoint(name);
      if found.None? {
        return false, 0;
      }
      var accepted := trials.Try();
      if !accepted {
        return false, 0;
      }
      at := found.value;
      NestedCut(savepoints, |work|, at);
      savepoints, opMarks := savepoints[..found.value], opMarks[..found.value];
      ok := true;
    }

    /** Switching autocommit on makes whatever is still open durable. */
    method SendAutocommit(on: bool) returns (ok: bool)
      modifies `autocommit, `committed, `work, `savepoints, `opMarks, trials
      ensures !ok ==> autocommit == old(autocommit) && committed == old(committed)
      ensures !ok || !on ==> work == old(work) && savepoints == old(savepoints) && opMarks == old(opMarks)
      ensures ok ==> autocommit == on
      ensures ok && on ==> committed == old(committed) + old(work) && work == [] && savepoints == [] && opMarks == []
      ensures ok && !on ==> committed == old(committed)
      ensures Calm() ==> ok
    {
      ok := trials.Try();
      if !ok {
        return;
      }
      autocommit := on;
      if on {
        committed, work, savepoints, opMarks := committed + work, [], [], [];
      }
    }

    // ----- Poison -----

    /** The first reason wins. */
    method PoisonTransaction(reason: string)
      modifies `poison
      ensures poison == if old(poison).None? then Some(reason) else old(poison)
    {
      if poison.None? {
        poison := Some(reason);
      }
    }

    method PoisonScope(reason: string, ghost extra: seq<Write>)
      requires InScope(CallerTransaction, extra)
      modifies `poison, `aligned
      ensures InScope(CallerTransaction, extra) && poison.Some? && !aligned
      ensures old(poison).Some? ==> poison == old(poison)
    {
      PoisonTransaction(reason);
      aligned := false;
    }

    // ----- Atomic scopes -----

    /**
     Opens the scope an operation recovers in.  A recovery savepoint is taken only in a
     transaction that holds no earlier write.
     */
    method BeginAtomic(callerScope: CallerScope, priorWrites: bool, retain: bool)
      returns (scope: Option<AtomicScope>)
      requires Inv(priorWrites)
      modifies `autocommit, `committed, `work, `savepoints, `opMarks, `savepointId, `sent, trials
      ensures committed == old(committed) && work == old(work)
      ensures scope.None? ==> Inv(priorWrites)
      ensures scope.Some? ==> InScope(scope.value, [])
      ensures scope.Some? && scope.value.CallerTransaction? ==> priorWrites || callerScope.Direct?
      ensures Calm() ==> scope.Some?
    {
      if autocommit {
        var off := SendAutocommit(false);
        return if off then Some(AutocommitScope) else None;
      }
      if priorWrites || callerScope.Direct? {
        return Some(CallerTransaction);
      }
      var known := trials.Try();
      if !known {
        return None;
      }
      scope := BeginSavepoint(retain);
    }

    method NextSavepointName() returns (name: Name)
      requires Inv(false) && !autocommit
      modifies `savepointId, `sent
      ensures Inv(false) && name == Driver(old(savepointId)) && savepointId == old(savepointId) + 1
    {
      name := Driver(savepointId);
      savepointId := savepointId + 1;
      sent := sent + [RecoverySavepointSent(work != [])];
    }

    method BeginSavepoint(retain: bool) returns (scope: Option<AtomicScope>)
      requires Inv(false) && !autocommit
      modifies `savepoints, `opMarks, `savepointId, `sent, trials
      ensures scope.None? ==> Inv(false)
      ensures scope.Some? ==> scope.value.SavepointScope? && InScope(scope.value, [])
      ensures Calm() ==> scope.Some?
    {
      var name := NextSavepointName();
      var ok := SendSavepoint(name);
      if !ok {
        return None;
      }
      assert !recoveryFailed ==> AlignedWith([]) by {
        if !recoveryFailed {
          Whole(Flatten(ledger.open));
          FitsPush(old(savepoints), old(opMarks), work, ledger.open, name);
        }
      }
      scope := Some(SavepointScope(name, retain));
    }

    method FinishAutocommit(success: bool) returns (ok: bool, clean: bool, ghost applied: bool)
      requires !autocommit && poison.None? && AllLawful() && Shape()
      modifies `autocommit, `committed, `work, `savepoints, `opMarks, `sent, `recoveries, `recoveryFailed, `refusedAt, trials
      ensures Shape() && AllLawful()
      ensures old(recoveryFailed) ==> recoveryFailed
      ensures applied ==> success
      ensures !recoveryFailed ==> committed == old(committed) + if applied then old(work) else []
      ensures !recoveryFailed ==> work == [] && savepoints == []
      ensures work == old(work) || work == []
      ensures ok ==> success && applied && autocommit
      ensures clean ==> autocommit && (!success ==> !recoveryFailed || old(recoveryFailed))
      ensures applied && autocommit ==> ok
      ensures Calm() ==> ok == success
    {
      ok, clean, applied := success, true, false;
      if success {
        var reply := SendCommit();
        ok, applied := reply.Committed?, reply.Committed?;
      }
      if !ok {
        clean := TryRecovery();
        SendRollback(clean);
      }
      var restored := SendAutocommit(true);
      if !restored {
        ok, clean := false, false;
      }
    }

    /** Releases on success, otherwise goes back to the savepoint first. */
    method LeaveSavepoint(name: Name, retain: bool, success: bool) returns (ok: bool, clean: bool)
      requires !autocommit && Shape() && Accounted()
      requires |savepoints| > 0 && savepoints[|savepoints| - 1] == Savepoint(name, 0)
      modifies `work, `savepoints, `opMarks, `recoveries, `recoveryFailed, `refusedAt, trials
      ensures Shape() && Accounted()
      ensures Calm() ==> ok == success
      ensures old(recoveryFailed) ==> recoveryFailed
      ensures ok ==> success && work == old(work)
      ensures !ok && (clean || !recoveryFailed) ==> work == []
      ensures work == old(work) || work == []
      ensures (savepoints == old(savepoints) && opMarks == old(opMarks))
           || (savepoints == old(savepoints)[..|old(savepoints)| - 1] && opMarks == old(opMarks)[..|old(opMarks)| - 1])
    {
      ghost var at;
      ok, clean := success, true;
      if success && !retain {
        ok, at := SendRelease(name);
      }
      if !ok {
        var accepted := TryRecovery();
        clean, at := SendRollbackTo(name, accepted);
        if clean && !retain {
          clean, at := SendRelease(name);
        }
      }
    }

    method FinishSavepoint(name: Name, retain: bool, success: bool, ghost extra: seq<Write>)
      returns (ok: bool, clean: bool)
      requires InScope(SavepointScope(name, retain), extra)
      modifies `work, `savepoints, `opMarks, `recoveries, `recoveryFailed, `refusedAt, trials
      ensures InScope(CallerTransaction, if ok then extra else [])
      ensures old(recoveryFailed) ==> recoveryFailed
      ensures ok ==> success
      ensures !ok && clean ==> work == []
      ensures work != [] ==> work == old(work)
      ensures Calm() ==> ok == success
    {
      if !recoveryFailed {
        FitsAtStart(savepoints, opMarks, work, ledger.open);
      }
      ok, clean := LeaveSavepoint(name, retain, success);
    }

    ghost method RecordOpen(op: Op, applied: bool, m: bool) returns (effects: seq<Effect>)
      requires InScope(CallerTransaction, op)
      requires (poison.Some? ==> m) && (work != [] ==> m)
      requires !applied && aligned ==> op == []
      modifies `ledger
      ensures effects == if applied then [Apply(op)] else []
      ensures ledger == old(ledger).AfterAll(effects) && Inv(m)
    {
      effects := if applied then [Apply(op)] else [];
      AfterFew(ledger, Apply(op), Apply(op));
      FlattenPush(ledger.open, op);
      if !recoveryFailed && applied && aligned {
        FitsGrow(savepoints, opMarks, work, ledger.open, [], [op]);
        assert work + [] == work;
      }
      ledger := ledger.AfterAll(effects);
    }

    ghost method RecordAutocommit(op: Op, applied: bool, m: bool) returns (effects: seq<Effect>)
      requires Shape() && AllLawful() && poison.None? && aligned && (work != [] ==> m)
      requires !recoveryFailed ==>
                 && work == [] && savepoints == [] && ledger.autocommit && ledger.open == []
                 && committed == Flatten(ledger.durable) + if applied then op else []
      modifies `ledger
      ensures effects == (if applied then [Apply(op)] else []) + (if autocommit then [] else [Switch(false)])
      ensures ledger == old(ledger).AfterAll(effects) && Inv(m)
    {
      effects := (if applied then [Apply(op)] else []) + (if autocommit then [] else [Switch(false)]);
      if !recoveryFailed {
        ConcludeAutocommit(ledger, op, applied, autocommit);
      }
      ledger := ledger.AfterAll(effects);
    }

    method FinishAutocommitScope(success: bool, ghost extra: Op, ghost m: bool)
      returns (ok: bool, clean: bool, ghost effects: seq<Effect>)
      requires InScope(AutocommitScope, extra) && (work != [] ==> m)
      modifies `autocommit, `committed, `work, `savepoints, `opMarks, `sent, `recoveries, `recoveryFailed, `refusedAt,
               `ledger, trials
      ensures Inv(m) && ledger == old(ledger).AfterAll(effects)
      ensures (old(recoveryFailed) ==> recoveryFailed) && (ok ==> success && effects == [Apply(extra)])
      ensures AllOrNothing(extra, Outcome(ok, effects))
      ensures !success ==> effects == [] || effects == [Switch(false)]
      ensures clean && !success ==> effects == [] && work == []
      ensures Calm() ==> ok == success
    {
      ghost var applied: bool;
      ok, clean, applied := FinishAutocommit(success);
      effects := RecordAutocommit(extra, applied, m);
    }

    /**
     Commits, releases or recovers.  `kept` says that a failed direct append keeps what it wrote.
     `m` over-approximates the writes of the open transaction.
     */
    method FinishAtomic(scope: AtomicScope, success: bool, ghost extra: Op, ghost kept: bool, ghost m: bool)
      returns (ok: bool, clean: bool, ghost effects: seq<Effect>)
      requires InScope(scope, extra)
      requires (poison.Some? ==> m) && (work != [] ==> m)
      requires kept ==> scope.CallerTransaction? && !success
      requires scope.CallerTransaction? && aligned && !success && !kept ==> extra == []
      modifies `autocommit, `committed, `work, `savepoints, `opMarks, `sent, `recoveries, `recoveryFailed, `refusedAt, `ledger, trials
      ensures Inv(m) && ledger == old(ledger).AfterAll(effects)
      ensures old(recoveryFailed) ==> recoveryFailed
      ensures ok ==> success && effects == [Apply(extra)]
      ensures kept ==> effects == [Apply(extra)]
      ensures !kept ==> AllOrNothing(extra, Outcome(ok, effects))
      ensures !success && !kept ==> effects == [] || (effects == [Switch(false)] && !scope.CallerTransaction?)
      ensures clean && !success && !scope.CallerTransaction? ==> effects == [] && work == [] && poison.None?
      ensures Calm() ==> ok == success
    {
      clean := true;
      match scope {
        case AutocommitScope =>
          ok, clean, effects := FinishAutocommitScope(success, extra, m);
        case CallerTransaction =>
          ok := success;
          effects := RecordOpen(extra, success || kept, m);
        case SavepointScope(name, retain) =>
          ok, clean := FinishSavepoint(name, retain, success, extra);
          effects := RecordOpen(if ok then extra else [], ok, m);
      }
    }

    /** Ends an operation that broke in the caller's own transaction. */
    method FinishPoisoned(reason: string, ghost extra: Op, ghost m: bool) returns (ghost effects: seq<Effect>)
      requires InScope(CallerTransaction, extra) && m
      modifies `autocommit, `committed, `work, `savepoints, `opMarks, `sent, `recoveries, `recoveryFailed, `refusedAt,
               `ledger, `poison, `aligned, trials
      ensures Inv(m) && ledger == old(ledger).AfterAll(effects) && effects == []
      ensures (old(recoveryFailed) ==> recoveryFailed) && (old(poison).Some? ==> poison == old(poison))
    {
      PoisonScope(reason, extra);
      var ok, clean;
      ok, clean, effects := FinishAtomic(CallerTransaction, false, extra, false, m);
    }

    // ----- Operations of several statements -----

    /**
     Sends the statements of an operation.  Sending may stop early: the server refuses one, the
     source of rows fails, or a reported row count is wrong after the statement took effect.
     */
    method SendAll(writes: Op, ghost scope: AtomicScope, ghost before: seq<Write>)
      returns (ok: bool, ghost done: seq<Write>)
      requires InScope(scope, before)
      modifies `committed, `work, trials
      ensures InScope(scope, before + done) && done <= writes
      ensures ok ==> done == writes
      ensures Calm() ==> ok
    {
      done := [];
      assert before + [] == before;
      for i := 0 to |writes|
        invariant done == writes[..i]
        invariant InScope(scope, before + done)
      {
        ok := trials.Try();
        if !ok {
          return;
        }
        ok := SendOneWrite(writes[i], scope, before + done);
        if !ok {
          return;
        }
        done := done + [writes[i]];
        assert before + writes[..i] + [writes[i]] == before + done;
        ok := trials.Try();
        if !ok {
          return;
        }
      }
      assert writes[..|writes|] == writes;
      ok := true;
    }

    method SendOneWrite(w: Write, ghost scope: AtomicScope, ghost before: seq<Write>) returns (ok: bool)
      requires InScope(scope, before)
      modifies `committed, `work, trials
      ensures InScope(scope, if ok then before + [w] else before)
      ensures Calm() ==> ok
    {
      ok := SendWrite(w);
      if ok {
        NestedGrow(savepoints, |old(work)|, |work|);
        if Fits(savepoints, opMarks, old(work), ledger.open) {
          FitsGrow(savepoints, opMarks, old(work), ledger.open, [w], []);
          assert ledger.open + [] == ledger.open;
        }
        assert Flatten(ledger.open) + before + [w] == Flatten(ledger.open) + (before + [w]);
      }
    }

    /** One COPY per window; the first window to arrive starts the writes. */
    method SendWindows(windows: Op, wasStarted: bool, ghost scope: AtomicScope, ghost before: seq<Write>)
      returns (ok: bool, started: bool, copies: nat, ghost done: seq<Write>)
      requires InScope(scope, before)
      modifies `committed, `work, trials
      ensures InScope(scope, before + done) && done <= windows
      ensures ok ==> done == windows
      ensures wasStarted ==> started
      ensures !started ==> done == []
      ensures copies <= |done|
      ensures Calm() ==> ok
    {
      started, copies, done := wasStarted, 0, [];
      assert before + [] == before;
      for i := 0 to |windows|
        invariant done == windows[..i] && copies == i
        invariant wasStarted ==> started
        invariant !started ==> done == []
        invariant InScope(scope, before + done)
      {
        ok := trials.Try();
        if !ok {
          return;
        }
        started := true;
        ok := SendOneWrite(windows[i], scope, before + done);
        if !ok {
          return;
        }
        done := done + [windows[i]];
        assert before + windows[..i] + [windows[i]] == before + done;
        ok := trials.Try();
        if !ok {
          return;
        }
        copies := copies + 1;
        ok := trials.Try();
        if !ok {
          return;
        }
      }
      assert windows[..|windows|] == windows;
      ok := true;
    }

    /** Everything ingest sends inside its scope: the target table, then the rows. */
    method SendIngest(req: IngestRequest, ghost scope: AtomicScope)
      returns (ok: bool, started: bool, copies: nat, ghost done: seq<Write>)
      requires InScope(scope, [])
      modifies `committed, `work, trials
      ensures InScope(scope, done) && done <= WholeOp(req)
      ensures ok ==> done == WholeOp(req)
      ensures !started ==> done == []
      ensures copies > 0 ==> req.path.CopyWindows?
      ensures Calm() ==> (ok || req.mode.UnknownMode?)
    {
      started, copies, done := !req.mode.Append?, 0, [];
      if req.mode.UnknownMode? {
        return false, started, copies, done;
      }
      ghost var setup, body;
      ok, setup := SendAll(Setup(req), scope, []);
      done := setup;
      assert [] + setup == setup;
      if !ok {
        return false, started, copies, done;
      }
      ok := trials.Try();
      if !ok {
        return;
      }
      match req.path {
        case InsertRows(rows) =>
          started := true;
          ok, body := SendAll(rows, scope, setup);
        case CopyWindows(windows) =>
          ok, started, copies, body := SendWindows(windows, started, scope, setup);
        case StagedCopy(_, _, _, _) =>
          started := true;
          ok, body := SendAll(Body(req.path), scope, setup);
      }
      done := setup + body;
    }

    /** Bulk ingest, after the guard has marked the transaction as modified. */
    method Ingest(req: IngestRequest, priorWrites: bool) returns (ok: bool, ghost effects: seq<Effect>)
      requires Inv(priorWrites)
      modifies this, trials
      ensures Inv(true) && ledger == old(ledger).AfterAll(effects)
      ensures IngestLegal(req, Outcome(ok, effects))
      ensures old(recoveryFailed) ==> recoveryFailed
      ensures old(poison).Some? ==> poison == old(poison)
      ensures Calm() && !req.mode.UnknownMode? && (old(autocommit) || req.atomicity.InTransaction?)
              ==> ok && poison == old(poison)
    {
      ok := trials.Try();
      if !ok {
        return false, [];
      }
      if priorWrites && req.atomicity.InSavepoint? && !autocommit {
        return false, [];
      }
      var begun := BeginAtomic(CallerScopeFor(req), priorWrites, req.retainSavepoint);
      if begun.None? {
        return false, [];
      }
      ok, effects := IngestWithin(req, begun.value);
    }

    method IngestWithin(req: IngestRequest, scope: AtomicScope) returns (ok: bool, ghost effects: seq<Effect>)
      requires InScope(scope, [])
      modifies `autocommit, `committed, `work, `savepoints, `opMarks, `sent, `recoveries, `recoveryFailed, `refusedAt,
               `ledger, `poison, `aligned, trials
      ensures Inv(true) && ledger == old(ledger).AfterAll(effects)
      ensures IngestLegal(req, Outcome(ok, effects))
      ensures old(recoveryFailed) ==> recoveryFailed
      ensures old(poison).Some? ==> poison == old(poison)
      ensures Calm() ==> (req.mode.UnknownMode? || (ok && poison == old(poison)))
    {
      ghost var done;
      var success, started, copies, clean;
      success, started, copies, done := SendIngest(req, scope);
      var serverError: bool := *;
      var partialAllowed := req.partial.Allow? && req.mode.Append? && copies > 0 && !success && !serverError;
      if !success && started && scope.CallerTransaction? && !partialAllowed {
        effects := FinishPoisoned("ingest failed; the transaction may contain partial writes", done, true);
        return false, effects;
      }
      ghost var kept := scope.CallerTransaction? && partialAllowed && aligned;
      ok, clean, effects := FinishAtomic(scope, success, done, kept, true);
      EndsLegally(req, done, success, kept, Outcome(ok, effects));
    }

    /** One statement outside any atomic scope; `mayModify` tells whether it writes. */
    method SendSingle(w: Write, mayModify: bool, ghost m: bool) returns (ok: bool, ghost effects: seq<Effect>)
      requires Inv(m)
      modifies `committed, `work, `ledger, trials
      ensures Inv(m || mayModify) && ledger == old(ledger).AfterAll(effects)
      ensures !ok ==> effects == [] && Inv(m)
      ensures ok ==> effects == if mayModify then [Apply([w])] else []
      ensures Calm() ==> ok
    {
      effects := [];
      if !mayModify {
        ok := trials.Try();
        return;
      }
      ok := SendWrite(w);
      if ok {
        effects := [Apply([w])];
        RecordWrite([w], old(work));
      }
    }

    /** The ledger follows a statement that has just taken effect on its own. */
    ghost method RecordWrite(op: Op, before: seq<Write>)
      requires Nested(savepoints, |before|) && |opMarks| == |savepoints| && AllLawful()
      requires (poison.Some? ==> !autocommit) && (poison.None? ==> aligned)
      requires autocommit ==> work == before == [] && savepoints == []
      requires !autocommit ==> work == before + op
      requires !recoveryFailed ==>
                 && ledger.autocommit == autocommit
                 && (autocommit ==> committed == Flatten(ledger.durable) + op && ledger.open == [])
                 && (!autocommit ==> committed == Flatten(ledger.durable))
                 && (aligned ==> before == Flatten(ledger.open) && Fits(savepoints, opMarks, before, ledger.open))
      modifies `ledger
      ensures Inv(true) && ledger == old(ledger).AfterAll([Apply(op)])
    {
      AfterFew(ledger, Apply(op), Apply(op));
      if autocommit {
        FlattenPush(ledger.durable, op);
        assert Fits([], [], [], []);
      } else {
        NestedGrow(savepoints, |before|, |work|);
        if !recoveryFailed && aligned {
          FlattenPush(ledger.open, op);
          FitsGrow(savepoints, opMarks, before, ledger.open, op, [op]);
        }
      }
      ledger := ledger.After(Apply(op));
    }

    /** The rows of a parameter batch, first row apart because only its failure can be retried. */
    method SendBatch(rows: Op, mayModify: bool, ghost scope: AtomicScope)
      returns (firstOk: bool, ok: bool, ghost done: seq<Write>)
      requires InScope(scope, []) && |rows| > 0
      modifies `committed, `work, trials
      ensures InScope(scope, done)
      ensures !firstOk ==> !ok && done == []
      ensures ok ==> done == OpOf(rows, mayModify)
      ensures !mayModify ==> done == []
      ensures Calm() ==> ok
    {
      done := [];
      if !mayModify {
        firstOk := trials.Try();
        var restOk := trials.Try();
        return firstOk, firstOk && restOk, [];
      }
      firstOk := SendOneWrite(rows[0], scope, []);
      if !firstOk {
        return false, false, [];
      }
      assert [] + [rows[0]] == [rows[0]];
      ghost var rest;
      ok, rest := SendAll(rows[1..], scope, [rows[0]]);
      done := [rows[0]] + rest;
      assert [rows[0]] + rows[1..] == rows;
    }

    method BatchWithin(rows: Op, mayModify: bool, scope: AtomicScope)
      returns (ok: bool, retryable: bool, ghost effects: seq<Effect>)
      requires InScope(scope, []) && |rows| > 0
      requires (poison.Some? || scope.CallerTransaction? || work != []) ==> mayModify || modified
      modifies `autocommit, `committed, `work, `savepoints, `opMarks, `sent, `recoveries, `recoveryFailed, `refusedAt,
               `ledger, `poison, `aligned, trials
      ensures Inv(mayModify || modified) && ledger == old(ledger).AfterAll(effects)
      ensures AllOrNothing(OpOf(rows, mayModify), Outcome(ok, effects))
      ensures old(recoveryFailed) ==> recoveryFailed
      ensures old(poison).Some? ==> poison == old(poison)
      ensures Calm() ==> ok && poison == old(poison)
      ensures retryable ==> !ok && effects == [] && work == [] && poison.None?
    {
      var firstOk, success, clean;
      ghost var done;
      firstOk, success, done := SendBatch(rows, mayModify, scope);
      if !success && scope.CallerTransaction? {
        effects := FinishPoisoned("parameter batch failed in a caller transaction", done, mayModify || modified);
        return false, false, effects;
      }
      ok, clean, effects := FinishAtomic(scope, success, done, false, mayModify || modified);
      retryable := !firstOk && clean && !scope.CallerTransaction?;
    }

    method BatchFromFirst(rows: Op, mayModify: bool, retain: bool, allowRetry: bool, priorWrites: bool)
      returns (ok: bool, ghost effects: seq<Effect>)
      requires Inv(priorWrites) && |rows| > 0
      requires priorWrites || mayModify ==> modified
      modifies this, trials
      ensures modified == old(modified)
      ensures Inv(modified) && ledger == old(ledger).AfterAll(effects)
      ensures AllOrNothing(OpOf(rows, mayModify), Outcome(ok, effects))
      ensures old(recoveryFailed) ==> recoveryFailed
      ensures old(poison).Some? ==> poison == old(poison)
      ensures Calm() ==> ok && poison == old(poison)
      decreases allowRetry
    {
      ok := trials.Try();
      if !ok {
        return false, [];
      }
      var begun := BeginAtomic(ViaSavepoint, priorWrites, retain);
      if begun.None? {
        return false, [];
      }
      var retryable;
      ok, retryable, effects := BatchWithin(rows, mayModify, begun.value);
      var planMissing: bool := *;
      if retryable && allowRetry && planMissing {
        ok, effects := BatchFromFirst(rows, mayModify, retain, false, priorWrites);
      }
    }

    /** A parameter batch, after the guard: nothing, one statement, or an atomic scope. */
    method Batch(rows: Op, mayModify: bool, retain: bool, priorWrites: bool)
      returns (ok: bool, ghost effects: seq<Effect>)
      requires Inv(priorWrites)
      requires modified == (priorWrites || mayModify)
      modifies this, trials
      ensures modified == old(modified)
      ensures Inv(modified) && ledger == old(ledger).AfterAll(effects)
      ensures AllOrNothing(OpOf(rows, mayModify), Outcome(ok, effects))
      ensures old(recoveryFailed) ==> recoveryFailed
      ensures old(poison).Some? ==> poison == old(poison)
      ensures Calm() ==> ok && poison == old(poison)
    {
      ok := trials.Try();
      if !ok {
        return false, [];
      }
      if |rows| == 0 {
        return true, [];
      }
      if |rows| == 1 {
        assert rows == [rows[0]];
        var canRetry := autocommit;
        ok, effects := SendSingle(rows[0], mayModify, priorWrites);
        var planMissing: bool := *;
        if !ok && canRetry && planMissing {
          ok, effects := SendSingle(rows[0], mayModify, priorWrites);
        }
        return;
      }
      ok, effects := BatchFromFirst(rows, mayModify, retain, true, priorWrites);
    }

    // ----- Raw SQL -----

    method SendRawCommit(ghost m: bool) returns (ok: bool, ghost effects: seq<Effect>)
      requires Inv(m) && poison.None?
      modifies `committed, `work, `savepoints, `opMarks, `sent, `ledger, trials
      ensures Inv(m) && ledger == old(ledger).AfterAll(effects)
      ensures if ok then Did(Commit, effects) && work == [] else Stopped(Commit, effects)
      ensures !ok ==> work == [] || work == old(work)
      ensures autocommit ==> !ok
      ensures Calm() ==> (ok || autocommit)
    {
      effects := [];
      if autocommit {
        return false, [];
      }
      var reply := SendCommit();
      ok := reply.Committed?;
      effects := RecordCommit(reply, old(work), m);
    }

    /** The ledger follows a COMMIT that was just answered. */
    ghost method RecordCommit(reply: CommitReply, before: seq<Write>, m: bool) returns (effects: seq<Effect>)
      requires !autocommit && poison.None? && aligned && AllLawful() && Shape() && (work != [] ==> m)
      requires !reply.Refused? ==> work == [] && savepoints == [] && opMarks == []
      requires reply.Refused? ==> work == before
      requires !recoveryFailed ==>
                 && !ledger.autocommit && before == Flatten(ledger.open)
                 && committed == Flatten(ledger.durable) + (if reply.Committed? then before else [])
                 && (reply.Refused? ==> Fits(savepoints, opMarks, work, ledger.open))
      modifies `ledger
      ensures effects == match reply case Committed => [Settle] case RolledBack => [Discard] case Refused => []
      ensures Inv(m) && ledger == old(ledger).AfterAll(effects)
    {
      effects := match reply case Committed => [Settle] case RolledBack => [Discard] case Refused => [];
      AfterFew(ledger, Settle, Settle);
      AfterFew(ledger, Discard, Discard);
      FlattenConcat(ledger.durable, ledger.open);
      ledger := ledger.AfterAll(effects);
    }

    method SendRawRollback(ghost m: bool) returns (ok: bool, ghost effects: seq<Effect>)
      requires Inv(m)
      modifies `work, `savepoints, `opMarks, `aligned, `ledger, trials
      ensures Inv(m) && ledger == old(ledger).AfterAll(effects)
      ensures if ok then Did(Rollback, effects) && work == [] && aligned else effects == []
      ensures !ok ==> work == old(work)
      ensures old(aligned) ==> aligned
      ensures Calm() ==> (ok || autocommit)
    {
      effects := [];
      if autocommit {
        return false, [];
      }
      ok := trials.Try();
      SendRollback(ok);
      if ok {
        effects := [Discard];
        AfterFew(ledger, Discard, Discard);
        ledger, aligned := ledger.AfterAll(effects), true;
      }
    }

    method SendRawSavepoint(name: string, ghost m: bool) returns (ok: bool)
      requires Inv(m)
      modifies `savepoints, `opMarks, trials
      ensures Inv(m)
      ensures Calm() ==> (ok || autocommit)
    {
      if autocommit {
        return false;
      }
      ok := SendSavepoint(User(name));
      if ok {
        assert !recoveryFailed && aligned ==> Fits(savepoints, opMarks, work, ledger.open) by {
          if !recoveryFailed && aligned {
            Whole(Flatten(ledger.open));
            FitsPush(old(savepoints), old(opMarks), work, ledger.open, User(name));
          }
        }
      }
    }

    method SendRawRollbackTo(name: string, ghost m: bool) returns (ok: bool, ghost effects: seq<Effect>)
      requires Inv(m)
      modifies `work, `savepoints, `opMarks, `ledger, trials
      ensures Inv(m) && ledger == old(ledger).AfterAll(effects)
      ensures if ok then Did(RollbackTo(name), effects) else effects == []
      ensures old(work) == [] ==> work == []
    {
      effects := [];
      if autocommit {
        return false, [];
      }
      ghost var at;
      var accepted := trials.Try();
      ok, at := SendRollbackTo(User(name), accepted);
      if ok {
        effects := [Cut(old(opMarks)[at])];
        ghost var after := ledger.AfterAll(effects);
        CutKeepsRest(ledger, old(opMarks)[at]);
        assert !recoveryFailed && aligned ==> work == Flatten(after.open) + [] && Fits(savepoints, opMarks, work, after.open) by {
          if !recoveryFailed && aligned {
            CutKeepsFit(old(savepoints), old(opMarks), old(work), ledger, at);
          }
        }
        ledger := after;
      }
    }

    method SendRawRelease(name: string, ghost m: bool) returns (ok: bool)
      requires Inv(m)
      modifies `savepoints, `opMarks, trials
      ensures Inv(m)
    {
      if autocommit {
        return false;
      }
      ghost var at;
      ok, at := SendRelease(User(name));
      if ok && !recoveryFailed && aligned {
        FitsCut(old(savepoints), old(opMarks), work, ledger.open, at);
      }
    }

    method SendStatement(s: Statement, ghost m: bool) returns (ok: bool, ghost effects: seq<Effect>)
      requires Inv(m) && (s.Commit? ==> poison.None?) && (s.Writes? ==> m)
      modifies `committed, `work, `savepoints, `opMarks, `sent, `aligned, `ledger, trials
      ensures Inv(m) && ledger == old(ledger).AfterAll(effects)
      ensures if ok then Did(s, effects) else Stopped(s, effects)
      ensures old(aligned) ==> aligned
      ensures ok && s.Rollback? ==> aligned
      ensures ok && (s.Rollback? || s.Commit?) ==> work == []
      ensures !s.Writes? && old(work) == [] ==> work == []
      ensures Calm() ==> (Permitted(s, autocommit) ==> ok)
    {
      effects := [];
      match s {
        case Writes(w) => ok, effects := SendSingle(w, true, m);
        case Reads => ok := trials.Try();
        case Commit => ok, effects := SendRawCommit(m);
        case Rollback => ok, effects := SendRawRollback(m);
        case TakeSavepoint(name) => ok := SendRawSavepoint(name, m);
        case RollbackTo(name) => ok, effects := SendRawRollbackTo(name, m);
        case Release(name) => ok := SendRawRelease(name, m);
      }
    }

    /** The next statement of a text or script, with the record of what has run. */
    method SendNext(statements: seq<Statement>, i: nat, ghost start: Ledger, ghost before: seq<Effect>, ghost m: bool)
      returns (ok: bool, ghost effects: seq<Effect>)
      requires i < |statements| && ledger == start.AfterAll(before) && Ran(statements[..i], true, before)
      requires Inv(m) && (statements[i].Commit? ==> poison.None?) && (statements[i].Writes? ==> m)
      modifies `committed, `work, `savepoints, `opMarks, `sent, `aligned, `ledger, trials
      ensures Inv(m) && ledger == start.AfterAll(effects)
      ensures if ok then Ran(statements[..i + 1], true, effects) else Ran(statements, false, effects)
      ensures old(aligned) ==> aligned
      ensures ok && statements[i].Rollback? ==> aligned
      ensures before <= effects && (ok && statements[i].Rollback? ==> Discard in effects)
      ensures ok && (statements[i].Rollback? || statements[i].Commit?) ==> work == []
      ensures !statements[i].Writes? && old(work) == [] ==> work == []
      ensures Calm() ==> (Permitted(statements[i], autocommit) ==> ok)
    {
      ghost var now;
      ok, now := SendStatement(statements[i], m);
      AfterAllConcat(start, before, now);
      RanStep(statements, i, ok, before, now);
      effects := before + now;
    }

    /** Ending the transaction forgets its writes; only a full rollback clears poison. */
    method ApplyTransactionEffects(commit: bool, rollback: bool, ghost m: bool, ghost mayModify: bool)
      requires Inv(m) && m == (mayModify || modified)
      requires (commit ==> poison.None?) && (rollback ==> aligned)
      requires (commit || rollback) && !mayModify ==> work == []
      modifies `modified, `poison
      ensures Inv(mayModify || modified)
      ensures modified == (old(modified) && !commit && !rollback)
      ensures poison == if rollback then None else old(poison)
    {
      if commit || rollback {
        modified := false;
      }
      if rollback {
        poison := None;
      }
    }

    /** Sends a text statement by statement, up to the first refusal. */
    method SendText(statements: seq<Statement>, ghost m: bool)
      returns (ok: bool, ghost effects: seq<Effect>)
      requires Inv(m) && (HasWrite(statements) ==> m) && (Commit in statements ==> poison.None?)
      modifies `committed, `work, `savepoints, `opMarks, `sent, `aligned, `ledger, trials
      ensures Inv(m) && ledger == old(ledger).AfterAll(effects) && Ran(statements, ok, effects)
      ensures ok && Rollback in statements ==> aligned
      ensures ok && (Commit in statements || Rollback in statements) && !HasWrite(statements) ==> work == []
      ensures Calm() ==> (AllPermitted(statements, autocommit) ==> ok)
    {
      effects := [];
      for i: nat := 0 to |statements|
        invariant Inv(m) && ledger == old(ledger).AfterAll(effects) && Ran(statements[..i], true, effects)
        invariant Rollback in statements[..i] ==> aligned
        invariant (Commit in statements[..i] || Rollback in statements[..i]) && !HasWrite(statements) ==> work == []
      {
        ok, effects := SendNext(statements, i, old(ledger), effects, m);
        if !ok {
          return;
        }
        Snoc(statements, i);
      }
      Whole(statements);
      ok := true;
    }

    /**
     One text sent as a whole.  It is refused outright when it contains a COMMIT and the
     transaction is poisoned; the driver's flags follow only when every statement succeeded.
     */
    method ExecuteText(statements: seq<Statement>, mayModify: bool, ghost prior: bool)
      returns (ok: bool, ghost effects: seq<Effect>)
      requires Inv(prior) && (HasWrite(statements) ==> mayModify)
      requires modified == (prior || mayModify)
      modifies this, trials
      ensures Inv(mayModify || modified) && ledger == old(ledger).AfterAll(effects)
      ensures Ran(statements, ok, effects) || (!ok && effects == [] && Commit in statements)
      ensures recoveryFailed == old(recoveryFailed)
      ensures old(poison).Some? && poison != old(poison) ==> Discard in effects
      ensures Calm() && old(poison).None? ==> poison.None? && (AllPermitted(statements, old(autocommit)) ==> ok)
    {
      if Commit in statements && poison.Some? {
        return false, [];
      }
      ok, effects := SendText(statements, modified);
      if ok {
        RanRollback(statements, effects);
        ApplyTransactionEffects(Commit in statements, Rollback in statements, modified, mayModify);
      }
    }

    /** Statement by statement; a full rollback clears the flags as soon as it succeeds. */
    method ExecuteScript(statements: seq<Statement>, mayModify: bool, ghost prior: bool)
      returns (ok: bool, ghost effects: seq<Effect>)
      requires Inv(prior) && (HasWrite(statements) ==> mayModify)
      requires modified == (prior || mayModify)
      modifies this, trials
      ensures Inv(mayModify || modified) && ledger == old(ledger).AfterAll(effects)
      ensures Ran(statements, ok, effects) || (!ok && effects == [] && Commit in statements)
      ensures recoveryFailed == old(recoveryFailed)
      ensures old(poison).Some? && poison != old(poison) ==> Discard in effects
      ensures Calm() && old(poison).None? ==> poison.None? && (AllPermitted(statements, old(autocommit)) ==> ok)
    {
      if Commit in statements && poison.Some? {
        return false, [];
      }
      ok, effects := SendScript(statements, mayModify);
    }

    method SendScript(statements: seq<Statement>, mayModify: bool) returns (ok: bool, ghost effects: seq<Effect>)
      requires Inv(mayModify || modified) && (HasWrite(statements) ==> mayModify)
      requires Commit in statements ==> poison.None?
      modifies `committed, `work, `savepoints, `opMarks, `sent, `aligned, `ledger, `modified, `poison, trials
      ensures Inv(mayModify || modified) && ledger == old(ledger).AfterAll(effects)
      ensures Ran(statements, ok, effects)
      ensures old(poison).Some? && poison != old(poison) ==> Discard in effects
      ensures old(poison).None? ==> poison.None?
      ensures Calm() ==> (AllPermitted(statements, autocommit) ==> ok)
    {
      effects := [];
      for i := 0 to |statements|
        invariant Inv(mayModify || modified)
        invariant ledger == old(ledger).AfterAll(effects) && Ran(statements[..i], true, effects)
        invariant old(poison).Some? && poison != old(poison) ==> Discard in effects
        invariant (Commit in statements ==> poison.None?) && (old(poison).None? ==> poison.None?)
      {
        ok, effects := SendNext(statements, i, old(ledger), effects, mayModify || modified);
        if !ok {
          return;
        }
        if statements[i].Rollback? {
          ApplyTransactionEffects(false, true, mayModify || modified, mayModify);
        }
      }
      assert statements[..|statements|] == statements;
      ok := true;
    }

    /** A first run of a prepared plan, with a savepoint to fall back on in a clean transaction. */
    method ExecuteUnverified(w: Write, mayModify: bool, retain: bool, ghost prior: bool)
      returns (ok: bool, ghost effects: seq<Effect>)
      requires Inv(prior) && modified == (prior || mayModify)
      modifies this, trials
      ensures modified == old(modified)
      ensures Inv(modified) && ledger == old(ledger).AfterAll(effects)
      ensures AllOrNothing(OpOf([w], mayModify), Outcome(ok, effects))
      ensures recoveryFailed == old(recoveryFailed)
      ensures poison == old(poison)
      ensures Calm() ==> ok
    {
      if autocommit || modified {
        ok, effects := SendSingle(w, mayModify, prior);
        var remoteFailure: bool := *;
        if !ok && autocommit && remoteFailure {
          ok, effects := SendSingle(w, mayModify, prior);
        }
        return;
      }
      effects := [];
      ok := trials.Try();
      if !ok {
        return;
      }
      var begun := BeginSavepoint(retain);
      if begun.None? {
        return false, [];
      }
      ok := ProbePlan(begun.value.name, retain);
    }

    /** Runs a plan that writes nothing between a recovery savepoint and its release. */
    method ProbePlan(name: Name, retain: bool) returns (ok: bool)
      requires InScope(SavepointScope(name, retain), [])
      modifies `work, `savepoints, `opMarks, trials
      ensures Inv(false) && work == []
      ensures Calm() ==> ok
    {
      if !recoveryFailed {
        FitsAtStart(savepoints, opMarks, work, ledger.open);
      }
      ok := TryPlanThenLiteral(name, retain);
    }

    method TryPlanThenLiteral(name: Name, retain: bool) returns (ok: bool)
      requires !autocommit && Shape() && work == []
      requires |savepoints| > 0 && savepoints[|savepoints| - 1] == Savepoint(name, 0)
      modifies `work, `savepoints, `opMarks, trials
      ensures Shape() && work == []
      ensures Calm() ==> ok
      ensures (savepoints == old(savepoints) && opMarks == old(opMarks))
           || (savepoints == old(savepoints)[..|old(savepoints)| - 1] && opMarks == old(opMarks)[..|old(opMarks)| - 1])
    {
      ghost var at;
      ok := trials.Try();
      if !ok {
        var mayRetry := trials.Try();
        if !mayRetry {
          return false;
        }
        var accepted := trials.Try();
        ok, at := SendRollbackTo(name, accepted);
        if !ok {
          return false;
        }
        ok := trials.Try();
        if !ok {
          accepted := trials.Try();
          ok, at := SendRollbackTo(name, accepted);
          if ok && !retain {
            ok, at := SendRelease(name);
          }
          return false;
        }
      }
      if !retain {
        ok, at := SendRelease(name);
      }
    }

    // ----- The autocommit option -----

    method SwitchAutocommit(on: bool) returns (ok: bool, ghost effects: seq<Effect>)
      requires Valid()
      modifies this, trials
      ensures Valid() && ledger == old(ledger).AfterAll(effects)
      ensures SwitchLegal(on, Outcome(ok, effects))
      ensures recoveryFailed == old(recoveryFailed)
      ensures poison == old(poison)
      ensures Calm() ==> (on ==> poison.None?) == ok
    {
      effects := [];
      if on && poison.Some? {
        return false, [];
      }
      var current := autocommit;
      if on && !current {
        ok, effects := SendRawCommit(modified);
        if !ok {
          return;
        }
        AfterFew(old(ledger), Settle, Switch(true));
      }
      ok := ChangeMode(on, current);
      if ok {
        AfterFew(old(ledger), Switch(on), Switch(on));
        effects := if effects == [] then [Switch(on)] else [Settle, Switch(on)];
      }
    }

    /** The switch itself, once nothing is open or nothing changes. */
    method ChangeMode(on: bool, current: bool) returns (ok: bool)
      requires Valid() && current == autocommit && (on ==> poison.None? && work == [])
      requires !recoveryFailed && on ==> ledger.open == []
      modifies `autocommit, `committed, `work, `savepoints, `opMarks, `modified, `ledger, trials
      ensures Valid()
      ensures ledger == if ok then old(ledger).After(Switch(on)) else old(ledger)
      ensures Calm() ==> ok
    {
      ok := true;
      if on != current {
        ok := SendAutocommit(on);
      }
      if ok && (on || on != current) {
        modified := false;
      }
      if ok {
        ledger := ledger.After(Switch(on));
      }
    }

    // ----- Calls -----

    /**
     One call of the driver's interface.  The write guard marks the transaction before the call
     and again after it, because a rollback inside the call clears the mark.
     */
    method Perform(call: Call) returns (ok: bool, ghost effects: seq<Effect>)
      requires Valid() && Classified(call)
      modifies this, trials
      ensures Valid() && ledger == old(ledger).AfterAll(effects)
      ensures Legal(call, Outcome(ok, effects))
      ensures old(recoveryFailed) ==> recoveryFailed
      ensures old(poison).Some? && poison != old(poison) ==> Discard in effects
      ensures Calm() && old(poison).None? && Allowed(call, old(autocommit)) ==> ok && poison.None?
    {
      match call {
        case Ingest(req) => ok, effects := GuardedIngest(req);
        case Batch(rows, mayModify, retain) => ok, effects := GuardedBatch(rows, mayModify, retain);
        case Prepared(w, mayModify, retain) => ok, effects := GuardedPlan(w, mayModify, retain);
        case Text(statements, mayModify) => ok, effects := GuardedText(statements, mayModify);
        case Script(statements, mayModify) => ok, effects := GuardedScript(statements, mayModify);
        case CommitCall => ok, effects := GuardedText([Commit], false);
        case RollbackCall => ok, effects := GuardedText([Rollback], false);
        case SetAutocommit(on) => ok, effects := SwitchAutocommit(on);
      }
    }

    method GuardedIngest(req: IngestRequest) returns (ok: bool, ghost effects: seq<Effect>)
      requires Valid()
      modifies this, trials
      ensures Valid() && ledger == old(ledger).AfterAll(effects)
      ensures IngestLegal(req, Outcome(ok, effects))
      ensures old(recoveryFailed) ==> recoveryFailed
      ensures old(poison).Some? ==> poison == old(poison)
      ensures Calm() && Allowed(Call.Ingest(req), old(autocommit)) ==> ok && poison == old(poison)
    {
      var prior := modified;
      modified := true;
      ok, effects := Ingest(req, prior);
      modified := true;
    }

    method GuardedBatch(rows: Op, mayModify: bool, retain: bool) returns (ok: bool, ghost effects: seq<Effect>)
      requires Valid()
      modifies this, trials
      ensures Valid() && ledger == old(ledger).AfterAll(effects)
      ensures AllOrNothing(OpOf(rows, mayModify), Outcome(ok, effects))
      ensures old(recoveryFailed) ==> recoveryFailed
      ensures old(poison).Some? ==> poison == old(poison)
      ensures Calm() ==> ok && poison == old(poison)
    {
      var prior := modified;
      modified := prior || mayModify;
      ok, effects := Batch(rows, mayModify, retain, prior);
    }

    method GuardedPlan(w: Write, mayModify: bool, retain: bool) returns (ok: bool, ghost effects: seq<Effect>)
      requires Valid()
      modifies this, trials
      ensures Valid() && ledger == old(ledger).AfterAll(effects)
      ensures AllOrNothing(OpOf([w], mayModify), Outcome(ok, effects))
      ensures recoveryFailed == old(recoveryFailed)
      ensures poison == old(poison)
      ensures Calm() ==> ok
    {
      var prior := modified;
      modified := prior || mayModify;
      ok, effects := ExecuteUnverified(w, mayModify, retain, prior);
    }

    method GuardedText(statements: seq<Statement>, mayModify: bool) returns (ok: bool, ghost effects: seq<Effect>)
      requires Valid() && (HasWrite(statements) ==> mayModify)
      modifies this, trials
      ensures Valid() && ledger == old(ledger).AfterAll(effects)
      ensures Ran(statements, ok, effects) || (!ok && effects == [] && Commit in statements)
      ensures recoveryFailed == old(recoveryFailed)
      ensures old(poison).Some? && poison != old(poison) ==> Discard in effects
      ensures Calm() && old(poison).None? ==> poison.None? && (AllPermitted(statements, old(autocommit)) ==> ok)
    {
      var prior := modified;
      modified := prior || mayModify;
      ok, effects := ExecuteText(statements, mayModify, prior);
      modified := modified || mayModify;
    }

    method GuardedScript(statements: seq<Statement>, mayModify: bool) returns (ok: bool, ghost effects: seq<Effect>)
      requires Valid() && (HasWrite(statements) ==> mayModify)
      modifies this, trials
      ensures Valid() && ledger == old(ledger).AfterAll(effects)
      ensures Ran(statements, ok, effects) || (!ok && effects == [] && Commit in statements)
      ensures recoveryFailed == old(recoveryFailed)
      ensures old(poison).Some? && poison != old(poison) ==> Discard in effects
      ensures Calm() && old(poison).None? ==> poison.None? && (AllPermitted(statements, old(autocommit)) ==> ok)
    {
      var prior := modified;
      modified := prior || mayModify;
      ok, effects := ExecuteScript(statements, mayModify, prior);
      modified := modified || mayModify;
    }
  }

  /** What ingest sent, and how its scope ended, make a legal outcome. */
  lemma EndsLegally(req: IngestRequest, done: Op, success: bool, kept: bool, o: Outcome)
    requires done <= WholeOp(req) && (success ==> done == WholeOp(req))
    requires kept ==> MayKeepPart(req) && !success && o.effects == [Apply(done)]
    requires (o.ok ==> success) && (!kept ==> AllOrNothing(done, o))
    requires !success && !kept ==> o.effects == [] || o.effects == [Switch(false)]
    ensures IngestLegal(req, o)
  {
  }

  lemma ConcludeAutocommit(l: Ledger, op: Op, applied: bool, restored: bool)
    requires l.autocommit && l.open == []
    ensures var after := l.AfterAll((if applied then [Apply(op)] else []) + (if restored then [] else [Switch(false)]));
            && after.autocommit == restored && after.open == []
            && Flatten(after.durable) == Flatten(l.durable) + if applied then op else []
  {
    FlattenPush(l.durable, op);
    AfterFew(l, Apply(op), Switch(false));
    AfterFew(l, Switch(false), Switch(false));
    assert [Apply(op)] + [Switch(false)] == [Apply(op), Switch(false)];
  }
}

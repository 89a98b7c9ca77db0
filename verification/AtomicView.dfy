/**
 The atomic view of a connection: what a caller who only knows whole operations
 believes the database to hold.  The driver in module Transactions sends many
 statements per operation, opens savepoints, and recovers from failures; it is
 proved there to change the durable data exactly as this ledger says.
 */
module AtomicView {

  /** One writing SQL statement.  A statement either takes effect or does not. */
  type Write = string

  /** The statements of one caller-visible operation, in the order they are sent. */
  type Op = seq<Write>

  /** What a finished call did to the atomic view. */
  datatype Effect =
    | Apply(op: Op)      // the operation took effect
    | Settle             // the open transaction became durable
    | Discard            // the open transaction was rolled back
    | Cut(keep: nat)     // the open transaction went back to its first operations
    | Switch(on: bool)   // autocommit was switched

  datatype Ledger = Ledger(autocommit: bool, durable: seq<Op>, open: seq<Op>) {

    function After(e: Effect): Ledger {
      match e
      case Apply(op) => if autocommit then this.(durable := durable + [op]) else this.(open := open + [op])
      case Settle => this.(durable := durable + open, open := [])
      case Discard => this.(open := [])
      case Cut(keep) => this.(open := if keep <= |open| then open[..keep] else open)
      case Switch(on) => this.(autocommit := on)
    }

    function AfterAll(es: seq<Effect>): Ledger {
      if es == [] then this else AfterAll(es[..|es| - 1]).After(es[|es| - 1])
    }
  }

  lemma AfterAllPush(l: Ledger, es: seq<Effect>, e: Effect)
    ensures l.AfterAll(es + [e]) == l.AfterAll(es).After(e)
  {
    assert (es + [e])[..|es|] == es;
  }

  lemma AfterFew(l: Ledger, a: Effect, b: Effect)
    ensures l.AfterAll([]) == l && l.AfterAll([a]) == l.After(a) && l.AfterAll([a, b]) == l.After(a).After(b)
  {
    AfterAllPush(l, [], a);
    AfterAllPush(l, [a], b);
    assert [] + [a] == [a] && [a] + [b] == [a, b];
  }

  lemma {:induction false} AfterAllConcat(l: Ledger, a: seq<Effect>, b: seq<Effect>)
    ensures l.AfterAll(a + b) == l.AfterAll(a).AfterAll(b)
  {
    if b == [] {
      assert a + b == a;
    } else {
      var init, last := b[..|b| - 1], b[|b| - 1];
      AfterAllConcat(l, a, init);
      assert a + b == (a + init) + [last];
      AfterAllPush(l, a + init, last);
    }
  }
}

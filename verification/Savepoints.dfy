/** The server's savepoint stack, and how it sits between the whole operations of the atomic view. */
module Savepoints {
  import opened AtomicView
  import opened Sequences

  /** Savepoints are named by the caller's SQL or numbered by the driver. */
  datatype Name = User(text: string) | Driver(id: nat)

  /** A savepoint remembers how much of the open transaction existed when it was taken. */
  datatype Savepoint = Savepoint(name: Name, mark: nat)

  // ----- Savepoint stacks -----

  /** Marks of nested savepoints never exceed the work they were taken in. */
  ghost predicate Nested(sps: seq<Savepoint>, n: nat) {
    sps == [] || (sps[|sps| - 1].mark <= n && Nested(sps[..|sps| - 1], sps[|sps| - 1].mark))
  }

  /** Every savepoint sits between two whole operations. */
  ghost predicate Fits(sps: seq<Savepoint>, marks: seq<nat>, work: seq<Write>, open: seq<Op>) {
    && |sps| == |marks|
    && (sps != [] ==>
          var mark, k := sps[|sps| - 1].mark, marks[|marks| - 1];
          && mark <= |work| && k <= |open| && work[..mark] == Flatten(open[..k])
          && Fits(sps[..|sps| - 1], marks[..|marks| - 1], work[..mark], open[..k]))
  }

  lemma NestedGrow(sps: seq<Savepoint>, n: nat, more: nat)
    requires Nested(sps, n) && n <= more
    ensures Nested(sps, more)
  {
  }

  lemma {:induction false} NestedCut(sps: seq<Savepoint>, n: nat, at: nat)
    requires Nested(sps, n) && at < |sps|
    ensures sps[at].mark <= n && Nested(sps[..at + 1], sps[at].mark) && Nested(sps[..at], n)
  {
    var last := |sps| - 1;
    if at == last {
      assert sps[..at + 1] == sps;
      NestedGrow(sps[..at], sps[at].mark, n);
    } else {
      NestedCut(sps[..last], sps[last].mark, at);
      assert sps[..last][..at + 1] == sps[..at + 1] && sps[..last][..at] == sps[..at];
      NestedGrow(sps[..at], sps[last].mark, n);
    }
  }

  lemma FitsGrow(sps: seq<Savepoint>, marks: seq<nat>, work: seq<Write>, open: seq<Op>, w: seq<Write>, o: seq<Op>)
    requires Fits(sps, marks, work, open)
    ensures Fits(sps, marks, work + w, open + o)
  {
    if sps != [] {
      var mark, k := sps[|sps| - 1].mark, marks[|marks| - 1];
      assert (work + w)[..mark] == work[..mark] && (open + o)[..k] == open[..k];
    }
  }

  lemma FitsPush(sps: seq<Savepoint>, marks: seq<nat>, work: seq<Write>, open: seq<Op>, name: Name)
    requires Fits(sps, marks, work, open) && work == Flatten(open)
    ensures Fits(sps + [Savepoint(name, |work|)], marks + [|open|], work, open)
  {
    After(sps, [Savepoint(name, |work|)]);
    After(marks, [|open|]);
    Whole(work);
    Whole(open);
  }

  lemma {:induction false} FitsCut(sps: seq<Savepoint>, marks: seq<nat>, work: seq<Write>, open: seq<Op>, at: nat)
    requires Fits(sps, marks, work, open) && at < |sps|
    ensures sps[at].mark <= |work| && marks[at] <= |open|
    ensures work[..sps[at].mark] == Flatten(open[..marks[at]])
    ensures Fits(sps[..at + 1], marks[..at + 1], work[..sps[at].mark], open[..marks[at]])
    ensures Fits(sps[..at], marks[..at], work, open)
  {
    var last := |sps| - 1;
    var mark, k := sps[last].mark, marks[last];
    if at == last {
      assert sps[..at + 1] == sps && marks[..at + 1] == marks;
      assert work[..mark][..mark] == work[..mark] && open[..k][..k] == open[..k];
    } else {
      FitsCut(sps[..last], marks[..last], work[..mark], open[..k], at);
      assert sps[..last][..at + 1] == sps[..at + 1] && sps[..last][..at] == sps[..at];
      assert marks[..last][..at + 1] == marks[..at + 1] && marks[..last][..at] == marks[..at];
      assert work[..mark][..sps[at].mark] == work[..sps[at].mark] && open[..k][..marks[at]] == open[..marks[at]];
    }
    FitsLater(sps[..at], marks[..at], work, open, mark, k);
  }

  lemma FitsLater(sps: seq<Savepoint>, marks: seq<nat>, work: seq<Write>, open: seq<Op>, mark: nat, k: nat)
    requires mark <= |work| && k <= |open| && Fits(sps, marks, work[..mark], open[..k])
    ensures Fits(sps, marks, work, open)
  {
    FitsGrow(sps, marks, work[..mark], open[..k], work[mark..], open[k..]);
    assert work[..mark] + work[mark..] == work && open[..k] + open[k..] == open;
  }

  lemma CutKeepsRest(l: Ledger, k: nat)
    ensures var after := l.AfterAll([Cut(k)]); after.autocommit == l.autocommit && after.durable == l.durable
    ensures k <= |l.open| ==> l.AfterAll([Cut(k)]).open == l.open[..k]
  {
    AfterFew(l, Cut(k), Cut(k));
  }

  /** Going back to a savepoint goes back to whole operations. */
  lemma CutKeepsFit(sps: seq<Savepoint>, marks: seq<nat>, work: seq<Write>, l: Ledger, at: nat)
    requires Fits(sps, marks, work, l.open) && at < |sps|
    ensures var mark, open := sps[at].mark, l.AfterAll([Cut(marks[at])]).open;
            && mark <= |work| && work[..mark] == Flatten(open) + []
            && Fits(sps[..at + 1], marks[..at + 1], work[..mark], open)
  {
    FitsCut(sps, marks, work, l.open, at);
    CutKeepsRest(l, marks[at]);
    Whole(Flatten(l.open[..marks[at]]));
  }

  /** With the innermost mark at 0, dropping that savepoint, the work, or both keeps the fit. */
  lemma FitsAtStart(sps: seq<Savepoint>, marks: seq<nat>, work: seq<Write>, open: seq<Op>)
    requires Fits(sps, marks, work, open) && |sps| > 0 && sps[|sps| - 1].mark == 0
    ensures Fits(sps, marks, [], open)
    ensures Fits(sps[..|sps| - 1], marks[..|marks| - 1], work, open)
    ensures Fits(sps[..|sps| - 1], marks[..|marks| - 1], [], open)
  {
    var last := |sps| - 1;
    var k := marks[last];
    FitsCut(sps, marks, work, open, last);
    assert sps[..last + 1] == sps && marks[..last + 1] == marks && work[..0] == [];
    FitsGrow(sps, marks, [], open[..k], [], open[k..]);
    FitsGrow(sps[..last], marks[..last], [], open[..k], [], open[k..]);
    assert open[..k] + open[k..] == open;
  }
}

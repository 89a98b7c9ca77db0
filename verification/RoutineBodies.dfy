/**
 What the scanner's view of routine bodies amounts to: the text of CREATE FUNCTION, PROCEDURE or TRIGGER
 with a BEGIN and END around a body whose blocks are balanced is one statement, whatever semicolons the
 body has.
 */
module RoutineBodies {
  import opened Wrappers
  import opened SqlLexer
  import opened SqlScanner

  // ----- Words and semicolons -----

  datatype Event = Said(w: string) | Semi

  function Next(p: Routine, e: Event): Routine {
    match e
    case Said(w) => ObserveWord(p, w)
    case Semi => p.(statementStart := true, afterEnd := None)
  }

  function Run(es: seq<Event>, p: Routine): Routine {
    if es == [] then p else Run(es[1..], Next(p, es[0]))
  }

  /** Every semicolon is inside the routine's body. */
  predicate AllInternal(es: seq<Event>, p: Routine) {
    es == [] || ((es[0].Semi? ==> SemicolonIsInternal(p)) && AllInternal(es[1..], Next(p, es[0])))
  }

  lemma {:induction false} RunConcat(a: seq<Event>, b: seq<Event>, p: Routine)
    ensures Run(a + b, p) == Run(b, Run(a, p))
    ensures AllInternal(a + b, p) <==> AllInternal(a, p) && AllInternal(b, Run(a, p))
    decreases |a|
  {
    if a == [] {
      assert a + b == b;
    } else {
      assert (a + b)[1..] == a[1..] + b;
      RunConcat(a[1..], b, Next(p, a[0]));
    }
  }

  lemma RunOne(e: Event, rest: seq<Event>, p: Routine)
    ensures Run([e] + rest, p) == Run(rest, Next(p, e))
    ensures AllInternal([e] + rest, p) <==> (e.Semi? ==> SemicolonIsInternal(p)) && AllInternal(rest, Next(p, e))
  {
    assert ([e] + rest)[1..] == rest;
  }

  // ----- Bodies with balanced blocks -----

  /** The text of a body: words, semicolons, and blocks from CASE, IF or WHILE to END, with or without the keyword again. */
  datatype Body =
    | Done
    | Plain(w: string, rest: Body)
    | Semicolon(rest: Body)
    | Nested(open: string, inside: Body, end: string, again: Option<string>, rest: Body)

  function Events(b: Body): seq<Event> {
    match b
    case Done => []
    case Plain(w, rest) => [Said(w)] + Events(rest)
    case Semicolon(rest) => [Semi] + Events(rest)
    case Nested(open, inside, end, again, rest) =>
      [Said(open)] + (Events(inside) + ([Said(end)] + (Again(again) + Events(rest))))
  }

  function Again(again: Option<string>): seq<Event> {
    if again.Some? then [Said(again.value)] else []
  }

  /** The block a word opens; IF opens one only where a statement begins. */
  function Opens(w: string, start: bool): Option<Block> {
    if Is(w, "CASE") then Some(Case)
    else if Is(w, "IF") && start then Some(If)
    else if Is(w, "WHILE") then Some(While)
    else None
  }

  predicate StartsStatement(w: string) {
    Is(w, "THEN") || Is(w, "ELSE") || Is(w, "ELSEIF") || Is(w, "DO")
  }

  /** The word is not taken for the keyword behind an END. */
  predicate Apart(w: string, after: Option<Block>) {
    after.None? || !TerminatesBlock(w, after.value)
  }

  /** Every block is closed.  `start` says that a statement begins, `after` that an END without keyword came before. */
  predicate Balanced(b: Body, start: bool, after: Option<Block>) {
    match b
    case Done => true
    case Plain(w, rest) =>
      !Is(w, "END") && Opens(w, start).None? && Apart(w, after) && Balanced(rest, StartsStatement(w), None)
    case Semicolon(rest) => Balanced(rest, true, None)
    case Nested(open, inside, end, again, rest) =>
      var block := Opens(open, start);
      && block.Some? && Apart(open, after) && Is(end, "END")
      && Balanced(inside, false, None)
      && (again.Some? ==> TerminatesBlock(again.value, block.value))
      && Balanced(rest, false, if again.Some? then None else block)
  }

  predicate InBody(p: Routine, blocks: seq<Block>) {
    p.active && p.blocks == blocks && blocks != []
  }

  lemma OpensBlock(p: Routine, w: string)
    requires p.active && Opens(w, p.statementStart).Some? && Apart(w, p.afterEnd)
    ensures ObserveWord(p, w)
         == p.(blocks := p.blocks + [Opens(w, p.statementStart).value], statementStart := false, afterEnd := None)
  {
  }

  lemma ClosesBlock(p: Routine, w: string)
    requires p.active && p.blocks != [] && Is(w, "END")
    ensures ObserveWord(p, w)
         == p.(blocks := p.blocks[..|p.blocks| - 1], afterEnd := Some(p.blocks[|p.blocks| - 1]), statementStart := false)
  {
  }

  lemma PlainWord(p: Routine, w: string)
    requires p.active && !Is(w, "END") && Opens(w, p.statementStart).None? && Apart(w, p.afterEnd)
    ensures ObserveWord(p, w) == p.(statementStart := StartsStatement(w), afterEnd := None)
  {
  }

  /** A balanced body leaves the open blocks as they were, and all its semicolons are inside. */
  lemma {:induction false} BodyBalances(b: Body, p: Routine, blocks: seq<Block>)
    requires InBody(p, blocks) && Balanced(b, p.statementStart, p.afterEnd)
    ensures InBody(Run(Events(b), p), blocks) && AllInternal(Events(b), p)
    decreases b
  {
    match b
    case Done =>
    case Plain(w, rest) =>
      PlainWord(p, w);
      BodyBalances(rest, ObserveWord(p, w), blocks);
      RunOne(Said(w), Events(rest), p);
    case Semicolon(rest) =>
      BodyBalances(rest, Next(p, Semi), blocks);
      RunOne(Semi, Events(rest), p);
    case Nested(open, inside, end, again, rest) =>
      NestedBalances(b, p, blocks);
  }

  lemma {:induction false} NestedBalances(b: Body, p: Routine, blocks: seq<Block>)
    requires b.Nested? && InBody(p, blocks) && Balanced(b, p.statementStart, p.afterEnd)
    ensures InBody(Run(Events(b), p), blocks) && AllInternal(Events(b), p)
    decreases b, 0
  {
    var block := Opens(b.open, p.statementStart).value;
    var entered := ObserveWord(p, b.open);
    OpensBlock(p, b.open);
    BodyBalances(b.inside, entered, blocks + [block]);
    var last := Run(Events(b.inside), entered);
    var ended := ObserveWord(last, b.end);
    ClosesBlock(last, b.end);
    assert (blocks + [block])[..|blocks|] == blocks;
    var left := Run(Again(b.again), ended);
    AgainSkipped(b.again, ended, block);
    BodyBalances(b.rest, left, blocks);
    RunConcat(Again(b.again), Events(b.rest), ended);
    RunOne(Said(b.end), Again(b.again) + Events(b.rest), last);
    RunConcat(Events(b.inside), [Said(b.end)] + (Again(b.again) + Events(b.rest)), entered);
    RunOne(Said(b.open), Events(b.inside) + ([Said(b.end)] + (Again(b.again) + Events(b.rest))), p);
  }

  /** The keyword behind an END closes nothing more. */
  lemma AgainSkipped(again: Option<string>, p: Routine, block: Block)
    requires p.active && p.afterEnd == Some(block) && (again.Some? ==> TerminatesBlock(again.value, block))
    ensures Run(Again(again), p) == (if again.Some? then p.(afterEnd := None) else p) && AllInternal(Again(again), p)
  {
    if again.Some? {
      RunOne(Said(again.value), [], p);
      assert [Said(again.value)] + [] == Again(again);
    }
  }

  // ----- Headers -----

  function WordEvents(ws: seq<string>): seq<Event> {
    seq(|ws|, i requires 0 <= i < |ws| => Said(ws[i]))
  }

  predicate NoBegin(ws: seq<string>) {
    forall i :: 0 <= i < |ws| ==> !Is(ws[i], "BEGIN")
  }

  /** The words behind CREATE or CREATE OR REPLACE that make it a routine. */
  predicate NamesRoutine(ws: seq<string>) {
    ws != [] && (RoutineKeyword(ws[0]) || (|ws| > 1 && RoutineModifier(ws[0]) && Is(ws[1], "FUNCTION")))
  }

  predicate IsHeader(ws: seq<string>) {
    && NoBegin(ws) && ws != [] && Is(ws[0], "CREATE")
    && (NamesRoutine(ws[1..]) || (|ws| > 2 && Is(ws[1], "OR") && Is(ws[2], "REPLACE") && NamesRoutine(ws[3..])))
  }

  function WithPrefix(prefix: CreatePrefix): Routine {
    NO_ROUTINE.(prefix := prefix)
  }

  lemma WordFirst(ws: seq<string>, p: Routine)
    requires ws != []
    ensures Run(WordEvents(ws), p) == Run(WordEvents(ws[1..]), ObserveWord(p, ws[0]))
    ensures AllInternal(WordEvents(ws), p) <==> AllInternal(WordEvents(ws[1..]), ObserveWord(p, ws[0]))
  {
    assert WordEvents(ws) == [Said(ws[0])] + WordEvents(ws[1..]);
    RunOne(Said(ws[0]), WordEvents(ws[1..]), p);
  }

  lemma {:induction false} StaysProcedural(ws: seq<string>)
    requires NoBegin(ws)
    ensures Run(WordEvents(ws), WithPrefix(Procedural)) == WithPrefix(Procedural)
    ensures AllInternal(WordEvents(ws), WithPrefix(Procedural))
    decreases |ws|
  {
    if ws != [] {
      WordFirst(ws, WithPrefix(Procedural));
      StaysProcedural(ws[1..]);
    }
  }

  lemma RoutineNamed(ws: seq<string>, prefix: CreatePrefix)
    requires NoBegin(ws) && NamesRoutine(ws) && (prefix.Create? || prefix.Replace?)
    ensures Run(WordEvents(ws), WithPrefix(prefix)) == WithPrefix(Procedural) && AllInternal(WordEvents(ws), WithPrefix(prefix))
  {
    WordFirst(ws, WithPrefix(prefix));
    if RoutineKeyword(ws[0]) {
      StaysProcedural(ws[1..]);
    } else {
      WordFirst(ws[1..], WithPrefix(Modifier));
      StaysProcedural(ws[1..][1..]);
    }
  }

  lemma HeaderRuns(ws: seq<string>)
    requires IsHeader(ws)
    ensures Run(WordEvents(ws), NO_ROUTINE) == WithPrefix(Procedural) && AllInternal(WordEvents(ws), NO_ROUTINE)
  {
    WordFirst(ws, NO_ROUTINE);
    if NamesRoutine(ws[1..]) {
      RoutineNamed(ws[1..], Create);
    } else {
      WordFirst(ws[1..], WithPrefix(Create));
      WordFirst(ws[2..], WithPrefix(Or));
      assert ws[1..][1..] == ws[2..] && ws[2..][1..] == ws[3..];
      RoutineNamed(ws[3..], Replace);
    }
  }

  // ----- The whole routine -----

  function RoutineEvents(header: seq<string>, begin: string, body: Body, end: string): seq<Event> {
    WordEvents(header) + ([Said(begin)] + (Events(body) + [Said(end)]))
  }

  lemma RoutineRuns(header: seq<string>, begin: string, body: Body, end: string)
    requires IsHeader(header) && Is(begin, "BEGIN") && Balanced(body, true, None) && Is(end, "END")
    ensures var es := RoutineEvents(header, begin, body, end);
            AllInternal(es, NO_ROUTINE) && !SemicolonIsInternal(Run(es, NO_ROUTINE))
  {
    HeaderRuns(header);
    var begun := ObserveWord(WithPrefix(Procedural), begin);
    assert begun == Routine(Procedural, true, [Begin], true, None);
    BodyBalances(body, begun, [Begin]);
    var last := Run(Events(body), begun);
    ClosesBlock(last, end);
    RunOne(Said(end), [], last);
    assert [Said(end)] + [] == [Said(end)];
    RunConcat(Events(body), [Said(end)], begun);
    RunOne(Said(begin), Events(body) + [Said(end)], WithPrefix(Procedural));
    RunConcat(WordEvents(header), [Said(begin)] + (Events(body) + [Said(end)]), NO_ROUTINE);
  }

  /** The words and semicolons among the tokens. */
  function EventsOf(tokens: seq<Token>): seq<Event> {
    if tokens == [] then [] else EventsOf(tokens[..|tokens| - 1]) + EventOf(tokens[|tokens| - 1])
  }

  function EventOf(t: Token): seq<Event> {
    if t.kind.Word? then [Said(t.text)] else if t.kind.Semicolon? then [Semi] else []
  }

  /** While all semicolons are inside, no statement ends. */
  lemma {:induction false} NothingCloses(tokens: seq<Token>)
    requires AllInternal(EventsOf(tokens), NO_ROUTINE)
    ensures Fold(tokens, START).routine == Run(EventsOf(tokens), NO_ROUTINE)
    ensures Closed(tokens) == [] && OpenAt(tokens) == 0
  {
    if tokens != [] {
      var init, t := tokens[..|tokens| - 1], tokens[|tokens| - 1];
      assert tokens == init + [t];
      RunConcat(EventsOf(init), EventOf(t), NO_ROUTINE);
      NothingCloses(init);
      StillOpen(init, t);
    }
  }

  lemma StillOpen(tokens: seq<Token>, t: Token)
    requires Closed(tokens) == [] && OpenAt(tokens) == 0 && AllInternal(EventOf(t), Fold(tokens, START).routine)
    ensures Closed(tokens + [t]) == [] && OpenAt(tokens + [t]) == 0
    ensures Fold(tokens + [t], START).routine == Run(EventOf(t), Fold(tokens, START).routine)
  {
    RoutineAfter(Fold(tokens, START), t);
    FoldPush(tokens, t);
    ClosedPush(tokens, t);
  }

  /** A token that closes nothing moves the routine on by its event. */
  lemma RoutineAfter(c: Core, t: Token)
    requires AllInternal(EventOf(t), c.routine)
    ensures Apply(c, t).routine == Run(EventOf(t), c.routine) && !Closes(c, t)
  {
    OneEvent(t, c.routine);
    if t.kind.Word? {
      assert WordSeen(c, t.text).routine == ObserveWord(c.routine, t.text);
    }
  }

  lemma CodeSeenBy(c: Core, t: Token)
    requires t.kind.Word? || (c.hasCode && AllInternal(EventOf(t), c.routine))
    ensures Apply(c, t).hasCode
  {
    OneEvent(t, c.routine);
  }

  /** Words are code, as long as no statement ends. */
  lemma {:induction false} WordsAreCode(tokens: seq<Token>)
    requires AllInternal(EventsOf(tokens), NO_ROUTINE) && EventsOf(tokens) != [] && EventsOf(tokens)[0].Said?
    ensures Fold(tokens, START).hasCode
  {
    var init, t := tokens[..|tokens| - 1], tokens[|tokens| - 1];
    assert tokens == init + [t];
    RunConcat(EventsOf(init), EventOf(t), NO_ROUTINE);
    NothingCloses(init);
    if EventsOf(init) == [] {
      assert EventsOf(tokens) == EventOf(t);
    } else {
      assert EventsOf(tokens)[0] == EventsOf(init)[0];
      WordsAreCode(init);
    }
    CodeSeenBy(Fold(init, START), t);
    FoldPush(init, t);
  }

  lemma OneEvent(t: Token, p: Routine)
    ensures Run(EventOf(t), p) == (if t.kind.Word? then ObserveWord(p, t.text) else if t.kind.Semicolon? then Next(p, Semi) else p)
    ensures AllInternal(EventOf(t), p) <==> (t.kind.Semicolon? ==> SemicolonIsInternal(p))
  {
    if EventOf(t) != [] {
      RunOne(EventOf(t)[0], [], p);
      assert [EventOf(t)[0]] + [] == EventOf(t);
    }
  }

  /** A routine with a balanced body is one statement, and the next semicolon ends it. */
  lemma RoutineIsOneStatement(tokens: seq<Token>, header: seq<string>, begin: string, body: Body, end: string)
    requires IsHeader(header) && Is(begin, "BEGIN") && Balanced(body, true, None) && Is(end, "END")
    requires EventsOf(tokens) == RoutineEvents(header, begin, body, end)
    ensures Statements(tokens) == [Span(0, |Text(tokens)|)]
    ensures Closes(Fold(tokens, START), Token(Kind.Semicolon, ";"))
  {
    RoutineRuns(header, begin, body, end);
    NothingCloses(tokens);
    assert WordEvents(header)[0] == Said(header[0]);
    WordsAreCode(tokens);
  }

  // ----- A BEGIN inside the body -----

  lemma EventsPush(tokens: seq<Token>, t: Token)
    ensures EventsOf(tokens + [t]) == EventsOf(tokens) + EventOf(t)
  {
    assert (tokens + [t])[..|tokens|] == tokens;
  }

  /**
   The scanner counts no BEGIN inside a body: the first END ends the routine, and a semicolon behind it
   cuts the statement there, although the inner BEGIN is all that this END closes.
   */
  lemma NestedBeginCuts(tokens: seq<Token>, header: seq<string>, begin: string, inner: string, body: Body, end: string)
    requires IsHeader(header) && Is(begin, "BEGIN") && Is(inner, "BEGIN") && Balanced(body, false, None) && Is(end, "END")
    requires EventsOf(tokens) == RoutineEvents(header, begin, Plain(inner, body), end)
    ensures var cut := tokens + [Token(Kind.Semicolon, ";")];
            Closed(cut) == [Span(0, |Text(tokens)|)] && OpenAt(cut) == |Text(tokens)| + 1
  {
    assert Balanced(Plain(inner, body), true, None);
    RoutineRuns(header, begin, Plain(inner, body), end);
    NothingCloses(tokens);
    assert WordEvents(header)[0] == Said(header[0]);
    WordsAreCode(tokens);
    ClosedPush(tokens, Token(Kind.Semicolon, ";"));
  }

  lemma {:induction false} UpperAlready(w: string)
    requires forall i :: 0 <= i < |w| ==> !('a' <= w[i] <= 'z')
    ensures UpperText(w) == w
  {
    if w != "" {
      UpperAlready(w[1..]);
    }
  }

  lemma BracketsAreUpper()
    ensures Is("BEGIN", "BEGIN") && Is("END", "END")
  {
    UpperAlready("BEGIN");
    UpperAlready("END");
  }

  lemma CreateIsUpper()
    ensures UpperText("CREATE") == "CREATE" && UpperText("FUNCTION") == "FUNCTION"
  {
    UpperAlready("CREATE");
    UpperAlready("FUNCTION");
  }

  lemma CreatesFunction(create: string, keyword: string)
    requires UpperText(create) == "CREATE" && UpperText(keyword) == "FUNCTION"
    ensures IsHeader([create, keyword])
  {
    var ws := [create, keyword];
    assert ws[1..] == [keyword];
    assert RoutineKeyword(keyword);
  }

  /** CREATE FUNCTION BEGIN BEGIN END; with an END still to come is cut at that semicolon. */
  lemma NestedBeginExample() returns (tokens: seq<Token>)
    ensures tokens == [Token(Kind.Word, "CREATE"), Token(Kind.Word, "FUNCTION"), Token(Kind.Word, "BEGIN"),
                       Token(Kind.Word, "BEGIN"), Token(Kind.Word, "END")]
    ensures Closed(tokens + [Token(Kind.Semicolon, ";")]) == [Span(0, |Text(tokens)|)]
  {
    tokens := WordTokens("CREATE", "FUNCTION", "BEGIN", "END");
    WordEventsOf("CREATE", "FUNCTION", "BEGIN", "END");
    BracketsAreUpper();
    CreateIsUpper();
    CreatesFunction("CREATE", "FUNCTION");
    NestedBeginCuts(tokens, ["CREATE", "FUNCTION"], "BEGIN", "BEGIN", Done, "END");
  }

  function WordTokens(a: string, b: string, c: string, d: string): seq<Token> {
    [Token(Kind.Word, a), Token(Kind.Word, b), Token(Kind.Word, c), Token(Kind.Word, c), Token(Kind.Word, d)]
  }

  lemma WordEventsOf(a: string, b: string, c: string, d: string)
    ensures EventsOf(WordTokens(a, b, c, d)) == RoutineEvents([a, b], c, Plain(c, Done), d)
  {
    var ts := WordTokens(a, b, c, d);
    assert EventsOf(ts[..0]) == [];
    forall i: nat | i < 5 ensures EventsOf(ts[..i + 1]) == EventsOf(ts[..i]) + EventOf(ts[i]) {
      EventsPush(ts[..i], ts[i]);
      assert ts[..i] + [ts[i]] == ts[..i + 1];
    }
    assert EventsOf(ts[..2]) == [Said(a), Said(b)];
    assert EventsOf(ts[..4]) == [Said(a), Said(b), Said(c), Said(c)];
    assert ts[..5] == ts;
    assert Events(Plain(c, Done)) == [Said(c)];
  }
}

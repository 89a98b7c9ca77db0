/**
 The statement scanner over the lexer's tokens: where statements end, which routine bodies keep their
 semicolons, which slots there are, and whether the text may modify data.
 */
module SqlScanner {
  import opened Wrappers
  import opened Sequences
  import opened SqlLexer

  // ----- Keywords -----

  function Upper(c: char): char {
    if 'a' <= c <= 'z' then (c as int - 32) as char else c
  }

  function UpperText(s: string): string {
    if s == "" then "" else [Upper(s[0])] + UpperText(s[1..])
  }

  predicate Is(word: string, keyword: string) {
    UpperText(word) == keyword
  }

  predicate RoutineKeyword(word: string) {
    Is(word, "FUNCTION") || Is(word, "PROCEDURE") || Is(word, "TRIGGER")
  }

  predicate RoutineModifier(word: string) {
    Is(word, "AGGREGATE") || Is(word, "FILTER") || Is(word, "LOADER") || Is(word, "WINDOW")
  }

  predicate BareIntegerKeyword(word: string) {
    Is(word, "LIMIT") || Is(word, "OFFSET") || Is(word, "SAMPLE") || Is(word, "SEED")
  }

  predicate DataChangeKeyword(word: string) {
    Is(word, "INSERT") || Is(word, "UPDATE") || Is(word, "DELETE") || Is(word, "MERGE") || Is(word, "TRUNCATE")
  }

  predicate ReadOnlyKeyword(word: string) {
    || Is(word, "SELECT") || Is(word, "WITH") || Is(word, "VALUES") || Is(word, "TABLE") || Is(word, "EXPLAIN")
    || Is(word, "PLAN") || Is(word, "COMMIT") || Is(word, "ROLLBACK") || Is(word, "SAVEPOINT") || Is(word, "RELEASE")
    || Is(word, "START") || Is(word, "BEGIN")
  }

  // ----- Routine bodies -----

  datatype CreatePrefix = AtStart | Create | Or | Replace | Modifier | Procedural | Other

  datatype Block = Begin | Case | If | While

  /** What is known of a routine body: its open blocks, and the block the last END closed. */
  datatype Routine = Routine(prefix: CreatePrefix, active: bool, blocks: seq<Block>, statementStart: bool, afterEnd: Option<Block>)

  const NO_ROUTINE := Routine(AtStart, false, [], true, None)

  predicate TerminatesBlock(word: string, block: Block) {
    match block
    case Begin => false
    case Case => Is(word, "CASE")
    case If => Is(word, "IF")
    case While => Is(word, "WHILE")
  }

  function NextPrefix(prefix: CreatePrefix, word: string): CreatePrefix {
    match prefix
    case AtStart => if Is(word, "CREATE") then Create else Other
    case Create =>
      if Is(word, "OR") then Or
      else if RoutineKeyword(word) then Procedural
      else if RoutineModifier(word) then Modifier
      else Other
    case Replace => if RoutineKeyword(word) then Procedural else if RoutineModifier(word) then Modifier else Other
    case Or => if Is(word, "REPLACE") then Replace else Other
    case Modifier => if Is(word, "FUNCTION") then Procedural else Other
    case Procedural => Procedural
    case Other => Other
  }

  function Enter(p: Routine, block: Block): Routine {
    p.(blocks := p.blocks + [block], statementStart := false)
  }

  function ObserveInside(p: Routine, word: string): Routine {
    if Is(word, "END") then
      var n := |p.blocks|;
      if n == 0 then p.(afterEnd := None, statementStart := false)
      else p.(afterEnd := Some(p.blocks[n - 1]), blocks := p.blocks[..n - 1], statementStart := false)
    else if Is(word, "CASE") then Enter(p, Case)
    else if Is(word, "IF") && p.statementStart then Enter(p, If)
    else if Is(word, "WHILE") then Enter(p, While)
    else p.(statementStart := Is(word, "THEN") || Is(word, "ELSE") || Is(word, "ELSEIF") || Is(word, "DO"))
  }

  function ObserveWord(p: Routine, word: string): Routine {
    if !p.active then
      var prefix := NextPrefix(p.prefix, word);
      if prefix.Procedural? && Is(word, "BEGIN") then
        p.(prefix := prefix, active := true, blocks := p.blocks + [Begin], statementStart := true)
      else p.(prefix := prefix)
    else if p.afterEnd.Some? && TerminatesBlock(word, p.afterEnd.value) then p.(afterEnd := None)
    else ObserveInside(p.(afterEnd := None), word)
  }

  predicate SemicolonIsInternal(p: Routine) {
    p.active && p.blocks != []
  }

  /** The scanner's view of routine bodies, changed word by word. */
  class ProceduralScan {
    var prefix: CreatePrefix
    var active: bool
    var blocks: seq<Block>
    var statementStart: bool
    var afterEnd: Option<Block>

    function Value(): Routine
      reads this
    {
      Routine(prefix, active, blocks, statementStart, afterEnd)
    }

    constructor ()
      ensures Value() == NO_ROUTINE
    {
      prefix, active, blocks, statementStart, afterEnd := AtStart, false, [], true, None;
    }

    method Reset()
      modifies this
      ensures Value() == NO_ROUTINE
    {
      prefix, active, blocks, statementStart, afterEnd := AtStart, false, [], true, None;
    }

    method Observe(word: string)
      modifies this
      ensures Value() == ObserveWord(old(Value()), word)
    {
      if !active {
        prefix := NextPrefix(prefix, word);
        if prefix.Procedural? && Is(word, "BEGIN") {
          active, blocks, statementStart := true, blocks + [Begin], true;
        }
        return;
      }
      var block := afterEnd;
      afterEnd := None;
      if block.Some? && TerminatesBlock(word, block.value) {
        return;
      }
      ObserveBody(word);
    }

    method ObserveBody(word: string)
      modifies this
      ensures Value() == ObserveInside(old(Value()), word)
    {
      if Is(word, "END") {
        if blocks == [] {
          afterEnd := None;
        } else {
          afterEnd, blocks := Some(blocks[|blocks| - 1]), blocks[..|blocks| - 1];
        }
        statementStart := false;
      } else if Is(word, "CASE") {
        blocks, statementStart := blocks + [Case], false;
      } else if Is(word, "IF") && statementStart {
        blocks, statementStart := blocks + [If], false;
      } else if Is(word, "WHILE") {
        blocks, statementStart := blocks + [While], false;
      } else {
        statementStart := Is(word, "THEN") || Is(word, "ELSE") || Is(word, "ELSEIF") || Is(word, "DO");
      }
    }

    method Semicolon() returns (internal: bool)
      modifies this
      ensures internal <==> SemicolonIsInternal(old(Value()))
      ensures Value() == if internal then old(Value()).(statementStart := true, afterEnd := None) else old(Value())
    {
      internal := active && blocks != [];
      if internal {
        statementStart, afterEnd := true, None;
      }
    }
  }

  // ----- Statements -----

  /** What the scanner keeps from token to token. */
  datatype Core = Core(
    statements: nat, hasCode: bool, first: Option<string>, dataChange: bool, routine: Routine, bare: bool, fetch: bool)

  const START := Core(0, false, None, false, NO_ROUTINE, false, false)

  function CodeSeen(c: Core): Core {
    c.(hasCode := true, bare := false, fetch := false)
  }

  function WordSeen(c: Core, word: string): Core {
    c.(hasCode := true,
       first := if c.first.None? then Some(word) else c.first,
       dataChange := c.dataChange || DataChangeKeyword(word),
       routine := ObserveWord(c.routine, word),
       bare := BareIntegerKeyword(word) || (c.fetch && (Is(word, "FIRST") || Is(word, "NEXT"))),
       fetch := Is(word, "FETCH"))
  }

  function SemicolonSeen(c: Core): Core {
    if SemicolonIsInternal(c.routine) then c.(routine := c.routine.(statementStart := true, afterEnd := None))
    else Core(c.statements + (if c.hasCode then 1 else 0), false, c.first, c.dataChange, NO_ROUTINE, false, false)
  }

  function Apply(c: Core, t: Token): Core {
    match t.kind
    case Semicolon => SemicolonSeen(c)
    case Word => WordSeen(c, t.text)
    case Blank => c
    case Inside => c
    case Slot(_) => CodeSeen(c)
    case Literal => CodeSeen(c)
    case Code => CodeSeen(c)
  }

  function Fold(tokens: seq<Token>, c: Core): Core {
    if tokens == [] then c else Fold(tokens[1..], Apply(c, tokens[0]))
  }

  function Finish(c: Core): Core {
    if c.hasCode then c.(statements := c.statements + 1) else c
  }

  predicate MayModify(c: Core) {
    c.dataChange || !(c.first.Some? && ReadOnlyKeyword(c.first.value))
  }

  lemma {:induction false} FoldConcat(a: seq<Token>, b: seq<Token>, c: Core)
    ensures Fold(a + b, c) == Fold(b, Fold(a, c))
  {
    if a == [] {
      assert a + b == b;
    } else {
      assert (a + b)[1..] == a[1..] + b;
      FoldConcat(a[1..], b, Apply(c, a[0]));
    }
  }

  // ----- What the flags mean -----

  function FirstWord(tokens: seq<Token>): Option<string> {
    if tokens == [] then None
    else if tokens[0].kind.Word? then Some(tokens[0].text)
    else FirstWord(tokens[1..])
  }

  predicate ChangesData(t: Token) {
    t.kind.Word? && DataChangeKeyword(t.text)
  }

  predicate HasDataChange(tokens: seq<Token>) {
    exists i :: 0 <= i < |tokens| && ChangesData(tokens[i])
  }

  /** A data-changing word anywhere, or a first word that is not one of those that only read. */
  predicate Modifies(tokens: seq<Token>) {
    HasDataChange(tokens) || !(FirstWord(tokens).Some? && ReadOnlyKeyword(FirstWord(tokens).value))
  }

  lemma HasDataChangeFirst(tokens: seq<Token>)
    requires tokens != []
    ensures HasDataChange(tokens) <==> ChangesData(tokens[0]) || HasDataChange(tokens[1..])
  {
    if HasDataChange(tokens[1..]) {
      var i :| 0 <= i < |tokens[1..]| && ChangesData(tokens[1..][i]);
      assert ChangesData(tokens[i + 1]);
    }
    if HasDataChange(tokens) && !ChangesData(tokens[0]) {
      var i :| 0 <= i < |tokens| && ChangesData(tokens[i]);
      assert ChangesData(tokens[1..][i - 1]);
    }
  }

  lemma {:induction false} FlagsMean(tokens: seq<Token>, c: Core)
    ensures Fold(tokens, c).first == if c.first.Some? then c.first else FirstWord(tokens)
    ensures Fold(tokens, c).dataChange <==> c.dataChange || HasDataChange(tokens)
    decreases |tokens|
  {
    if tokens != [] {
      HasDataChangeFirst(tokens);
      FlagsMean(tokens[1..], Apply(c, tokens[0]));
    }
  }

  /** The flags say what they should of the whole text. */
  lemma MayModifyMeans(tokens: seq<Token>)
    ensures MayModify(Fold(tokens, START)) <==> Modifies(tokens)
    ensures Fold(tokens, START).first == FirstWord(tokens) && (Fold(tokens, START).dataChange <==> HasDataChange(tokens))
  {
    FlagsMean(tokens, START);
  }

  // ----- Slots -----

  datatype ScannedSlot = ScannedSlot(start: nat, end: nat, named: bool, bareInteger: bool)

  /** The slots among the tokens, the first token being at `pos`. */
  function Slots(tokens: seq<Token>, pos: nat, c: Core): seq<ScannedSlot> {
    if tokens == [] then []
    else
      var t, end := tokens[0], pos + |tokens[0].text|;
      (if t.kind.Slot? then [ScannedSlot(pos, end, t.kind.named, c.bare)] else []) + Slots(tokens[1..], end, Apply(c, t))
  }

  lemma {:induction false} SlotsPush(tokens: seq<Token>, t: Token, pos: nat, c: Core)
    ensures var end := pos + |Text(tokens)|;
            Slots(tokens + [t], pos, c)
            == Slots(tokens, pos, c)
               + if t.kind.Slot? then [ScannedSlot(end, end + |t.text|, t.kind.named, Fold(tokens, c).bare)] else []
  {
    if tokens == [] {
      assert tokens + [t] == [t];
    } else {
      assert (tokens + [t])[1..] == tokens[1..] + [t];
      SlotsPush(tokens[1..], t, pos + |tokens[0].text|, Apply(c, tokens[0]));
    }
  }

  lemma {:induction false} TextPush(tokens: seq<Token>, t: Token)
    ensures Text(tokens + [t]) == Text(tokens) + t.text
  {
    if tokens == [] {
      assert tokens + [t] == [t];
    } else {
      assert (tokens + [t])[1..] == tokens[1..] + [t];
      TextPush(tokens[1..], t);
      Assoc(tokens[0].text, Text(tokens[1..]), t.text);
    }
  }

  // ----- The scan -----

  datatype Span = Span(start: nat, end: nat)

  /** Statement texts follow each other without overlap, up to `limit`. */
  ghost predicate InOrder(spans: seq<Span>, limit: nat) {
    spans == []
    || (var last := spans[|spans| - 1];
        last.start <= last.end <= limit && InOrder(spans[..|spans| - 1], last.start))
  }

  lemma {:induction false} InOrderMore(spans: seq<Span>, limit: nat, more: nat)
    requires InOrder(spans, limit) && limit <= more
    ensures InOrder(spans, more)
  {
  }

  lemma InOrderPush(spans: seq<Span>, start: nat, end: nat)
    requires InOrder(spans, start) && start <= end
    ensures InOrder(spans + [Span(start, end)], end)
  {
    After(spans, [Span(start, end)]);
  }

  /** The token ends a statement: a semicolon outside routine bodies. */
  predicate Closes(c: Core, t: Token) {
    t.kind.Semicolon? && !SemicolonIsInternal(c.routine)
  }

  /** Where the statement begins that is open after the tokens: behind the last semicolon that closed one. */
  function OpenAt(tokens: seq<Token>): nat {
    if tokens == [] then 0
    else
      var init := tokens[..|tokens| - 1];
      if Closes(Fold(init, START), tokens[|tokens| - 1]) then |Text(init)| + 1 else OpenAt(init)
  }

  /** The statements that semicolons closed; those without code are dropped. */
  function Closed(tokens: seq<Token>): seq<Span> {
    if tokens == [] then []
    else
      var init := tokens[..|tokens| - 1];
      var c := Fold(init, START);
      Closed(init)
      + if Closes(c, tokens[|tokens| - 1]) && c.hasCode then [Span(OpenAt(init), |Text(init)|)] else []
  }

  /** All statements: the last one needs no semicolon. */
  function Statements(tokens: seq<Token>): seq<Span> {
    Closed(tokens) + if Fold(tokens, START).hasCode then [Span(OpenAt(tokens), |Text(tokens)|)] else []
  }

  lemma ClosedPush(tokens: seq<Token>, t: Token)
    ensures var c := Fold(tokens, START);
            && OpenAt(tokens + [t]) == (if Closes(c, t) then |Text(tokens)| + 1 else OpenAt(tokens))
            && Closed(tokens + [t])
               == Closed(tokens) + (if Closes(c, t) && c.hasCode then [Span(OpenAt(tokens), |Text(tokens)|)] else [])
  {
    assert (tokens + [t])[..|tokens|] == tokens;
  }

  /** A token that belongs to some statement. */
  predicate IsCode(t: Token) {
    !t.kind.Semicolon? && !t.kind.Blank? && !t.kind.Inside?
  }

  /** Some span holds the text from `start` to `end`. */
  ghost predicate Within(spans: seq<Span>, start: nat, end: nat) {
    exists k :: 0 <= k < |spans| && spans[k].start <= start && end <= spans[k].end
  }

  lemma WithinMore(spans: seq<Span>, more: seq<Span>, start: nat, end: nat)
    requires Within(spans, start, end) || Within(more, start, end)
    ensures Within(spans + more, start, end)
  {
    if Within(spans, start, end) {
      var k :| 0 <= k < |spans| && spans[k].start <= start && end <= spans[k].end;
      assert (spans + more)[k] == spans[k];
    } else {
      var k :| 0 <= k < |more| && more[k].start <= start && end <= more[k].end;
      assert (spans + more)[|spans| + k] == more[k];
    }
  }

  /** Token `i` lies in a closed statement, or in the open one. */
  ghost predicate Kept(tokens: seq<Token>, i: nat)
    requires i < |tokens|
  {
    var start := |Text(tokens[..i])|;
    || Within(Closed(tokens), start, start + |tokens[i].text|)
    || (OpenAt(tokens) <= start && Fold(tokens, START).hasCode)
  }

  lemma {:induction false} OpenWithin(tokens: seq<Token>)
    requires forall i :: 0 <= i < |tokens| ==> tokens[i].text != ""
    ensures OpenAt(tokens) <= |Text(tokens)|
  {
    if tokens != [] {
      var init, t := tokens[..|tokens| - 1], tokens[|tokens| - 1];
      OpenWithin(init);
      assert tokens == init + [t];
      TextPush(init, t);
    }
  }

  lemma {:induction false} TextOfPrefix(tokens: seq<Token>, i: nat)
    requires i < |tokens|
    ensures |Text(tokens[..i])| + |tokens[i].text| <= |Text(tokens)|
    decreases |tokens|
  {
    var init, t := tokens[..|tokens| - 1], tokens[|tokens| - 1];
    assert tokens == init + [t];
    TextPush(init, t);
    if i < |init| {
      assert init[..i] == tokens[..i];
      TextOfPrefix(init, i);
    }
  }

  lemma FoldPush(tokens: seq<Token>, t: Token)
    ensures Fold(tokens + [t], START) == Apply(Fold(tokens, START), t)
  {
    FoldConcat(tokens, [t], START);
  }

  lemma {:induction false} CodeIsKept(tokens: seq<Token>, i: nat)
    requires i < |tokens| && IsCode(tokens[i]) && forall k :: 0 <= k < |tokens| ==> tokens[k].text != ""
    ensures Kept(tokens, i)
    decreases |tokens|
  {
    var init, t := tokens[..|tokens| - 1], tokens[|tokens| - 1];
    assert tokens == init + [t];
    FoldPush(init, t);
    ClosedPush(init, t);
    if i == |init| {
      assert tokens[..i] == init;
      OpenWithin(init);
    } else {
      CodeIsKept(init, i);
      KeptPush(init, t, i);
    }
  }

  lemma KeptPush(tokens: seq<Token>, t: Token, i: nat)
    requires i < |tokens| && Kept(tokens, i)
    ensures Kept(tokens + [t], i)
  {
    var start, c := |Text(tokens[..i])|, Fold(tokens, START);
    var end := start + |tokens[i].text|;
    assert (tokens + [t])[..i] == tokens[..i];
    FoldPush(tokens, t);
    ClosedPush(tokens, t);
    if Within(Closed(tokens), start, end) {
      WithinMore(Closed(tokens), if Closes(c, t) && c.hasCode then [Span(OpenAt(tokens), |Text(tokens)|)] else [], start, end);
    } else if Closes(c, t) {
      var last := Span(OpenAt(tokens), |Text(tokens)|);
      TextOfPrefix(tokens, i);
      assert [last][0] == last;
      WithinMore(Closed(tokens), [last], start, end);
    }
  }

  /** No code is lost: every token of code lies in one of the statements. */
  lemma CodeIsInAStatement(tokens: seq<Token>, i: nat)
    requires i < |tokens| && IsCode(tokens[i]) && forall k :: 0 <= k < |tokens| ==> tokens[k].text != ""
    ensures var start := |Text(tokens[..i])|; Within(Statements(tokens), start, start + |tokens[i].text|)
  {
    var start := |Text(tokens[..i])|;
    var end, open := start + |tokens[i].text|, Span(OpenAt(tokens), |Text(tokens)|);
    CodeIsKept(tokens, i);
    TextOfPrefix(tokens, i);
    if Within(Closed(tokens), start, end) {
      WithinMore(Closed(tokens), if Fold(tokens, START).hasCode then [open] else [], start, end);
    } else {
      assert [open][0] == open;
      WithinMore(Closed(tokens), [open], start, end);
    }
  }

  /** The scanner's variables. */
  class ScanState {
    var statementStart: nat
    var hasCode: bool
    var statements: seq<Span>
    var slots: seq<ScannedSlot>
    var firstKeyword: Option<string>
    var hasDataChange: bool
    const procedural: ProceduralScan
    var bareIntegerParameter: bool
    var fetchRowCount: bool

    ghost function Value(): Core
      reads this, procedural
    {
      Core(|statements|, hasCode, firstKeyword, hasDataChange, procedural.Value(), bareIntegerParameter, fetchRowCount)
    }

    ghost predicate Valid(index: nat)
      reads this
    {
      statementStart <= index && InOrder(statements, statementStart)
    }

    constructor ()
      ensures Valid(0) && Value() == START && slots == [] && statements == [] && fresh(procedural)
    {
      procedural := new ProceduralScan();
      statementStart, hasCode, statements, slots, firstKeyword := 0, false, [], [], None;
      hasDataChange, bareIntegerParameter, fetchRowCount := false, false, false;
    }

    /** Closes the statement that ends at `index`, if it has code. */
    method EndStatement(index: nat)
      requires Valid(index)
      modifies this`statements, this`statementStart, this`hasCode, this`bareIntegerParameter, this`fetchRowCount
      ensures Valid(index + 1) && statementStart == index + 1
      ensures statements == old(statements) + if old(hasCode) then [Span(old(statementStart), index)] else []
      ensures !hasCode && !bareIntegerParameter && !fetchRowCount
    {
      InOrderMore(statements, statementStart, index + 1);
      if hasCode {
        InOrderPush(statements, statementStart, index);
        statements := statements + [Span(statementStart, index)];
        InOrderMore(statements, index, index + 1);
      }
      statementStart, hasCode, bareIntegerParameter, fetchRowCount := index + 1, false, false, false;
    }

    method SemicolonAt(index: nat)
      requires Valid(index)
      modifies this, procedural
      ensures Valid(index + 1) && Value() == SemicolonSeen(old(Value())) && slots == old(slots)
      ensures var closes := !SemicolonIsInternal(old(Value()).routine);
              && statementStart == (if closes then index + 1 else old(statementStart))
              && statements == old(statements) + if closes && old(hasCode) then [Span(old(statementStart), index)] else []
    {
      var internal := procedural.Semicolon();
      if !internal {
        EndStatement(index);
        procedural.Reset();
      }
    }

    method WordAt(word: string)
      modifies this, procedural
      ensures Value() == WordSeen(old(Value()), word)
      ensures slots == old(slots) && statements == old(statements) && statementStart == old(statementStart)
    {
      hasCode := true;
      if firstKeyword.None? {
        firstKeyword := Some(word);
      }
      hasDataChange := hasDataChange || DataChangeKeyword(word);
      procedural.Observe(word);
      bareIntegerParameter := BareIntegerKeyword(word) || (fetchRowCount && (Is(word, "FIRST") || Is(word, "NEXT")));
      fetchRowCount := Is(word, "FETCH");
    }

    method CodeAt()
      modifies this
      ensures Value() == CodeSeen(old(Value())) && procedural.Value() == old(procedural.Value())
      ensures slots == old(slots) && statements == old(statements) && statementStart == old(statementStart)
    {
      hasCode, bareIntegerParameter, fetchRowCount := true, false, false;
    }

    method Accept(t: Token, index: nat)
      requires Valid(index) && t.text != ""
      modifies this, procedural
      ensures Valid(index + |t.text|) && Value() == Apply(old(Value()), t)
      ensures slots == old(slots)
                       + if t.kind.Slot? then [ScannedSlot(index, index + |t.text|, t.kind.named, old(Value()).bare)] else []
      ensures statementStart == if Closes(old(Value()), t) then index + 1 else old(statementStart)
      ensures statements == old(statements)
                            + if Closes(old(Value()), t) && old(hasCode) then [Span(old(statementStart), index)] else []
    {
      match t.kind {
        case Semicolon => SemicolonAt(index);
        case Word => WordAt(t.text);
        case Slot(named) =>
          slots := slots + [ScannedSlot(index, index + |t.text|, named, bareIntegerParameter)];
          CodeAt();
        case Literal => CodeAt();
        case Code => CodeAt();
        case Blank =>
        case Inside =>
      }
    }
  }

  predicate ColonBefore(query: string, index: nat)
    requires index <= |query|
  {
    index > 0 && query[index - 1] == ':'
  }

  function Join(done: seq<Token>, rest: Lexed): Lexed {
    if rest.LexFailed? then rest else Lexed(done + rest.tokens)
  }

  /** `done` are the tokens before `index`. */
  ghost predicate Lexing(query: string, index: nat, lex: LexState, done: seq<Token>, step: Stepper)
    requires Proper(step)
  {
    Reached(query, index, done) && LexedSoFar(query, index, lex, done, step)
  }

  predicate Reached(query: string, index: nat, done: seq<Token>) {
    index <= |query| && Text(done) == query[..index]
  }

  ghost predicate LexedSoFar(query: string, index: nat, lex: LexState, done: seq<Token>, step: Stepper)
    requires Proper(step) && index <= |query|
  {
    Tokens(step, false, query, Normal) == Join(done, RestOf(query, index, lex, step))
  }

  /** The tokens from `index` on. */
  ghost function RestOf(query: string, index: nat, lex: LexState, step: Stepper): Lexed
    requires Proper(step) && index <= |query|
  {
    Tokens(step, ColonBefore(query, index), query[index..], lex)
  }

  lemma RestStep(query: string, index: nat, lex: LexState, step: Stepper)
    requires Proper(step) && index < |query|
    ensures var t := step(ColonBefore(query, index), query[index..], lex);
            if t.Stop? then RestOf(query, index, lex, step) == LexFailed(t.error)
            else
              && index + t.used <= |query|
              && RestOf(query, index, lex, step)
                 == Join([Token(t.kind, query[index..][..t.used])], RestOf(query, index + t.used, t.after, step))
  {
    var s := query[index..];
    var t := step(ColonBefore(query, index), s, lex);
    if t.Next? {
      DropDrop(query, index, t.used);
      assert s[t.used - 1] == query[index + t.used - 1];
    }
  }

  lemma ReachedMore(query: string, index: nat, done: seq<Token>, kind: Kind, used: nat)
    requires Reached(query, index, done) && index + used <= |query|
    ensures Reached(query, index + used, done + [Token(kind, query[index..][..used])])
  {
    TakeMore(query, index, used);
    TextPush(done, Token(kind, query[index..][..used]));
  }

  lemma JoinStep(whole: Lexed, done: seq<Token>, token: Token, rest: Lexed)
    requires whole == Join(done, Join([token], rest))
    ensures whole == Join(done + [token], rest)
  {
    if rest.Lexed? {
      Assoc(done, [token], rest.tokens);
    }
  }

  /** A finished scan: the statements, the slots and what decides whether the text may modify data. */
  datatype QueryScan = QueryScan(statements: seq<Span>, slots: seq<ScannedSlot>, firstKeyword: Option<string>, hasDataChange: bool)

  /** The scan agrees with the tokens of the text. */
  ghost predicate Scans(query: string, tokens: seq<Token>, scan: QueryScan) {
    var c := Finish(Fold(tokens, START));
    && scan.statements == Statements(tokens) && |scan.statements| == c.statements && scan.firstKeyword == c.first && scan.hasDataChange == c.dataChange
    && scan.slots == Slots(tokens, 0, START) && InOrder(scan.statements, |query|)
  }

  method ReadToken(query: string, index: nat, lex: LexState, step: Stepper, ghost done: seq<Token>)
    returns (r: Result<Token, LexError>, after: LexState)
    requires Proper(step) && Lexing(query, index, lex, done, step) && index < |query|
    ensures r.Err? ==> Tokens(step, false, query, Normal) == LexFailed(r.error)
    ensures r.Ok? ==> r.value.text != "" && Lexing(query, index + |r.value.text|, after, done + [r.value], step)
  {
    RestStep(query, index, lex, step);
    var s := query[index..];
    var t := step(ColonBefore(query, index), s, lex);
    if t.Stop? {
      return Err(t.error), lex;
    }
    ReachedMore(query, index, done, t.kind, t.used);
    r, after := Ok(Token(t.kind, s[..t.used])), t.after;
    JoinStep(Tokens(step, false, query, Normal), done, r.value, RestOf(query, index + t.used, after, step));
  }

  /** The scanner's variables after the tokens `done`. */
  ghost predicate Follows(state: ScanState, index: nat, done: seq<Token>)
    reads state, state.procedural
  {
    && state.Valid(index) && state.Value() == Fold(done, START) && state.slots == Slots(done, 0, START)
    && state.statements == Closed(done) && state.statementStart == OpenAt(done)
  }

  method AcceptToken(state: ScanState, index: nat, token: Token, ghost done: seq<Token>)
    requires Follows(state, index, done) && |Text(done)| == index && token.text != ""
    modifies state, state.procedural
    ensures Follows(state, index + |token.text|, done + [token])
  {
    SlotsPush(done, token, 0, START);
    ClosedPush(done, token);
    FoldConcat(done, [token], START);
    state.Accept(token, index);
  }

  /** One pass over the text; fails exactly when the lexer does. */
  method ScanQuery(query: string, step: Stepper) returns (r: Result<QueryScan, LexError>)
    requires Proper(step)
    ensures var l := Tokens(step, false, query, Normal);
            if l.LexFailed? then r == Err(l.error) else r.Ok? && Scans(query, l.tokens, r.value)
  {
    var state := new ScanState();
    var lex := Normal;
    var index: nat := 0;
    ghost var done: seq<Token> := [];
    LexingStarts(query, step);
    while index < |query|
      invariant Lexing(query, index, lex, done, step) && fresh(state) && fresh(state.procedural)
      invariant Follows(state, index, done)
      decreases |query| - index
    {
      var t, after := ReadToken(query, index, lex, step, done);
      if t.Err? {
        return Err(t.error);
      }
      AcceptToken(state, index, t.value, done);
      done, lex, index := done + [t.value], after, index + |t.value.text|;
    }
    LexingEnds(query, lex, done, step);
    if !lex.Normal? && !lex.LineComment? {
      return Err(Unterminated);
    }
    var scan := Conclude(query, state, done);
    r := Ok(scan);
  }

  lemma LexingStarts(query: string, step: Stepper)
    requires Proper(step)
    ensures Lexing(query, 0, Normal, [], step)
  {
    Whole(query);
    var l := Tokens(step, false, query, Normal);
    if l.Lexed? {
      Whole(l.tokens);
    }
  }

  lemma LexingEnds(query: string, lex: LexState, done: seq<Token>, step: Stepper)
    requires Proper(step) && Lexing(query, |query|, lex, done, step)
    ensures |Text(done)| == |query|
    ensures Tokens(step, false, query, Normal)
         == if lex.Normal? || lex.LineComment? then Lexed(done) else LexFailed(Unterminated)
  {
    Whole(done);
  }

  /** The last statement needs no semicolon. */
  method Conclude(query: string, state: ScanState, ghost done: seq<Token>) returns (scan: QueryScan)
    requires Follows(state, |query|, done) && |Text(done)| == |query|
    ensures Scans(query, done, scan)
  {
    var statements := state.statements;
    InOrderMore(statements, state.statementStart, |query|);
    if state.hasCode {
      InOrderPush(statements, state.statementStart, |query|);
      statements := statements + [Span(state.statementStart, |query|)];
    }
    scan := QueryScan(statements, state.slots, state.firstKeyword, state.hasDataChange);
  }

  /** Whether the text may modify data; fails exactly when the lexer does. */
  method StatementMayModify(query: string, step: Stepper) returns (r: Result<bool, LexError>)
    requires Proper(step)
    ensures var l := Tokens(step, false, query, Normal);
            r == if l.LexFailed? then Err(l.error) else Ok(Modifies(l.tokens))
  {
    var scan := ScanQuery(query, step);
    if scan.Err? {
      return Err(scan.error);
    }
    MayModifyMeans(Tokens(step, false, query, Normal).tokens);
    var first := scan.value.firstKeyword;
    r := Ok(scan.value.hasDataChange || !(first.Some? && ReadOnlyKeyword(first.value)));
  }
}

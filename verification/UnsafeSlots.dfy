/**
 Exactly when rendering slots as raw strings is harmless.  A slot behind a word or a lone colon is not
 clear: the prefix of the raw string becomes part of the word, or the name of a new slot, and the rest is
 quoted text of another kind, in which a backslash before a quote is an error.
 */
module UnsafeSlots {
  import opened Wrappers
  import opened Sequences
  import opened SqlLexer
  import opened SqlLookahead
  import opened SqlScanner
  import opened QueryTemplate
  import opened TemplateRendering
  import opened RowBinding
  import opened RawQuoting

  /** A value that only a raw string can hold as it is. */
  const BACKSLASH_QUOTE := "\\'"

  // ----- Spoiled texts -----

  /** The text does not scan, or it still has slots. */
  predicate Spoiled(l: Lexed) {
    l.LexFailed? || !NoSlots(l.tokens)
  }

  lemma JoinSpoiled(done: seq<Token>, l: Lexed)
    requires Spoiled(l)
    ensures Spoiled(Join(done, l))
  {
    if l.Lexed? {
      var i :| 0 <= i < |l.tokens| && l.tokens[i].kind.Slot?;
      assert (done + l.tokens)[|done| + i] == l.tokens[i];
    }
  }

  lemma {:induction false} SlotsRemain(tokens: seq<Token>, pos: nat, c: Core)
    requires !NoSlots(tokens)
    ensures Slots(tokens, pos, c) != []
    decreases |tokens|
  {
    if !tokens[0].kind.Slot? {
      var i :| 0 <= i < |tokens| && tokens[i].kind.Slot?;
      assert tokens[1..][i - 1] == tokens[i];
      SlotsRemain(tokens[1..], pos + |tokens[0].text|, Apply(c, tokens[0]));
    }
  }

  /** The first slot that is not clear is behind a colon, or gets the value above. */
  predicate Spoils(glue: Glue, colon: bool, tokens: seq<Token>, values: Values, k: nat)
    decreases |tokens|
  {
    && tokens != []
    && if tokens[0].kind.Slot? && !glue.Apart? then glue.ByColon? || values(k) == BACKSLASH_QUOTE
       else Spoils(GlueOf(colon, tokens[0]), EndsInColon(tokens[0].text), tokens[1..], values,
                   if tokens[0].kind.Slot? then k + 1 else k)
  }

  function SlotCount(tokens: seq<Token>): nat {
    if tokens == [] then 0 else (if tokens[0].kind.Slot? then 1 else 0) + SlotCount(tokens[1..])
  }

  lemma {:induction false} SlotsCounted(tokens: seq<Token>, pos: nat, c: Core)
    ensures |Slots(tokens, pos, c)| == SlotCount(tokens)
    decreases |tokens|
  {
    if tokens != [] {
      SlotsCounted(tokens[1..], pos + |tokens[0].text|, Apply(c, tokens[0]));
    }
  }

  lemma {:induction false} UnclearSpoils(glue: Glue, colon: bool, tokens: seq<Token>, values: Values, k: nat)
    requires !Clear(glue, colon, tokens) && forall i: nat :: k <= i < k + SlotCount(tokens) ==> values(i) == BACKSLASH_QUOTE
    ensures Spoils(glue, colon, tokens, values, k)
    decreases |tokens|
  {
    if !(tokens[0].kind.Slot? && !glue.Apart?) {
      UnclearSpoils(GlueOf(colon, tokens[0]), EndsInColon(tokens[0].text), tokens[1..], values,
                    if tokens[0].kind.Slot? then k + 1 else k);
    }
  }

  // ----- Where a slot is glued -----

  /** A raw string without its prefix, read as quoted text. */
  lemma BackslashStops(colon: bool, rest: string, step: Stepper)
    requires Proper(step) && QuoteLaw(step)
    ensures Tokens(step, colon, "'" + (Doubled(BACKSLASH_QUOTE) + rest), Normal).LexFailed?
  {
    var x := "'" + rest;
    DoubledBackslash(rest);
    assert QuoteAt(step, false, x);
    assert Tokens(step, false, "\\'" + x, SingleQuote).LexFailed?;
    assert QuoteAt(step, colon, "\\'" + x);
    TokensStep(colon, "'", "\\'" + x, Normal, step, Literal, SingleQuote);
  }

  lemma DoubledBackslash(rest: string)
    ensures Doubled(BACKSLASH_QUOTE) + rest == "\\'" + ("'" + rest)
  {
    assert BACKSLASH_QUOTE[1..] == "'" && "'"[1..] == "";
    assert Doubled("'") == "''";
    assert Doubled(BACKSLASH_QUOTE) == "\\''";
  }

  /** The prefix of the raw string goes to the token before it. */
  lemma GluedSlot(colon: bool, text: string, a: string, lex: LexState, step: Stepper, v: string, rest: string)
    requires Grammar(step) && text != "" && Keeps(text, step(colon, text + a, lex))
    requires var glue := GlueAt(step, colon, text, a, lex); glue.ByColon? || (glue.ByWord? && v == BACKSLASH_QUOTE)
    ensures Spoiled(Tokens(step, colon, text + (Raw(v) + rest), lex))
  {
    var glue, x := GlueAt(step, colon, text, a, lex), Doubled(v) + ("'" + rest);
    RawShape(v, rest);
    assert GluedAt(step, colon, text, a, x, lex);
    var kind := if glue.ByWord? then Word else Slot(true);
    assert text + ("R'" + x) == (text + "R") + ("'" + x);
    TokensStep(colon, text + "R", "'" + x, Normal, step, kind, Normal);
    var l := Tokens(step, false, "'" + x, Normal);
    if glue.ByWord? {
      BackslashStops(false, "'" + rest, step);
    } else if l.Lexed? {
      assert ([Token(kind, text + "R")] + l.tokens)[0].kind.Slot?;
    }
  }

  // ----- The whole text -----

  /** The state of the rendered text: quoted text behind a slot is inside a raw string. */
  function Actual(lex: LexState, raw: bool): LexState {
    if raw && lex.SingleQuote? then RawSingleQuote else lex
  }

  lemma {:induction false} SpoiledText(colon: bool, s: string, lex: LexState, raw: bool, step: Stepper, tokens: seq<Token>,
                                       values: Values, k: nat)
    requires Grammar(step) && Tokens(step, colon, s, lex) == Lexed(tokens) && Spoils(Apart, colon, tokens, values, k)
    ensures Spoiled(Tokens(step, colon, Rendered(tokens, Quoted(values), k), Actual(lex, raw)))
    decreases |s|, 1
  {
    if s != "" {
      FirstToken(colon, s, lex, step, tokens);
      var t := step(colon, s, lex);
      if t.kind.Slot? && QuoteNext(tokens[1..]) {
        SpoiledQuoted(colon, s, lex, step, tokens, t, values, k);
      } else if t.kind.Slot? {
        SpoiledSlot(colon, s, lex, step, tokens, t, values, k);
      } else {
        SpoiledOther(colon, s, lex, raw, step, tokens, t, values, k);
      }
    }
  }

  lemma {:induction false} SpoiledQuoted(colon: bool, s: string, lex: LexState, step: Stepper, tokens: seq<Token>, t: Next,
                                         values: Values, k: nat)
    requires Grammar(step) && Reads(colon, s, lex, step, tokens, t) && Spoils(Apart, colon, tokens, values, k)
    requires t.kind.Slot? && QuoteNext(tokens[1..])
    ensures lex.Normal? && Spoiled(Tokens(step, colon, Rendered(tokens, Quoted(values), k), Normal))
    decreases |s|, 0
  {
    var rest := BehindQuote(colon, s, lex, step, tokens, t);
    var more := tokens[1..][1..];
    var rendered := Rendered(more, Quoted(values), k + 1);
    assert SlotAt(step, colon, s, lex);
    SpoilsBehindQuote(colon, tokens, values, k);
    SpoiledText(false, rest, SingleQuote, true, step, more, values, k + 1);
    RawGoesOn(colon, values(k), rendered, step);
    JoinSpoiled(RawUpTo(values(k), "''"), Tokens(step, false, rendered, RawSingleQuote));
  }

  lemma SpoilsBehindQuote(colon: bool, tokens: seq<Token>, values: Values, k: nat)
    requires Spoils(Apart, colon, tokens, values, k) && tokens[0].kind.Slot? && QuoteNext(tokens[1..])
    ensures Spoils(Apart, false, tokens[1..][1..], values, k + 1)
  {
  }

  lemma {:induction false} SpoiledSlot(colon: bool, s: string, lex: LexState, step: Stepper, tokens: seq<Token>, t: Next,
                                       values: Values, k: nat)
    requires Grammar(step) && Reads(colon, s, lex, step, tokens, t) && Spoils(Apart, colon, tokens, values, k)
    requires t.kind.Slot? && !QuoteNext(tokens[1..])
    ensures lex.Normal? && Spoiled(Tokens(step, colon, Rendered(tokens, Quoted(values), k), Normal))
    decreases |s|, 0
  {
    assert SlotAt(step, colon, s, lex);
    assert s[..t.used][t.used - 1] == s[t.used - 1];
    SpoiledText(false, s[t.used..], Normal, false, step, tokens[1..], values, k + 1);
    BehindRaw(colon, s[t.used..], step, tokens[1..], values, k);
  }

  /** A raw string, and then a spoiled text. */
  lemma BehindRaw(colon: bool, rest: string, step: Stepper, more: seq<Token>, values: Values, k: nat)
    requires Grammar(step) && Tokens(step, false, rest, Normal) == Lexed(more) && !QuoteNext(more)
    requires Spoiled(Tokens(step, false, Rendered(more, Quoted(values), k + 1), Normal))
    ensures Spoiled(Tokens(step, colon, Raw(values(k)) + Rendered(more, Quoted(values), k + 1), Normal))
  {
    var rendered := Rendered(more, Quoted(values), k + 1);
    QuoteFollows(rest, step, more);
    TokensTile(step, false, rest, Normal);
    RenderedNoQuote(more, values, k + 1);
    RawLexes(colon, values(k), rendered, step);
    JoinSpoiled(RawTokens(values(k)), Tokens(step, false, rendered, Normal));
  }

  lemma {:induction false} SpoiledOther(colon: bool, s: string, lex: LexState, raw: bool, step: Stepper, tokens: seq<Token>,
                                        t: Next, values: Values, k: nat)
    requires Grammar(step) && Reads(colon, s, lex, step, tokens, t) && Spoils(Apart, colon, tokens, values, k)
    requires !t.kind.Slot?
    ensures Spoiled(Tokens(step, colon, Rendered(tokens, Quoted(values), k), Actual(lex, raw)))
    decreases |s|, 0
  {
    var text, rest, more := s[..t.used], s[t.used..], tokens[1..];
    Cut(s, t.used);
    assert text[|text| - 1] == s[t.used - 1];
    if more != [] && more[0].kind.Slot? && !GlueOf(colon, tokens[0]).Apart? {
      SpoiledGlued(colon, text, rest, lex, step, tokens, t, values, k);
    } else {
      SpoilsRest(colon, tokens, values, k);
      SpoiledText(EndsInColon(text), rest, t.after, raw && lex.SingleQuote?, step, more, values, k);
      SpoiledBehind(colon, text, rest, lex, raw, step, more, t, values, k);
    }
  }

  lemma SpoiledGlued(colon: bool, text: string, rest: string, lex: LexState, step: Stepper, tokens: seq<Token>, t: Next,
                     values: Values, k: nat)
    requires Grammar(step) && text != "" && step(colon, text + rest, lex) == t && Keeps(text, t)
    requires |tokens| > 1 && tokens[0] == Token(t.kind, text) && tokens[1].kind.Slot? && !GlueOf(colon, tokens[0]).Apart?
    requires Spoils(Apart, colon, tokens, values, k)
    ensures lex.Normal? && Spoiled(Tokens(step, colon, Rendered(tokens, Quoted(values), k), lex))
  {
    assert GluedAt(step, colon, text, rest, "", lex);
    GluedSlot(colon, text, rest, lex, step, values(k), Rendered(tokens[1..][1..], Quoted(values), k + 1));
  }

  /** A token that is kept, and then a spoiled text. */
  lemma SpoiledBehind(colon: bool, text: string, rest: string, lex: LexState, raw: bool, step: Stepper, more: seq<Token>,
                      t: Next, values: Values, k: nat)
    requires Grammar(step) && text != "" && step(colon, text + rest, lex) == t && Keeps(text, t)
    requires Tokens(step, EndsInColon(text), rest, t.after) == Lexed(more)
    requires more != [] && more[0].kind.Slot? ==> GlueOf(colon, Token(t.kind, text)).Apart?
    requires Spoiled(Tokens(step, EndsInColon(text), Rendered(more, Quoted(values), k), Actual(t.after, raw && lex.SingleQuote?)))
    ensures Spoiled(Tokens(step, colon, text + Rendered(more, Quoted(values), k), Actual(lex, raw)))
  {
    var rendered, after := Rendered(more, Quoted(values), k), Actual(t.after, raw && lex.SingleQuote?);
    SameToken(colon, text, rest, lex, raw, step, more, t, values, k);
    TokensStep(colon, text, rendered, Actual(lex, raw), step, t.kind, after);
    JoinSpoiled([Token(t.kind, text)], Tokens(step, EndsInColon(text), rendered, after));
  }

  lemma SpoilsRest(colon: bool, tokens: seq<Token>, values: Values, k: nat)
    requires Spoils(Apart, colon, tokens, values, k) && !tokens[0].kind.Slot?
    requires |tokens| > 1 && tokens[1].kind.Slot? ==> GlueOf(colon, tokens[0]).Apart?
    ensures Spoils(Apart, EndsInColon(tokens[0].text), tokens[1..], values, k)
  {
  }

  /** A token that is no slot is read again, inside a raw string as well. */
  lemma SameToken(colon: bool, text: string, rest: string, lex: LexState, raw: bool, step: Stepper, more: seq<Token>, t: Next,
                  values: Values, k: nat)
    requires Grammar(step) && text != "" && step(colon, text + rest, lex) == t && Keeps(text, t)
    requires Tokens(step, EndsInColon(text), rest, t.after) == Lexed(more)
    requires more != [] && more[0].kind.Slot? ==> GlueOf(colon, Token(t.kind, text)).Apart?
    ensures step(colon, text + Rendered(more, Quoted(values), k), Actual(lex, raw))
         == Next(t.kind, |text|, Actual(t.after, raw && lex.SingleQuote?))
  {
    var rendered := Rendered(more, Quoted(values), k);
    TokensTile(step, EndsInColon(text), rest, t.after);
    RenderedLooks(EndsInColon(text), rest, t.after, step, more, values, k);
    ClearEnd(GlueOf(colon, Token(t.kind, text)), text, more, rest, values, k);
    assert StableAt(step, colon, text, rest, rendered, lex);
    assert QuoteAt(step, colon, text + rendered);
  }

  // ----- The exact condition -----

  lemma SpoiledScan(query: string, step: Stepper, values: Values)
    requires Grammar(step)
    requires var l := Tokens(step, false, query, Normal); l.Lexed? && Spoils(Apart, false, l.tokens, values, 0)
    ensures !ScansAlike(query, RawText(query, step, values), step)
  {
    var tokens := Tokens(step, false, query, Normal).tokens;
    TokensTile(step, false, query, Normal);
    SlotsRendered(query, tokens, Quoted(values));
    SpoiledText(false, query, Normal, false, step, tokens, values, 0);
    var l := Tokens(step, false, Rendered(tokens, Quoted(values), 0), Normal);
    if l.Lexed? {
      SlotsRemain(l.tokens, 0, START);
    }
  }

  /** Rendering scans alike for all values exactly when no slot directly follows a word or a lone colon. */
  lemma ClearExactly(query: string, step: Stepper)
    requires Grammar(step) && Tokens(step, false, query, Normal).Lexed?
    ensures (forall values: Values :: ScansAlike(query, RawText(query, step, values), step))
       <==> Clear(Apart, false, Tokens(step, false, query, Normal).tokens)
  {
    var tokens := Tokens(step, false, query, Normal).tokens;
    if Clear(Apart, false, tokens) {
      forall values: Values ensures ScansAlike(query, RawText(query, step, values), step) {
        RawRendering(query, step, values);
      }
    } else {
      var values: Values := (k: nat) => BACKSLASH_QUOTE;
      UnclearSpoils(Apart, false, tokens, values, 0);
      SpoiledScan(query, step, values);
    }
  }

  /** The first slot that is not clear is behind a lone colon. */
  predicate FirstByColon(glue: Glue, colon: bool, tokens: seq<Token>)
    decreases |tokens|
  {
    && tokens != []
    && if tokens[0].kind.Slot? && !glue.Apart? then glue.ByColon?
       else FirstByColon(GlueOf(colon, tokens[0]), EndsInColon(tokens[0].text), tokens[1..])
  }

  lemma {:induction false} ColonSpoils(glue: Glue, colon: bool, tokens: seq<Token>, values: Values, k: nat)
    requires FirstByColon(glue, colon, tokens)
    ensures Spoils(glue, colon, tokens, values, k)
    decreases |tokens|
  {
    if !(tokens[0].kind.Slot? && !glue.Apart?) {
      ColonSpoils(GlueOf(colon, tokens[0]), EndsInColon(tokens[0].text), tokens[1..], values,
                  if tokens[0].kind.Slot? then k + 1 else k);
    }
  }

  /** Behind a lone colon every value does harm. */
  lemma LoneColonFails(query: string, step: Stepper, values: Values)
    requires Grammar(step)
    requires var l := Tokens(step, false, query, Normal); l.Lexed? && FirstByColon(Apart, false, l.tokens)
    ensures !ScansAlike(query, RawText(query, step, values), step)
  {
    ColonSpoils(Apart, false, Tokens(step, false, query, Normal).tokens, values, 0);
    SpoiledScan(query, step, values);
  }

  // ----- Rows -----

  /** Every accepted row of strings renders to text that scans like the query. */
  ghost predicate RowsScanAlike(query: string, step: Stepper)
    requires Proper(step)
  {
    forall columns, byName, rendered :: Accepts(query, step, columns, byName, rendered) ==> ScansAlike(query, rendered, step)
  }

  ghost predicate Accepts(query: string, step: Stepper, columns: seq<Column>, byName: bool, rendered: string)
    requires Proper(step)
  {
    var l := Tokens(step, false, query, Normal);
    RowFailure(query, l, columns, byName).None? && IsRendered(query, l.tokens, columns, rendered)
  }

  function SameValue(names: seq<string>): (columns: seq<Column>)
    ensures |columns| == |names|
    ensures forall i :: 0 <= i < |names| ==> columns[i] == Column(names[i], BACKSLASH_QUOTE)
  {
    seq(|names|, i requires 0 <= i < |names| => Column(names[i], BACKSLASH_QUOTE))
  }

  lemma {:induction false} NamesDistinct(query: string, scanned: seq<ScannedSlot>)
    ensures AllDifferent(Names(query, scanned))
  {
    if scanned != [] {
      var init := scanned[..|scanned| - 1];
      NamesDistinct(query, init);
      var earlier, name := Names(query, init), NameOf(query, scanned[|scanned| - 1]);
      if name !in earlier {
        assert forall i :: 0 <= i < |earlier| ==> earlier[i] in earlier;
      }
    }
  }

  predicate AllDifferent(names: seq<string>) {
    forall i, j :: 0 <= i < j < |names| ==> names[i] != names[j]
  }

  /** A row that binds every parameter to the same value is accepted. */
  lemma NamedRowAccepted(names: seq<string>)
    requires AllDifferent(names)
    ensures BindFailure(NamedLayout(names), RawRow(SameValue(names)), true).None?
  {
    var args := RawRow(SameValue(names));
    assert forall i :: 0 <= i < |names| ==> args[i].name == names[i];
    forall n | n in names ensures n in NameSet(args) {
      var i :| 0 <= i < |names| && names[i] == n;
      assert args[i].name == n;
    }
    assert NameSet(args) == set n | n in names;
    AcceptedByName(names, args);
  }

  lemma RowExists(query: string, scanned: seq<ScannedSlot>) returns (columns: seq<Column>, byName: bool)
    ensures BindFailure(LayoutOf(query, scanned), RawRow(columns), byName).None? && !HasNul(columns)
    ensures forall i :: 0 <= i < |columns| ==> columns[i].value == BACKSLASH_QUOTE
  {
    byName := scanned != [] && scanned[0].named;
    assert '\0' !in BACKSLASH_QUOTE by {
      assert BACKSLASH_QUOTE[0] != '\0' && BACKSLASH_QUOTE[1] != '\0';
    }
    if byName {
      NamesDistinct(query, scanned);
      NamedRowAccepted(Names(query, scanned));
      columns := SameValue(Names(query, scanned));
    } else {
      columns := SameValue(seq(|scanned|, i => ""));
    }
  }

  /** For a query that compiles, all accepted rows scan alike exactly when the slots are clear. */
  lemma RowsExactly(query: string, step: Stepper)
    requires Grammar(step) && CompileFailure(Tokens(step, false, query, Normal)).None?
    ensures RowsScanAlike(query, step) <==> Clear(Apart, false, Tokens(step, false, query, Normal).tokens)
  {
    if Clear(Apart, false, Tokens(step, false, query, Normal).tokens) {
      forall columns, byName, rendered | Accepts(query, step, columns, byName, rendered)
        ensures ScansAlike(query, rendered, step)
      {
        RenderedScansAlike(query, step, columns, byName, rendered);
      }
    } else {
      SomeRowFails(query, step);
    }
  }

  lemma SomeRowFails(query: string, step: Stepper)
    requires Grammar(step) && CompileFailure(Tokens(step, false, query, Normal)).None?
    requires !Clear(Apart, false, Tokens(step, false, query, Normal).tokens)
    ensures !RowsScanAlike(query, step)
  {
    var tokens := Tokens(step, false, query, Normal).tokens;
    var scanned := Slots(tokens, 0, START);
    OrderedSlots(query, step);
    var columns, byName := RowExists(query, scanned);
    var rendered := Stitch(query, 0, scanned, SlotTexts(query, scanned, RawRow(columns)), 0);
    var values := RenderedWithValues(query, step, columns, byName, rendered);
    SlotsCounted(tokens, 0, START);
    forall k: nat | k < |scanned| ensures values(k) == BACKSLASH_QUOTE {
      var j :| 0 <= j < |columns| && values(k) == columns[j].value;
    }
    UnclearSpoils(Apart, false, tokens, values, 0);
    SpoiledScan(query, step, values);
    assert Accepts(query, step, columns, byName, rendered);
  }

  // ----- The driver's own lexer -----

  ghost predicate SqlRowsScanAlike(query: string, wide: Wide) {
    SqlIsProper(wide);
    RowsScanAlike(query, Sql(wide))
  }

  /** Accepted rows scan alike exactly when no slot directly follows a word or a lone colon. */
  lemma SqlRowsExactly(query: string, wide: Wide)
    requires CompileFailure(SqlTokens(false, query, Normal, wide)).None?
    ensures SqlRowsScanAlike(query, wide) <==> Clear(Apart, false, SqlTokens(false, query, Normal, wide).tokens)
  {
    SqlGrammar(wide);
    RowsExactly(query, Sql(wide));
  }

  ghost function SqlTokens(colon: bool, s: string, lex: LexState, wide: Wide): Lexed {
    SqlIsProper(wide);
    Tokens(Sql(wide), colon, s, lex)
  }

  ghost predicate SqlScansAlike(query: string, rendered: string, wide: Wide) {
    SqlIsProper(wide);
    ScansAlike(query, rendered, Sql(wide))
  }

  lemma SqlToken(colon: bool, text: string, rest: string, lex: LexState, wide: Wide, kind: Kind, after: LexState)
    requires text != "" && NextToken(colon, text + rest, lex, wide) == Next(kind, |text|, after)
    ensures SqlTokens(colon, text + rest, lex, wide)
         == Join([Token(kind, text)], SqlTokens(text[|text| - 1] == ':', rest, after, wide))
  {
    SqlIsProper(wide);
    TokensStep(colon, text, rest, lex, Sql(wide), kind, after);
  }

  /** A raw string without its prefix. */
  function Unprefixed(v: string): (s: string)
    ensures s != "" && s[0] == '\'' && Raw(v) == "R" + s
  {
    "'" + (Doubled(v) + "'")
  }

  /** The query `:?`: whatever the value is, the prefix of the raw string becomes the name of a new slot. */
  lemma SlotAfterColon(v: string, wide: Wide)
    ensures !SqlScansAlike(":?", ":" + Raw(v), wide)
  {
    var rest := Unprefixed(v);
    assert ":" + Raw(v) == ":R" + rest;
    NamedByPrefix(rest, wide);
    SqlToken(false, ":R", rest, Normal, wide, Slot(true), Normal);
  }

  lemma NamedByPrefix(rest: string, wide: Wide)
    requires rest != "" && rest[0] == '\''
    ensures NextToken(false, ":R" + rest, Normal, wide) == Next(Slot(true), 2, Normal)
  {
    assert (":R" + rest)[2..] == rest;
  }

  lemma {:induction false} UpperTextAt(s: string, i: nat)
    requires i < |s|
    ensures |UpperText(s)| == |s| && UpperText(s)[i] == Upper(s[i])
  {
    if |s| > 1 {
      UpperTextAt(s[1..], if i > 0 then i - 1 else 0);
    }
  }

  lemma WordToken(word: string, rest: string, wide: Wide)
    requires word != "" && IdentifierStart(word[0]) && forall i :: 0 <= i < |word| ==> IdentifierContinue(word[i])
    requires |word| >= 2 && rest != "" && !IdentifierContinue(rest[0])
    ensures NextToken(false, word + rest, Normal, wide) == Next(Word, |word|, Normal)
  {
    assert (word + rest)[1] == word[1] && (word + rest)[1..] == word[1..] + rest;
    IdentifierEnds(word[1..], rest);
  }

  lemma SelectIsReadOnly()
    ensures ReadOnlyKeyword("SELECT") && !DataChangeKeyword("SELECT") && !ReadOnlyKeyword("SELECTR")
  {
    forall i: nat | i < 6 ensures |UpperText("SELECT")| == 6 && UpperText("SELECT")[i] == "SELECT"[i] {
      UpperTextAt("SELECT", i);
    }
    assert UpperText("SELECT") == "SELECT";
    UpperTextAt("SELECTR", 0);
  }

  lemma QueryTokens(wide: Wide)
    ensures SqlTokens(false, "SELECT?", Normal, wide) == Lexed([Token(Word, "SELECT"), Token(Slot(false), "?")])
  {
    assert "SELECT" + "?" == "SELECT?" && "?" + "" == "?";
    SqlToken(false, "?", "", Normal, wide, Slot(false), Normal);
    WordToken("SELECT", "?", wide);
    SqlToken(false, "SELECT", "?", Normal, wide, Word, Normal);
  }

  /** A word that reads only, before a slot. */
  lemma ReadsOnly(word: string)
    requires ReadOnlyKeyword(word) && !DataChangeKeyword(word)
    ensures !MayModify(Fold([Token(Word, word), Token(Slot(false), "?")], START))
  {
    var c := Apply(START, Token(Word, word));
    FoldConcat([Token(Word, word)], [Token(Slot(false), "?")], START);
    assert [Token(Word, word)] + [Token(Slot(false), "?")] == [Token(Word, word), Token(Slot(false), "?")];
    assert Fold([Token(Slot(false), "?")], c) == CodeSeen(c);
  }

  /** A first word that does not read only decides the answer. */
  lemma ModifiesAnyway(word: string, rest: seq<Token>)
    requires !ReadOnlyKeyword(word)
    ensures MayModify(Fold([Token(Word, word)] + rest, START))
  {
    FoldConcat([Token(Word, word)], rest, START);
    FlagsMean(rest, Apply(START, Token(Word, word)));
  }

  /** Different answers to whether the text may modify data. */
  lemma AnswersDiffer(query: string, rendered: string, wide: Wide)
    requires var l, m := SqlTokens(false, query, Normal, wide), SqlTokens(false, rendered, Normal, wide);
             l.Lexed? && m.Lexed? ==> MayModify(Fold(l.tokens, START)) != MayModify(Fold(m.tokens, START))
    ensures !SqlScansAlike(query, rendered, wide)
  {
  }

  /** The query `SELECT?`: whatever the value is, the text no longer reads only, or does not scan. */
  lemma SlotAfterWord(v: string, wide: Wide)
    ensures !SqlScansAlike("SELECT?", "SELECT" + Raw(v), wide)
  {
    var word, rest := "SELECTR", Unprefixed(v);
    assert "SELECT" + Raw(v) == word + rest;
    WordToken(word, rest, wide);
    SqlToken(false, word, rest, Normal, wide, Word, Normal);
    QueryTokens(wide);
    SelectIsReadOnly();
    ReadsOnly("SELECT");
    Differs(word, rest, wide);
  }

  lemma Differs(word: string, rest: string, wide: Wide)
    requires word != "" && !ReadOnlyKeyword(word)
    requires var l := SqlTokens(false, "SELECT?", Normal, wide); l.Lexed? && !MayModify(Fold(l.tokens, START))
    requires SqlTokens(false, word + rest, Normal, wide)
          == Join([Token(Word, word)], SqlTokens(word[|word| - 1] == ':', rest, Normal, wide))
    ensures !SqlScansAlike("SELECT?", word + rest, wide)
  {
    var more := SqlTokens(word[|word| - 1] == ':', rest, Normal, wide);
    if more.Lexed? {
      ModifiesAnyway(word, more.tokens);
    }
    AnswersDiffer("SELECT?", word + rest, wide);
  }
}

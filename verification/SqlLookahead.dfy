/**
 How far the lexer looks ahead: what follows a token may be replaced by text that looks alike, without
 changing the token.
 */
module SqlLookahead {
  import opened SqlLexer

  // ----- Looking ahead -----

  /** A character of the query and the one in its place: the same, or the start of a slot and an R. */
  predicate Matches(a: char, b: char) {
    a == b || ((a == '?' || a == ':') && b == 'R')
  }

  predicate HeadsMatch(a: string, b: string) {
    if a == "" || b == "" then a == b else Matches(a[0], b[0])
  }

  /** The lexer looks no further than this: two characters, unless the first one is a slot. */
  predicate LooksLike(a: string, b: string) {
    HeadsMatch(a, b) && (a != "" && b != "" && a[0] == b[0] ==> HeadsMatch(a[1..], b[1..]))
  }

  // ----- The same token in the rendered text -----

  /** What a token does to a letter right behind it: a word takes it in, and a lone colon makes it a name. */
  datatype Glue = Apart | ByWord | ByColon

  /** `colon` says whether the character before the token is a colon. */
  function GlueOf(colon: bool, t: Token): Glue {
    if t.kind.Word? then ByWord else if t == Token(Code, ":") && !colon then ByColon else Apart
  }

  /** `text` ends alike in both: what follows looks alike, and is the same behind a token that takes in letters. */
  ghost predicate SameEnd(glue: Glue, text: string, a: string, b: string) {
    text != "" && LooksLike(a, b) && (a != "" && b != "" && a[0] != b[0] ==> glue.Apart?)
  }

  /** One character ahead, the two texts agree on every character that is not a slot or an R. */
  lemma SameNext(text: string, a: string, b: string, c: char)
    requires text != "" && LooksLike(a, b) && c != '?' && c != ':' && c != 'R'
    ensures At(text + a, 1, c) <==> At(text + b, 1, c)
    ensures At(text + a, 1, c) ==> (forall d :: d != '?' && d != ':' && d != 'R' ==> (At(text + a, 2, d) <==> At(text + b, 2, d)))
  {
  }

  lemma QuotedStable(text: string, a: string, b: string, quote: char, lex: LexState)
    requires text != "" && LooksLike(a, b) && quote != '?' && quote != ':' && quote != 'R'
    requires NextQuoted(text + a, quote, lex).used == |text|
    ensures NextQuoted(text + b, quote, lex) == NextQuoted(text + a, quote, lex)
  {
    SameNext(text, a, b, quote);
  }

  lemma OpeningStable(text: string, a: string, b: string)
    requires text != "" && LooksLike(a, b)
    ensures Opening(text + b) == Opening(text + a)
  {
    SameNext(text, a, b, '\'');
    SameNext(text, a, b, '&');
  }

  lemma {:induction false} IdentifierEnds(w: string, rest: string)
    requires (forall i :: 0 <= i < |w| ==> IdentifierContinue(w[i])) && (rest == "" || !IdentifierContinue(rest[0]))
    ensures IdentifierLength(w + rest) == |w|
  {
    if w == "" {
      assert w + rest == rest;
    } else {
      assert (w + rest)[1..] == w[1..] + rest;
      IdentifierEnds(w[1..], rest);
    }
  }

  lemma WordStable(text: string, a: string, b: string)
    requires SameEnd(ByWord, text, a, b) && IdentifierStart(text[0]) && 1 + IdentifierLength((text + a)[1..]) == |text|
    ensures 1 + IdentifierLength((text + b)[1..]) == |text|
  {
    var w := text[1..];
    assert (text + a)[1..] == w + a && (text + b)[1..] == w + b;
    IdentifierChars(w + a);
    assert forall i :: 0 <= i < |w| ==> w[i] == (w + a)[i];
    assert a != "" ==> (w + a)[|w|] == a[0];
    assert IdentifierContinue(text[|text| - 1]);
    IdentifierEnds(w, b);
  }

  lemma NormalStable(colon: bool, text: string, a: string, b: string, wide: Wide)
    requires text != ""
    requires var t := NextNormal(colon, text + a, wide);
             t.Next? && t.used == |text| && !t.kind.Slot? && SameEnd(GlueOf(colon, Token(t.kind, text)), text, a, b)
    ensures NextNormal(colon, text + b, wide) == NextNormal(colon, text + a, wide)
  {
    OpeningStable(text, a, b);
    SameNext(text, a, b, '-');
    SameNext(text, a, b, '*');
    if NextNormal(colon, text + a, wide).kind.Word? {
      WordStable(text, a, b);
    }
  }

  lemma TokenStable(colon: bool, text: string, a: string, b: string, lex: LexState, wide: Wide)
    requires text != ""
    requires var t := NextToken(colon, text + a, lex, wide);
             t.Next? && t.used == |text| && !t.kind.Slot? && SameEnd(GlueOf(colon, Token(t.kind, text)), text, a, b)
    ensures NextToken(colon, text + b, lex, wide) == NextToken(colon, text + a, lex, wide)
  {
    match lex {
      case Normal => NormalStable(colon, text, a, b, wide);
      case SingleQuote =>
        SameNext(text, a, b, '\'');
        QuotedStable(text, a, b, '\'', lex);
      case EscapedSingleQuote =>
        if text[0] != '\\' {
          QuotedStable(text, a, b, '\'', lex);
        }
      case RawSingleQuote => QuotedStable(text, a, b, '\'', lex);
      case DoubleQuote => QuotedStable(text, a, b, '"', lex);
      case LineComment =>
      case BlockComment => SameNext(text, a, b, '/');
    }
  }

  // ----- Slots and raw strings -----

  lemma SlotStarts(colon: bool, s: string, lex: LexState, wide: Wide)
    requires s != "" && NextToken(colon, s, lex, wide).Next? && NextToken(colon, s, lex, wide).kind.Slot?
    ensures lex.Normal? && (s[0] == '?' || s[0] == ':') && NextToken(colon, s, lex, wide).after.Normal?
    ensures s[NextToken(colon, s, lex, wide).used - 1] != ':'
  {
    if s[0] == ':' {
      IdentifierChars(s[2..]);
    }
  }

  lemma {:induction false} IdentifierChars(s: string)
    ensures forall i :: 0 <= i < IdentifierLength(s) ==> IdentifierContinue(s[i])
    ensures IdentifierLength(s) < |s| ==> !IdentifierContinue(s[IdentifierLength(s)])
  {
    if s != "" && IdentifierContinue(s[0]) {
      IdentifierChars(s[1..]);
    }
  }

  predicate NoQuote(rest: string) {
    rest == "" || rest[0] != '\''
  }

  // ----- What rendering relies on -----

  /** A slot begins with a question mark or a colon, in normal text, and does not end with a colon. */
  predicate SlotShape(s: string, lex: LexState, t: Next) {
    && lex.Normal? && s != "" && (s[0] == '?' || s[0] == ':')
    && t.Next? && t.after.Normal? && 1 <= t.used <= |s| && s[t.used - 1] != ':'
  }

  ghost predicate SlotAt(step: Stepper, colon: bool, s: string, lex: LexState) {
    s != "" && step(colon, s, lex).Next? && step(colon, s, lex).kind.Slot? ==> SlotShape(s, lex, step(colon, s, lex))
  }

  ghost predicate SlotLaw(step: Stepper) {
    forall colon, s, lex :: SlotAt(step, colon, s, lex)
  }

  predicate Keeps(text: string, t: Next) {
    t.Next? && t.used == |text| && !t.kind.Slot?
  }

  ghost function GlueAt(step: Stepper, colon: bool, text: string, a: string, lex: LexState): Glue
    requires step(colon, text + a, lex).Next?
  {
    GlueOf(colon, Token(step(colon, text + a, lex).kind, text))
  }

  ghost predicate StableAt(step: Stepper, colon: bool, text: string, a: string, b: string, lex: LexState) {
    Keeps(text, step(colon, text + a, lex)) && SameEnd(GlueAt(step, colon, text, a, lex), text, a, b)
    ==> step(colon, text + b, lex) == step(colon, text + a, lex)
  }

  ghost predicate StableLaw(step: Stepper) {
    forall colon, text, a, b, lex :: StableAt(step, colon, text, a, b, lex)
  }

  /** An R and a quote open a raw string; a quote that is not doubled closes it. */
  ghost predicate RawAt(step: Stepper, colon: bool, c: char, rest: string) {
    && step(colon, "R'" + rest, Normal) == Next(Literal, 2, RawSingleQuote)
    && step(colon, "''" + rest, RawSingleQuote) == Next(Inside, 2, RawSingleQuote)
    && (c != '\'' ==> step(colon, [c] + rest, RawSingleQuote) == Next(Inside, 1, RawSingleQuote))
    && (NoQuote(rest) ==> step(colon, "'" + rest, RawSingleQuote) == Next(Inside, 1, Normal))
  }

  ghost predicate RawLaw(step: Stepper) {
    forall colon, c, rest :: RawAt(step, colon, c, rest)
  }

  /** The same token of quoted text and of a raw string. */
  predicate SameQuoted(quoted: Next, raw: Next) {
    && quoted.Next? && (quoted.after.SingleQuote? || quoted.after.Normal?)
    && raw == Next(quoted.kind, quoted.used, if quoted.after.SingleQuote? then RawSingleQuote else Normal)
  }

  /** A letter and a quote behind a token that takes in letters: a longer word, or the name of a new slot. */
  ghost predicate GluedAt(step: Stepper, colon: bool, text: string, a: string, x: string, lex: LexState) {
    text != "" && Keeps(text, step(colon, text + a, lex)) && !GlueAt(step, colon, text, a, lex).Apart?
    ==> lex.Normal? && step(colon, text + ("R'" + x), lex)
                       == Next(if GlueAt(step, colon, text, a, lex).ByWord? then Word else Slot(true), |text| + 1, Normal)
  }

  ghost predicate GlueLaw(step: Stepper) {
    forall colon, text, a, x, lex :: GluedAt(step, colon, text, a, x, lex)
  }

  /** A quote opens quoted text, which reads like a raw string wherever it can be read. */
  ghost predicate QuoteAt(step: Stepper, colon: bool, s: string) {
    && step(colon, "'" + s, Normal) == Next(Literal, 1, SingleQuote)
    && (s != "" && step(colon, s, SingleQuote).Next? ==>
          SameQuoted(step(colon, s, SingleQuote), step(colon, s, RawSingleQuote)))
    && step(colon, "\\'" + s, SingleQuote) == Stop(BackslashQuote)
  }

  ghost predicate QuoteLaw(step: Stepper) {
    forall colon, s :: QuoteAt(step, colon, s)
  }

  ghost predicate Grammar(step: Stepper) {
    Proper(step) && SlotLaw(step) && StableLaw(step) && RawLaw(step) && QuoteLaw(step) && GlueLaw(step)
  }

  lemma SqlSlots(wide: Wide)
    ensures SlotLaw(Sql(wide))
  {
    forall colon, s, lex ensures SlotAt(Sql(wide), colon, s, lex) {
      if s != "" && Sql(wide)(colon, s, lex).Next? && Sql(wide)(colon, s, lex).kind.Slot? {
        SlotStarts(colon, s, lex, wide);
      }
    }
  }

  lemma SqlStable(wide: Wide)
    ensures StableLaw(Sql(wide))
  {
    forall colon, text, a, b, lex ensures StableAt(Sql(wide), colon, text, a, b, lex) {
      if Keeps(text, Sql(wide)(colon, text + a, lex)) && SameEnd(GlueAt(Sql(wide), colon, text, a, lex), text, a, b) {
        TokenStable(colon, text, a, b, lex, wide);
      }
    }
  }

  lemma SqlRaw(wide: Wide)
    ensures RawLaw(Sql(wide))
  {
  }

  lemma SqlQuotes(wide: Wide)
    ensures QuoteLaw(Sql(wide))
  {
  }

  lemma WordGlued(colon: bool, text: string, a: string, x: string, lex: LexState, wide: Wide)
    requires text != ""
    requires var t := NextToken(colon, text + a, lex, wide); t.Next? && t.used == |text| && t.kind.Word?
    ensures lex.Normal? && NextToken(colon, text + ("R'" + x), lex, wide) == Next(Word, |text| + 1, Normal)
  {
    var s := text + ("R'" + x);
    assert (text + a)[0] == text[0] == s[0];
    assert (text + a)[1..] == text[1..] + a;
    LongerWord(text[1..], a, x);
    assert s[1..] == (text[1..] + "R") + ("'" + x);
    assert s[1] == if |text| == 1 then 'R' else text[1..][0];
  }

  lemma LongerWord(w: string, a: string, x: string)
    requires IdentifierLength(w + a) == |w|
    ensures IdentifierLength((w + "R") + ("'" + x)) == |w| + 1 && (w != "" ==> IdentifierContinue(w[0]))
  {
    IdentifierChars(w + a);
    assert forall i :: 0 <= i < |w| ==> w[i] == (w + a)[i];
    IdentifierEnds(w + "R", "'" + x);
  }

  lemma ColonGlued(x: string, wide: Wide)
    ensures NextToken(false, ":" + ("R'" + x), Normal, wide) == Next(Slot(true), 2, Normal)
  {
    assert (":" + ("R'" + x))[2..] == "'" + x;
  }

  lemma SqlGlue(wide: Wide)
    ensures GlueLaw(Sql(wide))
  {
    forall colon, text, a, x, lex ensures GluedAt(Sql(wide), colon, text, a, x, lex) {
      if text != "" && Keeps(text, Sql(wide)(colon, text + a, lex)) {
        var glue := GlueAt(Sql(wide), colon, text, a, lex);
        if glue.ByWord? {
          WordGlued(colon, text, a, x, lex, wide);
        } else if glue.ByColon? {
          ColonGlued(x, wide);
        }
      }
    }
  }

  lemma SqlGrammar(wide: Wide)
    ensures Grammar(Sql(wide))
  {
    SqlIsProper(wide);
    SqlSlots(wide);
    SqlStable(wide);
    SqlRaw(wide);
    SqlQuotes(wide);
    SqlGlue(wide);
  }
}

/**
 Parameters rendered as raw-quoted strings.  The rendered text scans with no slots, the same number of
 statements and the same answer to whether it may modify data, when no slot directly follows a word or
 a lone colon.  Quoted text directly behind a slot becomes part of the raw string.
 */
module RawQuoting {
  import opened Wrappers
  import opened Sequences
  import opened SqlLexer
  import opened SqlLookahead
  import opened SqlScanner
  import opened QueryTemplate
  import opened TemplateRendering
  import opened RowBinding

  /** A character inside a raw string. */
  function Escaped(c: char): (s: string)
    ensures s != "" && (s[|s| - 1] == ':' <==> c == ':')
  {
    if c == '\'' then "''" else [c]
  }

  function Doubled(v: string): string {
    if v == "" then "" else Escaped(v[0]) + Doubled(v[1..])
  }

  function Raw(v: string): string {
    "R'" + (Doubled(v) + "'")
  }

  function Quoted(values: Values): Values {
    (i: nat) => Raw(values(i))
  }

  // ----- The tokens of a raw-quoted string -----

  function Insides(v: string): seq<Token> {
    if v == "" then [] else [Token(Inside, Escaped(v[0]))] + Insides(v[1..])
  }

  /** A raw string up to the token that follows its characters. */
  function RawUpTo(v: string, next: string): seq<Token> {
    [Token(Literal, "R'")] + (Insides(v) + [Token(Inside, next)])
  }

  function RawTokens(v: string): seq<Token> {
    RawUpTo(v, "'")
  }

  /** A token, when the text begins with it. */
  lemma TokensStep(colon: bool, text: string, rest: string, lex: LexState, step: Stepper, kind: Kind, after: LexState)
    requires Proper(step) && text != "" && step(colon, text + rest, lex) == Next(kind, |text|, after)
    ensures Tokens(step, colon, text + rest, lex)
         == Join([Token(kind, text)], Tokens(step, text[|text| - 1] == ':', rest, after))
  {
    After(text, rest);
  }

  lemma JoinTwice(a: seq<Token>, b: seq<Token>, l: Lexed)
    ensures Join(a, Join(b, l)) == Join(a + b, l)
  {
    if l.Lexed? {
      Assoc(a, b, l.tokens);
    }
  }

  lemma InsideStep(colon: bool, c: char, rest: string, step: Stepper)
    requires Proper(step) && RawLaw(step)
    ensures Tokens(step, colon, Escaped(c) + rest, RawSingleQuote)
         == Join([Token(Inside, Escaped(c))], Tokens(step, c == ':', rest, RawSingleQuote))
  {
    assert RawAt(step, colon, c, rest);
    TokensStep(colon, Escaped(c), rest, RawSingleQuote, step, Inside, RawSingleQuote);
  }

  lemma CloseStep(colon: bool, rest: string, step: Stepper)
    requires Proper(step) && RawLaw(step) && NoQuote(rest)
    ensures Tokens(step, colon, "'" + rest, RawSingleQuote)
         == Join([Token(Inside, "'")], Tokens(step, false, rest, Normal))
  {
    assert RawAt(step, colon, ' ', rest);
    TokensStep(colon, "'", rest, RawSingleQuote, step, Inside, Normal);
  }

  /** A lexer's answer for a raw string's inside, whatever it is for the rest. */
  type RawLexer = (bool, string) -> Lexed

  ghost predicate InsideAt(lexed: RawLexer, colon: bool, c: char, rest: string) {
    lexed(colon, Escaped(c) + rest) == Join([Token(Inside, Escaped(c))], lexed(c == ':', rest))
  }

  /** Inside a raw string doubled quotes are text. */
  lemma {:induction false} InsidesJoin(lexed: RawLexer, colon: bool, v: string, rest: string, l: Lexed)
    requires forall colon, c, rest :: InsideAt(lexed, colon, c, rest)
    requires forall colon :: lexed(colon, rest) == l
    ensures lexed(colon, Doubled(v) + rest) == Join(Insides(v), l)
    decreases |v|
  {
    if v == "" {
      Whole(rest);
      if l.Lexed? {
        Whole(l.tokens);
      }
    } else {
      var tail := Doubled(v[1..]) + rest;
      Assoc(Escaped(v[0]), Doubled(v[1..]), rest);
      assert InsideAt(lexed, colon, v[0], tail);
      InsidesJoin(lexed, v[0] == ':', v[1..], rest, l);
      JoinTwice([Token(Inside, Escaped(v[0]))], Insides(v[1..]), l);
    }
  }

  /** What follows the characters: a closing quote and the rest, or a doubled quote and more inside. */
  ghost predicate Follows(step: Stepper, next: string, rest: string, l: Lexed)
    requires Proper(step)
  {
    forall colon :: Tokens(step, colon, next + rest, RawSingleQuote) == Join([Token(Inside, next)], l)
  }

  lemma InsidesLex(colon: bool, v: string, next: string, rest: string, l: Lexed, step: Stepper)
    requires Proper(step) && RawLaw(step) && Follows(step, next, rest, l)
    ensures Tokens(step, colon, Doubled(v) + (next + rest), RawSingleQuote) == Join(Insides(v) + [Token(Inside, next)], l)
  {
    var lexed: RawLexer := (colon: bool, s: string) => Tokens(step, colon, s, RawSingleQuote);
    forall colon, c, rest ensures InsideAt(lexed, colon, c, rest) {
      InsideStep(colon, c, rest, step);
    }
    InsidesJoin(lexed, colon, v, next + rest, Join([Token(Inside, next)], l));
    JoinTwice(Insides(v), [Token(Inside, next)], l);
  }

  lemma OpenedLex(colon: bool, v: string, next: string, rest: string, l: Lexed, step: Stepper)
    requires Proper(step) && RawLaw(step) && Follows(step, next, rest, l)
    ensures Tokens(step, colon, "R'" + (Doubled(v) + (next + rest)), Normal) == Join(RawUpTo(v, next), l)
  {
    var body := Doubled(v) + (next + rest);
    assert RawAt(step, colon, ' ', body);
    TokensStep(colon, "R'", body, Normal, step, Literal, RawSingleQuote);
    InsidesLex(false, v, next, rest, l, step);
    JoinTwice([Token(Literal, "R'")], Insides(v) + [Token(Inside, next)], l);
  }

  lemma RawShape(v: string, rest: string)
    ensures Raw(v) + rest == "R'" + (Doubled(v) + ("'" + rest))
  {
    Assoc("R'", Doubled(v) + "'", rest);
    Assoc(Doubled(v), "'", rest);
  }

  /** The closing quote ends the raw string. */
  lemma RawLexes(colon: bool, v: string, rest: string, step: Stepper)
    requires Proper(step) && RawLaw(step) && NoQuote(rest)
    ensures Tokens(step, colon, Raw(v) + rest, Normal) == Join(RawTokens(v), Tokens(step, false, rest, Normal))
  {
    var l := Tokens(step, false, rest, Normal);
    forall colon ensures Tokens(step, colon, "'" + rest, RawSingleQuote) == Join([Token(Inside, "'")], l) {
      CloseStep(colon, rest, step);
    }
    RawShape(v, rest);
    OpenedLex(colon, v, "'", rest, l, step);
  }

  /** With a quote behind it, the closing quote is a doubled one and the raw string goes on. */
  lemma RawGoesOn(colon: bool, v: string, rest: string, step: Stepper)
    requires Proper(step) && RawLaw(step)
    ensures Tokens(step, colon, Raw(v) + ("'" + rest), Normal)
         == Join(RawUpTo(v, "''"), Tokens(step, false, rest, RawSingleQuote))
  {
    var l := Tokens(step, false, rest, RawSingleQuote);
    forall colon ensures Tokens(step, colon, "''" + rest, RawSingleQuote) == Join([Token(Inside, "''")], l) {
      InsideStep(colon, '\'', rest, step);
    }
    RawShape(v, "'" + rest);
    Assoc("'", "'", rest);
    assert "'" + "'" == "''";
    OpenedLex(colon, v, "''", rest, l, step);
  }

  /** Quoted text that can be read is read alike inside a raw string. */
  lemma {:induction false} QuotedIsRaw(colon: bool, s: string, step: Stepper)
    requires Proper(step) && QuoteLaw(step) && Tokens(step, colon, s, SingleQuote).Lexed?
    ensures Tokens(step, colon, s, RawSingleQuote) == Tokens(step, colon, s, SingleQuote)
    decreases |s|
  {
    var t, raw := step(colon, s, SingleQuote), step(colon, s, RawSingleQuote);
    assert QuoteAt(step, colon, s);
    var text, rest := s[..t.used], s[t.used..];
    Cut(s, t.used);
    TokensStep(colon, text, rest, SingleQuote, step, t.kind, t.after);
    TokensStep(colon, text, rest, RawSingleQuote, step, raw.kind, raw.after);
    if t.after.SingleQuote? {
      QuotedIsRaw(text[|text| - 1] == ':', rest, step);
    }
  }

  // ----- When slots may be replaced -----

  predicate EndsInColon(text: string) {
    text != "" && text[|text| - 1] == ':'
  }

  /**
   No slot directly follows a word, or a colon that no colon precedes.  `glue` is that of the token
   before the first one, and `colon` says whether it ends in a colon.
   */
  predicate Clear(glue: Glue, colon: bool, tokens: seq<Token>)
    decreases |tokens|
  {
    tokens == []
    || (&& (tokens[0].kind.Slot? ==> glue.Apart?)
        && Clear(GlueOf(colon, tokens[0]), EndsInColon(tokens[0].text), tokens[1..]))
  }

  /** What the token before token `i` does to a letter behind it. */
  function GlueBefore(glue: Glue, colon: bool, tokens: seq<Token>, i: nat): Glue
    requires i < |tokens|
  {
    if i == 0 then glue
    else GlueOf(if i == 1 then colon else EndsInColon(tokens[i - 2].text), tokens[i - 1])
  }

  /** The condition, slot by slot. */
  lemma {:induction false} ClearMeans(glue: Glue, colon: bool, tokens: seq<Token>)
    ensures Clear(glue, colon, tokens)
       <==> forall i :: 0 <= i < |tokens| && tokens[i].kind.Slot? ==> GlueBefore(glue, colon, tokens, i).Apart?
    decreases |tokens|
  {
    if tokens != [] {
      var rest, after, ends := tokens[1..], GlueOf(colon, tokens[0]), EndsInColon(tokens[0].text);
      ClearMeans(after, ends, rest);
      assert forall i :: 0 < i < |tokens| ==>
          tokens[i] == rest[i - 1] && GlueBefore(glue, colon, tokens, i) == GlueBefore(after, ends, rest, i - 1);
    }
  }

  /** Quoted text comes next. */
  predicate QuoteNext(tokens: seq<Token>) {
    tokens != [] && tokens[0] == Token(Literal, "'")
  }

  /** The tokens of the rendered text: a raw string for each slot, which takes in quoted text right behind it. */
  function Expanded(tokens: seq<Token>, values: Values, k: nat): seq<Token>
    decreases |tokens|
  {
    if tokens == [] then []
    else if tokens[0].kind.Slot? then
      if QuoteNext(tokens[1..]) then RawUpTo(values(k), "''") + Expanded(tokens[1..][1..], values, k + 1)
      else RawTokens(values(k)) + Expanded(tokens[1..], values, k + 1)
    else [tokens[0]] + Expanded(tokens[1..], values, k)
  }

  /** The first token of a text, and the text after it. */
  lemma FirstToken(colon: bool, s: string, lex: LexState, step: Stepper, tokens: seq<Token>)
    requires Proper(step) && s != "" && Tokens(step, colon, s, lex) == Lexed(tokens)
    ensures var t := step(colon, s, lex);
            && t.Next? && tokens != [] && tokens[0] == Token(t.kind, s[..t.used])
            && Tokens(step, s[t.used - 1] == ':', s[t.used..], t.after) == Lexed(tokens[1..])
  {
    var t := step(colon, s, lex);
    var rest := Tokens(step, s[t.used - 1] == ':', s[t.used..], t.after);
    After([Token(t.kind, s[..t.used])], rest.tokens);
  }

  lemma RawStarts(v: string, rest: string)
    ensures Raw(v) + rest != "" && (Raw(v) + rest)[0] == 'R'
  {
  }

  /** Rendered tokens begin like the tokens, or with an R for a slot. */
  lemma RenderedStarts(tokens: seq<Token>, values: Values, k: nat)
    requires tokens != [] && tokens[0].text != ""
    ensures var r := Rendered(tokens, Quoted(values), k);
            r != "" && r[0] == if tokens[0].kind.Slot? then 'R' else tokens[0].text[0]
  {
    if tokens[0].kind.Slot? {
      RawStarts(values(k), Rendered(tokens[1..], Quoted(values), k + 1));
    }
  }

  /** The rendered text of tokens that were lexed begins like their own. */
  lemma RenderedHead(colon: bool, s: string, lex: LexState, step: Stepper, tokens: seq<Token>, values: Values, k: nat)
    requires Proper(step) && SlotLaw(step) && Tokens(step, colon, s, lex) == Lexed(tokens)
    ensures HeadsMatch(s, Rendered(tokens, Quoted(values), k))
  {
    if s != "" {
      FirstToken(colon, s, lex, step, tokens);
      RenderedStarts(tokens, values, k);
      assert SlotAt(step, colon, s, lex);
    }
  }

  lemma RenderedLooks(colon: bool, s: string, lex: LexState, step: Stepper, tokens: seq<Token>, values: Values, k: nat)
    requires Proper(step) && SlotLaw(step) && Tokens(step, colon, s, lex) == Lexed(tokens)
    ensures LooksLike(s, Rendered(tokens, Quoted(values), k))
  {
    RenderedHead(colon, s, lex, step, tokens, values, k);
    if s != "" {
      FirstToken(colon, s, lex, step, tokens);
      var t := step(colon, s, lex);
      assert SlotAt(step, colon, s, lex);
      if t.kind.Slot? {
        RenderedStarts(tokens, values, k);
      } else {
        RenderedHead(s[t.used - 1] == ':', s[t.used..], t.after, step, tokens[1..], values, k);
        SecondChars(s, t.used, Rendered(tokens[1..], Quoted(values), k));
      }
    }
  }

  lemma SecondChars(s: string, used: nat, more: string)
    requires 1 <= used <= |s| && HeadsMatch(s[used..], more)
    ensures HeadsMatch(s[1..], (s[..used] + more)[1..])
  {
    if used == 1 {
      After(s[..1], more);
    } else {
      assert (s[..used] + more)[1..][0] == s[1];
    }
  }

  // ----- The whole text -----

  lemma ClearEnd(glue: Glue, text: string, tokens: seq<Token>, s: string, values: Values, k: nat)
    requires text != "" && (tokens != [] ==> tokens[0].text != "" && (tokens[0].kind.Slot? ==> glue.Apart?))
    requires s == Text(tokens) && LooksLike(s, Rendered(tokens, Quoted(values), k))
    ensures SameEnd(glue, text, s, Rendered(tokens, Quoted(values), k))
  {
    if tokens != [] {
      RenderedStarts(tokens, values, k);
    }
  }

  lemma RenderedNoQuote(tokens: seq<Token>, values: Values, k: nat)
    requires NoQuote(Text(tokens)) && (tokens != [] ==> tokens[0].text != "")
    ensures NoQuote(Rendered(tokens, Quoted(values), k))
  {
    if tokens != [] {
      RenderedStarts(tokens, values, k);
    }
  }

  lemma ReplacedQuotedSlot(colon: bool, more: seq<Token>, step: Stepper, values: Values, k: nat)
    requires Proper(step) && RawLaw(step) && QuoteLaw(step)
    requires Tokens(step, false, Rendered(more, Quoted(values), k + 1), SingleQuote) == Lexed(Expanded(more, values, k + 1))
    ensures Tokens(step, colon, Raw(values(k)) + ("'" + Rendered(more, Quoted(values), k + 1)), Normal)
         == Lexed(RawUpTo(values(k), "''") + Expanded(more, values, k + 1))
  {
    QuotedIsRaw(false, Rendered(more, Quoted(values), k + 1), step);
    RawGoesOn(colon, values(k), Rendered(more, Quoted(values), k + 1), step);
  }

  lemma RenderedQuotedSlot(colon: bool, lex: LexState, step: Stepper, tokens: seq<Token>, values: Values, k: nat)
    requires Proper(step) && RawLaw(step) && QuoteLaw(step) && lex.Normal?
    requires tokens != [] && tokens[0].kind.Slot? && QuoteNext(tokens[1..])
    requires Tokens(step, false, Rendered(tokens[1..][1..], Quoted(values), k + 1), SingleQuote)
          == Lexed(Expanded(tokens[1..][1..], values, k + 1))
    ensures Tokens(step, colon, Rendered(tokens, Quoted(values), k), lex) == Lexed(Expanded(tokens, values, k))
  {
    ReplacedQuotedSlot(colon, tokens[1..][1..], step, values, k);
  }

  lemma ReplacedSlot(colon: bool, more: seq<Token>, step: Stepper, values: Values, k: nat)
    requires Proper(step) && RawLaw(step) && NoQuote(Text(more)) && (more != [] ==> more[0].text != "")
    requires Tokens(step, false, Rendered(more, Quoted(values), k + 1), Normal) == Lexed(Expanded(more, values, k + 1))
    ensures Tokens(step, colon, Raw(values(k)) + Rendered(more, Quoted(values), k + 1), Normal)
         == Lexed(RawTokens(values(k)) + Expanded(more, values, k + 1))
  {
    RenderedNoQuote(more, values, k + 1);
    RawLexes(colon, values(k), Rendered(more, Quoted(values), k + 1), step);
  }

  lemma KeptToken(colon: bool, text: string, rest: string, more: seq<Token>, t: Next, lex: LexState, step: Stepper, values: Values, k: nat)
    requires Grammar(step) && text != "" && step(colon, text + rest, lex) == t && t.Next? && t.used == |text| && !t.kind.Slot?
    requires Tokens(step, text[|text| - 1] == ':', rest, t.after) == Lexed(more)
    requires Clear(GlueOf(colon, Token(t.kind, text)), text[|text| - 1] == ':', more)
    requires Tokens(step, text[|text| - 1] == ':', Rendered(more, Quoted(values), k), t.after) == Lexed(Expanded(more, values, k))
    ensures Tokens(step, colon, text + Rendered(more, Quoted(values), k), lex)
         == Lexed([Token(t.kind, text)] + Expanded(more, values, k))
  {
    var rendered := Rendered(more, Quoted(values), k);
    TokensTile(step, text[|text| - 1] == ':', rest, t.after);
    RenderedLooks(text[|text| - 1] == ':', rest, t.after, step, more, values, k);
    ClearEnd(GlueOf(colon, Token(t.kind, text)), text, more, rest, values, k);
    assert StableAt(step, colon, text, rest, rendered, lex);
    TokensStep(colon, text, rendered, lex, step, t.kind, t.after);
  }

  lemma RenderedText(colon: bool, text: string, rest: string, lex: LexState, step: Stepper, t: Next, tokens: seq<Token>,
                     values: Values, k: nat)
    requires Grammar(step) && text != "" && step(colon, text + rest, lex) == t && Keeps(text, t)
    requires tokens != [] && tokens[0] == Token(t.kind, text)
    requires Clear(GlueOf(colon, tokens[0]), text[|text| - 1] == ':', tokens[1..])
    requires Tokens(step, text[|text| - 1] == ':', rest, t.after) == Lexed(tokens[1..])
    requires Tokens(step, text[|text| - 1] == ':', Rendered(tokens[1..], Quoted(values), k), t.after)
          == Lexed(Expanded(tokens[1..], values, k))
    ensures Tokens(step, colon, Rendered(tokens, Quoted(values), k), lex) == Lexed(Expanded(tokens, values, k))
  {
    KeptToken(colon, text, rest, tokens[1..], t, lex, step, values, k);
  }

  lemma RenderedSlot(colon: bool, lex: LexState, step: Stepper, tokens: seq<Token>, values: Values, k: nat)
    requires Proper(step) && RawLaw(step) && lex.Normal?
    requires tokens != [] && tokens[0].kind.Slot? && NoQuote(Text(tokens[1..])) && (|tokens| > 1 ==> tokens[1].text != "")
    requires !QuoteNext(tokens[1..])
    requires Tokens(step, false, Rendered(tokens[1..], Quoted(values), k + 1), Normal) == Lexed(Expanded(tokens[1..], values, k + 1))
    ensures Tokens(step, colon, Rendered(tokens, Quoted(values), k), lex) == Lexed(Expanded(tokens, values, k))
  {
    ReplacedSlot(colon, tokens[1..], step, values, k);
  }

  lemma ClearRest(glue: Glue, colon: bool, s: string, used: nat, tokens: seq<Token>)
    requires tokens != [] && 1 <= used <= |s| && tokens[0].text == s[..used] && Clear(glue, colon, tokens)
    ensures Clear(GlueOf(colon, tokens[0]), s[used - 1] == ':', tokens[1..])
  {
    assert s[..used][used - 1] == s[used - 1];
  }

  /** The first token of `s` is read, and the rest renders as it should. */
  ghost predicate ReadFirst(colon: bool, s: string, lex: LexState, step: Stepper, tokens: seq<Token>, t: Next, values: Values, k: nat)
    requires Proper(step)
  {
    && s != "" && step(colon, s, lex) == t && t.Next? && 1 <= t.used <= |s|
    && tokens != [] && tokens[0] == Token(t.kind, s[..t.used])
    && Tokens(step, s[t.used - 1] == ':', s[t.used..], t.after) == Lexed(tokens[1..])
    && Tokens(step, s[t.used - 1] == ':', Rendered(tokens[1..], Quoted(values), k), t.after) == Lexed(Expanded(tokens[1..], values, k))
  }

  /** The first token of `s` is read. */
  ghost predicate Reads(colon: bool, s: string, lex: LexState, step: Stepper, tokens: seq<Token>, t: Next)
    requires Proper(step)
  {
    && s != "" && step(colon, s, lex) == t && t.Next? && 1 <= t.used <= |s|
    && tokens != [] && tokens[0] == Token(t.kind, s[..t.used])
    && Tokens(step, s[t.used - 1] == ':', s[t.used..], t.after) == Lexed(tokens[1..])
  }

  /** Behind a slot, a quote begins quoted text. */
  lemma QuoteFollows(s: string, step: Stepper, tokens: seq<Token>)
    requires Proper(step) && QuoteLaw(step) && Tokens(step, false, s, Normal) == Lexed(tokens)
    ensures QuoteNext(tokens) <==> !NoQuote(s)
    ensures QuoteNext(tokens) ==> s != "" && s[0] == '\'' && Tokens(step, false, s[1..], SingleQuote) == Lexed(tokens[1..])
  {
    if s != "" {
      FirstToken(false, s, Normal, step, tokens);
      if s[0] == '\'' {
        assert s == "'" + s[1..];
        assert QuoteAt(step, false, s[1..]);
      }
    }
  }

  /** The text behind a slot and a quote. */
  lemma BehindQuote(colon: bool, s: string, lex: LexState, step: Stepper, tokens: seq<Token>, t: Next) returns (rest: string)
    requires Grammar(step) && Reads(colon, s, lex, step, tokens, t) && t.kind.Slot? && QuoteNext(tokens[1..])
    ensures lex.Normal? && t.used < |s| && rest == s[t.used + 1..]
    ensures Tokens(step, false, rest, SingleQuote) == Lexed(tokens[1..][1..])
  {
    assert SlotAt(step, colon, s, lex);
    QuoteFollows(s[t.used..], step, tokens[1..]);
    rest := s[t.used + 1..];
    DropDrop(s, t.used, 1);
  }

  lemma ClearBehindQuote(glue: Glue, colon: bool, tokens: seq<Token>)
    requires tokens != [] && Clear(glue, colon, tokens) && tokens[0].kind.Slot? && QuoteNext(tokens[1..])
    ensures Clear(Apart, false, tokens[1..][1..])
  {
  }

  lemma QuotedSlotStep(colon: bool, s: string, lex: LexState, step: Stepper, tokens: seq<Token>, t: Next, values: Values, k: nat)
    requires Grammar(step) && s != "" && step(colon, s, lex) == t && t.Next? && t.kind.Slot?
    requires tokens != [] && tokens[0].kind.Slot? && QuoteNext(tokens[1..])
    requires Tokens(step, false, Rendered(tokens[1..][1..], Quoted(values), k + 1), SingleQuote)
          == Lexed(Expanded(tokens[1..][1..], values, k + 1))
    ensures Tokens(step, colon, Rendered(tokens, Quoted(values), k), lex) == Lexed(Expanded(tokens, values, k))
  {
    assert SlotAt(step, colon, s, lex);
    RenderedQuotedSlot(colon, lex, step, tokens, values, k);
  }

  lemma SlotStep(colon: bool, s: string, lex: LexState, step: Stepper, tokens: seq<Token>, t: Next, values: Values, k: nat)
    requires Proper(step) && SlotLaw(step) && RawLaw(step) && QuoteLaw(step) && t.Next? && t.kind.Slot?
    requires tokens != [] && !QuoteNext(tokens[1..])
    requires ReadFirst(colon, s, lex, step, tokens, t, values, k + 1)
    ensures Tokens(step, colon, Rendered(tokens, Quoted(values), k), lex) == Lexed(Expanded(tokens, values, k))
  {
    assert SlotAt(step, colon, s, lex);
    QuoteFollows(s[t.used..], step, tokens[1..]);
    TokensTile(step, false, s[t.used..], Normal);
    RenderedSlot(colon, lex, step, tokens, values, k);
  }

  lemma TextStep(glue: Glue, colon: bool, s: string, lex: LexState, step: Stepper, tokens: seq<Token>, t: Next, values: Values, k: nat)
    requires Grammar(step) && t.Next? && !t.kind.Slot? && Clear(glue, colon, tokens)
    requires ReadFirst(colon, s, lex, step, tokens, t, values, k)
    ensures Tokens(step, colon, Rendered(tokens, Quoted(values), k), lex) == Lexed(Expanded(tokens, values, k))
  {
    var text, rest := s[..t.used], s[t.used..];
    ClearRest(glue, colon, s, t.used, tokens);
    Cut(s, t.used);
    assert text[|text| - 1] == s[t.used - 1];
    RenderedText(colon, text, rest, lex, step, t, tokens, values, k);
  }

  /** The rendered text has the same tokens, with a raw-quoted string for each slot. */
  lemma {:induction false} RenderedTokens(glue: Glue, colon: bool, s: string, lex: LexState, step: Stepper, tokens: seq<Token>, values: Values,
                                          k: nat)
    requires Grammar(step) && Tokens(step, colon, s, lex) == Lexed(tokens) && Clear(glue, colon, tokens)
    ensures Tokens(step, colon, Rendered(tokens, Quoted(values), k), lex) == Lexed(Expanded(tokens, values, k))
    decreases |s|, 1
  {
    if s != "" {
      FirstToken(colon, s, lex, step, tokens);
      var t := step(colon, s, lex);
      if t.kind.Slot? && QuoteNext(tokens[1..]) {
        RenderedQuoted(glue, colon, s, lex, step, tokens, t, values, k);
      } else if t.kind.Slot? {
        RenderedSlots(glue, colon, s, lex, step, tokens, t, values, k);
      } else {
        RenderedOther(glue, colon, s, lex, step, tokens, t, values, k);
      }
    }
  }

  lemma {:induction false} RenderedQuoted(glue: Glue, colon: bool, s: string, lex: LexState, step: Stepper, tokens: seq<Token>, t: Next,
                                          values: Values, k: nat)
    requires Grammar(step) && Reads(colon, s, lex, step, tokens, t) && Clear(glue, colon, tokens)
    requires t.kind.Slot? && QuoteNext(tokens[1..])
    ensures Tokens(step, colon, Rendered(tokens, Quoted(values), k), lex) == Lexed(Expanded(tokens, values, k))
    decreases |s|, 0
  {
    var rest := BehindQuote(colon, s, lex, step, tokens, t);
    ClearBehindQuote(glue, colon, tokens);
    RenderedTokens(Apart, false, rest, SingleQuote, step, tokens[1..][1..], values, k + 1);
    QuotedSlotStep(colon, s, lex, step, tokens, t, values, k);
  }

  lemma {:induction false} RenderedSlots(glue: Glue, colon: bool, s: string, lex: LexState, step: Stepper, tokens: seq<Token>, t: Next,
                                         values: Values, k: nat)
    requires Grammar(step) && Reads(colon, s, lex, step, tokens, t) && Clear(glue, colon, tokens)
    requires t.kind.Slot? && !QuoteNext(tokens[1..])
    ensures Tokens(step, colon, Rendered(tokens, Quoted(values), k), lex) == Lexed(Expanded(tokens, values, k))
    decreases |s|, 0
  {
    ClearRest(glue, colon, s, t.used, tokens);
    RenderedTokens(GlueOf(colon, tokens[0]), s[t.used - 1] == ':', s[t.used..], t.after, step, tokens[1..], values, k + 1);
    SlotStep(colon, s, lex, step, tokens, t, values, k);
  }

  lemma {:induction false} RenderedOther(glue: Glue, colon: bool, s: string, lex: LexState, step: Stepper, tokens: seq<Token>, t: Next,
                                         values: Values, k: nat)
    requires Grammar(step) && Reads(colon, s, lex, step, tokens, t) && Clear(glue, colon, tokens) && !t.kind.Slot?
    ensures Tokens(step, colon, Rendered(tokens, Quoted(values), k), lex) == Lexed(Expanded(tokens, values, k))
    decreases |s|, 0
  {
    ClearRest(glue, colon, s, t.used, tokens);
    RenderedTokens(GlueOf(colon, tokens[0]), s[t.used - 1] == ':', s[t.used..], t.after, step, tokens[1..], values, k);
    TextStep(glue, colon, s, lex, step, tokens, t, values, k);
  }

  // ----- What the scanner makes of it -----

  lemma {:induction false} FoldInsides(v: string, c: Core)
    ensures Fold(Insides(v), c) == c
  {
    if v != "" {
      After([Token(Inside, Escaped(v[0]))], Insides(v[1..]));
      FoldInsides(v[1..], c);
    }
  }

  lemma FoldRaw(v: string, next: string, rest: seq<Token>, c: Core)
    ensures Fold(RawUpTo(v, next) + rest, c) == Fold(rest, CodeSeen(c))
  {
    var open, close := Token(Literal, "R'"), Token(Inside, next);
    FoldConcat(RawUpTo(v, next), rest, c);
    FoldConcat([open], Insides(v) + [close], c);
    FoldConcat(Insides(v), [close], CodeSeen(c));
    FoldInsides(v, CodeSeen(c));
    assert Fold([open], c) == CodeSeen(c);
    assert Fold([close], CodeSeen(c)) == CodeSeen(c);
  }

  /** Replacing slots changes nothing the scanner keeps. */
  lemma {:induction false} FoldExpanded(tokens: seq<Token>, values: Values, k: nat, c: Core)
    ensures Fold(Expanded(tokens, values, k), c) == Fold(tokens, c)
    decreases |tokens|
  {
    if tokens != [] {
      if tokens[0].kind.Slot? && QuoteNext(tokens[1..]) {
        FoldRaw(values(k), "''", Expanded(tokens[1..][1..], values, k + 1), c);
        FoldExpanded(tokens[1..][1..], values, k + 1, CodeSeen(c));
      } else if tokens[0].kind.Slot? {
        FoldRaw(values(k), "'", Expanded(tokens[1..], values, k + 1), c);
        FoldExpanded(tokens[1..], values, k + 1, CodeSeen(c));
      } else {
        FoldConcat([tokens[0]], Expanded(tokens[1..], values, k), c);
        assert Fold([tokens[0]], c) == Apply(c, tokens[0]);
        FoldExpanded(tokens[1..], values, k, Apply(c, tokens[0]));
      }
    }
  }

  predicate NoSlots(tokens: seq<Token>) {
    forall i :: 0 <= i < |tokens| ==> !tokens[i].kind.Slot?
  }

  lemma {:induction false} InsidesNoSlots(v: string)
    ensures NoSlots(Insides(v))
  {
    if v != "" {
      InsidesNoSlots(v[1..]);
    }
  }

  lemma {:induction false} ExpandedNoSlots(tokens: seq<Token>, values: Values, k: nat)
    ensures NoSlots(Expanded(tokens, values, k))
    decreases |tokens|
  {
    if tokens != [] {
      if tokens[0].kind.Slot? && QuoteNext(tokens[1..]) {
        InsidesNoSlots(values(k));
        ExpandedNoSlots(tokens[1..][1..], values, k + 1);
      } else if tokens[0].kind.Slot? {
        InsidesNoSlots(values(k));
        ExpandedNoSlots(tokens[1..], values, k + 1);
      } else {
        ExpandedNoSlots(tokens[1..], values, k);
      }
    }
  }

  lemma {:induction false} NoSlotsMeans(tokens: seq<Token>, pos: nat, c: Core)
    requires NoSlots(tokens)
    ensures Slots(tokens, pos, c) == []
  {
    if tokens != [] {
      NoSlotsMeans(tokens[1..], pos + |tokens[0].text|, Apply(c, tokens[0]));
    }
  }

  /**
   Raw-quoted values in place of the slots: the text scans, has no slots, and has the same statements and
   the same answer to whether it may modify data.
   */
  lemma RawRendering(query: string, step: Stepper, values: Values)
    requires Grammar(step)
    requires var l := Tokens(step, false, query, Normal); l.Lexed? && Clear(Apart, false, l.tokens)
    ensures var tokens := Tokens(step, false, query, Normal).tokens;
            var slots := Slots(tokens, 0, START);
            && Ordered(slots, 0, |query|)
            && var l := Tokens(step, false, Stitch(query, 0, slots, Quoted(values), 0), Normal);
               l.Lexed? && Slots(l.tokens, 0, START) == [] && Fold(l.tokens, START) == Fold(tokens, START)
  {
    var tokens := Tokens(step, false, query, Normal).tokens;
    TokensTile(step, false, query, Normal);
    SlotsRendered(query, tokens, Quoted(values));
    RenderedTokens(Apart, false, query, Normal, step, tokens, values, 0);
    FoldExpanded(tokens, values, 0, START);
    ExpandedNoSlots(tokens, values, 0);
    NoSlotsMeans(Expanded(tokens, values, 0), 0, START);
  }

  // ----- Binding a row of strings -----

  /** A text column of the bound row. */
  datatype Column = Column(name: string, value: string)

  datatype RowError = NotCompiled(compile: CompileError) | NulByte | NotBound(bind: BindError)

  predicate HasNul(columns: seq<Column>) {
    exists i :: 0 <= i < |columns| && '\0' in columns[i].value
  }

  function RawRow(columns: seq<Column>): (args: seq<Argument>)
    ensures |args| == |columns|
  {
    seq(|columns|, i requires 0 <= i < |columns| => Argument(columns[i].name, Raw(columns[i].value), Raw(columns[i].value)))
  }

  ghost function RowFailure(query: string, l: Lexed, columns: seq<Column>, byName: bool): Option<RowError> {
    var compile := CompileFailure(l);
    if compile.Some? then Some(NotCompiled(compile.value))
    else if HasNul(columns) then Some(NulByte)
    else
      var bind := BindFailure(LayoutOf(query, Slots(l.tokens, 0, START)), RawRow(columns), byName);
      if bind.Some? then Some(NotBound(bind.value)) else None
  }

  /** The rendered text scans like the query, but without slots. */
  ghost predicate ScansAlike(query: string, rendered: string, step: Stepper)
    requires Proper(step)
  {
    var l, m := Tokens(step, false, query, Normal), Tokens(step, false, rendered, Normal);
    && l.Lexed? && m.Lexed? && Slots(m.tokens, 0, START) == []
    && Finish(Fold(m.tokens, START)).statements == Finish(Fold(l.tokens, START)).statements
    && MayModify(Fold(m.tokens, START)) == MayModify(Fold(l.tokens, START))
  }

  /** The query with each slot replaced by the raw-quoted value that is bound to it. */
  ghost predicate IsRendered(query: string, tokens: seq<Token>, columns: seq<Column>, rendered: string) {
    var scanned := Slots(tokens, 0, START);
    && Ordered(scanned, 0, |query|)
    && rendered == Stitch(query, 0, scanned, SlotTexts(query, scanned, RawRow(columns)), 0)
  }

  /** The outcome of binding a row: the first failure, or the rendered text. */
  ghost predicate Bound(query: string, columns: seq<Column>, byName: bool, step: Stepper, r: Result<string, RowError>)
    requires Proper(step)
  {
    var l := Tokens(step, false, query, Normal);
    var failure := RowFailure(query, l, columns, byName);
    if failure.Some? then r == Err(failure.value)
    else r.Ok? && IsRendered(query, l.tokens, columns, r.value) && (Clear(Apart, false, l.tokens) ==> ScansAlike(query, r.value, step))
  }

  lemma {:induction false} StitchAgrees(query: string, from: nat, slots: seq<ScannedSlot>, a: Values, b: Values, k: nat)
    requires Ordered(slots, from, |query|) && forall i :: k <= i < k + |slots| ==> a(i) == b(i)
    ensures Stitch(query, from, slots, a, k) == Stitch(query, from, slots, b, k)
    decreases |slots|
  {
    if slots != [] {
      StitchAgrees(query, slots[0].end, slots[1..], a, b, k + 1);
    }
  }

  /** The value that is bound to slot `k`. */
  function BoundValue(query: string, scanned: seq<ScannedSlot>, columns: seq<Column>, k: nat): string {
    if k < |scanned| then
      var j := if scanned[k].named then Find(RawRow(columns), NameOf(query, scanned[k])) else k;
      if j < |columns| then columns[j].value else ""
    else ""
  }

  /** Every slot of an accepted row is bound. */
  lemma SlotIsBound(query: string, scanned: seq<ScannedSlot>, columns: seq<Column>, byName: bool, k: nat)
    requires BindFailure(LayoutOf(query, scanned), RawRow(columns), byName).None?
    requires (AllNamed(scanned) || AllPositional(scanned)) && k < |scanned|
    ensures SlotText(query, scanned, RawRow(columns), k) == Raw(BoundValue(query, scanned, columns, k))
    ensures exists j :: 0 <= j < |columns| && BoundValue(query, scanned, columns, k) == columns[j].value
  {
    var args := RawRow(columns);
    if scanned[k].named {
      NameListed(query, scanned, k);
      var names := Names(query, scanned);
      var i :| 0 <= i < |names| && names[i] == NameOf(query, scanned[k]);
      assert Supplied(args, names[i]);
    }
  }

  lemma {:induction false} NameListed(query: string, scanned: seq<ScannedSlot>, k: nat)
    requires k < |scanned|
    ensures NameOf(query, scanned[k]) in Names(query, scanned)
    decreases |scanned|
  {
    if k < |scanned| - 1 {
      NameListed(query, scanned[..|scanned| - 1], k);
    }
  }

  lemma RenderedScansAlike(query: string, step: Stepper, columns: seq<Column>, byName: bool, rendered: string)
    requires Grammar(step)
    requires var l := Tokens(step, false, query, Normal);
             && RowFailure(query, l, columns, byName).None? && Clear(Apart, false, l.tokens)
             && IsRendered(query, l.tokens, columns, rendered)
    ensures ScansAlike(query, rendered, step)
  {
    var values := RenderedWithValues(query, step, columns, byName, rendered);
    RawRendering(query, step, values);
  }

  /** The query with its slots replaced by raw-quoted values. */
  ghost function RawText(query: string, step: Stepper, values: Values): string
    requires Proper(step) && Tokens(step, false, query, Normal).Lexed?
  {
    OrderedSlots(query, step);
    Stitch(query, 0, Slots(Tokens(step, false, query, Normal).tokens, 0, START), Quoted(values), 0)
  }

  /** What an accepted row renders to is what its values render to. */
  lemma RenderedWithValues(query: string, step: Stepper, columns: seq<Column>, byName: bool, rendered: string)
    returns (values: Values)
    requires Proper(step)
    requires var l := Tokens(step, false, query, Normal);
             RowFailure(query, l, columns, byName).None? && IsRendered(query, l.tokens, columns, rendered)
    ensures rendered == RawText(query, step, values)
    ensures forall k: nat :: k < |Slots(Tokens(step, false, query, Normal).tokens, 0, START)| ==>
              exists j :: 0 <= j < |columns| && values(k) == columns[j].value
  {
    var scanned := Slots(Tokens(step, false, query, Normal).tokens, 0, START);
    var texts: Values := SlotTexts(query, scanned, RawRow(columns));
    values := (k: nat) => BoundValue(query, scanned, columns, k);
    forall k: nat | k < |scanned|
      ensures texts(k) == Quoted(values)(k) && exists j :: 0 <= j < |columns| && values(k) == columns[j].value
    {
      SlotIsBound(query, scanned, columns, byName, k);
    }
    StitchAgrees(query, 0, scanned, texts, Quoted(values), 0);
  }

  method AnyNul(columns: seq<Column>) returns (nul: bool)
    ensures nul <==> HasNul(columns)
  {
    for i := 0 to |columns|
      invariant forall k :: 0 <= k < i ==> '\0' !in columns[k].value
    {
      if '\0' in columns[i].value {
        return true;
      }
    }
    nul := false;
  }

  /** Compiles a query and binds a row of strings to it. */
  method BindRaw(query: string, step: Stepper, columns: seq<Column>, byName: bool) returns (r: Result<string, RowError>)
    requires Grammar(step)
    ensures Bound(query, columns, byName, step, r)
  {
    var compiled := CompileQuery(query, step);
    if compiled.Err? {
      return Err(NotCompiled(compiled.error));
    }
    var nul := AnyNul(columns);
    if nul {
      return Err(NulByte);
    }
    r := BindCompiled(query, step, compiled.value, columns, byName);
  }

  method BindCompiled(query: string, step: Stepper, t: Template, columns: seq<Column>, byName: bool)
    returns (r: Result<string, RowError>)
    requires Grammar(step) && !HasNul(columns)
    requires var l := Tokens(step, false, query, Normal);
             CompileFailure(l).None? && IsTemplate(query, Slots(l.tokens, 0, START), t)
    ensures Bound(query, columns, byName, step, r)
  {
    ghost var scanned := Slots(Tokens(step, false, query, Normal).tokens, 0, START);
    OrderedSlots(query, step);
    LayoutIsOf(query, scanned, t);
    var bound := RenderRow(t, RawRow(columns), byName, scanned);
    r := if bound.Ok? then Ok(bound.value) else Err(NotBound(bound.error));
    BoundAsRendered(query, step, columns, byName, bound);
  }

  lemma OrderedSlots(query: string, step: Stepper)
    requires Proper(step) && Tokens(step, false, query, Normal).Lexed?
    ensures Ordered(Slots(Tokens(step, false, query, Normal).tokens, 0, START), 0, |query|)
  {
    TokensTile(step, false, query, Normal);
    SlotsInText(query, Tokens(step, false, query, Normal).tokens);
  }

  lemma SlotsInText(query: string, tokens: seq<Token>)
    requires Text(tokens) == query && forall i :: 0 <= i < |tokens| ==> tokens[i].text != ""
    ensures Ordered(Slots(tokens, 0, START), 0, |query|)
  {
    SlotsOrdered(tokens, 0, START);
  }

  /** What rendering the row gave is the outcome of binding it. */
  lemma BoundAsRendered(query: string, step: Stepper, columns: seq<Column>, byName: bool, bound: Result<string, BindError>)
    requires Grammar(step) && !HasNul(columns) && CompileFailure(Tokens(step, false, query, Normal)).None?
    requires var scanned := Slots(Tokens(step, false, query, Normal).tokens, 0, START);
             var failure := BindFailure(LayoutOf(query, scanned), RawRow(columns), byName);
             && Ordered(scanned, 0, |query|)
             && bound == if failure.Some? then Err(failure.value)
                         else Ok(Stitch(query, 0, scanned, SlotTexts(query, scanned, RawRow(columns)), 0))
    ensures Bound(query, columns, byName, step, if bound.Ok? then Ok(bound.value) else Err(NotBound(bound.error)))
  {
    if bound.Ok? && Clear(Apart, false, Tokens(step, false, query, Normal).tokens) {
      RenderedScansAlike(query, step, columns, byName, bound.value);
    }
  }

  ghost predicate SqlBound(query: string, columns: seq<Column>, byName: bool, wide: Wide, r: Result<string, RowError>) {
    SqlIsProper(wide);
    Bound(query, columns, byName, Sql(wide), r)
  }

  /** The same for the driver's own lexer. */
  method BindSql(query: string, wide: Wide, columns: seq<Column>, byName: bool) returns (r: Result<string, RowError>)
    ensures SqlBound(query, columns, byName, wide, r)
  {
    SqlGrammar(wide);
    r := BindRaw(query, Sql(wide), columns, byName);
  }
}

/**
 The lexical side of the SQL scanner: words, parameter slots, quoted text and comments, one token at a
 time.  Text is a sequence of characters; `wide` says which non-ASCII characters are alphanumeric.
 */
module SqlLexer {
  import opened Sequences

  datatype LexState =
    | Normal | SingleQuote | EscapedSingleQuote | RawSingleQuote | DoubleQuote | LineComment | BlockComment

  /** What a token means to the statement scanner. */
  datatype Kind = Semicolon | Blank | Slot(named: bool) | Literal | Word | Code | Inside

  datatype Token = Token(kind: Kind, text: string)

  datatype LexError = NonAsciiName | BackslashQuote | Unterminated

  /** The next token, its length and the state after it. */
  datatype Next = Next(kind: Kind, used: nat, after: LexState) | Stop(error: LexError)

  type Wide = char -> bool

  predicate IdentifierStart(c: char) {
    'a' <= c <= 'z' || 'A' <= c <= 'Z' || c == '_'
  }

  predicate IdentifierContinue(c: char) {
    IdentifierStart(c) || '0' <= c <= '9'
  }

  predicate WhiteSpace(c: char) {
    c == ' ' || c == '\t' || c == '\n' || c == '\r' || c == '\U{0C}'
  }

  /** How many identifier characters `s` begins with. */
  function IdentifierLength(s: string): (n: nat)
    ensures n <= |s|
  {
    if s == "" || !IdentifierContinue(s[0]) then 0 else 1 + IdentifierLength(s[1..])
  }

  predicate At(s: string, i: nat, c: char) {
    i < |s| && s[i] == c
  }

  // ----- One token -----

  function NamedSlot(s: string, wide: Wide): (t: Next)
    requires |s| >= 2
    ensures t.Next? ==> 2 <= t.used <= |s| && t.kind.Slot? && t.after.Normal?
  {
    var end := 2 + IdentifierLength(s[2..]);
    if end < |s| && s[end] > '\U{7F}' && wide(s[end]) then Stop(NonAsciiName) else Next(Slot(true), end, Normal)
  }

  /** Quoted text that the next characters open, if they do. */
  function Opening(s: string): (t: Next)
    requires s != ""
    ensures t.Next? ==> 1 <= t.used <= |s| && t.kind.Literal?
  {
    var c := s[0];
    if (c == 'r' || c == 'R' || c == 'x' || c == 'X') && At(s, 1, '\'') then Next(Literal, 2, RawSingleQuote)
    else if (c == 'e' || c == 'E') && At(s, 1, '\'') then Next(Literal, 2, EscapedSingleQuote)
    else if (c == 'u' || c == 'U') && At(s, 1, '&') && At(s, 2, '\'') then Next(Literal, 3, RawSingleQuote)
    else if (c == 'u' || c == 'U') && At(s, 1, '&') && At(s, 2, '"') then Next(Literal, 3, DoubleQuote)
    else if c == '\'' then Next(Literal, 1, SingleQuote)
    else if c == '"' then Next(Literal, 1, DoubleQuote)
    else Stop(Unterminated)
  }

  function NextNormal(colon: bool, s: string, wide: Wide): (t: Next)
    requires s != ""
    ensures t.Next? ==> 1 <= t.used <= |s|
  {
    var c := s[0];
    if c == ';' then Next(Semicolon, 1, Normal)
    else if WhiteSpace(c) then Next(Blank, 1, Normal)
    else if c == '-' && At(s, 1, '-') then Next(Blank, 2, LineComment)
    else if c == '#' then Next(Blank, 1, LineComment)
    else if c == '/' && At(s, 1, '*') then Next(Blank, 2, BlockComment)
    else if c == '?' then Next(Slot(false), 1, Normal)
    else if c == ':' && |s| > 1 && IdentifierStart(s[1]) && !colon then NamedSlot(s, wide)
    else if Opening(s).Next? then Opening(s)
    else if IdentifierStart(c) then Next(Word, 1 + IdentifierLength(s[1..]), Normal)
    else Next(Code, 1, Normal)
  }

  /** A quote ends the text unless it is doubled. */
  function NextQuoted(s: string, quote: char, lex: LexState): (t: Next)
    requires s != ""
    ensures t.Next? && 1 <= t.used <= |s| && t.kind.Inside?
  {
    if s[0] != quote then Next(Inside, 1, lex)
    else if At(s, 1, quote) then Next(Inside, 2, lex)
    else Next(Inside, 1, Normal)
  }

  /** `colon` says whether the character before is a colon. */
  function NextToken(colon: bool, s: string, lex: LexState, wide: Wide): (t: Next)
    requires s != ""
    ensures t.Next? ==> 1 <= t.used <= |s|
  {
    match lex
    case Normal => NextNormal(colon, s, wide)
    case SingleQuote =>
      if s[0] == '\\' && At(s, 1, '\'') then Stop(BackslashQuote) else NextQuoted(s, '\'', lex)
    case EscapedSingleQuote =>
      if s[0] == '\\' then Next(Inside, if |s| > 1 then 2 else 1, lex) else NextQuoted(s, '\'', lex)
    case RawSingleQuote => NextQuoted(s, '\'', lex)
    case DoubleQuote => NextQuoted(s, '"', lex)
    case LineComment => Next(Inside, 1, if s[0] == '\n' then Normal else LineComment)
    case BlockComment =>
      if s[0] == '*' && At(s, 1, '/') then Next(Inside, 2, Normal) else Next(Inside, 1, BlockComment)
  }

  // ----- All tokens -----

  /** A way to read the next token: whether a colon comes before, the rest of the text, and the state. */
  type Stepper = (bool, string, LexState) -> Next

  ghost predicate Proper(step: Stepper) {
    forall colon, s, lex :: s != "" && step(colon, s, lex).Next? ==> 1 <= step(colon, s, lex).used <= |s|
  }

  /** The tokens of SQL. */
  function Sql(wide: Wide): Stepper {
    (colon: bool, s: string, lex: LexState) => if s == "" then Stop(Unterminated) else NextToken(colon, s, lex, wide)
  }

  lemma SqlIsProper(wide: Wide)
    ensures Proper(Sql(wide))
  {
  }

  datatype Lexed = Lexed(tokens: seq<Token>) | LexFailed(error: LexError)

  ghost function Tokens(step: Stepper, colon: bool, s: string, lex: LexState): Lexed
    requires Proper(step)
    decreases |s|
  {
    if s == "" then (if lex.Normal? || lex.LineComment? then Lexed([]) else LexFailed(Unterminated))
    else
      var t := step(colon, s, lex);
      if t.Stop? then LexFailed(t.error)
      else
        var rest := Tokens(step, s[t.used - 1] == ':', s[t.used..], t.after);
        if rest.LexFailed? then rest else Lexed([Token(t.kind, s[..t.used])] + rest.tokens)
  }

  function Text(tokens: seq<Token>): string {
    if tokens == [] then "" else tokens[0].text + Text(tokens[1..])
  }

  /** The tokens tile the text, and none is empty. */
  lemma {:induction false} TokensTile(step: Stepper, colon: bool, s: string, lex: LexState)
    requires Proper(step)
    ensures var l := Tokens(step, colon, s, lex);
            l.Lexed? ==> Text(l.tokens) == s && forall i :: 0 <= i < |l.tokens| ==> l.tokens[i].text != ""
    decreases |s|
  {
    var l := Tokens(step, colon, s, lex);
    if s != "" && l.Lexed? {
      var t := step(colon, s, lex);
      TokensTile(step, s[t.used - 1] == ':', s[t.used..], t.after);
      Cut(s, t.used);
    }
  }
}

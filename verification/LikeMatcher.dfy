/** The driver's own evaluation of metadata LIKE patterns. */
module LikeMatcher {
  import opened Wrappers

  datatype Token = Many | One | Literal(c: char)

  predicate Escapable(c: char) {
    c == '%' || c == '_' || c == '\\'
  }

  /** The tokens of a pattern; none when an escape is dangling or escapes an ordinary character. */
  function Tokens(pattern: string): Option<seq<Token>> {
    if pattern == "" then Some([])
    else if pattern[0] == '\\' then
      if |pattern| >= 2 && Escapable(pattern[1]) then Prepend(Literal(pattern[1]), Tokens(pattern[2..])) else None
    else Prepend(Plain(pattern[0]), Tokens(pattern[1..]))
  }

  function Plain(c: char): Token {
    if c == '%' then Many else if c == '_' then One else Literal(c)
  }

  function Prepend(t: Token, rest: Option<seq<Token>>): Option<seq<Token>> {
    if rest.Some? then Some([t] + rest.value) else None
  }

  /** What a token list means: `Many` stands for any run of characters, `One` for any one. */
  ghost predicate Matches(tokens: seq<Token>, value: string) {
    if tokens == [] then value == ""
    else match tokens[0]
         case Many => exists k :: 0 <= k <= |value| && Matches(tokens[1..], value[k..])
         case One => value != "" && Matches(tokens[1..], value[1..])
         case Literal(c) => value != "" && value[0] == c && Matches(tokens[1..], value[1..])
  }

  // ----- Segments without Many -----

  predicate Fixed(segment: seq<Token>) {
    forall i :: 0 <= i < |segment| ==> !segment[i].Many?
  }

  predicate Fits(segment: seq<Token>, value: string) {
    |segment| == |value| && forall i :: 0 <= i < |segment| ==> segment[i] == One || segment[i] == Literal(value[i])
  }

  lemma {:induction false} FixedConsumes(segment: seq<Token>, rest: seq<Token>, value: string)
    requires Fixed(segment)
    ensures Matches(segment + rest, value) <==>
            |segment| <= |value| && Fits(segment, value[..|segment|]) && Matches(rest, value[|segment|..])
  {
    if segment == [] {
      assert segment + rest == rest && value[0..] == value;
    } else {
      assert (segment + rest)[0] == segment[0] && (segment + rest)[1..] == segment[1..] + rest;
      if value != "" {
        FixedConsumes(segment[1..], rest, value[1..]);
        var n := |segment|;
        if n <= |value| {
          assert value[1..][n - 1..] == value[n..] && value[..n][1..] == value[1..][..n - 1];
          assert Fits(segment, value[..n]) <==>
                 (segment[0] == One || segment[0] == Literal(value[0])) && Fits(segment[1..], value[1..][..n - 1])
          by {
            assert segment == [segment[0]] + segment[1..] && value[..n] == [value[0]] + value[1..][..n - 1];
          }
        }
      }
    }
  }

  lemma {:induction false} EmptyMatch(tokens: seq<Token>)
    ensures Matches(tokens, "") <==> forall i :: 0 <= i < |tokens| ==> tokens[i].Many?
  {
    if tokens != [] {
      EmptyMatch(tokens[1..]);
      assert tokens == [tokens[0]] + tokens[1..];
      if tokens[0].Many? {
        assert ""[0..] == "";
      }
    }
  }

  /** Some suffix starting at `from` or later matches. */
  ghost predicate MatchesFrom(tokens: seq<Token>, value: string, from: nat) {
    exists k :: from <= k <= |value| && Matches(tokens, value[k..])
  }

  lemma ManyMeansFrom(tokens: seq<Token>, token: nat, value: string, at: nat)
    requires token < |tokens| && tokens[token].Many? && at <= |value|
    ensures Matches(tokens[token..], value[at..]) <==> MatchesFrom(tokens[token + 1..], value, at)
  {
    var rest := tokens[token + 1..];
    assert tokens[token..][1..] == rest;
    if Matches(tokens[token..], value[at..]) {
      var k :| 0 <= k <= |value[at..]| && Matches(rest, value[at..][k..]);
      assert value[at..][k..] == value[at + k..];
    }
    if MatchesFrom(rest, value, at) {
      var k :| at <= k <= |value| && Matches(rest, value[k..]);
      assert value[at..][k - at..] == value[k..];
    }
  }

  // ----- The matcher's search state -----

  /** After the last `%` at `star`, the tokens up to `token` fit the characters from `retry` on. */
  ghost predicate Scanned(tokens: seq<Token>, value: string, star: nat, retry: nat, token: nat, at: nat) {
    && star < token <= |tokens| && retry <= at <= |value| && token - (star + 1) == at - retry
    && Fixed(tokens[star + 1..token]) && Fits(tokens[star + 1..token], value[retry..at])
  }

  lemma ScannedSplits(tokens: seq<Token>, value: string, star: nat, retry: nat, token: nat, at: nat, k: nat)
    requires Scanned(tokens, value, star, retry, token, at) && k <= |value|
    ensures var n := token - (star + 1);
            Matches(tokens[star + 1..], value[k..]) <==>
            k + n <= |value| && Fits(tokens[star + 1..token], value[k..k + n]) && Matches(tokens[token..], value[k + n..])
  {
    var segment, n := tokens[star + 1..token], token - (star + 1);
    assert tokens[star + 1..] == segment + tokens[token..];
    FixedConsumes(segment, tokens[token..], value[k..]);
    if k + n <= |value| {
      assert value[k..][..n] == value[k..k + n] && value[k..][n..] == value[k + n..];
    }
  }

  lemma ScannedStep(tokens: seq<Token>, value: string, star: nat, retry: nat, token: nat, at: nat)
    requires Scanned(tokens, value, star, retry, token, at) && token < |tokens| && at < |value|
    requires tokens[token] == One || tokens[token] == Literal(value[at])
    ensures Scanned(tokens, value, star, retry, token + 1, at + 1)
  {
    assert tokens[star + 1..token + 1] == tokens[star + 1..token] + [tokens[token]];
    assert value[retry..at + 1] == value[retry..at] + [value[at]];
  }

  lemma HeadStep(tokens: seq<Token>, value: string, token: nat, at: nat)
    requires token < |tokens| && at < |value|
    requires tokens[token] == One || tokens[token] == Literal(value[at])
    ensures Matches(tokens[token..], value[at..]) <==> Matches(tokens[token + 1..], value[at + 1..])
  {
    assert tokens[token..][1..] == tokens[token + 1..] && value[at..][1..] == value[at + 1..];
  }

  /** A new `%` makes every later retry of the previous one pointless. */
  lemma NewStar(tokens: seq<Token>, value: string, star: nat, retry: nat, token: nat, at: nat)
    requires Scanned(tokens, value, star, retry, token, at) && token < |tokens| && tokens[token].Many?
    ensures MatchesFrom(tokens[star + 1..], value, retry) <==> MatchesFrom(tokens[token + 1..], value, at)
  {
    var n := token - (star + 1);
    if MatchesFrom(tokens[star + 1..], value, retry) {
      var k :| retry <= k <= |value| && Matches(tokens[star + 1..], value[k..]);
      ScannedSplits(tokens, value, star, retry, token, at, k);
      ManyMeansFrom(tokens, token, value, k + n);
    }
    if MatchesFrom(tokens[token + 1..], value, at) {
      ManyMeansFrom(tokens, token, value, at);
      ScannedSplits(tokens, value, star, retry, token, at, retry);
    }
  }

  /** When the next token cannot take the next character, this retry is spent. */
  lemma Mismatch(tokens: seq<Token>, value: string, star: nat, retry: nat, token: nat, at: nat)
    requires Scanned(tokens, value, star, retry, token, at) && at < |value|
    requires token < |tokens| ==> tokens[token].Literal? && tokens[token].c != value[at]
    ensures MatchesFrom(tokens[star + 1..], value, retry) <==> MatchesFrom(tokens[star + 1..], value, retry + 1)
  {
    ScannedSplits(tokens, value, star, retry, token, at, retry);
    assert value[at..] != "" && value[at..][0] == value[at];
    assert token < |tokens| ==> tokens[token..][0] == tokens[token];
  }

  /** At the end of the value only this retry is long enough. */
  lemma AtEnd(tokens: seq<Token>, value: string, star: nat, retry: nat, token: nat)
    requires Scanned(tokens, value, star, retry, token, |value|)
    ensures MatchesFrom(tokens[star + 1..], value, retry) <==> Matches(tokens[token..], "")
  {
    forall k | retry <= k <= |value| && Matches(tokens[star + 1..], value[k..]) ensures Matches(tokens[token..], "") {
      ScannedSplits(tokens, value, star, retry, token, |value|, k);
      assert value[|value|..] == "";
    }
    ScannedSplits(tokens, value, star, retry, token, |value|, retry);
    assert value[|value|..] == "";
  }

  // ----- The methods -----

  method ValidateLikePattern(pattern: string) returns (ok: bool)
    ensures ok <==> Tokens(pattern).Some?
  {
    var index := 0;
    while index < |pattern|
      invariant 0 <= index <= |pattern|
      invariant Tokens(pattern).Some? <==> Tokens(pattern[index..]).Some?
    {
      assert pattern[index..][1..] == pattern[index + 1..];
      if pattern[index] == '\\' {
        if index + 1 == |pattern| || !Escapable(pattern[index + 1]) {
          return false;
        }
        assert pattern[index..][2..] == pattern[index + 2..];
        index := index + 2;
      } else {
        index := index + 1;
      }
    }
    ok := true;
  }

  method Tokenize(pattern: string) returns (tokens: seq<Token>)
    requires Tokens(pattern).Some?
    ensures Tokens(pattern) == Some(tokens)
  {
    tokens := [];
    var index := 0;
    while index < |pattern|
      invariant 0 <= index <= |pattern| && Tokens(pattern[index..]).Some?
      invariant tokens + Tokens(pattern[index..]).value == Tokens(pattern).value
    {
      ghost var rest := Tokens(pattern[index..]).value;
      assert pattern[index..][1..] == pattern[index + 1..];
      if pattern[index] == '\\' {
        assert pattern[index..][2..] == pattern[index + 2..];
        TokenMoved(tokens, rest, Literal(pattern[index + 1]), Tokens(pattern[index + 2..]).value);
        tokens := tokens + [Literal(pattern[index + 1])];
        index := index + 2;
      } else {
        TokenMoved(tokens, rest, Plain(pattern[index]), Tokens(pattern[index + 1..]).value);
        tokens := tokens + [Plain(pattern[index])];
        index := index + 1;
      }
    }
    assert pattern[index..] == "" && tokens + [] == tokens;
  }

  lemma TokenMoved(so: seq<Token>, rest: seq<Token>, t: Token, rest': seq<Token>)
    requires rest == [t] + rest'
    ensures (so + [t]) + rest' == so + rest
  {
  }

  /** The whole question is still open exactly in the current position and the retries left. */
  ghost predicate Searching(tokens: seq<Token>, value: string, star: Option<nat>, retry: nat, token: nat, at: nat) {
    && token <= |tokens| && retry <= at <= |value|
    && match star
       case None => Matches(tokens, value) <==> Matches(tokens[token..], value[at..])
       case Some(s) =>
         && Scanned(tokens, value, s, retry, token, at)
         && (Matches(tokens, value) <==> MatchesFrom(tokens[s + 1..], value, retry))
  }

  lemma SearchStep(tokens: seq<Token>, value: string, star: Option<nat>, retry: nat, token: nat, at: nat)
    requires Searching(tokens, value, star, retry, token, at) && token < |tokens| && at < |value|
    requires tokens[token] == One || tokens[token] == Literal(value[at])
    ensures Searching(tokens, value, star, retry, token + 1, at + 1)
  {
    if star.Some? {
      ScannedStep(tokens, value, star.value, retry, token, at);
    } else {
      HeadStep(tokens, value, token, at);
    }
  }

  lemma SearchStar(tokens: seq<Token>, value: string, star: Option<nat>, retry: nat, token: nat, at: nat)
    requires Searching(tokens, value, star, retry, token, at) && token < |tokens| && tokens[token].Many?
    ensures Searching(tokens, value, Some(token), at, token + 1, at)
  {
    if star.Some? {
      NewStar(tokens, value, star.value, retry, token, at);
    } else {
      ManyMeansFrom(tokens, token, value, at);
    }
  }

  lemma SearchRetry(tokens: seq<Token>, value: string, star: nat, retry: nat, token: nat, at: nat)
    requires Searching(tokens, value, Some(star), retry, token, at) && at < |value|
    requires token < |tokens| ==> tokens[token].Literal? && tokens[token].c != value[at]
    ensures Searching(tokens, value, Some(star), retry + 1, star + 1, retry + 1)
  {
    Mismatch(tokens, value, star, retry, token, at);
  }

  lemma SearchFails(tokens: seq<Token>, value: string, retry: nat, token: nat, at: nat)
    requires Searching(tokens, value, None, retry, token, at) && at < |value|
    requires token < |tokens| ==> tokens[token].Literal? && tokens[token].c != value[at]
    ensures !Matches(tokens, value)
  {
    assert value[at..] != "" && value[at..][0] == value[at];
    assert token < |tokens| ==> tokens[token..][0] == tokens[token];
  }

  lemma SearchEnds(tokens: seq<Token>, value: string, star: Option<nat>, retry: nat, token: nat)
    requires Searching(tokens, value, star, retry, token, |value|)
    ensures Matches(tokens, value) <==> Matches(tokens[token..], "")
  {
    assert value[|value|..] == "";
    if star.Some? {
      AtEnd(tokens, value, star.value, retry, token);
    }
  }

  /** Greedy matching that only ever retries the last `%`. */
  method MatchTokens(tokens: seq<Token>, value: string) returns (matched: bool)
    ensures matched <==> Matches(tokens, value)
  {
    var token, at := 0, 0;
    var star: Option<nat>, retry := None, 0;
    assert tokens[0..] == tokens && value[0..] == value;
    while at < |value|
      invariant 0 <= token && 0 <= at && 0 <= retry
      invariant Searching(tokens, value, star, retry, token, at)
      decreases if star.None? then |value| + 1 else |value| - retry, |tokens| - token
    {
      if token < |tokens| && (tokens[token].One? || tokens[token] == Literal(value[at])) {
        SearchStep(tokens, value, star, retry, token, at);
        token, at := token + 1, at + 1;
      } else if token < |tokens| && tokens[token].Many? {
        SearchStar(tokens, value, star, retry, token, at);
        star, token, retry := Some(token), token + 1, at;
      } else if star.Some? {
        SearchRetry(tokens, value, star.value, retry, token, at);
        token, retry := star.value + 1, retry + 1;
        at := retry;
      } else {
        SearchFails(tokens, value, retry, token, at);
        return false;
      }
    }
    SearchEnds(tokens, value, star, retry, token);
    matched := OnlyManyLeft(tokens, token);
  }

  method OnlyManyLeft(tokens: seq<Token>, from: nat) returns (yes: bool)
    requires from <= |tokens|
    ensures yes <==> Matches(tokens[from..], "")
  {
    EmptyMatch(tokens[from..]);
    var token := from;
    while token < |tokens| && tokens[token].Many?
      invariant from <= token <= |tokens|
      invariant forall i :: from <= i < token ==> tokens[i].Many?
    {
      token := token + 1;
    }
    assert token < |tokens| ==> tokens[from..][token - from] == tokens[token];
    yes := token == |tokens|;
  }

  /** Agrees with the meaning of the pattern for every valid pattern and every value. */
  method LikePatternMatches(pattern: string, value: string) returns (r: Result<bool, string>)
    ensures r.Err? <==> Tokens(pattern).None?
    ensures r.Ok? ==> r.value == Matches(Tokens(pattern).value, value)
  {
    var ok := ValidateLikePattern(pattern);
    if !ok {
      return Err("metadata LIKE pattern has an invalid escape");
    }
    var tokens := Tokenize(pattern);
    var matched := MatchTokens(tokens, value);
    r := Ok(matched);
  }
}

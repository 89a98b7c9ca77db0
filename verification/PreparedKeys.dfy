/** The keys of prepared statements: query texts without surrounding white space and final semicolons. */
module PreparedKeys {

  predicate White(c: char) {
    var u := c as int;
    || 0x9 <= u <= 0xD || u == 0x20 || u == 0x85 || u == 0xA0 || u == 0x1680 || 0x2000 <= u <= 0x200A
    || u == 0x2028 || u == 0x2029 || u == 0x202F || u == 0x205F || u == 0x3000
  }

  function TrimStart(s: string): string {
    if s != "" && White(s[0]) then TrimStart(s[1..]) else s
  }

  function TrimEnd(s: string): string {
    if s != "" && White(s[|s| - 1]) then TrimEnd(s[..|s| - 1]) else s
  }

  function TrimSemicolons(s: string): string {
    if s != "" && s[|s| - 1] == ';' then TrimSemicolons(s[..|s| - 1]) else s
  }

  function Normalize(query: string): string {
    TrimEnd(TrimSemicolons(TrimEnd(TrimStart(query))))
  }

  lemma {:induction false} TrimEndEnds(s: string)
    ensures var t := TrimEnd(s);
            t <= s && (t == "" || !White(t[|t| - 1])) && (s != "" && t != "" && !White(s[0]) ==> t[0] == s[0])
  {
    if s != "" && White(s[|s| - 1]) {
      TrimEndEnds(s[..|s| - 1]);
    }
  }

  lemma {:induction false} TrimSemicolonsEnds(s: string)
    ensures var t := TrimSemicolons(s); t <= s && (t == "" || t[|t| - 1] != ';')
  {
    if s != "" && s[|s| - 1] == ';' {
      TrimSemicolonsEnds(s[..|s| - 1]);
    }
  }

  lemma {:induction false} TrimStartStarts(s: string)
    ensures var t := TrimStart(s); t == "" || !White(t[0])
  {
    if s != "" && White(s[0]) {
      TrimStartStarts(s[1..]);
    }
  }

  /** A key looked up through two normalizations is the same key, unless white space hid a semicolon. */
  lemma NormalizeTwice(query: string)
    ensures var key := Normalize(query);
            Normalize(key) == key <==> (key == "" || key[|key| - 1] != ';')
  {
    var started := TrimStart(query);
    TrimStartStarts(query);
    var ended := TrimEnd(started);
    TrimEndEnds(started);
    var bare := TrimSemicolons(ended);
    TrimSemicolonsEnds(ended);
    var key := TrimEnd(bare);
    TrimEndEnds(bare);
    TrimSemicolonsEnds(key);
    TrimEndEnds(TrimSemicolons(key));
  }

  lemma NormalizeTwiceFails()
    ensures Normalize("a; ;") == "a;" && Normalize("a;") == "a"
  {
    assert "a; ;"[..3] == "a; " && "a; "[..2] == "a;" && "a;"[..1] == "a";
    assert TrimSemicolons("a; ;") == "a; ";
  }
}

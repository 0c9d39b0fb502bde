/** `escapeHtml`: the four global replacements that make a text safe inside an
    HTML attribute or element. */
module Html {
  import opened JsonValue

  /** `s.replace(/c/g, rep)` for a single-character pattern: every occurrence
      of `c` becomes `rep`. */
  function ReplaceChar(s: string, c: char, rep: string): (r: string)
    ensures c !in rep ==> c !in r
    decreases |s|
  {
    if s == [] then []
    else (if s[0] == c then rep else [s[0]]) + ReplaceChar(s[1..], c, rep)
  }

  /** `escapeHtml` on a string: `&` first, so that the entities written by the
      later passes are not escaped again. */
  function EscapeHtml(s: string): (r: string)
    ensures '"' !in r
  {
    ReplaceChar(ReplaceChar(ReplaceChar(ReplaceChar(s, '&', "&amp;"), '<', "&lt;"), '>', "&gt;"), '"', "&quot;")
  }

  /** `escapeHtml` on any value: anything but a string comes back as it is. */
  function EscapeValue(v: Json): (r: Json)
    ensures v.JString? <==> r.JString?
    ensures !v.JString? ==> r == v
  {
    if v.JString? then JString(EscapeHtml(v.s)) else v
  }

  // ---------------------------------------------------------------- reference definition

  /** The entity for one character. */
  function EscapeChar(x: char): string {
    if x == '&' then "&amp;"
    else if x == '<' then "&lt;"
    else if x == '>' then "&gt;"
    else if x == '"' then "&quot;"
    else [x]
  }

  /** Escaping character by character. */
  function EscapeChars(s: string): (r: string)
    decreases |s|
  {
    if s == [] then [] else EscapeChar(s[0]) + EscapeChars(s[1..])
  }

  lemma {:induction false} ReplaceCharAppend(a: string, b: string, c: char, rep: string)
    ensures ReplaceChar(a + b, c, rep) == ReplaceChar(a, c, rep) + ReplaceChar(b, c, rep)
    decreases |a|
  {
    if a == [] {
      assert a + b == b;
    } else {
      assert (a + b)[0] == a[0];
      assert (a + b)[1..] == a[1..] + b;
      ReplaceCharAppend(a[1..], b, c, rep);
    }
  }

  lemma {:induction false} ReplaceCharAbsent(s: string, c: char, rep: string)
    requires c !in s
    ensures ReplaceChar(s, c, rep) == s
    decreases |s|
  {
    if s != [] {
      ReplaceCharAbsent(s[1..], c, rep);
    }
  }

  lemma ReplaceCharSingle(x: char, c: char, rep: string)
    ensures ReplaceChar([x], c, rep) == if x == c then rep else [x]
  {
    assert [x][1..] == [];
    assert ReplaceChar([], c, rep) == [];
  }

  /** A pass over a text that holds its character at most as the whole text. */
  lemma PassOver(t: string, c: char, rep: string)
    requires c in t ==> t == [c]
    ensures ReplaceChar(t, c, rep) == if t == [c] then rep else t
  {
    if t == [c] {
      ReplaceCharSingle(c, c, rep);
    } else {
      ReplaceCharAbsent(t, c, rep);
    }
  }

  lemma EscapeTwoPasses(x: char)
    ensures ReplaceChar(ReplaceChar([x], '&', "&amp;"), '<', "&lt;")
            == if x == '&' then "&amp;" else if x == '<' then "&lt;" else [x]
  {
    PassOver([x], '&', "&amp;");
    PassOver(if x == '&' then "&amp;" else [x], '<', "&lt;");
  }

  lemma EscapeThreePasses(x: char)
    ensures ReplaceChar(ReplaceChar(ReplaceChar([x], '&', "&amp;"), '<', "&lt;"), '>', "&gt;")
            == if x == '&' then "&amp;" else if x == '<' then "&lt;" else if x == '>' then "&gt;" else [x]
  {
    EscapeTwoPasses(x);
    PassOver(if x == '&' then "&amp;" else if x == '<' then "&lt;" else [x], '>', "&gt;");
  }

  /** One character through the four passes is its entity. */
  lemma EscapeOneChar(x: char)
    ensures EscapeHtml([x]) == EscapeChar(x)
  {
    EscapeThreePasses(x);
    PassOver(if x == '&' then "&amp;" else if x == '<' then "&lt;" else if x == '>' then "&gt;" else [x], '"', "&quot;");
  }

  /** The four passes together escape each character on its own: no pass
      touches what an earlier one wrote. */
  lemma {:induction false} EscapeHtmlPerChar(s: string)
    ensures EscapeHtml(s) == EscapeChars(s)
    decreases |s|
  {
    if s != [] {
      assert s == [s[0]] + s[1..];
      EscapeHtmlSplit([s[0]], s[1..]);
      EscapeOneChar(s[0]);
      EscapeHtmlPerChar(s[1..]);
    }
  }

  lemma EscapeHtmlSplit(a: string, b: string)
    ensures EscapeHtml(a + b) == EscapeHtml(a) + EscapeHtml(b)
  {
    var a1, b1 := ReplaceChar(a, '&', "&amp;"), ReplaceChar(b, '&', "&amp;");
    ReplaceCharAppend(a, b, '&', "&amp;");
    var a2, b2 := ReplaceChar(a1, '<', "&lt;"), ReplaceChar(b1, '<', "&lt;");
    ReplaceCharAppend(a1, b1, '<', "&lt;");
    var a3, b3 := ReplaceChar(a2, '>', "&gt;"), ReplaceChar(b2, '>', "&gt;");
    ReplaceCharAppend(a2, b2, '>', "&gt;");
    ReplaceCharAppend(a3, b3, '"', "&quot;");
  }

  lemma {:induction false} EscapeCharsSafe(s: string)
    ensures '<' !in EscapeChars(s) && '>' !in EscapeChars(s) && '"' !in EscapeChars(s)
    decreases |s|
  {
    if s != [] {
      EscapeCharsSafe(s[1..]);
    }
  }

  /** The escaped text holds no `<`, `>` or `"`, so it can neither open a tag
      nor end an attribute. */
  lemma EscapeHtmlSafe(s: string)
    ensures '<' !in EscapeHtml(s) && '>' !in EscapeHtml(s) && '"' !in EscapeHtml(s)
  {
    EscapeHtmlPerChar(s);
    EscapeCharsSafe(s);
  }

  // ---------------------------------------------------------------- decoding

  /** Decodes the four entities `escapeHtml` writes; any other character
      stands for itself. */
  function Unescape(s: string): (r: string)
    decreases |s|
  {
    if s == [] then []
    else if |s| >= 5 && s[..5] == "&amp;" then "&" + Unescape(s[5..])
    else if |s| >= 4 && s[..4] == "&lt;" then "<" + Unescape(s[4..])
    else if |s| >= 4 && s[..4] == "&gt;" then ">" + Unescape(s[4..])
    else if |s| >= 6 && s[..6] == "&quot;" then "\"" + Unescape(s[6..])
    else [s[0]] + Unescape(s[1..])
  }

  lemma UnescapeChar(x: char, rest: string)
    ensures Unescape(EscapeChar(x) + rest) == [x] + Unescape(rest)
  {
    var t := EscapeChar(x) + rest;
    if x == '&' {
      assert t[..5] == "&amp;" && t[5..] == rest;
    } else if x == '<' {
      assert t[..4] == "&lt;" && t[4..] == rest;
      assert |t| >= 5 ==> t[..5][1] == 'l';
    } else if x == '>' {
      assert t[..4] == "&gt;" && t[4..] == rest;
      assert |t| >= 5 ==> t[..5][1] == 'g';
      assert t[..4][1] == 'g';
    } else if x == '"' {
      assert t[..6] == "&quot;" && t[6..] == rest;
      assert t[..5][1] == 'q' && t[..4][1] == 'q';
    } else {
      assert t[0] == x && t[1..] == rest;
      assert |t| >= 4 ==> t[..4][0] == x;
      assert |t| >= 5 ==> t[..5][0] == x;
      assert |t| >= 6 ==> t[..6][0] == x;
    }
  }

  lemma {:induction false} UnescapeEscapeChars(s: string)
    ensures Unescape(EscapeChars(s)) == s
    decreases |s|
  {
    if s != [] {
      UnescapeChar(s[0], EscapeChars(s[1..]));
      UnescapeEscapeChars(s[1..]);
      assert s == [s[0]] + s[1..];
    }
  }

  /** The escaped text decodes to the original: escaping loses nothing. */
  lemma UnescapeEscapeHtml(s: string)
    ensures Unescape(EscapeHtml(s)) == s
  {
    EscapeHtmlPerChar(s);
    UnescapeEscapeChars(s);
  }

  /** Escaping is injective: different texts never render alike. */
  lemma EscapeHtmlInjective(a: string, b: string)
    requires EscapeHtml(a) == EscapeHtml(b)
    ensures a == b
  {
    UnescapeEscapeHtml(a);
    UnescapeEscapeHtml(b);
  }
}

/**
 The escaping of alert text before it is placed in a voice-call document
 (`xml_escape` in src/notification.rs): five whole-string replacements, one after the other.
 */
module XmlEscape {

  /** Replaces every occurrence of the character `c` in `s`. */
  function Replace(s: string, c: char, sub: string): string
  {
    if s == "" then "" else (if s[0] == c then sub else [s[0]]) + Replace(s[1..], c, sub)
  }

  function XmlEscape(value: string): string
  {
    var ampersands := Replace(value, '&', "&amp;");
    var less := Replace(ampersands, '<', "&lt;");
    var greater := Replace(less, '>', "&gt;");
    var quotes := Replace(greater, '"', "&quot;");
    Replace(quotes, '\'', "&apos;")
  }

  /** The predefined entity of a character (section 4.6 of XML 1.0, Fifth Edition), or the character itself. */
  function Entity(c: char): string
  {
    match c
    case '&' => "&amp;"
    case '<' => "&lt;"
    case '>' => "&gt;"
    case '"' => "&quot;"
    case '\'' => "&apos;"
    case _ => [c]
  }

  /** All five replacements made at once, character by character. */
  function EscapeEach(s: string): string
  {
    if s == "" then "" else Entity(s[0]) + EscapeEach(s[1..])
  }

  /** A single left-to-right pass that reads the five predefined entities back. */
  function Unescape(s: string): string
  {
    if s == "" then ""
    else if "&amp;" <= s then "&" + Unescape(s[5..])
    else if "&lt;" <= s then "<" + Unescape(s[4..])
    else if "&gt;" <= s then ">" + Unescape(s[4..])
    else if "&quot;" <= s then "\"" + Unescape(s[6..])
    else if "&apos;" <= s then "'" + Unescape(s[6..])
    else [s[0]] + Unescape(s[1..])
  }

  /** One character is replaced, or kept, in front of the rest. */
  lemma ReplaceHead(x: char, s: string, c: char, sub: string)
    ensures Replace("", c, sub) == ""
    ensures Replace([x] + s, c, sub) == (if x == c then sub else [x]) + Replace(s, c, sub)
  {
    assert ([x] + s)[1..] == s;
  }

  lemma {:induction false} ReplaceConcat(a: string, b: string, c: char, sub: string)
    ensures Replace(a + b, c, sub) == Replace(a, c, sub) + Replace(b, c, sub)
  {
    hide Replace;
    if a == "" {
      assert a + b == b;
      ReplaceHead('x', b, c, sub);
    } else {
      var x, rest := a[0], a[1..];
      assert a == [x] + rest && a + b == [x] + (rest + b);
      ReplaceHead(x, rest, c, sub);
      ReplaceHead(x, rest + b, c, sub);
      ReplaceConcat(rest, b, c, sub);
    }
  }

  lemma {:induction false} ReplaceAbsent(s: string, c: char, sub: string)
    requires c !in s
    ensures Replace(s, c, sub) == s
  {
    if s != "" {
      ReplaceAbsent(s[1..], c, sub);
    }
  }

  lemma ReplaceSingleOrAbsent(s: string, c: char, sub: string)
    ensures s == [c] ==> Replace(s, c, sub) == sub
    ensures c !in s ==> Replace(s, c, sub) == s
  {
    if s == [c] {
      assert s[1..] == "";
    } else if c !in s {
      ReplaceAbsent(s, c, sub);
    }
  }

  /** Escaping splits over concatenation: no replacement looks at more than one character. */
  lemma XmlEscapeConcat(a: string, b: string)
    ensures XmlEscape(a + b) == XmlEscape(a) + XmlEscape(b)
  {
    var a1, b1 := Replace(a, '&', "&amp;"), Replace(b, '&', "&amp;");
    ReplaceConcat(a, b, '&', "&amp;");
    var a2, b2 := Replace(a1, '<', "&lt;"), Replace(b1, '<', "&lt;");
    ReplaceConcat(a1, b1, '<', "&lt;");
    var a3, b3 := Replace(a2, '>', "&gt;"), Replace(b2, '>', "&gt;");
    ReplaceConcat(a2, b2, '>', "&gt;");
    var a4, b4 := Replace(a3, '"', "&quot;"), Replace(b3, '"', "&quot;");
    ReplaceConcat(a3, b3, '"', "&quot;");
    ReplaceConcat(a4, b4, '\'', "&apos;");
  }

  /** A later replacement never touches the entity an earlier one wrote: this is why `&` must go first. */
  lemma XmlEscapeSingle(x: char)
    ensures XmlEscape([x]) == Entity(x)
  {
    var s1 := Replace([x], '&', "&amp;");
    ReplaceSingleOrAbsent([x], '&', "&amp;");
    Untouched(x, s1, '<');
    var s2 := Replace(s1, '<', "&lt;");
    Untouched(x, s2, '>');
    var s3 := Replace(s2, '>', "&gt;");
    Untouched(x, s3, '"');
    var s4 := Replace(s3, '"', "&quot;");
    Untouched(x, s4, '\'');
  }

  lemma Untouched(x: char, s: string, c: char)
    requires s == [x] || s == Entity(x)
    requires c in {'<', '>', '"', '\''}
    requires x == c ==> s == [x]
    ensures Replace(s, c, Entity(c)) == if x == c then Entity(x) else s
  {
    hide Replace;
    ReplaceSingleOrAbsent(s, c, Entity(c));
  }

  /** The five sequential whole-string replacements are one simultaneous substitution. */
  lemma {:induction false} EscapeIsSimultaneous(s: string)
    ensures XmlEscape(s) == EscapeEach(s)
  {
    if s != "" {
      assert s == [s[0]] + s[1..];
      XmlEscapeConcat([s[0]], s[1..]);
      XmlEscapeSingle(s[0]);
      EscapeIsSimultaneous(s[1..]);
    }
  }

  lemma EntityHasNoMarkup(x: char)
    ensures '<' !in Entity(x) && '>' !in Entity(x) && '"' !in Entity(x) && '\'' !in Entity(x)
  {
  }

  lemma {:induction false} EscapeEachHasNoMarkup(s: string)
    ensures '<' !in EscapeEach(s) && '>' !in EscapeEach(s) && '"' !in EscapeEach(s) && '\'' !in EscapeEach(s)
  {
    hide Entity;
    if s != "" {
      EntityHasNoMarkup(s[0]);
      EscapeEachHasNoMarkup(s[1..]);
    }
  }

  /** Escaped text holds no raw markup character. */
  lemma EscapedTextHasNoMarkup(s: string)
    ensures '<' !in XmlEscape(s) && '>' !in XmlEscape(s) && '"' !in XmlEscape(s) && '\'' !in XmlEscape(s)
  {
    EscapeIsSimultaneous(s);
    EscapeEachHasNoMarkup(s);
  }

  lemma UnescapeEntity(x: char, rest: string)
    ensures Unescape(Entity(x) + rest) == [x] + Unescape(rest)
  {
    var s := Entity(x) + rest;
    assert s[|Entity(x)|..] == rest;
    if x == '&' || x == '<' || x == '>' || x == '"' || x == '\'' {
      assert Entity(x) <= s;
      assert s[1] == Entity(x)[1] && s[2] == Entity(x)[2];
    } else {
      assert s[0] == x;
    }
  }

  lemma {:induction false} UnescapeInvertsEach(s: string)
    ensures Unescape(EscapeEach(s)) == s
  {
    if s != "" {
      UnescapeEntity(s[0], EscapeEach(s[1..]));
      UnescapeInvertsEach(s[1..]);
    }
  }

  /** Reading the entities back in one pass recovers the text exactly. */
  lemma UnescapeInvertsEscape(s: string)
    ensures Unescape(XmlEscape(s)) == s
  {
    EscapeIsSimultaneous(s);
    UnescapeInvertsEach(s);
  }
}

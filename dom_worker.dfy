/**
  HTML escaping of the DOM helper layer: `sanitizeHTML` replaces every `&`, `<`
  and `>` of a string by its character reference and copies every other
  character unchanged, in order.
 */
module DomWorker {

  /** The replacement table: the image of one character. */
  function Escape(c: char): string
  {
    match c
    case '&' => "&amp;"
    case '<' => "&lt;"
    case '>' => "&gt;"
    case _ => [c]
  }

  predicate IsSpecial(c: char) {
    c == '&' || c == '<' || c == '>'
  }

  /** Number of occurrences of `c` in `s`. */
  function Count(s: string, c: char): nat {
    if s == [] then 0 else (if s[0] == c then 1 else 0) + Count(s[1..], c)
  }

  /**
    The global replacement: each character is replaced by its image under
    `Escape`. The result never contains an angle bracket.
   */
  function SanitizeHTML(s: string): (r: string)
    ensures forall i :: 0 <= i < |r| ==> r[i] != '<' && r[i] != '>'
  {
    if s == [] then [] else Escape(s[0]) + SanitizeHTML(s[1..])
  }

  /**
    Decoding of the three character references `&amp;`, `&lt;` and `&gt;`;
    every other character is copied.
   */
  function Unescape(t: string): string
  {
    if t == [] then []
    else if "&amp;" <= t then "&" + Unescape(t[5..])
    else if "&lt;" <= t then "<" + Unescape(t[4..])
    else if "&gt;" <= t then ">" + Unescape(t[4..])
    else [t[0]] + Unescape(t[1..])
  }

  /** A one-character string is mapped to its image in the table. */
  lemma SanitizeChar(c: char)
    ensures SanitizeHTML([c]) == Escape(c)
  {
    assert [c][1..] == [];
  }

  /** The replacement is per character, so it distributes over concatenation. */
  lemma {:induction false} SanitizeConcat(a: string, b: string)
    ensures SanitizeHTML(a + b) == SanitizeHTML(a) + SanitizeHTML(b)
  {
    if a == [] {
      assert a + b == b;
    } else {
      assert (a + b)[0] == a[0];
      assert (a + b)[1..] == a[1..] + b;
      SanitizeConcat(a[1..], b);
    }
  }

  /** The output is the concatenation of the images of the characters, in order. */
  lemma {:induction false} SanitizeSnoc(s: string, c: char)
    ensures SanitizeHTML(s + [c]) == SanitizeHTML(s) + Escape(c)
  {
    SanitizeConcat(s, [c]);
    SanitizeChar(c);
  }

  /** A string without `&`, `<` and `>` is returned unchanged. */
  lemma {:induction false} SanitizePlain(s: string)
    requires forall i :: 0 <= i < |s| ==> !IsSpecial(s[i])
    ensures SanitizeHTML(s) == s
  {
    if s != [] {
      SanitizePlain(s[1..]);
    }
  }

  /** Each `&` grows by four characters, each `<` and `>` by three. */
  lemma {:induction false} SanitizeLength(s: string)
    ensures |SanitizeHTML(s)| == |s| + 4 * Count(s, '&') + 3 * Count(s, '<') + 3 * Count(s, '>')
  {
    if s != [] {
      SanitizeLength(s[1..]);
    }
  }

  /** Decoding consumes the image of one character and yields that character. */
  lemma UnescapeEscape(c: char, rest: string)
    ensures Unescape(Escape(c) + rest) == [c] + Unescape(rest)
  {
    var t := Escape(c) + rest;
    if c == '&' {
      assert "&amp;" <= t && t[5..] == rest;
    } else if c == '<' {
      assert t[1] == 'l' && "&lt;" <= t && t[4..] == rest;
    } else if c == '>' {
      assert t[1] == 'g' && "&gt;" <= t && t[4..] == rest;
    } else {
      assert t[0] == c && t[1..] == rest;
    }
  }

  /** Decoding the references in the output recovers the input exactly. */
  lemma {:induction false} UnescapeSanitize(s: string)
    ensures Unescape(SanitizeHTML(s)) == s
  {
    if s != [] {
      UnescapeEscape(s[0], SanitizeHTML(s[1..]));
      UnescapeSanitize(s[1..]);
      assert s == [s[0]] + s[1..];
    }
  }

  /** Different inputs give different outputs. */
  lemma SanitizeInjective(a: string, b: string)
    requires SanitizeHTML(a) == SanitizeHTML(b)
    ensures a == b
  {
    UnescapeSanitize(a);
    UnescapeSanitize(b);
  }
}

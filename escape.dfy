/**
 * The escaping stage of the renderer (components/MarkdownRenderer.tsx, lines 24-27): three
 * global replacements, ampersand first, then `<`, then `>`.
 */
module Escape {
  import opened Text

  /** The stage as written: `&` -> `&amp;`, then `<` -> `&lt;`, then `>` -> `&gt;`. */
  function EscapeHtml(s: string): string {
    ReplaceAllChar(ReplaceAllChar(ReplaceAllChar(s, '&', "&amp;"), '<', "&lt;"), '>', "&gt;")
  }

  /** The entity one character stands for in HTML text. */
  function EscapeChar(c: char): string {
    if c == '&' then "&amp;" else if c == '<' then "&lt;" else if c == '>' then "&gt;" else [c]
  }

  /** Reference: every character replaced by its entity, independently of the others. */
  function EscapeEach(s: string): string {
    if s == [] then "" else EscapeChar(s[0]) + EscapeEach(s[1..])
  }

  /** Decoding of the three entities, left to right; every other character is kept. */
  function Unescape(s: string): string
    decreases |s|
  {
    if s == [] then ""
    else if At(s, 0, "&amp;") then "&" + Unescape(s[5..])
    else if At(s, 0, "&lt;") then "<" + Unescape(s[4..])
    else if At(s, 0, "&gt;") then ">" + Unescape(s[4..])
    else [s[0]] + Unescape(s[1..])
  }

  lemma {:induction false} ReplaceAllCharAppend(a: string, b: string, c: char, rep: string)
    ensures ReplaceAllChar(a + b, c, rep) == ReplaceAllChar(a, c, rep) + ReplaceAllChar(b, c, rep)
    decreases |a|
  {
    if a != [] {
      assert (a + b)[1..] == a[1..] + b;
      ReplaceAllCharAppend(a[1..], b, c, rep);
    } else {
      assert a + b == b;
    }
  }

  lemma EscapeHtmlAppend(a: string, b: string)
    ensures EscapeHtml(a + b) == EscapeHtml(a) + EscapeHtml(b)
  {
    ReplaceAllCharAppend(a, b, '&', "&amp;");
    var a1, b1 := ReplaceAllChar(a, '&', "&amp;"), ReplaceAllChar(b, '&', "&amp;");
    ReplaceAllCharAppend(a1, b1, '<', "&lt;");
    var a2, b2 := ReplaceAllChar(a1, '<', "&lt;"), ReplaceAllChar(b1, '<', "&lt;");
    ReplaceAllCharAppend(a2, b2, '>', "&gt;");
  }

  lemma EscapeHtmlChar(c: char)
    ensures EscapeHtml([c]) == EscapeChar(c)
  {
    var a1 := ReplaceAllChar([c], '&', "&amp;");
    assert [c][1..] == [] && ReplaceAllChar([], '&', "&amp;") == [];
    assert a1 == (if c == '&' then "&amp;" else [c]);
    if c == '&' {
      ReplaceAllCharRemoves("&amp;", '<', "&lt;");
      ReplaceAllCharRemoves("&amp;", '>', "&gt;");
    } else if c == '<' {
      assert ReplaceAllChar([c], '<', "&lt;") == "&lt;";
      ReplaceAllCharRemoves("&lt;", '>', "&gt;");
    } else {
      assert ReplaceAllChar([c], '<', "&lt;") == [c];
    }
  }

  /**
   * Because `&` is replaced first, the three passes together replace every character by its
   * own entity: an original `<` becomes exactly `&lt;`, never `&amp;lt;`.
   */
  lemma {:induction false} EscapeIsPerCharacter(s: string)
    ensures EscapeHtml(s) == EscapeEach(s)
    decreases |s|
  {
    if s != [] {
      assert s == [s[0]] + s[1..];
      EscapeHtmlAppend([s[0]], s[1..]);
      EscapeHtmlChar(s[0]);
      EscapeIsPerCharacter(s[1..]);
    }
  }

  lemma {:induction false} EachHasNoAngles(s: string)
    ensures '<' !in EscapeEach(s) && '>' !in EscapeEach(s)
    decreases |s|
  {
    if s != [] {
      EachHasNoAngles(s[1..]);
    }
  }

  /** After the stage the text contains no angle bracket at all. */
  lemma EscapedHasNoAngles(s: string)
    ensures '<' !in EscapeHtml(s) && '>' !in EscapeHtml(s)
  {
    EscapeIsPerCharacter(s);
    EachHasNoAngles(s);
  }

  /** Escaping loses nothing: decoding the entities gives the original text back. */
  lemma {:induction false} UnescapeEscape(s: string)
    ensures Unescape(EscapeHtml(s)) == s
  {
    EscapeIsPerCharacter(s);
    UnescapeEach(s);
  }

  lemma {:induction false} UnescapeEach(s: string)
    ensures Unescape(EscapeEach(s)) == s
    decreases |s|
  {
    if s != [] {
      var c := s[0];
      var e := EscapeEach(s);
      var rest := EscapeEach(s[1..]);
      UnescapeEach(s[1..]);
      assert e == EscapeChar(c) + rest;
      if c == '&' {
        assert At(e, 0, "&amp;") && e[5..] == rest;
      } else if c == '<' {
        assert e[1] == 'l';
        assert !At(e, 0, "&amp;") && At(e, 0, "&lt;") && e[4..] == rest;
      } else if c == '>' {
        assert e[1] == 'g';
        assert !At(e, 0, "&amp;") && !At(e, 0, "&lt;") && At(e, 0, "&gt;") && e[4..] == rest;
      } else {
        assert e[0] == c && e[1..] == rest;
      }
      assert s == [c] + s[1..];
    }
  }
}

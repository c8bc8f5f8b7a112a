/**
 * `notionToHtml` (components/MarkdownRenderer.tsx lines 12-249): the passes in the order the
 * source runs them, on the string that each pass hands to the next.
 */
module Renderer {
  import opened Wrappers
  import opened Text
  import opened Rewrite
  import opened Escape
  import opened Inline
  import opened BlockPasses
  import CF = CodeFences
  import T = Tables
  import L = Lists
  import P = Paragraphs
  import I = Images

  const NoContent := "<p>No content available</p>"

  /** Lines 24-71: escaping and the passes that rewrite the text in place. */
  function Marked(h: string): string {
    Quotes(Callouts(Rules(InlinePasses(Headings(EscapeHtml(h))))))
  }

  /** Lines 76-137: the table pass on the lines of the text. */
  function Tabled(h: string): string {
    Join(T.Blocks(Split(h, '\n'), 0), "\n")
  }

  /** Lines 142-214: the list pass on the lines of the text. */
  function Listed(h: string): string {
    Join(L.Groups(Split(h, '\n'), 0), "\n")
  }

  /** What `notionToHtml(content)` returns. */
  function Rendered(content: string): string {
    if content == [] then NoContent
    else
      var pieces := CF.Pieces(content, 0);
      var blocks := CF.BlocksOf(pieces);
      var restored := CF.RestoredUpTo(Listed(Tabled(Marked(CF.HtmlOf(pieces, 0)))), blocks, |blocks|);
      I.Images(P.Paragraphs(restored))
  }

  /** The function as the source writes it: the values computed one after the other. */
  method NotionToHtml(content: string) returns (html: string)
    ensures html == Rendered(content)
    ensures content == [] ==> html == NoContent
  {
    if content == [] {
      return NoContent;
    }
    var codeBlocks;
    html, codeBlocks := CF.ExtractCodeBlocks(content);
    html := Marked(html);
    var processedLines := T.TableStage(Split(html, '\n'));
    html := Join(processedLines, "\n");
    var processedLines2 := L.ListStage(Split(html, '\n'));
    html := Join(processedLines2, "\n");
    html := CF.RestoreCodeBlocks(html, codeBlocks);
    html := P.Paragraphs(html);
    html := I.Images(html);
  }

  lemma NoAngleNotAtLineStart(s: string)
    requires '>' !in s
    ensures NotAtLineStart(s, '>')
  {
  }

  /**
   * The quote pass (line 71) never changes the text it is given: escaping removed every `>`,
   * and none of the earlier passes puts one at the start of a line.
   */
  lemma QuotePassIsIdentity(h: string)
    ensures var before := Callouts(Rules(InlinePasses(Headings(EscapeHtml(h)))));
      Marked(h) == before
  {
    var e := EscapeHtml(h);
    EscapedHasNoAngles(h);
    NoAngleNotAtLineStart(e);
    HeadingsKeepQuotesOut(e);
    InlinePassesKeepQuotesOut(Headings(e));
    RulesKeepQuotesOut(InlinePasses(Headings(e)));
    CalloutsKeepQuotesOut(Rules(InlinePasses(Headings(e))));
    QuotesIdentity(Callouts(Rules(InlinePasses(Headings(e)))));
  }

  /** Word characters and whitespace other than a newline: characters that none of the patterns reacts to. */
  predicate PlainChar(c: char) {
    IsWordChar(c) || (IsSpace(c) && c != '\n')
  }

  predicate PlainText(s: string) {
    forall i :: 0 <= i < |s| ==> PlainChar(s[i])
  }

  lemma PlainHeadings(s: string)
    requires PlainText(s)
    ensures Headings(s) == s
  {
    assert '#' !in s;
    forall level | 1 <= level <= 6 ensures HeadingPass(level, s) == s {
      var m := (t: string, q: nat) => HeadingAt(level, t, q);
      Untouched(s, m, '#');
    }
  }

  lemma PlainHighlight(s: string)
    requires PlainText(s)
    ensures Highlight(s) == s
  {
    forall p | 0 <= p < |s| ensures HighlightAt(s, p).Some? ==> s[p] == '=' {
      DelimitedFirst(s, p, "==", "==", "<mark class=\"notion-highlight\">", "</mark>");
    }
    assert '=' !in s;
    Untouched(s, HighlightAt, '=');
  }

  lemma PlainBold(s: string)
    requires PlainText(s)
    ensures Bold(s) == s
  {
    forall p | 0 <= p < |s| ensures BoldAt(s, p).Some? ==> s[p] == '*' {
      DelimitedFirst(s, p, "**", "**", "<strong class=\"notion-bold\">", "</strong>");
    }
    assert '*' !in s;
    Untouched(s, BoldAt, '*');
  }

  lemma PlainItalic(s: string)
    requires PlainText(s)
    ensures Italic(s) == s
  {
    forall p | 0 <= p < |s| ensures ItalicAt(s, p).Some? ==> s[p] == '*' {
      DelimitedFirst(s, p, "*", "*", "<em class=\"notion-italic\">", "</em>");
    }
    assert '*' !in s;
    Untouched(s, ItalicAt, '*');
  }

  lemma PlainStrike(s: string)
    requires PlainText(s)
    ensures Strike(s) == s
  {
    forall p | 0 <= p < |s| ensures StrikeAt(s, p).Some? ==> s[p] == '~' {
      DelimitedFirst(s, p, "~~", "~~", "<del class=\"notion-strikethrough\">", "</del>");
    }
    assert '~' !in s;
    Untouched(s, StrikeAt, '~');
  }

  lemma PlainInline(s: string)
    requires PlainText(s)
    ensures InlinePasses(s) == s
  {
    PlainHighlight(s);
    PlainBold(s);
    PlainItalic(s);
    PlainStrike(s);
    assert '`' !in s;
    Untouched(s, InlineCodeAt, '`');
    assert '[' !in s;
    Untouched(s, LinkAt, '[');
  }

  lemma PlainBlockPasses(s: string)
    requires PlainText(s)
    ensures Quotes(Callouts(Rules(s))) == s
  {
    assert '-' !in s;
    Untouched(s, HrAt, '-');
    assert '>' !in s;
    var note := (t: string, q: nat) => CalloutAt("[!NOTE]", "note", t, q);
    var warning := (t: string, q: nat) => CalloutAt("[!WARNING]", "warning", t, q);
    Untouched(s, note, '>');
    Untouched(s, warning, '>');
    Untouched(s, QuoteAt, '>');
  }

  lemma PlainMarked(s: string)
    requires PlainText(s)
    ensures Marked(s) == s
  {
    assert '&' !in s && '<' !in s && '>' !in s;
    ReplaceAllCharRemoves(s, '&', "&amp;");
    ReplaceAllCharRemoves(s, '<', "&lt;");
    ReplaceAllCharRemoves(s, '>', "&gt;");
    assert EscapeHtml(s) == s;
    PlainHeadings(s);
    PlainInline(s);
    PlainBlockPasses(s);
  }

  /** What `trim` keeps of plain text is plain; it is not empty when the text is not all whitespace. */
  lemma TrimOfPlain(s: string, j: nat)
    requires PlainText(s)
    ensures PlainText(Trim(s))
    ensures j < |s| && !IsSpace(s[j]) ==> Trim(s) != []
  {
    TrimIsSlice(s);
    var r := Trim(s);
    var i := |TrimEnd(s)| - |r|;
    assert j < |s| && !IsSpace(s[j]) ==> i <= j < i + |r|;
    forall k | 0 <= k < |r| ensures PlainChar(r[k]) { assert r[k] == s[i + k]; }
  }

  lemma PlainLines(s: string)
    requires PlainText(s)
    ensures Listed(Tabled(s)) == s
  {
    assert '\n' !in s;
    assert Split(s, '\n') == [s];
    TrimOfPlain(s, 0);
    T.NoBarsUnchanged([s], 0);
    assert Tabled(s) == s;
    L.NoItemsUnchanged([s], 0);
  }

  lemma PlainParagraph(s: string, j: nat)
    requires PlainText(s) && j < |s| && !IsSpace(s[j])
    ensures P.Paragraphs(s) == P.ParagraphOpen + Trim(s) + "</p>"
  {
    TrimOfPlain(s, j);
    var t := Trim(s);
    assert P.NoBlankLine(s);
    P.OneBlockParagraphs(s);
    assert PlainChar(t[0]);
    assert !P.IsTagBlock(t);
    assert '\n' !in t;
    ReplaceAllCharRemoves(t, '\n', "<br>");
  }

  /** A text without fences comes out of the extraction as it went in, with no blocks. */
  lemma PlainExtraction(s: string)
    requires PlainText(s)
    ensures CF.HtmlOf(CF.Pieces(s, 0), 0) == s && CF.BlocksOf(CF.Pieces(s, 0)) == []
  {
    forall k | 3 <= k ensures !At(s, k, CF.Fence) {
      if At(s, k, CF.Fence) { AtFirst(s, k, CF.Fence); }
    }
    CF.NoClosingFenceNoBlocks(s, 0, 0);
    assert s[0..] == s;
  }

  lemma PlainImages(s: string, j: nat)
    requires PlainText(s) && j < |s| && !IsSpace(s[j])
    ensures I.Images(P.ParagraphOpen + Trim(s) + "</p>") == P.ParagraphOpen + Trim(s) + "</p>"
  {
    TrimOfPlain(s, j);
    var t := Trim(s);
    assert '!' !in t;
    assert '!' !in P.ParagraphOpen + t + "</p>";
    I.NoBangUnchanged(P.ParagraphOpen + t + "</p>");
  }

  /** Word characters and whitespace without a newline, not all whitespace, render as one paragraph holding the trimmed text. */
  lemma PlainTextIsOneParagraph(content: string, j: nat)
    requires PlainText(content) && j < |content| && !IsSpace(content[j])
    ensures Rendered(content) == P.ParagraphOpen + Trim(content) + "</p>"
  {
    var s := content;
    PlainExtraction(s);
    PlainMarked(s);
    PlainLines(s);
    var pieces := CF.Pieces(s, 0);
    var listed := Listed(Tabled(Marked(CF.HtmlOf(pieces, 0))));
    assert listed == s;
    assert CF.RestoredUpTo(listed, [], 0) == s;
    PlainParagraph(s, j);
    PlainImages(s, j);
  }
  /** Whitespace other than newlines gives nothing at all: it is not empty content, but its one block trims to nothing. */
  lemma BlankRendersEmpty(content: string)
    requires content != [] && forall k :: 0 <= k < |content| ==> IsSpace(content[k]) && content[k] != '\n'
    ensures Rendered(content) == ""
  {
    var s := content;
    assert PlainText(s);
    PlainExtraction(s);
    PlainMarked(s);
    PlainLines(s);
    var pieces := CF.Pieces(s, 0);
    var listed := Listed(Tabled(Marked(CF.HtmlOf(pieces, 0))));
    assert listed == s;
    assert CF.RestoredUpTo(listed, [], 0) == s;
    assert P.NoBlankLine(s);
    P.OneBlockParagraphs(s);
    AllSpaceTrimEnd(s);
    assert P.Paragraphs(s) == "";
    I.NoBangUnchanged("");
  }

  /** Every placeholder is made of word characters and starts with `_`. */
  lemma PlaceholderIsPlain(n: nat)
    ensures PlainText(CF.Placeholder(n)) && CF.Placeholder(n)[0] == '_'
  {
    var d := NatToString(n);
    assert CF.Placeholder(n) == "__CODE_BLOCK_" + d + "__";
    forall i | 0 <= i < |d| ensures PlainChar(d[i]) { assert IsDigit(d[i]); }
  }

  /** A placeholder goes through escaping, the rewriting passes, tables and lists unchanged. */
  lemma PlaceholderUntouched(n: nat)
    ensures Listed(Tabled(Marked(CF.Placeholder(n)))) == CF.Placeholder(n)
  {
    var ph := CF.Placeholder(n);
    PlaceholderIsPlain(n);
    PlainMarked(ph);
    PlainLines(ph);
  }

  /** A fence, a word run, a newline, a body with no backtick and a fence make a fenced block. */
  lemma FencedShape(lang: string, body: string)
    requires |lang| > 0 && forall k :: 0 <= k < |lang| ==> IsWordChar(lang[k])
    requires '`' !in body
    ensures CF.IsFencedBlock(CF.Fence + lang + "\n" + body + CF.Fence)
  {
    var b := CF.Fence + lang + "\n" + body + CF.Fence;
    var n := |lang|;
    assert forall k :: 0 <= k < n ==> b[3 + k] == lang[k];
    assert b[3 + n] == '\n';
    assert forall k :: 0 <= k < |body| ==> b[4 + n + k] == body[k];
    assert b[..3] == CF.Fence && b[|b| - 3..] == CF.Fence;
    forall m | 3 <= m < |b| - 3 ensures b[m] != '`' {
      if m >= 4 + n { assert body[m - 4 - n] in body; }
    }
    NoBacktickNoFence(b, 3, |b| - 3);
  }

  /** No fence starts on a stretch without backticks. */
  lemma NoBacktickNoFence(b: string, lo: nat, hi: nat)
    requires hi <= |b| && forall m :: lo <= m < hi ==> b[m] != '`'
    ensures forall m :: lo <= m < hi ==> !At(b, m, CF.Fence)
  {
    forall m | lo <= m < hi ensures !At(b, m, CF.Fence) {
      if m + 3 <= |b| { assert b[m..m + 3][0] == b[m]; }
    }
  }

  /** A fenced block is cut out as one piece. */
  lemma FencedIsOnePiece(b: string)
    requires CF.IsFencedBlock(b)
    ensures CF.Pieces(b, 0) == [CF.Block(b)]
  {
    CF.ClosingFenceFirst(b, 3);
    assert CF.FenceEnd(b, 0) == Some(|b|);
    assert b[0..|b|] == b;
  }

  /** A text that is one fenced block with a language is cut out whole. */
  lemma FencedContent(lang: string, body: string)
    requires |lang| > 0 && forall k :: 0 <= k < |lang| ==> IsWordChar(lang[k])
    requires '`' !in body
    ensures var b := CF.Fence + lang + "\n" + body + CF.Fence;
      && CF.IsFencedBlock(b) && CF.Pieces(b, 0) == [CF.Block(b)]
      && CF.Language(b) == Some(lang) && CF.Content(b) == body
  {
    var b := CF.Fence + lang + "\n" + body + CF.Fence;
    var n := |lang|;
    FencedShape(lang, body);
    FencedIsOnePiece(b);
    assert b[3..3 + n] == lang;
    assert b[3 + n] == '\n';
    assert CF.WordRunEnd(b, 3) == 3 + n by {
      assert forall k :: 3 <= k < 3 + n ==> IsWordChar(b[k]);
    }
    assert b[4 + n..|b| - 3] == body;
  }

  /** The tags around a code block hold no `$`, no `!` and no newline. */
  lemma CodeTagsKeepOut(c: char, lang: string)
    requires c == '$' || c == '!' || c == '\n'
    requires c !in lang
    ensures c !in CF.PreOpen + (" data-language=\"" + lang + "\"") + "><code>"
    ensures c !in "</code></pre>"
  {
  }

  /** A text cut out as one block leaves only its placeholder, and the block itself. */
  lemma OneBlockExtracted(b: string)
    requires CF.Pieces(b, 0) == [CF.Block(b)]
    ensures CF.HtmlOf(CF.Pieces(b, 0), 0) == CF.Placeholder(0)
    ensures CF.BlocksOf(CF.Pieces(b, 0)) == [b]
  {
    var ps := CF.Pieces(b, 0);
    assert ps[1..] == [];
    assert CF.HtmlOf(ps, 0) == CF.Placeholder(0) + "";
    assert CF.BlocksOf(ps) == [b] + [];
  }

  /** Restoring the only block into a text that is just its placeholder gives the rendered block. */
  lemma RestoreWhole(b: string, code: string)
    requires CF.RenderBlock(b) == code && '$' !in code
    ensures CF.RestoredUpTo(CF.Placeholder(0), [b], 1) == code
  {
    var ph := CF.Placeholder(0);
    assert At(ph, 0, ph);
    assert IndexOf(ph, ph, 0) == Some(0);
    assert ph[..0] == [] && ph[|ph|..] == [];
  }

  /** A `pre` element on no blank line is kept by the paragraph pass, and the image pass leaves it alone. */
  lemma PreBlockKept(lang: string, t: string)
    requires '\n' !in lang && '!' !in lang && '!' !in t && P.NoBlankLine(t)
    ensures var code := CF.CodeHtml(Some(lang), t); I.Images(P.Paragraphs(code)) == code
  {
    var u := CF.PreOpen + (" data-language=\"" + lang + "\"") + "><code>";
    var code := CF.CodeHtml(Some(lang), t);
    assert code == u + t + "</code></pre>";
    CodeTagsKeepOut('\n', lang);
    CodeTagsKeepOut('!', lang);
    P.NoBlankInside(u, t, "</code></pre>");
    assert code[..|CF.PreOpen|] == CF.PreOpen;
    assert code[0] == '<' && code[1] == 'p' && code[2] == 'r' && code[3] == 'e';
    assert code[1..4] == "pre";
    assert code[|code| - 1] == '>';
    TrimUnpadded(code);
    assert P.IsTagBlock(code);
    P.OneBlockParagraphs(code);
    assert '!' !in code;
    I.NoBangUnchanged(code);
  }

  /**
   * End to end: a text that is one fenced block with a language, whose body has no backtick,
   * no `$`, no `!` and no blank line, renders as exactly the `pre` element of its trimmed
   * body. The body is not escaped: a `<` or `&` in it comes out as it is.
   */
  lemma CodeBlockComesOutRaw(lang: string, body: string)
    requires |lang| > 0 && forall k :: 0 <= k < |lang| ==> IsWordChar(lang[k])
    requires '`' !in body && '$' !in body && '!' !in body && P.NoBlankLine(body)
    ensures Rendered(CF.Fence + lang + "\n" + body + CF.Fence) == CF.CodeHtml(Some(lang), Trim(body))
  {
    var b := CF.Fence + lang + "\n" + body + CF.Fence;
    FencedContent(lang, body);
    OneBlockExtracted(b);
    PlaceholderUntouched(0);
    var t := Trim(body);
    var code := CF.CodeHtml(Some(lang), t);
    CF.RenderFencedBlock(b);
    TrimKeepsOut(body, '$');
    TrimKeepsOut(body, '!');
    WordsKeepOut(lang);
    CodeTagsKeepOut('$', lang);
    assert '$' !in code;
    RestoreWhole(b, code);
    TrimNoBlank(body);
    PreBlockKept(lang, t);
  }

  /** A word run holds no `$`, no `!` and no newline. */
  lemma WordsKeepOut(w: string)
    requires forall k :: 0 <= k < |w| ==> IsWordChar(w[k])
    ensures '$' !in w && '!' !in w && '\n' !in w
  {
  }

  /** Trimming does not make a blank line. */
  lemma TrimNoBlank(s: string)
    requires P.NoBlankLine(s)
    ensures P.NoBlankLine(Trim(s))
  {
    var t := Trim(s);
    TrimIsSlice(s);
    var i := |TrimEnd(s)| - |t|;
    P.NoBlankSlice(s, i, i + |t|);
  }
}

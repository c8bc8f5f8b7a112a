/**
 * Fenced code blocks (components/MarkdownRenderer.tsx): they are cut out of the text
 * before any other pass (lines 15-21) and put back, rendered, after the list pass
 * (lines 216-223).
 */
module CodeFences {
  import opened Wrappers
  import opened Text
  import opened Rewrite

  const Fence := "```"

  /** The marker that stands in for the `n`-th code block while the other passes run. */
  function Placeholder(n: nat): string {
    "__CODE_BLOCK_" + NatToString(n) + "__"
  }

  /**
   * `/```([\s\S]*?)```/` at `p`: a fence, then lazily anything (newlines included) up to the
   * first fence that starts at least three characters later; the result is the match's end.
   */
  function FenceEnd(s: string, p: nat): (r: Option<nat>)
    ensures r.Some? ==> p + 6 <= r.value <= |s|
  {
    if At(s, p, Fence) then
      match IndexOf(s, Fence, p + 3)
      case Some(k) => Some(k + 3)
      case None => None
    else None
  }

  /** The match is the lazy one: it ends with the first fence after the opening one. */
  lemma FenceEndMatches(s: string, p: nat)
    ensures FenceEnd(s, p).Some? <==> At(s, p, Fence) && exists k :: p + 3 <= k && At(s, k, Fence)
    ensures FenceEnd(s, p).Some? ==>
      var e := FenceEnd(s, p).value;
      At(s, e - 3, Fence) && forall m :: p + 3 <= m < e - 3 ==> !At(s, m, Fence)
  {
  }

  /** How the global scan cuts the text: single characters and whole fenced blocks. */
  datatype Piece = Plain(c: char) | Block(text: string)

  function Pieces(s: string, p: nat): seq<Piece>
    requires p <= |s|
    decreases |s| - p
  {
    if p == |s| then []
    else
      match FenceEnd(s, p)
      case Some(e) => [Block(s[p..e])] + Pieces(s, e)
      case None => [Plain(s[p])] + Pieces(s, p + 1)
  }

  /** The text the pieces were cut from. */
  function Raw(ps: seq<Piece>): string {
    if ps == [] then ""
    else (match ps[0] case Plain(c) => [c] case Block(t) => t) + Raw(ps[1..])
  }

  /** The blocks, in the order they are pushed onto `codeBlocks`. */
  function BlocksOf(ps: seq<Piece>): seq<string> {
    if ps == [] then []
    else (match ps[0] case Plain(_) => [] case Block(t) => [t]) + BlocksOf(ps[1..])
  }

  /** The text with the `n`-th, `n+1`-th, ... block replaced by its placeholder. */
  function HtmlOf(ps: seq<Piece>, n: nat): string {
    if ps == [] then ""
    else
      match ps[0]
      case Plain(c) => [c] + HtmlOf(ps[1..], n)
      case Block(_) => Placeholder(n) + HtmlOf(ps[1..], n + 1)
  }

  /** A block as the extraction cuts it: fence, a body with no fence in it, fence. */
  predicate IsFencedBlock(b: string) {
    && |b| >= 6 && At(b, 0, Fence) && At(b, |b| - 3, Fence)
    && forall m :: 3 <= m < |b| - 3 ==> !At(b, m, Fence)
  }

  /** Cutting loses nothing: the pieces put together again are the text. */
  lemma {:induction false} PiecesReassemble(s: string, p: nat)
    requires p <= |s|
    ensures Raw(Pieces(s, p)) == s[p..]
    decreases |s| - p
  {
    if p < |s| {
      match FenceEnd(s, p)
      case Some(e) =>
        var ps := Pieces(s, p);
        assert ps == [Block(s[p..e])] + Pieces(s, e);
        assert ps[1..] == Pieces(s, e);
        PiecesReassemble(s, e);
        assert Raw(ps) == s[p..e] + Raw(Pieces(s, e));
        assert s[p..] == s[p..e] + s[e..];
      case None =>
        var ps := Pieces(s, p);
        assert ps == [Plain(s[p])] + Pieces(s, p + 1);
        assert ps[1..] == Pieces(s, p + 1);
        PiecesReassemble(s, p + 1);
        assert Raw(ps) == [s[p]] + Raw(Pieces(s, p + 1));
        assert s[p..] == [s[p]] + s[p + 1..];
    }
  }

  lemma BlockIsFenced(s: string, p: nat, e: nat)
    requires FenceEnd(s, p) == Some(e)
    ensures IsFencedBlock(s[p..e])
  {
    var b := s[p..e];
    FenceEndMatches(s, p);
    assert At(b, 0, Fence) by { assert b[0..3] == s[p..p + 3]; }
    assert At(b, |b| - 3, Fence) by { assert b[|b| - 3..|b|] == s[e - 3..e]; }
    forall m | 3 <= m < |b| - 3 ensures !At(b, m, Fence) {
      assert b[m..m + 3] == s[p + m..p + m + 3];
      assert !At(s, p + m, Fence);
    }
  }

  /** Every extracted block is one whole fenced block. */
  lemma {:induction false} BlocksAreFenced(s: string, p: nat)
    requires p <= |s|
    ensures forall i :: 0 <= i < |BlocksOf(Pieces(s, p))| ==> IsFencedBlock(BlocksOf(Pieces(s, p))[i])
    decreases |s| - p
  {
    if p < |s| {
      match FenceEnd(s, p)
      case Some(e) =>
        BlocksAreFenced(s, e);
        BlockIsFenced(s, p, e);
        assert BlocksOf(Pieces(s, p)) == [s[p..e]] + BlocksOf(Pieces(s, e));
      case None =>
        BlocksAreFenced(s, p + 1);
        assert BlocksOf(Pieces(s, p)) == BlocksOf(Pieces(s, p + 1));
    }
  }

  /**
   * Where no fence starts three or more characters after `p`, nothing from `p` on is cut out:
   * an unterminated fence stays in the text as it is, and so does everything after it.
   */
  lemma {:induction false} NoClosingFenceNoBlocks(s: string, p: nat, n: nat)
    requires p <= |s|
    requires forall k :: p + 3 <= k ==> !At(s, k, Fence)
    ensures BlocksOf(Pieces(s, p)) == []
    ensures HtmlOf(Pieces(s, p), n) == s[p..]
    decreases |s| - p
  {
    if p < |s| {
      FenceEndMatches(s, p);
      assert FenceEnd(s, p).None?;
      NoClosingFenceNoBlocks(s, p + 1, n);
      assert s[p..] == [s[p]] + s[p + 1..];
    }
  }

  lemma ExtractStep(s: string, p: nat, n: nat)
    requires p < |s|
    ensures FenceEnd(s, p).Some? ==>
      var e := FenceEnd(s, p).value;
      && HtmlOf(Pieces(s, p), n) == Placeholder(n) + HtmlOf(Pieces(s, e), n + 1)
      && BlocksOf(Pieces(s, p)) == [s[p..e]] + BlocksOf(Pieces(s, e))
    ensures FenceEnd(s, p).None? ==>
      && HtmlOf(Pieces(s, p), n) == [s[p]] + HtmlOf(Pieces(s, p + 1), n)
      && BlocksOf(Pieces(s, p)) == BlocksOf(Pieces(s, p + 1))
  {
    var ps := Pieces(s, p);
    match FenceEnd(s, p)
    case Some(e) =>
      assert ps == [Block(s[p..e])] + Pieces(s, e);
      assert ps[1..] == Pieces(s, e);
    case None =>
      assert ps == [Plain(s[p])] + Pieces(s, p + 1);
      assert ps[1..] == Pieces(s, p + 1);
  }

  /** A fenced block at `p`: its placeholder goes into the text and the block onto the list. */
  lemma BlockStep(s: string, p: nat, e: nat, html: string, blocks: seq<string>)
    requires p < |s| && FenceEnd(s, p) == Some(e)
    requires html + HtmlOf(Pieces(s, p), |blocks|) == HtmlOf(Pieces(s, 0), 0)
    requires blocks + BlocksOf(Pieces(s, p)) == BlocksOf(Pieces(s, 0))
    ensures html + Placeholder(|blocks|) + HtmlOf(Pieces(s, e), |blocks| + 1) == HtmlOf(Pieces(s, 0), 0)
    ensures blocks + [s[p..e]] + BlocksOf(Pieces(s, e)) == BlocksOf(Pieces(s, 0))
  {
    ExtractStep(s, p, |blocks|);
    var h := HtmlOf(Pieces(s, e), |blocks| + 1);
    var ph := Placeholder(|blocks|);
    ConcatAssoc(html, ph, h);
    ConcatAssoc(blocks, [s[p..e]], BlocksOf(Pieces(s, e)));
  }

  /** Any other character at `p` is copied. */
  lemma CharStep(s: string, p: nat, html: string, blocks: seq<string>)
    requires p < |s| && FenceEnd(s, p).None?
    requires html + HtmlOf(Pieces(s, p), |blocks|) == HtmlOf(Pieces(s, 0), 0)
    requires blocks + BlocksOf(Pieces(s, p)) == BlocksOf(Pieces(s, 0))
    ensures html + [s[p]] + HtmlOf(Pieces(s, p + 1), |blocks|) == HtmlOf(Pieces(s, 0), 0)
    ensures blocks + BlocksOf(Pieces(s, p + 1)) == BlocksOf(Pieces(s, 0))
  {
    ExtractStep(s, p, |blocks|);
    ConcatAssoc(html, [s[p]], HtmlOf(Pieces(s, p + 1), |blocks|));
  }

  /** Lines 16-21: the global replace with a callback that numbers and stores each block. */
  method ExtractCodeBlocks(content: string) returns (html: string, blocks: seq<string>)
    ensures html == HtmlOf(Pieces(content, 0), 0)
    ensures blocks == BlocksOf(Pieces(content, 0))
  {
    html := "";
    blocks := [];
    var p := 0;
    while p < |content|
      invariant p <= |content|
      invariant html + HtmlOf(Pieces(content, p), |blocks|) == HtmlOf(Pieces(content, 0), 0)
      invariant blocks + BlocksOf(Pieces(content, p)) == BlocksOf(Pieces(content, 0))
      decreases |content| - p
    {
      match FenceEnd(content, p)
      case Some(e) =>
        BlockStep(content, p, e, html, blocks);
        html := html + Placeholder(|blocks|);
        blocks := blocks + [content[p..e]];
        p := e;
      case None =>
        CharStep(content, p, html, blocks);
        html := html + [content[p]];
        p := p + 1;
    }
  }

  /** The end of the run of `\w` characters that starts at `q`. */
  function WordRunEnd(s: string, q: nat): (e: nat)
    requires q <= |s|
    decreases |s| - q
    ensures q <= e <= |s| && (forall k :: q <= k < e ==> IsWordChar(s[k]))
    ensures e < |s| ==> !IsWordChar(s[e])
  {
    if q < |s| && IsWordChar(s[q]) then WordRunEnd(s, q + 1) else q
  }

  const PreOpen := "<pre class=\"notion-code\""

  /** Line 220. */
  function CodeHtml(lang: Option<string>, code: string): string {
    PreOpen
    + (match lang case Some(l) => " data-language=\"" + l + "\"" case None => "")
    + "><code>" + code + "</code></pre>"
  }

  /**
   * `/```(?:(\w+)\n)?([\s\S]*?)```/` at `p`: a fence, an optional language (a run of word
   * characters that a newline ends), and lazily the content up to the next fence.
   */
  function CodeBlockAt(s: string, p: nat): Option<Hit> {
    if At(s, p, Fence) then
      var w := WordRunEnd(s, p + 3);
      var lang := if p + 3 < w < |s| && s[w] == '\n' then Some(s[p + 3..w]) else None;
      var start := if lang.Some? then w + 1 else p + 3;
      match IndexOf(s, Fence, start)
      case Some(k) => Some(Hit(k + 3, CodeHtml(lang, Trim(s[start..k]))))
      case None => None
    else None
  }

  /** Line 218: the block's own text run through the replace above. */
  function RenderBlock(b: string): string {
    ReplaceAll(b, CodeBlockAt)
  }

  /** The language of a fenced block: the word right after the opening fence, if a newline ends it. */
  function Language(b: string): (r: Option<string>)
    requires IsFencedBlock(b)
    ensures r.Some? ==> |r.value| > 0 && 3 + |r.value| < |b| - 3 && r.value == b[3..3 + |r.value|]
    ensures r.Some? ==> b[3 + |r.value|] == '\n' && forall k :: 0 <= k < |r.value| ==> IsWordChar(r.value[k])
  {
    var w := WordRunEnd(b, 3);
    if 3 < w < |b| && b[w] == '\n' then
      assert w < |b| - 3 by {
        assert b[|b| - 3..|b|] == Fence;
        assert b[|b| - 3] == '`' && b[|b| - 2] == '`' && b[|b| - 1] == '`';
      }
      Some(b[3..w])
    else None
  }

  /** A block has a language exactly when a non-empty run of word characters after the fence ends with a newline. */
  lemma LanguageMeans(b: string)
    requires IsFencedBlock(b)
    ensures Language(b).Some? <==> exists w :: 3 < w < |b| && b[w] == '\n' && forall k :: 3 <= k < w ==> IsWordChar(b[k])
  {
    var e := WordRunEnd(b, 3);
    if Language(b).None? {
      forall w | 3 < w < |b| && b[w] == '\n' ensures !(forall k :: 3 <= k < w ==> IsWordChar(b[k])) {
        if e < w {
          assert !IsWordChar(b[e]);
        }
      }
    }
  }

  /** The code of a fenced block: what lies between the language line (if any) and the closing fence. */
  function Content(b: string): string
    requires IsFencedBlock(b)
  {
    match Language(b)
    case Some(l) => b[3 + |l| + 1..|b| - 3]
    case None => b[3..|b| - 3]
  }

  /**
   * A fenced block renders as one `pre` element: the `data-language` attribute carries the
   * language when there is one, and the code is the block's content trimmed and not escaped.
   */
  lemma RenderFencedBlock(b: string)
    requires IsFencedBlock(b)
    ensures RenderBlock(b) == CodeHtml(Language(b), Trim(Content(b)))
  {
    var h := Hit(|b|, CodeHtml(Language(b), Trim(Content(b))));
    FencedBlockHit(b);
    assert HitAt(b, CodeBlockAt, 0) == Some(h);
    ReplaceAtHit(b, CodeBlockAt, 0, h);
    assert Replace(b, CodeBlockAt, |b|) == "";
  }

  /** The closing fence is the first fence after the opening one. */
  lemma ClosingFenceFirst(b: string, start: nat)
    requires IsFencedBlock(b) && 3 <= start <= |b| - 3
    ensures IndexOf(b, Fence, start) == Some(|b| - 3)
  {
  }

  /** The code-block pattern matches a fenced block as a whole. */
  lemma FencedBlockHit(b: string)
    requires IsFencedBlock(b)
    ensures CodeBlockAt(b, 0) == Some(Hit(|b|, CodeHtml(Language(b), Trim(Content(b)))))
  {
    var w := WordRunEnd(b, 3);
    assert At(b, 0, Fence);
    if 3 < w < |b| && b[w] == '\n' {
      assert Language(b) == Some(b[3..w]);
      ClosingFenceFirst(b, w + 1);
      var code := b[w + 1..|b| - 3];
      assert CodeBlockAt(b, 0) == Some(Hit(|b|, CodeHtml(Some(b[3..w]), Trim(code))));
      assert Content(b) == code;
    } else {
      assert Language(b) == None;
      ClosingFenceFirst(b, 3);
      var code := b[3..|b| - 3];
      assert CodeBlockAt(b, 0) == Some(Hit(|b|, CodeHtml(None, Trim(code))));
      assert Content(b) == code;
    }
  }

  /**
   * `ECMAScript` GetSubstitution for a string pattern (no capture groups): `$$` is a dollar,
   * `$&` the matched text, `` $` `` the text before it, `$'` the text after it; any other
   * dollar is kept.
   */
  function Substitute(t: string, matched: string, before: string, after: string): (r: string)
    ensures '$' !in t ==> r == t
  {
    if t == [] then ""
    else if t[0] == '$' && |t| >= 2 && t[1] == '$' then "$" + Substitute(t[2..], matched, before, after)
    else if t[0] == '$' && |t| >= 2 && t[1] == '&' then matched + Substitute(t[2..], matched, before, after)
    else if t[0] == '$' && |t| >= 2 && t[1] == '`' then before + Substitute(t[2..], matched, before, after)
    else if t[0] == '$' && |t| >= 2 && t[1] == '\'' then after + Substitute(t[2..], matched, before, after)
    else [t[0]] + Substitute(t[1..], matched, before, after)
  }

  /** `s.replace(pat, rep)` with string arguments: the first occurrence, with `$` patterns expanded. */
  function ReplaceFirstJs(s: string, pat: string, rep: string): (r: string)
    ensures (forall k: nat :: !At(s, k, pat)) ==> r == s
    ensures forall i: nat :: At(s, i, pat) && (forall k: nat :: k < i ==> !At(s, k, pat)) ==>
              r == s[..i] + Substitute(rep, pat, s[..i], s[i + |pat|..]) + s[i + |pat|..]
  {
    match IndexOf(s, pat, 0)
    case None => s
    case Some(i) => s[..i] + Substitute(rep, pat, s[..i], s[i + |pat|..]) + s[i + |pat|..]
  }

  /** Without a dollar sign the replacement is inserted as it is. */
  lemma ReplaceFirstJsLiteral(s: string, pat: string, rep: string)
    requires '$' !in rep
    ensures ReplaceFirstJs(s, pat, rep) == ReplaceFirst(s, pat, rep)
  {
  }

  /** Text without a dollar sign in front of the rest is copied as it is. */
  lemma {:induction false} SubstituteCopiesPrefix(x: string, t: string, matched: string, before: string, after: string)
    requires '$' !in x
    ensures Substitute(x + t, matched, before, after) == x + Substitute(t, matched, before, after)
    decreases |x|
  {
    if x != [] {
      var u := x + t;
      assert u[0] == x[0] && x[0] != '$';
      assert Substitute(u, matched, before, after) == [u[0]] + Substitute(u[1..], matched, before, after);
      assert u[1..] == x[1..] + t;
      assert '$' !in x[1..] by { forall c | c in x[1..] ensures c in x { } }
      SubstituteCopiesPrefix(x[1..], t, matched, before, after);
      assert [x[0]] + x[1..] == x;
      ConcatAssoc([x[0]], x[1..], Substitute(t, matched, before, after));
    } else {
      assert x + t == t;
    }
  }

  /** Code whose only dollar signs are one `$$` loses one of them when it is put back. */
  lemma DoubleDollarCollapses(x: string, y: string, matched: string, before: string, after: string)
    requires '$' !in x && '$' !in y
    ensures Substitute(x + "$$" + y, matched, before, after) == x + "$" + y
  {
    assert x + "$$" + y == x + ("$$" + y);
    SubstituteCopiesPrefix(x, "$$" + y, matched, before, after);
    assert ("$$" + y)[2..] == y;
  }

  /** The text after the first `i` blocks have been put back, in index order. */
  function RestoredUpTo(html: string, blocks: seq<string>, i: nat): string
    requires i <= |blocks|
  {
    if i == 0 then html
    else ReplaceFirstJs(RestoredUpTo(html, blocks, i - 1), Placeholder(i - 1), RenderBlock(blocks[i - 1]))
  }

  /** Lines 217-223: every block is rendered and replaces the first occurrence of its placeholder. */
  method RestoreCodeBlocks(html0: string, blocks: seq<string>) returns (html: string)
    ensures html == RestoredUpTo(html0, blocks, |blocks|)
  {
    html := html0;
    for i := 0 to |blocks|
      invariant html == RestoredUpTo(html0, blocks, i)
    {
      var code := RenderBlock(blocks[i]);
      html := ReplaceFirstJs(html, Placeholder(i), code);
    }
  }
}

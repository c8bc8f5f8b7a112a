/**
 * The paragraph pass of the renderer (components/MarkdownRenderer.tsx lines 225-242): the text
 * is split at blank lines, each block is trimmed, blocks that start with a known tag are kept and
 * the others become paragraphs.
 */
module Paragraphs {
  import opened Wrappers
  import opened Text

  /** A match of `/\n\s*\n/` can start at `q`: a newline, whitespace, and a later newline. */
  predicate HasBlank(s: string, q: nat) {
    exists b :: q < b < |s| && s[q] == '\n' && s[b] == '\n' && forall k :: q < k < b ==> IsSpace(s[k])
  }

  /** The last newline in `s[a..b]`. */
  function LastNewline(s: string, a: nat, b: nat): (r: Option<nat>)
    requires a <= b <= |s|
    decreases b - a
    ensures r.Some? ==> a <= r.value < b && s[r.value] == '\n' && forall k :: r.value < k < b ==> s[k] != '\n'
    ensures r.None? ==> forall k :: a <= k < b ==> s[k] != '\n'
  {
    if a == b then None
    else if s[b - 1] == '\n' then Some(b - 1)
    else LastNewline(s, a, b - 1)
  }

  /**
   * `/\n\s*\n/` at `q`: the greedy `\s*` takes the whole whitespace run and gives back up to its
   * last newline, so the match ends right after the last newline of that run.
   */
  function BlankAt(s: string, q: nat): (r: Option<nat>)
    ensures r.Some? <==> HasBlank(s, q)
    ensures r.Some? ==>
      && q + 2 <= r.value <= |s| && s[q] == '\n' && s[r.value - 1] == '\n'
      && (forall k :: q < k < r.value ==> IsSpace(s[k]))
      && (forall k :: r.value <= k < SpaceRunEnd(s, q + 1) ==> s[k] != '\n')
  {
    if q < |s| && s[q] == '\n' then
      match LastNewline(s, q + 1, SpaceRunEnd(s, q + 1))
      case Some(m) => Some(m + 1)
      case None =>
        assert !HasBlank(s, q) by {
          forall b | q < b < |s| && (forall k :: q < k < b ==> IsSpace(s[k]))
            ensures s[b] != '\n'
          {
            assert !IsSpace(s[b]) || b < SpaceRunEnd(s, q + 1);
          }
        }
        None
    else None
  }

  lemma SliceBlank(s: string, p: nat, q: nat, a: nat)
    requires p <= q <= |s| && HasBlank(s[p..q], a)
    ensures HasBlank(s, p + a)
  {
    var t := s[p..q];
    var b :| a < b < |t| && t[a] == '\n' && t[b] == '\n' && forall k :: a < k < b ==> IsSpace(t[k]);
    assert s[p + b] == '\n';
    forall k | p + a < k < p + b ensures IsSpace(s[k]) {
      assert s[k] == t[k - p];
    }
  }

  predicate NoBlankLine(t: string) {
    forall a :: 0 <= a < |t| ==> !HasBlank(t, a)
  }

  /** A slice of a text without a blank line has none either. */
  lemma NoBlankSlice(s: string, i: nat, j: nat)
    requires i <= j <= |s| && NoBlankLine(s)
    ensures NoBlankLine(s[i..j])
  {
    forall a | 0 <= a < j - i ensures !HasBlank(s[i..j], a) {
      if HasBlank(s[i..j], a) { SliceBlank(s, i, j, a); }
    }
  }

  /** Text without a newline on both sides of a text without a blank line adds no blank line. */
  lemma NoBlankInside(u: string, m: string, v: string)
    requires '\n' !in u && '\n' !in v && NoBlankLine(m)
    ensures NoBlankLine(u + m + v)
  {
    var s := u + m + v;
    forall k | 0 <= k < |u| ensures s[k] != '\n' { assert s[k] == u[k] && u[k] in u; }
    forall k | |u| + |m| <= k < |s| ensures s[k] != '\n' {
      assert s[k] == v[k - |u| - |m|] && v[k - |u| - |m|] in v;
    }
    forall a | 0 <= a < |s| ensures !HasBlank(s, a) {
      if HasBlank(s, a) {
        var b :| a < b < |s| && s[a] == '\n' && s[b] == '\n' && forall k :: a < k < b ==> IsSpace(s[k]);
        assert |u| <= a < b < |u| + |m|;
        assert m[a - |u|] == '\n' && m[b - |u|] == '\n';
        forall k | a - |u| < k < b - |u| ensures IsSpace(m[k]) { assert m[k] == s[k + |u|]; }
        assert HasBlank(m, a - |u|);
      }
    }
  }

  /**
   * `s.split(/\n\s*\n/)` from the piece that starts at `p`, with the search at `q`: the pieces
   * between the matches, found left to right, each search resuming after the last match.
   */
  function SplitFrom(s: string, p: nat, q: nat): (r: seq<string>)
    requires p <= q <= |s|
    requires forall x :: p <= x < q ==> !HasBlank(s, x)
    decreases |s| - q
    ensures |r| >= 1
    ensures forall i :: 0 <= i < |r| ==> NoBlankLine(r[i])
  {
    if q == |s| then
      PieceHasNoBlank(s, p, q);
      assert s[p..q] == s[p..];
      [s[p..]]
    else
      match BlankAt(s, q)
      case Some(e) =>
        PieceHasNoBlank(s, p, q);
        [s[p..q]] + SplitFrom(s, e, e)
      case None => SplitFrom(s, p, q + 1)
  }

  /** The separators that `SplitFrom` removes, in order. */
  function SeparatorsFrom(s: string, p: nat, q: nat): seq<string>
    requires p <= q <= |s|
    requires forall x :: p <= x < q ==> !HasBlank(s, x)
    decreases |s| - q
  {
    if q == |s| then []
    else
      match BlankAt(s, q)
      case Some(e) => [s[q..e]] + SeparatorsFrom(s, e, e)
      case None => SeparatorsFrom(s, p, q + 1)
  }

  lemma PieceHasNoBlank(s: string, p: nat, q: nat)
    requires p <= q <= |s|
    requires forall x :: p <= x < q ==> !HasBlank(s, x)
    ensures NoBlankLine(s[p..q])
  {
    forall a | 0 <= a < q - p ensures !HasBlank(s[p..q], a) {
      if HasBlank(s[p..q], a) { SliceBlank(s, p, q, a); }
    }
  }

  function SplitBlank(s: string): seq<string> {
    SplitFrom(s, 0, 0)
  }

  /** Pieces and separators, alternately. */
  function Weave(pieces: seq<string>, seps: seq<string>): string
    requires |pieces| == |seps| + 1
  {
    if seps == [] then pieces[0] else pieces[0] + seps[0] + Weave(pieces[1..], seps[1..])
  }

  /** A separator: a newline, whitespace, and a newline. */
  predicate IsSeparator(t: string) {
    |t| >= 2 && t[0] == '\n' && t[|t| - 1] == '\n' && AllSpace(t)
  }

  /** Splitting loses nothing but the separators: woven back together the pieces give the text. */
  lemma {:induction false} SplitReassembles(s: string, p: nat, q: nat)
    requires p <= q <= |s|
    requires forall x :: p <= x < q ==> !HasBlank(s, x)
    decreases |s| - q
    ensures |SplitFrom(s, p, q)| == |SeparatorsFrom(s, p, q)| + 1
    ensures Weave(SplitFrom(s, p, q), SeparatorsFrom(s, p, q)) == s[p..]
    ensures forall i :: 0 <= i < |SeparatorsFrom(s, p, q)| ==> IsSeparator(SeparatorsFrom(s, p, q)[i])
  {
    if q < |s| {
      match BlankAt(s, q)
      case Some(e) =>
        SplitReassembles(s, e, e);
        var rest := SplitFrom(s, e, e);
        var seps := SeparatorsFrom(s, e, e);
        assert SplitFrom(s, p, q) == [s[p..q]] + rest;
        assert SeparatorsFrom(s, p, q) == [s[q..e]] + seps;
        assert ([s[p..q]] + rest)[1..] == rest;
        assert ([s[q..e]] + seps)[1..] == seps;
        assert s[p..] == s[p..q] + s[q..e] + s[e..];
        assert IsSeparator(s[q..e]);
      case None =>
        SplitReassembles(s, p, q + 1);
    }
  }

  /** Text without a blank line is one block. */
  lemma {:induction false} NoBlankOneBlock(s: string, p: nat, q: nat)
    requires p <= q <= |s|
    requires forall x :: p <= x < |s| ==> !HasBlank(s, x)
    decreases |s| - q
    ensures SplitFrom(s, p, q) == [s[p..]]
  {
    if q < |s| {
      NoBlankOneBlock(s, p, q + 1);
    }
  }

  /** `/^<(h[1-6]|ul|ol|li|pre|blockquote|div|p|table|hr)/` (line 236); there is no word boundary, so `<p` covers `<pre>`. */
  predicate IsTagBlock(b: string) {
    && At(b, 0, "<")
    && (|| (At(b, 1, "h") && |b| > 2 && '1' <= b[2] <= '6')
        || At(b, 1, "ul") || At(b, 1, "ol") || At(b, 1, "li") || At(b, 1, "pre")
        || At(b, 1, "blockquote") || At(b, 1, "div") || At(b, 1, "p") || At(b, 1, "table")
        || At(b, 1, "hr"))
  }

  const ParagraphOpen := "<p class=\"notion-paragraph\">"

  /**
   * Lines 231-241: an empty block stays empty, a tag block is kept as it is, and any other
   * block becomes a paragraph in which every newline is a `<br>`.
   */
  function FormatBlock(block: string): (r: string)
    ensures r == [] <==> Trim(block) == []
    ensures Trim(block) != [] && IsTagBlock(Trim(block)) ==> r == Trim(block)
    ensures !IsTagBlock(Trim(block)) ==> '\n' !in r
    ensures Trim(block) != [] && !IsTagBlock(Trim(block)) ==>
      r == ParagraphOpen + Join(Split(Trim(block), '\n'), "<br>") + "</p>"
  {
    var t := Trim(block);
    if t == [] then ""
    else if IsTagBlock(t) then t
    else
      var body := ReplaceAllChar(t, '\n', "<br>");
      assert '\n' !in "<br>";
      ReplaceAllCharRemoves(t, '\n', "<br>");
      ReplaceAllCharIsSplitJoin(t, '\n', "<br>");
      assert '\n' !in ParagraphOpen && '\n' !in "</p>";
      ParagraphOpen + body + "</p>"
  }

  function FormatAll(blocks: seq<string>): (r: seq<string>)
    ensures |r| == |blocks| && forall i :: 0 <= i < |blocks| ==> r[i] == FormatBlock(blocks[i])
  {
    if blocks == [] then [] else [FormatBlock(blocks[0])] + FormatAll(blocks[1..])
  }

  /** Lines 228-242. */
  function Paragraphs(html: string): string {
    Join(FormatAll(SplitBlank(html)), "\n\n")
  }

  /** Text with no blank line is formatted as one block: whitespace gives nothing, a tag block stays. */
  lemma OneBlockParagraphs(s: string)
    requires NoBlankLine(s)
    ensures Paragraphs(s) == FormatBlock(s)
  {
    NoBlankOneBlock(s, 0, 0);
    assert s[0..] == s;
  }
}

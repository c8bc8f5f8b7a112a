/**
 * The single-line block passes of the renderer (components/MarkdownRenderer.tsx): headings
 * (lines 30-36), horizontal rules (line 62), callouts (lines 65-68) and quotes (line 71).
 */
module BlockPasses {
  import opened Wrappers
  import opened Text
  import opened Rewrite

  /** A multiline `^` holds at `p`: the start of the text, or right after a line terminator. */
  predicate LineStart(s: string, p: nat) {
    p == 0 || (p <= |s| && IsLineTerminator(s[p - 1]))
  }

  /** Where a multiline `$` first holds at or after `q`: the next line terminator, or the end. */
  function LineEnd(s: string, q: nat): (e: nat)
    requires q <= |s|
    decreases |s| - q
    ensures q <= e <= |s|
    ensures forall k :: q <= k < e ==> !IsLineTerminator(s[k])
    ensures e < |s| ==> IsLineTerminator(s[e])
  {
    if q == |s| || IsLineTerminator(s[q]) then q else LineEnd(s, q + 1)
  }

  function Hashes(n: nat): (r: string)
    ensures |r| == n && forall i :: 0 <= i < n ==> r[i] == '#'
  {
    if n == 0 then "" else "#" + Hashes(n - 1)
  }

  function HeadingOpen(level: nat): string
    requires 1 <= level <= 6
  {
    "<h" + [DigitChar(level)] + " class=\"notion-h" + [DigitChar(level)] + "\">"
  }

  function HeadingClose(level: nat): string
    requires 1 <= level <= 6
  {
    "</h" + [DigitChar(level)] + ">"
  }

  function HeadingHtml(level: nat, text: string): string
    requires 1 <= level <= 6
  {
    HeadingOpen(level) + text + HeadingClose(level)
  }

  /**
   * `^#{level} (.*$)` with the multiline flag: a line that starts with exactly the marker
   * `level` hashes and a space; the rest of the line is the heading text.
   */
  function HeadingAt(level: nat, s: string, p: nat): (r: Option<Hit>)
    requires 1 <= level <= 6
    ensures r.Some? <==> LineStart(s, p) && At(s, p, Hashes(level) + " ")
    ensures r.Some? ==>
      var e := r.value.end;
      && p + level + 1 <= e <= |s| && (e == |s| || IsLineTerminator(s[e]))
      && (forall k :: p + level + 1 <= k < e ==> !IsLineTerminator(s[k]))
      && r.value.out == HeadingHtml(level, s[p + level + 1..e])
  {
    if LineStart(s, p) && At(s, p, Hashes(level) + " ") then
      var e := LineEnd(s, p + level + 1);
      Some(Hit(e, HeadingHtml(level, s[p + level + 1..e])))
    else None
  }

  function HeadingPass(level: nat, s: string): string
    requires 1 <= level <= 6
  {
    ReplaceAll(s, (t: string, q: nat) => HeadingAt(level, t, q))
  }

  /** The six heading passes, level 1 first, as in the source. */
  function Headings(s: string): string {
    HeadingPass(6, HeadingPass(5, HeadingPass(4, HeadingPass(3, HeadingPass(2, HeadingPass(1, s))))))
  }

  /** The end of the run of hyphens that starts at `q`. */
  function HyphenRunEnd(s: string, q: nat): (e: nat)
    requires q <= |s|
    decreases |s| - q
    ensures q <= e <= |s| && (forall k :: q <= k < e ==> s[k] == '-') && (e < |s| ==> s[e] != '-')
  {
    if q < |s| && s[q] == '-' then HyphenRunEnd(s, q + 1) else q
  }

  const HrHtml := "<hr class=\"notion-hr\">"

  /** `^-{3,}$` with the multiline flag: a whole line of three or more hyphens. */
  function HrAt(s: string, p: nat): (r: Option<Hit>)
    ensures r.Some? <==>
      p <= |s| && LineStart(s, p) && LineEnd(s, p) >= p + 3 && forall k :: p <= k < LineEnd(s, p) ==> s[k] == '-'
    ensures r.Some? ==> r.value == Hit(LineEnd(s, p), HrHtml)
  {
    if p <= |s| && LineStart(s, p) then
      var e := HyphenRunEnd(s, p);
      if e >= p + 3 && (e == |s| || IsLineTerminator(s[e])) then
        assert LineEnd(s, p) == e by { LineEndAfterRun(s, p, e); }
        Some(Hit(e, HrHtml))
      else
        assert e < LineEnd(s, p) || LineEnd(s, p) < p + 3 by {
          if e >= p + 3 { assert e < |s| && !IsLineTerminator(s[e]); }
        }
        None
    else None
  }

  lemma LineEndAfterRun(s: string, p: nat, e: nat)
    requires p <= e <= |s| && (forall k :: p <= k < e ==> !IsLineTerminator(s[k]))
    requires e == |s| || IsLineTerminator(s[e])
    ensures LineEnd(s, p) == e
    decreases e - p
  {
    if p < e { LineEndAfterRun(s, p + 1, e); }
  }

  function Rules(s: string): string {
    ReplaceAll(s, HrAt)
  }

  const DivClass := "<div class=\""
  const CalloutClass := DivClass + "notion-callout" + " notion-callout-"
  const CalloutContent := "\">" + DivClass + "notion-callout-" + "content\">"

  function CalloutOpen(variant: string): string {
    CalloutClass + variant + CalloutContent
  }

  function CalloutHtml(variant: string, body: string): string {
    CalloutOpen(variant) + body + "</div></div>"
  }

  /** `(?=\n\n|$)` after a lazy body from `q`: the first blank line at or after `q`, or the end. */
  function BodyEnd(s: string, q: nat): (e: nat)
    requires q <= |s|
    ensures q <= e <= |s| && (e == |s| || At(s, e, "\n\n"))
    ensures forall k :: q <= k < e ==> !At(s, k, "\n\n")
  {
    match IndexOf(s, "\n\n", q) case Some(k) => k case None => |s|
  }

  /**
   * `>\s*MARKER\s*([\s\S]*?)(?=\n\n|$)` with only the global flag: a `>` anywhere, optional
   * whitespace, the marker, optional whitespace (newlines included), and a body that runs
   * to the first blank line `\n\n` or to the end of the text.
   */
  function CalloutAt(marker: string, variant: string, s: string, p: nat): (r: Option<Hit>)
    requires |marker| > 0
    ensures r.Some? <==> p < |s| && s[p] == '>' && At(s, SpaceRunEnd(s, p + 1), marker)
    ensures r.Some? ==>
      var q := SpaceRunEnd(s, SpaceRunEnd(s, p + 1) + |marker|);
      var e := r.value.end;
      && q <= e <= |s| && (e == |s| || At(s, e, "\n\n"))
      && (forall k :: q <= k < e ==> !At(s, k, "\n\n"))
      && r.value.out == CalloutHtml(variant, s[q..e])
  {
    if p < |s| && s[p] == '>' then
      var w := SpaceRunEnd(s, p + 1);
      if At(s, w, marker) then
        var q := SpaceRunEnd(s, w + |marker|);
        var e := BodyEnd(s, q);
        Some(Hit(e, CalloutHtml(variant, s[q..e])))
      else None
    else None
  }

  function CalloutPass(marker: string, variant: string, s: string): string
    requires |marker| > 0
  {
    ReplaceAll(s, (t: string, q: nat) => CalloutAt(marker, variant, t, q))
  }

  /** The note pass, then the warning pass. */
  function Callouts(s: string): string {
    CalloutPass("[!WARNING]", "warning", CalloutPass("[!NOTE]", "note", s))
  }

  const QuoteOpen := "<blockquote class=\"notion-quote\">"

  /**
   * `^>\s*(.*$)` with the multiline flag: a line starting with `>`; the whitespace after it
   * (newlines included) is dropped and the rest of that line is quoted.
   */
  function QuoteAt(s: string, p: nat): (r: Option<Hit>)
    ensures r.Some? <==> LineStart(s, p) && p < |s| && s[p] == '>'
    ensures r.Some? ==>
      var w := SpaceRunEnd(s, p + 1);
      var e := r.value.end;
      && (forall k :: p + 1 <= k < w ==> IsSpace(s[k])) && (w < |s| ==> !IsSpace(s[w]))
      && w <= e <= |s| && (e == |s| || IsLineTerminator(s[e]))
      && (forall k :: w <= k < e ==> !IsLineTerminator(s[k]))
      && r.value.out == QuoteOpen + s[w..e] + "</blockquote>"
  {
    if LineStart(s, p) && p < |s| && s[p] == '>' then
      var w := SpaceRunEnd(s, p + 1);
      var e := LineEnd(s, w);
      Some(Hit(e, QuoteOpen + s[w..e] + "</blockquote>"))
    else None
  }

  function Quotes(s: string): string {
    ReplaceAll(s, QuoteAt)
  }

  /** The quote pass changes nothing in a text where no line starts with `>`. */
  lemma QuotesIdentity(s: string)
    requires NotAtLineStart(s, '>')
    ensures Quotes(s) == s
  {
    forall k | 0 <= k < |s| ensures HitAt(s, QuoteAt, k).None? {
      if k > 0 && s[k] == '>' {
        assert !IsLineTerminator(s[k - 1]);
      }
    }
    ReplaceNothing(s, QuoteAt);
  }

  lemma HeadingPassKeepsQuotesOut(level: nat, s: string)
    requires 1 <= level <= 6 && NotAtLineStart(s, '>')
    ensures NotAtLineStart(HeadingPass(level, s), '>')
  {
    var m := (t: string, q: nat) => HeadingAt(level, t, q);
    assert NoLineTerminator(HeadingOpen(level)) && NoLineTerminator(HeadingClose(level));
    SafeTemplate(HeadingOpen(level), '>');
    SafeTemplate(HeadingClose(level), '>');
    forall q | 0 <= q < |s| ensures SafeAt(s, m, q, '>') {
      var r := HeadingAt(level, s, q);
      if r.Some? {
        InnerOfSlice(s, '>', q + level + 1, r.value.end);
        SafeWrap(HeadingOpen(level), s[q + level + 1..r.value.end], HeadingClose(level), '>');
      }
    }
    ReplaceKeepsNotAtLineStart(s, m, '>');
  }

  lemma HeadingsKeepQuotesOut(s: string)
    requires NotAtLineStart(s, '>')
    ensures NotAtLineStart(Headings(s), '>')
  {
    var s1 := HeadingPass(1, s);
    HeadingPassKeepsQuotesOut(1, s);
    var s2 := HeadingPass(2, s1);
    HeadingPassKeepsQuotesOut(2, s1);
    var s3 := HeadingPass(3, s2);
    HeadingPassKeepsQuotesOut(3, s2);
    var s4 := HeadingPass(4, s3);
    HeadingPassKeepsQuotesOut(4, s3);
    var s5 := HeadingPass(5, s4);
    HeadingPassKeepsQuotesOut(5, s4);
    HeadingPassKeepsQuotesOut(6, s5);
  }

  lemma RulesKeepQuotesOut(s: string)
    requires NotAtLineStart(s, '>')
    ensures NotAtLineStart(Rules(s), '>')
  {
    SafeTemplate(HrHtml, '>');
    ReplaceKeepsNotAtLineStart(s, HrAt, '>');
  }

  lemma DivOnOneLine()
    ensures NoLineTerminator(DivClass)
  {
  }

  /** The fixed parts of a callout's opening tags hold no line terminator (shown piece by piece). */
  lemma CalloutClassOnOneLine()
    ensures NoLineTerminator(CalloutClass)
  {
    DivOnOneLine();
    assert NoLineTerminator("notion-callout");
    NoLineTerminatorConcat(DivClass, "notion-callout");
    assert NoLineTerminator(" notion-callout-");
    NoLineTerminatorConcat(DivClass + "notion-callout", " notion-callout-");
  }

  lemma CalloutContentOnOneLine()
    ensures NoLineTerminator(CalloutContent)
  {
    DivOnOneLine();
    assert NoLineTerminator("\">");
    NoLineTerminatorConcat("\">", DivClass);
    assert NoLineTerminator("notion-callout-");
    NoLineTerminatorConcat("\">" + DivClass, "notion-callout-");
    assert NoLineTerminator("content\">");
    NoLineTerminatorConcat("\">" + DivClass + "notion-callout-", "content\">");
  }

  lemma CalloutOpenSafe(variant: string)
    requires NoLineTerminator(variant)
    ensures SafeOutput(CalloutOpen(variant), '>')
  {
    CalloutClassOnOneLine();
    CalloutContentOnOneLine();
    NoLineTerminatorConcat(CalloutClass, variant);
    NoLineTerminatorConcat(CalloutClass + variant, CalloutContent);
    assert CalloutOpen(variant)[0] == CalloutClass[0] == DivClass[0] == '<';
    SafeTemplate(CalloutOpen(variant), '>');
  }

  lemma CalloutSafeAt(marker: string, variant: string, s: string, q: nat)
    requires |marker| > 0 && NotAtLineStart(s, '>') && NoLineTerminator(variant) && q < |s|
    ensures SafeAt(s, (t: string, q: nat) => CalloutAt(marker, variant, t, q), q, '>')
  {
    var r := CalloutAt(marker, variant, s, q);
    if r.Some? {
      var b := SpaceRunEnd(s, SpaceRunEnd(s, q + 1) + |marker|);
      InnerOfSlice(s, '>', b, r.value.end);
      CalloutOpenSafe(variant);
      SafeTemplate("</div></div>", '>');
      SafeWrap(CalloutOpen(variant), s[b..r.value.end], "</div></div>", '>');
    }
  }

  lemma CalloutPassKeepsQuotesOut(marker: string, variant: string, s: string)
    requires |marker| > 0 && NotAtLineStart(s, '>') && NoLineTerminator(variant)
    ensures NotAtLineStart(CalloutPass(marker, variant, s), '>')
  {
    var m := (t: string, k: nat) => CalloutAt(marker, variant, t, k);
    forall q | 0 <= q < |s| ensures SafeAt(s, m, q, '>') {
      CalloutSafeAt(marker, variant, s, q);
    }
    ReplaceKeepsNotAtLineStart(s, m, '>');
  }

  lemma CalloutsKeepQuotesOut(s: string)
    requires NotAtLineStart(s, '>')
    ensures NotAtLineStart(Callouts(s), '>')
  {
    CalloutPassKeepsQuotesOut("[!NOTE]", "note", s);
    CalloutPassKeepsQuotesOut("[!WARNING]", "warning", CalloutPass("[!NOTE]", "note", s));
  }
}

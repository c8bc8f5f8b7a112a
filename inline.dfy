/**
 * The inline formatting passes of the renderer (components/MarkdownRenderer.tsx, lines 41-57),
 * applied in this order: highlight, bold, italic, strikethrough, inline code, link.
 */
module Inline {
  import opened Wrappers
  import opened Text
  import opened Rewrite

  /**
   * The lazy `(.*?)` followed by `close`: the first position at or after `q` where `close`
   * occurs, provided no line terminator lies in between (`.` matches none).
   */
  function CloseOnLine(s: string, q: nat, close: string): (r: Option<nat>)
    decreases |s| - q
    ensures r.Some? ==> q <= r.value && At(s, r.value, close)
    ensures r.Some? ==> NoLineTerminator(s[q..r.value])
    ensures r.Some? ==> forall k :: q <= k < r.value ==> !At(s, k, close)
    ensures r.None? ==> forall k :: q <= k && At(s, k, close) ==> !NoLineTerminator(s[q..k])
  {
    if At(s, q, close) then Some(q)
    else if q >= |s| || IsLineTerminator(s[q]) then None
    else
      var r := CloseOnLine(s, q + 1, close);
      assert r.None? ==> forall k :: q <= k && At(s, k, close) ==> !NoLineTerminator(s[q..k]) by {
        if r.None? {
          forall k | q <= k && At(s, k, close) ensures !NoLineTerminator(s[q..k]) {
            if k > q {
              assert !NoLineTerminator(s[q + 1..k]);
              var i :| 0 <= i < k - q - 1 && IsLineTerminator(s[q + 1..k][i]);
              assert s[q..k][i + 1] == s[q + 1..k][i];
            }
          }
        }
      }
      assert r.Some? ==> NoLineTerminator(s[q..r.value]) by {
        if r.Some? {
          forall i | 0 <= i < r.value - q ensures !IsLineTerminator(s[q..r.value][i]) {
            if i > 0 { assert s[q..r.value][i] == s[q + 1..r.value][i - 1]; }
          }
        }
      }
      r
  }

  /**
   * `open(.*?)close` replaced by `before + $1 + after`: the match exists exactly when `open`
   * is at `p` and `close` follows on the same line, and it ends at the FIRST such `close`.
   */
  function Delimited(s: string, p: nat, open: string, close: string, before: string, after: string): (r: Option<Hit>)
    requires |open| > 0
    ensures r.Some? ==> p < r.value.end <= |s|
    ensures r.Some? ==>
      var k := r.value.end - |close|;
      && At(s, p, open) && p + |open| <= k && At(s, k, close)
      && NoLineTerminator(s[p + |open|..k])
      && (forall j :: p + |open| <= j < k ==> !At(s, j, close))
      && r.value.out == before + s[p + |open|..k] + after
    ensures r.None? ==>
      !At(s, p, open) || forall k :: p + |open| <= k && At(s, k, close) ==> !NoLineTerminator(s[p + |open|..k])
  {
    if !At(s, p, open) then None
    else match CloseOnLine(s, p + |open|, close)
      case None => None
      case Some(k) => Some(Hit(k + |close|, before + s[p + |open|..k] + after))
  }

  /** A delimited match starts with the first character of its opening delimiter. */
  lemma DelimitedFirst(s: string, p: nat, open: string, close: string, before: string, after: string)
    requires |open| > 0
    ensures Delimited(s, p, open, close, before, after).Some? ==> p < |s| && s[p] == open[0]
  {
    if Delimited(s, p, open, close, before, after).Some? {
      AtFirst(s, p, open);
    }
  }

  function HighlightAt(s: string, p: nat): Option<Hit> {
    Delimited(s, p, "==", "==", "<mark class=\"notion-highlight\">", "</mark>")
  }

  function BoldAt(s: string, p: nat): Option<Hit> {
    Delimited(s, p, "**", "**", "<strong class=\"notion-bold\">", "</strong>")
  }

  function ItalicAt(s: string, p: nat): Option<Hit> {
    Delimited(s, p, "*", "*", "<em class=\"notion-italic\">", "</em>")
  }

  function StrikeAt(s: string, p: nat): Option<Hit> {
    Delimited(s, p, "~~", "~~", "<del class=\"notion-strikethrough\">", "</del>")
  }

  /**
   * `` `([^`]+)` ``: a backtick, a non-empty run without backticks (newlines included), and
   * the next backtick.
   */
  function InlineCodeAt(s: string, p: nat): (r: Option<Hit>)
    ensures r.Some? <==> p + 1 < |s| && s[p] == '`' && s[p + 1] != '`' && '`' in s[p + 2..]
    ensures r.Some? ==>
      && p + 1 < r.value.end - 1 < |s| && s[r.value.end - 1] == '`'
      && '`' !in s[p + 1..r.value.end - 1]
      && r.value.out == "<code class=\"notion-inline-code\">" + s[p + 1..r.value.end - 1] + "</code>"
  {
    if p + 1 < |s| && s[p] == '`' then
      match FindChar(s, '`', p + 1)
      case Some(k) =>
        if k > p + 1 then
          assert s[k] in s[p + 2..] by { assert s[p + 2..][k - p - 2] == s[k]; }
          Some(Hit(k + 1, "<code class=\"notion-inline-code\">" + s[p + 1..k] + "</code>"))
        else None
      case None =>
        assert '`' !in s[p + 2..];
        None
    else None
  }

  /** The shape `[label](url)` at `p`, with the closing `]` at `j` and the closing `)` at `k`. */
  predicate LinkShape(s: string, p: nat, j: nat, k: nat) {
    && p + 1 < j && j + 2 < k < |s|
    && s[p] == '[' && (forall i :: p + 1 <= i < j ==> s[i] != ']') && s[j] == ']'
    && s[j + 1] == '(' && (forall i :: j + 2 <= i < k ==> s[i] != ')') && s[k] == ')'
  }

  /** The attributes every link carries: a new browsing context, no opener, no referrer. */
  const LinkAttributes := "\" target=\"_blank\"" + " rel=\"noopener noreferrer\"" + " class=\"notion-link\">"

  function LinkHtml(url: string, caption: string): string {
    "<a href=\"" + url + LinkAttributes + caption + "</a>"
  }

  /**
   * `\[([^\]]+)\]\(([^)]+)\)`: the label runs to the first `]`, which must be followed by `(`;
   * the URL runs to the first `)`.  Both are non-empty and may span lines.
   */
  function LinkAt(s: string, p: nat): (r: Option<Hit>)
    ensures r.Some? <==> exists j: nat, k: nat :: LinkShape(s, p, j, k)
    ensures forall j: nat, k: nat :: LinkShape(s, p, j, k) ==> r == Some(Hit(k + 1, LinkHtml(s[j + 2..k], s[p + 1..j])))
  {
    if p < |s| && s[p] == '[' then
      match FindChar(s, ']', p + 1)
      case None => None
      case Some(j) =>
        if j > p + 1 && j + 1 < |s| && s[j + 1] == '(' then
          match FindChar(s, ')', j + 2)
          case None => None
          case Some(k) =>
            if k > j + 2 then
              assert LinkShape(s, p, j, k);
              Some(Hit(k + 1, LinkHtml(s[j + 2..k], s[p + 1..j])))
            else None
        else None
    else None
  }

  function Highlight(s: string): string { ReplaceAll(s, HighlightAt) }
  function Bold(s: string): string { ReplaceAll(s, BoldAt) }
  function Italic(s: string): string { ReplaceAll(s, ItalicAt) }
  function Strike(s: string): string { ReplaceAll(s, StrikeAt) }
  function InlineCode(s: string): string { ReplaceAll(s, InlineCodeAt) }
  function Links(s: string): string { ReplaceAll(s, LinkAt) }

  /** The six passes in the order of the source. */
  function InlinePasses(s: string): string {
    Links(InlineCode(Strike(Italic(Bold(Highlight(s))))))
  }

  /** Every inline pass puts its tags around copied text, so no `>` is moved to a line start. */
  lemma DelimitedSafe(s: string, p: nat, open: string, close: string, before: string, after: string)
    requires |open| > 0 && InnerNotAtLineStart(s, '>')
    requires SafeOutput(before, '>') && SafeOutput(after, '>')
    ensures var r := Delimited(s, p, open, close, before, after); r.Some? ==> SafeOutput(r.value.out, '>')
  {
    var r := Delimited(s, p, open, close, before, after);
    if r.Some? {
      InnerOfSlice(s, '>', p + |open|, r.value.end - |close|);
      SafeWrap(before, s[p + |open|..r.value.end - |close|], after, '>');
    }
  }

  lemma HighlightKeepsQuotesOut(s: string)
    requires NotAtLineStart(s, '>')
    ensures NotAtLineStart(Highlight(s), '>')
  {
    SafeTemplate("<mark class=\"notion-highlight\">", '>');
    SafeTemplate("</mark>", '>');
    forall q | 0 <= q < |s| ensures SafeAt(s, HighlightAt, q, '>') {
      DelimitedSafe(s, q, "==", "==", "<mark class=\"notion-highlight\">", "</mark>");
    }
    ReplaceKeepsNotAtLineStart(s, HighlightAt, '>');
  }

  lemma BoldKeepsQuotesOut(s: string)
    requires NotAtLineStart(s, '>')
    ensures NotAtLineStart(Bold(s), '>')
  {
    SafeTemplate("<strong class=\"notion-bold\">", '>');
    SafeTemplate("</strong>", '>');
    forall q | 0 <= q < |s| ensures SafeAt(s, BoldAt, q, '>') {
      DelimitedSafe(s, q, "**", "**", "<strong class=\"notion-bold\">", "</strong>");
    }
    ReplaceKeepsNotAtLineStart(s, BoldAt, '>');
  }

  lemma ItalicKeepsQuotesOut(s: string)
    requires NotAtLineStart(s, '>')
    ensures NotAtLineStart(Italic(s), '>')
  {
    SafeTemplate("<em class=\"notion-italic\">", '>');
    SafeTemplate("</em>", '>');
    forall q | 0 <= q < |s| ensures SafeAt(s, ItalicAt, q, '>') {
      DelimitedSafe(s, q, "*", "*", "<em class=\"notion-italic\">", "</em>");
    }
    ReplaceKeepsNotAtLineStart(s, ItalicAt, '>');
  }

  lemma StrikeKeepsQuotesOut(s: string)
    requires NotAtLineStart(s, '>')
    ensures NotAtLineStart(Strike(s), '>')
  {
    SafeTemplate("<del class=\"notion-strikethrough\">", '>');
    SafeTemplate("</del>", '>');
    forall q | 0 <= q < |s| ensures SafeAt(s, StrikeAt, q, '>') {
      DelimitedSafe(s, q, "~~", "~~", "<del class=\"notion-strikethrough\">", "</del>");
    }
    ReplaceKeepsNotAtLineStart(s, StrikeAt, '>');
  }

  lemma InlineCodeKeepsQuotesOut(s: string)
    requires NotAtLineStart(s, '>')
    ensures NotAtLineStart(InlineCode(s), '>')
  {
    SafeTemplate("<code class=\"notion-inline-code\">", '>');
    SafeTemplate("</code>", '>');
    forall q | 0 <= q < |s| ensures SafeAt(s, InlineCodeAt, q, '>') {
      var r := InlineCodeAt(s, q);
      if r.Some? {
        InnerOfSlice(s, '>', q + 1, r.value.end - 1);
        SafeWrap("<code class=\"notion-inline-code\">", s[q + 1..r.value.end - 1], "</code>", '>');
      }
    }
    ReplaceKeepsNotAtLineStart(s, InlineCodeAt, '>');
  }

  lemma LinksKeepQuotesOut(s: string)
    requires NotAtLineStart(s, '>')
    ensures NotAtLineStart(Links(s), '>')
  {
    var t0 := "<a href=\"";
    var t1 := LinkAttributes;
    SafeTemplate(t0, '>');
    SafeTemplate("\" target=\"_blank\"", '>');
    SafeTemplate(" class=\"notion-link\">", '>');
    InnerOfNoTerminator(" rel=\"noopener noreferrer\"", '>');
    SafeWrap("\" target=\"_blank\"", " rel=\"noopener noreferrer\"", " class=\"notion-link\">", '>');
    SafeTemplate("</a>", '>');
    forall q | 0 <= q < |s| ensures SafeAt(s, LinkAt, q, '>') {
      var r := LinkAt(s, q);
      if r.Some? {
        var j: nat, k: nat :| LinkShape(s, q, j, k);
        InnerOfSlice(s, '>', j + 2, k);
        InnerOfSlice(s, '>', q + 1, j);
        SafeWrap(t0, s[j + 2..k], t1, '>');
        SafeWrap(t0 + s[j + 2..k] + t1, s[q + 1..j], "</a>", '>');
        assert r.value.out == t0 + s[j + 2..k] + t1 + s[q + 1..j] + "</a>";
      }
    }
    ReplaceKeepsNotAtLineStart(s, LinkAt, '>');
  }

  /** None of the inline passes can put a `>` at the start of a line. */
  lemma InlinePassesKeepQuotesOut(s: string)
    requires NotAtLineStart(s, '>')
    ensures NotAtLineStart(InlinePasses(s), '>')
  {
    HighlightKeepsQuotesOut(s);
    BoldKeepsQuotesOut(Highlight(s));
    ItalicKeepsQuotesOut(Bold(Highlight(s)));
    StrikeKeepsQuotesOut(Italic(Bold(Highlight(s))));
    InlineCodeKeepsQuotesOut(Strike(Italic(Bold(Highlight(s)))));
    LinksKeepQuotesOut(InlineCode(Strike(Italic(Bold(Highlight(s))))));
  }

  const StrongOpen := "<strong class=\"notion-bold\">"
  const EmOpen := "<em class=\"notion-italic\">"

  /** Gluing the three stretches of a replacement that matches once, at `a`, and resumes at `e`. */
  lemma Assemble(s: string, m: Matcher, a: nat, e: nat, out: string)
    requires a <= e <= |s|
    requires Replace(s, m, 0) == s[0..a] + Replace(s, m, a)
    requires Replace(s, m, a) == out + Replace(s, m, e)
    requires Replace(s, m, e) == s[e..|s|] + Replace(s, m, |s|)
    ensures ReplaceAll(s, m) == s[..a] + out + s[e..]
  {
    assert Replace(s, m, |s|) == "";
    assert s[e..|s|] == s[e..] && s[0..a] == s[..a];
  }

  /** Regrouping for a text cut into a prefix, a wrapped middle and a suffix. */
  lemma Wrapped(pre: string, open: string, mid: string, close: string, post: string)
    ensures pre + (open + mid + close) + post == pre + open + mid + close + post
  {
  }

  /** A replacement with exactly one match, from `a` to `e`. */
  lemma OneHit(s: string, m: Matcher, a: nat, e: nat, out: string)
    requires a < e <= |s|
    requires forall k :: 0 <= k < a ==> HitAt(s, m, k).None?
    requires HitAt(s, m, a) == Some(Hit(e, out))
    requires forall k :: e <= k < |s| ==> HitAt(s, m, k).None?
    ensures ReplaceAll(s, m) == s[..a] + out + s[e..]
  {
    ReplaceSkip(s, m, 0, a);
    ReplaceAtHit(s, m, a, Hit(e, out));
    ReplaceSkip(s, m, e, |s|);
    Assemble(s, m, a, e, out);
  }

  /** A delimited match at `p` whose first close on the same line is at `k`. */
  lemma DelimitedHit(s: string, p: nat, open: string, close: string, before: string, after: string, k: nat)
    requires |open| > 0 && |close| > 0 && At(s, p, open) && p + |open| <= k && At(s, k, close)
    requires NoLineTerminator(s[p + |open|..k])
    requires forall j :: p + |open| <= j < k ==> !At(s, j, close)
    ensures Delimited(s, p, open, close, before, after) == Some(Hit(k + |close|, before + s[p + |open|..k] + after))
  {
    var c := CloseOnLine(s, p + |open|, close);
    assert c.Some?;
    assert c.value == k;
  }

  /** Bold matches start with `*`. */
  lemma BoldStarts(s: string, p: nat, q: nat)
    ensures forall k :: p <= k < q ==> (BoldAt(s, k).Some? ==> s[k] == '*')
  {
    forall k | p <= k < q ensures BoldAt(s, k).Some? ==> s[k] == '*' {
      DelimitedFirst(s, k, "**", "**", StrongOpen, "</strong>");
    }
  }

  /** Italic matches start with `*`. */
  lemma ItalicStarts(s: string, p: nat, q: nat)
    ensures forall k :: p <= k < q ==> (ItalicAt(s, k).Some? ==> s[k] == '*')
  {
    forall k | p <= k < q ensures ItalicAt(s, k).Some? ==> s[k] == '*' {
      DelimitedFirst(s, k, "*", "*", EmOpen, "</em>");
    }
  }

  lemma NotAtPair(s: string, j: nat)
    requires j + 1 < |s| && !(s[j] == '*' && s[j + 1] == '*')
    ensures !At(s, j, "**")
  {
    assert s[j..j + 2][0] == s[j] && s[j..j + 2][1] == s[j + 1];
  }

  lemma NotAtStar(s: string, j: nat)
    requires j < |s| && s[j] != '*'
    ensures !At(s, j, "*")
  {
    assert s[j..j + 1][0] == s[j];
  }

  lemma BoldHit(s: string, a: nat, b: nat)
    requires a + 2 <= b && At(s, a, "**") && At(s, b, "**") && NoLineTerminator(s[a + 2..b])
    requires forall j :: a + 2 <= j < b ==> !At(s, j, "**")
    ensures HitAt(s, BoldAt, a) == Some(Hit(b + 2, StrongOpen + s[a + 2..b] + "</strong>"))
  {
    DelimitedHit(s, a, "**", "**", StrongOpen, "</strong>", b);
  }

  lemma ItalicHit(s: string, a: nat, b: nat)
    requires a + 1 <= b && At(s, a, "*") && At(s, b, "*") && NoLineTerminator(s[a + 1..b])
    requires forall j :: a + 1 <= j < b ==> !At(s, j, "*")
    ensures HitAt(s, ItalicAt, a) == Some(Hit(b + 1, EmOpen + s[a + 1..b] + "</em>"))
  {
    DelimitedHit(s, a, "*", "*", EmOpen, "</em>", b);
  }

  /**
   * The bold pass on a text without asterisks outside one `**` at `a` and the first `**` after
   * it, at `b` and on the same line: the text between them is wrapped in `strong`.
   */
  lemma BoldOnce(s: string, a: nat, b: nat)
    requires a + 2 <= b && At(s, a, "**") && At(s, b, "**") && NoLineTerminator(s[a + 2..b])
    requires forall k :: 0 <= k < a ==> s[k] != '*'
    requires forall k :: a + 2 <= k < b ==> !At(s, k, "**")
    requires forall k :: b + 2 <= k < |s| ==> s[k] != '*'
    ensures Bold(s) == s[..a] + StrongOpen + s[a + 2..b] + "</strong>" + s[b + 2..]
  {
    BoldNone(s, 0, a);
    BoldNone(s, b + 2, |s|);
    BoldHit(s, a, b);
    OneHit(s, BoldAt, a, b + 2, StrongOpen + s[a + 2..b] + "</strong>");
    Wrapped(s[..a], StrongOpen, s[a + 2..b], "</strong>", s[b + 2..]);
  }

  /** The bold pattern matches nowhere in a stretch without asterisks. */
  lemma BoldNone(s: string, p: nat, q: nat)
    requires p <= q <= |s|
    requires forall k :: p <= k < q ==> s[k] != '*'
    ensures forall k :: p <= k < q ==> HitAt(s, BoldAt, k).None?
  {
    BoldStarts(s, p, q);
  }

  /**
   * The italic pass on a text whose only asterisks are the one at `a` and the one at `b` that
   * closes it on the same line.
   */
  lemma ItalicOnce(s: string, a: nat, b: nat)
    requires a < b < |s| && s[a] == '*' && s[b] == '*' && NoLineTerminator(s[a + 1..b])
    requires forall k :: 0 <= k < a ==> s[k] != '*'
    requires forall k :: a + 1 <= k < b ==> s[k] != '*'
    requires forall k :: b + 1 <= k < |s| ==> s[k] != '*'
    ensures Italic(s) == s[..a] + EmOpen + s[a + 1..b] + "</em>" + s[b + 1..]
  {
    ItalicNone(s, 0, a);
    ItalicNone(s, b + 1, |s|);
    ItalicStarHit(s, a, b);
    OneHit(s, ItalicAt, a, b + 1, EmOpen + s[a + 1..b] + "</em>");
    Wrapped(s[..a], EmOpen, s[a + 1..b], "</em>", s[b + 1..]);
  }

  /** The italic pattern matches nowhere in a stretch without asterisks. */
  lemma ItalicNone(s: string, p: nat, q: nat)
    requires p <= q <= |s|
    requires forall k :: p <= k < q ==> s[k] != '*'
    ensures forall k :: p <= k < q ==> HitAt(s, ItalicAt, k).None?
  {
    ItalicStarts(s, p, q);
  }

  /** Two asterisks on one line with none between them make an italic match. */
  lemma ItalicStarHit(s: string, a: nat, b: nat)
    requires a < b < |s| && s[a] == '*' && s[b] == '*' && NoLineTerminator(s[a + 1..b])
    requires forall k :: a + 1 <= k < b ==> s[k] != '*'
    ensures HitAt(s, ItalicAt, a) == Some(Hit(b + 1, EmOpen + s[a + 1..b] + "</em>"))
  {
    assert At(s, a, "*") && At(s, b, "*") by {
      assert s[a..a + 1] == "*" && s[b..b + 1] == "*";
    }
    forall j | a + 1 <= j < b ensures !At(s, j, "*") {
      NotAtStar(s, j);
    }
    ItalicHit(s, a, b);
  }

  /** Italic text between text without asterisks: `*v*` becomes `em` when `v` has no asterisk and stays on one line. */
  lemma ItalicAround(u: string, v: string, w: string)
    requires '*' !in u && '*' !in v && '*' !in w && NoLineTerminator(v)
    ensures Italic(u + "*" + v + "*" + w) == u + EmOpen + v + "</em>" + w
  {
    var s := u + "*" + v + "*" + w;
    var a := |u|;
    var b := a + 1 + |v|;
    forall k | 0 <= k < a ensures s[k] != '*' { assert s[k] == u[k] && u[k] in u; }
    forall k | a + 1 <= k < b ensures s[k] != '*' { assert s[k] == v[k - a - 1] && v[k - a - 1] in v; }
    forall k | b + 1 <= k < |s| ensures s[k] != '*' { assert s[k] == w[k - b - 1] && w[k - b - 1] in w; }
    assert s[..a] == u && s[a + 1..b] == v && s[b + 1..] == w;
    ItalicOnce(s, a, b);
  }

  /** The only asterisks of `**p*q*r**` outside the outer pair are the two around `q`, so no `**` closes early. */
  lemma BoldOfNested(p: string, q: string, r: string)
    requires '*' !in p && '*' !in q && '*' !in r && q != [] && r != []
    requires NoLineTerminator(p) && NoLineTerminator(q) && NoLineTerminator(r)
    ensures Bold("**" + (p + "*" + q + "*" + r) + "**") == StrongOpen + (p + "*" + q + "*" + r) + "</strong>"
  {
    var m := p + "*" + q + "*" + r;
    var s := "**" + m + "**";
    var b := 2 + |m|;
    var i1 := 2 + |p|;
    var i2 := i1 + 1 + |q|;
    assert s[2..b] == m && s[..0] == "" && s[b + 2..] == "";
    assert At(s, 0, "**") && At(s, b, "**") by {
      assert s[0..2] == "**" && s[b..b + 2] == "**";
    }
    forall k | 2 <= k < b ensures !IsLineTerminator(s[k]) {
      assert s[k] == m[k - 2];
    }
    assert i2 < b && s[i1] == '*' && s[i2] == '*' && s[i1 + 1] == q[0] && s[i2 + 1] == r[0];
    assert q[0] in q && r[0] in r;
    forall k | 2 <= k < b ensures !At(s, k, "**") {
      if k < i1 {
        assert s[k] == p[k - 2] && p[k - 2] in p;
      } else if i1 < k < i2 {
        assert s[k] == q[k - i1 - 1] && q[k - i1 - 1] in q;
      } else if i2 < k {
        assert s[k] == r[k - i2 - 1] && r[k - i2 - 1] in r;
      }
      NotAtPair(s, k);
    }
    BoldOnce(s, 0, b);
  }

  lemma StrongHasNoStar()
    ensures '*' !in StrongOpen && '*' !in "</strong>"
  {
  }

  /** The italic pass then finds the pair around `q` inside the `strong` element. */
  lemma ItalicInStrong(p: string, q: string, r: string)
    requires '*' !in p && '*' !in q && '*' !in r && NoLineTerminator(q)
    ensures Italic(StrongOpen + (p + "*" + q + "*" + r) + "</strong>")
      == StrongOpen + p + EmOpen + q + "</em>" + r + "</strong>"
  {
    StrongHasNoStar();
    var u := StrongOpen + p;
    var w := r + "</strong>";
    assert StrongOpen + (p + "*" + q + "*" + r) + "</strong>" == u + "*" + q + "*" + w;
    ItalicAround(u, q, w);
    ConcatAssoc(u + EmOpen + q + "</em>", r, "</strong>");
  }

  /**
   * Italic inside bold: `**p*q*r**`, with `p`, `q` and `r` free of asterisks and line breaks and
   * `q` and `r` not empty, becomes `strong` around `p`, an `em` holding `q`, and `r`.
   */
  lemma BoldAroundItalic(p: string, q: string, r: string)
    requires '*' !in p && '*' !in q && '*' !in r && q != [] && r != []
    requires NoLineTerminator(p) && NoLineTerminator(q) && NoLineTerminator(r)
    ensures Italic(Bold("**" + p + "*" + q + "*" + r + "**"))
      == StrongOpen + p + EmOpen + q + "</em>" + r + "</strong>"
  {
    Regroup(p, q, r);
    BoldOfNested(p, q, r);
    ItalicInStrong(p, q, r);
  }

  lemma Regroup(p: string, q: string, r: string)
    ensures "**" + (p + "*" + q + "*" + r) + "**" == "**" + p + "*" + q + "*" + r + "**"
  {
  }

  /** No character of `t` opens a strike, an inline code or a link. */
  predicate NoLaterMarker(t: string) {
    forall i :: 0 <= i < |t| ==> t[i] != '~' && t[i] != '`' && t[i] != '['
  }

  lemma NoLaterMarkerConcat(a: string, b: string)
    requires NoLaterMarker(a) && NoLaterMarker(b)
    ensures NoLaterMarker(a + b)
  {
  }

  /** Strike, inline code and links leave a text without their markers unchanged. */
  lemma LaterPassesIdentity(t: string)
    requires NoLaterMarker(t)
    ensures Links(InlineCode(Strike(t))) == t
  {
    forall p | 0 <= p < |t| ensures StrikeAt(t, p).Some? ==> t[p] == '~' {
      DelimitedFirst(t, p, "~~", "~~", "<del class=\"notion-strikethrough\">", "</del>");
    }
    assert '~' !in t && '`' !in t && '[' !in t;
    Untouched(t, StrikeAt, '~');
    Untouched(t, InlineCodeAt, '`');
    Untouched(t, LinkAt, '[');
  }

  lemma TagsHaveNoLaterMarker()
    ensures NoLaterMarker(StrongOpen) && NoLaterMarker(EmOpen)
    ensures NoLaterMarker("</em>") && NoLaterMarker("</strong>")
  {
  }

  /** No delimiter of a highlight starts inside `**p*q*r**` when the parts hold no `=`. */
  lemma NestedNoHighlight(p: string, q: string, r: string)
    requires '=' !in p && '=' !in q && '=' !in r
    ensures Highlight("**" + p + "*" + q + "*" + r + "**") == "**" + p + "*" + q + "*" + r + "**"
  {
    var s := "**" + p + "*" + q + "*" + r + "**";
    forall i | 0 <= i < |s| ensures HighlightAt(s, i).Some? ==> s[i] == '=' {
      DelimitedFirst(s, i, "==", "==", "<mark class=\"notion-highlight\">", "</mark>");
    }
    assert '=' !in s;
    Untouched(s, HighlightAt, '=');
  }

  /** All six inline passes on `**p*q*r**`: only bold and italic fire, bold first. */
  lemma InlineNested(p: string, q: string, r: string)
    requires '*' !in p && '*' !in q && '*' !in r && q != [] && r != []
    requires '=' !in p && '=' !in q && '=' !in r
    requires NoLaterMarker(p) && NoLaterMarker(q) && NoLaterMarker(r)
    requires NoLineTerminator(p) && NoLineTerminator(q) && NoLineTerminator(r)
    ensures InlinePasses("**" + p + "*" + q + "*" + r + "**")
      == StrongOpen + p + EmOpen + q + "</em>" + r + "</strong>"
  {
    NestedNoHighlight(p, q, r);
    BoldAroundItalic(p, q, r);
    TagsHaveNoLaterMarker();
    var t := StrongOpen + p + EmOpen + q + "</em>" + r + "</strong>";
    NoLaterMarkerConcat(StrongOpen, p);
    NoLaterMarkerConcat(StrongOpen + p, EmOpen);
    NoLaterMarkerConcat(StrongOpen + p + EmOpen, q);
    NoLaterMarkerConcat(StrongOpen + p + EmOpen + q, "</em>");
    NoLaterMarkerConcat(StrongOpen + p + EmOpen + q + "</em>", r);
    NoLaterMarkerConcat(StrongOpen + p + EmOpen + q + "</em>" + r, "</strong>");
    LaterPassesIdentity(t);
  }

  /** Bold runs before italic, so `**a *b* c**` nests the `em` inside the `strong`. */
  lemma BoldBeforeItalic()
    ensures InlinePasses("**a *b* c**") == StrongOpen + "a " + EmOpen + "b" + "</em>" + " c" + "</strong>"
  {
    ExampleSplit();
    InlineNested("a ", "b", " c");
  }

  lemma ExampleSplit()
    ensures "**a *b* c**" == "**" + "a " + "*" + "b" + "*" + " c" + "**"
  {
  }
}

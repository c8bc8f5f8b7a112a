/**
 * The global regular-expression replacement `s.replace(/re/g, f)` of JavaScript, with the
 * regular expression given as a hand-written matcher.  A matcher answers, for a position `p`
 * of the ORIGINAL string, whether the expression matches starting exactly at `p` (with the
 * backtracking priorities of the expression already resolved) and what the match is
 * replaced by.  The replacement scans left to right: a match is replaced and scanning resumes
 * at its end; elsewhere one character is copied.  Every pattern of the renderer matches at
 * least one character, so empty matches never arise.
 */
module Rewrite {
  import opened Wrappers
  import opened Text

  /** A match that ends (exclusively) at `end` and is replaced by `out`. */
  datatype Hit = Hit(end: nat, out: string)

  type Matcher = (string, nat) -> Option<Hit>

  /** The matcher's answer at `p`, kept only when it is a non-empty match inside `s`. */
  function HitAt(s: string, m: Matcher, p: nat): (r: Option<Hit>)
    ensures r.Some? ==> p < r.value.end <= |s| && m(s, p) == r
  {
    match m(s, p)
    case Some(h) => if p < h.end <= |s| then Some(h) else None
    case None => None
  }

  /** The result of the replacement from position `p` on. */
  function Replace(s: string, m: Matcher, p: nat): string
    decreases |s| - p
  {
    if p >= |s| then ""
    else match HitAt(s, m, p)
      case Some(h) => h.out + Replace(s, m, h.end)
      case None => [s[p]] + Replace(s, m, p + 1)
  }

  /** `s.replace(/re/g, …)`. */
  function ReplaceAll(s: string, m: Matcher): string {
    Replace(s, m, 0)
  }

  /** Where the matcher finds nothing, the text is copied unchanged. */
  lemma {:induction false} ReplaceSkip(s: string, m: Matcher, p: nat, q: nat)
    requires p <= q <= |s|
    requires forall k :: p <= k < q ==> HitAt(s, m, k).None?
    ensures Replace(s, m, p) == s[p..q] + Replace(s, m, q)
    decreases q - p
  {
    if p < q {
      assert HitAt(s, m, p).None?;
      assert Replace(s, m, p) == [s[p]] + Replace(s, m, p + 1);
      ReplaceSkip(s, m, p + 1, q);
      assert [s[p]] + s[p + 1..q] == s[p..q];
    }
  }

  /** At a match the replacement is emitted and scanning resumes at the match's end. */
  lemma ReplaceAtHit(s: string, m: Matcher, p: nat, h: Hit)
    requires p < |s| && HitAt(s, m, p) == Some(h)
    ensures Replace(s, m, p) == h.out + Replace(s, m, h.end)
  {
  }

  /** A matcher that matches nowhere leaves the string as it is. */
  lemma ReplaceNothing(s: string, m: Matcher)
    requires forall k :: 0 <= k < |s| ==> HitAt(s, m, k).None?
    ensures ReplaceAll(s, m) == s
  {
    ReplaceSkip(s, m, 0, |s|);
  }

  /** A pass whose matches all start with `c` leaves a text without `c` as it is. */
  lemma Untouched(s: string, m: Matcher, c: char)
    requires c !in s
    requires forall p :: 0 <= p < |s| ==> (m(s, p).Some? ==> s[p] == c)
    ensures ReplaceAll(s, m) == s
  {
    forall k | 0 <= k < |s| ensures HitAt(s, m, k).None? {
      assert s[k] in s;
    }
    ReplaceNothing(s, m);
  }

  /**
   * Every `x` in `s` after the first character follows a character that is not a line
   * terminator.
   */
  predicate InnerNotAtLineStart(s: string, x: char) {
    forall i :: 0 < i < |s| && s[i] == x ==> !IsLineTerminator(s[i - 1])
  }

  /** No line of `s` starts with `x`, in the sense of a multiline `^`. */
  predicate NotAtLineStart(s: string, x: char) {
    InnerNotAtLineStart(s, x) && (|s| > 0 ==> s[0] != x)
  }

  lemma InnerOfNoTerminator(t: string, x: char)
    requires NoLineTerminator(t)
    ensures InnerNotAtLineStart(t, x)
  {
  }

  lemma InnerOfSlice(s: string, x: char, a: nat, b: nat)
    requires a <= b <= |s| && InnerNotAtLineStart(s, x)
    ensures InnerNotAtLineStart(s[a..b], x)
  {
    forall i | 0 < i < b - a && s[a..b][i] == x ensures !IsLineTerminator(s[a..b][i - 1]) {
      assert s[a + i] == x;
    }
  }

  lemma InnerOfConcat(u: string, v: string, x: char)
    requires InnerNotAtLineStart(u, x) && InnerNotAtLineStart(v, x)
    requires u != [] && v != [] && v[0] == x ==> !IsLineTerminator(u[|u| - 1])
    ensures InnerNotAtLineStart(u + v, x)
  {
    forall i | 0 < i < |u + v| && (u + v)[i] == x ensures !IsLineTerminator((u + v)[i - 1]) {
      if i > |u| {
        assert (u + v)[i] == v[i - |u|] && (u + v)[i - 1] == v[i - 1 - |u|];
      }
    }
  }

  /**
   * A replacement that is safe for `x`: it is not empty, does not start with `x`, does not
   * end with a line terminator, and puts no `x` right after a line terminator.
   */
  predicate SafeOutput(out: string, x: char) {
    out != [] && out[0] != x && !IsLineTerminator(out[|out| - 1]) && InnerNotAtLineStart(out, x)
  }

  predicate SafeAt(s: string, m: Matcher, p: nat, x: char) {
    HitAt(s, m, p).Some? ==> SafeOutput(HitAt(s, m, p).value.out, x)
  }

  /**
   * A replacement whose every match output is safe keeps `x` off the starts of lines, and the
   * result can only start with `x` where the input did.
   */
  lemma {:induction false} ReplaceKeepsInner(s: string, m: Matcher, p: nat, x: char)
    requires InnerNotAtLineStart(s, x)
    requires forall q :: p <= q < |s| ==> SafeAt(s, m, q, x)
    ensures InnerNotAtLineStart(Replace(s, m, p), x)
    ensures Replace(s, m, p) != [] && Replace(s, m, p)[0] == x ==> p < |s| && s[p] == x
    decreases |s| - p
  {
    if p < |s| {
      match HitAt(s, m, p)
      case Some(h) =>
        assert SafeAt(s, m, p, x);
        ReplaceKeepsInner(s, m, h.end, x);
        InnerOfConcat(h.out, Replace(s, m, h.end), x);
      case None =>
        ReplaceKeepsInner(s, m, p + 1, x);
        InnerOfConcat([s[p]], Replace(s, m, p + 1), x);
    }
  }

  lemma ReplaceKeepsNotAtLineStart(s: string, m: Matcher, x: char)
    requires NotAtLineStart(s, x)
    requires forall q :: 0 <= q < |s| ==> SafeAt(s, m, q, x)
    ensures NotAtLineStart(ReplaceAll(s, m), x)
  {
    ReplaceKeepsInner(s, m, 0, x);
  }

  /** A fixed tag text is safe when it has no line terminator and does not start with `x`. */
  lemma SafeTemplate(t: string, x: char)
    requires t != [] && t[0] != x && NoLineTerminator(t)
    ensures SafeOutput(t, x)
  {
  }

  /** Text copied between two safe pieces keeps the whole safe. */
  lemma SafeWrap(u: string, c: string, t: string, x: char)
    requires SafeOutput(u, x) && InnerNotAtLineStart(c, x) && SafeOutput(t, x)
    ensures SafeOutput(u + c + t, x)
  {
    InnerOfConcat(u, c, x);
    InnerOfConcat(u + c, t, x);
  }
}

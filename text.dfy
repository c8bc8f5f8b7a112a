/**
 * String primitives of JavaScript that the renderer is built from: the whitespace and
 * line-terminator classes of regular expressions, `trim`, `split`, `join`, `indexOf`
 * and `replace` with a string pattern.  Strings are sequences of `char`, which stands for
 * a Unicode scalar value: a character outside the Basic Multilingual Plane is one `char`
 * here, where JavaScript counts two UTF-16 code units.
 */
module Text {
  import opened Wrappers

  /** The class `\s` of JavaScript regular expressions, which is also what `trim` removes. */
  predicate IsSpace(c: char) {
    || c == ' ' || c == '\t' || c == '\n' || c == '\r' || c == '\U{000B}' || c == '\U{000C}'
    || c == '\U{00A0}' || c == '\U{1680}' || ('\U{2000}' <= c <= '\U{200A}')
    || c == '\U{2028}' || c == '\U{2029}' || c == '\U{202F}' || c == '\U{205F}'
    || c == '\U{3000}' || c == '\U{FEFF}'
  }

  /** The characters that `.` does not match and after which a multiline `^` matches. */
  predicate IsLineTerminator(c: char) {
    c == '\n' || c == '\r' || c == '\U{2028}' || c == '\U{2029}'
  }

  /** The class `\d`. */
  predicate IsDigit(c: char) {
    '0' <= c <= '9'
  }

  /** The class `\w`. */
  predicate IsWordChar(c: char) {
    ('a' <= c <= 'z') || ('A' <= c <= 'Z') || IsDigit(c) || c == '_'
  }

  predicate AllSpace(s: string) {
    forall i :: 0 <= i < |s| ==> IsSpace(s[i])
  }

  predicate NoLineTerminator(s: string) {
    forall i :: 0 <= i < |s| ==> !IsLineTerminator(s[i])
  }

  lemma NoLineTerminatorConcat(u: string, v: string)
    requires NoLineTerminator(u) && NoLineTerminator(v)
    ensures NoLineTerminator(u + v)
  {
    forall i | 0 <= i < |u + v| ensures !IsLineTerminator((u + v)[i]) {
      if i >= |u| { assert (u + v)[i] == v[i - |u|]; }
    }
  }

  lemma ConcatAssoc<T>(a: seq<T>, b: seq<T>, c: seq<T>)
    ensures a + b + c == a + (b + c)
  {
  }

  /** `t` occurs in `s` starting at position `p`. */
  predicate At(s: string, p: nat, t: string) {
    p + |t| <= |s| && s[p..p + |t|] == t
  }

  /** An occurrence of `t` at `p` starts with the first character of `t`. */
  lemma AtFirst(s: string, p: nat, t: string)
    requires |t| > 0 && At(s, p, t)
    ensures s[p] == t[0]
  {
    assert s[p..p + |t|][0] == s[p];
  }

  /** `s.indexOf(t, from)`: the first position at or after `from` where `t` occurs. */
  function IndexOf(s: string, t: string, from: nat): (r: Option<nat>)
    decreases |s| - from
    ensures r.Some? ==> from <= r.value && At(s, r.value, t)
    ensures r.Some? ==> forall k :: from <= k < r.value ==> !At(s, k, t)
    ensures r.None? ==> forall k :: from <= k ==> !At(s, k, t)
    ensures forall k :: from <= k && At(s, k, t) ==> r.Some? && r.value <= k
  {
    if from + |t| > |s| then None
    else if s[from..from + |t|] == t then Some(from)
    else IndexOf(s, t, from + 1)
  }

  /** The first position at or after `from` that holds the character `c`. */
  function FindChar(s: string, c: char, from: nat): (r: Option<nat>)
    decreases |s| - from
    ensures r.Some? ==> from <= r.value < |s| && s[r.value] == c
    ensures r.Some? ==> forall k :: from <= k < r.value ==> s[k] != c
    ensures r.None? ==> forall k :: from <= k < |s| ==> s[k] != c
  {
    if from >= |s| then None
    else if s[from] == c then Some(from)
    else FindChar(s, c, from + 1)
  }

  /** The end of the longest run of whitespace that starts at `from`. */
  function SpaceRunEnd(s: string, from: nat): (r: nat)
    decreases |s| - from
    ensures from <= |s| ==> from <= r <= |s|
    ensures from > |s| ==> r == from
    ensures forall k :: from <= k < r ==> IsSpace(s[k])
    ensures r < |s| ==> !IsSpace(s[r])
  {
    if from < |s| && IsSpace(s[from]) then SpaceRunEnd(s, from + 1) else from
  }

  function TrimStart(s: string): string {
    if s != [] && IsSpace(s[0]) then TrimStart(s[1..]) else s
  }

  function TrimEnd(s: string): string {
    if s != [] && IsSpace(s[|s| - 1]) then TrimEnd(s[..|s| - 1]) else s
  }

  /** `trimStart` drops exactly the leading whitespace. */
  lemma {:induction false} TrimStartDrops(s: string)
    ensures var r := TrimStart(s); |r| <= |s| && r == s[|s| - |r|..]
    ensures var r := TrimStart(s); AllSpace(s[..|s| - |r|])
    ensures var r := TrimStart(s); r != [] ==> !IsSpace(r[0])
  {
    if s != [] && IsSpace(s[0]) {
      TrimStartDrops(s[1..]);
      var r := TrimStart(s[1..]);
      assert s[..|s| - |r|] == [s[0]] + s[1..][..|s| - 1 - |r|];
    }
  }

  /** `trimEnd` drops exactly the trailing whitespace. */
  lemma {:induction false} TrimEndDrops(s: string)
    ensures var r := TrimEnd(s); |r| <= |s| && r == s[..|r|]
    ensures var r := TrimEnd(s); AllSpace(s[|r|..])
    ensures var r := TrimEnd(s); r != [] ==> !IsSpace(r[|r| - 1])
  {
    if s != [] && IsSpace(s[|s| - 1]) {
      var t := s[..|s| - 1];
      TrimEndDrops(t);
      var r := TrimEnd(t);
      assert s[|r|..] == t[|r|..] + [s[|s| - 1]];
    }
  }

  /** `s.trim()`: `s` without its leading and trailing whitespace. */
  function Trim(s: string): string {
    TrimStart(TrimEnd(s))
  }

  lemma TrimSliceBefore(s: string, e: string, i: nat)
    requires |e| <= |s| && e == s[..|e|] && i <= |e| && AllSpace(e[..i])
    ensures forall k :: 0 <= k < i ==> IsSpace(s[k])
  {
    forall k | 0 <= k < i ensures IsSpace(s[k]) {
      assert s[k] == e[k] == e[..i][k];
    }
  }

  lemma TrimSliceAfter(s: string, n: nat)
    requires n <= |s| && AllSpace(s[n..])
    ensures forall k :: n <= k < |s| ==> IsSpace(s[k])
  {
    forall k | n <= k < |s| ensures IsSpace(s[k]) {
      assert s[k] == s[n..][k - n];
    }
  }

  /**
   * What `trim` keeps is the slice of `s` from `|TrimEnd(s)| - |Trim(s)|` on: everything before
   * and after it is whitespace, and it has no whitespace at its own ends.
   */
  lemma TrimIsSlice(s: string)
    ensures var r := Trim(s); var i := |TrimEnd(s)| - |r|;
      0 <= i && i + |r| <= |s| && r == s[i..i + |r|]
    ensures var r := Trim(s); var i := |TrimEnd(s)| - |r|;
      forall k :: 0 <= k < i ==> IsSpace(s[k])
    ensures var r := Trim(s); var i := |TrimEnd(s)| - |r|;
      forall k :: i + |r| <= k < |s| ==> IsSpace(s[k])
    ensures var r := Trim(s); r != [] ==> !IsSpace(r[0]) && !IsSpace(r[|r| - 1])
  {
    var e := TrimEnd(s);
    var r := TrimStart(e);
    TrimEndDrops(s);
    TrimStartDrops(e);
    var i := |e| - |r|;
    assert r == s[i..i + |r|];
    TrimSliceBefore(s, e, i);
    TrimSliceAfter(s, |e|);
    if r != [] {
      assert r[|r| - 1] == e[|e| - 1];
    }
  }

  /** `trimEnd` of whitespace is empty. */
  lemma {:induction false} AllSpaceTrimEnd(s: string)
    requires AllSpace(s)
    ensures TrimEnd(s) == [] && Trim(s) == []
  {
    if s != [] {
      var u := s[..|s| - 1];
      assert AllSpace(u) by { forall k | 0 <= k < |u| ensures IsSpace(u[k]) { assert u[k] == s[k]; } }
      AllSpaceTrimEnd(u);
    }
  }

  /** A text that neither starts nor ends with whitespace is its own `trim`. */
  lemma TrimUnpadded(s: string)
    requires s != [] && !IsSpace(s[0]) && !IsSpace(s[|s| - 1])
    ensures Trim(s) == s
  {
    assert TrimEnd(s) == s;
  }

  /** `trim` adds no character: a character missing from the text is missing from its `trim`. */
  lemma TrimKeepsOut(s: string, c: char)
    requires c !in s
    ensures c !in Trim(s)
  {
    TrimIsSlice(s);
    var r := Trim(s);
    var i := |TrimEnd(s)| - |r|;
    forall k | 0 <= k < |r| ensures r[k] != c {
      assert r[k] == s[i + k];
    }
  }

  /** Concatenation of a sequence of strings, `ss.join('')`. */
  function Concat(ss: seq<string>): string {
    if ss == [] then "" else ss[0] + Concat(ss[1..])
  }

  /** `ls.join(sep)`. */
  function Join(ls: seq<string>, sep: string): string {
    if |ls| == 0 then ""
    else if |ls| == 1 then ls[0]
    else ls[0] + sep + Join(ls[1..], sep)
  }

  /** `s.split(c)` for a one-character separator: the pieces between the occurrences of `c`. */
  function Split(s: string, c: char): (r: seq<string>)
    decreases |s|
    ensures |r| >= 1
    ensures forall i :: 0 <= i < |r| ==> c !in r[i]
    ensures Join(r, [c]) == s
  {
    match FindChar(s, c, 0)
    case None => [s]
    case Some(i) =>
      var rest := Split(s[i + 1..], c);
      assert s == s[..i] + [c] + s[i + 1..];
      [s[..i]] + rest
  }

  /** Splitting the joined lines gives the lines back when none of them contains the separator. */
  lemma {:induction false} SplitJoin(ls: seq<string>, c: char)
    requires |ls| >= 1
    requires forall i :: 0 <= i < |ls| ==> c !in ls[i]
    ensures Split(Join(ls, [c]), c) == ls
  {
    if |ls| == 1 {
      assert FindChar(ls[0], c, 0).None?;
    } else {
      var s := Join(ls, [c]);
      var tail := Join(ls[1..], [c]);
      assert s == ls[0] + [c] + tail;
      assert s[|ls[0]|] == c;
      assert FindChar(s, c, 0) == Some(|ls[0]|);
      assert s[..|ls[0]|] == ls[0];
      assert s[|ls[0]| + 1..] == tail;
      SplitJoin(ls[1..], c);
    }
  }

  /** The decimal digit for `d`. */
  function DigitChar(d: nat): (c: char)
    requires d < 10
    ensures IsDigit(c)
  {
    ['0', '1', '2', '3', '4', '5', '6', '7', '8', '9'][d]
  }

  /** The decimal notation JavaScript gives a non-negative integer in a template literal. */
  function NatToString(n: nat): (r: string)
    ensures |r| >= 1
    ensures forall i :: 0 <= i < |r| ==> IsDigit(r[i])
  {
    if n < 10 then [DigitChar(n)] else NatToString(n / 10) + [DigitChar(n % 10)]
  }

  /**
   * `s.replace(pat, rep)` with a string pattern: only the first occurrence is replaced,
   * and `rep` is inserted literally.
   */
  function ReplaceFirst(s: string, pat: string, rep: string): (r: string)
    ensures (forall k: nat :: !At(s, k, pat)) ==> r == s
    ensures forall i: nat :: At(s, i, pat) && (forall k: nat :: k < i ==> !At(s, k, pat)) ==>
              r == s[..i] + rep + s[i + |pat|..]
  {
    match IndexOf(s, pat, 0)
    case None => s
    case Some(i) =>
      s[..i] + rep + s[i + |pat|..]
  }

  /** `s.replace(/c/g, rep)` for one literal character `c`. */
  function ReplaceAllChar(s: string, c: char, rep: string): string {
    if s == [] then ""
    else (if s[0] == c then rep else [s[0]]) + ReplaceAllChar(s[1..], c, rep)
  }

  /** A replacement without `c` removes every `c`; a text without `c` is left as it is. */
  lemma {:induction false} ReplaceAllCharRemoves(s: string, c: char, rep: string)
    ensures c !in rep ==> c !in ReplaceAllChar(s, c, rep)
    ensures c !in s ==> ReplaceAllChar(s, c, rep) == s
    decreases |s|
  {
    if s != [] {
      ReplaceAllCharRemoves(s[1..], c, rep);
      if c !in s {
        assert s[0] != c && c !in s[1..];
        assert s == [s[0]] + s[1..];
      }
    }
  }

  /** Replacing a character globally is the same as splitting on it and joining with the replacement. */
  lemma {:induction false} ReplaceAllCharIsSplitJoin(s: string, c: char, rep: string)
    ensures ReplaceAllChar(s, c, rep) == Join(Split(s, c), rep)
    decreases |s|
  {
    match FindChar(s, c, 0)
    case None =>
      ReplaceAllCharRemoves(s, c, rep);
    case Some(i) =>
      ReplaceAllCharPrefix(s, c, rep, i);
      ReplaceAllCharIsSplitJoin(s[i + 1..], c, rep);
      var rest := Split(s[i + 1..], c);
      assert Split(s, c) == [s[..i]] + rest;
  }

  /** A prefix without `c` is copied unchanged by the global replacement. */
  lemma {:induction false} ReplaceAllCharPrefix(s: string, c: char, rep: string, i: nat)
    requires i < |s| && s[i] == c
    requires forall k :: 0 <= k < i ==> s[k] != c
    ensures ReplaceAllChar(s, c, rep) == s[..i] + rep + ReplaceAllChar(s[i + 1..], c, rep)
    decreases i
  {
    if i > 0 {
      var t := s[1..];
      ReplaceAllCharPrefix(t, c, rep, i - 1);
      assert t[..i - 1] == s[1..i];
      assert t[i..] == s[i + 1..];
      calc {
        ReplaceAllChar(s, c, rep);
        [s[0]] + ReplaceAllChar(t, c, rep);
        [s[0]] + (s[1..i] + rep + ReplaceAllChar(s[i + 1..], c, rep));
        { assert [s[0]] + s[1..i] == s[..i]; }
        s[..i] + rep + ReplaceAllChar(s[i + 1..], c, rep);
      }
    }
  }
}

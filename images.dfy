/** The image pass, the last pass of the renderer (components/MarkdownRenderer.tsx lines 244-246). */
module Images {
  import opened Wrappers
  import opened Text
  import opened Rewrite
  import opened Inline

  /** The shape `![alt](url)` at `p`, with the closing `]` at `j` and the closing `)` at `k`; the alt text may be empty. */
  predicate ImageShape(s: string, p: nat, j: nat, k: nat) {
    && p + 2 <= j && j + 2 < k < |s|
    && s[p] == '!' && s[p + 1] == '[' && (forall i :: p + 2 <= i < j ==> s[i] != ']') && s[j] == ']'
    && s[j + 1] == '(' && (forall i :: j + 2 <= i < k ==> s[i] != ')') && s[k] == ')'
  }

  const FigureOpen := "<figure class=\"notion-image\">" + "<img src=\""
  const ImageClass := "\" class=\"notion-image-inner\" />"
  const CaptionOpen := "<figcaption" + " class=\"notion-image-caption\">"

  function ImageHtml(url: string, alt: string): string {
    FigureOpen + url + "\" alt=\"" + alt + ImageClass + CaptionOpen + alt + "</figcaption></figure>"
  }

  /**
   * `!\[([^\]]*)\]\(([^)]+)\)`: the alt text runs to the first `]`, which must be followed by
   * `(`; the URL runs to the first `)` and is not empty.
   */
  function ImageAt(s: string, p: nat): (r: Option<Hit>)
    ensures r.Some? <==> exists j: nat, k: nat :: ImageShape(s, p, j, k)
    ensures forall j: nat, k: nat :: ImageShape(s, p, j, k) ==>
      r == Some(Hit(k + 1, ImageHtml(s[j + 2..k], s[p + 2..j])))
  {
    if p + 1 < |s| && s[p] == '!' && s[p + 1] == '[' then
      match FindChar(s, ']', p + 2)
      case None => None
      case Some(j) =>
        if j + 1 < |s| && s[j + 1] == '(' then
          match FindChar(s, ')', j + 2)
          case None => None
          case Some(k) =>
            if k > j + 2 then
              assert ImageShape(s, p, j, k);
              Some(Hit(k + 1, ImageHtml(s[j + 2..k], s[p + 2..j])))
            else None
        else None
    else None
  }

  function Images(s: string): string {
    ReplaceAll(s, ImageAt)
  }

  /** A text without `!` holds no image and passes through unchanged. */
  lemma NoBangUnchanged(s: string)
    requires '!' !in s
    ensures Images(s) == s
  {
    forall k | 0 <= k < |s| ensures HitAt(s, ImageAt, k).None? {
      assert s[k] in s;
    }
    ReplaceNothing(s, ImageAt);
  }

  /**
   * An image with a non-empty alt text is also a link one character later, so the link pass,
   * which runs first, has already rewritten it; only images with an empty alt text reach this pass.
   */
  lemma ImageWithAltIsLink(s: string, p: nat, j: nat, k: nat)
    requires ImageShape(s, p, j, k) && j > p + 2
    ensures LinkShape(s, p + 1, j, k)
    ensures LinkAt(s, p + 1) == Some(Hit(k + 1, LinkHtml(s[j + 2..k], s[p + 2..j])))
  {
  }

  /** A text that is just an image with an empty alt text becomes one figure. */
  lemma LoneImage(url: string)
    requires url != [] && ')' !in url
    ensures Images("![](" + url + ")") == ImageHtml(url, "")
  {
    var s := "![](" + url + ")";
    var k := |s| - 1;
    assert s[0] == '!' && s[1] == '[' && s[2] == ']' && s[3] == '(' && s[k] == ')';
    assert s[4..k] == url;
    forall i | 4 <= i < k ensures s[i] != ')' {
      assert s[i] == url[i - 4];
    }
    assert ImageShape(s, 0, 2, k);
    assert s[2..2] == "";
    assert HitAt(s, ImageAt, 0) == Some(Hit(|s|, ImageHtml(url, "")));
    assert Replace(s, ImageAt, |s|) == "";
  }
}

/**
 * The list pass of the renderer (components/MarkdownRenderer.tsx lines 139-214): runs of
 * bullet or numbered lines become one `ul` or `ol` element.
 */
module Lists {
  import opened Wrappers
  import opened Text

  datatype Kind = Bullet | Numbered

  /** A list line: its kind, its depth (half its indentation) and its text. */
  datatype Item = Item(kind: Kind, level: nat, content: string)

  /** `/^(\s*)[\*\-] (.*)$/`: whitespace, a star or hyphen, a space, then a rest with no line terminator. */
  predicate BulletShape(line: string, w: nat) {
    && w + 2 <= |line|
    && (forall k :: 0 <= k < w ==> IsSpace(line[k]))
    && (line[w] == '*' || line[w] == '-') && line[w + 1] == ' '
    && (forall k :: w + 2 <= k < |line| ==> !IsLineTerminator(line[k]))
  }

  /**
   * `/^(\s*)\d+\.\s+(.*)$/`: whitespace up to `w`, digits up to `d`, a dot, whitespace up to
   * `e` (as much as there is), then a rest with no line terminator.
   */
  predicate NumberedShape(line: string, w: nat, d: nat, e: nat) {
    && w < d && d + 1 < e <= |line|
    && (forall k :: 0 <= k < w ==> IsSpace(line[k]))
    && (forall k :: w <= k < d ==> IsDigit(line[k]))
    && line[d] == '.'
    && (forall k :: d + 1 <= k < e ==> IsSpace(line[k]))
    && (e < |line| ==> !IsSpace(line[e]))
    && (forall k :: e <= k < |line| ==> !IsLineTerminator(line[k]))
  }

  function DigitRunEnd(s: string, q: nat): (e: nat)
    requires q <= |s|
    decreases |s| - q
    ensures q <= e <= |s| && (forall k :: q <= k < e ==> IsDigit(s[k])) && (e < |s| ==> !IsDigit(s[e]))
  {
    if q < |s| && IsDigit(s[q]) then DigitRunEnd(s, q + 1) else q
  }

  function BulletItem(line: string): Option<Item> {
    var w := SpaceRunEnd(line, 0);
    if w + 2 <= |line| && (line[w] == '*' || line[w] == '-') && line[w + 1] == ' '
      && NoLineTerminator(line[w + 2..])
    then Some(Item(Bullet, w / 2, line[w + 2..]))
    else None
  }

  /** The bullet pattern matches exactly the lines of the bullet shape, and captures its indentation and rest. */
  lemma BulletItemMatches(line: string)
    ensures BulletItem(line).Some? <==> exists w :: BulletShape(line, w)
    ensures forall w: nat :: BulletShape(line, w) ==> BulletItem(line) == Some(Item(Bullet, w / 2, line[w + 2..]))
  {
    var w := SpaceRunEnd(line, 0);
    if BulletItem(line).Some? {
      forall k | w + 2 <= k < |line| ensures !IsLineTerminator(line[k]) {
        assert line[k] == line[w + 2..][k - w - 2];
      }
      assert BulletShape(line, w);
    }
    assert forall v: nat :: BulletShape(line, v) ==> v == w && NoLineTerminator(line[w + 2..]);
  }

  function NumberedItem(line: string): Option<Item> {
    var w := SpaceRunEnd(line, 0);
    var d := DigitRunEnd(line, w);
    if w < d < |line| && line[d] == '.' then
      var e := SpaceRunEnd(line, d + 1);
      if e > d + 1 && NoLineTerminator(line[e..]) then Some(Item(Numbered, w / 2, line[e..]))
      else None
    else None
  }

  /** The numbered pattern matches exactly the lines of the numbered shape, and captures its indentation and rest. */
  lemma NumberedItemMatches(line: string)
    ensures NumberedItem(line).Some? <==> exists w, d, e :: NumberedShape(line, w, d, e)
    ensures forall w: nat, d: nat, e: nat :: NumberedShape(line, w, d, e) ==>
      NumberedItem(line) == Some(Item(Numbered, w / 2, line[e..]))
  {
    NumberedShapeUnique(line);
    if NumberedItem(line).Some? {
      var w := SpaceRunEnd(line, 0);
      var d := DigitRunEnd(line, w);
      var e := SpaceRunEnd(line, d + 1);
      forall k | e <= k < |line| ensures !IsLineTerminator(line[k]) {
        assert line[k] == line[e..][k - e];
      }
      assert NumberedShape(line, w, d, e);
    }
  }

  /** The shape is unique: each part of the pattern takes all it can. */
  lemma NumberedShapeUnique(line: string)
    ensures forall w: nat, d: nat, e: nat :: NumberedShape(line, w, d, e) ==>
      && w == SpaceRunEnd(line, 0) && d == DigitRunEnd(line, w) && e == SpaceRunEnd(line, d + 1)
      && NoLineTerminator(line[e..])
  {
    forall w: nat, d: nat, e: nat | NumberedShape(line, w, d, e)
      ensures w == SpaceRunEnd(line, 0) && d == DigitRunEnd(line, w) && e == SpaceRunEnd(line, d + 1)
      ensures NoLineTerminator(line[e..])
    {
      var w0 := SpaceRunEnd(line, 0);
      assert IsDigit(line[w]) && !IsSpace(line[w]);
      assert w0 == w;
      var d0 := DigitRunEnd(line, w);
      assert d0 == d;
      var e0 := SpaceRunEnd(line, d + 1);
      assert e0 == e;
      forall k | 0 <= k < |line[e..]| ensures !IsLineTerminator(line[e..][k]) {
        assert line[e..][k] == line[e + k];
      }
    }
  }

  /** Lines 155 and 176: the bullet pattern is tried first. */
  function ParseItem(line: string): Option<Item> {
    if BulletItem(line).Some? then BulletItem(line) else NumberedItem(line)
  }

  function Tag(k: Kind): string {
    match k case Bullet => "ul" case Numbered => "ol"
  }

  function ListClass(k: Kind): string {
    match k case Bullet => "notion-list notion-list-disc" case Numbered => "notion-list notion-list-numbered"
  }

  const ItemOpen := "<li class=\"notion-list-item\">"

  function ItemHtml(content: string): string {
    ItemOpen + content + "</li>"
  }

  function CloseTag(k: Kind): string {
    "</" + Tag(k) + ">"
  }

  /** Lines 198-199 and 210-211. */
  function ListHtml(k: Kind, items: seq<string>): string {
    "<" + Tag(k) + " class=\"" + ListClass(k) + "\">" + Concat(items) + CloseTag(k)
  }

  // The loop of lines 151-212 as a state machine: `Idle` outside a list, `Gathering` inside
  // one, with its kind, its depth and the items gathered so far.

  function Idle(lines: seq<string>, i: nat): seq<string>
    requires i <= |lines|
    decreases |lines| - i
  {
    if i == |lines| then []
    else
      match ParseItem(lines[i])
      case Some(it) => Gathering(lines, i + 1, it.kind, it.level, [ItemHtml(it.content)])
      case None => [lines[i]] + Idle(lines, i + 1)
  }

  function Gathering(lines: seq<string>, i: nat, k: Kind, level: nat, items: seq<string>): seq<string>
    requires i <= |lines|
    decreases |lines| - i
  {
    if i == |lines| then [ListHtml(k, items)]
    else
      match ParseItem(lines[i])
      case Some(it) =>
        if it.kind != k || it.level != level then
          [CloseTag(k)] + Gathering(lines, i + 1, it.kind, it.level, [ItemHtml(it.content)])
        else Gathering(lines, i + 1, k, level, items + [ItemHtml(it.content)])
      case None => [ListHtml(k, items), lines[i]] + Idle(lines, i + 1)
  }

  // The same pass described by groups: consecutive list lines of one kind and depth form a
  // group. A group that another list line follows is replaced by a lone closing tag and its
  // items are lost; any other group becomes a whole list.

  predicate InGroup(line: string, k: Kind, level: nat) {
    ParseItem(line).Some? && ParseItem(line).value.kind == k && ParseItem(line).value.level == level
  }

  function GroupEnd(lines: seq<string>, i: nat, k: Kind, level: nat): (j: nat)
    requires i <= |lines|
    decreases |lines| - i
    ensures i <= j <= |lines|
    ensures forall m :: i <= m < j ==> InGroup(lines[m], k, level)
    ensures j < |lines| ==> !InGroup(lines[j], k, level)
  {
    if i < |lines| && InGroup(lines[i], k, level) then GroupEnd(lines, i + 1, k, level) else i
  }

  function GroupItems(lines: seq<string>, i: nat, j: nat): seq<string>
    requires i <= j <= |lines|
    decreases j - i
  {
    if i == j then []
    else
      (match ParseItem(lines[i]) case Some(it) => [ItemHtml(it.content)] case None => [])
      + GroupItems(lines, i + 1, j)
  }

  /** What a group of kind `k` that ends at `j` with the items `items` turns into. */
  function GroupOutput(lines: seq<string>, j: nat, k: Kind, items: seq<string>): seq<string>
    requires j <= |lines|
  {
    if j < |lines| && ParseItem(lines[j]).Some? then [CloseTag(k)] else [ListHtml(k, items)]
  }

  function Groups(lines: seq<string>, i: nat): seq<string>
    requires i <= |lines|
    decreases |lines| - i
  {
    if i == |lines| then []
    else
      match ParseItem(lines[i])
      case Some(it) =>
        var j := GroupEnd(lines, i + 1, it.kind, it.level);
        GroupOutput(lines, j, it.kind, GroupItems(lines, i, j)) + Groups(lines, j)
      case None => [lines[i]] + Groups(lines, i + 1)
  }

  /** An item line opens a group: the group's output, then the groups after it. */
  lemma GroupsAtItem(lines: seq<string>, i: nat, it: Item)
    requires i < |lines| && ParseItem(lines[i]) == Some(it)
    ensures var j := GroupEnd(lines, i + 1, it.kind, it.level);
      Groups(lines, i) == GroupOutput(lines, j, it.kind, [ItemHtml(it.content)] + GroupItems(lines, i + 1, j)) + Groups(lines, j)
  {
    var j := GroupEnd(lines, i + 1, it.kind, it.level);
    assert GroupItems(lines, i, j) == [ItemHtml(it.content)] + GroupItems(lines, i + 1, j);
  }

  lemma GroupOutputAtEnd(lines: seq<string>, k: Kind, items: seq<string>)
    ensures GroupOutput(lines, |lines|, k, items) == [ListHtml(k, items)]
  {
  }

  /** Inside a list the machine emits its group's output at the group's end and then goes on by groups. */
  lemma {:induction false} GatheringIsGroups(lines: seq<string>, i: nat, k: Kind, level: nat, items: seq<string>)
    requires i <= |lines|
    ensures var j := GroupEnd(lines, i, k, level);
      Gathering(lines, i, k, level, items) == GroupOutput(lines, j, k, items + GroupItems(lines, i, j)) + Groups(lines, j)
    decreases |lines| - i, 1
  {
    var j := GroupEnd(lines, i, k, level);
    if i == |lines| {
      assert items + [] == items;
      GroupOutputAtEnd(lines, k, items);
    } else {
      match ParseItem(lines[i])
      case Some(it) =>
        var li := ItemHtml(it.content);
        if it.kind != k || it.level != level {
          ItemStep(lines, i, it, true, k, level, items);
          GatheringIsGroups(lines, i + 1, it.kind, it.level, [li]);
          GroupsAtItem(lines, i, it);
          assert j == i;
          assert GroupOutput(lines, j, k, items + GroupItems(lines, i, j)) == [CloseTag(k)];
        } else {
          ItemStep(lines, i, it, true, k, level, items);
          assert j == GroupEnd(lines, i + 1, k, level);
          assert GroupItems(lines, i, j) == [li] + GroupItems(lines, i + 1, j);
          GatheringIsGroups(lines, i + 1, k, level, items + [li]);
          ConcatAssoc(items, [li], GroupItems(lines, i + 1, j));
        }
      case None =>
        PlainStep(lines, i, true, k, level, items);
        assert j == i && GroupItems(lines, i, j) == [];
        assert items + [] == items;
        assert GroupOutput(lines, j, k, items) == [ListHtml(k, items)];
        assert Groups(lines, i) == [lines[i]] + Groups(lines, i + 1);
        IdleIsGroups(lines, i + 1);
    }
  }

  /** The machine and the description by groups agree. */
  lemma {:induction false} IdleIsGroups(lines: seq<string>, i: nat)
    requires i <= |lines|
    ensures Idle(lines, i) == Groups(lines, i)
    decreases |lines| - i, 0
  {
    if i < |lines| {
      match ParseItem(lines[i])
      case Some(it) =>
        GatheringIsGroups(lines, i + 1, it.kind, it.level, [ItemHtml(it.content)]);
        GroupsAtItem(lines, i, it);
      case None =>
        IdleIsGroups(lines, i + 1);
    }
  }

  lemma ItemStep(lines: seq<string>, i: nat, it: Item, inList: bool, k: Kind, level: nat, items: seq<string>)
    requires i < |lines| && ParseItem(lines[i]) == Some(it)
    ensures !inList ==> Idle(lines, i) == Gathering(lines, i + 1, it.kind, it.level, [] + [ItemHtml(it.content)])
    ensures inList && (it.kind != k || it.level != level) ==>
      Gathering(lines, i, k, level, items) == [CloseTag(k)] + Gathering(lines, i + 1, it.kind, it.level, [] + [ItemHtml(it.content)])
    ensures inList && it.kind == k && it.level == level ==>
      Gathering(lines, i, k, level, items) == Gathering(lines, i + 1, k, level, items + [ItemHtml(it.content)])
  {
    assert [] + [ItemHtml(it.content)] == [ItemHtml(it.content)];
  }

  lemma PlainStep(lines: seq<string>, i: nat, inList: bool, k: Kind, level: nat, items: seq<string>)
    requires i < |lines| && ParseItem(lines[i]).None?
    ensures !inList ==> Idle(lines, i) == [lines[i]] + Idle(lines, i + 1)
    ensures inList ==> Gathering(lines, i, k, level, items) == [ListHtml(k, items)] + ([lines[i]] + Idle(lines, i + 1))
  {
    var rest := Idle(lines, i + 1);
    assert Gathering(lines, i, k, level, items) == [ListHtml(k, items), lines[i]] + rest;
    assert [ListHtml(k, items), lines[i]] == [ListHtml(k, items)] + [lines[i]];
    ConcatAssoc([ListHtml(k, items)], [lines[i]], rest);
  }

  /** A list line that starts a new group: the open list, if any, is closed by its tag alone. */
  lemma NewGroupStep(lines: seq<string>, i: nat, out: seq<string>, it: Item, inList: bool, k: Kind, level: nat, items: seq<string>)
    requires i < |lines| && ParseItem(lines[i]) == Some(it)
    requires !inList || it.kind != k || it.level != level
    requires out + (if inList then Gathering(lines, i, k, level, items) else Idle(lines, i)) == Idle(lines, 0)
    ensures (if inList then out + [CloseTag(k)] else out) + Gathering(lines, i + 1, it.kind, it.level, [] + [ItemHtml(it.content)])
      == Idle(lines, 0)
  {
    assert [] + [ItemHtml(it.content)] == [ItemHtml(it.content)];
    if inList {
      ConcatAssoc(out, [CloseTag(k)], Gathering(lines, i + 1, it.kind, it.level, [ItemHtml(it.content)]));
    }
  }

  /** A list line of the open group's kind and depth joins the group. */
  lemma SameGroupStep(lines: seq<string>, i: nat, out: seq<string>, it: Item, k: Kind, level: nat, items: seq<string>)
    requires i < |lines| && ParseItem(lines[i]) == Some(it) && it.kind == k && it.level == level
    requires out + Gathering(lines, i, k, level, items) == Idle(lines, 0)
    ensures out + Gathering(lines, i + 1, k, level, items + [ItemHtml(it.content)]) == Idle(lines, 0)
  {
  }

  /** Any other line closes the open list, if any, and is copied. */
  lemma TextStep(lines: seq<string>, i: nat, out: seq<string>, inList: bool, k: Kind, level: nat, items: seq<string>)
    requires i < |lines| && ParseItem(lines[i]).None?
    requires out + (if inList then Gathering(lines, i, k, level, items) else Idle(lines, i)) == Idle(lines, 0)
    ensures (if inList then out + [ListHtml(k, items)] else out) + [lines[i]] + Idle(lines, i + 1) == Idle(lines, 0)
  {
    PlainStep(lines, i, inList, k, level, items);
    var rest := Idle(lines, i + 1);
    if inList {
      var h := ListHtml(k, items);
      assert Gathering(lines, i, k, level, items) == [h] + ([lines[i]] + rest);
      ConcatAssoc(out, [h], [lines[i]] + rest);
      ConcatAssoc(out + [h], [lines[i]], rest);
    } else {
      assert Idle(lines, i) == [lines[i]] + rest;
      ConcatAssoc(out, [lines[i]], rest);
    }
  }

  /** Lines 142-214, the loop and the final flush. */
  method ListStage(lines: seq<string>) returns (out: seq<string>)
    ensures out == Groups(lines, 0)
  {
    var inList := false;
    var listType := Bullet;
    var listItems: seq<string> := [];
    var listLevel := 0;
    out := [];
    var i := 0;
    while i < |lines|
      invariant i <= |lines|
      invariant !inList ==> listItems == []
      invariant inList ==> out + Gathering(lines, i, listType, listLevel, listItems) == Idle(lines, 0)
      invariant !inList ==> out + Idle(lines, i) == Idle(lines, 0)
    {
      var line := lines[i];
      var item := ParseItem(line);
      if item.Some? {
        var it := item.value;
        if !inList || listType != it.kind || it.level != listLevel {
          NewGroupStep(lines, i, out, it, inList, listType, listLevel, listItems);
          if inList {
            out := out + [CloseTag(listType)];
            listItems := [];
          }
          inList := true;
          listType := it.kind;
          listLevel := it.level;
        } else {
          SameGroupStep(lines, i, out, it, listType, listLevel, listItems);
        }
        listItems := listItems + [ItemHtml(it.content)];
        i := i + 1;
        continue;
      }
      TextStep(lines, i, out, inList, listType, listLevel, listItems);
      if inList {
        out := out + [ListHtml(listType, listItems)];
        inList := false;
        listItems := [];
      }
      out := out + [line];
      i := i + 1;
    }
    if inList {
      out := out + [ListHtml(listType, listItems)];
    }
    IdleIsGroups(lines, 0);
  }

  /** Text with no list line goes through the pass unchanged. */
  lemma {:induction false} NoItemsUnchanged(lines: seq<string>, i: nat)
    requires i <= |lines|
    requires forall m :: i <= m < |lines| ==> ParseItem(lines[m]).None?
    ensures Groups(lines, i) == lines[i..]
    decreases |lines| - i
  {
    if i < |lines| {
      NoItemsUnchanged(lines, i + 1);
      assert lines[i..] == [lines[i]] + lines[i + 1..];
    }
  }

  /** Two list lines of one kind and depth make one list with both items. */
  lemma SameGroupJoins(a: string, b: string, x: Item, y: Item)
    requires ParseItem(a) == Some(x) && ParseItem(b) == Some(y)
    requires x.kind == y.kind && x.level == y.level
    ensures Groups([a, b], 0) == [ListHtml(x.kind, [ItemHtml(x.content), ItemHtml(y.content)])]
  {
    var lines := [a, b];
    assert GroupEnd(lines, 2, x.kind, x.level) == 2;
    assert GroupEnd(lines, 1, x.kind, x.level) == 2;
    assert GroupItems(lines, 1, 2) == [ItemHtml(y.content)];
    assert GroupItems(lines, 0, 2) == [ItemHtml(x.content), ItemHtml(y.content)];
  }

  /**
   * When the kind or the depth changes, the first group is closed with a lone closing tag and
   * its item is lost: only the second line's item is rendered.
   */
  lemma KindChangeDropsItems(a: string, b: string, x: Item, y: Item)
    requires ParseItem(a) == Some(x) && ParseItem(b) == Some(y)
    requires x.kind != y.kind || x.level != y.level
    ensures Groups([a, b], 0) == [CloseTag(x.kind), ListHtml(y.kind, [ItemHtml(y.content)])]
  {
    var lines := [a, b];
    assert GroupEnd(lines, 1, x.kind, x.level) == 1;
    assert GroupEnd(lines, 2, y.kind, y.level) == 2;
    assert GroupItems(lines, 1, 2) == [ItemHtml(y.content)];
    assert Groups(lines, 2) == [];
    assert Groups(lines, 1) == [ListHtml(y.kind, [ItemHtml(y.content)])];
  }
}

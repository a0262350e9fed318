/** Highlighting marked-up text: style changes become tags, which are merged with the text's own tags and inserted again. */
module TagMerge {
  import opened Results

  /** A node of the original element, or one made for a style. */
  datatype Node = Element(id: nat) | Span(style: string)

  /** Whether an end tag belongs to a highlight is history: the source's end tags are alike. */
  datatype Tag = Start(node: Node, pos: nat) | End(pos: nat, highlight: bool)

  predicate IsHighlight(tag: Tag) {
    if tag.Start? then tag.node.Span? else tag.highlight
  }

  // ---------- lists of tags ----------

  predicate Sorted(tags: seq<Tag>, from: nat) {
    tags == [] || (tags[0].pos >= from && Sorted(tags[1..], tags[0].pos))
  }

  predicate StartsHighlight(tags: seq<Tag>) {
    |tags| >= 2 && tags[0].Start? && tags[0].node.Span? && tags[1].End? && tags[1].highlight && tags[0].pos <= tags[1].pos
  }

  /** Every highlight start is directly followed by its end, and there are no other highlight tags. */
  predicate Paired(tags: seq<Tag>)
    decreases |tags|
  {
    tags == [] || (if IsHighlight(tags[0]) then StartsHighlight(tags) && Paired(tags[2..]) else Paired(tags[1..]))
  }

  /** Nothing but highlights. */
  predicate Highlights(tags: seq<Tag>)
    decreases |tags|
  {
    tags == [] || (StartsHighlight(tags) && Highlights(tags[2..]))
  }

  predicate Originals(tags: seq<Tag>) {
    forall k :: 0 <= k < |tags| ==> !IsHighlight(tags[k])
  }

  /** The tags that are not highlights. */
  function Kept(tags: seq<Tag>): seq<Tag> {
    if tags == [] then [] else if IsHighlight(tags[0]) then Kept(tags[1..]) else [tags[0]] + Kept(tags[1..])
  }

  /** The style of the character after a position. */
  function StyleAt(tags: seq<Tag>, p: nat): Option<string> {
    if tags == [] then None
    else if StartsHighlight(tags) && tags[0].pos <= p < tags[1].pos then Some(tags[0].node.style)
    else StyleAt(tags[1..], p)
  }

  /** The nodes a position is in, from the outermost: those open before the tags, and those the tags up to it leave open. */
  function PathAt(tags: seq<Tag>, p: nat, path: seq<Node>): seq<Node> {
    if tags == [] || tags[0].pos > p then path else PathAt(tags[1..], p, Apply(path, tags[0]))
  }

  function Apply(path: seq<Node>, tag: Tag): seq<Node> {
    if tag.Start? then path + [tag.node] else if path == [] then [] else path[..|path| - 1]
  }

  // ---------- merging ----------

  /** The highlights, with the first starting at another position. */
  function Rest(h: seq<Tag>, pos: nat): (r: seq<Tag>)
    requires Highlights(h) && h != [] && pos <= h[1].pos
    ensures Highlights(r) && |r| == |h| && r[0] == Start(h[0].node, pos) && r[1] == h[1] && r[2..] == h[2..]
  {
    var r := [Start(h[0].node, pos)] + h[1..];
    assert r[2..] == h[2..];
    r
  }

  function Merge(o: seq<Tag>, h: seq<Tag>): seq<Tag>
    requires Highlights(h)
    decreases |o|, |h|, if o != [] && h != [] && h[0].pos < o[0].pos then 1 else 0
  {
    if o == [] then h
    else if h == [] then o
    else if o[0].pos <= h[0].pos then [o[0]] + Merge(o[1..], h)
    else if h[1].pos <= o[0].pos then [h[0], h[1]] + Merge(o, h[2..])
    else [h[0], End(o[0].pos, true)] + Merge(o, Rest(h, o[0].pos))
  }

  /** Unfolds one round of the merge. */
  lemma MergeSplits(o: seq<Tag>, h: seq<Tag>)
    requires Highlights(h) && o != [] && h != [] && h[0].pos < o[0].pos
    ensures if h[1].pos <= o[0].pos then Merge(o, h) == [h[0], h[1]] + Merge(o, h[2..])
            else Merge(o, h) == [h[0], End(o[0].pos, true)] + Merge(o, Rest(h, o[0].pos))
  {
  }

  lemma MergeTakes(o: seq<Tag>, h: seq<Tag>)
    requires Highlights(h) && o != [] && h != [] && o[0].pos <= h[0].pos
    ensures Merge(o, h) == [o[0]] + Merge(o[1..], h)
  {
  }

  lemma MergeEnds(o: seq<Tag>, h: seq<Tag>)
    requires Highlights(h) && (o == [] || h == [])
    ensures Merge(o, h) == o + h
  {
  }

  lemma HighlightsTwo(h: seq<Tag>)
    requires Highlights(h) && h != []
    ensures |h| >= 2 && h[0].Start? && Highlights(h[2..])
  {
  }

  /** Splits a highlight where an original tag falls into it; the array of highlights is rewritten on the way. */
  method MergeTags(originalTags: seq<Tag>, highlightTags0: seq<Tag>) returns (result: seq<Tag>)
    requires Highlights(highlightTags0)
    ensures result == Merge(originalTags, highlightTags0)
  {
    hide Merge, Rest, Highlights;
    if |originalTags| == 0 {
      MergeEnds(originalTags, highlightTags0);
      return highlightTags0;
    }
    if |highlightTags0| == 0 {
      MergeEnds(originalTags, highlightTags0);
      return originalTags;
    }
    var highlightTags := highlightTags0;
    result := [];
    var originalIndex, highlightIndex := 0, 0;
    ghost var merged := Merge(originalTags, highlightTags0);
    assert originalTags[0..] == originalTags && highlightTags[0..] == highlightTags && [] + merged == merged;
    while originalIndex < |originalTags| && highlightIndex < |highlightTags|
      invariant originalIndex <= |originalTags| && highlightIndex <= |highlightTags| && Highlights(highlightTags[highlightIndex..])
      invariant merged == result + Merge(originalTags[originalIndex..], highlightTags[highlightIndex..])
      decreases |originalTags| - originalIndex, |highlightTags| - highlightIndex,
                if originalIndex < |originalTags| && highlightIndex < |highlightTags|
                   && highlightTags[highlightIndex].pos < originalTags[originalIndex].pos then 1 else 0
    {
      var originalTag, highlightTag := originalTags[originalIndex], highlightTags[highlightIndex];
      ghost var o, h := originalTags[originalIndex..], highlightTags[highlightIndex..];
      HighlightsTwo(h);
      if originalTag.pos <= highlightTag.pos {
        MergeTakes(o, h);
        assert o[1..] == originalTags[originalIndex + 1..];
        Appended(merged, result, [originalTag], Merge(o[1..], h));
        result := result + [originalTag];
        originalIndex := originalIndex + 1;
      } else {
        MergeSplits(o, h);
        if highlightTags[highlightIndex + 1].pos <= originalTag.pos {
          assert h[2..] == highlightTags[highlightIndex + 2..];
          Appended(merged, result, [h[0], h[1]], Merge(o, h[2..]));
          result := result + [highlightTag] + [highlightTags[highlightIndex + 1]];
          highlightIndex := highlightIndex + 2;
        } else {
          Appended(merged, result, [h[0], End(originalTag.pos, true)], Merge(o, Rest(h, originalTag.pos)));
          result := result + [highlightTag] + [End(originalTag.pos, true)];
          highlightTags := highlightTags[highlightIndex := Start(highlightTag.node, originalTag.pos)];
          RestIs(h, originalTag.pos);
          assert highlightTags[highlightIndex..] == Rest(h, originalTag.pos);
        }
      }
    }
    MergeEnds(originalTags[originalIndex..], highlightTags[highlightIndex..]);
    assert result + (originalTags[originalIndex..] + highlightTags[highlightIndex..])
        == result + originalTags[originalIndex..] + highlightTags[highlightIndex..];
    result := result + originalTags[originalIndex..] + highlightTags[highlightIndex..];
  }

  lemma RestIs(h: seq<Tag>, pos: nat)
    requires Highlights(h) && h != [] && pos <= h[1].pos
    ensures Rest(h, pos) == h[0 := Start(h[0].node, pos)]
  {
  }

  lemma Appended(whole: seq<Tag>, front: seq<Tag>, some: seq<Tag>, rest: seq<Tag>)
    requires whole == front + (some + rest)
    ensures whole == front + some + rest
    ensures |some| == 2 ==> front + some == front + [some[0]] + [some[1]]
  {
  }

  // ---------- what merging keeps ----------

  /** The result is sorted. */
  lemma {:induction false} MergeSorted(o: seq<Tag>, h: seq<Tag>, from: nat)
    requires Highlights(h) && Sorted(o, from) && Sorted(h, from)
    ensures Sorted(Merge(o, h), from)
    decreases |o|, |h|, if o != [] && h != [] && h[0].pos < o[0].pos then 1 else 0
  {
    if o != [] && h != [] {
      if o[0].pos <= h[0].pos {
        MergeSorted(o[1..], h, o[0].pos);
      } else {
        MergeSplits(o, h);
        if h[1].pos <= o[0].pos {
          assert h[1..][1..] == h[2..];
          MergeSorted(o, h[2..], h[1].pos);
          TwoSorted(h[0], h[1], Merge(o, h[2..]), from);
        } else {
          var rest := Rest(h, o[0].pos);
          assert rest[1..] == h[1..];
          MergeSorted(o, rest, o[0].pos);
          TwoSorted(h[0], End(o[0].pos, true), Merge(o, rest), from);
        }
      }
    }
  }

  lemma TwoSorted(a: Tag, b: Tag, rest: seq<Tag>, from: nat)
    requires from <= a.pos <= b.pos && Sorted(rest, b.pos)
    ensures Sorted([a, b] + rest, from)
  {
    assert ([a, b] + rest)[1..] == [b] + rest && ([b] + rest)[1..] == rest;
  }

  /** Every highlight start in the result is directly followed by its end. */
  lemma {:induction false} MergePaired(o: seq<Tag>, h: seq<Tag>)
    requires Highlights(h) && Originals(o)
    ensures Paired(Merge(o, h))
    decreases |o|, |h|, if o != [] && h != [] && h[0].pos < o[0].pos then 1 else 0
  {
    if o == [] {
      HighlightsPaired(h);
    } else if h == [] {
      OriginalsPaired(o);
    } else if o[0].pos <= h[0].pos {
      MergePaired(o[1..], h);
      assert Merge(o, h)[1..] == Merge(o[1..], h);
    } else {
      MergeSplits(o, h);
      var rest := if h[1].pos <= o[0].pos then h[2..] else Rest(h, o[0].pos);
      MergePaired(o, rest);
      assert Merge(o, h)[2..] == Merge(o, rest);
    }
  }

  lemma {:induction false} HighlightsPaired(h: seq<Tag>)
    requires Highlights(h)
    ensures Paired(h)
    decreases |h|
  {
    if h != [] {
      HighlightsPaired(h[2..]);
    }
  }

  lemma {:induction false} OriginalsPaired(o: seq<Tag>)
    requires Originals(o)
    ensures Paired(o) && Kept(o) == o
  {
    if o != [] {
      OriginalsPaired(o[1..]);
    }
  }

  lemma {:induction false} KeptHighlights(h: seq<Tag>)
    requires Highlights(h)
    ensures Kept(h) == []
    decreases |h|
  {
    if h != [] {
      KeptHighlights(h[2..]);
      assert h[1..][1..] == h[2..];
    }
  }

  lemma KeptTwo(a: Tag, b: Tag, rest: seq<Tag>)
    requires IsHighlight(a) && IsHighlight(b)
    ensures Kept([a, b] + rest) == Kept(rest)
  {
    assert ([a, b] + rest)[1..] == [b] + rest && ([b] + rest)[1..] == rest;
  }

  /** Without the highlights the result is the original list: every original tag is there once, in its order. */
  lemma {:induction false} MergeKeeps(o: seq<Tag>, h: seq<Tag>)
    requires Highlights(h) && Originals(o)
    ensures Kept(Merge(o, h)) == o
    decreases |o|, |h|, if o != [] && h != [] && h[0].pos < o[0].pos then 1 else 0
  {
    if o == [] {
      KeptHighlights(h);
    } else if h == [] {
      OriginalsPaired(o);
    } else if o[0].pos <= h[0].pos {
      MergeKeeps(o[1..], h);
      assert Merge(o, h)[1..] == Merge(o[1..], h);
    } else {
      MergeSplits(o, h);
      if h[1].pos <= o[0].pos {
        MergeKeeps(o, h[2..]);
        KeptTwo(h[0], h[1], Merge(o, h[2..]));
      } else {
        MergeKeeps(o, Rest(h, o[0].pos));
        KeptTwo(h[0], End(o[0].pos, true), Merge(o, Rest(h, o[0].pos)));
      }
    }
  }

  // ---------- what every character is in ----------

  function Styled(style: Option<string>): seq<Node> {
    if style.Some? then [Span(style.value)] else []
  }

  lemma {:induction false} NothingBefore(tags: seq<Tag>, from: nat, p: nat, path: seq<Node>)
    requires Sorted(tags, from) && p < from
    ensures PathAt(tags, p, path) == path && StyleAt(tags, p) == None
  {
    if tags != [] {
      NothingBefore(tags[1..], tags[0].pos, p, path);
    }
  }

  /** A highlight, in place before the rest of the tags. */
  lemma PathTwo(h: seq<Tag>, end: nat, rest: seq<Tag>, p: nat, path: seq<Node>)
    requires StartsHighlight(h) && h[0].pos <= end
    ensures PathAt([h[0], End(end, true)] + rest, p, path)
         == if p < h[0].pos then path else if p < end then path + [h[0].node] else PathAt(rest, p, path)
  {
    var two := [h[0], End(end, true)] + rest;
    assert two[1..] == [End(end, true)] + rest && two[1..][1..] == rest;
    assert (path + [h[0].node])[..|path|] == path;
  }

  lemma StyleTwo(h: seq<Tag>, p: nat)
    requires Highlights(h) && h != []
    ensures StyleAt(h, p) == if h[0].pos <= p < h[1].pos then Some(h[0].node.style) else StyleAt(h[2..], p)
  {
    assert h[1..][1..] == h[2..];
  }

  lemma {:induction false} PathHighlights(h: seq<Tag>, from: nat, p: nat, path: seq<Node>)
    requires Highlights(h) && Sorted(h, from)
    ensures PathAt(h, p, path) == path + Styled(StyleAt(h, p))
    decreases |h|
  {
    if h == [] {
      assert path + [] == path;
    } else {
      assert h == [h[0], h[1]] + h[2..] && h[1..][1..] == h[2..];
      PathTwo(h, h[1].pos, h[2..], p, path);
      StyleTwo(h, p);
      if p < h[1].pos {
        NothingBefore(h[2..], h[1].pos, p, path);
        assert path + [] == path;
      } else {
        PathHighlights(h[2..], h[1].pos, p, path);
      }
    }
  }

  /** The original list alone gives every character its original ancestors; merged, it has its highlight inside them. */
  lemma {:induction false} MergePath(o: seq<Tag>, h: seq<Tag>, from: nat, p: nat, path: seq<Node>)
    requires Highlights(h) && Sorted(o, from) && Sorted(h, from)
    ensures PathAt(Merge(o, h), p, path) == PathAt(o, p, path) + Styled(StyleAt(h, p))
    decreases |o|, |h|, if o != [] && h != [] && h[0].pos < o[0].pos then 1 else 0
  {
    if o == [] {
      PathHighlights(h, from, p, path);
    } else if h == [] {
      assert PathAt(o, p, path) + [] == PathAt(o, p, path);
    } else if o[0].pos <= h[0].pos {
      OriginalFirst(o, h, from, p, path);
      if p >= o[0].pos {
        MergePath(o[1..], h, o[0].pos, p, Apply(path, o[0]));
      }
    } else {
      MergeSplits(o, h);
      var end := if h[1].pos <= o[0].pos then h[1].pos else o[0].pos;
      var rest := if h[1].pos <= o[0].pos then h[2..] else Rest(h, o[0].pos);
      assert h[1..][1..] == h[2..] && (h[1].pos > o[0].pos ==> rest[1..] == h[1..]);
      HighlightFirst(o, h, end, rest, p, path);
      if p >= end {
        MergePath(o, rest, end, p, path);
      }
    }
  }

  lemma OriginalFirst(o: seq<Tag>, h: seq<Tag>, from: nat, p: nat, path: seq<Node>)
    requires Highlights(h) && Sorted(o, from) && Sorted(h, from) && o != [] && h != [] && o[0].pos <= h[0].pos
    ensures Merge(o, h)[0] == o[0] && Merge(o, h)[1..] == Merge(o[1..], h) && Sorted(h, o[0].pos)
    ensures p < o[0].pos ==> PathAt(Merge(o, h), p, path) == path == PathAt(o, p, path) + Styled(StyleAt(h, p))
  {
    if p < o[0].pos {
      NothingBefore(h, o[0].pos, p, path);
      assert path + [] == path;
    }
  }

  /** One highlight, or the first piece of it, before the next original tag. */
  lemma HighlightFirst(o: seq<Tag>, h: seq<Tag>, end: nat, rest: seq<Tag>, p: nat, path: seq<Node>)
    requires Highlights(h) && o != [] && h != [] && h[0].pos <= end <= o[0].pos && Sorted(rest, end) && Highlights(rest)
    requires Merge(o, h) == [h[0], End(end, true)] + Merge(o, rest)
    requires end <= h[1].pos && rest == if end == h[1].pos then h[2..] else Rest(h, end)
    ensures p < end ==> PathAt(Merge(o, h), p, path) == PathAt(o, p, path) + Styled(StyleAt(h, p))
    ensures p >= end ==> PathAt(Merge(o, h), p, path) == PathAt(Merge(o, rest), p, path) && StyleAt(h, p) == StyleAt(rest, p)
  {
    PathTwo(h, end, Merge(o, rest), p, path);
    StyleTwo(h, p);
    if end != h[1].pos {
      StyleTwo(rest, p);
    }
    if p < end {
      assert PathAt(o, p, path) == path && path + [] == path;
      if p < h[0].pos {
        NothingBefore(rest, end, p, path);
      }
    }
  }

  // ---------- making highlights ----------

  predicate Below(tags: seq<Tag>, pos: nat) {
    forall k :: 0 <= k < |tags| ==> tags[k].pos <= pos
  }

  lemma {:induction false} NoStyleAfter(tags: seq<Tag>, pos: nat, p: nat)
    requires Below(tags, pos) && p >= pos
    ensures StyleAt(tags, p) == None
  {
    if tags != [] {
      NoStyleAfter(tags[1..], pos, p);
    }
  }

  lemma {:induction false} HighlightsAppend(h: seq<Tag>, style: string, start: nat, end: nat, from: nat)
    requires Highlights(h) && Sorted(h, from) && Below(h, start) && from <= start <= end
    ensures var more := h + [Start(Span(style), start), End(end, true)];
      Highlights(more) && Sorted(more, from) && Below(more, end)
    decreases |h|
  {
    var two := [Start(Span(style), start), End(end, true)];
    if h == [] {
      assert h + two == two && two[1..][1..] == [] && two[2..] == [];
    } else {
      assert h[1..][1..] == h[2..];
      HighlightsAppend(h[2..], style, start, end, h[1].pos);
      assert (h + two)[2..] == h[2..] + two && (h + two)[1..][1..] == h[2..] + two;
    }
  }

  lemma {:induction false} StyleAppend(h: seq<Tag>, style: string, start: nat, end: nat, p: nat)
    requires Highlights(h) && Below(h, start) && start <= end
    ensures StyleAt(h + [Start(Span(style), start), End(end, true)], p)
         == if p < start then StyleAt(h, p) else if p < end then Some(style) else None
    decreases |h|
  {
    var two := [Start(Span(style), start), End(end, true)];
    if h == [] {
      assert h + two == two && two[1..][1..] == [];
      assert StyleAt(two[1..], p) == None;
    } else {
      var more := h + two;
      assert more[2..] == h[2..] + two && more[1..][1..] == more[2..] && h[1..][1..] == h[2..];
      StyleAppend(h[2..], style, start, end, p);
      assert StartsHighlight(more) && !StartsHighlight(more[1..]) && !StartsHighlight(h[1..]);
      if p >= start {
        NoStyleAfter(h, start, p);
      }
    }
  }

  function Repeat(n: nat, style: Option<string>): (r: seq<Option<string>>)
    ensures |r| == n && forall k :: 0 <= k < n ==> r[k] == style
  {
    if n == 0 then [] else [style] + Repeat(n - 1, style)
  }

  lemma NoRepeat(style: Option<string>)
    ensures Repeat(0, style) == []
  {
  }

  /** The state of sh_highlightString that its output closure updates. */
  class Highlighter {
    var tags: seq<Tag>
    var pos: nat
    var currentStyle: Option<string>
    /** The style of every character so far; where the current one began; and the highlights before it. */
    ghost var styles: seq<Option<string>>
    ghost var since: nat
    ghost var done: seq<Tag>

    ghost predicate Valid()
      reads this
    {
      && tags == done + (if currentStyle.Some? then [Start(Span(currentStyle.value), since)] else [])
      && Highlights(done) && Sorted(done, 0) && Below(done, since) && since <= pos == |styles|
      && (forall p :: 0 <= p < since ==> StyleAt(done, p) == styles[p])
      && (forall p :: since <= p < pos ==> styles[p] == currentStyle)
    }

    constructor ()
      ensures Valid() && styles == [] && tags == []
    {
      tags, pos, currentStyle, styles, since, done := [], 0, None, [], 0, [];
    }

    /** Ends the current style, if there is one. */
    method Close()
      requires Valid()
      modifies this
      ensures Valid() && currentStyle == None && pos == old(pos) && styles == old(styles) && since == pos && done == tags
    {
      hide Highlights, Sorted, StyleAt;
      if currentStyle.Some? {
        HighlightsAppend(done, currentStyle.value, since, pos, 0);
        forall p | 0 <= p < pos
          ensures StyleAt(done + [Start(Span(currentStyle.value), since), End(pos, true)], p) == styles[p]
        {
          StyleAppend(done, currentStyle.value, since, pos, p);
        }
        done := done + [Start(Span(currentStyle.value), since), End(pos, true)];
        tags := tags + [End(pos, true)];
        assert tags == done;
      } else {
        forall p | since <= p < pos ensures StyleAt(done, p) == None {
          NoStyleAfter(done, since, p);
        }
      }
      since := pos;
      currentStyle := None;
    }

    /** output(s, style), for a string of this length. */
    method Output(length: nat, style: Option<string>)
      requires Valid()
      modifies this
      ensures Valid() && pos == old(pos) + length && styles == old(styles) + Repeat(length, style)
    {
      hide Highlights, Sorted, StyleAt, Below, Repeat;
      if length == 0 {
        NoRepeat(style);
        assert styles + [] == styles;
        return;
      }
      if currentStyle != style {
        Close();
        if style.Some? {
          tags := tags + [Start(Span(style.value), pos)];
        }
      }
      pos := pos + length;
      currentStyle := style;
      styles := styles + Repeat(length, style);
    }

    /** The end of a line: its terminator, of this length, has no style. */
    method EndLine(terminator: nat)
      requires Valid()
      modifies this
      ensures Valid() && currentStyle == None && styles == old(styles) + Repeat(terminator, None)
      ensures Highlights(tags) && Sorted(tags, 0) && Below(tags, |styles|) && forall p :: 0 <= p < |styles| ==> StyleAt(tags, p) == styles[p]
    {
      Close();
      pos := pos + terminator;
      styles := styles + Repeat(terminator, None);
      forall p | since <= p < pos ensures StyleAt(done, p) == None {
        NoStyleAfter(done, since, p);
      }
    }
  }

  // ---------- inserting ----------

  /** A text node, and the nodes it is in, from the outermost. */
  datatype Leaf = Leaf(text: string, path: seq<Node>)

  function TextOf(leaves: seq<Leaf>): string {
    if leaves == [] then "" else TextOf(leaves[..|leaves| - 1]) + leaves[|leaves| - 1].text
  }

  /** The nodes each character is in. */
  function Paths(leaves: seq<Leaf>): (r: seq<seq<Node>>)
    ensures |r| == |TextOf(leaves)|
  {
    if leaves == [] then []
    else Paths(leaves[..|leaves| - 1]) + Copies(|leaves[|leaves| - 1].text|, leaves[|leaves| - 1].path)
  }

  function Copies(n: nat, path: seq<Node>): (r: seq<seq<Node>>)
    ensures |r| == n && forall k :: 0 <= k < n ==> r[k] == path
  {
    if n == 0 then [] else [path] + Copies(n - 1, path)
  }

  /** No end tag without a start tag that is still open. */
  predicate Balanced(tags: seq<Tag>, open: nat) {
    tags == [] || (if tags[0].Start? then Balanced(tags[1..], open + 1) else open > 0 && Balanced(tags[1..], open - 1))
  }

  // ---------- which nodes are open ----------

  /** Start tags less end tags, among those after tag i and before tag j. */
  function Depth(tags: seq<Tag>, i: nat, j: nat): int
    requires i < j <= |tags|
  {
    if i + 1 == j then 0 else Depth(tags, i, j - 1) + if tags[j - 1].Start? then 1 else -1
  }

  /** Tag i starts a node, and none of the tags after it and before k is the end tag that matches it. */
  predicate Unmatched(tags: seq<Tag>, i: nat, k: nat)
    requires i < k <= |tags|
  {
    tags[i].Start? && forall j :: i < j <= k ==> Depth(tags, i, j) >= 0
  }

  /** The nodes open after the first k tags. */
  function OpenAfter(tags: seq<Tag>, k: nat): seq<Node>
    requires k <= |tags|
  {
    if k == 0 then [] else Apply(OpenAfter(tags, k - 1), tags[k - 1])
  }

  /** These are, in order, the start tags before k that no end tag before k matches; depth d from the top has d starts too many after it. */
  ghost predicate OpenTags(tags: seq<Tag>, k: nat, open: seq<nat>)
    requires k <= |tags|
  {
    && (forall n :: 0 <= n < |open| ==> open[n] < k && Depth(tags, open[n], k) == |open| - 1 - n)
    && (forall m, n :: 0 <= m < n < |open| ==> open[m] < open[n])
    && (forall i :: 0 <= i < k ==> (i in open <==> Unmatched(tags, i, k)))
  }

  lemma UnmatchedStep(tags: seq<Tag>, i: nat, k: nat)
    requires i < k < |tags|
    ensures Unmatched(tags, i, k + 1) <==> Unmatched(tags, i, k) && Depth(tags, i, k + 1) >= 0
  {
  }

  /** The nodes open after the first k tags are those of these start tags. */
  predicate NodesOf(tags: seq<Tag>, k: nat, open: seq<nat>)
    requires k <= |tags|
  {
    |OpenAfter(tags, k)| == |open|
    && forall n :: 0 <= n < |open| ==> open[n] < k && tags[open[n]].Start? && OpenAfter(tags, k)[n] == tags[open[n]].node
  }

  lemma NodesStep(tags: seq<Tag>, k: nat, before: seq<nat>)
    requires 0 < k <= |tags| && NodesOf(tags, k - 1, before)
    ensures tags[k - 1].Start? ==> NodesOf(tags, k, before + [k - 1])
    ensures tags[k - 1].End? ==> NodesOf(tags, k, if before == [] then [] else before[..|before| - 1])
  {
  }

  lemma UnmatchedSteps(tags: seq<Tag>, k: nat)
    requires 0 < k <= |tags|
    ensures forall i :: 0 <= i < k - 1 ==> (Unmatched(tags, i, k) <==> Unmatched(tags, i, k - 1) && Depth(tags, i, k) >= 0)
  {
    hide Depth, Unmatched;
    forall i | 0 <= i < k - 1 ensures Unmatched(tags, i, k) <==> Unmatched(tags, i, k - 1) && Depth(tags, i, k) >= 0 {
      UnmatchedStep(tags, i, k - 1);
    }
  }

  lemma NoneOpen(tags: seq<Tag>)
    ensures OpenAfter(tags, 0) == [] && NodesOf(tags, 0, []) && OpenTags(tags, 0, [])
  {
  }

  /** The open nodes are those of the start tags that are not matched yet, from the outermost. */
  lemma {:induction false} OpenNodes(tags: seq<Tag>, k: nat) returns (open: seq<nat>)
    requires k <= |tags|
    ensures OpenTags(tags, k, open) && NodesOf(tags, k, open)
  {
    hide Depth, Unmatched, OpenTags, NodesOf;
    if k == 0 {
      open := [];
      NoneOpen(tags);
    } else {
      var before := OpenNodes(tags, k - 1);
      UnmatchedSteps(tags, k);
      NodesStep(tags, k, before);
      if tags[k - 1].Start? {
        open := before + [k - 1];
        StartOpens(tags, k, before);
      } else {
        open := if before == [] then [] else before[..|before| - 1];
        EndCloses(tags, k, before);
      }
    }
  }

  lemma StartOpens(tags: seq<Tag>, k: nat, before: seq<nat>)
    requires 0 < k <= |tags| && tags[k - 1].Start? && OpenTags(tags, k - 1, before)
    requires forall i :: 0 <= i < k - 1 ==> (Unmatched(tags, i, k) <==> Unmatched(tags, i, k - 1) && Depth(tags, i, k) >= 0)
    ensures OpenTags(tags, k, before + [k - 1])
  {
    var open := before + [k - 1];
    forall i | 0 <= i < k - 1 ensures i in open <==> Unmatched(tags, i, k) {
      if Unmatched(tags, i, k - 1) {
        assert Depth(tags, i, k - 1) >= 0;
      }
    }
    assert Unmatched(tags, k - 1, k);
  }

  lemma EndCloses(tags: seq<Tag>, k: nat, before: seq<nat>)
    requires 0 < k <= |tags| && tags[k - 1].End? && OpenTags(tags, k - 1, before)
    requires forall i :: 0 <= i < k - 1 ==> (Unmatched(tags, i, k) <==> Unmatched(tags, i, k - 1) && Depth(tags, i, k) >= 0)
    ensures OpenTags(tags, k, if before == [] then [] else before[..|before| - 1])
  {
    var open := if before == [] then [] else before[..|before| - 1];
    forall i | 0 <= i < k - 1 ensures i in open <==> Unmatched(tags, i, k) {
      if i in before {
        var n :| 0 <= n < |before| && before[n] == i;
        assert Depth(tags, i, k) == |before| - 2 - n;
        if n < |before| - 1 {
          assert open[n] == i;
        }
      }
    }
  }

  /** The nodes of a position are those that the tags up to it leave open. */
  lemma {:induction false} PathIsOpen(tags: seq<Tag>, from: nat, p: nat) returns (k: nat)
    requires from <= |tags|
    ensures from <= k <= |tags| && (forall i :: from <= i < k ==> tags[i].pos <= p) && (k < |tags| ==> tags[k].pos > p)
    ensures PathAt(tags[from..], p, OpenAfter(tags, from)) == OpenAfter(tags, k)
    decreases |tags| - from
  {
    hide Apply;
    if from == |tags| || tags[from].pos > p {
      k := from;
    } else {
      assert tags[from..][1..] == tags[from + 1..];
      k := PathIsOpen(tags, from + 1, p);
    }
  }

  /**
   * The nodes a position is in, from the outermost: those whose start tag is at the position or before it and whose end tag, the one
   * that brings the nesting back below it, is not.
   */
  lemma PathByMatching(tags: seq<Tag>, p: nat) returns (k: nat, open: seq<nat>)
    ensures k <= |tags| && (forall i :: 0 <= i < k ==> tags[i].pos <= p) && (k < |tags| ==> tags[k].pos > p)
    ensures forall m, n :: 0 <= m < n < |open| ==> open[m] < open[n]
    ensures forall i :: 0 <= i < k ==> (i in open <==> Unmatched(tags, i, k))
    ensures |PathAt(tags, p, [])| == |open|
    ensures forall n :: 0 <= n < |open| ==> open[n] < k && tags[open[n]].Start? && PathAt(tags, p, [])[n] == tags[open[n]].node
  {
    hide PathAt, OpenAfter, Unmatched, Depth;
    k := PathIsOpen(tags, 0, p);
    open := OpenNodes(tags, k);
    assert tags[0..] == tags;
    NoneOpen(tags);
  }

  /** One node a round: the text between two tags, or a tag, which enters a node or leaves it for its parent. */
  method InsertTags(tags: seq<Tag>, text: string) returns (leaves: seq<Leaf>)
    requires Sorted(tags, 0) && Below(tags, |text|) && Balanced(tags, 0)
    ensures TextOf(leaves) == text && forall p :: 0 <= p < |text| ==> Paths(leaves)[p] == PathAt(tags, p, [])
  {
    hide TextOf, Paths, Copies;
    NoLeaves();
    leaves := [];
    var tagIndex, textPos := 0, 0;
    var current: seq<Node> := [];
    assert tags[0..] == tags;
    while textPos < |text| || tagIndex < |tags|
      invariant 0 <= tagIndex <= |tags| && 0 <= textPos <= |text|
      invariant || Sorted(tags[tagIndex..], textPos)
                || (tagIndex < |tags| && Sorted(tags[tagIndex + 1..], tags[tagIndex].pos) && tags[tagIndex].pos <= textPos)
      invariant Balanced(tags[tagIndex..], |current|)
      invariant TextOf(leaves) == text[..textPos]
      invariant forall p :: 0 <= p < textPos ==> Paths(leaves)[p] == PathAt(tags, p, [])
      invariant forall p :: textPos <= p < |text| ==> PathAt(tags, p, []) == PathAt(tags[tagIndex..], p, current)
      decreases |tags| - tagIndex, |text| - textPos
    {
      var tagPos := if tagIndex < |tags| then tags[tagIndex].pos else |text|;
      if tagPos <= textPos {
        var tag := tags[tagIndex];
        assert tags[tagIndex..][1..] == tags[tagIndex + 1..];
        current := Apply(current, tag);
        tagIndex := tagIndex + 1;
      } else {
        var leaf := Leaf(text[textPos..tagPos], current);
        Extended(leaves, leaf);
        leaves := leaves + [leaf];
        assert text[..tagPos] == text[..textPos] + text[textPos..tagPos];
        textPos := tagPos;
      }
    }
    assert text[..|text|] == text;
  }

  lemma NoLeaves()
    ensures TextOf([]) == "" && Paths([]) == []
  {
  }

  lemma Extended(leaves: seq<Leaf>, leaf: Leaf)
    ensures TextOf(leaves + [leaf]) == TextOf(leaves) + leaf.text
    ensures Paths(leaves + [leaf]) == Paths(leaves) + Copies(|leaf.text|, leaf.path)
  {
    var more := leaves + [leaf];
    assert more[..|more| - 1] == leaves;
  }

  /** Merged with highlights, balanced tags are balanced. */
  lemma {:induction false} MergeBalanced(o: seq<Tag>, h: seq<Tag>, open: nat)
    requires Highlights(h) && Balanced(o, open)
    ensures Balanced(Merge(o, h), open)
    decreases |o|, |h|, if o != [] && h != [] && h[0].pos < o[0].pos then 1 else 0
  {
    if o == [] {
      HighlightsBalanced(h, open);
    } else if h != [] && o[0].pos <= h[0].pos {
      MergeBalanced(o[1..], h, if o[0].Start? then open + 1 else open - 1);
      assert Merge(o, h)[1..] == Merge(o[1..], h);
    } else if h != [] {
      MergeSplits(o, h);
      var rest := if h[1].pos <= o[0].pos then h[2..] else Rest(h, o[0].pos);
      MergeBalanced(o, rest, open);
      assert Merge(o, h)[1..][1..] == Merge(o, rest);
    }
  }

  lemma {:induction false} HighlightsBalanced(h: seq<Tag>, open: nat)
    requires Highlights(h)
    ensures Balanced(h, open)
    decreases |h|
  {
    if h != [] {
      HighlightsBalanced(h[2..], open);
      assert h[1..][1..] == h[2..];
    }
  }

  lemma {:induction false} MergeBelow(o: seq<Tag>, h: seq<Tag>, pos: nat)
    requires Highlights(h) && Below(o, pos) && Below(h, pos)
    ensures Below(Merge(o, h), pos)
    decreases |o|, |h|, if o != [] && h != [] && h[0].pos < o[0].pos then 1 else 0
  {
    if o != [] && h != [] {
      if o[0].pos <= h[0].pos {
        MergeBelow(o[1..], h, pos);
      } else {
        MergeSplits(o, h);
        MergeBelow(o, if h[1].pos <= o[0].pos then h[2..] else Rest(h, o[0].pos), pos);
      }
    }
  }

  /**
   * Highlighting an element: every character keeps the nodes it was in, and is in one more, innermost, just when it has a style,
   * made for that style.
   */
  method Highlight(text: string, originalTags: seq<Tag>, highlightTags: seq<Tag>) returns (leaves: seq<Leaf>)
    requires Highlights(highlightTags) && Sorted(highlightTags, 0) && Below(highlightTags, |text|)
    requires Originals(originalTags) && Sorted(originalTags, 0) && Below(originalTags, |text|) && Balanced(originalTags, 0)
    ensures TextOf(leaves) == text
    ensures forall p :: 0 <= p < |text| ==>
              Paths(leaves)[p] == PathAt(originalTags, p, []) + Styled(StyleAt(highlightTags, p))
  {
    var tags := MergeTags(originalTags, highlightTags);
    MergeSorted(originalTags, highlightTags, 0);
    MergeBelow(originalTags, highlightTags, |text|);
    MergeBalanced(originalTags, highlightTags, 0);
    leaves := InsertTags(tags, text);
    forall p | 0 <= p < |text|
      ensures PathAt(tags, p, []) == PathAt(originalTags, p, []) + Styled(StyleAt(highlightTags, p))
    {
      MergePath(originalTags, highlightTags, 0, p, []);
    }
  }
}

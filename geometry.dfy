/** Geometry shared by every layout manager of the series: attached children,
    the per-item measurements the adapter supplies, and the pure functions that
    describe stacking, translating and recycling children along the vertical axis. */
module Geometry {

  /** An attached child view: the adapter position it shows and its decorated
      bounds `[left, right) x [top, bottom)`. */
  datatype Child = Child(pos: int, left: int, top: int, right: int, bottom: int)

  /** What the adapter and the measuring pass report: the decorated measured
      height and width of every item. The item count is the number of items. */
  datatype Items = Items(heights: seq<int>, widths: seq<int>) {
    predicate Valid() { |heights| == |widths| }
    function Count(): nat { |heights| }
  }

  function Last(cs: seq<Child>): Child
    requires cs != []
  {
    cs[|cs| - 1]
  }

  /** `kotlin.math.abs` on mathematical integers. */
  function Abs(x: int): int { if x < 0 then -x else x }

  function Sum(s: seq<int>): int
  {
    if s == [] then 0 else Sum(s[..|s| - 1]) + s[|s| - 1]
  }

  /** Positions go up by exactly one from each child to the next. */
  predicate Contiguous(cs: seq<Child>)
  {
    forall i :: 0 <= i < |cs| ==> cs[i].pos == cs[0].pos + i
  }

  /** Each child starts exactly where the previous one ends. */
  predicate Adjacent(cs: seq<Child>)
  {
    forall i :: 0 <= i < |cs| - 1 ==> cs[i + 1].top == cs[i].bottom
  }

  /** A child lies entirely above the viewport. */
  predicate AboveViewport(c: Child) { c.bottom <= 0 }

  /** A child lies entirely below a viewport of height `totalSpace`. */
  predicate BelowViewport(c: Child, totalSpace: int) { c.top >= totalSpace }

  // ---------------------------------------------------------------------------
  // Stacking

  /** The children a forward fill loop attaches: starting at position `pos` and
      offset `top`, one child per item while space remains and positions exist,
      each starting at the previous child's bottom. */
  function Stack(items: Items, pos: int, top: int, left: int, space: int): seq<Child>
    requires items.Valid()
    decreases items.Count() - pos
  {
    if space > 0 && 0 <= pos < items.Count() then
      var h := items.heights[pos];
      [Child(pos, left, top, left + items.widths[pos], top + h)]
        + Stack(items, pos + 1, top + h, left, space - h)
    else []
  }

  /** The children a backward fill loop attaches, in ascending position order:
      position `pos` is placed at `top`, and the next (lower) position is placed at
      `top` minus the height of the child just placed. */
  function StackBack(items: Items, pos: int, top: int, left: int, space: int): seq<Child>
    requires items.Valid()
    decreases pos
  {
    if space > 0 && 0 <= pos < items.Count() then
      var h := items.heights[pos];
      StackBack(items, pos - 1, top - h, left, space - h)
        + [Child(pos, left, top, left + items.widths[pos], top + h)]
    else []
  }

  /** Every item laid out from the top: child `i` starts at the sum of the
      heights of the items before it. */
  function Tiled(items: Items): seq<Child>
    requires items.Valid()
  {
    seq(items.Count(), i requires 0 <= i < items.Count() =>
      Child(i, 0, Sum(items.heights[..i]), items.widths[i], Sum(items.heights[..i]) + items.heights[i]))
  }

  lemma SumStep(s: seq<int>, i: int)
    requires 0 <= i < |s|
    ensures Sum(s[..i + 1]) == Sum(s[..i]) + s[i]
  {
    assert s[..i + 1][..i] == s[..i];
  }

  /** A forward run: consecutive positions from `pos`, each child as wide and tall
      as its item, at the anchor's left, adjacent, the first at `top`. */
  lemma {:induction false} StackShape(items: Items, pos: int, top: int, left: int, space: int)
    requires items.Valid()
    ensures var r := Stack(items, pos, top, left, space);
      && (forall i :: 0 <= i < |r| ==> r[i].pos == pos + i && 0 <= pos + i < items.Count())
      && (forall i :: 0 <= i < |r| ==>
            r[i].left == left && r[i].right == left + items.widths[pos + i]
            && r[i].bottom == r[i].top + items.heights[pos + i])
      && (r != [] ==> r[0].top == top)
      && Adjacent(r)
    decreases items.Count() - pos
  {
    if space > 0 && 0 <= pos < items.Count() {
      var h := items.heights[pos];
      StackShape(items, pos + 1, top + h, left, space - h);
    }
  }

  /** A forward run places a child only while space is left, and stops only when
      the space is used up or the items have run out. */
  lemma {:induction false} StackExtent(items: Items, pos: int, top: int, left: int, space: int)
    requires items.Valid()
    ensures var r := Stack(items, pos, top, left, space);
      && (forall i :: 0 <= i < |r| ==> r[i].top - top < space)
      && (0 <= pos ==>
            || pos + |r| >= items.Count()
            || (r == [] && space <= 0)
            || (r != [] && Last(r).bottom - top >= space))
    decreases items.Count() - pos
  {
    if space > 0 && 0 <= pos < items.Count() {
      var h := items.heights[pos];
      StackExtent(items, pos + 1, top + h, left, space - h);
      var rest := Stack(items, pos + 1, top + h, left, space - h);
      var r := Stack(items, pos, top, left, space);
      assert r == [Child(pos, left, top, left + items.widths[pos], top + h)] + rest;
      assert Last(r) == if rest == [] then r[0] else Last(rest);
    }
  }

  /** A backward run: consecutive positions ending at `pos`, the highest one at
      `top`. Child i+1's top is child i's top plus child i+1's height, so child i
      sits above its neighbour by the neighbour's height, not by its own. */
  lemma {:induction false} StackBackShape(items: Items, pos: int, top: int, left: int, space: int)
    requires items.Valid()
    ensures var r := StackBack(items, pos, top, left, space);
      && (forall i :: 0 <= i < |r| ==> r[i].pos == pos - |r| + 1 + i && 0 <= r[i].pos < items.Count())
      && (forall i :: 0 <= i < |r| ==>
            r[i].left == left && r[i].right == left + items.widths[r[i].pos]
            && r[i].bottom == r[i].top + items.heights[r[i].pos])
      && (r != [] ==> Last(r).top == top)
      && (forall i :: 0 <= i < |r| - 1 ==> r[i + 1].top == r[i].top + items.heights[r[i + 1].pos])
    decreases pos
  {
    if space > 0 && 0 <= pos < items.Count() {
      var h := items.heights[pos];
      StackBackShape(items, pos - 1, top - h, left, space - h);
    }
  }

  /** A backward run places a child only while space is left, and stops only when
      the space is used up or position 0 has been placed. */
  lemma {:induction false} StackBackExtent(items: Items, pos: int, top: int, left: int, space: int)
    requires items.Valid()
    ensures var r := StackBack(items, pos, top, left, space);
      && (forall i :: 0 <= i < |r| ==> top - r[i].top < space)
      && (r == [] && 0 <= pos < items.Count() ==> space <= 0)
      && (r != [] ==> r[0].pos == 0 || space <= (top - r[0].top) + (r[0].bottom - r[0].top))
    decreases pos
  {
    if space > 0 && 0 <= pos < items.Count() {
      var h := items.heights[pos];
      StackBackShape(items, pos, top, left, space);
      StackBackShape(items, pos - 1, top - h, left, space - h);
      StackBackExtent(items, pos - 1, top - h, left, space - h);
    }
  }

  /** Two neighbours of a backward run touch exactly when their items are equally
      tall: otherwise they overlap or leave a gap. */
  lemma StackBackAdjacentIff(items: Items, pos: int, top: int, left: int, space: int, i: int)
    requires items.Valid()
    requires 0 <= i < |StackBack(items, pos, top, left, space)| - 1
    ensures var r := StackBack(items, pos, top, left, space);
      r[i].bottom == r[i + 1].top <==> r[i].bottom - r[i].top == r[i + 1].bottom - r[i + 1].top
  {
    StackBackShape(items, pos, top, left, space);
  }

  /** A bounded forward run from position 0 at offset 0 is a prefix of laying out
      every item. */
  lemma StackIsPrefixOfTiled(items: Items, space: int)
    requires items.Valid()
    ensures var r := Stack(items, 0, 0, 0, space);
      |r| <= items.Count() && r == Tiled(items)[..|r|]
  {
    assert items.heights[..0] == [];
    StackFromTiled(items, 0, space);
  }

  lemma {:induction false} StackFromTiled(items: Items, pos: nat, space: int)
    requires items.Valid()
    requires pos <= items.Count()
    ensures var r := Stack(items, pos, Sum(items.heights[..pos]), 0, space);
      pos + |r| <= items.Count() && r == Tiled(items)[pos..pos + |r|]
    decreases items.Count() - pos
  {
    var top := Sum(items.heights[..pos]);
    if space > 0 && pos < items.Count() {
      var h := items.heights[pos];
      SumStep(items.heights, pos);
      StackFromTiled(items, pos + 1, space - h);
      var rest := Stack(items, pos + 1, top + h, 0, space - h);
      var t := Tiled(items);
      assert Tiled(items)[pos..pos + 1 + |rest|] == [t[pos]] + t[pos + 1..pos + 1 + |rest|];
    }
  }

  /** Laying out every item: consecutive positions from 0, adjacent, from offset 0,
      and the last child ends at the sum of all heights. */
  lemma TiledShape(items: Items)
    requires items.Valid()
    ensures var r := Tiled(items);
      && |r| == items.Count()
      && Contiguous(r) && (r != [] ==> r[0].pos == 0 && r[0].top == 0)
      && Adjacent(r)
      && (r != [] ==> Last(r).bottom == Sum(items.heights))
  {
    var r := Tiled(items);
    assert items.heights[..0] == [];
    forall i | 0 <= i < |r| - 1
      ensures r[i + 1].top == r[i].bottom
    {
      SumStep(items.heights, i);
    }
    if r != [] {
      assert items.heights[..|r|] == items.heights;
      SumStep(items.heights, |r| - 1);
    }
  }

  // ---------------------------------------------------------------------------
  // Translation (offsetChildrenVertical / offsetChildrenHorizontal)

  /** Every child moved down by `d` (up when `d` is negative). */
  function OffsetVertical(cs: seq<Child>, d: int): seq<Child>
  {
    seq(|cs|, i requires 0 <= i < |cs| => cs[i].(top := cs[i].top + d, bottom := cs[i].bottom + d))
  }

  /** Every child moved right by `d` (left when `d` is negative). */
  function OffsetHorizontal(cs: seq<Child>, d: int): seq<Child>
  {
    seq(|cs|, i requires 0 <= i < |cs| => cs[i].(left := cs[i].left + d, right := cs[i].right + d))
  }

  /** A vertical offset is a translation: it keeps positions, the horizontal
      bounds and every child's height, and so contiguity and adjacency. */
  lemma OffsetVerticalShape(cs: seq<Child>, d: int)
    ensures var r := OffsetVertical(cs, d);
      && |r| == |cs|
      && (forall i :: 0 <= i < |r| ==>
            r[i].pos == cs[i].pos && r[i].left == cs[i].left && r[i].right == cs[i].right
            && r[i].top == cs[i].top + d && r[i].bottom - r[i].top == cs[i].bottom - cs[i].top)
      && (Contiguous(r) <==> Contiguous(cs))
      && (Adjacent(r) <==> Adjacent(cs))
  {
  }

  /** A horizontal offset keeps positions and the vertical bounds. */
  lemma OffsetHorizontalShape(cs: seq<Child>, d: int)
    ensures var r := OffsetHorizontal(cs, d);
      && |r| == |cs|
      && (forall i :: 0 <= i < |r| ==>
            r[i].pos == cs[i].pos && r[i].top == cs[i].top && r[i].bottom == cs[i].bottom
            && r[i].left == cs[i].left + d && r[i].right - r[i].left == cs[i].right - cs[i].left)
      && (Contiguous(r) <==> Contiguous(cs))
      && (Adjacent(r) <==> Adjacent(cs))
  {
  }

  /** Scrolling by `d` and then by `-d` restores every child. */
  lemma OffsetRoundTrip(cs: seq<Child>, d: int)
    ensures OffsetVertical(OffsetVertical(cs, -d), d) == cs
    ensures OffsetHorizontal(OffsetHorizontal(cs, -d), d) == cs
  {
    assert forall i :: 0 <= i < |cs| ==> OffsetVertical(OffsetVertical(cs, -d), d)[i] == cs[i];
    assert forall i :: 0 <= i < |cs| ==> OffsetHorizontal(OffsetHorizontal(cs, -d), d)[i] == cs[i];
  }

  // ---------------------------------------------------------------------------
  // Recycling

  /** The length of the longest prefix of children lying above the viewport. */
  function InvisibleAbove(cs: seq<Child>): (k: nat)
    ensures k <= |cs|
  {
    if cs != [] && AboveViewport(cs[0]) then 1 + InvisibleAbove(cs[1..]) else 0
  }

  /** The length of the longest suffix of children lying below the viewport. */
  function InvisibleBelow(cs: seq<Child>, totalSpace: int): (k: nat)
    ensures k <= |cs|
  {
    if cs != [] && BelowViewport(Last(cs), totalSpace) then 1 + InvisibleBelow(cs[..|cs| - 1], totalSpace) else 0
  }

  /** The children kept by recycleInvisibleView: scrolling down (`dy > 0`) drops the
      invisible prefix, scrolling up (`dy < 0`) drops the invisible suffix. */
  function Recycled(cs: seq<Child>, dy: int, totalSpace: int): seq<Child>
  {
    if dy > 0 then cs[InvisibleAbove(cs)..]
    else if dy < 0 then cs[..|cs| - InvisibleBelow(cs, totalSpace)]
    else cs
  }

  lemma {:induction false} InvisibleAboveSpec(cs: seq<Child>)
    ensures forall i :: 0 <= i < InvisibleAbove(cs) ==> AboveViewport(cs[i])
    ensures InvisibleAbove(cs) < |cs| ==> !AboveViewport(cs[InvisibleAbove(cs)])
  {
    if cs != [] && AboveViewport(cs[0]) {
      InvisibleAboveSpec(cs[1..]);
    }
  }

  /** The invisible prefix is the only prefix made of invisible children and
      followed by a visible one (or by nothing). */
  lemma InvisibleAboveUnique(cs: seq<Child>, k: nat)
    requires k <= |cs|
    requires forall i :: 0 <= i < k ==> AboveViewport(cs[i])
    requires k < |cs| ==> !AboveViewport(cs[k])
    ensures k == InvisibleAbove(cs)
  {
    InvisibleAboveSpec(cs);
  }

  lemma {:induction false} InvisibleBelowSpec(cs: seq<Child>, totalSpace: int)
    ensures forall i :: |cs| - InvisibleBelow(cs, totalSpace) <= i < |cs| ==> BelowViewport(cs[i], totalSpace)
    ensures InvisibleBelow(cs, totalSpace) < |cs| ==>
      !BelowViewport(cs[|cs| - 1 - InvisibleBelow(cs, totalSpace)], totalSpace)
  {
    if cs != [] && BelowViewport(Last(cs), totalSpace) {
      var init := cs[..|cs| - 1];
      InvisibleBelowSpec(init, totalSpace);
      assert forall i :: 0 <= i < |init| ==> init[i] == cs[i];
    }
  }

  /** The invisible suffix is the only suffix made of invisible children and
      preceded by a visible one (or by nothing). */
  lemma InvisibleBelowUnique(cs: seq<Child>, totalSpace: int, k: nat)
    requires k <= |cs|
    requires forall i :: |cs| - k <= i < |cs| ==> BelowViewport(cs[i], totalSpace)
    requires k < |cs| ==> !BelowViewport(cs[|cs| - 1 - k], totalSpace)
    ensures k == InvisibleBelow(cs, totalSpace)
  {
    InvisibleBelowSpec(cs, totalSpace);
  }

  /** Recycling removes exactly the maximal invisible prefix (`dy > 0`) or suffix
      (`dy < 0`), possibly every child, and nothing when `dy == 0`; the survivors
      keep their order and bounds. */
  lemma RecycledSpec(cs: seq<Child>, dy: int, totalSpace: int)
    ensures var r := Recycled(cs, dy, totalSpace);
      && |r| <= |cs|
      && (dy > 0 ==>
            && r == cs[|cs| - |r|..]
            && (forall i :: 0 <= i < |cs| - |r| ==> AboveViewport(cs[i]))
            && (r != [] ==> !AboveViewport(r[0])))
      && (dy < 0 ==>
            && r == cs[..|r|]
            && (forall i :: |r| <= i < |cs| ==> BelowViewport(cs[i], totalSpace))
            && (r != [] ==> !BelowViewport(Last(r), totalSpace)))
      && (dy == 0 ==> r == cs)
  {
    InvisibleAboveSpec(cs);
    InvisibleBelowSpec(cs, totalSpace);
  }

  /** The survivors of recycling are a contiguous, adjacent run when the children were. */
  lemma RecycledKeepsShape(cs: seq<Child>, dy: int, totalSpace: int)
    ensures Contiguous(cs) ==> Contiguous(Recycled(cs, dy, totalSpace))
    ensures Adjacent(cs) ==> Adjacent(Recycled(cs, dy, totalSpace))
  {
    var r := Recycled(cs, dy, totalSpace);
    if dy > 0 {
      var k := InvisibleAbove(cs);
      assert forall i :: 0 <= i < |r| ==> r[i] == cs[k + i];
    }
  }

  /** Moving the children by `d` and then recycling keeps a run of them, each
      moved by exactly `d`: a suffix when `dy > 0`, a prefix otherwise. */
  lemma ShiftThenRecycle(cs: seq<Child>, d: int, dy: int, totalSpace: int)
    ensures var r := Recycled(OffsetVertical(cs, d), dy, totalSpace);
      var k := if dy > 0 then |cs| - |r| else 0;
      && |r| <= |cs|
      && (forall i :: 0 <= i < |r| ==>
            r[i] == cs[k + i].(top := cs[k + i].top + d, bottom := cs[k + i].bottom + d))
      && (Contiguous(cs) ==> Contiguous(r))
  {
    var shifted := OffsetVertical(cs, d);
    var r := Recycled(shifted, dy, totalSpace);
    var k := if dy > 0 then |cs| - |r| else 0;
    assert r == shifted[k..k + |r|] by {
      if dy > 0 {
        assert k == InvisibleAbove(shifted);
      }
    }
    forall i | 0 <= i < |r|
      ensures r[i] == cs[k + i].(top := cs[k + i].top + d, bottom := cs[k + i].bottom + d)
    {
      assert r[i] == shifted[k + i];
    }
    if Contiguous(cs) {
      assert Contiguous(shifted);
      RecycledKeepsShape(shifted, dy, totalSpace);
    }
  }

  // ---------------------------------------------------------------------------
  // Fill runs joined to the existing children

  /** Appending a forward run that starts after the last child keeps the children
      contiguous, and adjacent when the run starts at the last child's bottom. */
  lemma AppendKeepsShape(cs: seq<Child>, items: Items, top: int, left: int, space: int)
    requires items.Valid()
    requires cs != []
    ensures var r := cs + Stack(items, Last(cs).pos + 1, top, left, space);
      && r[..|cs|] == cs
      && (Contiguous(cs) ==> Contiguous(r))
      && (Adjacent(cs) && top == Last(cs).bottom ==> Adjacent(r))
  {
    StackShape(items, Last(cs).pos + 1, top, left, space);
    var run := Stack(items, Last(cs).pos + 1, top, left, space);
    var r := cs + run;
    if Contiguous(cs) {
      forall i | 0 <= i < |r| ensures r[i].pos == r[0].pos + i {
        if i >= |cs| { assert r[i] == run[i - |cs|]; }
      }
    }
  }

  /** The children a forward fill from the last child's bottom appends, read in
      the joined list: the positions after the last one, each with its item's
      size, at the anchor's left and at the previous bottom, each starting inside
      a viewport of height `totalSpace`. */
  lemma AppendedRun(cs: seq<Child>, items: Items, totalSpace: int)
    requires items.Valid()
    requires cs != [] && 0 <= Last(cs).pos
    ensures var r := cs + Stack(items, Last(cs).pos + 1, Last(cs).bottom, Last(cs).left, totalSpace - Last(cs).bottom);
      forall i :: |cs| <= i < |r| ==>
        && r[i].pos == Last(cs).pos + 1 + (i - |cs|) && 0 <= r[i].pos < items.Count()
        && r[i].left == Last(cs).left
        && r[i].right == r[i].left + items.widths[r[i].pos]
        && r[i].top == r[i - 1].bottom
        && r[i].bottom == r[i].top + items.heights[r[i].pos]
        && r[i].top < totalSpace
  {
    var a := Last(cs);
    var space := totalSpace - a.bottom;
    var run := Stack(items, a.pos + 1, a.bottom, a.left, space);
    StackShape(items, a.pos + 1, a.bottom, a.left, space);
    StackExtent(items, a.pos + 1, a.bottom, a.left, space);
    var r := cs + run;
    forall i | |cs| <= i < |r|
      ensures r[i].pos == a.pos + 1 + (i - |cs|) && 0 <= r[i].pos < items.Count()
      ensures r[i].left == a.left && r[i].right == r[i].left + items.widths[r[i].pos]
      ensures r[i].top == r[i - 1].bottom
      ensures r[i].bottom == r[i].top + items.heights[r[i].pos]
      ensures r[i].top < totalSpace
    {
      assert r[i] == run[i - |cs|];
      if i > |cs| { assert r[i - 1] == run[i - 1 - |cs|]; } else { assert r[i - 1] == a; }
    }
  }

  /** What a fill below the last child of `cs` yields, for a viewport
      of height `totalSpace`: the old children stay in front; each new child takes
      the next position, has its item's size, sits at the anchor's left and at the
      previous bottom, and starts inside the viewport; something is appended
      whenever there is a gap and a next item; the fill stops only once the
      viewport's bottom or the last item is reached; contiguity and adjacency are
      kept. */
  predicate ForwardFilled(cs: seq<Child>, items: Items, totalSpace: int, r: seq<Child>)
    requires items.Valid()
    requires cs != []
  {
    && |r| >= |cs| && r[..|cs|] == cs
    && (forall i :: |cs| <= i < |r| ==>
          && r[i].pos == Last(cs).pos + 1 + (i - |cs|) && 0 <= r[i].pos < items.Count()
          && r[i].left == Last(cs).left
          && r[i].right == r[i].left + items.widths[r[i].pos]
          && r[i].top == r[i - 1].bottom
          && r[i].bottom == r[i].top + items.heights[r[i].pos]
          && r[i].top < totalSpace)
    && (Last(cs).bottom < totalSpace && Last(cs).pos + 1 < items.Count() ==> |r| > |cs|)
    && (Last(r).pos >= items.Count() - 1 || Last(r).bottom >= totalSpace)
    && (Contiguous(cs) ==> Contiguous(r))
    && (Adjacent(cs) ==> Adjacent(r))
  }

  /** Filling below the last child, into the gap between its bottom and the
      viewport's bottom, yields what `ForwardFilled` describes. */
  lemma ForwardFill(cs: seq<Child>, items: Items, totalSpace: int, r: seq<Child>)
    requires items.Valid()
    requires cs != [] && 0 <= Last(cs).pos
    requires r == cs + Stack(items, Last(cs).pos + 1, Last(cs).bottom, Last(cs).left, totalSpace - Last(cs).bottom)
    ensures ForwardFilled(cs, items, totalSpace, r)
  {
    var a := Last(cs);
    var space := totalSpace - a.bottom;
    var run := Stack(items, a.pos + 1, a.bottom, a.left, space);
    assert r[..|cs|] == cs && (Contiguous(cs) ==> Contiguous(r)) && (Adjacent(cs) ==> Adjacent(r)) by {
      AppendKeepsShape(cs, items, a.bottom, a.left, space);
    }
    assert a.bottom < totalSpace && a.pos + 1 < items.Count() ==> |r| > |cs| by {
      assert r == cs + run;
    }
    assert Last(r).pos >= items.Count() - 1 || Last(r).bottom >= totalSpace by {
      StackExtent(items, a.pos + 1, a.bottom, a.left, space);
      StackShape(items, a.pos + 1, a.bottom, a.left, space);
      if run == [] {
        assert Last(r) == a;
      } else {
        assert Last(r) == r[|r| - 1] == Last(run);
      }
    }
    AppendedRun(cs, items, totalSpace);
  }


  /** The children a backward run inserts before the first child, read in the
      joined list: consecutive positions ending just before the first child's,
      each with its item's size, at `left`, the last one at `top`, each sitting
      above the next by the next one's height, all placed while space remained. */
  lemma PrependedRun(cs: seq<Child>, items: Items, top: int, left: int, space: int)
    requires items.Valid()
    requires cs != []
    ensures var run := StackBack(items, cs[0].pos - 1, top, left, space);
      var r := run + cs;
      forall i :: 0 <= i < |run| ==>
        && r[i].pos == cs[0].pos - |run| + i && 0 <= r[i].pos < items.Count()
        && r[i].left == left && r[i].right == r[i].left + items.widths[r[i].pos]
        && r[i].bottom == r[i].top + items.heights[r[i].pos]
        && top - r[i].top < space
        && (i + 1 < |run| ==> r[i + 1].top == r[i].top + (r[i + 1].bottom - r[i + 1].top))
        && (i + 1 == |run| ==> r[i].top == top)
  {
    var run := StackBack(items, cs[0].pos - 1, top, left, space);
    StackBackShape(items, cs[0].pos - 1, top, left, space);
    StackBackExtent(items, cs[0].pos - 1, top, left, space);
    var r := run + cs;
    forall i | 0 <= i < |run|
      ensures r[i].pos == cs[0].pos - |run| + i && 0 <= r[i].pos < items.Count()
      ensures r[i].left == left && r[i].right == r[i].left + items.widths[r[i].pos]
      ensures r[i].bottom == r[i].top + items.heights[r[i].pos]
      ensures top - r[i].top < space
      ensures i + 1 < |run| ==> r[i + 1].top == r[i].top + (r[i + 1].bottom - r[i + 1].top)
      ensures i + 1 == |run| ==> r[i].top == top
    {
      assert r[i] == run[i];
      if i + 1 < |run| { assert r[i + 1] == run[i + 1]; }
    }
  }

  /** What a fill above the first child of `cs` yields: the old children stay at
      the end; something is inserted whenever there is a gap and a preceding item;
      each new child takes the preceding position, has its item's size and sits at
      the anchor's left; the one next to the anchor starts at the anchor's top
      minus the ANCHOR's height, and each further one sits above the next by the
      next one's height, not its own; every new child is placed while space
      remains, and the fill stops only at item 0 or once the gap is used up;
      contiguity is kept, and the new neighbour touches the anchor exactly when
      both are equally tall. */
  predicate BackwardFilled(cs: seq<Child>, items: Items, r: seq<Child>)
    requires items.Valid()
    requires cs != []
  {
    var n := |r| - |cs|;
    var top0 := cs[0].top - (cs[0].bottom - cs[0].top);
    && n >= 0 && r[n..] == cs
    && (cs[0].top > 0 && 1 <= cs[0].pos <= items.Count() ==> n > 0)
    && (forall i :: 0 <= i < n ==>
          && r[i].pos == cs[0].pos - n + i && 0 <= r[i].pos < items.Count()
          && r[i].left == cs[0].left
          && r[i].right == r[i].left + items.widths[r[i].pos]
          && r[i].bottom == r[i].top + items.heights[r[i].pos]
          && top0 - r[i].top < cs[0].top)
    && (n > 0 ==> r[n - 1].top == top0)
    && (forall i :: 0 <= i < n - 1 ==> r[i + 1].top == r[i].top + (r[i + 1].bottom - r[i + 1].top))
    && (n > 0 ==> r[0].pos == 0 || cs[0].top <= (top0 - r[0].top) + (r[0].bottom - r[0].top))
    && (Contiguous(cs) ==> Contiguous(r))
    && (n > 0 ==> (r[n - 1].bottom == cs[0].top <==> r[n - 1].bottom - r[n - 1].top == cs[0].bottom - cs[0].top))
  }

  /** Filling above the first child, into the gap between the viewport's top and
      its top, yields what `BackwardFilled` describes. */
  lemma BackwardFill(cs: seq<Child>, items: Items, r: seq<Child>)
    requires items.Valid()
    requires cs != []
    requires r == StackBack(items, cs[0].pos - 1, cs[0].top - (cs[0].bottom - cs[0].top), cs[0].left, cs[0].top) + cs
    ensures BackwardFilled(cs, items, r)
  {
    var a := cs[0];
    var top := a.top - (a.bottom - a.top);
    var run := StackBack(items, a.pos - 1, top, a.left, a.top);
    var n := |r| - |cs|;
    assert n == |run|;
    assert n >= 0 && r[n..] == cs && (Contiguous(cs) ==> Contiguous(r)) by {
      PrependKeepsContiguous(cs, items, top, a.left, a.top);
    }
    assert a.top > 0 && 1 <= a.pos <= items.Count() ==> n > 0 by {
      StackBackExtent(items, a.pos - 1, top, a.left, a.top);
    }
    assert n > 0 ==> r[0].pos == 0 || a.top <= (top - r[0].top) + (r[0].bottom - r[0].top) by {
      StackBackExtent(items, a.pos - 1, top, a.left, a.top);
      if n > 0 { assert r[0] == run[0]; }
    }
    PrependedRun(cs, items, top, a.left, a.top);
  }

  /** Prepending a backward run that ends just before the first child keeps the
      children contiguous. */
  lemma PrependKeepsContiguous(cs: seq<Child>, items: Items, top: int, left: int, space: int)
    requires items.Valid()
    requires cs != []
    ensures var r := StackBack(items, cs[0].pos - 1, top, left, space) + cs;
      && r[|r| - |cs|..] == cs
      && (Contiguous(cs) ==> Contiguous(r))
  {
    StackBackShape(items, cs[0].pos - 1, top, left, space);
    var run := StackBack(items, cs[0].pos - 1, top, left, space);
    var r := run + cs;
    assert r[|run|..] == cs;
    if Contiguous(cs) {
      forall i | 0 <= i < |r| ensures r[i].pos == r[0].pos + i {
        if i >= |run| { assert r[i] == cs[i - |run|]; }
      }
    }
  }
}

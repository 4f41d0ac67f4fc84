/** LinearLayoutManager6: bidirectional fill with clamping at the first and last
    item, and support for scrollToPosition through a pending start position that
    the next layout pass starts from. */
module Linear6 {
  import opened Geometry
  import Sweep

  /** RecyclerView.NO_POSITION */
  const NO_POSITION: int := -1

  /** What fillView leaves behind: the children and the delta the scroll applies. */
  datatype Fill = Fill(children: seq<Child>, adjustedDy: int)

  /** The position a layout pass starts from. */
  function StartPosition(pendingScrollPosition: int): int
  {
    if pendingScrollPosition != NO_POSITION then pendingScrollPosition else 0
  }

  /** The outcome of fillView. As in MyLinearLayoutManager, the gap is measured
      before the scroll moves anything; in addition, scrolling down while the last
      child is the last item and ends inside the viewport returns the delta that
      puts its bottom on the viewport's bottom, and scrolling up while the first
      child is item 0 and starts inside the viewport returns the delta that puts
      its top on the viewport's top. */
  function FillOutcome(cs: seq<Child>, items: Items, dy: int, totalSpace: int): Fill
    requires items.Valid()
  {
    if dy > 0 then
      if cs == [] then Fill(cs, dy)
      else
        var anchor := Last(cs);
        var remainSpace := totalSpace - anchor.bottom;
        if remainSpace < 0 then Fill(cs, dy)
        else if anchor.pos + 1 >= items.Count() && anchor.bottom - Abs(dy) < totalSpace then
          Fill(cs, anchor.bottom - totalSpace)
        else Fill(cs + Stack(items, anchor.pos + 1, anchor.bottom, anchor.left, remainSpace), dy)
    else if dy < 0 then
      if cs == [] then Fill(cs, dy)
      else
        var anchor := cs[0];
        var remainSpace := anchor.top;
        if remainSpace < 0 then Fill(cs, dy)
        else if anchor.pos - 1 < 0 && anchor.top + Abs(dy) > 0 then Fill(cs, anchor.top)
        else Fill(StackBack(items, anchor.pos - 1, anchor.top - (anchor.bottom - anchor.top), anchor.left, remainSpace) + cs, dy)
    else Fill(cs, dy)
  }

  /** The outcome of scrollVerticallyBy: fill, move every child by the negated
      adjusted delta, recycle with the adjusted delta, return the adjusted delta. */
  function ScrollOutcome(cs: seq<Child>, items: Items, dy: int, totalSpace: int): Fill
    requires items.Valid()
  {
    var f := FillOutcome(cs, items, dy, totalSpace);
    Fill(Recycled(OffsetVertical(f.children, -f.adjustedDy), f.adjustedDy, totalSpace), f.adjustedDy)
  }

  class LinearLayoutManager6 {
    /** The attached children, in ascending position order. */
    var children: seq<Child>
    /** mPendingScrollPosition */
    var pendingScrollPosition: int

    ghost predicate Valid()
      reads this
    {
      pendingScrollPosition == NO_POSITION || pendingScrollPosition >= 0
    }

    constructor ()
      ensures Valid()
      ensures children == [] && pendingScrollPosition == NO_POSITION
    {
      children := [];
      pendingScrollPosition := NO_POSITION;
    }

    /** onLayoutChildren: detaches every child, then stacks children at offset 0 from
        the pending position if there is one, else from 0, until their heights reach
        `totalSpace` or the items run out. The pending position is kept. */
    method OnLayoutChildren(items: Items, totalSpace: int)
      requires Valid() && items.Valid()
      modifies this`children
      ensures children == Stack(items, StartPosition(pendingScrollPosition), 0, 0, totalSpace)
    {
      children := [];
      var currentPosition := 0;
      if pendingScrollPosition != NO_POSITION {
        currentPosition := pendingScrollPosition;
      }
      var added := Sweep.LayoutRun(items, currentPosition, totalSpace);
      children := children + added;
    }

    /** scrollVerticallyBy: fill, move every child up by the adjusted delta, recycle,
        and report the adjusted delta as consumed. */
    method ScrollVerticallyBy(dy: int, items: Items, totalSpace: int) returns (adjustedDy: int)
      requires items.Valid()
      modifies this`children
      ensures Fill(children, adjustedDy) == ScrollOutcome(old(children), items, dy, totalSpace)
    {
      adjustedDy := FillView(dy, items, totalSpace);
      children := OffsetVertical(children, -adjustedDy);
      RecycleInvisibleView(adjustedDy, totalSpace);
    }

    /** fillView: attaches the children entering the viewport, or returns the
        clamped delta at the first or last item. */
    method FillView(dy: int, items: Items, totalSpace: int) returns (adjustedDy: int)
      requires items.Valid()
      modifies this`children
      ensures Fill(children, adjustedDy) == FillOutcome(old(children), items, dy, totalSpace)
    {
      var verticalSpace := totalSpace;
      var remainSpace := 0;
      var nextFillPosition := 0;
      var offsetTop := 0;
      var offsetLeft := 0;
      var absDy := Abs(dy);
      if dy > 0 {
        if children == [] { return dy; }
        var anchor := Last(children);
        var anchorBottom := anchor.bottom;
        offsetLeft := anchor.left;
        remainSpace := verticalSpace - anchorBottom;
        if remainSpace < 0 { return dy; }
        nextFillPosition := anchor.pos + 1;
        if nextFillPosition >= items.Count() && anchorBottom - absDy < verticalSpace {
          return anchorBottom - verticalSpace;
        }
        offsetTop := anchorBottom;
      } else if dy < 0 {
        if children == [] { return dy; }
        var anchor := children[0];
        var anchorTop := anchor.top;
        offsetLeft := anchor.left;
        remainSpace := anchorTop;
        if remainSpace < 0 { return dy; }
        nextFillPosition := anchor.pos - 1;
        if nextFillPosition < 0 && anchorTop + absDy > 0 {
          return anchorTop;
        }
        var itemHeight := anchor.bottom - anchor.top;
        offsetTop := anchorTop - itemHeight;
      }
      children := Sweep.FillRun(children, items, dy, nextFillPosition, offsetTop, offsetLeft, remainSpace);
      adjustedDy := dy;
    }

    /** recycleInvisibleView: removes the children that have left the viewport on the
        side the content moved towards. */
    method RecycleInvisibleView(dy: int, totalSpace: int)
      modifies this`children
      ensures children == Recycled(old(children), dy, totalSpace)
    {
      children := Sweep.RecycleInvisible(children, dy, totalSpace);
    }

    /** scrollToPosition: records a valid position as the pending start of the next
        layout pass; a position outside `[0, itemCount)` is ignored. */
    method ScrollToPosition(position: int, itemCount: nat)
      requires Valid()
      modifies this`pendingScrollPosition
      ensures Valid()
      ensures pendingScrollPosition ==
        if position < 0 || position >= itemCount then old(pendingScrollPosition) else position
    {
      if position < 0 || position >= itemCount {
        return;
      }
      pendingScrollPosition := position;
    }
  }

  /** A layout pass attaches consecutive positions from the start position, the
      first at offset 0, each top at the previous bottom, all at left 0; a valid
      start position in a non-empty viewport becomes the first child, and a start
      position past the last item attaches nothing. */
  lemma LayoutFromStart(items: Items, pendingScrollPosition: int, totalSpace: int)
    requires items.Valid()
    requires pendingScrollPosition == NO_POSITION || pendingScrollPosition >= 0
    ensures var start := StartPosition(pendingScrollPosition);
      var r := Stack(items, start, 0, 0, totalSpace);
      && (forall i :: 0 <= i < |r| ==> r[i].pos == start + i && r[i].left == 0)
      && (r != [] ==> r[0].top == 0)
      && Adjacent(r)
      && (0 <= start < items.Count() && totalSpace > 0 ==>
            r != [] && r[0] == Child(start, 0, 0, items.widths[start], items.heights[start]))
      && (start >= items.Count() ==> r == [])
  {
    StackShape(items, StartPosition(pendingScrollPosition), 0, 0, totalSpace);
  }

  /** fillView changes nothing and returns `dy` with no children, with `dy == 0`,
      when scrolling down while the last child reaches below the viewport, and when
      scrolling up while the first child reaches above it. */
  lemma FillNoOpCases(cs: seq<Child>, items: Items, dy: int, totalSpace: int)
    requires items.Valid()
    requires || cs == [] || dy == 0
             || (dy > 0 && totalSpace - Last(cs).bottom < 0)
             || (dy < 0 && cs[0].top < 0)
    ensures FillOutcome(cs, items, dy, totalSpace) == Fill(cs, dy)
  {
  }

  /** The forward clamp: scrolling down while the last child is the last item and
      ends inside the viewport attaches nothing and returns `bottom - totalSpace`,
      whatever `dy` is; the scroll then puts that child's bottom exactly on the
      viewport's bottom and, as long as the child has some height, recycles nothing. */
  lemma ForwardClamp(cs: seq<Child>, items: Items, dy: int, totalSpace: int)
    requires items.Valid()
    requires dy > 0 && cs != []
    requires Last(cs).pos + 1 >= items.Count() && Last(cs).bottom <= totalSpace
    ensures FillOutcome(cs, items, dy, totalSpace) == Fill(cs, Last(cs).bottom - totalSpace)
    ensures Last(cs).top < Last(cs).bottom ==>
      var s := ScrollOutcome(cs, items, dy, totalSpace);
      && s.children == OffsetVertical(cs, totalSpace - Last(cs).bottom)
      && Last(s.children).bottom == totalSpace
  {
    var adjusted := Last(cs).bottom - totalSpace;
    var shifted := OffsetVertical(cs, -adjusted);
    assert Last(shifted) == Last(cs).(top := Last(cs).top - adjusted, bottom := totalSpace);
    if adjusted < 0 && Last(cs).top < Last(cs).bottom {
      assert InvisibleBelow(shifted, totalSpace) == 0;
      assert shifted[..|shifted|] == shifted;
    }
  }

  /** The backward clamp: scrolling up while the first child is item 0 and starts
      inside the viewport attaches nothing and returns its top, whatever `dy` is;
      the scroll then puts its top exactly on the viewport's top and, as long as the
      child has some height, recycles nothing. */
  lemma BackwardClamp(cs: seq<Child>, items: Items, dy: int, totalSpace: int)
    requires items.Valid()
    requires dy < 0 && cs != []
    requires cs[0].pos <= 0 && cs[0].top >= 0
    ensures FillOutcome(cs, items, dy, totalSpace) == Fill(cs, cs[0].top)
    ensures cs[0].top < cs[0].bottom ==>
      var s := ScrollOutcome(cs, items, dy, totalSpace);
      && s.children == OffsetVertical(cs, -cs[0].top)
      && s.children[0].top == 0
  {
    var adjusted := cs[0].top;
    var shifted := OffsetVertical(cs, -adjusted);
    assert shifted[0] == cs[0].(top := 0, bottom := cs[0].bottom - adjusted);
    if adjusted > 0 && cs[0].top < cs[0].bottom {
      assert InvisibleAbove(shifted) == 0;
      assert shifted[0..] == shifted;
    }
  }

  /** Scrolling down with room below a last child that is not the last item
      returns `dy` and fills the gap below it as `ForwardFilled` describes: the
      next positions are appended, each with its item's size and inside the
      viewport, until the viewport's bottom or the last item is reached. */
  lemma ForwardFillAppends(cs: seq<Child>, items: Items, dy: int, totalSpace: int)
    requires items.Valid()
    requires dy > 0 && cs != []
    requires Last(cs).bottom <= totalSpace && 0 <= Last(cs).pos && Last(cs).pos + 1 < items.Count()
    ensures FillOutcome(cs, items, dy, totalSpace).adjustedDy == dy
    ensures ForwardFilled(cs, items, totalSpace, FillOutcome(cs, items, dy, totalSpace).children)
  {
    ForwardFill(cs, items, totalSpace, FillOutcome(cs, items, dy, totalSpace).children);
  }

  /** Scrolling up with room above a first child that is not item 0 returns `dy`
      and fills the gap above it as `BackwardFilled` describes: the preceding
      positions are inserted in front, each with its item's size and placed while
      space remains, until item 0 or the gap is used up; the one next to the
      anchor starts at the anchor's top minus the anchor's height. */
  lemma BackwardFillPrepends(cs: seq<Child>, items: Items, dy: int, totalSpace: int)
    requires items.Valid()
    requires dy < 0 && cs != []
    requires cs[0].top >= 0 && cs[0].pos >= 1
    ensures FillOutcome(cs, items, dy, totalSpace).adjustedDy == dy
    ensures BackwardFilled(cs, items, FillOutcome(cs, items, dy, totalSpace).children)
  {
    BackwardFill(cs, items, FillOutcome(cs, items, dy, totalSpace).children);
  }

  /** fillView keeps the positions of the children contiguous. */
  lemma FillKeepsContiguous(cs: seq<Child>, items: Items, dy: int, totalSpace: int)
    requires items.Valid()
    requires Contiguous(cs)
    ensures Contiguous(FillOutcome(cs, items, dy, totalSpace).children)
  {
    if cs != [] {
      if dy > 0 {
        AppendKeepsShape(cs, items, Last(cs).bottom, Last(cs).left, totalSpace - Last(cs).bottom);
      } else if dy < 0 {
        PrependKeepsContiguous(cs, items, cs[0].top - (cs[0].bottom - cs[0].top), cs[0].left, cs[0].top);
      }
    }
  }

  /** A scroll keeps the positions of the children contiguous, and the adjusted
      delta is either `dy` or one of the two clamps. */
  lemma ScrollKeepsContiguous(cs: seq<Child>, items: Items, dy: int, totalSpace: int)
    requires items.Valid()
    ensures var s := ScrollOutcome(cs, items, dy, totalSpace);
      && (Contiguous(cs) ==> Contiguous(s.children))
      && (s.adjustedDy == dy
          || (dy > 0 && cs != [] && s.adjustedDy == Last(cs).bottom - totalSpace)
          || (dy < 0 && cs != [] && s.adjustedDy == cs[0].top))
  {
    var f := FillOutcome(cs, items, dy, totalSpace);
    var shifted := OffsetVertical(f.children, -f.adjustedDy);
    assert ScrollOutcome(cs, items, dy, totalSpace) == Fill(Recycled(shifted, f.adjustedDy, totalSpace), f.adjustedDy);
    if Contiguous(cs) {
      assert Contiguous(Recycled(shifted, f.adjustedDy, totalSpace)) by {
        FillKeepsContiguous(cs, items, dy, totalSpace);
        OffsetVerticalShape(f.children, -f.adjustedDy);
        RecycledKeepsShape(shifted, f.adjustedDy, totalSpace);
      }
    }
  }

  /** scrollToPosition followed by a layout pass makes the requested item the first
      child at offset 0; because the pending position is never cleared, a later
      layout pass after any scroll starts from that item again. */
  method JumpThenRelayout(m: LinearLayoutManager6, position: int, items: Items, totalSpace: int, dy: int)
    requires m.Valid() && items.Valid()
    requires 0 <= position < items.Count() && totalSpace > 0
    modifies m
    ensures m.Valid() && m.pendingScrollPosition == position
    ensures m.children != [] && m.children[0] == Child(position, 0, 0, items.widths[position], items.heights[position])
  {
    m.ScrollToPosition(position, items.Count());
    m.OnLayoutChildren(items, totalSpace);
    LayoutFromStart(items, position, totalSpace);
    assert m.children[0].pos == position;
    var _ := m.ScrollVerticallyBy(dy, items, totalSpace);
    m.OnLayoutChildren(items, totalSpace);
  }

  // ---------------------------------------------------------------------------
  // Worked cases

  /** 50 items 100 high and 1080 wide. */
  function Uniform(): Items
  {
    Items(seq(50, _ => 100), seq(50, _ => 1080))
  }

  /** With 50 items 100 high in a viewport 450 high, the layout attaches items 0..4.
      A scroll by 150 finds the last child already reaching 50 below the viewport,
      so nothing is filled before the shift: items 1..4 remain, item 1 at -50, and
      the bottom 100 of the viewport is left empty. A scroll by 100000 is not
      clamped for the same reason and recycles every child. */
  lemma UniformScenario()
    ensures var items := Uniform();
      var laid := Stack(items, 0, 0, 0, 450);
      && laid == [Child(0, 0, 0, 1080, 100), Child(1, 0, 100, 1080, 200), Child(2, 0, 200, 1080, 300),
                  Child(3, 0, 300, 1080, 400), Child(4, 0, 400, 1080, 500)]
      && ScrollOutcome(laid, items, 150, 450)
         == Fill([Child(1, 0, -50, 1080, 50), Child(2, 0, 50, 1080, 150),
                  Child(3, 0, 150, 1080, 250), Child(4, 0, 250, 1080, 350)], 150)
      && ScrollOutcome(laid, items, 100000, 450) == Fill([], 100000)
  {
    var items := Uniform();
    assert Stack(items, 5, 500, 0, -50) == [];
    assert Stack(items, 4, 400, 0, 50) == [Child(4, 0, 400, 1080, 500)];
    assert Stack(items, 3, 300, 0, 150) == [Child(3, 0, 300, 1080, 400), Child(4, 0, 400, 1080, 500)];
    assert Stack(items, 2, 200, 0, 250)
      == [Child(2, 0, 200, 1080, 300), Child(3, 0, 300, 1080, 400), Child(4, 0, 400, 1080, 500)];
    assert Stack(items, 1, 100, 0, 350)
      == [Child(1, 0, 100, 1080, 200), Child(2, 0, 200, 1080, 300), Child(3, 0, 300, 1080, 400),
          Child(4, 0, 400, 1080, 500)];
    var laid := Stack(items, 0, 0, 0, 450);
    var moved := OffsetVertical(laid, -150);
    assert InvisibleAbove(moved[2..]) == 0;
    assert InvisibleAbove(moved[1..]) == 0;
    assert InvisibleAbove(moved) == 1;
    var gone := OffsetVertical(laid, -100000);
    assert InvisibleAbove(gone[5..]) == 0;
    assert InvisibleAbove(gone[4..]) == 1;
    assert InvisibleAbove(gone[3..]) == 2;
    assert InvisibleAbove(gone[2..]) == 3;
    assert InvisibleAbove(gone[1..]) == 4;
  }

  /** Two items 100 high in a viewport 450 high: a scroll down by 10 hits the
      forward clamp and returns -250, so the list moves 250 DOWN to the viewport's
      bottom. */
  lemma ShortListMovesToBottom()
    ensures var items := Items([100, 100], [1080, 1080]);
      var laid := Stack(items, 0, 0, 0, 450);
      && laid == [Child(0, 0, 0, 1080, 100), Child(1, 0, 100, 1080, 200)]
      && ScrollOutcome(laid, items, 10, 450)
         == Fill([Child(0, 0, 250, 1080, 350), Child(1, 0, 350, 1080, 450)], -250)
  {
    var items := Items([100, 100], [1080, 1080]);
    assert Stack(items, 1, 100, 0, 350) == [Child(1, 0, 100, 1080, 200)];
    var moved := [Child(0, 0, 250, 1080, 350), Child(1, 0, 350, 1080, 450)];
    assert OffsetVertical(Stack(items, 0, 0, 0, 450), 250) == moved;
    assert InvisibleBelow(moved, 450) == 0;
  }

  /** A backward fill under a taller anchor: item 5 is 300 high at top 20 and item 4
      is 100 high. Scrolling up by 10 places item 4 at 20 - 300 = -280, so after the
      shift it ends at -170 and the band [0, 30) of the viewport stays empty. */
  lemma BackwardFillLeavesGap()
    ensures var items := Items([100, 100, 100, 100, 100, 300], [1080, 1080, 1080, 1080, 1080, 1080]);
      var cs := [Child(5, 0, 20, 1080, 320)];
      ScrollOutcome(cs, items, -10, 450)
        == Fill([Child(4, 0, -270, 1080, -170), Child(5, 0, 30, 1080, 330)], -10)
  {
    var items := Items([100, 100, 100, 100, 100, 300], [1080, 1080, 1080, 1080, 1080, 1080]);
    assert StackBack(items, 3, -380, 0, -80) == [];
    assert StackBack(items, 4, -280, 0, 20) == [Child(4, 0, -280, 1080, -180)];
    var moved := [Child(4, 0, -270, 1080, -170), Child(5, 0, 30, 1080, 330)];
    assert OffsetVertical([Child(4, 0, -280, 1080, -180), Child(5, 0, 20, 1080, 320)], 10) == moved;
    assert InvisibleBelow(moved, 450) == 0;
  }
}

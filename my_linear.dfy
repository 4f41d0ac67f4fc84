/** MyLinearLayoutManager: a vertical scroll first fills the children entering the
    viewport, then moves every child by the raw delta, then recycles the children
    that left; there is no boundary clamp. */
module MyLinear {
  import opened Geometry
  import Sweep

  /** The children after fillView. Scrolling down (`dy > 0`) fills below the last
      child, into the gap between its bottom and the viewport's bottom as measured
      BEFORE the scroll moves anything; scrolling up fills above the first child,
      into the gap above its top, placing the first new child at the anchor's top
      minus the ANCHOR's height. */
  function FillOutcome(cs: seq<Child>, items: Items, dy: int, totalSpace: int): seq<Child>
    requires items.Valid()
  {
    if dy > 0 then
      if cs == [] then cs
      else
        var anchor := Last(cs);
        var remainSpace := totalSpace - anchor.bottom;
        if remainSpace < 0 || anchor.pos + 1 >= items.Count() then cs
        else cs + Stack(items, anchor.pos + 1, anchor.bottom, anchor.left, remainSpace)
    else if dy < 0 then
      if cs == [] then cs
      else
        var anchor := cs[0];
        if anchor.top < 0 || anchor.pos - 1 < 0 then cs
        else StackBack(items, anchor.pos - 1, anchor.top - (anchor.bottom - anchor.top), anchor.left, anchor.top) + cs
    else cs
  }

  /** The children after scrollVerticallyBy: fill, move by `-dy`, recycle. */
  function ScrollOutcome(cs: seq<Child>, items: Items, dy: int, totalSpace: int): seq<Child>
    requires items.Valid()
  {
    Recycled(OffsetVertical(FillOutcome(cs, items, dy, totalSpace), -dy), dy, totalSpace)
  }

  class MyLinearLayoutManager {
    /** The attached children, in ascending position order. */
    var children: seq<Child>

    constructor ()
      ensures children == []
    {
      children := [];
    }

    /** onLayoutChildren: detaches every child, then stacks children from position 0
        at offset 0 until their heights reach `totalSpace` or the items run out. */
    method OnLayoutChildren(items: Items, totalSpace: int)
      requires items.Valid()
      modifies this
      ensures children == Stack(items, 0, 0, 0, totalSpace)
    {
      children := [];
      var added := Sweep.LayoutRun(items, 0, totalSpace);
      children := children + added;
    }

    /** scrollVerticallyBy: fill, move every child up by `dy`, recycle; all of `dy`
        is reported as consumed. */
    method ScrollVerticallyBy(dy: int, items: Items, totalSpace: int) returns (consumed: int)
      requires items.Valid()
      modifies this
      ensures consumed == dy
      ensures children == ScrollOutcome(old(children), items, dy, totalSpace)
    {
      FillView(dy, items, totalSpace);
      children := OffsetVertical(children, -dy);
      RecycleInvisibleView(dy, totalSpace);
      consumed := dy;
    }

    /** fillView: attaches the children entering the viewport on the side the
        content is moving away from. */
    method FillView(dy: int, items: Items, totalSpace: int)
      requires items.Valid()
      modifies this
      ensures children == FillOutcome(old(children), items, dy, totalSpace)
    {
      var verticalSpace := totalSpace;
      var remainSpace := 0;
      var nextFillPosition := 0;
      var offsetTop := 0;
      var offsetLeft := 0;
      if dy > 0 {
        if children == [] { return; }
        var anchor := Last(children);
        offsetLeft := anchor.left;
        remainSpace := verticalSpace - anchor.bottom;
        if remainSpace < 0 { return; }
        nextFillPosition := anchor.pos + 1;
        if nextFillPosition >= items.Count() { return; }
        offsetTop := anchor.bottom;
      } else if dy < 0 {
        if children == [] { return; }
        var anchor := children[0];
        offsetLeft := anchor.left;
        remainSpace := anchor.top;
        if anchor.top < 0 { return; }
        nextFillPosition := anchor.pos - 1;
        if nextFillPosition < 0 { return; }
        var itemHeight := anchor.bottom - anchor.top;
        offsetTop := anchor.top - itemHeight;
      }
      children := Sweep.FillRun(children, items, dy, nextFillPosition, offsetTop, offsetLeft, remainSpace);
    }

    /** recycleInvisibleView: removes the children that have left the viewport on the
        side the content moved towards. */
    method RecycleInvisibleView(dy: int, totalSpace: int)
      modifies this
      ensures children == Recycled(old(children), dy, totalSpace)
    {
      children := Sweep.RecycleInvisible(children, dy, totalSpace);
    }
  }

  /** Filling is a no-op with no children, with `dy == 0`, when scrolling down while
      the last child reaches below the viewport or is the last item, and when
      scrolling up while the first child reaches above the viewport or is item 0. */
  lemma FillNoOpCases(cs: seq<Child>, items: Items, dy: int, totalSpace: int)
    requires items.Valid()
    requires || cs == [] || dy == 0
             || (dy > 0 && (Last(cs).bottom > totalSpace || Last(cs).pos == items.Count() - 1))
             || (dy < 0 && (cs[0].top < 0 || cs[0].pos == 0))
    ensures FillOutcome(cs, items, dy, totalSpace) == cs
  {
  }

  /** Scrolling down with room below a last child that is not the last item
      fills the gap below it as `ForwardFilled` describes: the next positions are
      appended, each with its item's size and inside the viewport, until the
      viewport's bottom or the last item is reached. */
  lemma ForwardFillAppends(cs: seq<Child>, items: Items, dy: int, totalSpace: int)
    requires items.Valid()
    requires dy > 0 && cs != []
    requires Last(cs).bottom <= totalSpace && 0 <= Last(cs).pos && Last(cs).pos + 1 < items.Count()
    ensures ForwardFilled(cs, items, totalSpace, FillOutcome(cs, items, dy, totalSpace))
  {
    ForwardFill(cs, items, totalSpace, FillOutcome(cs, items, dy, totalSpace));
  }

  /** Scrolling up with room above a first child that is not item 0 fills the gap
      above it as `BackwardFilled` describes: the preceding positions are inserted
      in front, each with its item's size and placed while space remains, until
      item 0 or the gap is used up; the one next to the anchor starts at the
      anchor's top minus the anchor's height. */
  lemma BackwardFillPrepends(cs: seq<Child>, items: Items, dy: int, totalSpace: int)
    requires items.Valid()
    requires dy < 0 && cs != []
    requires cs[0].top >= 0 && cs[0].pos >= 1
    ensures BackwardFilled(cs, items, FillOutcome(cs, items, dy, totalSpace))
  {
    BackwardFill(cs, items, FillOutcome(cs, items, dy, totalSpace));
  }

  /** fillView keeps the positions of the children contiguous. */
  lemma FillKeepsContiguous(cs: seq<Child>, items: Items, dy: int, totalSpace: int)
    requires items.Valid()
    requires Contiguous(cs)
    ensures Contiguous(FillOutcome(cs, items, dy, totalSpace))
  {
    if cs != [] {
      if dy > 0 {
        AppendKeepsShape(cs, items, Last(cs).bottom, Last(cs).left, totalSpace - Last(cs).bottom);
      } else if dy < 0 {
        PrependKeepsContiguous(cs, items, cs[0].top - (cs[0].bottom - cs[0].top), cs[0].left, cs[0].top);
      }
    }
  }

  /** A scroll by 0 changes no child. */
  lemma ZeroScrollChangesNothing(cs: seq<Child>, items: Items, totalSpace: int)
    requires items.Valid()
    ensures ScrollOutcome(cs, items, 0, totalSpace) == cs
  {
    assert OffsetVertical(cs, 0) == cs;
  }

  /** Every scroll moves the surviving children up by exactly `dy` (no clamp) and
      keeps positions contiguous. */
  lemma ScrollShiftsByDy(cs: seq<Child>, items: Items, dy: int, totalSpace: int)
    requires items.Valid()
    ensures var f := FillOutcome(cs, items, dy, totalSpace);
      var r := ScrollOutcome(cs, items, dy, totalSpace);
      && |r| <= |f|
      && (forall i :: 0 <= i < |r| ==>
            var j := if dy > 0 then |f| - |r| + i else i;
            r[i] == f[j].(top := f[j].top - dy, bottom := f[j].bottom - dy))
      && (Contiguous(cs) ==> Contiguous(r))
  {
    var f := FillOutcome(cs, items, dy, totalSpace);
    ShiftThenRecycle(f, -dy, dy, totalSpace);
    if Contiguous(cs) {
      FillKeepsContiguous(cs, items, dy, totalSpace);
    }
  }
}

/** LinearLayoutManager1: only the items that fit the height below the top padding
    are attached on layout; scrolling only translates the attached children. */
module Linear1 {
  import opened Geometry
  import Sweep

  class LinearLayoutManager1 {
    /** The attached children, in the order they were added. */
    var children: seq<Child>

    constructor ()
      ensures children == []
    {
      children := [];
    }

    /** onLayoutChildren: stacks children from position 0 at offset 0 until their
        heights reach `height - paddingTop` or the items run out. The children
        already attached are not detached first. */
    method OnLayoutChildren(items: Items, height: int, paddingTop: int)
      requires items.Valid()
      modifies this
      ensures children == old(children) + Stack(items, 0, 0, 0, height - paddingTop)
    {
      var remainSpace := height - paddingTop;
      var added := Sweep.LayoutRun(items, 0, remainSpace);
      children := children + added;
    }

    /** scrollHorizontallyBy: moves every child left by `dx`; all of `dx` is consumed. */
    method ScrollHorizontallyBy(dx: int) returns (consumed: int)
      modifies this
      ensures consumed == dx
      ensures children == OffsetHorizontal(old(children), -dx)
    {
      children := OffsetHorizontal(children, -dx);
      consumed := dx;
    }

    /** scrollVerticallyBy: moves every child up by `dy`; all of `dy` is consumed. */
    method ScrollVerticallyBy(dy: int) returns (consumed: int)
      modifies this
      ensures consumed == dy
      ensures children == OffsetVertical(old(children), -dy)
    {
      children := OffsetVertical(children, -dy);
      consumed := dy;
    }
  }

  /** The bounded layout: consecutive positions from 0, the first at offset 0, each
      top at the previous bottom, left 0; every child but the last ends strictly
      above the bound, the loop stops only at the bound or at the last item, and a
      non-positive bound attaches nothing. */
  lemma BoundedLayout(items: Items, height: int, paddingTop: int)
    requires items.Valid()
    ensures var bound := height - paddingTop;
      var r := Stack(items, 0, 0, 0, bound);
      && (forall i :: 0 <= i < |r| ==> r[i].pos == i && r[i].left == 0)
      && (r != [] ==> r[0].top == 0)
      && Adjacent(r)
      && (forall i :: 0 <= i < |r| - 1 ==> r[i].bottom < bound)
      && (|r| == items.Count() || (r != [] && Last(r).bottom >= bound) || bound <= 0)
      && (bound <= 0 ==> r == [])
  {
    var bound := height - paddingTop;
    StackShape(items, 0, 0, 0, bound);
    StackExtent(items, 0, 0, 0, bound);
    var r := Stack(items, 0, 0, 0, bound);
    forall i | 0 <= i < |r| - 1 ensures r[i].bottom < bound {
      assert r[i + 1].top == r[i].bottom;
    }
  }
}

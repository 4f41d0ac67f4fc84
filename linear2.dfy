/** LinearLayoutManager2: the initial layout is bounded by the viewport and a
    vertical scroll recycles the children that left it, but adds none. */
module Linear2 {
  import opened Geometry
  import Sweep

  class LinearLayoutManager2 {
    /** The attached children, in the order they were added. */
    var children: seq<Child>

    constructor ()
      ensures children == []
    {
      children := [];
    }

    /** onLayoutChildren: detaches every child, then stacks children from position 0
        at offset 0 until their heights reach `totalSpace` or the items run out. */
    method OnLayoutChildren(items: Items, totalSpace: int)
      requires items.Valid()
      modifies this
      ensures children == Stack(items, 0, 0, 0, totalSpace)
    {
      children := [];
      var added := Sweep.LayoutRun(items, 0, totalSpace);
      children := children + added;
    }

    /** scrollHorizontallyBy: moves every child left by `dx`; all of `dx` is consumed. */
    method ScrollHorizontallyBy(dx: int) returns (consumed: int)
      modifies this
      ensures consumed == dx
      ensures children == OffsetHorizontal(old(children), -dx)
    {
      children := OffsetHorizontal(children, -dx);
      consumed := dx;
    }

    /** scrollVerticallyBy: moves every child up by `dy`, then recycles; all of `dy`
        is consumed. */
    method ScrollVerticallyBy(dy: int, totalSpace: int) returns (consumed: int)
      modifies this
      ensures consumed == dy
      ensures children == Recycled(OffsetVertical(old(children), -dy), dy, totalSpace)
    {
      children := OffsetVertical(children, -dy);
      RecycleInvisibleView(dy, totalSpace);
      consumed := dy;
    }

    /** recycleInvisibleView: removes the children that have left the viewport on the
        side the content moved towards. */
    method RecycleInvisibleView(dy: int, totalSpace: int)
      modifies this
      ensures children == Recycled(old(children), dy, totalSpace)
    {
      children := Sweep.RecycleInvisible(children, dy, totalSpace);
    }
  }

  /** The initial layout: consecutive positions from 0 at offset 0, adjacent, stopped
      by the viewport or by the last item; a viewport of no height gets no children. */
  lemma LayoutFillsViewport(items: Items, totalSpace: int)
    requires items.Valid()
    ensures var r := Stack(items, 0, 0, 0, totalSpace);
      && Contiguous(r) && (r != [] ==> r[0].pos == 0 && r[0].top == 0)
      && Adjacent(r)
      && (forall i :: 0 <= i < |r| ==> r[i].top < totalSpace)
      && (|r| == items.Count() || (r != [] && Last(r).bottom >= totalSpace) || totalSpace <= 0)
      && (totalSpace <= 0 ==> r == [])
  {
    StackShape(items, 0, 0, 0, totalSpace);
    StackExtent(items, 0, 0, 0, totalSpace);
  }

  /** A vertical scroll never adds a child: the survivors are a run of the shifted
      children, each moved up by exactly `dy`, and positions stay contiguous. */
  lemma ScrollNeverAdds(cs: seq<Child>, dy: int, totalSpace: int)
    ensures var r := Recycled(OffsetVertical(cs, -dy), dy, totalSpace);
      && |r| <= |cs|
      && (dy > 0 ==> forall i :: 0 <= i < |r| ==>
            r[i] == cs[|cs| - |r| + i].(top := cs[|cs| - |r| + i].top - dy, bottom := cs[|cs| - |r| + i].bottom - dy))
      && (dy <= 0 ==> forall i :: 0 <= i < |r| ==>
            r[i] == cs[i].(top := cs[i].top - dy, bottom := cs[i].bottom - dy))
      && (Contiguous(cs) ==> Contiguous(r))
  {
    ShiftThenRecycle(cs, -dy, dy, totalSpace);
  }
}

/** MostSimpleLayoutManager: every item is attached on layout, and scrolling only
    translates the attached children. */
module MostSimple {
  import opened Geometry
  import Sweep

  class MostSimpleLayoutManager {
    /** The attached children, in the order they were added. */
    var children: seq<Child>

    constructor ()
      ensures children == []
    {
      children := [];
    }

    /** onLayoutChildren: attaches one child per item, stacked from offset 0. The
        children already attached are not detached first. */
    method OnLayoutChildren(items: Items)
      requires items.Valid()
      modifies this
      ensures children == old(children) + Tiled(items)
    {
      var added := Sweep.TileRun(items);
      children := children + added;
    }

    /** scrollHorizontallyBy: moves every child left by `dx` and reports all of `dx`
        as consumed. */
    method ScrollHorizontallyBy(dx: int) returns (consumed: int)
      modifies this
      ensures consumed == dx
      ensures children == OffsetHorizontal(old(children), -dx)
    {
      children := OffsetHorizontal(children, -dx);
      consumed := dx;
    }

    /** scrollVerticallyBy: moves every child up by `dy` and reports all of `dy`
        as consumed. */
    method ScrollVerticallyBy(dy: int) returns (consumed: int)
      modifies this
      ensures consumed == dy
      ensures children == OffsetVertical(old(children), -dy)
    {
      children := OffsetVertical(children, -dy);
      consumed := dy;
    }
  }

  /** A layout from no children attaches exactly the positions 0 .. itemCount - 1,
      child `i` spanning the heights of the items before it up to its own, its
      horizontal bounds `[0, width)`, and the last one ending at the sum of all
      heights; no items give no children. */
  lemma LayoutAttachesEveryItem(items: Items)
    requires items.Valid()
    ensures var r := [] + Tiled(items);
      && |r| == items.Count()
      && (forall i :: 0 <= i < |r| ==>
            r[i].pos == i && r[i].left == 0 && r[i].right == items.widths[i]
            && r[i].top == Sum(items.heights[..i]) && r[i].bottom == r[i].top + items.heights[i])
      && Adjacent(r)
      && (r != [] ==> r[0].top == 0 && Last(r).bottom == Sum(items.heights))
      && (items.Count() == 0 ==> r == [])
  {
    TiledShape(items);
    assert [] + Tiled(items) == Tiled(items);
  }

  /** After a layout from no children and a vertical scroll by `dy`, every item is
      still attached, in position order and adjacent; the children now span from
      `-dy` to the sum of all heights minus `dy`. */
  lemma ScrolledLayoutKeepsTiling(items: Items, dy: int)
    requires items.Valid()
    ensures var r := OffsetVertical([] + Tiled(items), -dy);
      && |r| == items.Count()
      && (forall i :: 0 <= i < |r| ==> r[i].pos == i)
      && Adjacent(r)
      && (r != [] ==> r[0].top == -dy && Last(r).bottom == Sum(items.heights) - dy)
  {
    assert [] + Tiled(items) == Tiled(items);
    TiledShape(items);
    OffsetVerticalShape(Tiled(items), -dy);
  }
}

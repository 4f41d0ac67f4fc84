/** The loops the layout managers run over the adapter and over their children.
    Each returns the children it would attach or keep, and is proved equal to the
    corresponding function of Geometry; the layout manager classes assign the
    result to their child list. */
module Sweep {
  import opened Geometry

  /** The stacking loop of onLayoutChildren: from `start`, attach one child per item
      at the running top offset, at left 0, while space remains and items exist. */
  method LayoutRun(items: Items, start: int, totalSpace: int) returns (added: seq<Child>)
    requires items.Valid()
    requires start >= 0
    ensures added == Stack(items, start, 0, 0, totalSpace)
  {
    var remainSpace := totalSpace;
    var offsetTop := 0;
    var currentPosition := start;
    added := [];
    while remainSpace > 0 && currentPosition < items.Count()
      invariant start <= currentPosition
      invariant added + Stack(items, currentPosition, offsetTop, 0, remainSpace) == Stack(items, start, 0, 0, totalSpace)
      decreases items.Count() - currentPosition
    {
      var itemWidth := items.widths[currentPosition];
      var itemHeight := items.heights[currentPosition];
      var c := Child(currentPosition, 0, offsetTop, itemWidth, offsetTop + itemHeight);
      assert Stack(items, currentPosition, offsetTop, 0, remainSpace)
        == [c] + Stack(items, currentPosition + 1, offsetTop + itemHeight, 0, remainSpace - itemHeight);
      assert (added + [c]) + Stack(items, currentPosition + 1, offsetTop + itemHeight, 0, remainSpace - itemHeight)
        == added + ([c] + Stack(items, currentPosition + 1, offsetTop + itemHeight, 0, remainSpace - itemHeight));
      added := added + [c];
      offsetTop := offsetTop + itemHeight;
      currentPosition := currentPosition + 1;
      remainSpace := remainSpace - itemHeight;
    }
  }

  /** The unbounded `for` loop of the simplest layout manager: every item, each
      starting where the previous one ended. */
  method TileRun(items: Items) returns (added: seq<Child>)
    requires items.Valid()
    ensures added == Tiled(items)
  {
    var offsetTop := 0;
    added := [];
    for itemIndex := 0 to items.Count()
      invariant offsetTop == Sum(items.heights[..itemIndex])
      invariant added == Tiled(items)[..itemIndex]
    {
      var width := items.widths[itemIndex];
      var height := items.heights[itemIndex];
      added := added + [Child(itemIndex, 0, offsetTop, width, offsetTop + height)];
      SumStep(items.heights, itemIndex);
      offsetTop := offsetTop + height;
    }
  }

  /** The fill loop of fillView. For `dy > 0` it appends children at increasing
      positions, each at the previous one's bottom; otherwise it inserts them at
      index 0 at decreasing positions, moving the top offset up by the height of
      the child just placed. */
  method FillRun(cs: seq<Child>, items: Items, dy: int, nextFillPosition: int, offsetTop: int,
                 offsetLeft: int, remainSpace: int) returns (r: seq<Child>)
    requires items.Valid()
    ensures r == if dy > 0 then cs + Stack(items, nextFillPosition, offsetTop, offsetLeft, remainSpace)
                 else StackBack(items, nextFillPosition, offsetTop, offsetLeft, remainSpace) + cs
  {
    var pos, top, remain := nextFillPosition, offsetTop, remainSpace;
    r := cs;
    while remain > 0 && (pos < items.Count() && pos >= 0)
      invariant dy > 0 ==>
        r + Stack(items, pos, top, offsetLeft, remain)
        == cs + Stack(items, nextFillPosition, offsetTop, offsetLeft, remainSpace)
      invariant dy <= 0 ==>
        StackBack(items, pos, top, offsetLeft, remain) + r
        == StackBack(items, nextFillPosition, offsetTop, offsetLeft, remainSpace) + cs
      decreases if dy > 0 then items.Count() - pos else pos
    {
      var itemWidth := items.widths[pos];
      var itemHeight := items.heights[pos];
      var c := Child(pos, offsetLeft, top, itemWidth + offsetLeft, top + itemHeight);
      if dy > 0 {
        r := r + [c];
        top := top + itemHeight;
        pos := pos + 1;
      } else {
        r := [c] + r;
        top := top - itemHeight;
        pos := pos - 1;
      }
      remain := remain - itemHeight;
    }
  }

  /** recycleInvisibleView: collect the children that left the viewport, scanning
      from the top for `dy > 0` and from the bottom for `dy < 0` and stopping at
      the first child still visible, then remove them. */
  method RecycleInvisible(cs: seq<Child>, dy: int, totalSpace: int) returns (survivors: seq<Child>)
    ensures survivors == Recycled(cs, dy, totalSpace)
  {
    survivors := cs;
    if dy > 0 {
      // the children cs[..i] are collected for recycling
      var i := 0;
      while i < |cs|
        invariant 0 <= i <= |cs|
        invariant forall j :: 0 <= j < i ==> AboveViewport(cs[j])
      {
        var top := cs[i].top;
        var height := top - cs[i].bottom;
        if height - top < 0 {
          break;
        }
        i := i + 1;
      }
      InvisibleAboveUnique(cs, i);
      survivors := cs[i..];
    } else if dy < 0 {
      // the children cs[i + 1..] are collected for recycling
      var i := |cs| - 1;
      while i >= 0
        invariant -1 <= i < |cs|
        invariant forall j :: i < j < |cs| ==> BelowViewport(cs[j], totalSpace)
      {
        var bottom := cs[i].bottom;
        var height := bottom - cs[i].top;
        if bottom - totalSpace < height {
          break;
        }
        i := i - 1;
      }
      InvisibleBelowUnique(cs, totalSpace, |cs| - 1 - i);
      survivors := cs[..i + 1];
    }
  }
}

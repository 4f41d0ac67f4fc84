# LayoutManagerGradually, modelled in Dafny

The repository is a series of Android `RecyclerView.LayoutManager` implementations.
Each one adds one capability to the previous one:

- `MostSimpleLayoutManager` lays out every item.
- `LinearLayoutManager1` lays out only the items that fit the height.
- `LinearLayoutManager2` adds recycling of the children that scroll out of the viewport.
- `MyLinearLayoutManager` fills the children that scroll into the viewport.
- `LinearLayoutManager6` adds clamping at the ends of the list and `scrollToPosition`.

The model covers these five managers, one module per manager and one class per
manager. The class keeps the attached children as a `seq<Child>`, and each
method changes that sequence as the Kotlin method changes the child list.

Modules:
- `Geometry`: the shared value types. A `Child` is an adapter position plus its
  decorated bounds. `Items` holds the decorated measured height and width of
  every item, and the item count is the number of items. The module also holds
  the pure functions that describe what a loop produces: forward stacking
  (`Stack`), backward stacking (`StackBack`), laying out every item (`Tiled`),
  translation (`OffsetVertical`, `OffsetHorizontal`) and recycling (`Recycled`).
  The lemmas about these functions are in the same module.
- `Sweep`: the loops of the source, written as loops. These are the layout
  loop, the unbounded `for` loop, the fill loop and the two recycling scans.
  Each is proved equal to its `Geometry` function. The managers call them and
  assign the result to their child list.
- `MostSimple`, `Linear1`, `Linear2`, `MyLinear`, `Linear6`: the managers.
  `MyLinear` and `Linear6` also define the outcome of `fillView` and of
  `scrollVerticallyBy` as functions, and prove their properties as lemmas.

What the model makes explicit about the code:
- Recycling, scrolling down: the test `height - top < 0` with
  `height = top - bottom` holds exactly when the child's bottom is below the
  viewport's top (`bottom > 0`). The scan from the top therefore removes the
  longest prefix of children with `bottom <= 0`.
- Recycling, scrolling up: the test `bottom - totalSpace < bottom - top` holds
  exactly when `top < totalSpace`. The scan therefore removes the longest suffix
  of children with `top >= totalSpace`.
- `fillView` measures the free space before the scroll moves anything. Unless
  `LinearLayoutManager6`'s forward clamp applies (the last child is the last
  item and does not reach below the viewport), a scroll by more than the
  distance the last child reaches below the viewport after the fill leaves part
  of the viewport empty. In
  `Linear6.UniformScenario`, 50 items 100 high in a viewport 450 high, scrolled
  by 150, end with items 1..4, item 1 at -50, and [350, 450) empty. That
  lemma also shows that a scroll by 100000 is not clamped,
  because the last child still reaches below the viewport; it recycles every
  child.
- Upward fill places the first new child at the anchor's top minus the
  anchor's height. It then moves each later top up by the height of the child
  just placed, not by the height of the child about to be placed. Neighbours
  touch only when they are equally tall: see `Geometry.StackBackShape`,
  `Geometry.StackBackAdjacentIff` and `Linear6.BackwardFillLeavesGap`.
- In `LinearLayoutManager6`:
  - The forward clamp returns `anchorBottom - totalSpace`. This is negative
    when the last item ends inside the viewport, so a short list moves down to
    the viewport's bottom (`Linear6.ShortListMovesToBottom`).
  - `mPendingScrollPosition` is never cleared, so every later layout pass
    starts again from the requested item (`Linear6.JumpThenRelayout`).
- `MostSimpleLayoutManager` and `LinearLayoutManager1` do not detach the
  attached children before laying out. The model appends the new children to
  the ones already attached.

## Model

| member | source | states |
|---|---|---|
| Geometry.StackShape | layoutmanager/src/main/java/com/julis/layoutmanager/series/LinearLayoutManager6.kt:49-65 | The layout loop attaches consecutive positions from the start position. Each child is as wide and as tall as its item and sits at the given left. The first child is at the start offset, and each child starts at the previous one's bottom |
| Geometry.StackExtent | layoutmanager/src/main/java/com/julis/layoutmanager/series/LinearLayoutManager6.kt:49-65 | A child is attached only while space remains. The loop stops only when the space is used up or the items have run out |
| Geometry.StackBackShape | layoutmanager/src/main/java/com/julis/layoutmanager/series/LinearLayoutManager6.kt:155-183 | The upward fill attaches consecutive positions ending at the start position, with the highest one at the start offset. Child i+1's top is child i's top plus child i+1's height, so child i sits above its neighbour by the neighbour's height, not by its own |
| Geometry.StackBackExtent | layoutmanager/src/main/java/com/julis/layoutmanager/series/LinearLayoutManager6.kt:155-183 | The upward fill attaches a child only while space remains. It stops only when the space is used up or position 0 has been placed |
| Geometry.StackBackAdjacentIff | layoutmanager/src/main/java/com/julis/layoutmanager/series/LinearLayoutManager6.kt:174-180 | Two neighbours of an upward fill touch if and only if they are equally tall |
| Geometry.StackIsPrefixOfTiled | layoutmanager/src/main/java/com/julis/layoutmanager/series/LinearLayoutManager1.kt:25-48 | The bounded layout from position 0 at offset 0 is a prefix of laying out every item |
| Geometry.TiledShape | layoutmanager/src/main/java/com/julis/layoutmanager/series/MostSimpleLayoutManager.kt:34-52 | Laying out every item attaches positions 0..count-1, adjacent, from offset 0, and the last child ends at the sum of all heights |
| Geometry.OffsetVerticalShape | layoutmanager/src/main/java/com/julis/layoutmanager/series/LinearLayoutManager2.kt:92-96 | A vertical offset moves every top by the delta. It keeps positions, horizontal bounds and heights, and so keeps contiguity and adjacency in both directions |
| Geometry.OffsetHorizontalShape | layoutmanager/src/main/java/com/julis/layoutmanager/series/LinearLayoutManager2.kt:80-86 | A horizontal offset moves every left by the delta. It keeps positions, vertical bounds and widths, and so keeps contiguity and adjacency in both directions |
| Geometry.OffsetRoundTrip | layoutmanager/src/main/java/com/julis/layoutmanager/series/LinearLayoutManager1.kt:54-72 | Scrolling by d and then by -d, vertically or horizontally, restores every child |
| Geometry.InvisibleAboveUnique | layoutmanager/src/main/java/com/julis/layoutmanager/series/LinearLayoutManager2.kt:110-121 | The scan from the top removes exactly the longest prefix of children above the viewport: any prefix of invisible children that is followed by a visible one is that prefix |
| Geometry.InvisibleBelowUnique | layoutmanager/src/main/java/com/julis/layoutmanager/series/LinearLayoutManager2.kt:122-135 | The scan from the bottom removes exactly the longest suffix of children below the viewport |
| Geometry.RecycledSpec | layoutmanager/src/main/java/com/julis/layoutmanager/series/LinearLayoutManager2.kt:104-144 | Recycling keeps a suffix (scrolling down) or a prefix (scrolling up) of the children, possibly none. Every removed child is invisible and the first kept child at the scanned edge is visible. Nothing is removed when dy is 0 |
| Geometry.RecycledKeepsShape | layoutmanager/src/main/java/com/julis/layoutmanager/series/LinearLayoutManager2.kt:104-144 | The survivors of recycling are contiguous, and adjacent, whenever the children were |
| Geometry.ShiftThenRecycle | layoutmanager/src/main/java/com/julis/layoutmanager/series/LinearLayoutManager2.kt:92-96 | Moving then recycling keeps a run of the children, each moved by exactly the delta: a suffix when scrolling down, a prefix otherwise. It keeps positions contiguous |
| Geometry.AppendKeepsShape | layoutmanager/src/main/java/com/julis/layoutmanager/series/LinearLayoutManager6.kt:155-183 | Appending a forward fill after the last child keeps the old children in front and keeps contiguity. It keeps adjacency when the fill starts at the last child's bottom |
| Geometry.PrependKeepsContiguous | layoutmanager/src/main/java/com/julis/layoutmanager/series/LinearLayoutManager6.kt:155-183 | Inserting an upward fill before the first child keeps the old children at the end and keeps contiguity |
| Geometry.AppendedRun | layoutmanager/src/main/java/com/julis/layoutmanager/series/LinearLayoutManager6.kt:155-183 | The children a downward fill appends take the positions after the last child, each with its item's size, at the anchor's left, the first at the start offset and each at the previous bottom, all placed while space remained |
| Geometry.PrependedRun | layoutmanager/src/main/java/com/julis/layoutmanager/series/LinearLayoutManager6.kt:155-183 | The children an upward fill inserts take the positions just before the first child, each with its item's size, at the anchor's left, the last at the start offset, and each sitting above the next by the next one's height, all placed while space remained |
| Geometry.ForwardFill | layoutmanager/src/main/java/com/julis/layoutmanager/series/LinearLayoutManager6.kt:102-183 | Filling below the last child from its bottom, into the gap down to the viewport's bottom, satisfies ForwardFilled. The old children stay in front. Each new child takes the next position, has its item's size, sits at the anchor's left and at the previous bottom, and starts inside the viewport. Something is appended whenever the last child ends above the viewport's bottom and a next item exists, and the fill stops only at the viewport's bottom or after the last item. Contiguity and adjacency are kept |
| Geometry.BackwardFill | layoutmanager/src/main/java/com/julis/layoutmanager/series/LinearLayoutManager6.kt:132-183 | Filling above the first child from anchor top minus anchor height, into the gap up to the viewport's top, satisfies BackwardFilled. The old children stay at the end, and something is inserted whenever the first child starts below the viewport's top and it is not item 0. Each new child takes the preceding position, has its item's size and sits at the anchor's left. The one next to the anchor starts at anchor top minus anchor height, and each further one sits above the next by the next one's height. Every new child is placed while space remains, and the fill stops only at item 0 or once the gap is used up. Contiguity is kept, and the new neighbour touches the anchor if and only if both are equally tall |
| Sweep.LayoutRun | layoutmanager/src/main/java/com/julis/layoutmanager/series/LinearLayoutManager6.kt:49-65 | The layout loop produces exactly the forward stack from the start position at offset 0 and left 0 |
| Sweep.TileRun | layoutmanager/src/main/java/com/julis/layoutmanager/series/MostSimpleLayoutManager.kt:38-51 | The `for` loop over every item produces exactly the tiling of all items |
| Sweep.FillRun | layoutmanager/src/main/java/com/julis/layoutmanager/series/LinearLayoutManager6.kt:155-183 | The fill loop appends the forward stack when scrolling down, and otherwise inserts the backward stack in front |
| Sweep.RecycleInvisible | layoutmanager/src/main/java/com/julis/layoutmanager/series/LinearLayoutManager6.kt:193-232 | The two scans with their literal tests keep exactly the recycled children |
| MostSimple.MostSimpleLayoutManager.OnLayoutChildren | layoutmanager/src/main/java/com/julis/layoutmanager/series/MostSimpleLayoutManager.kt:34-52 | The new child list is the old one followed by the tiling of every item |
| MostSimple.MostSimpleLayoutManager.ScrollHorizontallyBy | layoutmanager/src/main/java/com/julis/layoutmanager/series/MostSimpleLayoutManager.kt:67-73 | Every child moves left by dx, and dx is returned |
| MostSimple.MostSimpleLayoutManager.ScrollVerticallyBy | layoutmanager/src/main/java/com/julis/layoutmanager/series/MostSimpleLayoutManager.kt:88-94 | Every child moves up by dy, and dy is returned |
| MostSimple.LayoutAttachesEveryItem | layoutmanager/src/main/java/com/julis/layoutmanager/series/MostSimpleLayoutManager.kt:34-52 | A layout from no children attaches positions 0..count-1. Child i spans from the sum of the earlier heights to that sum plus its own height, at [0, width). The children are adjacent, and no items give no children |
| MostSimple.ScrolledLayoutKeepsTiling | layoutmanager/src/main/java/com/julis/layoutmanager/series/MostSimpleLayoutManager.kt:34-94 | After a layout from no children and a vertical scroll by dy, every item is still attached, positions 0..count-1 in order, adjacent, the first child's top at -dy and the last child's bottom at the sum of all heights minus dy |
| Linear1.LinearLayoutManager1.OnLayoutChildren | layoutmanager/src/main/java/com/julis/layoutmanager/series/LinearLayoutManager1.kt:25-48 | The new child list is the old one followed by the stack bounded by height - paddingTop |
| Linear1.LinearLayoutManager1.ScrollHorizontallyBy | layoutmanager/src/main/java/com/julis/layoutmanager/series/LinearLayoutManager1.kt:54-60 | Every child moves left by dx, and dx is returned |
| Linear1.LinearLayoutManager1.ScrollVerticallyBy | layoutmanager/src/main/java/com/julis/layoutmanager/series/LinearLayoutManager1.kt:66-72 | Every child moves up by dy, and dy is returned |
| Linear1.BoundedLayout | layoutmanager/src/main/java/com/julis/layoutmanager/series/LinearLayoutManager1.kt:25-48 | The layout attaches positions from 0 at offset 0, adjacent, at left 0. Every child but the last ends above the bound. The loop stops only at the bound or after the last item, and a non-positive bound attaches nothing |
| Linear2.LinearLayoutManager2.OnLayoutChildren | layoutmanager/src/main/java/com/julis/layoutmanager/series/LinearLayoutManager2.kt:42-74 | After detaching, the child list is exactly the stack from position 0 bounded by the viewport |
| Linear2.LinearLayoutManager2.ScrollHorizontallyBy | layoutmanager/src/main/java/com/julis/layoutmanager/series/LinearLayoutManager2.kt:80-86 | Every child moves left by dx, and dx is returned |
| Linear2.LinearLayoutManager2.ScrollVerticallyBy | layoutmanager/src/main/java/com/julis/layoutmanager/series/LinearLayoutManager2.kt:92-96 | The children are moved up by dy and then recycled, and dy is returned |
| Linear2.LinearLayoutManager2.RecycleInvisibleView | layoutmanager/src/main/java/com/julis/layoutmanager/series/LinearLayoutManager2.kt:104-144 | The child list becomes the recycled children: by Geometry.RecycledSpec, scrolling down removes exactly the leading children with bottom <= 0, scrolling up exactly the trailing children with top >= totalSpace, and a zero scroll removes nothing |
| Linear2.LayoutFillsViewport | layoutmanager/src/main/java/com/julis/layoutmanager/series/LinearLayoutManager2.kt:42-74 | The initial layout is contiguous from position 0 at offset 0 and adjacent, with every child starting inside the viewport. It stops at the viewport's bottom or after the last item, and a viewport of no height gets nothing |
| Linear2.ScrollNeverAdds | layoutmanager/src/main/java/com/julis/layoutmanager/series/LinearLayoutManager2.kt:92-96 | A vertical scroll never adds a child. The survivors are a run of the old children, each moved up by exactly dy, and contiguity is kept |
| MyLinear.MyLinearLayoutManager.OnLayoutChildren | layoutmanager/src/main/java/com/julis/layoutmanager/MyLinearLayoutManager.kt:43-75 | After detaching, the child list is exactly the stack from position 0 bounded by the viewport |
| MyLinear.MyLinearLayoutManager.ScrollVerticallyBy | layoutmanager/src/main/java/com/julis/layoutmanager/MyLinearLayoutManager.kt:86-94 | The children become the scroll outcome (fill, move by -dy, recycle), and dy is returned unchanged |
| MyLinear.MyLinearLayoutManager.FillView | layoutmanager/src/main/java/com/julis/layoutmanager/MyLinearLayoutManager.kt:101-173 | The early returns and the fill loop together give the fill outcome |
| MyLinear.MyLinearLayoutManager.RecycleInvisibleView | layoutmanager/src/main/java/com/julis/layoutmanager/MyLinearLayoutManager.kt:181-221 | The child list becomes the recycled children |
| MyLinear.FillNoOpCases | layoutmanager/src/main/java/com/julis/layoutmanager/MyLinearLayoutManager.kt:110-139 | Filling changes nothing with no children or dy = 0. It also changes nothing when scrolling down with the last child below the viewport's bottom or at the last item, and when scrolling up with the first child above the top or at item 0 |
| MyLinear.ForwardFillAppends | layoutmanager/src/main/java/com/julis/layoutmanager/MyLinearLayoutManager.kt:110-172 | Scrolling down with room below a last child that is not the last item fills as ForwardFilled states. The old children stay in front. Each new child takes the next position, has its item's size, sits at the anchor's left and at the previous bottom, and starts inside the viewport. Something is appended whenever the last child ends above the viewport's bottom and a next item exists, and the fill stops only at the viewport's bottom or after the last item. Contiguity and adjacency are kept |
| MyLinear.BackwardFillPrepends | layoutmanager/src/main/java/com/julis/layoutmanager/MyLinearLayoutManager.kt:125-172 | Scrolling up with room above a first child that is not item 0 fills as BackwardFilled states. The old children stay at the end, and something is inserted whenever the first child starts below the viewport's top and it is not item 0. Each new child takes the preceding position, has its item's size and sits at the anchor's left. The one next to the anchor starts at anchor top minus anchor height, and each further one sits above the next by the next one's height. Every new child is placed while space remains, and the fill stops only at item 0 or once the gap is used up. Contiguity is kept, and the new neighbour touches the anchor if and only if both are equally tall |
| MyLinear.FillKeepsContiguous | layoutmanager/src/main/java/com/julis/layoutmanager/MyLinearLayoutManager.kt:101-173 | fillView keeps positions contiguous |
| MyLinear.ZeroScrollChangesNothing | layoutmanager/src/main/java/com/julis/layoutmanager/MyLinearLayoutManager.kt:86-94 | A scroll by 0 changes no child |
| MyLinear.ScrollShiftsByDy | layoutmanager/src/main/java/com/julis/layoutmanager/MyLinearLayoutManager.kt:86-94 | Every surviving child is a filled child moved up by exactly dy, because there is no clamp. The survivors are a run of the filled children, and contiguity is kept |
| Linear6.LinearLayoutManager6.constructor | layoutmanager/src/main/java/com/julis/layoutmanager/series/LinearLayoutManager6.kt:19 | A new manager has no children and no pending position |
| Linear6.LinearLayoutManager6.OnLayoutChildren | layoutmanager/src/main/java/com/julis/layoutmanager/series/LinearLayoutManager6.kt:31-66 | After detaching, the child list is the stack from the pending position, or from 0 when there is none, bounded by the viewport. The pending position is kept |
| Linear6.LinearLayoutManager6.ScrollVerticallyBy | layoutmanager/src/main/java/com/julis/layoutmanager/series/LinearLayoutManager6.kt:77-86 | The children and the returned delta are the scroll outcome: fill, move by the adjusted delta, recycle with it |
| Linear6.LinearLayoutManager6.FillView | layoutmanager/src/main/java/com/julis/layoutmanager/series/LinearLayoutManager6.kt:93-185 | The early returns, the two clamps and the fill loop together give the fill outcome and the adjusted delta |
| Linear6.LinearLayoutManager6.RecycleInvisibleView | layoutmanager/src/main/java/com/julis/layoutmanager/series/LinearLayoutManager6.kt:193-232 | The child list becomes the recycled children |
| Linear6.LinearLayoutManager6.ScrollToPosition | layoutmanager/src/main/java/com/julis/layoutmanager/series/LinearLayoutManager6.kt:234-241 | A position in [0, itemCount) becomes the pending position, and any other position leaves it unchanged. The pending position stays NO_POSITION or non-negative |
| Linear6.LayoutFromStart | layoutmanager/src/main/java/com/julis/layoutmanager/series/LinearLayoutManager6.kt:31-66 | The layout attaches consecutive positions from the start position at offset 0, adjacent, at left 0. A valid start in a non-empty viewport becomes the first child, and a start past the last item attaches nothing |
| Linear6.FillNoOpCases | layoutmanager/src/main/java/com/julis/layoutmanager/series/LinearLayoutManager6.kt:102-141 | With no children, dy = 0, the last child below the bottom when scrolling down, or the first child above the top when scrolling up, fillView changes nothing and returns dy |
| Linear6.ForwardClamp | layoutmanager/src/main/java/com/julis/layoutmanager/series/LinearLayoutManager6.kt:113-130 | At the last item, inside the viewport, fillView returns bottom - totalSpace whatever dy is. When that child has positive height, the scroll then puts its bottom exactly on the viewport's bottom and recycles nothing |
| Linear6.BackwardClamp | layoutmanager/src/main/java/com/julis/layoutmanager/series/LinearLayoutManager6.kt:145-149 | At item 0, inside the viewport, fillView returns the first child's top whatever dy is. When that child has positive height, the scroll then puts its top exactly on the viewport's top and recycles nothing |
| Linear6.ForwardFillAppends | layoutmanager/src/main/java/com/julis/layoutmanager/series/LinearLayoutManager6.kt:102-183 | Scrolling down with room below a last child that is not the last item returns dy and fills as ForwardFilled states. The old children stay in front. Each new child takes the next position, has its item's size, sits at the anchor's left and at the previous bottom, and starts inside the viewport. Something is appended whenever the last child ends above the viewport's bottom and a next item exists, and the fill stops only at the viewport's bottom or after the last item. Contiguity and adjacency are kept |
| Linear6.BackwardFillPrepends | layoutmanager/src/main/java/com/julis/layoutmanager/series/LinearLayoutManager6.kt:132-183 | Scrolling up with room above a first child that is not item 0 returns dy and fills as BackwardFilled states. The old children stay at the end, and something is inserted whenever the first child starts below the viewport's top and it is not item 0. Each new child takes the preceding position, has its item's size and sits at the anchor's left. The one next to the anchor starts at anchor top minus anchor height, and each further one sits above the next by the next one's height. Every new child is placed while space remains, and the fill stops only at item 0 or once the gap is used up. Contiguity is kept, and the new neighbour touches the anchor if and only if both are equally tall |
| Linear6.FillKeepsContiguous | layoutmanager/src/main/java/com/julis/layoutmanager/series/LinearLayoutManager6.kt:93-185 | fillView keeps positions contiguous |
| Linear6.ScrollKeepsContiguous | layoutmanager/src/main/java/com/julis/layoutmanager/series/LinearLayoutManager6.kt:77-86 | A scroll keeps positions contiguous, and the returned delta is dy or one of the two clamps |
| Linear6.JumpThenRelayout | layoutmanager/src/main/java/com/julis/layoutmanager/series/LinearLayoutManager6.kt:234-241 | After scrollToPosition(p) and a layout, then any scroll and another layout, item p is the first child at offset 0, because the pending position is never cleared |
| Linear6.UniformScenario | layoutmanager/src/main/java/com/julis/layoutmanager/series/LinearLayoutManager6.kt:77-185 | 50 items 100 high in a 450 viewport lay out items 0..4. A scroll by 150 leaves items 1..4 with item 1 at -50, and a scroll by 100000 recycles every child |
| Linear6.ShortListMovesToBottom | layoutmanager/src/main/java/com/julis/layoutmanager/series/LinearLayoutManager6.kt:113-130 | Two items 100 high in a 450 viewport, scrolled down by 10, return -250 and end at [250, 450) |
| Linear6.BackwardFillLeavesGap | layoutmanager/src/main/java/com/julis/layoutmanager/series/LinearLayoutManager6.kt:132-183 | Under a 300-high anchor at top 20, scrolling up by 10 places the 100-high item 4 at [-270, -170), which leaves [0, 30) of the viewport empty |

## Left out

- The Android framework's own state is not modelled. This covers the scrap heap and `detachAndScrapAttachedViews` (modelled only as emptying the child list), the `RecyclerPool`, `getViewForPosition`, `addView`, `measureChildWithMargins` and `removeAndRecycleView`. The decorated measured width and height of every item are taken as inputs.
- `OrientationHelper.totalSpace`, `height` and `paddingTop` are parameters of the methods.
- The anchor's height in the upward fill is its decorated measured height in the source. The model takes the anchor child's extent, `bottom - top`, which is the same for a laid-out child.
- `requestLayout` and `super.scrollToPosition` are calls into the framework and are left out. The relayout they trigger is modelled as an explicit `OnLayoutChildren` call.
- `Log` calls, `canScrollHorizontally`, `canScrollVertically`, `isAutoMeasureEnabled` and `generateDefaultLayoutParams` are left out. They only return constants or print.
- The hosting activity (`LayoutManagerActivity.kt`) is not part of this model. The other managers of the series, and smooth scrolling, are not part of this model either.
- Kotlin `Int` is 32 bits. The model uses unbounded integers, so it does not capture overflow of offsets, or `abs(Int.MIN_VALUE)` staying negative.
- The source collects the recycled views in a `HashSet` and removes them in its iteration order. The model states which children are removed, not the order of removal.

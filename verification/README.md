# Flow layout and commit-graph lane view

A Dafny model of two custom Android views of the Pocket Git client.

- **`FlowLayout`** is a view group that places its children left to right and wraps
  onto a new line when a child no longer fits.
  - Its measure pass packs the measured children greedily into rows. Each row is a
    `RowMeasurement`, an accumulator of running width and height.
  - The measure pass then reports the content size, or the parent's exact size.
  - Its layout pass hands every child a frame.
- **`PlotLaneView`** draws one row of a commit graph:
  - the edges from the commit's node to its child lanes and to its parent lanes;
  - one vertical line for every lane passing through the row;
  - the node circle on top.
  - Every lane is coloured from a five-entry palette.

The model is split into these modules:

| module | file | what it holds |
|---|---|---|
| `FlowRow` | `flow_row.dfy` | `RowMeasurement`: the row accumulator, plus reference definitions of a row's width and height from its children |
| `FlowPack` | `flow_pack.dfy` | The row-building loop of `onMeasure`, as a left fold over the children |
| `FlowMeasure` | `flow_measure.dfy` | Child measure specs, the content-size loop, and the reported size |
| `FlowPlace` | `flow_place.dfy` | `onLayout` as written, and a corrected placement that stacks the measured rows |
| `LanePalette` | `lane_palette.dfy` | The palette, and the lookup `COLORS[lane % 5]` with Kotlin's `%` |
| `LaneView` | `lane_view.dfy` | The view's lane state, its mutators, and `onDraw` as a sequence of drawing operations |
| `Outcomes` | `outcomes.dfy` | A result type. The source's array-index failures are modelled as values of this type. |

Some behaviour depends on things the model cannot see. It enters the model as a parameter instead:

- **`view.measure`** of each child is a function parameter `measure(i, widthSpec, heightSpec)`. It gives the size the i-th child reports, so each child answers for itself.
- **The passing set's iteration order.** The source keeps the passing set in a `HashSet`. The model takes its iteration order as a sequence `order`, which must list the set's members exactly once each.
- **Coordinates** are symbolic:
  - an x coordinate is the lane whose centre it is;
  - a y coordinate is the top, the middle or the bottom of the row.

  `CenterXDpIncreasing` shows that this loses no ordering information.

## Model

| member | source | states |
|---|---|---|
| `FlowRow.AddChild` | app/src/main/java/com/moki/pocketgit/widgets/FlowLayout.kt:126-133 | The child joins the end of the row. The height becomes the larger of the old height and the child's height. The width, computed by `FlowRow.NewWidth` (`getNewWidth`), becomes the child's width when the running width is 0, and otherwise the old width plus the spacing plus the child's width. |
| `FlowRow.AddChildConsistent` | app/src/main/java/com/moki/pocketgit/widgets/FlowLayout.kt:121-133 | Adding a child keeps the running width and height of a row equal to the width and height its children alone determine. |
| `FlowRow.ZeroWidthFirstChildSkipsSpacing` | app/src/main/java/com/moki/pocketgit/widgets/FlowLayout.kt:126-128 | A first child of width 0 leaves the running width at 0. The next child then joins without a spacing gap. |
| `FlowRow.ItemsWidthClosedForm` | app/src/main/java/com/moki/pocketgit/widgets/FlowLayout.kt:126-131 | Take a non-empty row whose child widths are all positive, with non-negative spacing. Its width is the sum of the child widths plus one spacing between each pair of neighbours, and it is positive. |
| `FlowRow.ItemsHeightTallest` | app/src/main/java/com/moki/pocketgit/widgets/FlowLayout.kt:121-132 | A row's height is at least every child's height. It equals one child's height, unless it is the initial 0. |
| `FlowPack.PackStep` | app/src/main/java/com/moki/pocketgit/widgets/FlowLayout.kt:92-96 | One loop iteration adds at most one row. It leaves every row before the current one untouched. |
| `FlowPack.Pack` | app/src/main/java/com/moki/pocketgit/widgets/FlowLayout.kt:81-97 | The loop yields at least one row, the initial one, and at most one row more than there are children. |
| `FlowPack.PackPartition` | app/src/main/java/com/moki/pocketgit/widgets/FlowLayout.kt:81-97 | The rows' children, concatenated in row order, give back the children in input order. Every child lands in exactly one row. |
| `FlowPack.PackConsistent` | app/src/main/java/com/moki/pocketgit/widgets/FlowLayout.kt:82-96 | Every row's width and height are exactly what its own children determine. |
| `FlowPack.PackUnbounded` | app/src/main/java/com/moki/pocketgit/widgets/FlowLayout.kt:135-137 | With width mode 0 (unspecified) nothing wraps. There is one row, holding all children, with the width and height they determine. |
| `FlowPack.PackRowWidthBound` | app/src/main/java/com/moki/pocketgit/widgets/FlowLayout.kt:92-96 | In a wrapping mode, every row with two or more children fits within the usable width. |
| `FlowPack.PackOversizedRowIsSingle` | app/src/main/java/com/moki/pocketgit/widgets/FlowLayout.kt:92-96 | In a wrapping mode with a non-negative usable width, a row wider than the usable width holds exactly one child. |
| `FlowPack.PackLaterRowsNonEmpty` | app/src/main/java/com/moki/pocketgit/widgets/FlowLayout.kt:92-96 | Every row after the first holds at least one child. |
| `FlowPack.PackFirstRowEmpty` | app/src/main/java/com/moki/pocketgit/widgets/FlowLayout.kt:82-96 | The first row is empty exactly when there are no children, or when the mode wraps and the first child alone is wider than the usable width. |
| `FlowPack.PackLengthMonotone` | app/src/main/java/com/moki/pocketgit/widgets/FlowLayout.kt:84-97 | Handling more children never removes a row. |
| `FlowPack.PackOpensRow` | app/src/main/java/com/moki/pocketgit/widgets/FlowLayout.kt:92-95 | A child adds a row exactly when the current row cannot take it, i.e. when `FlowRow.WouldExceedMax` (`wouldExceedMax`) holds for it. |
| `FlowPack.OversizedLoneChildTwoRows` | app/src/main/java/com/moki/pocketgit/widgets/FlowLayout.kt:82-96 | In a wrapping mode, a lone child wider than the usable width gives two rows: the initial row stays empty and the child fills the second. So the packing does not always use the fewest rows. |
| `FlowPack.PackFullWidth` | app/src/main/java/com/moki/pocketgit/widgets/FlowLayout.kt:92-96 | In a wrapping mode with a spacing that is not negative, one or more children exactly as wide as a positive usable width each fill a row of their own. |
| `FlowMeasure.ChildMeasureSpec` | app/src/main/java/com/moki/pocketgit/widgets/FlowLayout.kt:66-73 | Request 1 gives the parent's size, exactly. Request 2 gives the parent's size as an upper bound, or unspecified when the parent's mode is 0. Any other request gives its own value, exactly. The mode is always one of the three. |
| `FlowMeasure.MeasureChildren` | app/src/main/java/com/moki/pocketgit/widgets/FlowLayout.kt:84-91 | One size per child. Child i's size is what child i's own `measure` reports when offered the specs built from its width and height requests and the parent's usable size and modes. |
| `FlowMeasure.WrapContentChildrenKeepOwnSizes` | app/src/main/java/com/moki/pocketgit/widgets/FlowLayout.kt:84-91 | Two children with the same `wrap_content` params that measure themselves 30 and 80 wide keep the widths 30 and 80 in the sizes the packing receives. |
| `FlowMeasure.MaxWidthWidest` | app/src/main/java/com/moki/pocketgit/widgets/FlowLayout.kt:99-108 | The content width is at least every row's width. It is the width of one row, unless it is the initial 0. |
| `FlowMeasure.MeasureContent` | app/src/main/java/com/moki/pocketgit/widgets/FlowLayout.kt:99-108 | The size loop, run over exactly the rows there are. The content height is the rows' heights plus one vertical spacing between neighbouring rows. The content width is the widest row (at least 0, and attained). |
| `FlowMeasure.ContentLoopAsWrittenOverruns` | app/src/main/java/com/moki/pocketgit/widgets/FlowLayout.kt:101-108 | The loop as written (`FlowMeasure.ContentLoopAsWritten`), started at any row, ends by reading index `rows.size`. |
| `FlowMeasure.ContentSizeAsWrittenOverruns` | app/src/main/java/com/moki/pocketgit/widgets/FlowLayout.kt:101-102 | The size loop as written (`FlowMeasure.ContentSizeAsWritten`) fails with an index out of bounds at `rows.size`, whatever the rows. |
| `FlowMeasure.OversizedLoneChildExtraSpacing` | app/src/main/java/com/moki/pocketgit/widgets/FlowLayout.kt:99-108 | For that lone oversized child the content height is the child's height (at least 0) plus one vertical spacing, which the empty leading row costs. |
| `FlowMeasure.ReportedSize` | app/src/main/java/com/moki/pocketgit/widgets/FlowLayout.kt:109-112 | Under an exact mode the reported size is the spec's size. Under any other mode it is the padding plus the content size. |
| `FlowMeasure.OnMeasure` | app/src/main/java/com/moki/pocketgit/widgets/FlowLayout.kt:76-113 | The rows kept for layout are the packing of the children, each child measured by its own `measure` with the specs built from its layout params and the usable size. The rows partition those children. Under an exact mode the reported size is the spec's size; otherwise it is the padding plus the content size. The content size is that of the corrected size loop (`FlowMeasure.MaxWidth` and `FlowMeasure.ContentHeight`, as `MeasureContent` computes them), not that of lines 101-108 as written, which always fail. |
| `FlowMeasure.OnMeasureUnboundedWidth` | app/src/main/java/com/moki/pocketgit/widgets/FlowLayout.kt:109-110 | With an unspecified width there is a single row. The reported width is the horizontal padding plus that row's width (at least 0). |
| `FlowPlace.LayoutStep` | app/src/main/java/com/moki/pocketgit/widgets/FlowLayout.kt:46-62 | A frame has the child's measured size. On a wrap the frame starts at the left padding, at y equal to the current row's height plus the vertical spacing, and the row index moves exactly one row forward if there is a next row, and stays if there is not. Otherwise the frame starts at the running position and the row stays. The running x moves one spacing past the frame. |
| `FlowPlace.LayoutCursor` | app/src/main/java/com/moki/pocketgit/widgets/FlowLayout.kt:39-63 | One frame per child. The running position starts at the top-left padding corner and follows the last frame. The row index stays within the measured rows. |
| `FlowPlace.LayoutPrefix` | app/src/main/java/com/moki/pocketgit/widgets/FlowLayout.kt:46-63 | The frames of a prefix of the children are a prefix of the frames. |
| `FlowPlace.LayoutFrames` | app/src/main/java/com/moki/pocketgit/widgets/FlowLayout.kt:46-63 | Each frame of `FlowPlace.Layout` (the frames `onLayout` hands out) relates to the one before it. It has the child's size. A wrapped frame starts at the left padding. A frame that is not wrapped sits one spacing after its predecessor, on the same line. |
| `FlowPlace.LayoutWrapsMatchPack` | app/src/main/java/com/moki/pocketgit/widgets/FlowLayout.kt:45-53 | Suppose both passes use the same usable width and spacing, the horizontal spacing is not negative, the mode wraps, and every child is wider than 0. Then `onLayout` wraps before exactly the children that opened a row in `onMeasure`, and its row iterator stands on the measured row. |
| `FlowPlace.ExactWidthLayoutMatchesMeasure` | app/src/main/java/com/moki/pocketgit/widgets/FlowLayout.kt:40-49 | After a measure pass under an exact width, the layout pass sees the same usable width. With positive child widths and a horizontal spacing that is not negative, it therefore wraps exactly where the measure pass opened rows. |
| `FlowPlace.LayoutThreeFullWidth` | app/src/main/java/com/moki/pocketgit/widgets/FlowLayout.kt:49-53 | With a measured width of 10, no left, top or right padding, no horizontal spacing, a vertical spacing of 5 and three measured rows of which the first two are 10 high, three 10-by-10 children are placed so that the second and the third both get the frame (0, 15, 10, 25). |
| `FlowPlace.LayoutOverlapsThirdRow` | app/src/main/java/com/moki/pocketgit/widgets/FlowLayout.kt:51 | Three children as wide as an exact width of 10 make three measured rows, yet the layout pass puts children 2 and 3 on the same frame. The layout pass reaches these rows only once the size loop at line 101 is corrected. |
| `FlowPlace.PlaceRow` | app/src/main/java/com/moki/pocketgit/widgets/FlowLayout.kt:56-62 | One frame per child of the row. All frames lie on the row's line, starting at the row's top. Each frame has its child's size and starts one spacing after the previous frame. |
| `FlowPlace.PlaceRows` | app/src/main/java/com/moki/pocketgit/widgets/FlowLayout.kt:45-63 | Corrected placement: one line of frames per measured row, each holding that row's children in order, laid out as `PlaceRow` says. Every frame of row k starts at that row's top in `FlowPlace.RowTops`: the first row at the top padding, each next row lower by the previous row's height plus the vertical spacing. |
| `FlowPlace.RowTopsIncrease` | app/src/main/java/com/moki/pocketgit/widgets/FlowLayout.kt:51 | With the row top accumulated, a vertical spacing that is not negative and no row of negative height, an earlier row ends no lower than a later row starts. |
| `FlowPlace.RowTopsClosedForm` | app/src/main/java/com/moki/pocketgit/widgets/FlowLayout.kt:51 | With the row top accumulated, row k starts at the top padding plus the heights of the k rows above it plus k vertical spacings. |
| `FlowPlace.RowTopsSpanContent` | app/src/main/java/com/moki/pocketgit/widgets/FlowLayout.kt:99-108 | The last stacked row ends at the top padding plus the content height the measure pass reports, so the corrected placement fills exactly the measured height. |
| `FlowPlace.MeasuredRowsHoldItems` | app/src/main/java/com/moki/pocketgit/widgets/FlowLayout.kt:121-133 | Every row of a measure pass has a height that is not negative and at least that of each of its children. |
| `FlowPlace.PlaceRowsClosedFormTops` | app/src/main/java/com/moki/pocketgit/widgets/FlowLayout.kt:45-63 | Under the corrected placement, every frame of row k starts at the top padding plus the heights of the rows above plus k vertical spacings. |
| `FlowPlace.PlaceRowsStacked` | app/src/main/java/com/moki/pocketgit/widgets/FlowLayout.kt:45-63 | Suppose the vertical spacing is not negative, and every row has a height that is not negative and at least that of each of its children. Then under the corrected placement no frame starts above the top padding, and every frame of a row ends no lower than any frame of a later row starts: rows never overlap. |
| `FlowPlace.PlaceMeasuredRows` | app/src/main/java/com/moki/pocketgit/widgets/FlowLayout.kt:81-97 | The corrected placement of the rows of a measure pass places every child once and in input order. Row k's frames start at the top padding plus the heights of the rows above plus k vertical spacings. With a vertical spacing that is not negative, no two rows overlap. |
| `LanePalette.LaneColor` | app/src/main/java/com/moki/pocketgit/widgets/PlotLaneView.kt:22-28 | A non-negative lane's colour is one of the five palette colours. |
| `LanePalette.LaneColorPeriodic` | app/src/main/java/com/moki/pocketgit/widgets/PlotLaneView.kt:44 | Lanes that are a multiple of five apart share a colour. |
| `LanePalette.LaneColorDistinctWithinCycle` | app/src/main/java/com/moki/pocketgit/widgets/PlotLaneView.kt:22-28 | Two different lanes fewer than five apart have different colours. |
| `LanePalette.SameColorTwoAndSeven` | app/src/main/java/com/moki/pocketgit/widgets/PlotLaneView.kt:44 | Lanes 2 and 7 are both drawn green (#669900). |
| `LanePalette.TruncatedRem` | app/src/main/java/com/moki/pocketgit/widgets/PlotLaneView.kt:44 | Kotlin's `%`: for a non-negative dividend, the usual remainder. For a negative dividend, a value in (-5, 0], and 0 exactly when the dividend is a multiple of 5. |
| `LanePalette.PaletteLookup` | app/src/main/java/com/moki/pocketgit/widgets/PlotLaneView.kt:44 | `COLORS[lane % 5]` returns the lane's colour for a non-negative lane. It fails with an index out of bounds exactly for the negative lanes that are not multiples of 5. |
| `LaneView.CenterXDpIncreasing` | app/src/main/java/com/moki/pocketgit/widgets/PlotLaneView.kt:36-37 | Lane centres `(lane + 1) * RADIUS * 2` are strictly increasing, at least one diameter apart. |
| `LaneView.SetLane` | app/src/main/java/com/moki/pocketgit/widgets/PlotLaneView.kt:85-87 | Sets the lane. Nothing else changes. |
| `LaneView.AddChildLane` | app/src/main/java/com/moki/pocketgit/widgets/PlotLaneView.kt:89-91 | The new child lane goes to the front of the child list, ahead of the old list. Nothing else changes. |
| `LaneView.AddParentLane` | app/src/main/java/com/moki/pocketgit/widgets/PlotLaneView.kt:93-95 | The new parent lane goes to the front of the parent list, ahead of the old list. Nothing else changes. |
| `LaneView.ClearLanes` | app/src/main/java/com/moki/pocketgit/widgets/PlotLaneView.kt:97-100 | Both edge lists become empty. The lane and the passing set stay. |
| `LaneView.SetPassing` | app/src/main/java/com/moki/pocketgit/widgets/PlotLaneView.kt:102-105 | A lane is passing exactly when it is among the given positions. The previous set is forgotten. The set has at most as many lanes as there are positions. Nothing else changes. |
| `LaneView.AddChildLanesMostRecentFirst` | app/src/main/java/com/moki/pocketgit/widgets/PlotLaneView.kt:89-91 | After a series of `addChildLane` calls the child list holds the added lanes most recent first, ahead of the earlier lanes. Nothing else changes. |
| `LaneView.AddParentLanesMostRecentFirst` | app/src/main/java/com/moki/pocketgit/widgets/PlotLaneView.kt:93-95 | The same for `addParentLane` and the parent list. |
| `LaneView.Render` | app/src/main/java/com/moki/pocketgit/widgets/PlotLaneView.kt:32-83 | `onDraw` draws one operation per child edge, parent edge and passing lane, plus the node circle, drawn last in the node lane's colour. |
| `LaneView.RenderChildEdge` | app/src/main/java/com/moki/pocketgit/widgets/PlotLaneView.kt:39-56 | The i-th operation is a line from the node (own lane, middle) to the top of the row, through the lane `LaneView.Effective` picks. It ends at the i-th child lane in that lane's colour. If that lane is passing through the row, it ends at the node's own lane in the node's colour instead. |
| `LaneView.RenderParentEdge` | app/src/main/java/com/moki/pocketgit/widgets/PlotLaneView.kt:57-74 | After the child edges come the parent edges, in list order, ending at the bottom of the row, with the same substitution for passing lanes. |
| `LaneView.RenderPassingSection` | app/src/main/java/com/moki/pocketgit/widgets/PlotLaneView.kt:75-80 | Between the edges and the circle, every operation is a top-to-bottom line down a passing lane in that lane's colour, and every passing lane is drawn. |
| `LaneView.RenderLinesBeforeCircle` | app/src/main/java/com/moki/pocketgit/widgets/PlotLaneView.kt:39-80 | Every operation before the circle is a line. |
| `LaneView.PassingLinesPermute` | app/src/main/java/com/moki/pocketgit/widgets/PlotLaneView.kt:75-80 | Any two iteration orders of the passing set draw the same passing lines, each exactly once (as a multiset). |
| `LaneView.RenderOrderIrrelevant` | app/src/main/java/com/moki/pocketgit/widgets/PlotLaneView.kt:75-82 | The passing set's iteration order changes neither the edges nor the circle, nor which operations are drawn (as a multiset). |
| `LaneView.RenderDrawsNewestChildFirst` | app/src/main/java/com/moki/pocketgit/widgets/PlotLaneView.kt:39-56 | After `clearLanes` and a series of `addChildLane` calls, the i-th child edge goes to the lane added i calls before the last, after substitution. |
| `LaneView.RenderInitial` | app/src/main/java/com/moki/pocketgit/widgets/PlotLaneView.kt:14-18 | A freshly constructed view (lane 0, no edges, nothing passing) draws only its node circle, in lane 0 and blue. |
| `LaneView.SubstitutedChildEdge` | app/src/main/java/com/moki/pocketgit/widgets/PlotLaneView.kt:40-44 | Take lane 1, with child 3 passing through the row. The child edge is drawn to lane 1, in lane 1's colour. |
| `LaneView.PassingLaneUnsubstituted` | app/src/main/java/com/moki/pocketgit/widgets/PlotLaneView.kt:75-79 | A passing lane 4 is drawn straight down lane 4, in lane 4's colour, whatever the node's lane. |

## Left out

- **Attribute reading.** The constructor reads the two spacings from styled attributes, defaulting to 5 (FlowLayout.kt:14-15, 29-37). The model takes both spacings as parameters.
- **Child discovery** (FlowLayout.kt:22-23) is platform plumbing and is not modelled. The children are given as a sequence of measured sizes and layout params. The source builds the list once, at construction, over `IntRange(0, childCount)`, which is an inclusive range.
- **Padding.** `horizontalPadding` and `verticalPadding` are also captured at construction (FlowLayout.kt:25-27). The model takes one padding for the whole pass.
- **MeasureSpec encoding.** The bit packing of `MeasureSpec.makeMeasureSpec`, `getMode` and `getSize` is not modelled. A spec is a (size, mode) pair with the mode values the source compares against.
- **Children's `view.measure`** is not modelled. The model takes it as a function parameter.
- **`setMeasuredDimension`** is not modelled. The reported size and the rows kept for layout are the fields of `Measured`.
- **Drawing.** Android's `Canvas`, `Paint`, stroke width and the dp-to-pixel float conversion are left out. Drawing is a sequence of symbolic operations. The circle's radius (`RADIUS` dp) is left implicit.
- **JGit's `PlotLane`** is not part of this model. `setPassing` takes the lanes' positions.
- **`HashSet` iteration order** is not modelled. It is the `order` parameter, and `RenderOrderIrrelevant` shows that the result does not depend on it beyond permuting the passing lines.
- FlowPack.Pack: does not promise the fewest rows, because the source does not achieve it. In a wrapping mode, a first child wider than the usable width makes `wouldExceedMax` open a new row and leaves the initial row empty (lines 82-83, 92-94). `PackFirstRowEmpty` characterises when this happens, and `OversizedLoneChildTwoRows` exhibits it. The empty row also adds one vertical spacing to the reported height (`OversizedLoneChildExtraSpacing`).
- FlowRow.AddChild: does not model 32-bit `Int` wrap-around of the running width. Nor do `Pack`, `MeasureContent` and `OnMeasure` model it for their sums. Pixel sizes are assumed far from the overflow range.
- LaneView.Render: requires every drawn lane to be non-negative. For a negative lane the source's `COLORS[lane % 5]` fails, except at multiples of 5. That case is modelled separately by `LanePalette.PaletteLookup`.
- FlowPlace.LayoutCursor: requires at least one measured row, so the layout model assumes a measure pass with the corrected size loop. As written, `onMeasure` always fails at line 102 before it stores `currentRows` at line 113. `currentRows` therefore stays empty, and `it.next()` at line 45 fails on every layout pass.
- **Negative spacings.** Both spacings come from styled dimension attributes (FlowLayout.kt:34-35), which can be negative. Horizontally, the two passes can disagree on where to wrap when the spacing is negative. The measure pass's running width can fall back to 0 and then skip a spacing, while `onLayout`'s running x cannot. `FlowPlace.LayoutWrapsMatchPack` and `FlowPlace.ExactWidthLayoutMatchesMeasure` therefore assume a spacing that is not negative, and the model makes no claim about the other case. Vertically, a negative spacing makes consecutive rows overlap by design. `FlowPlace.RowTopsIncrease`, `FlowPlace.PlaceRowsStacked` and `FlowPlace.PlaceMeasuredRows` therefore state non-overlap only for a vertical spacing that is not negative. `FlowPlace.RowTopsClosedForm` and `FlowPlace.PlaceRowsClosedFormTops` hold for any spacing.

## Findings

| source | as written | input that shows it | evidently intended | confidence | as-written member | corrected member |
|---|---|---|---|---|---|---|
| app/src/main/java/com/moki/pocketgit/widgets/FlowLayout.kt:101 | `for (i in 0..rows.size)` is an inclusive range, so the size loop reads `rows[rows.size]` | Any measure pass, e.g. no children: `rows` holds the one initial row, and `rows[1]` is read | `0 until rows.size`: one iteration per row | high (not executed) | `FlowMeasure.ContentSizeAsWrittenOverruns` | `FlowMeasure.MeasureContent` |
| app/src/main/java/com/moki/pocketgit/widgets/FlowLayout.kt:51 | On a wrap, `mPaddingTop = rowMeasurement.height + verticalSpacing` sets y instead of advancing it, and drops `paddingTop` | Exact width 10, no padding, vertical spacing 5, three 10-by-10 children: once line 101 is corrected, so that the measure pass stores its rows, the second and third child both get the frame (0, 15, 10, 25). As written, the layout pass fails before this, because line 101 leaves `currentRows` empty. | y advances by the finished row's height plus the spacing, from `paddingTop`: rows stack | high (not executed) | `FlowPlace.LayoutOverlapsThirdRow` | `FlowPlace.PlaceMeasuredRows` |

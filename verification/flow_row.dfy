/** One row of the flow layout: the `RowMeasurement` accumulator of FlowLayout.kt.
    A row is built by adding the measured children one at a time; it keeps a running
    width (child widths joined by the horizontal spacing) and a running height (the
    tallest child). The model also keeps the children themselves, so that the packing
    can be stated as a partition of the input. */
module FlowRow {

  /** A child's measured size, in pixels. */
  datatype Size = Size(w: int, h: int)

  /** The three values every `RowMeasurement` of one measure pass is built with:
      the usable width (spec size minus horizontal padding), the width measure-spec
      mode, and the horizontal spacing. */
  datatype RowConfig = RowConfig(maxWidth: int, widthMode: int, spacing: int)

  /** A row: its running width and height, and the children added to it, in order. */
  datatype Row = Row(width: int, height: int, items: seq<Size>)

  /** A freshly constructed `RowMeasurement`: width and height start at 0. */
  const EmptyRow: Row := Row(0, 0, [])

  function Max(a: int, b: int): int {
    if a >= b then a else b
  }

  /** The width the row would have after a child of width `w` joins it. A row whose
      width is still 0 takes the child's width alone, without a spacing gap. */
  function NewWidth(r: Row, w: int, spacing: int): int {
    if r.width == 0 then w else w + r.width + spacing
  }

  /** `addChildDimensions`: the child joins the row at its end. */
  function AddChild(r: Row, c: Size, spacing: int): (r': Row)
    ensures r'.items == r.items + [c]
    ensures r'.height >= r.height && r'.height >= c.h
    ensures r'.height == r.height || r'.height == c.h
    ensures r.width == 0 ==> r'.width == c.w
    ensures r.width != 0 ==> r'.width == r.width + spacing + c.w
  {
    Row(NewWidth(r, c.w, spacing), Max(r.height, c.h), r.items + [c])
  }

  /** `wouldExceedMax`: the child does not fit and a new row must be opened. It never
      holds when the width mode is 0 (unspecified). */
  predicate WouldExceedMax(r: Row, cfg: RowConfig, w: int) {
    cfg.widthMode != 0 && NewWidth(r, w, cfg.spacing) > cfg.maxWidth
  }

  /** Reference definition of a row's width from its children alone: the width
      recurrence folded over the children from the left, starting at 0. */
  function ItemsWidth(items: seq<Size>, spacing: int): int
    decreases |items|
  {
    if |items| == 0 then 0
    else
      var before := ItemsWidth(items[..|items| - 1], spacing);
      var w := items[|items| - 1].w;
      if before == 0 then w else before + spacing + w
  }

  /** Reference definition of a row's height from its children alone: the tallest
      child, or 0 for a row with no children (or only children of negative height). */
  function ItemsHeight(items: seq<Size>): (h: int)
    ensures h >= 0
    decreases |items|
  {
    if |items| == 0 then 0 else Max(ItemsHeight(items[..|items| - 1]), items[|items| - 1].h)
  }

  /** A row's height is at least every child's height, and is the height of one of its
      children unless it is 0. */
  lemma {:induction false} ItemsHeightTallest(items: seq<Size>)
    ensures forall i :: 0 <= i < |items| ==> items[i].h <= ItemsHeight(items)
    ensures ItemsHeight(items) == 0 || exists i :: 0 <= i < |items| && items[i].h == ItemsHeight(items)
    decreases |items|
  {
    if |items| > 0 {
      var init := items[..|items| - 1];
      ItemsHeightTallest(init);
      assert forall i :: 0 <= i < |init| ==> init[i] == items[i];
    }
  }

  /** Sum of the children's widths. */
  function SumWidths(items: seq<Size>): int
    decreases |items|
  {
    if |items| == 0 then 0 else SumWidths(items[..|items| - 1]) + items[|items| - 1].w
  }

  /** A row is consistent when its running width and height are exactly what its
      children determine. */
  predicate Consistent(r: Row, spacing: int) {
    r.width == ItemsWidth(r.items, spacing) && r.height == ItemsHeight(r.items)
  }

  /** Adding a child keeps a row consistent: the running width and height computed by
      `addChildDimensions` agree with the reference definitions over the children. */
  lemma AddChildConsistent(r: Row, c: Size, spacing: int)
    requires Consistent(r, spacing)
    ensures Consistent(AddChild(r, c, spacing), spacing)
  {
    var r' := AddChild(r, c, spacing);
    assert r'.items[..|r'.items| - 1] == r.items;
  }

  lemma EmptyRowConsistent(spacing: int)
    ensures Consistent(EmptyRow, spacing)
  {
  }

  /** The zero-width quirk: a first child of width 0 leaves the row width at 0, so the
      next child joins without a spacing gap and the row is exactly that child's width. */
  lemma ZeroWidthFirstChildSkipsSpacing(h0: int, c: Size, spacing: int)
    ensures AddChild(AddChild(EmptyRow, Size(0, h0), spacing), c, spacing).width == c.w
  {
  }

  /** With strictly positive child widths and non-negative spacing the quirk never
      fires: a non-empty row's width is the sum of its children's widths plus one
      spacing gap between each pair of neighbours. */
  lemma {:induction false} ItemsWidthClosedForm(items: seq<Size>, spacing: int)
    requires spacing >= 0
    requires forall i :: 0 <= i < |items| ==> items[i].w > 0
    ensures |items| == 0 ==> ItemsWidth(items, spacing) == 0
    ensures |items| > 0 ==> ItemsWidth(items, spacing) == SumWidths(items) + spacing * (|items| - 1)
    ensures |items| > 0 ==> ItemsWidth(items, spacing) > 0
    decreases |items|
  {
    if |items| > 0 {
      var init := items[..|items| - 1];
      assert forall i :: 0 <= i < |init| ==> init[i] == items[i];
      ItemsWidthClosedForm(init, spacing);
    }
  }
}

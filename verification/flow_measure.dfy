/** `FlowLayout.onMeasure` apart from the row-building loop: the measure specs handed
    to the children, the content size summed over the rows, and the size reported back
    to the parent. A measure spec is modelled as its (size, mode) pair; the bit packing
    of the platform's MeasureSpec is not part of this model. */
module FlowMeasure {
  import opened Outcomes
  import opened FlowRow
  import opened FlowPack

  /** Measure-spec modes as the source compares them (`getMode` values). */
  const UNSPECIFIED: int := 0
  const EXACTLY: int := 0x4000_0000
  /** `Int.MIN_VALUE`, the value the source passes for an at-most constraint. */
  const AT_MOST: int := -0x8000_0000

  datatype MeasureSpec = MeasureSpec(size: int, mode: int)

  /** The requested layout width and height of a child (its layout params). */
  datatype LayoutParams = LayoutParams(width: int, height: int)

  datatype Padding = Padding(left: int, top: int, right: int, bottom: int)

  /** What a measure pass produces: the reported size and the rows kept for layout. */
  datatype Measured = Measured(width: int, height: int, rows: seq<Row>)

  /** `createChildMeasureSpec`: request 1 takes the parent's size exactly, request 2
      takes it as an upper bound (or leaves it unspecified when the parent is), and any
      other request is taken as an exact size of its own. */
  function ChildMeasureSpec(request: int, size: int, mode: int): (s: MeasureSpec)
    ensures s.mode == EXACTLY || s.mode == AT_MOST || s.mode == UNSPECIFIED
    ensures s.mode == UNSPECIFIED <==> request == 2 && mode == UNSPECIFIED
    ensures s.mode == AT_MOST <==> request == 2 && mode != UNSPECIFIED
    ensures s.size == (if request == 1 || request == 2 then size else request)
  {
    match request
    case 1 => MeasureSpec(size, EXACTLY)
    case 2 => MeasureSpec(size, if mode == 0 then 0 else AT_MOST)
    case _ => MeasureSpec(request, EXACTLY)
  }

  /** The children's measured sizes. `measure(i, ws, hs)` stands for `view.measure` of
      the i-th child followed by reading its measured width and height: each child
      answers for itself, so children with the same layout params may differ in size.
      Widths are offered the usable width and mode of the parent, heights the usable
      height and mode. */
  function MeasureChildren(params: seq<LayoutParams>, width: MeasureSpec, height: MeasureSpec,
                           measure: (nat, MeasureSpec, MeasureSpec) -> Size): (cs: seq<Size>)
    ensures |cs| == |params|
    ensures forall i :: 0 <= i < |params| ==>
              cs[i] == measure(i, ChildMeasureSpec(params[i].width, width.size, width.mode),
                                  ChildMeasureSpec(params[i].height, height.size, height.mode))
  {
    seq(|params|, i requires 0 <= i < |params| =>
      measure(i, ChildMeasureSpec(params[i].width, width.size, width.mode),
                 ChildMeasureSpec(params[i].height, height.size, height.mode)))
  }

  /** Two `wrap_content` children (request -2 both ways) that measure themselves 30
      and 80 wide keep those widths: the sizes come from the children, not from their
      layout params. */
  lemma WrapContentChildrenKeepOwnSizes(width: MeasureSpec, height: MeasureSpec,
                                        measure: (nat, MeasureSpec, MeasureSpec) -> Size)
    requires forall i: nat, ws: MeasureSpec, hs: MeasureSpec ::
               measure(i, ws, hs) == (if i == 0 then Size(30, 20) else Size(80, 20))
    ensures var cs := MeasureChildren([LayoutParams(-2, -2), LayoutParams(-2, -2)], width, height, measure);
            cs[0].w == 30 && cs[1].w == 80
  {
  }

  // ---------------------------------------------------------------------------
  // Content size over the rows.

  /** Reference definition: the rows' heights added up. */
  function SumHeights(rows: seq<Row>): int
    decreases |rows|
  {
    if |rows| == 0 then 0 else SumHeights(rows[..|rows| - 1]) + rows[|rows| - 1].height
  }

  /** Reference definition: the widest row, or 0 when no row is wider than 0. */
  function MaxWidth(rows: seq<Row>): (w: int)
    ensures w >= 0
    decreases |rows|
  {
    if |rows| == 0 then 0 else Max(MaxWidth(rows[..|rows| - 1]), rows[|rows| - 1].width)
  }

  /** The content width is at least every row's width, and is the width of one of the
      rows unless it is 0. */
  lemma {:induction false} MaxWidthWidest(rows: seq<Row>)
    ensures forall k :: 0 <= k < |rows| ==> rows[k].width <= MaxWidth(rows)
    ensures MaxWidth(rows) == 0 || exists k :: 0 <= k < |rows| && rows[k].width == MaxWidth(rows)
    decreases |rows|
  {
    if |rows| > 0 {
      var init := rows[..|rows| - 1];
      MaxWidthWidest(init);
      assert forall k :: 0 <= k < |init| ==> init[k] == rows[k];
    }
  }

  /** The content height: the rows stacked with one vertical gap between neighbours. */
  function ContentHeight(rows: seq<Row>, verticalSpacing: int): int {
    if |rows| == 0 then 0 else SumHeights(rows) + verticalSpacing * (|rows| - 1)
  }

  /** The size loop of `onMeasure`, iterating over exactly the rows there are. */
  method MeasureContent(rows: seq<Row>, verticalSpacing: int) returns (width: int, height: int)
    ensures |rows| >= 1 ==> height == SumHeights(rows) + verticalSpacing * (|rows| - 1)
    ensures |rows| == 0 ==> height == 0
    ensures width >= 0
    ensures forall k :: 0 <= k < |rows| ==> rows[k].width <= width
    ensures width == 0 || exists k :: 0 <= k < |rows| && rows[k].width == width
  {
    width, height := 0, 0;
    var i := 0;
    while i < |rows|
      invariant 0 <= i <= |rows|
      invariant height == SumHeights(rows[..i]) + verticalSpacing * (if 0 < i == |rows| then i - 1 else i)
      invariant width == MaxWidth(rows[..i])
    {
      var row := rows[i];
      height := height + row.height;
      if i < |rows| - 1 {
        height := height + verticalSpacing;
      }
      width := Max(width, row.width);
      assert rows[..i + 1][..i] == rows[..i];
      i := i + 1;
    }
    assert rows[..i] == rows;
    MaxWidthWidest(rows);
  }

  /** The size loop as written: its range `0..rows.size` is inclusive, so after the
      last row it reads `rows[rows.size]`. */
  function ContentLoopAsWritten(rows: seq<Row>, verticalSpacing: int, i: nat, width: int, height: int)
    : Outcome<(int, int)>
    decreases |rows| + 1 - i
  {
    if i > |rows| then Ok((width, height))
    else if i == |rows| then IndexOutOfBounds(i)
    else
      var row := rows[i];
      var height' := height + row.height + (if i < |rows| - 1 then verticalSpacing else 0);
      ContentLoopAsWritten(rows, verticalSpacing, i + 1, Max(width, row.width), height')
  }

  function ContentSizeAsWritten(rows: seq<Row>, verticalSpacing: int): Outcome<(int, int)> {
    ContentLoopAsWritten(rows, verticalSpacing, 0, 0, 0)
  }

  /** The loop as written never finishes: whatever the rows, it reads one past the end. */
  lemma {:induction false} ContentLoopAsWrittenOverruns(rows: seq<Row>, verticalSpacing: int,
                                                         i: nat, width: int, height: int)
    requires i <= |rows|
    ensures ContentLoopAsWritten(rows, verticalSpacing, i, width, height) == IndexOutOfBounds(|rows|)
    decreases |rows| - i
  {
    if i < |rows| {
      var row := rows[i];
      var height' := height + row.height + (if i < |rows| - 1 then verticalSpacing else 0);
      ContentLoopAsWrittenOverruns(rows, verticalSpacing, i + 1, Max(width, row.width), height');
    }
  }

  lemma ContentSizeAsWrittenOverruns(rows: seq<Row>, verticalSpacing: int)
    ensures ContentSizeAsWritten(rows, verticalSpacing) == IndexOutOfBounds(|rows|)
  {
    ContentLoopAsWrittenOverruns(rows, verticalSpacing, 0, 0, 0);
  }

  // ---------------------------------------------------------------------------
  // The reported size.

  /** The size reported for one axis: the spec size under an exact constraint,
      otherwise the padding plus the content. */
  function ReportedSize(spec: MeasureSpec, padding: int, content: int): (r: int)
    ensures spec.mode == EXACTLY ==> r == spec.size
    ensures spec.mode != EXACTLY ==> r == padding + content
  {
    if spec.mode == 0x4000_0000 then spec.size else padding + content
  }

  /** A spec with the padding taken off its size: what is left for the children. */
  function Usable(spec: MeasureSpec, padding: int): MeasureSpec {
    MeasureSpec(spec.size - padding, spec.mode)
  }

  /** The configuration the rows of one measure pass are built with. */
  function RowConfigOf(widthSpec: MeasureSpec, pad: Padding, horizontalSpacing: int): RowConfig {
    RowConfig(widthSpec.size - (pad.left + pad.right), widthSpec.mode, horizontalSpacing)
  }

  /** `onMeasure`: measure the children against the usable size, pack them into rows,
      and report the size (with the corrected row loop). */
  function OnMeasure(widthSpec: MeasureSpec, heightSpec: MeasureSpec, pad: Padding,
                     horizontalSpacing: int, verticalSpacing: int, params: seq<LayoutParams>,
                     measure: (nat, MeasureSpec, MeasureSpec) -> Size): (m: Measured)
    ensures m.rows == Pack(RowConfigOf(widthSpec, pad, horizontalSpacing),
                           MeasureChildren(params, Usable(widthSpec, pad.left + pad.right),
                                           Usable(heightSpec, pad.top + pad.bottom), measure))
    ensures Flatten(m.rows) == MeasureChildren(params, Usable(widthSpec, pad.left + pad.right),
                                               Usable(heightSpec, pad.top + pad.bottom), measure)
    ensures widthSpec.mode == EXACTLY ==> m.width == widthSpec.size
    ensures widthSpec.mode != EXACTLY ==> m.width == pad.left + pad.right + MaxWidth(m.rows)
    ensures heightSpec.mode == EXACTLY ==> m.height == heightSpec.size
    ensures heightSpec.mode != EXACTLY ==>
              m.height == pad.top + pad.bottom + SumHeights(m.rows) + verticalSpacing * (|m.rows| - 1)
  {
    var cs := MeasureChildren(params, Usable(widthSpec, pad.left + pad.right),
                              Usable(heightSpec, pad.top + pad.bottom), measure);
    var cfg := RowConfigOf(widthSpec, pad, horizontalSpacing);
    var rows := Pack(cfg, cs);
    PackPartition(cfg, cs);
    Measured(ReportedSize(widthSpec, pad.left + pad.right, MaxWidth(rows)),
             ReportedSize(heightSpec, pad.top + pad.bottom, ContentHeight(rows, verticalSpacing)),
             rows)
  }

  /** The empty leading row a lone oversized child leaves behind still costs one
      vertical spacing in the content height, beyond the child's own height. */
  lemma OversizedLoneChildExtraSpacing(cfg: RowConfig, c: Size, verticalSpacing: int)
    requires cfg.widthMode != 0 && c.w > cfg.maxWidth
    ensures ContentHeight(Pack(cfg, [c]), verticalSpacing) == Max(0, c.h) + verticalSpacing
  {
    OversizedLoneChildTwoRows(cfg, c);
    var rows := Pack(cfg, [c]);
    assert [c][..0] == [];
    assert rows == [EmptyRow] + [AddChild(EmptyRow, c, cfg.spacing)];
    assert rows[1].height == Max(0, c.h);
    assert rows[..1] == [EmptyRow];
    assert rows[..1][..0] == [];
    assert SumHeights(rows[..1]) == 0;
    assert SumHeights(rows) == Max(0, c.h);
  }

  /** With an unspecified width the layout never wraps: the reported width is the
      padding plus the single row's width over all children. */
  lemma {:induction false} OnMeasureUnboundedWidth(widthSpec: MeasureSpec, heightSpec: MeasureSpec, pad: Padding,
                                horizontalSpacing: int, verticalSpacing: int, params: seq<LayoutParams>,
                                measure: (nat, MeasureSpec, MeasureSpec) -> Size)
    requires widthSpec.mode == UNSPECIFIED
    ensures var m := OnMeasure(widthSpec, heightSpec, pad, horizontalSpacing, verticalSpacing, params, measure);
            |m.rows| == 1 &&
            m.width == pad.left + pad.right + Max(0, ItemsWidth(m.rows[0].items, horizontalSpacing))
  {
    var m := OnMeasure(widthSpec, heightSpec, pad, horizontalSpacing, verticalSpacing, params, measure);
    var cfg := RowConfigOf(widthSpec, pad, horizontalSpacing);
    var cs := MeasureChildren(params, Usable(widthSpec, pad.left + pad.right),
                              Usable(heightSpec, pad.top + pad.bottom), measure);
    PackUnbounded(cfg, cs);
    assert m.rows == Pack(cfg, cs);
    assert |m.rows[..0]| == 0;
    assert MaxWidth(m.rows) == Max(0, m.rows[0].width);
  }
}

/** `FlowLayout.onLayout`: the second pass that gives every child its rectangle.
    As written it does not replay the rows of the measure pass; it decides the wraps
    again from a running x position and uses the measured rows only for their heights.
    `PlaceRows` is the corrected placement, which replays the measured rows and stacks
    them. */
module FlowPlace {
  import opened FlowRow
  import opened FlowPack
  import opened FlowMeasure

  /** A child's frame: `view.layout(left, top, right, bottom)`. */
  datatype Rect = Rect(left: int, top: int, right: int, bottom: int)

  /** What `onLayout` reads besides the children: the measured width, the padding, the
      spacings and the heights of the rows kept by the last measure pass. */
  datatype LayoutEnv = LayoutEnv(measuredWidth: int, paddingLeft: int, paddingTop: int,
                                 paddingRight: int, horizontalSpacing: int, verticalSpacing: int,
                                 rowHeights: seq<int>)

  /** The loop state of `onLayout`: the running x and y, the row the iterator last
      returned, and the frames handed out so far. */
  datatype Cursor = Cursor(x: int, y: int, row: nat, rects: seq<Rect>)

  function Limit(env: LayoutEnv): int {
    env.measuredWidth - env.paddingRight
  }

  /** Child `c` does not fit after the running x position. */
  predicate WrapsAt(env: LayoutEnv, cur: Cursor, c: Size) {
    cur.x + c.w > Limit(env)
  }

  /** One iteration of the `onLayout` loop. On a wrap, x returns to the left padding,
      y is set (not advanced) to the current row's height plus the vertical spacing,
      and the row iterator moves on only if it has a next row. */
  function LayoutStep(env: LayoutEnv, cur: Cursor, c: Size): (next: Cursor)
    requires cur.row < |env.rowHeights|
    ensures next.row < |env.rowHeights|
    ensures |next.rects| == |cur.rects| + 1 && next.rects[..|cur.rects|] == cur.rects
    ensures var r := next.rects[|cur.rects|];
            && r.right - r.left == c.w && r.bottom - r.top == c.h
            && next.x == r.right + env.horizontalSpacing && next.y == r.top
            && (WrapsAt(env, cur, c) ==>
                  r.left == env.paddingLeft && r.top == env.rowHeights[cur.row] + env.verticalSpacing)
            && (WrapsAt(env, cur, c) && cur.row + 1 < |env.rowHeights| ==> next.row == cur.row + 1)
            && (WrapsAt(env, cur, c) && cur.row + 1 == |env.rowHeights| ==> next.row == cur.row)
            && (!WrapsAt(env, cur, c) ==> r.left == cur.x && r.top == cur.y && next.row == cur.row)
  {
    var wrap := WrapsAt(env, cur, c);
    var x := if wrap then env.paddingLeft else cur.x;
    var y := if wrap then env.rowHeights[cur.row] + env.verticalSpacing else cur.y;
    var row := if wrap && cur.row + 1 < |env.rowHeights| then cur.row + 1 else cur.row;
    Cursor(x + env.horizontalSpacing + c.w, y, row, cur.rects + [Rect(x, y, x + c.w, y + c.h)])
  }

  /** The loop state after the children `cs`. The iterator's first `next()` needs at
      least one measured row, which every measure pass with the corrected size loop
      provides (as written, the measure pass fails before it stores its rows). */
  function LayoutCursor(env: LayoutEnv, cs: seq<Size>): (cur: Cursor)
    requires |env.rowHeights| >= 1
    ensures cur.row < |env.rowHeights|
    ensures |cur.rects| == |cs|
    ensures |cs| == 0 ==> cur.x == env.paddingLeft && cur.y == env.paddingTop
    ensures |cs| > 0 ==> cur.x == cur.rects[|cs| - 1].right + env.horizontalSpacing &&
                         cur.y == cur.rects[|cs| - 1].top
    decreases |cs|
  {
    if |cs| == 0 then Cursor(env.paddingLeft, env.paddingTop, 0, [])
    else LayoutStep(env, LayoutCursor(env, cs[..|cs| - 1]), cs[|cs| - 1])
  }

  /** The frames `onLayout` hands to the children, in order. */
  function Layout(env: LayoutEnv, cs: seq<Size>): seq<Rect>
    requires |env.rowHeights| >= 1
  {
    LayoutCursor(env, cs).rects
  }

  /** Child `i` is wrapped onto a new line by `onLayout`. */
  predicate LayoutWraps(env: LayoutEnv, cs: seq<Size>, i: int)
    requires |env.rowHeights| >= 1 && 0 <= i < |cs|
  {
    WrapsAt(env, LayoutCursor(env, cs[..i]), cs[i])
  }

  /** Handing out frames is incremental: the frames of a prefix of the children are a
      prefix of the frames. */
  lemma {:induction false} LayoutPrefix(env: LayoutEnv, cs: seq<Size>, j: nat)
    requires |env.rowHeights| >= 1 && j <= |cs|
    ensures Layout(env, cs)[..j] == Layout(env, cs[..j])
    decreases |cs|
  {
    if j == |cs| {
      assert cs[..j] == cs;
    } else {
      var init := cs[..|cs| - 1];
      LayoutPrefix(env, init, j);
      assert init[..j] == cs[..j];
      assert Layout(env, cs)[..|init|] == Layout(env, init);
    }
  }

  /** Each child's frame in terms of the one before it: every frame has the child's
      measured size; a wrapped child starts at the left padding; a child that is not
      wrapped sits one horizontal spacing after its predecessor, on the same line (the
      first child at the top-left padding corner). */
  lemma LayoutFrames(env: LayoutEnv, cs: seq<Size>, i: int)
    requires |env.rowHeights| >= 1 && 0 <= i < |cs|
    ensures |Layout(env, cs)| == |cs|
    ensures Layout(env, cs)[i].right - Layout(env, cs)[i].left == cs[i].w
    ensures Layout(env, cs)[i].bottom - Layout(env, cs)[i].top == cs[i].h
    ensures LayoutWraps(env, cs, i) ==> Layout(env, cs)[i].left == env.paddingLeft
    ensures !LayoutWraps(env, cs, i) && i == 0 ==>
              Layout(env, cs)[i].left == env.paddingLeft && Layout(env, cs)[i].top == env.paddingTop
    ensures !LayoutWraps(env, cs, i) && i > 0 ==>
              Layout(env, cs)[i].left == Layout(env, cs)[i - 1].right + env.horizontalSpacing &&
              Layout(env, cs)[i].top == Layout(env, cs)[i - 1].top
  {
    var pre := cs[..i + 1];
    assert pre[..i] == cs[..i];
    assert pre[i] == cs[i];
    LayoutPrefix(env, cs, i + 1);
    assert Layout(env, cs)[i] == Layout(env, pre)[i];
    if i > 0 {
      LayoutPrefix(env, cs, i);
      assert Layout(env, cs)[i - 1] == Layout(env, cs[..i])[i - 1];
    }
  }

  // ---------------------------------------------------------------------------
  // The second pass decides the same wraps as the first.

  /** The heights of the measured rows, as `onLayout` reads them. */
  function RowHeights(rows: seq<Row>): (hs: seq<int>)
    ensures |hs| == |rows|
    ensures forall k :: 0 <= k < |rows| ==> hs[k] == rows[k].height
  {
    seq(|rows|, k requires 0 <= k < |rows| => rows[k].height)
  }

  /** The layout pass sees the same usable width and spacing as the measure pass, all
      children are wider than 0, a wrapping width mode is in force, and the measure
      pass produced the rows whose heights the layout pass reads. */
  predicate Matched(env: LayoutEnv, cfg: RowConfig, cs: seq<Size>) {
    && cfg.widthMode != UNSPECIFIED
    && cfg.spacing == env.horizontalSpacing >= 0
    && cfg.maxWidth == env.measuredWidth - env.paddingLeft - env.paddingRight
    && (forall i :: 0 <= i < |cs| ==> cs[i].w > 0)
    && |env.rowHeights| == |Pack(cfg, cs)|
  }

  /** After `j` children the layout cursor is exactly one spacing past the end of the
      measure pass's current row, and the row iterator stands on that row. */
  predicate Tracks(env: LayoutEnv, cfg: RowConfig, cs: seq<Size>, j: int)
    requires |env.rowHeights| >= 1 && 0 <= j <= |cs|
  {
    var rows := Pack(cfg, cs[..j]);
    var cur := LayoutCursor(env, cs[..j]);
    && Last(rows).width >= 0
    && cur.x == env.paddingLeft + (if Last(rows).width == 0 then 0 else Last(rows).width + env.horizontalSpacing)
    && cur.row == |rows| - 1
  }

  lemma {:induction false} TracksStep(env: LayoutEnv, cfg: RowConfig, cs: seq<Size>, j: int)
    requires Matched(env, cfg, cs) && 0 <= j < |cs|
    requires Tracks(env, cfg, cs, j)
    ensures LayoutWraps(env, cs, j) <==> OpensRow(cfg, cs, j)
    ensures Tracks(env, cfg, cs, j + 1)
  {
    var c := cs[j];
    var rows := Pack(cfg, cs[..j]);
    var cur := LayoutCursor(env, cs[..j]);
    assert cs[..j + 1][..j] == cs[..j];
    assert cs[..j + 1][j] == c;
    assert Pack(cfg, cs[..j + 1]) == PackStep(cfg, rows, c);
    assert LayoutCursor(env, cs[..j + 1]) == LayoutStep(env, cur, c);
    assert cur.x - env.paddingLeft + c.w == NewWidth(Last(rows), c.w, cfg.spacing);
    if WouldExceedMax(Last(rows), cfg, c.w) {
      PackLengthMonotone(cfg, cs, j + 1);
      assert |rows| + 1 <= |env.rowHeights|;
    }
  }

  lemma {:induction false} LayoutTracksPack(env: LayoutEnv, cfg: RowConfig, cs: seq<Size>, j: int)
    requires Matched(env, cfg, cs) && 0 <= j <= |cs|
    ensures Tracks(env, cfg, cs, j)
    decreases j
  {
    if j == 0 {
      assert cs[..0] == [];
    } else {
      LayoutTracksPack(env, cfg, cs, j - 1);
      TracksStep(env, cfg, cs, j - 1);
    }
  }

  /** When the two passes agree on the usable width and spacing and every child is
      wider than 0, `onLayout` wraps before exactly the children before which
      `onMeasure` opened a new row, and its row iterator stays on the measured row. */
  lemma LayoutWrapsMatchPack(env: LayoutEnv, cfg: RowConfig, cs: seq<Size>)
    requires Matched(env, cfg, cs)
    ensures forall i :: 0 <= i < |cs| ==> (LayoutWraps(env, cs, i) <==> OpensRow(cfg, cs, i))
    ensures forall j :: 0 <= j <= |cs| ==> LayoutCursor(env, cs[..j]).row == |Pack(cfg, cs[..j])| - 1
  {
    forall i | 0 <= i < |cs|
      ensures LayoutWraps(env, cs, i) <==> OpensRow(cfg, cs, i)
    {
      LayoutTracksPack(env, cfg, cs, i);
      TracksStep(env, cfg, cs, i);
    }
    forall j | 0 <= j <= |cs|
      ensures LayoutCursor(env, cs[..j]).row == |Pack(cfg, cs[..j])| - 1
    {
      LayoutTracksPack(env, cfg, cs, j);
    }
  }

  /** The layout environment a measure pass leaves behind. */
  function EnvAfterMeasure(m: Measured, pad: Padding, horizontalSpacing: int, verticalSpacing: int): LayoutEnv {
    LayoutEnv(m.width, pad.left, pad.top, pad.right, horizontalSpacing, verticalSpacing, RowHeights(m.rows))
  }

  /** Under an exact width constraint the measured width is the spec size, so the two
      passes see the same usable width: with strictly positive child widths and
      non-negative spacing, `onLayout` wraps exactly where `onMeasure` opened rows. */
  lemma ExactWidthLayoutMatchesMeasure(widthSpec: MeasureSpec, heightSpec: MeasureSpec, pad: Padding,
                                       horizontalSpacing: int, verticalSpacing: int,
                                       params: seq<LayoutParams>, measure: (nat, MeasureSpec, MeasureSpec) -> Size)
    requires widthSpec.mode == EXACTLY && horizontalSpacing >= 0
    requires var cs := MeasureChildren(params, Usable(widthSpec, pad.left + pad.right),
                                       Usable(heightSpec, pad.top + pad.bottom), measure);
             forall i :: 0 <= i < |cs| ==> cs[i].w > 0
    ensures var cs := MeasureChildren(params, Usable(widthSpec, pad.left + pad.right),
                                      Usable(heightSpec, pad.top + pad.bottom), measure);
            var m := OnMeasure(widthSpec, heightSpec, pad, horizontalSpacing, verticalSpacing, params, measure);
            var env := EnvAfterMeasure(m, pad, horizontalSpacing, verticalSpacing);
            forall i :: 0 <= i < |cs| ==>
              (LayoutWraps(env, cs, i) <==> OpensRow(RowConfigOf(widthSpec, pad, horizontalSpacing), cs, i))
  {
    var cs := MeasureChildren(params, Usable(widthSpec, pad.left + pad.right),
                              Usable(heightSpec, pad.top + pad.bottom), measure);
    var m := OnMeasure(widthSpec, heightSpec, pad, horizontalSpacing, verticalSpacing, params, measure);
    var env := EnvAfterMeasure(m, pad, horizontalSpacing, verticalSpacing);
    var cfg := RowConfigOf(widthSpec, pad, horizontalSpacing);
    assert Matched(env, cfg, cs);
    LayoutWrapsMatchPack(env, cfg, cs);
  }

  // ---------------------------------------------------------------------------
  // As written, the y of a wrapped line is not accumulated.

  /** Handing out one more frame is one more step of the loop. */
  lemma {:induction false} LayoutSnoc(env: LayoutEnv, cs: seq<Size>, c: Size)
    requires |env.rowHeights| >= 1
    ensures LayoutCursor(env, cs + [c]) == LayoutStep(env, LayoutCursor(env, cs), c)
  {
    assert (cs + [c])[..|cs|] == cs;
  }

  /** Three children 10 by 10 over three rows 10 high, with no padding, no horizontal
      spacing, a vertical spacing of 5 and a width of 10: the second and the third
      child both land at y = 10 + 5. */
  lemma {:induction false} LayoutThreeFullWidth(env: LayoutEnv, c: Size)
    requires env.measuredWidth == 10 && env.paddingLeft == 0 && env.paddingTop == 0
    requires env.paddingRight == 0 && env.horizontalSpacing == 0 && env.verticalSpacing == 5
    requires |env.rowHeights| == 3 && env.rowHeights[0] == 10 && env.rowHeights[1] == 10
    requires c == Size(10, 10)
    ensures Layout(env, [c, c, c])[1] == Layout(env, [c, c, c])[2] == Rect(0, 15, 10, 25)
  {
    var c0 := LayoutCursor(env, []);
    assert c0 == Cursor(0, 0, 0, []);
    LayoutSnoc(env, [], c);
    assert [] + [c] == [c];
    var c1 := LayoutCursor(env, [c]);
    assert !WrapsAt(env, c0, c);
    assert c1.x == 10 && c1.y == 0 && c1.row == 0 && |c1.rects| == 1;
    LayoutSnoc(env, [c], c);
    assert [c] + [c] == [c, c];
    var c2 := LayoutCursor(env, [c, c]);
    assert WrapsAt(env, c1, c);
    assert c2.x == 10 && c2.y == 15 && c2.row == 1 && |c2.rects| == 2;
    assert c2.rects[1] == Rect(0, 15, 10, 25);
    LayoutSnoc(env, [c, c], c);
    assert [c, c] + [c] == [c, c, c];
    var c3 := LayoutCursor(env, [c, c, c]);
    assert WrapsAt(env, c2, c);
    assert c3.rects[..2] == c2.rects;
    assert c3.rects[1] == c2.rects[1];
    assert c3.rects[2] == Rect(0, 15, 10, 25);
  }

  /** Three children as wide as the usable width, under an exact width of 10: the
      measure pass puts each on its own row, but `onLayout` gives the second and third
      child the same frame, because a wrap sets y to the previous row's height plus the
      spacing instead of advancing it. The layout pass sees these rows only once the
      size loop of the measure pass is corrected; as written it fails earlier. */
  lemma LayoutOverlapsThirdRow()
    ensures var cs := [Size(10, 10), Size(10, 10), Size(10, 10)];
            var rows := Pack(RowConfig(10, EXACTLY, 0), cs);
            var env := LayoutEnv(10, 0, 0, 0, 0, 5, RowHeights(rows));
            |rows| == 3 && Layout(env, cs)[1] == Layout(env, cs)[2] == Rect(0, 15, 10, 25)
  {
    var c := Size(10, 10);
    var cs := [c, c, c];
    var cfg := RowConfig(10, EXACTLY, 0);
    PackFullWidth(cfg, cs);
    var rows := Pack(cfg, cs);
    assert rows[0].height == 10 && rows[1].height == 10;
    var env := LayoutEnv(10, 0, 0, 0, 0, 5, RowHeights(rows));
    LayoutThreeFullWidth(env, c);
  }

  // ---------------------------------------------------------------------------
  // Corrected placement: replay the measured rows and stack them.

  /** The frames of one row's children, left to right from `x` on the line at `y`. */
  function PlaceRow(items: seq<Size>, x: int, y: int, horizontalSpacing: int): (rs: seq<Rect>)
    ensures |rs| == |items|
    ensures |items| > 0 ==> rs[0].left == x
    ensures forall j :: 0 <= j < |items| ==>
              rs[j].top == y && rs[j].bottom == y + items[j].h && rs[j].right - rs[j].left == items[j].w
    ensures forall j :: 0 < j < |items| ==> rs[j].left == rs[j - 1].right + horizontalSpacing
    decreases |items|
  {
    if |items| == 0 then []
    else
      var c := items[0];
      [Rect(x, y, x + c.w, y + c.h)] + PlaceRow(items[1..], x + c.w + horizontalSpacing, y, horizontalSpacing)
  }

  /** The top edge of every row: the first row at `top`, each next row below the
      previous one by that row's height plus the vertical spacing. */
  function RowTops(rows: seq<Row>, top: int, verticalSpacing: int): (tops: seq<int>)
    ensures |tops| == |rows|
    ensures |rows| > 0 ==> tops[0] == top
    ensures forall k :: 0 <= k < |rows| - 1 ==> tops[k + 1] == tops[k] + rows[k].height + verticalSpacing
    decreases |rows|
  {
    if |rows| == 0 then []
    else [top] + RowTops(rows[1..], top + rows[0].height + verticalSpacing, verticalSpacing)
  }

  /** The corrected placement: the measured rows are replayed as they are, each row's
      children laid left to right from `left` on that row's line. */
  function PlaceRows(rows: seq<Row>, left: int, top: int, horizontalSpacing: int, verticalSpacing: int)
    : (frames: seq<seq<Rect>>)
    ensures |frames| == |rows|
    ensures forall k :: 0 <= k < |rows| ==> |frames[k]| == |rows[k].items|
    ensures forall k, j :: 0 <= k < |rows| && 0 <= j < |frames[k]| ==>
              frames[k][j].right - frames[k][j].left == rows[k].items[j].w &&
              frames[k][j].bottom - frames[k][j].top == rows[k].items[j].h
    ensures forall k :: 0 <= k < |rows| && |frames[k]| > 0 ==> frames[k][0].left == left
    ensures forall k, j :: 0 <= k < |rows| && 0 < j < |frames[k]| ==>
              frames[k][j].left == frames[k][j - 1].right + horizontalSpacing &&
              frames[k][j].top == frames[k][j - 1].top
    ensures forall k, j :: 0 <= k < |rows| && 0 <= j < |frames[k]| ==>
              frames[k][j].top == RowTops(rows, top, verticalSpacing)[k]
  {
    var tops := RowTops(rows, top, verticalSpacing);
    seq(|rows|, k requires 0 <= k < |rows| => PlaceRow(rows[k].items, left, tops[k], horizontalSpacing))
  }

  /** A row's children all fit within the row's height, which is not negative. */
  predicate RowHoldsItems(r: Row) {
    r.height >= 0 && forall j :: 0 <= j < |r.items| ==> r.items[j].h <= r.height
  }

  /** Row tops never go up, and a later row starts no higher than an earlier row ends. */
  lemma {:induction false} RowTopsIncrease(rows: seq<Row>, top: int, verticalSpacing: int, k: int, k': int)
    requires verticalSpacing >= 0
    requires forall m :: 0 <= m < |rows| ==> rows[m].height >= 0
    requires 0 <= k < k' < |rows|
    ensures RowTops(rows, top, verticalSpacing)[k] + rows[k].height <= RowTops(rows, top, verticalSpacing)[k']
    decreases k' - k
  {
    if k' > k + 1 {
      RowTopsIncrease(rows, top, verticalSpacing, k, k' - 1);
    }
  }

  /** A row's top in closed form: the first row's top, plus the heights of the rows
      above it, plus one vertical spacing per row above it. */
  lemma {:induction false} RowTopsClosedForm(rows: seq<Row>, top: int, verticalSpacing: int, k: int)
    requires 0 <= k < |rows|
    ensures RowTops(rows, top, verticalSpacing)[k] == top + SumHeights(rows[..k]) + verticalSpacing * k
    decreases k
  {
    if k == 0 {
      assert |rows[..0]| == 0;
    } else {
      RowTopsClosedForm(rows, top, verticalSpacing, k - 1);
      assert rows[..k][..k - 1] == rows[..k - 1];
    }
  }

  /** The stacked rows end exactly where the measured content height says: the last
      row's line ends at `top` plus the height `onMeasure` reports for the content. */
  lemma {:induction false} RowTopsSpanContent(rows: seq<Row>, top: int, verticalSpacing: int)
    requires |rows| >= 1
    ensures RowTops(rows, top, verticalSpacing)[|rows| - 1] + rows[|rows| - 1].height
            == top + ContentHeight(rows, verticalSpacing)
  {
    RowTopsClosedForm(rows, top, verticalSpacing, |rows| - 1);
  }

  /** The corrected placement stacks the rows: every frame starts no higher than
      `top`, and every frame of a row ends no lower than any frame of a later row
      starts. */
  lemma PlaceRowsStacked(rows: seq<Row>, left: int, top: int, horizontalSpacing: int, verticalSpacing: int)
    requires verticalSpacing >= 0
    requires forall k :: 0 <= k < |rows| ==> RowHoldsItems(rows[k])
    ensures var frames := PlaceRows(rows, left, top, horizontalSpacing, verticalSpacing);
            forall k, j :: 0 <= k < |frames| && 0 <= j < |frames[k]| ==> frames[k][j].top >= top
    ensures var frames := PlaceRows(rows, left, top, horizontalSpacing, verticalSpacing);
            forall k, k', j, j' ::
              0 <= k < k' < |frames| && 0 <= j < |frames[k]| && 0 <= j' < |frames[k']| ==>
                frames[k][j].bottom <= frames[k'][j'].top
  {
    var frames := PlaceRows(rows, left, top, horizontalSpacing, verticalSpacing);
    var tops := RowTops(rows, top, verticalSpacing);
    assert forall k :: 0 <= k < |rows| ==> frames[k] == PlaceRow(rows[k].items, left, tops[k], horizontalSpacing);
    forall k: int, j: int | 0 <= k < |frames| && 0 <= j < |frames[k]|
      ensures frames[k][j].top >= top
    {
      if k > 0 {
        RowTopsIncrease(rows, top, verticalSpacing, 0, k);
      }
    }
    forall k: int, k': int, j: int, j': int | 0 <= k < k' < |frames| && 0 <= j < |frames[k]| && 0 <= j' < |frames[k']|
      ensures frames[k][j].bottom <= frames[k'][j'].top
    {
      RowTopsIncrease(rows, top, verticalSpacing, k, k');
      assert RowHoldsItems(rows[k]);
    }
  }

  /** Every frame of the corrected placement starts at its row's closed-form top. */
  lemma PlaceRowsClosedFormTops(rows: seq<Row>, left: int, top: int, horizontalSpacing: int, verticalSpacing: int)
    ensures var frames := PlaceRows(rows, left, top, horizontalSpacing, verticalSpacing);
            forall k, j :: 0 <= k < |frames| && 0 <= j < |frames[k]| ==>
              frames[k][j].top == top + SumHeights(rows[..k]) + verticalSpacing * k
  {
    var frames: seq<seq<Rect>> := PlaceRows(rows, left, top, horizontalSpacing, verticalSpacing);
    forall k: int, j: int | 0 <= k < |frames| && 0 <= j < |frames[k]|
      ensures frames[k][j].top == top + SumHeights(rows[..k]) + verticalSpacing * k
    {
      RowTopsClosedForm(rows, top, verticalSpacing, k);
    }
  }

  /** Every row of a measure pass holds its children: its height is not negative and
      no child is taller. */
  lemma MeasuredRowsHoldItems(cfg: RowConfig, cs: seq<Size>)
    ensures forall k :: 0 <= k < |Pack(cfg, cs)| ==> RowHoldsItems(Pack(cfg, cs)[k])
  {
    var rows := Pack(cfg, cs);
    PackConsistent(cfg, cs);
    forall k | 0 <= k < |rows|
      ensures RowHoldsItems(rows[k])
    {
      assert Consistent(rows[k], cfg.spacing);
      ItemsHeightTallest(rows[k].items);
    }
  }

  /** The corrected placement applied to the rows of a measure pass: every child is
      placed exactly once and in input order (the first ensures is quoted from
      `PackPartition`, to keep the statement whole), each row's line starts at its
      closed-form top, and the rows are stacked without overlap. */
  lemma {:induction false} PlaceMeasuredRows(cfg: RowConfig, cs: seq<Size>, left: int, top: int, verticalSpacing: int)
    requires verticalSpacing >= 0
    ensures Flatten(Pack(cfg, cs)) == cs
    ensures var rows := Pack(cfg, cs);
            var frames := PlaceRows(rows, left, top, cfg.spacing, verticalSpacing);
            forall k, j :: 0 <= k < |frames| && 0 <= j < |frames[k]| ==>
              frames[k][j].top == top + SumHeights(rows[..k]) + verticalSpacing * k
    ensures var frames := PlaceRows(Pack(cfg, cs), left, top, cfg.spacing, verticalSpacing);
            forall k, k', j, j' ::
              0 <= k < k' < |frames| && 0 <= j < |frames[k]| && 0 <= j' < |frames[k']| ==>
                frames[k][j].bottom <= frames[k'][j'].top
  {
    var rows := Pack(cfg, cs);
    PackPartition(cfg, cs);
    MeasuredRowsHoldItems(cfg, cs);
    PlaceRowsStacked(rows, left, top, cfg.spacing, verticalSpacing);
    PlaceRowsClosedFormTops(rows, left, top, cfg.spacing, verticalSpacing);
  }
}

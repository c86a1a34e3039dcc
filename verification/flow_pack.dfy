/** The row-building loop of `FlowLayout.onMeasure`: a greedy left-to-right fold of the
    measured children into rows. The loop starts with one empty row; each child either
    joins the current (last) row or, when it would make that row too wide, opens a new
    row which it then joins. */
module FlowPack {
  import opened FlowRow

  function Last(rows: seq<Row>): Row
    requires |rows| >= 1
  {
    rows[|rows| - 1]
  }

  /** One iteration of the loop: place child `c` after the rows built so far. */
  function PackStep(cfg: RowConfig, rows: seq<Row>, c: Size): (rows': seq<Row>)
    requires |rows| >= 1
    ensures |rows'| == |rows| || |rows'| == |rows| + 1
    ensures rows'[..|rows| - 1] == rows[..|rows| - 1]
  {
    var cur := Last(rows);
    if WouldExceedMax(cur, cfg, c.w) then rows + [AddChild(EmptyRow, c, cfg.spacing)]
    else rows[..|rows| - 1] + [AddChild(cur, c, cfg.spacing)]
  }

  /** The rows `onMeasure` builds from the children `cs`, taken in order. */
  function Pack(cfg: RowConfig, cs: seq<Size>): (rows: seq<Row>)
    ensures 1 <= |rows| <= |cs| + 1
    decreases |cs|
  {
    if |cs| == 0 then [EmptyRow]
    else PackStep(cfg, Pack(cfg, cs[..|cs| - 1]), cs[|cs| - 1])
  }

  /** Child `i` opens a new row: the row current when it is reached cannot take it. */
  predicate OpensRow(cfg: RowConfig, cs: seq<Size>, i: int)
    requires 0 <= i < |cs|
  {
    WouldExceedMax(Last(Pack(cfg, cs[..i])), cfg, cs[i].w)
  }

  /** The children of the rows, concatenated in row order. */
  function Flatten(rows: seq<Row>): seq<Size>
    decreases |rows|
  {
    if |rows| == 0 then [] else Flatten(rows[..|rows| - 1]) + rows[|rows| - 1].items
  }

  lemma {:induction false} FlattenSnoc(rows: seq<Row>, r: Row)
    ensures Flatten(rows + [r]) == Flatten(rows) + r.items
  {
    assert (rows + [r])[..|rows|] == rows;
  }

  /** A non-empty sequence is its prefix followed by its last element. */
  lemma SplitLast<T>(xs: seq<T>)
    requires |xs| >= 1
    ensures xs[..|xs| - 1] + [xs[|xs| - 1]] == xs
  {
  }

  /** Packing one more child is one more step of the loop. */
  lemma {:induction false} PackSnoc(cfg: RowConfig, cs: seq<Size>, c: Size)
    ensures Pack(cfg, cs + [c]) == PackStep(cfg, Pack(cfg, cs), c)
  {
    assert (cs + [c])[..|cs|] == cs;
  }

  // ---------------------------------------------------------------------------
  // Partition: every child lands in exactly one row, in input order.

  lemma {:induction false} PackStepFlatten(cfg: RowConfig, rows: seq<Row>, c: Size)
    requires |rows| >= 1
    ensures Flatten(PackStep(cfg, rows, c)) == Flatten(rows) + [c]
  {
    var cur := Last(rows);
    if WouldExceedMax(cur, cfg, c.w) {
      var added := AddChild(EmptyRow, c, cfg.spacing);
      assert PackStep(cfg, rows, c) == rows + [added];
      FlattenSnoc(rows, added);
    } else {
      var init := rows[..|rows| - 1];
      assert rows == init + [cur];
      FlattenSnoc(init, cur);
      var grown := AddChild(cur, c, cfg.spacing);
      assert PackStep(cfg, rows, c) == init + [grown];
      FlattenSnoc(init, grown);
    }
  }

  /** Concatenating the rows' children gives back the input sequence. */
  lemma {:induction false} PackPartition(cfg: RowConfig, cs: seq<Size>)
    ensures Flatten(Pack(cfg, cs)) == cs
    decreases |cs|
  {
    if |cs| == 0 {
      assert Flatten([EmptyRow]) == Flatten([]) + [];
    } else {
      var init := cs[..|cs| - 1];
      PackPartition(cfg, init);
      PackStepFlatten(cfg, Pack(cfg, init), cs[|cs| - 1]);
      assert init + [cs[|cs| - 1]] == cs;
    }
  }

  // ---------------------------------------------------------------------------
  // Every row's running width and height agree with its children.

  lemma {:induction false} PackConsistent(cfg: RowConfig, cs: seq<Size>)
    ensures forall k :: 0 <= k < |Pack(cfg, cs)| ==> Consistent(Pack(cfg, cs)[k], cfg.spacing)
    decreases |cs|
  {
    if |cs| > 0 {
      var rows := Pack(cfg, cs[..|cs| - 1]);
      var c := cs[|cs| - 1];
      PackConsistent(cfg, cs[..|cs| - 1]);
      EmptyRowConsistent(cfg.spacing);
      AddChildConsistent(EmptyRow, c, cfg.spacing);
      AddChildConsistent(Last(rows), c, cfg.spacing);
    }
  }

  // ---------------------------------------------------------------------------
  // Unspecified width mode: no wrapping at all.

  /** One step of `PackUnbounded`: a row made of the first children, joined by the
      last child, is the row made of all of them. */
  lemma {:induction false} UnboundedStep(cs: seq<Size>, spacing: int)
    requires |cs| > 0
    ensures var init := cs[..|cs| - 1];
            AddChild(Row(ItemsWidth(init, spacing), ItemsHeight(init), init), cs[|cs| - 1], spacing) ==
              Row(ItemsWidth(cs, spacing), ItemsHeight(cs), cs)
  {
    SplitLast(cs);
  }

  /** When the width mode is 0 every child joins the single initial row, which is then
      the whole input with the width and height its children determine. */
  lemma {:induction false} PackUnbounded(cfg: RowConfig, cs: seq<Size>)
    requires cfg.widthMode == 0
    ensures |Pack(cfg, cs)| == 1
    ensures Pack(cfg, cs)[0] == Row(ItemsWidth(cs, cfg.spacing), ItemsHeight(cs), cs)
    decreases |cs|
  {
    if |cs| > 0 {
      var init := cs[..|cs| - 1];
      PackUnbounded(cfg, init);
      var r0 := Pack(cfg, init)[0];
      assert !WouldExceedMax(r0, cfg, cs[|cs| - 1].w);
      UnboundedStep(cs, cfg.spacing);
    }
  }

  // ---------------------------------------------------------------------------
  // Width bound in bounded mode.

  /** In a bounded mode, a row that was joined by a child it did not start with is within
      the bound; so only a row holding a single child may be too wide. */
  lemma {:induction false} PackRowWidthBound(cfg: RowConfig, cs: seq<Size>)
    requires cfg.widthMode != 0
    ensures forall k :: 0 <= k < |Pack(cfg, cs)| && |Pack(cfg, cs)[k].items| >= 2 ==>
              Pack(cfg, cs)[k].width <= cfg.maxWidth
    decreases |cs|
  {
    if |cs| > 0 {
      PackRowWidthBound(cfg, cs[..|cs| - 1]);
    }
  }

  // ---------------------------------------------------------------------------
  // Only the first row can be empty.

  lemma {:induction false} PackLaterRowsNonEmpty(cfg: RowConfig, cs: seq<Size>)
    ensures forall k :: 1 <= k < |Pack(cfg, cs)| ==> |Pack(cfg, cs)[k].items| >= 1
    decreases |cs|
  {
    if |cs| > 0 {
      PackLaterRowsNonEmpty(cfg, cs[..|cs| - 1]);
    }
  }

  /** Once the first row holds a child, or is no longer the current row, later
      children leave its emptiness as it is. */
  lemma {:induction false} PackStepFirstRow(cfg: RowConfig, rows: seq<Row>, c: Size)
    requires |rows| >= 2 || (|rows| == 1 && |rows[0].items| >= 1)
    ensures |PackStep(cfg, rows, c)[0].items| == 0 <==> |rows[0].items| == 0
  {
    var rows' := PackStep(cfg, rows, c);
    if |rows| >= 2 {
      assert rows'[..|rows| - 1][0] == rows[..|rows| - 1][0];
    } else if WouldExceedMax(rows[0], cfg, c.w) {
      assert rows' == rows + [AddChild(EmptyRow, c, cfg.spacing)];
    } else {
      assert rows' == [AddChild(rows[0], c, cfg.spacing)];
    }
  }

  /** The first row is empty exactly when there are no children, or when in a bounded
      mode the first child alone is wider than the usable width (a new row is then
      opened before that child is added, and the initial row is left empty). */
  lemma {:induction false} PackFirstRowEmpty(cfg: RowConfig, cs: seq<Size>)
    ensures |Pack(cfg, cs)[0].items| == 0 <==>
              |cs| == 0 || (cfg.widthMode != 0 && cs[0].w > cfg.maxWidth)
    decreases |cs|
  {
    if |cs| == 1 {
      assert cs[..0] == [];
      assert Pack(cfg, cs) == PackStep(cfg, [EmptyRow], cs[0]);
    } else if |cs| > 1 {
      var init := cs[..|cs| - 1];
      var rows := Pack(cfg, init);
      PackFirstRowEmpty(cfg, init);
      assert init[0] == cs[0];
      assert |rows[0].items| == 0 <==> (cfg.widthMode != 0 && cs[0].w > cfg.maxWidth);
      if |rows| == 1 {
        PackPartition(cfg, init);
        assert Flatten(rows) == Flatten([]) + rows[0].items;
        assert |rows[0].items| >= 1;
      }
      PackStepFirstRow(cfg, rows, cs[|cs| - 1]);
      assert Pack(cfg, cs) == PackStep(cfg, rows, cs[|cs| - 1]);
    }
  }

  /** The bound stated the other way round, for a non-negative usable width: a row wider
      than the usable width holds exactly one child. */
  lemma PackOversizedRowIsSingle(cfg: RowConfig, cs: seq<Size>)
    requires cfg.widthMode != 0 && cfg.maxWidth >= 0
    ensures forall k :: 0 <= k < |Pack(cfg, cs)| && Pack(cfg, cs)[k].width > cfg.maxWidth ==>
              |Pack(cfg, cs)[k].items| == 1
  {
    var rows := Pack(cfg, cs);
    PackRowWidthBound(cfg, cs);
    PackConsistent(cfg, cs);
    forall k | 0 <= k < |rows| && rows[k].width > cfg.maxWidth
      ensures |rows[k].items| == 1
    {
      assert Consistent(rows[k], cfg.spacing);
    }
  }

  // ---------------------------------------------------------------------------
  // Growth of the row list along the input.

  /** Handling more children never removes a row: the rows of a prefix of the input
      are at most as many as the rows of the whole input. */
  lemma {:induction false} PackLengthMonotone(cfg: RowConfig, cs: seq<Size>, j: nat)
    requires j <= |cs|
    ensures |Pack(cfg, cs[..j])| <= |Pack(cfg, cs)|
    decreases |cs|
  {
    if j < |cs| {
      var init := cs[..|cs| - 1];
      PackLengthMonotone(cfg, init, j);
      assert init[..j] == cs[..j];
      assert Pack(cfg, cs) == PackStep(cfg, Pack(cfg, init), cs[|cs| - 1]);
    } else {
      assert cs[..j] == cs;
    }
  }

  /** Children exactly as wide as a positive usable width each fill a row of their own:
      the first joins the initial row, and every later one finds the current row full. */
  lemma {:induction false} PackFullWidth(cfg: RowConfig, cs: seq<Size>)
    requires cfg.widthMode != 0 && cfg.maxWidth > 0 && cfg.spacing >= 0 && |cs| >= 1
    requires forall i :: 0 <= i < |cs| ==> cs[i].w == cfg.maxWidth
    ensures |Pack(cfg, cs)| == |cs|
    ensures forall k :: 0 <= k < |cs| ==>
              Pack(cfg, cs)[k] == Row(cfg.maxWidth, Max(0, cs[k].h), [cs[k]])
    decreases |cs|
  {
    var c := cs[|cs| - 1];
    var init := cs[..|cs| - 1];
    if |cs| == 1 {
      assert init == [];
      assert !WouldExceedMax(EmptyRow, cfg, c.w);
      assert Pack(cfg, cs) == [AddChild(EmptyRow, c, cfg.spacing)];
    } else {
      PackFullWidth(cfg, init);
      var rows := Pack(cfg, init);
      assert WouldExceedMax(Last(rows), cfg, c.w);
      assert Pack(cfg, cs) == rows + [AddChild(EmptyRow, c, cfg.spacing)];
      forall k | 0 <= k < |cs| - 1
        ensures Pack(cfg, cs)[k] == Row(cfg.maxWidth, Max(0, cs[k].h), [cs[k]])
      {
        assert init[k] == cs[k];
      }
    }
  }

  /** The packing does not always use the fewest rows: a lone child wider than the
      usable width, under a wrapping mode, finds even the empty initial row too narrow.
      It opens a second row, and the initial row stays empty. */
  lemma OversizedLoneChildTwoRows(cfg: RowConfig, c: Size)
    requires cfg.widthMode != 0 && c.w > cfg.maxWidth
    ensures |Pack(cfg, [c])| == 2
    ensures Pack(cfg, [c])[0] == EmptyRow
    ensures Pack(cfg, [c])[1].items == [c]
  {
    assert [c][..0] == [];
    assert WouldExceedMax(EmptyRow, cfg, c.w);
  }

  /** A new row is added exactly at the children that open one. */
  lemma PackOpensRow(cfg: RowConfig, cs: seq<Size>, i: int)
    requires 0 <= i < |cs|
    ensures OpensRow(cfg, cs, i) ==> |Pack(cfg, cs[..i + 1])| == |Pack(cfg, cs[..i])| + 1
    ensures !OpensRow(cfg, cs, i) ==> |Pack(cfg, cs[..i + 1])| == |Pack(cfg, cs[..i])|
  {
    assert cs[..i + 1][..i] == cs[..i];
  }
}

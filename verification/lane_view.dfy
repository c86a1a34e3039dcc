/** `PlotLaneView`: the per-row lane state of the commit graph and the drawing of
    one row. Geometry is symbolic: an x coordinate is the lane whose centre it is
    (the view's x for lane n is (n + 1) * 2 * RADIUS dp), and a y coordinate is the
    top, the middle or the bottom of the row. */
module LaneView {
  import opened LanePalette

  /** The view's radius in dp, and the lane-centre x coordinate it induces. */
  const RADIUS_DP: int := 3

  function CenterXDp(lane: int): int {
    (lane + 1) * RADIUS_DP * 2
  }

  /** Lane centres are strictly increasing in the lane, so naming a point by its lane
      loses nothing: distinct lanes are distinct x coordinates, in the same order. */
  lemma CenterXDpIncreasing(a: int, b: int)
    requires a < b
    ensures CenterXDp(a) + 2 * RADIUS_DP <= CenterXDp(b)
  {
  }

  datatype YPos = Top | Mid | Bottom

  datatype Point = Point(lane: int, y: YPos)

  /** A drawing primitive: a stroked line, or the node circle (always of radius
      RADIUS). */
  datatype DrawOp = Line(from: Point, to: Point, color: Color) | Circle(center: Point, color: Color)

  /** The view's fields: its own lane, the child and parent lanes (most recently added
      first), and the set of lanes passing through the row. */
  datatype LaneState = LaneState(lane: int, children: seq<int>, parents: seq<int>, passing: set<int>)

  /** A freshly constructed view. */
  const Initial: LaneState := LaneState(0, [], [], {})

  // ---------------------------------------------------------------------------
  // Mutators.

  function SetLane(s: LaneState, lane: int): (r: LaneState)
    ensures r.lane == lane
    ensures r.children == s.children && r.parents == s.parents && r.passing == s.passing
  {
    s.(lane := lane)
  }

  /** `addChildLane` inserts at the front of the child list and changes nothing else. */
  function AddChildLane(s: LaneState, child: int): (r: LaneState)
    ensures |r.children| == |s.children| + 1 && r.children[0] == child && r.children[1..] == s.children
    ensures r.lane == s.lane && r.parents == s.parents && r.passing == s.passing
  {
    s.(children := [child] + s.children)
  }

  /** `addParentLane` inserts at the front of the parent list and changes nothing else. */
  function AddParentLane(s: LaneState, parent: int): (r: LaneState)
    ensures |r.parents| == |s.parents| + 1 && r.parents[0] == parent && r.parents[1..] == s.parents
    ensures r.lane == s.lane && r.children == s.children && r.passing == s.passing
  {
    s.(parents := [parent] + s.parents)
  }

  /** `clearLanes` empties both edge lists; the lane and the passing set stay. */
  function ClearLanes(s: LaneState): (r: LaneState)
    ensures r.children == [] && r.parents == []
    ensures r.lane == s.lane && r.passing == s.passing
  {
    s.(children := [], parents := [])
  }

  /** `setPassing` replaces the passing set by the positions of the given lanes;
      repeated positions collapse, and the previous set is forgotten. */
  function SetPassing(s: LaneState, positions: seq<int>): (r: LaneState)
    ensures forall p :: p in r.passing <==> p in positions
    ensures |r.passing| <= |positions|
    ensures r.lane == s.lane && r.children == s.children && r.parents == s.parents
  {
    SetOfSeqCard(positions);
    s.(passing := set p | p in positions)
  }

  /** No two positions of `xs` hold the same value. */
  predicate Distinct<T(==)>(xs: seq<T>) {
    forall i, j :: 0 <= i < j < |xs| ==> xs[i] != xs[j]
  }

  /** A sequence has at least as many entries as it has distinct values, and exactly as
      many when no value repeats. */
  lemma {:induction false} SetOfSeqCard(xs: seq<int>)
    ensures |set p | p in xs| <= |xs|
    ensures Distinct(xs) ==> |set p | p in xs| == |xs|
    decreases |xs|
  {
    if |xs| > 0 {
      var init := xs[..|xs| - 1];
      var x := xs[|xs| - 1];
      SetOfSeqCard(init);
      assert xs == init + [x];
      assert (set p | p in xs) == (set p | p in init) + {x};
      if Distinct(xs) {
        assert Distinct(init);
        assert x !in init;
      }
    }
  }

  /** Adding the child lanes `added`, one call after another. */
  function AddChildLanes(s: LaneState, added: seq<int>): LaneState
    decreases |added|
  {
    if |added| == 0 then s else AddChildLane(AddChildLanes(s, added[..|added| - 1]), added[|added| - 1])
  }

  /** Adding the parent lanes `added`, one call after another. */
  function AddParentLanes(s: LaneState, added: seq<int>): LaneState
    decreases |added|
  {
    if |added| == 0 then s else AddParentLane(AddParentLanes(s, added[..|added| - 1]), added[|added| - 1])
  }

  /** Reference definition: `xs` back to front. */
  function Reverse(xs: seq<int>): (r: seq<int>)
    ensures |r| == |xs|
  {
    seq(|xs|, i requires 0 <= i < |xs| => xs[|xs| - 1 - i])
  }

  /** The child list holds the added lanes most recently added first, ahead of the
      lanes that were there before; nothing else changes. */
  lemma {:induction false} AddChildLanesMostRecentFirst(s: LaneState, added: seq<int>)
    ensures AddChildLanes(s, added).children == Reverse(added) + s.children
    ensures AddChildLanes(s, added).parents == s.parents
    ensures AddChildLanes(s, added).passing == s.passing && AddChildLanes(s, added).lane == s.lane
    decreases |added|
  {
    if |added| > 0 {
      var init := added[..|added| - 1];
      AddChildLanesMostRecentFirst(s, init);
      assert Reverse(added) == [added[|added| - 1]] + Reverse(init);
    }
  }

  /** The parent list holds the added lanes most recently added first, ahead of the
      lanes that were there before; nothing else changes. */
  lemma {:induction false} AddParentLanesMostRecentFirst(s: LaneState, added: seq<int>)
    ensures AddParentLanes(s, added).parents == Reverse(added) + s.parents
    ensures AddParentLanes(s, added).children == s.children
    ensures AddParentLanes(s, added).passing == s.passing && AddParentLanes(s, added).lane == s.lane
    decreases |added|
  {
    if |added| > 0 {
      var init := added[..|added| - 1];
      AddParentLanesMostRecentFirst(s, init);
      assert Reverse(added) == [added[|added| - 1]] + Reverse(init);
    }
  }

  // ---------------------------------------------------------------------------
  // Drawing one row.

  /** The lane an edge to lane `n` is drawn through: a lane that is passing through
      the row is replaced by the view's own lane. */
  function Effective(s: LaneState, n: int): int {
    if n in s.passing then s.lane else n
  }

  /** Every lane whose colour is looked up is not negative. */
  predicate Drawable(s: LaneState) {
    && s.lane >= 0
    && (forall i :: 0 <= i < |s.children| ==> s.children[i] >= 0)
    && (forall i :: 0 <= i < |s.parents| ==> s.parents[i] >= 0)
    && (forall p :: p in s.passing ==> p >= 0)
  }

  /** `order` lists the passing set, each lane once: the set's iteration order. */
  predicate Enumerates(order: seq<int>, lanes: set<int>) {
    && Distinct(order)
    && (forall p :: p in lanes ==> p in order)
    && (forall i :: 0 <= i < |order| ==> order[i] in lanes)
  }

  /** An edge from the node, at the middle of the row, to lane `n` at the row's edge
      `end`, in the colour of the lane it is drawn through. */
  function EdgeLine(s: LaneState, n: int, end: YPos): DrawOp
    requires s.lane >= 0 && n >= 0
  {
    Line(Point(s.lane, Mid), Point(Effective(s, n), end), LaneColor(Effective(s, n)))
  }

  /** A lane passing through the row: top to bottom, in its own colour. */
  function PassingLine(n: int): DrawOp
    requires n >= 0
  {
    Line(Point(n, Top), Point(n, Bottom), LaneColor(n))
  }

  /** An enumeration of a set lists as many lanes as the set holds. */
  lemma EnumerationSize(order: seq<int>, lanes: set<int>)
    requires Enumerates(order, lanes)
    ensures |order| == |lanes|
  {
    SetOfSeqCard(order);
    var listed := set p | p in order;
    assert listed == lanes by {
      forall p | p in listed
        ensures p in lanes
      {
        var i :| 0 <= i < |order| && order[i] == p;
      }
      forall p | p in lanes
        ensures p in listed
      {
      }
    }
  }

  /** The edges to the child lanes, in list order, each ending at the row's top. */
  function ChildEdges(s: LaneState): (ops: seq<DrawOp>)
    requires Drawable(s)
    ensures |ops| == |s.children|
    ensures forall i :: 0 <= i < |s.children| ==> ops[i] == EdgeLine(s, s.children[i], Top)
  {
    seq(|s.children|, i requires 0 <= i < |s.children| => EdgeLine(s, s.children[i], Top))
  }

  /** The edges to the parent lanes, in list order, each ending at the row's bottom. */
  function ParentEdges(s: LaneState): (ops: seq<DrawOp>)
    requires Drawable(s)
    ensures |ops| == |s.parents|
    ensures forall i :: 0 <= i < |s.parents| ==> ops[i] == EdgeLine(s, s.parents[i], Bottom)
  {
    seq(|s.parents|, i requires 0 <= i < |s.parents| => EdgeLine(s, s.parents[i], Bottom))
  }

  /** One vertical line per passing lane, in the order given. */
  function PassingLines(order: seq<int>): (ops: seq<DrawOp>)
    requires forall i :: 0 <= i < |order| ==> order[i] >= 0
    ensures |ops| == |order|
    ensures forall i :: 0 <= i < |order| ==> ops[i] == PassingLine(order[i])
  {
    seq(|order|, i requires 0 <= i < |order| => PassingLine(order[i]))
  }

  /** `onDraw`: the child edges, then the parent edges, then the passing lanes in the
      set's iteration order `order`, then the node circle on top. One op per child,
      parent and passing lane, and the circle last. */
  function Render(s: LaneState, order: seq<int>): (ops: seq<DrawOp>)
    requires Drawable(s) && Enumerates(order, s.passing)
    ensures |ops| == |s.children| + |s.parents| + |s.passing| + 1
    ensures ops[|ops| - 1] == Circle(Point(s.lane, Mid), LaneColor(s.lane))
  {
    EnumerationSize(order, s.passing);
    ChildEdges(s) + ParentEdges(s) + PassingLines(order) + [Circle(Point(s.lane, Mid), LaneColor(s.lane))]
  }

  /** The i-th op is the edge to the i-th child lane: from the node to the row's top,
      ending on the child's lane in its colour, unless that lane is passing through the
      row, in which case it ends on the node's own lane in the node's colour. */
  lemma RenderChildEdge(s: LaneState, order: seq<int>, i: int)
    requires Drawable(s) && Enumerates(order, s.passing) && 0 <= i < |s.children|
    ensures var op := Render(s, order)[i];
            var n := s.children[i];
            && op.Line? && op.from == Point(s.lane, Mid) && op.to.y == Top
            && (n in s.passing ==> op.to.lane == s.lane && op.color == LaneColor(s.lane))
            && (n !in s.passing ==> op.to.lane == n && op.color == LaneColor(n))
  {
    var edges := ChildEdges(s);
    assert Render(s, order)[i] == edges[i];
  }

  /** After the child edges come the edges to the parent lanes, in list order, to the
      row's bottom, with the same substitution for passing lanes. */
  lemma RenderParentEdge(s: LaneState, order: seq<int>, i: int)
    requires Drawable(s) && Enumerates(order, s.passing) && 0 <= i < |s.parents|
    ensures var op := Render(s, order)[|s.children| + i];
            var n := s.parents[i];
            && op.Line? && op.from == Point(s.lane, Mid) && op.to.y == Bottom
            && (n in s.passing ==> op.to.lane == s.lane && op.color == LaneColor(s.lane))
            && (n !in s.passing ==> op.to.lane == n && op.color == LaneColor(n))
  {
    var front := ChildEdges(s) + ParentEdges(s);
    assert Render(s, order)[|s.children| + i] == front[|s.children| + i];
    assert front[|s.children| + i] == ParentEdges(s)[i];
  }

  /** Between the edges and the circle, the ops are exactly the passing lines: each a
      vertical line down a passing lane, and every passing lane drawn. */
  lemma RenderPassingSection(s: LaneState, order: seq<int>)
    requires Drawable(s) && Enumerates(order, s.passing)
    ensures var ops := Render(s, order);
            var section := ops[|s.children| + |s.parents| .. |ops| - 1];
            && (forall k :: 0 <= k < |section| ==>
                  section[k].Line? && section[k].from.lane in s.passing &&
                  section[k] == PassingLine(section[k].from.lane))
            && (forall p :: p in s.passing ==> PassingLine(p) in section)
  {
    var edges := ChildEdges(s) + ParentEdges(s);
    var passing := PassingLines(order);
    var node := [Circle(Point(s.lane, Mid), LaneColor(s.lane))];
    var ops := Render(s, order);
    assert ops == edges + passing + node;
    assert ops[|edges| .. |ops| - 1] == passing;
    forall p | p in s.passing
      ensures PassingLine(p) in passing
    {
      var i :| 0 <= i < |order| && order[i] == p;
      assert passing[i] == PassingLine(p);
    }
  }

  /** Everything drawn before the node circle is a line. */
  lemma RenderLinesBeforeCircle(s: LaneState, order: seq<int>)
    requires Drawable(s) && Enumerates(order, s.passing)
    ensures var ops := Render(s, order);
            forall k :: 0 <= k < |ops| - 1 ==> ops[k].Line?
  {
    var childOps := ChildEdges(s);
    var parentOps := ParentEdges(s);
    var passingOps := PassingLines(order);
    var ops := Render(s, order);
    var off := |childOps| + |parentOps|;
    assert ops == childOps + parentOps + passingOps + [Circle(Point(s.lane, Mid), LaneColor(s.lane))];
    forall k | 0 <= k < |ops| - 1
      ensures ops[k].Line?
    {
      if k < |childOps| {
        assert ops[k] == childOps[k];
      } else if k < off {
        assert ops[k] == parentOps[k - |childOps|];
      } else {
        assert ops[k] == passingOps[k - off];
      }
    }
  }

  // ---------------------------------------------------------------------------
  // Properties of a drawn row.

  /** A duplicate-free sequence holds each of its values exactly once. */
  lemma {:induction false} DistinctMultiplicity<T>(xs: seq<T>, x: T)
    requires Distinct(xs)
    ensures multiset(xs)[x] == if x in xs then 1 else 0
    decreases |xs|
  {
    if |xs| > 0 {
      var init := xs[..|xs| - 1];
      assert xs == init + [xs[|xs| - 1]];
      assert Distinct(init);
      DistinctMultiplicity(init, x);
      if x == xs[|xs| - 1] {
        assert x !in init;
      }
    }
  }

  /** Two enumerations of the passing set draw the same passing lines, each once. */
  lemma PassingLinesPermute(lanes: set<int>, o1: seq<int>, o2: seq<int>)
    requires forall p :: p in lanes ==> p >= 0
    requires Enumerates(o1, lanes) && Enumerates(o2, lanes)
    ensures multiset(PassingLines(o1)) == multiset(PassingLines(o2))
  {
    var a := PassingLines(o1);
    var b := PassingLines(o2);
    assert Distinct(a);
    assert Distinct(b);
    forall op
      ensures multiset(a)[op] == multiset(b)[op]
    {
      DistinctMultiplicity(a, op);
      DistinctMultiplicity(b, op);
      if op in a {
        var i :| 0 <= i < |a| && a[i] == op;
        assert o1[i] in o2;
        var j :| 0 <= j < |o2| && o2[j] == o1[i];
        assert b[j] == op;
      }
      if op in b {
        var j :| 0 <= j < |b| && b[j] == op;
        assert o2[j] in o1;
        var i :| 0 <= i < |o1| && o1[i] == o2[j];
        assert a[i] == op;
      }
    }
  }

  /** The iteration order of the passing set does not matter: any two orders draw the
      same edges and the same node circle at the same positions, and the same ops
      altogether, only the passing lines possibly permuted among themselves. */
  lemma RenderOrderIrrelevant(s: LaneState, o1: seq<int>, o2: seq<int>)
    requires Drawable(s) && Enumerates(o1, s.passing) && Enumerates(o2, s.passing)
    ensures var edges := |s.children| + |s.parents|;
            Render(s, o1)[..edges] == Render(s, o2)[..edges]
    ensures Render(s, o1)[|Render(s, o1)| - 1] == Render(s, o2)[|Render(s, o2)| - 1]
    ensures multiset(Render(s, o1)) == multiset(Render(s, o2))
  {
    var edges := ChildEdges(s) + ParentEdges(s);
    var node := [Circle(Point(s.lane, Mid), LaneColor(s.lane))];
    assert Render(s, o1) == edges + PassingLines(o1) + node;
    assert Render(s, o2) == edges + PassingLines(o2) + node;
    PassingLinesPermute(s.passing, o1, o2);
    assert (edges + PassingLines(o1) + node)[..|edges|] == edges;
    assert (edges + PassingLines(o2) + node)[..|edges|] == edges;
  }

  /** After `clearLanes` and a series of `addChildLane` calls, the row draws the child
      edges newest first: the i-th op goes to the lane added i calls before the last. */
  lemma {:induction false} RenderDrawsNewestChildFirst(s: LaneState, added: seq<int>, order: seq<int>)
    requires Drawable(s) && Enumerates(order, s.passing)
    requires forall i :: 0 <= i < |added| ==> added[i] >= 0
    ensures var s' := AddChildLanes(ClearLanes(s), added);
            Drawable(s') && Enumerates(order, s'.passing) &&
            |Render(s', order)| == |added| + |s.passing| + 1 &&
            forall i :: 0 <= i < |added| ==>
              Render(s', order)[i].to == Point(Effective(s, added[|added| - 1 - i]), Top)
  {
    var s' := AddChildLanes(ClearLanes(s), added);
    AddChildLanesMostRecentFirst(ClearLanes(s), added);
    assert |s'.children| == |added| && |s'.parents| == 0;
    assert forall i :: 0 <= i < |added| ==> s'.children[i] == Reverse(added)[i] == added[|added| - 1 - i];
    assert Drawable(s');
    forall i | 0 <= i < |added|
      ensures Render(s', order)[i].to == Point(Effective(s, added[|added| - 1 - i]), Top)
    {
      RenderChildEdge(s', order, i);
    }
  }

  /** A child edge to a lane that is passing through the row is drawn to the node's
      own lane, in the node's colour: lane 1 with child 3 passing draws to lane 1. */
  lemma SubstitutedChildEdge()
    ensures var s := LaneState(1, [3], [], {3});
            Render(s, [3])[0] == Line(Point(1, Mid), Point(1, Top), LaneColor(1))
  {
    var s := LaneState(1, [3], [], {3});
    assert Enumerates([3], s.passing);
  }

  /** A passing lane is drawn straight down its own lane in its own colour, whatever
      the node's lane. */
  lemma PassingLaneUnsubstituted(lane: int)
    requires lane >= 0
    ensures var s := LaneState(lane, [], [], {4});
            Render(s, [4])[0] == Line(Point(4, Top), Point(4, Bottom), LaneColor(4))
  {
    var s := LaneState(lane, [], [], {4});
    assert Enumerates([4], s.passing);
    var op := Render(s, [4])[0];
    assert op.from.lane in s.passing;
  }

  /** A freshly constructed view, with nothing passing, draws only its node circle, in
      lane 0 and lane 0's colour. */
  lemma RenderInitial()
    ensures Drawable(Initial) && Enumerates([], Initial.passing)
    ensures Render(Initial, []) == [Circle(Point(0, Mid), Blue)]
  {
    var ops := Render(Initial, []);
    assert |ops| == 1;
  }
}

/** The colour of a commit-graph lane in `PlotLaneView`: a fixed five-entry palette
    indexed by the lane number modulo 5. */
module LanePalette {
  import opened Outcomes

  /** The palette entries, in palette order. */
  datatype Color =
    | Blue    // #0099CC
    | Purple  // #9933CC
    | Green   // #669900
    | Orange  // #FF8800
    | Red     // #CC0000

  const COLORS: seq<Color> := [Blue, Purple, Green, Orange, Red]

  /** The colour of a lane, defined for every lane that is not negative. */
  function LaneColor(lane: int): (c: Color)
    requires lane >= 0
    ensures c in COLORS
  {
    COLORS[lane % 5]
  }

  /** Lanes five apart share a colour. */
  lemma {:induction false} LaneColorPeriodic(lane: int, n: nat)
    requires lane >= 0
    ensures LaneColor(lane + 5 * n) == LaneColor(lane)
    decreases n
  {
    if n > 0 {
      LaneColorPeriodic(lane, n - 1);
      assert lane + 5 * n == (lane + 5 * (n - 1)) + 5;
    }
  }

  /** Within any five consecutive lanes every lane has its own colour. */
  lemma LaneColorDistinctWithinCycle(a: int, b: int)
    requires 0 <= a < b < a + 5
    ensures LaneColor(a) != LaneColor(b)
  {
  }

  /** Lanes 2 and 7 are drawn in the same colour. */
  lemma SameColorTwoAndSeven()
    ensures LaneColor(2) == LaneColor(7) == Green
  {
  }

  /** Kotlin's `%` on `Int`: the remainder takes the sign of the dividend. */
  function TruncatedRem(a: int, b: int): (r: int)
    requires b > 0
    ensures a >= 0 ==> r == a % b
    ensures a < 0 ==> -b < r <= 0 && (r == 0 <==> (-a) % b == 0)
  {
    if a >= 0 then a % b else -((-a) % b)
  }

  /** `COLORS[lane % 5]` exactly as the source evaluates it, including the array
      access that fails on a negative index. */
  function PaletteLookup(lane: int): (r: Outcome<Color>)
    ensures lane >= 0 ==> r == Ok(LaneColor(lane))
    ensures r.IndexOutOfBounds? <==> lane < 0 && lane % 5 != 0
  {
    var i := TruncatedRem(lane, 5);
    assert lane < 0 ==> ((-lane) % 5 == 0 <==> lane % 5 == 0);
    if 0 <= i < 5 then Ok(COLORS[i]) else IndexOutOfBounds(i)
  }
}

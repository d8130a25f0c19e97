/**
 * The bus position and countdown the route timeline shows, as a function of
 * the elapsed milliseconds since trip start and the accumulated delay.
 * Percentages are exact reals: the linear interpolation, not its rounding.
 */
module Timeline {
  import Constants
  import opened Text

  /** Track positions of the five stop markers, in percent. */
  const YNodes: seq<int> := [0, 25, 50, 75, 100]

  /** Time of each stop in ms: its offset, plus the delay for every stop but the first. */
  function NodeTimes(delaySec: nat): (t: seq<int>)
    ensures |t| == |Constants.Stops|
  {
    seq(|Constants.Stops|, i requires 0 <= i < |Constants.Stops| =>
      Constants.Stops[i].timeOffset * 1000 + (if i > 0 then delaySec * 1000 else 0))
  }

  /** The delay moves every node after the first by the same amount, so only the first segment gets longer. */
  lemma NodeTimesDelay(delaySec: nat)
    ensures NodeTimes(delaySec) == [0, 30000 + delaySec * 1000, 60000 + delaySec * 1000,
                                   90000 + delaySec * 1000, 150000 + delaySec * 1000]
    ensures forall i :: 0 < i < 5 ==> NodeTimes(delaySec)[i] == NodeTimes(0)[i] + delaySec * 1000
    ensures NodeTimes(delaySec)[1] - NodeTimes(delaySec)[0] == 30000 + delaySec * 1000
    ensures forall i :: 1 <= i < 4 ==>
      NodeTimes(delaySec)[i + 1] - NodeTimes(delaySec)[i] == NodeTimes(0)[i + 1] - NodeTimes(0)[i]
  {
    Constants.StopsShape();
  }

  function TotalDurationMs(delaySec: nat): int {
    NodeTimes(delaySec)[4]
  }

  function Clamp(x: int, lo: int, hi: int): int {
    if x < lo then lo else if x > hi then hi else x
  }

  function Clamp01(a: real): real {
    if a < 0.0 then 0.0 else if a > 1.0 then 1.0 else a
  }

  /** Position inside segment k: its start node plus the clamped fraction of the segment. */
  function Interp(c: int, t: seq<int>, k: nat): real
    requires k + 1 < |t| && k + 1 < |YNodes| && t[k] < t[k + 1]
  {
    var alpha := (c - t[k]) as real / (t[k + 1] - t[k]) as real;
    YNodes[k] as real + Clamp01(alpha) * (YNodes[k + 1] - YNodes[k]) as real
  }

  /**
   * `currentY` of the animation step: clamp the elapsed time to the trip,
   * 100 at or after arrival, otherwise the first segment whose end is `>=`
   * the clamped time.
   */
  function Position(elapsedMs: int, delaySec: nat): real {
    NodeTimesDelay(delaySec);
    var t := NodeTimes(delaySec);
    var total := t[4];
    var c := Clamp(elapsedMs, 0, total);
    if c >= total then 100.0
    else if c <= t[1] then Interp(c, t, 0)
    else if c <= t[2] then Interp(c, t, 1)
    else if c <= t[3] then Interp(c, t, 2)
    else if c <= t[4] then Interp(c, t, 3)
    else 0.0
  }

  /** `ceil(max(total - clamped, 0) / 30000)`: the countdown, one unit per 30 s. */
  function MinsRemaining(elapsedMs: int, delaySec: nat): (r: nat)
    ensures var rem := TotalDurationMs(delaySec) - Clamp(elapsedMs, 0, TotalDurationMs(delaySec));
      r * 30000 >= rem && (r - 1) * 30000 < rem
  {
    NodeTimesDelay(delaySec);
    var total := TotalDurationMs(delaySec);
    var rem := total - Clamp(elapsedMs, 0, total);
    (rem + 29999) / 30000
  }

  // ------------------------------------------------------------ properties

  /** Segment k covers positions 25k..25(k+1), growing with time. */
  lemma InterpRange(c: int, t: seq<int>, k: nat)
    requires k + 1 < |t| && k + 1 < |YNodes| && t[k] < t[k + 1]
    requires YNodes[k + 1] - YNodes[k] == 25
    ensures YNodes[k] as real <= Interp(c, t, k) <= YNodes[k + 1] as real
  {
  }

  lemma DivMonotone(a: real, b: real, d: real)
    requires a <= b && d > 0.0
    ensures a / d <= b / d
  {
    assert b / d - a / d == (b - a) / d;
  }

  lemma InterpMonotone(c1: int, c2: int, t: seq<int>, k: nat)
    requires k + 1 < |t| && k + 1 < |YNodes| && t[k] < t[k + 1] && c1 <= c2
    requires YNodes[k + 1] - YNodes[k] == 25
    ensures Interp(c1, t, k) <= Interp(c2, t, k)
  {
    var d := (t[k + 1] - t[k]) as real;
    DivMonotone((c1 - t[k]) as real, (c2 - t[k]) as real, d);
  }

  /** Which segment a clamped time falls in (4 for arrival). */
  function Segment(elapsedMs: int, delaySec: nat): (k: nat)
    ensures k <= 4
  {
    var t := NodeTimes(delaySec);
    var c := Clamp(elapsedMs, 0, t[4]);
    if c >= t[4] then 4 else if c <= t[1] then 0 else if c <= t[2] then 1 else if c <= t[3] then 2 else 3
  }

  /** The position lies between the markers of its segment. */
  lemma PositionInSegment(elapsedMs: int, delaySec: nat)
    ensures var k := Segment(elapsedMs, delaySec);
      (k < 4 ==> YNodes[k] as real <= Position(elapsedMs, delaySec) <= YNodes[k + 1] as real)
      && (k == 4 ==> Position(elapsedMs, delaySec) == 100.0)
  {
    NodeTimesDelay(delaySec);
    var t := NodeTimes(delaySec);
    var k := Segment(elapsedMs, delaySec);
    var c := Clamp(elapsedMs, 0, t[4]);
    if k < 4 {
      InterpRange(c, t, k);
    }
  }

  /** For every elapsed time, negative or past arrival included, the position is a percentage. */
  lemma PositionBounds(elapsedMs: int, delaySec: nat)
    ensures 0.0 <= Position(elapsedMs, delaySec) <= 100.0
  {
    PositionInSegment(elapsedMs, delaySec);
  }

  /** Before the start the bus sits at 0; at or after arrival exactly at 100. */
  lemma PositionEnds(elapsedMs: int, delaySec: nat)
    ensures elapsedMs <= 0 ==> Position(elapsedMs, delaySec) == 0.0
    ensures elapsedMs >= TotalDurationMs(delaySec) ==> Position(elapsedMs, delaySec) == 100.0
  {
    NodeTimesDelay(delaySec);
  }

  /** At the time of node k the bus is exactly on marker k: a boundary belongs to the earlier segment. */
  lemma PositionAtNode(delaySec: nat, k: nat)
    requires k < 5
    ensures Position(NodeTimes(delaySec)[k], delaySec) == 25.0 * k as real
  {
    NodeTimesDelay(delaySec);
    var t := NodeTimes(delaySec);
    assert Clamp(t[k], 0, t[4]) == t[k];
    if k == 0 {
      InterpAtEnds(t, 0);
      assert Position(t[k], delaySec) == Interp(t[0], t, 0);
    } else if k < 4 {
      InterpAtEnds(t, k - 1);
      assert Position(t[k], delaySec) == Interp(t[k], t, k - 1);
    }
  }

  /** A segment's interpolation is exactly on its markers at its two ends. */
  lemma InterpAtEnds(t: seq<int>, k: nat)
    requires k + 1 < |t| && k + 1 < |YNodes| && t[k] < t[k + 1]
    ensures Interp(t[k], t, k) == YNodes[k] as real
    ensures Interp(t[k + 1], t, k) == YNodes[k + 1] as real
  {
    var d := (t[k + 1] - t[k]) as real;
    assert (t[k] - t[k]) as real / d == 0.0;
    assert (t[k + 1] - t[k]) as real / d == 1.0;
  }

  /** Inside segment k the position is the exact linear interpolation of its two markers. */
  lemma PositionLinear(elapsedMs: int, delaySec: nat, k: nat)
    requires k < 4
    requires var t := NodeTimes(delaySec);
      (if k == 0 then 0 <= elapsedMs else t[k] < elapsedMs) && elapsedMs <= t[k + 1] && elapsedMs < t[4]
    ensures var t := NodeTimes(delaySec);
      Position(elapsedMs, delaySec)
        == 25.0 * k as real + 25.0 * (elapsedMs - t[k]) as real / (t[k + 1] - t[k]) as real
  {
    NodeTimesDelay(delaySec);
    var t := NodeTimes(delaySec);
    assert Clamp(elapsedMs, 0, t[4]) == elapsedMs;
    assert Position(elapsedMs, delaySec) == Interp(elapsedMs, t, k);
    InterpExact(elapsedMs, t, k);
  }

  lemma InterpExact(c: int, t: seq<int>, k: nat)
    requires k + 1 < |t| && k + 1 < |YNodes| && t[k] <= c <= t[k + 1] && t[k] < t[k + 1]
    requires YNodes[k] == 25 * k && YNodes[k + 1] - YNodes[k] == 25
    ensures Interp(c, t, k) == 25.0 * k as real + 25.0 * (c - t[k]) as real / (t[k + 1] - t[k]) as real
  {
    var d := (t[k + 1] - t[k]) as real;
    var x := (c - t[k]) as real;
    DivMonotone(0.0, x, d);
    DivMonotone(x, d, d);
    assert Clamp01(x / d) == x / d;
    assert 25.0 * x / d == (x / d) * 25.0;
  }

  /** The bus never moves backwards. */
  lemma PositionMonotone(e1: int, e2: int, delaySec: nat)
    requires e1 <= e2
    ensures Position(e1, delaySec) <= Position(e2, delaySec)
  {
    NodeTimesDelay(delaySec);
    var t := NodeTimes(delaySec);
    var k1, k2 := Segment(e1, delaySec), Segment(e2, delaySec);
    PositionInSegment(e1, delaySec);
    PositionInSegment(e2, delaySec);
    if k1 == k2 && k1 < 4 {
      var c1, c2 := Clamp(e1, 0, t[4]), Clamp(e2, 0, t[4]);
      InterpMonotone(c1, c2, t, k1);
    }
  }

  /** The countdown never goes up, and it is 0 from arrival on. */
  lemma MinsRemainingMonotone(e1: int, e2: int, delaySec: nat)
    requires e1 <= e2
    ensures MinsRemaining(e2, delaySec) <= MinsRemaining(e1, delaySec)
    ensures e2 >= TotalDurationMs(delaySec) ==> MinsRemaining(e2, delaySec) == 0
  {
    NodeTimesDelay(delaySec);
  }

  /** Without delay: 45 s in, the bus is half-way between markers 1 and 2; at the start 5 units remain. */
  lemma WorkedExample()
    ensures Position(45000, 0) == 37.5
    ensures MinsRemaining(0, 0) == 5
  {
    PositionLinear(45000, 0, 1);
  }

  /** The track has one marker per stop. */
  lemma OneMarkerPerStop()
    ensures |YNodes| == |Constants.Stops|
  {
    Constants.StopsShape();
  }

  // ------------------------------------------------------------ the frame as JavaScript numbers

  /**
   * A JavaScript number as the animation step sees it: NaN or a finite
   * value. Infinities are not modelled; they arise only from a division by
   * zero, which the step never performs on a finite trip.
   */
  datatype JsNumber = NaN | Num(v: real)

  function JsAdd(a: JsNumber, b: JsNumber): JsNumber {
    if a.Num? && b.Num? then Num(a.v + b.v) else NaN
  }

  function JsSub(a: JsNumber, b: JsNumber): JsNumber {
    if a.Num? && b.Num? then Num(a.v - b.v) else NaN
  }

  function JsMul(a: JsNumber, b: JsNumber): JsNumber {
    if a.Num? && b.Num? then Num(a.v * b.v) else NaN
  }

  function JsDiv(a: JsNumber, b: JsNumber): JsNumber {
    if a.Num? && b.Num? && b.v != 0.0 then Num(a.v / b.v) else NaN
  }

  /** `Math.min`: NaN when either argument is. */
  function JsMin(a: JsNumber, b: JsNumber): JsNumber {
    if a.Num? && b.Num? then Num(if a.v <= b.v then a.v else b.v) else NaN
  }

  /** `Math.max`: NaN when either argument is. */
  function JsMax(a: JsNumber, b: JsNumber): JsNumber {
    if a.Num? && b.Num? then Num(if a.v >= b.v then a.v else b.v) else NaN
  }

  /** `<=` and `>=`: false whenever NaN is involved. */
  predicate JsLe(a: JsNumber, b: JsNumber) {
    a.Num? && b.Num? && a.v <= b.v
  }

  predicate JsGe(a: JsNumber, b: JsNumber) {
    a.Num? && b.Num? && a.v >= b.v
  }

  function JsCeil(a: JsNumber): JsNumber {
    if a.Num? then Num(-((-a.v).Floor) as real) else NaN
  }

  /** The `delaySec` prop: a number, or `undefined`, which multiplies to NaN. */
  function DelayProp(delaySec: Option<nat>): JsNumber {
    if delaySec.Some? then Num(delaySec.value as real) else NaN
  }

  /** `timeNodesMs`, computed on JavaScript numbers. */
  function FrameNodes(delay: JsNumber): (t: seq<JsNumber>)
    ensures |t| == 5
  {
    Constants.StopsShape();
    seq(5, i requires 0 <= i < 5 =>
      JsAdd(Num((Constants.Stops[i].timeOffset * 1000) as real),
            if i > 0 then JsMul(delay, Num(1000.0)) else Num(0.0)))
  }

  /** The clamped elapsed time, `Math.min(Math.max(elapsedMs, 0), totalDurationMs)`. */
  function FrameClamped(elapsedMs: int, delay: JsNumber): JsNumber {
    JsMin(JsMax(Num(elapsedMs as real), Num(0.0)), FrameNodes(delay)[4])
  }

  function FrameInterp(c: JsNumber, t: seq<JsNumber>, k: nat): JsNumber
    requires k + 1 < |t| && k + 1 < |YNodes|
  {
    var alpha := JsDiv(JsSub(c, t[k]), JsSub(t[k + 1], t[k]));
    JsAdd(Num(YNodes[k] as real),
          JsMul(JsMax(Num(0.0), JsMin(alpha, Num(1.0))), Num((YNodes[k + 1] - YNodes[k]) as real)))
  }

  /** `currentY` of one animation step, starting from 0 and set by the first branch that holds. */
  function FrameBusY(elapsedMs: int, delay: JsNumber): JsNumber {
    var t := FrameNodes(delay);
    var c := FrameClamped(elapsedMs, delay);
    if JsGe(c, t[4]) then Num(100.0)
    else if JsLe(c, t[1]) then FrameInterp(c, t, 0)
    else if JsLe(c, t[2]) then FrameInterp(c, t, 1)
    else if JsLe(c, t[3]) then FrameInterp(c, t, 2)
    else if JsLe(c, t[4]) then FrameInterp(c, t, 3)
    else Num(0.0)
  }

  /** `Math.ceil(Math.max((totalDurationMs - clamped) / 1000, 0) / 30)`. */
  function FrameMins(elapsedMs: int, delay: JsNumber): JsNumber {
    CountdownOf(FrameNodes(delay)[4], FrameClamped(elapsedMs, delay))
  }

  function CountdownOf(total: JsNumber, clamped: JsNumber): JsNumber {
    var remainingSeconds := JsMax(JsDiv(JsSub(total, clamped), Num(1000.0)), Num(0.0));
    JsCeil(JsDiv(remainingSeconds, Num(30.0)))
  }

  /**
   * As the three callers use it, with no `delaySec`: every node after the
   * first, the trip length and the clamped time are NaN, every comparison is
   * false, so the bus stays on the first marker and the countdown is NaN.
   */
  lemma UndefinedDelayFreezesBus(elapsedMs: int)
    ensures FrameBusY(elapsedMs, DelayProp(None)) == Num(0.0)
    ensures FrameMins(elapsedMs, DelayProp(None)) == NaN
  {
    assert FrameNodes(NaN)[4] == NaN;
  }

  /** With a delay passed, the step computes exactly Position and MinsRemaining. */
  lemma DelayPassedAgrees(elapsedMs: int, delaySec: nat)
    ensures FrameBusY(elapsedMs, DelayProp(Some(delaySec))) == Num(Position(elapsedMs, delaySec))
    ensures FrameMins(elapsedMs, DelayProp(Some(delaySec))) == Num(MinsRemaining(elapsedMs, delaySec) as real)
  {
    BusYAgrees(elapsedMs, delaySec);
    MinsAgrees(elapsedMs, delaySec);
  }

  lemma BusYAgrees(elapsedMs: int, delaySec: nat)
    ensures FrameBusY(elapsedMs, DelayProp(Some(delaySec))) == Num(Position(elapsedMs, delaySec))
  {
    NodeTimesDelay(delaySec);
    var nt := NodeTimes(delaySec);
    var t := FrameNodes(DelayProp(Some(delaySec)));
    FrameNodesFinite(delaySec);
    var c := Clamp(elapsedMs, 0, nt[4]);
    assert FrameClamped(elapsedMs, DelayProp(Some(delaySec))) == Num(c as real);
    if c < nt[4] {
      var k := if c <= nt[1] then 0 else if c <= nt[2] then 1 else if c <= nt[3] then 2 else 3;
      FrameInterpAgrees(c, nt, t, k);
    }
  }

  lemma MinsAgrees(elapsedMs: int, delaySec: nat)
    ensures FrameMins(elapsedMs, DelayProp(Some(delaySec))) == Num(MinsRemaining(elapsedMs, delaySec) as real)
  {
    var total := TotalDurationMs(delaySec);
    var c := Clamp(elapsedMs, 0, total);
    FrameTotalFinite(delaySec);
    FrameClampedFinite(elapsedMs, delaySec);
    var r := MinsRemaining(elapsedMs, delaySec);
    CountdownAgrees(total - c, r, total as real, c as real);
  }

  /** With a delay passed, the trip length is the integer one. */
  lemma FrameTotalFinite(delaySec: nat)
    ensures FrameNodes(DelayProp(Some(delaySec)))[4] == Num(TotalDurationMs(delaySec) as real)
  {
    FrameNodesFinite(delaySec);
  }

  /** With a delay passed, the clamped time is the integer one. */
  lemma FrameClampedFinite(elapsedMs: int, delaySec: nat)
    ensures FrameClamped(elapsedMs, DelayProp(Some(delaySec)))
      == Num(Clamp(elapsedMs, 0, TotalDurationMs(delaySec)) as real)
  {
    FrameTotalFinite(delaySec);
  }

  lemma CountdownAgrees(rem: int, r: int, total: real, c: real)
    requires rem >= 0 && r * 30000 >= rem && (r - 1) * 30000 < rem && total - c == rem as real
    ensures CountdownOf(Num(total), Num(c)) == Num(r as real)
  {
    var sec := rem as real / 1000.0;
    assert JsDiv(JsSub(Num(total), Num(c)), Num(1000.0)) == Num(sec);
    assert JsMax(Num(sec), Num(0.0)) == Num(sec);
    SecondsToUnits(rem as real);
    CeilOfQuotient(rem, r);
  }

  lemma SecondsToUnits(x: real)
    ensures x / 1000.0 / 30.0 == x / 30000.0
  {
  }

  lemma FrameNodesFinite(delaySec: nat)
    ensures forall i :: 0 <= i < 5 ==> FrameNodes(DelayProp(Some(delaySec)))[i] == Num(NodeTimes(delaySec)[i] as real)
  {
    NodeTimesDelay(delaySec);
  }

  lemma FrameInterpAgrees(c: int, nt: seq<int>, t: seq<JsNumber>, k: nat)
    requires k + 1 < |nt| == |t| && k + 1 < |YNodes| && nt[k] < nt[k + 1]
    requires t[k] == Num(nt[k] as real) && t[k + 1] == Num(nt[k + 1] as real)
    ensures FrameInterp(Num(c as real), t, k) == Num(Interp(c, nt, k))
  {
    var alpha := (c - nt[k]) as real / (nt[k + 1] - nt[k]) as real;
    assert JsDiv(JsSub(Num(c as real), t[k]), JsSub(t[k + 1], t[k])) == Num(alpha);
    assert JsMax(Num(0.0), JsMin(Num(alpha), Num(1.0))) == Num(Clamp01(alpha));
  }

  /** The real ceiling of `rem / 30000` is the integer countdown. */
  lemma CeilOfQuotient(rem: int, r: int)
    requires rem >= 0 && r * 30000 >= rem && (r - 1) * 30000 < rem
    ensures JsCeil(Num(rem as real / 30000.0)) == Num(r as real)
  {
    var x := rem as real / 30000.0;
    assert (r - 1) as real < x <= r as real;
    var f := (-x).Floor;
    assert f as real <= -x < f as real + 1.0;
    assert -f == r;
  }
}

/** Dwell time per screen quadrant, computed from the pointer samples of one
    trial (ExperimentUtils.calculateQuadrantTimes). */
module Quadrants {
  import opened JsValues

  /** The property names tried, in order, for each coordinate and for the time stamp. */
  const XKeys: seq<string> := ["x", "mouse_x", "clientX", "pageX"]
  const YKeys: seq<string> := ["y", "mouse_y", "clientY", "pageY"]
  const TimeKeys: seq<string> := ["time", "timestamp", "relativeTime", "relative_time", "t", "timeStamp"]

  datatype Quadrant = TopLeft | TopRight | BottomLeft | BottomRight

  datatype QuadrantTimes = QuadrantTimes(topLeft: real, topRight: real, bottomLeft: real, bottomRight: real)

  const Zero := QuadrantTimes(0.0, 0.0, 0.0, 0.0)

  function Total(q: QuadrantTimes): real
  {
    q.topLeft + q.topRight + q.bottomLeft + q.bottomRight
  }

  predicate NonNegative(q: QuadrantTimes)
  {
    q.topLeft >= 0.0 && q.topRight >= 0.0 && q.bottomLeft >= 0.0 && q.bottomRight >= 0.0
  }

  /** The coordinates and time stamp of a sample, `None` where parseFloat gives NaN. */
  function SampleX(p: Point, mode: Coalescing): Option<real> { ParseFloat(Chain(p, XKeys, mode)) }
  function SampleY(p: Point, mode: Coalescing): Option<real> { ParseFloat(Chain(p, YKeys, mode)) }
  function SampleTime(p: Point, mode: Coalescing): Option<real> { ParseFloat(Chain(p, TimeKeys, mode)) }

  /** The quadrant of a position, split at the centre of the viewport: a point
      is on the left when x is below the centre and on top when y is below it. */
  function Classify(x: real, y: real, innerWidth: int, innerHeight: int): Quadrant
  {
    var centerX := innerWidth as real / 2.0;
    var centerY := innerHeight as real / 2.0;
    if x < centerX && y < centerY then TopLeft
    else if x >= centerX && y < centerY then TopRight
    else if x < centerX && y >= centerY then BottomLeft
    else BottomRight
  }

  /** What one pair of consecutive samples contributes. */
  datatype Credit = Skip | Credit(quadrant: Quadrant, delta: real)

  /** A pair is skipped when either sample is missing, when the later sample's
      x or y or either time stamp is NaN, or when time runs backwards; otherwise
      the time between the two samples goes to the quadrant of the LATER sample. */
  function PairCredit(prevPoint: Option<Point>, point: Option<Point>, innerWidth: int, innerHeight: int,
                      mode: Coalescing): Credit
  {
    if prevPoint.None? || point.None? then Skip
    else
      var x := SampleX(point.value, mode);
      var y := SampleY(point.value, mode);
      var currentTime := SampleTime(point.value, mode);
      var prevTime := SampleTime(prevPoint.value, mode);
      if x.None? || y.None? || currentTime.None? || prevTime.None? then Skip
      else
        var timeDiff := currentTime.value - prevTime.value;
        if timeDiff < 0.0 then Skip
        else Credit(Classify(x.value, y.value, innerWidth, innerHeight), timeDiff)
  }

  function AddTime(q: QuadrantTimes, c: Credit): QuadrantTimes
  {
    match c
    case Skip => q
    case Credit(TopLeft, d) => q.(topLeft := q.topLeft + d)
    case Credit(TopRight, d) => q.(topRight := q.topRight + d)
    case Credit(BottomLeft, d) => q.(bottomLeft := q.bottomLeft + d)
    case Credit(BottomRight, d) => q.(bottomRight := q.bottomRight + d)
  }

  /** The totals after the pairs (data[i-1], data[i]) for 1 <= i < n. */
  function Accumulate(data: seq<Option<Point>>, n: nat, innerWidth: int, innerHeight: int,
                      mode: Coalescing): QuadrantTimes
    requires n <= |data|
  {
    if n < 2 then Zero
    else AddTime(Accumulate(data, n - 1, innerWidth, innerHeight, mode),
                 PairCredit(data[n - 2], data[n - 1], innerWidth, innerHeight, mode))
  }

  /** The breakdown of a whole trial: all zero for a missing or empty sample list. */
  function QuadrantTimesOf(mouseData: Option<seq<Option<Point>>>, innerWidth: int, innerHeight: int,
                           mode: Coalescing): QuadrantTimes
  {
    match mouseData
    case None => Zero
    case Some(data) => Accumulate(data, |data|, innerWidth, innerHeight, mode)
  }

  /** calculateQuadrantTimes, with the viewport size passed in. The code as
      written combines the property names with `||` (mode LogicalOr); with
      NullishCoalescing it is the corrected lookup that keeps zeros. */
  method CalculateQuadrantTimes(mouseData: Option<seq<Option<Point>>>, innerWidth: int, innerHeight: int,
                                mode: Coalescing)
    returns (quadrantTimes: QuadrantTimes)
    ensures quadrantTimes == QuadrantTimesOf(mouseData, innerWidth, innerHeight, mode)
    ensures NonNegative(quadrantTimes)
  {
    if mouseData.None? || |mouseData.value| == 0 {
      return Zero;
    }
    var data := mouseData.value;
    var topLeft, topRight, bottomLeft, bottomRight := 0.0, 0.0, 0.0, 0.0;
    var centerX := innerWidth as real / 2.0;
    var centerY := innerHeight as real / 2.0;
    for i := 1 to |data|
      invariant QuadrantTimes(topLeft, topRight, bottomLeft, bottomRight)
                == Accumulate(data, i, innerWidth, innerHeight, mode)
      invariant topLeft >= 0.0 && topRight >= 0.0 && bottomLeft >= 0.0 && bottomRight >= 0.0
    {
      var point := data[i];
      var prevPoint := data[i - 1];
      if point.None? || prevPoint.None? {
        continue;
      }
      var x := ParseFloat(Chain(point.value, XKeys, mode));
      var y := ParseFloat(Chain(point.value, YKeys, mode));
      var currentTime := ParseFloat(Chain(point.value, TimeKeys, mode));
      var prevTime := ParseFloat(Chain(prevPoint.value, TimeKeys, mode));
      if x.None? || y.None? || currentTime.None? || prevTime.None? {
        continue;
      }
      var timeDiff := currentTime.value - prevTime.value;
      if timeDiff < 0.0 {
        continue;
      }
      if x.value < centerX && y.value < centerY {
        topLeft := topLeft + timeDiff;
      } else if x.value >= centerX && y.value < centerY {
        topRight := topRight + timeDiff;
      } else if x.value < centerX && y.value >= centerY {
        bottomLeft := bottomLeft + timeDiff;
      } else {
        bottomRight := bottomRight + timeDiff;
      }
    }
    quadrantTimes := QuadrantTimes(topLeft, topRight, bottomLeft, bottomRight);
  }

  /** Every total is a sum of non-negative deltas. */
  lemma {:induction false} AccumulateNonNegative(data: seq<Option<Point>>, n: nat, innerWidth: int,
                                                 innerHeight: int, mode: Coalescing)
    requires n <= |data|
    ensures NonNegative(Accumulate(data, n, innerWidth, innerHeight, mode))
  {
    if n >= 2 {
      AccumulateNonNegative(data, n - 1, innerWidth, innerHeight, mode);
    }
  }

  /** A missing list, an empty list and a single sample all give zero: the
      first sample never contributes time. */
  lemma NoPairNoTime(mouseData: Option<seq<Option<Point>>>, innerWidth: int, innerHeight: int, mode: Coalescing)
    requires mouseData.None? || |mouseData.value| <= 1
    ensures QuadrantTimesOf(mouseData, innerWidth, innerHeight, mode) == Zero
  {
  }

  /** A sample that can be read in full. */
  predicate Readable(p: Option<Point>, mode: Coalescing)
  {
    p.Some? && SampleX(p.value, mode).Some? && SampleY(p.value, mode).Some? && SampleTime(p.value, mode).Some?
  }

  function TimeOf(p: Option<Point>, mode: Coalescing): real
    requires Readable(p, mode)
  {
    SampleTime(p.value, mode).value
  }

  /** An accepted pair adds its time difference to exactly one total, the one
      named by its credit, and leaves the other three as they were. */
  lemma AddTimeChangesOne(q: QuadrantTimes, quadrant: Quadrant, d: real)
    ensures var r := AddTime(q, Credit(quadrant, d));
            && Total(r) == Total(q) + d
            && (quadrant != TopLeft ==> r.topLeft == q.topLeft)
            && (quadrant != TopRight ==> r.topRight == q.topRight)
            && (quadrant != BottomLeft ==> r.bottomLeft == q.bottomLeft)
            && (quadrant != BottomRight ==> r.bottomRight == q.bottomRight)
  {
  }

  /** The credit of an accepted pair is the quadrant of the LATER sample and
      the non-negative time between the two samples. */
  lemma CreditOfLaterSample(prevPoint: Option<Point>, point: Option<Point>, innerWidth: int, innerHeight: int,
                            mode: Coalescing)
    requires PairCredit(prevPoint, point, innerWidth, innerHeight, mode).Credit?
    ensures Readable(point, mode) && prevPoint.Some? && SampleTime(prevPoint.value, mode).Some?
    ensures var c := PairCredit(prevPoint, point, innerWidth, innerHeight, mode);
            && c.quadrant == Classify(SampleX(point.value, mode).value, SampleY(point.value, mode).value,
                                      innerWidth, innerHeight)
            && c.delta == TimeOf(point, mode) - SampleTime(prevPoint.value, mode).value
            && c.delta >= 0.0
  {
  }

  /** The earlier sample of a pair contributes only its time stamp: moving it
      elsewhere on screen does not change the pair's credit. */
  lemma CreditIgnoresEarlierPosition(prevPoint: Point, otherPrev: Point, point: Option<Point>,
                                     innerWidth: int, innerHeight: int, mode: Coalescing)
    requires SampleTime(prevPoint, mode) == SampleTime(otherPrev, mode)
    ensures PairCredit(Some(prevPoint), point, innerWidth, innerHeight, mode)
            == PairCredit(Some(otherPrev), point, innerWidth, innerHeight, mode)
  {
  }

  /** Boundary tie-break: a point exactly on the vertical centre line is on the
      right, and a point exactly on the horizontal centre line is at the BOTTOM. */
  lemma ClassifyHalves(x: real, y: real, innerWidth: int, innerHeight: int)
    ensures var q := Classify(x, y, innerWidth, innerHeight);
            && ((q == TopLeft || q == TopRight) <==> 2.0 * y < innerHeight as real)
            && ((q == TopRight || q == BottomRight) <==> 2.0 * x >= innerWidth as real)
    ensures 2.0 * x == innerWidth as real ==> Classify(x, y, innerWidth, innerHeight) in {TopRight, BottomRight}
    ensures 2.0 * y == innerHeight as real ==> Classify(x, y, innerWidth, innerHeight) in {BottomLeft, BottomRight}
  {
  }

  /** When every sample can be read and time never runs backwards, nothing is
      skipped and the four totals add up to exactly the time from the first
      sample to the last. */
  lemma {:induction false} TotalIsSpan(data: seq<Option<Point>>, n: nat, innerWidth: int, innerHeight: int,
                                       mode: Coalescing)
    requires 1 <= n <= |data|
    requires forall i :: 0 <= i < n ==> Readable(data[i], mode)
    requires forall i :: 1 <= i < n ==> TimeOf(data[i - 1], mode) <= TimeOf(data[i], mode)
    ensures Total(Accumulate(data, n, innerWidth, innerHeight, mode)) == TimeOf(data[n - 1], mode) - TimeOf(data[0], mode)
  {
    if n >= 2 {
      TotalIsSpan(data, n - 1, innerWidth, innerHeight, mode);
      ReadablePairCredited(data[n - 2], data[n - 1], innerWidth, innerHeight, mode);
      var c := PairCredit(data[n - 2], data[n - 1], innerWidth, innerHeight, mode);
      AddTimeChangesOne(Accumulate(data, n - 1, innerWidth, innerHeight, mode), c.quadrant, c.delta);
    }
  }

  /** A pair of readable samples whose time does not run backwards is credited. */
  lemma ReadablePairCredited(prevPoint: Option<Point>, point: Option<Point>, innerWidth: int, innerHeight: int,
                             mode: Coalescing)
    requires Readable(prevPoint, mode) && Readable(point, mode)
    requires TimeOf(prevPoint, mode) <= TimeOf(point, mode)
    ensures PairCredit(prevPoint, point, innerWidth, innerHeight, mode).Credit?
    ensures PairCredit(prevPoint, point, innerWidth, innerHeight, mode).delta == TimeOf(point, mode) - TimeOf(prevPoint, mode)
  {
  }

  /** A sample made of x, y and t only. */
  function Sample(x: real, y: real, t: real): Point
  {
    map["x" := Num(x), "y" := Num(y), "t" := Num(t)]
  }

  /** Backward time is skipped rather than subtracted, so the totals can exceed
      the time from the first sample to the last: with time stamps 10, 30, 20
      the totals add up to 20 while last minus first is 10. */
  lemma TotalCanExceedSpan()
    ensures var data := [Some(Sample(1.0, 1.0, 10.0)), Some(Sample(1.0, 1.0, 30.0)), Some(Sample(1.0, 1.0, 20.0))];
            Total(QuadrantTimesOf(Some(data), 100, 100, LogicalOr)) == 20.0
  {
    var data := [Some(Sample(1.0, 1.0, 10.0)), Some(Sample(1.0, 1.0, 30.0)), Some(Sample(1.0, 1.0, 20.0))];
    assert SampleX(Sample(1.0, 1.0, 30.0), LogicalOr) == Some(1.0);
    assert SampleY(Sample(1.0, 1.0, 30.0), LogicalOr) == Some(1.0);
    assert SampleTime(Sample(1.0, 1.0, 10.0), LogicalOr) == Some(10.0);
    assert SampleTime(Sample(1.0, 1.0, 30.0), LogicalOr) == Some(30.0);
    assert SampleTime(Sample(1.0, 1.0, 20.0), LogicalOr) == Some(20.0);
    assert PairCredit(data[0], data[1], 100, 100, LogicalOr) == Credit(TopLeft, 20.0);
    assert PairCredit(data[1], data[2], 100, 100, LogicalOr) == Skip;
    assert Accumulate(data, 2, 100, 100, LogicalOr) == QuadrantTimes(20.0, 0.0, 0.0, 0.0);
  }
  /** `||` treats 0 as missing: a sample whose only x is 0 reads its x from
      `pageX`, which is undefined, so x is NaN and the pair ending there is skipped. */
  lemma ZeroCoordinateReadsAsNaN(y: real, t: real, prevPoint: Option<Point>, innerWidth: int, innerHeight: int)
    ensures SampleX(Sample(0.0, y, t), LogicalOr) == None
    ensures PairCredit(prevPoint, Some(Sample(0.0, y, t)), innerWidth, innerHeight, LogicalOr) == Skip
  {
    var p := Sample(0.0, y, t);
    ChainIsFirstPassing(p, XKeys, LogicalOr);
    assert forall i :: 0 <= i < |XKeys| ==> !Passes(Get(p, XKeys[i]), LogicalOr);
  }

  /** With `??`, every field of a sample reads back as stored, zeros included. */
  lemma NullishReadsSample(x: real, y: real, t: real)
    ensures SampleX(Sample(x, y, t), NullishCoalescing) == Some(x)
    ensures SampleY(Sample(x, y, t), NullishCoalescing) == Some(y)
    ensures SampleTime(Sample(x, y, t), NullishCoalescing) == Some(t)
  {
    var p := Sample(x, y, t);
    ChainIsFirstPassing(p, TimeKeys, NullishCoalescing);
    assert TimeKeys[4] == "t";
    assert forall j :: 0 <= j < 4 ==> !Passes(Get(p, TimeKeys[j]), NullishCoalescing);
  }

  /** With `??` in place of `||`, a sample at x == 0 is counted like any
      other: the pair ending there credits its time to the sample's quadrant. */
  lemma ZeroCoordinateCounted(y: real, t: real, prevX: real, prevY: real, prevT: real, innerWidth: int, innerHeight: int)
    requires prevT <= t
    ensures SampleX(Sample(0.0, y, t), NullishCoalescing) == Some(0.0)
    ensures PairCredit(Some(Sample(prevX, prevY, prevT)), Some(Sample(0.0, y, t)), innerWidth, innerHeight, NullishCoalescing)
            == Credit(Classify(0.0, y, innerWidth, innerHeight), t - prevT)
  {
    NullishReadsSample(0.0, y, t);
    NullishReadsSample(prevX, prevY, prevT);
  }

  /** The last name of a chain is taken as it is, so a 0 there is kept. */
  lemma ZeroInLastNameIsKept()
    ensures SampleX(map["pageX" := Num(0.0)], LogicalOr) == Some(0.0)
  {
    assert Chain(map["pageX" := Num(0.0)], XKeys, LogicalOr) == Get(map["pageX" := Num(0.0)], "pageX");
  }

  /** The three samples (0, 0, 0), (0, 0, 10), (100, 0, 40) on a 100 x 100 viewport. */
  function EdgeScenario(): seq<Option<Point>>
  {
    [Some(Sample(0.0, 0.0, 0.0)), Some(Sample(0.0, 0.0, 10.0)), Some(Sample(100.0, 0.0, 40.0))]
  }

  /** As written, every pair of the edge scenario is skipped: each later sample
      has a 0 coordinate, and the first time stamp is 0. */
  lemma EdgeScenarioAsWritten()
    ensures QuadrantTimesOf(Some(EdgeScenario()), 100, 100, LogicalOr) == Zero
  {
    var data := EdgeScenario();
    ZeroCoordinateReadsAsNaN(0.0, 10.0, data[0], 100, 100);
    assert SampleY(Sample(100.0, 0.0, 40.0), LogicalOr) == None by {
      assert Chain(Sample(100.0, 0.0, 40.0), YKeys, LogicalOr) == Get(Sample(100.0, 0.0, 40.0), "pageY");
    }
    assert Accumulate(data, 2, 100, 100, LogicalOr) == Zero;
  }

  /** With `??` in place of `||`, a 0 coordinate or a 0 time stamp is a value:
      the edge scenario credits 10 to the top left and 30 to the top right, the
      quadrant of the later sample of each pair. */
  lemma EdgeScenarioNullish()
    ensures QuadrantTimesOf(Some(EdgeScenario()), 100, 100, NullishCoalescing) == QuadrantTimes(10.0, 30.0, 0.0, 0.0)
  {
    var data := EdgeScenario();
    var m := NullishCoalescing;
    assert SampleX(Sample(0.0, 0.0, 10.0), m) == Some(0.0);
    assert SampleY(Sample(0.0, 0.0, 10.0), m) == Some(0.0);
    assert SampleX(Sample(100.0, 0.0, 40.0), m) == Some(100.0);
    assert SampleY(Sample(100.0, 0.0, 40.0), m) == Some(0.0);
    assert SampleTime(Sample(0.0, 0.0, 0.0), m) == Some(0.0) by {
      assert Chain(Sample(0.0, 0.0, 0.0), TimeKeys, m) == Get(Sample(0.0, 0.0, 0.0), "t");
    }
    assert SampleTime(Sample(0.0, 0.0, 10.0), m) == Some(10.0) by {
      assert Chain(Sample(0.0, 0.0, 10.0), TimeKeys, m) == Get(Sample(0.0, 0.0, 10.0), "t");
    }
    assert SampleTime(Sample(100.0, 0.0, 40.0), m) == Some(40.0) by {
      assert Chain(Sample(100.0, 0.0, 40.0), TimeKeys, m) == Get(Sample(100.0, 0.0, 40.0), "t");
    }
    assert PairCredit(data[0], data[1], 100, 100, m) == Credit(TopLeft, 10.0);
    assert PairCredit(data[1], data[2], 100, 100, m) == Credit(TopRight, 30.0);
    assert Accumulate(data, 2, 100, 100, m) == QuadrantTimes(10.0, 0.0, 0.0, 0.0);
  }
}

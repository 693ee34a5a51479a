/**
  src/rsmotionscrubbing_common.c: motion scrubbing of a 4D series.  Frames
  whose framewise displacement (from the realignment parameters) or whose
  DVARS (root mean square intensity change over the mask) exceed their
  thresholds are flagged together with their neighbours, and the output
  keeps the unflagged frames in their original order.
 */
module MotionScrubbing {
  import opened Base
  import opened NiftiUtils

  // ---------------------------------------------------------------------
  // The input series
  // ---------------------------------------------------------------------

  /** A 4D series as the tool reads it: vDim = |frames| volumes of
      xDim * yDim * zDim voxels, already scaled by the file's slope and
      intercept. */
  datatype Series = Series(xDim: nat, yDim: nat, zDim: nat, frames: seq<Grid<Sample>>)
  {
    ghost predicate Valid()
    {
      forall t :: 0 <= t < |frames| ==> Shaped(frames[t], xDim, yDim, zDim)
    }
  }

  function Voxel(s: Series, t: nat, p: Point3D): Sample
    requires s.Valid() && t < |s.frames| && InGrid(p, s.xDim, s.yDim, s.zDim)
  {
    s.frames[t][p.z][p.y][p.x]
  }

  /** The intensities of frame t at the mask points, in mask order. */
  function MaskValues(s: Series, t: nat, points: seq<Point3D>): (m: seq<Sample>)
    requires s.Valid() && t < |s.frames| && PointsIn(points, s.xDim, s.yDim, s.zDim)
    ensures |m| == |points|
    ensures forall i :: 0 <= i < |points| ==> m[i] == Voxel(s, t, points[i])
  {
    seq(|points|, i requires 0 <= i < |points| => Voxel(s, t, points[i]))
  }

  // ---------------------------------------------------------------------
  // Value range
  // ---------------------------------------------------------------------

  /** The initial minimum of rsComputeValueRange; the initial maximum is its
      negation. */
  const Sentinel: real := 9999999999999999.0

  /** First frame the value-range scan visits: min(5, vDim - 1).  The scan
      is only defined for a series with at least one frame: for vDim = 0 the
      source starts at frame -1 and extracts a volume from before the start
      of its buffer. */
  function ScanStart(vDim: nat): nat
    requires vDim >= 1
  {
    if vDim - 1 < 5 then vDim - 1 else 5
  }

  /** The masked intensities the scan visits before frame `upTo`, in visiting
      order (frame by frame, mask point by mask point). */
  function Scanned(s: Series, points: seq<Point3D>, upTo: nat): seq<Sample>
    requires s.Valid() && |s.frames| >= 1 && upTo <= |s.frames| && PointsIn(points, s.xDim, s.yDim, s.zDim)
  {
    if upTo <= ScanStart(|s.frames|) then []
    else Scanned(s, points, upTo - 1) + MaskValues(s, upTo - 1, points)
  }

  /** The running minimum over a visit order: NaN is skipped, and a value
      replaces the minimum only when it is strictly below it.  The result is
      below every number seen and is either the sentinel or one of them. */
  function Lowest(s: seq<Sample>): (m: real)
    ensures m <= Sentinel
    ensures forall j :: 0 <= j < |s| && s[j].Num? ==> m <= s[j].v
    ensures m == Sentinel || exists j :: 0 <= j < |s| && s[j].Num? && s[j].v == m
    decreases |s|
  {
    if |s| == 0 then Sentinel
    else
      var m := Lowest(s[..|s| - 1]);
      var x := s[|s| - 1];
      assert forall j :: 0 <= j < |s| - 1 ==> s[..|s| - 1][j] == s[j];
      if x.Num? && m > x.v then x.v else m
  }

  /** The running maximum, symmetric to Lowest. */
  function Highest(s: seq<Sample>): (m: real)
    ensures m >= -Sentinel
    ensures forall j :: 0 <= j < |s| && s[j].Num? ==> m >= s[j].v
    ensures m == -Sentinel || exists j :: 0 <= j < |s| && s[j].Num? && s[j].v == m
    decreases |s|
  {
    if |s| == 0 then -Sentinel
    else
      var m := Highest(s[..|s| - 1]);
      var x := s[|s| - 1];
      assert forall j :: 0 <= j < |s| - 1 ==> s[..|s| - 1][j] == s[j];
      if x.Num? && m < x.v then x.v else m
  }

  /** The inner loop of rsComputeValueRange: folds the masked intensities
      of frame t into the running extremes of what was `seen` before. */
  method ScanFrame(s: Series, points: seq<Point3D>, t: nat, lo0: real, hi0: real, ghost seen: seq<Sample>)
    returns (lo: real, hi: real)
    requires s.Valid() && PointsIn(points, s.xDim, s.yDim, s.zDim) && t < |s.frames|
    requires lo0 == Lowest(seen) && hi0 == Highest(seen)
    ensures lo == Lowest(seen + MaskValues(s, t, points))
    ensures hi == Highest(seen + MaskValues(s, t, points))
  {
    ghost var values := MaskValues(s, t, points);
    lo, hi := lo0, hi0;
    assert seen + values[..0] == seen;
    for p := 0 to |points|
      invariant lo == Lowest(seen + values[..p]) && hi == Highest(seen + values[..p])
    {
      var intensity := Voxel(s, t, points[p]);
      TakeOneMore(seen, values, p);
      ExtremesSnoc(seen + values[..p], intensity);
      if intensity.Num? {
        if lo > intensity.v {
          lo := intensity.v;
        }
        if hi < intensity.v {
          hi := intensity.v;
        }
      }
    }
    assert values[..|points|] == values;
  }

  /** rsComputeValueRange: min and max scanned from frame min(5, vDim - 1)
      on, over the mask points, skipping NaN. */
  method ComputeValueRange(s: Series, points: seq<Point3D>) returns (lo: real, hi: real)
    requires s.Valid() && |s.frames| >= 1 && PointsIn(points, s.xDim, s.yDim, s.zDim)
    ensures lo == Lowest(Scanned(s, points, |s.frames|))
    ensures hi == Highest(Scanned(s, points, |s.frames|))
  {
    lo, hi := Sentinel, -Sentinel;
    var t := ScanStart(|s.frames|);
    while t < |s.frames|
      invariant ScanStart(|s.frames|) <= t <= |s.frames|
      invariant lo == Lowest(Scanned(s, points, t)) && hi == Highest(Scanned(s, points, t))
    {
      lo, hi := ScanFrame(s, points, t, lo, hi, Scanned(s, points, t));
      t := t + 1;
    }
  }

  /** One more visited intensity updates the extremes as the scan does. */
  lemma ExtremesSnoc(s: seq<Sample>, x: Sample)
    ensures Lowest(s + [x]) == if x.Num? && Lowest(s) > x.v then x.v else Lowest(s)
    ensures Highest(s + [x]) == if x.Num? && Highest(s) < x.v then x.v else Highest(s)
  {
    assert (s + [x])[..|s|] == s;
  }

  /** A masked intensity of a scanned frame appears in the visit order. */
  lemma {:induction false} ScannedHas(s: Series, points: seq<Point3D>, upTo: nat, t: nat, i: nat)
    requires s.Valid() && |s.frames| >= 1 && upTo <= |s.frames| && PointsIn(points, s.xDim, s.yDim, s.zDim)
    requires ScanStart(|s.frames|) <= t < upTo && i < |points|
    ensures exists j :: 0 <= j < |Scanned(s, points, upTo)| && Scanned(s, points, upTo)[j] == Voxel(s, t, points[i])
  {
    var prefix := Scanned(s, points, upTo - 1);
    var whole := Scanned(s, points, upTo);
    assert whole == prefix + MaskValues(s, upTo - 1, points);
    if t == upTo - 1 {
      assert whole[|prefix| + i] == Voxel(s, t, points[i]);
    } else {
      ScannedHas(s, points, upTo - 1, t, i);
      var j :| 0 <= j < |prefix| && prefix[j] == Voxel(s, t, points[i]);
      assert whole[j] == Voxel(s, t, points[i]);
    }
  }

  /** Every non-NaN masked intensity of a scanned frame lies in [min, max];
      when no frame holds a number, both sentinels survive. */
  lemma ValueRangeBounds(s: Series, points: seq<Point3D>, t: nat, i: nat)
    requires s.Valid() && |s.frames| >= 1 && PointsIn(points, s.xDim, s.yDim, s.zDim)
    requires ScanStart(|s.frames|) <= t < |s.frames| && i < |points|
    requires Voxel(s, t, points[i]).Num?
    ensures Lowest(Scanned(s, points, |s.frames|)) <= Voxel(s, t, points[i]).v
    ensures Voxel(s, t, points[i]).v <= Highest(Scanned(s, points, |s.frames|))
  {
    ScannedHas(s, points, |s.frames|, t, i);
  }

  /** With no number among the scanned intensities the range keeps its
      sentinels, so min > max. */
  lemma NoValueKeepsSentinels(s: Series, points: seq<Point3D>)
    requires s.Valid() && |s.frames| >= 1 && PointsIn(points, s.xDim, s.yDim, s.zDim)
    requires forall j :: 0 <= j < |Scanned(s, points, |s.frames|)| ==> Scanned(s, points, |s.frames|)[j].NaN?
    ensures Lowest(Scanned(s, points, |s.frames|)) == Sentinel
    ensures Highest(Scanned(s, points, |s.frames|)) == -Sentinel
  {
  }

  // ---------------------------------------------------------------------
  // Framewise displacement
  // ---------------------------------------------------------------------

  /** The realignment parameters rp[column][entry] hold at least columns
      1..6 (translations x, y, z and rotations pitch, roll, yaw) with n
      entries each. */
  predicate RegressorTable(rp: seq<seq<real>>, n: nat)
  {
    |rp| >= 7 && |rp[1]| >= n && |rp[2]| >= n && |rp[3]| >= n && |rp[4]| >= n && |rp[5]| >= n && |rp[6]| >= n
  }

  /** Framewise displacement of entry i >= 1: the absolute change of the
      three translations plus the absolute change of the three rotations
      converted to millimetres on a 50 mm sphere. */
  function Displacement(rp: seq<seq<real>>, i: nat, deg2mm: (real, real) -> real): (d: real)
    requires 1 <= i && RegressorTable(rp, i + 1)
    ensures d >= 0.0
  {
    Abs(rp[1][i] - rp[1][i - 1]) + Abs(rp[2][i] - rp[2][i - 1]) + Abs(rp[3][i] - rp[3][i - 1])
    + Abs(deg2mm(50.0, rp[4][i]) - deg2mm(50.0, rp[4][i - 1]))
    + Abs(deg2mm(50.0, rp[5][i]) - deg2mm(50.0, rp[5][i - 1]))
    + Abs(deg2mm(50.0, rp[6][i]) - deg2mm(50.0, rp[6][i - 1]))
  }

  /** The displacement vector of `length` entries: 0 for the first, and
      never negative. */
  function Displacements(rp: seq<seq<real>>, length: nat, deg2mm: (real, real) -> real): (fd: seq<real>)
    requires RegressorTable(rp, length)
    ensures |fd| == length
    ensures length > 0 ==> fd[0] == 0.0
    ensures forall i :: 0 <= i < length ==> fd[i] >= 0.0
  {
    seq(length, i requires 0 <= i < length => if i == 0 then 0.0 else Displacement(rp, i, deg2mm))
  }

  /** An entry has zero displacement exactly when no translation moved and
      no rotation moved as seen through deg2mm. */
  lemma DisplacementZeroIffStill(rp: seq<seq<real>>, i: nat, deg2mm: (real, real) -> real)
    requires 1 <= i && RegressorTable(rp, i + 1)
    ensures Displacement(rp, i, deg2mm) == 0.0 <==>
      (forall c :: 1 <= c <= 3 ==> rp[c][i] == rp[c][i - 1]) &&
      (forall c :: 4 <= c <= 6 ==> deg2mm(50.0, rp[c][i]) == deg2mm(50.0, rp[c][i - 1]))
  {
  }

  /** rsComputeFramewiseDisplacement over `length` entries. */
  method ComputeFramewiseDisplacement(fd: array<real>, rp: seq<seq<real>>, length: nat, deg2mm: (real, real) -> real)
    requires fd.Length == length && length >= 1 && RegressorTable(rp, length)
    modifies fd
    ensures fd[..] == Displacements(rp, length, deg2mm)
  {
    fd[0] := 0.0;
    var i := 1;
    while i < length
      invariant 1 <= i <= length
      invariant forall k :: 0 <= k < i ==> fd[k] == Displacements(rp, length, deg2mm)[k]
    {
      var dx := Abs(rp[1][i] - rp[1][i - 1]);
      var dy := Abs(rp[2][i] - rp[2][i - 1]);
      var dz := Abs(rp[3][i] - rp[3][i - 1]);
      var dpitch := Abs(deg2mm(50.0, rp[4][i]) - deg2mm(50.0, rp[4][i - 1]));
      var droll := Abs(deg2mm(50.0, rp[5][i]) - deg2mm(50.0, rp[5][i - 1]));
      var dyaw := Abs(deg2mm(50.0, rp[6][i]) - deg2mm(50.0, rp[6][i - 1]));
      fd[i] := dx + dy + dz + dpitch + droll + dyaw;
      i := i + 1;
    }
  }

  // ---------------------------------------------------------------------
  // DVARS
  // ---------------------------------------------------------------------

  /** A square root as the C library provides it. */
  ghost predicate IsSqrt(sqrt: real -> real)
  {
    forall x :: 0.0 <= x ==> 0.0 <= sqrt(x) && sqrt(x) * sqrt(x) == x
  }

  lemma SqrtOf(sqrt: real -> real, x: real)
    requires IsSqrt(sqrt) && 0.0 <= x
    ensures 0.0 <= sqrt(x) && sqrt(x) * sqrt(x) == x
  {
  }

  /** An intensity mapped onto the value range, (I - min) / |max - min|.  A
      degenerate range (max == min) divides by zero; the model yields NaN. */
  function Normalised(x: Sample, lo: real, hi: real): Sample
  {
    if x.NaN? || lo == hi then NaN else Num((x.v - lo) / Abs(hi - lo))
  }

  /** An intensity within a non-degenerate range [lo, hi] normalises into
      [0, 1], with lo at 0 and hi at 1. */
  lemma NormalisedWithinUnit(x: real, lo: real, hi: real)
    requires lo < hi && lo <= x <= hi
    ensures Normalised(Num(x), lo, hi).Num?
    ensures 0.0 <= Normalised(Num(x), lo, hi).v <= 1.0
    ensures Normalised(Num(x), lo, hi).v == 0.0 <==> x == lo
    ensures Normalised(Num(x), lo, hi).v == 1.0 <==> x == hi
  {
    var d := hi - lo;
    assert Abs(hi - lo) == d;
    DivNonNegative(x - lo, d);
    DivNonNegative(hi - x, d);
    MulDivCancel(1.0, d);
    assert (x - lo) / d + (hi - x) / d == d / d;
  }

  /** The squared change of one mask point's normalised intensity. */
  function Change(x: Sample, y: Sample, lo: real, hi: real): Sample
  {
    Square(Sub(Normalised(x, lo, hi), Normalised(y, lo, hi)))
  }

  /** The sum, in mask order, of the squared normalised intensity changes
      between two frames; never negative when it is a number. */
  function SquaredChange(now: seq<Sample>, before: seq<Sample>, lo: real, hi: real): (r: Sample)
    requires |now| == |before|
    ensures r.Num? ==> r.v >= 0.0
    decreases |now|
  {
    if |now| == 0 then Num(0.0)
    else
      var n := |now| - 1;
      Add(SquaredChange(now[..n], before[..n], lo, hi), Change(now[n], before[n], lo, hi))
  }

  /** The sum is NaN exactly when some normalised intensity is: NaN
      propagates through the whole accumulation. */
  lemma {:induction false} SquaredChangeNaN(now: seq<Sample>, before: seq<Sample>, lo: real, hi: real)
    requires |now| == |before|
    ensures SquaredChange(now, before, lo, hi).NaN? <==>
              exists i :: 0 <= i < |now| && (Normalised(now[i], lo, hi).NaN? || Normalised(before[i], lo, hi).NaN?)
    decreases |now|
  {
    if |now| > 0 {
      var n := |now| - 1;
      SquaredChangeNaN(now[..n], before[..n], lo, hi);
      assert forall i :: 0 <= i < n ==> now[..n][i] == now[i] && before[..n][i] == before[i];
    }
  }

  /** DVARS of one frame from its masked intensities and those of the
      previous frame: sqrt(sum / nMaskPoints), NaN for an empty mask (0/0)
      or when any term is NaN. */
  function FrameDvars(now: seq<Sample>, before: seq<Sample>, lo: real, hi: real, sqrt: real -> real): (r: Sample)
    requires |now| == |before|
  {
    var sum := SquaredChange(now, before, lo, hi);
    if |now| == 0 || sum.NaN? then NaN else Num(sqrt(sum.v / |now| as real))
  }

  /** A DVARS value is a square root of a mean of squares, so never
      negative. */
  lemma FrameDvarsNonNegative(now: seq<Sample>, before: seq<Sample>, lo: real, hi: real, sqrt: real -> real)
    requires |now| == |before| && IsSqrt(sqrt)
    ensures FrameDvars(now, before, lo, hi, sqrt).Num? ==> FrameDvars(now, before, lo, hi, sqrt).v >= 0.0
  {
    var sum := SquaredChange(now, before, lo, hi);
    if |now| > 0 && sum.Num? {
      DivNonNegative(sum.v, |now| as real);
      SqrtOf(sqrt, sum.v / |now| as real);
    }
  }

  /** DVARS of every frame: 0 for frame 0, and for t >= 1 a function of the
      masked intensities of frames t and t - 1 alone. */
  function DvarsSeries(s: Series, points: seq<Point3D>, lo: real, hi: real, sqrt: real -> real): (d: seq<Sample>)
    requires s.Valid() && PointsIn(points, s.xDim, s.yDim, s.zDim)
    ensures |d| == |s.frames|
  {
    seq(|s.frames|, t requires 0 <= t < |s.frames| =>
      if t == 0 then Num(0.0)
      else FrameDvars(MaskValues(s, t, points), MaskValues(s, t - 1, points), lo, hi, sqrt))
  }

  lemma DvarsSeriesOf(d: seq<Sample>, s: Series, points: seq<Point3D>, lo: real, hi: real, sqrt: real -> real)
    requires s.Valid() && PointsIn(points, s.xDim, s.yDim, s.zDim)
    requires |d| == |s.frames| >= 1 && d[0] == Num(0.0)
    requires forall t :: 1 <= t < |d| ==>
      d[t] == FrameDvars(MaskValues(s, t, points), MaskValues(s, t - 1, points), lo, hi, sqrt)
    ensures d == DvarsSeries(s, points, lo, hi, sqrt)
  {
  }

  /** Normalisation onto a proper range keeps intensities apart. */
  lemma NormalisedDiffZeroIff(x: real, y: real, lo: real, hi: real)
    requires lo != hi
    ensures Normalised(Num(x), lo, hi).v - Normalised(Num(y), lo, hi).v == 0.0 <==> x == y
  {
    var d := Abs(hi - lo);
    assert (x - lo) / d - (y - lo) / d == (x - y) / d;
    assert (x - y) / d * d == x - y;
  }

  /** Appending a mask point adds its squared change to the running sum. */
  lemma SquaredChangeSnoc(now: seq<Sample>, before: seq<Sample>, x: Sample, y: Sample, lo: real, hi: real)
    requires |now| == |before|
    ensures SquaredChange(now + [x], before + [y], lo, hi)
         == Add(SquaredChange(now, before, lo, hi), Change(x, y, lo, hi))
  {
    assert (now + [x])[..|now|] == now;
    assert (before + [y])[..|before|] == before;
  }

  /** With a proper value range, the squared change of two intensities is
      a non-negative number, 0 exactly when they are equal. */
  lemma ChangeZeroIff(x: real, y: real, lo: real, hi: real)
    requires lo != hi
    ensures Change(Num(x), Num(y), lo, hi).Num? && Change(Num(x), Num(y), lo, hi).v >= 0.0
    ensures Change(Num(x), Num(y), lo, hi).v == 0.0 <==> x == y
  {
    var d := Normalised(Num(x), lo, hi).v - Normalised(Num(y), lo, hi).v;
    NormalisedDiffZeroIff(x, y, lo, hi);
    assert Change(Num(x), Num(y), lo, hi) == Num(d * d);
    if d * d == 0.0 {
      SquareZero(d);
    }
  }

  /** With a proper value range and no NaN intensities, the sum of squared
      changes is 0 exactly when the two frames agree at every mask point. */
  lemma {:induction false} SquaredChangeZeroIffEqual(now: seq<Sample>, before: seq<Sample>, lo: real, hi: real)
    requires |now| == |before| && lo != hi
    requires forall i :: 0 <= i < |now| ==> now[i].Num? && before[i].Num?
    ensures SquaredChange(now, before, lo, hi).Num?
    ensures SquaredChange(now, before, lo, hi) == Num(0.0) <==> now == before
    decreases |now|
  {
    if |now| > 0 {
      var n := |now| - 1;
      var x, y := now[n], before[n];
      assert now == now[..n] + [x];
      assert before == before[..n] + [y];
      SquaredChangeZeroIffEqual(now[..n], before[..n], lo, hi);
      ChangeZeroIff(x.v, y.v, lo, hi);
      assert x == Num(x.v) && y == Num(y.v);
    }
  }

  /** sqrt(sum / n) is 0 exactly when the sum is. */
  lemma SqrtMeanZero(sum: real, n: real, sqrt: real -> real)
    requires IsSqrt(sqrt) && sum >= 0.0 && n > 0.0
    ensures sqrt(sum / n) == 0.0 <==> sum == 0.0
  {
    DivNonNegative(sum, n);
    SqrtOf(sqrt, sum / n);
    if sum == 0.0 {
      SquareZero(sqrt(sum / n));
    }
  }

  /** With a proper value range, a frame has DVARS 0 exactly when its masked
      intensities equal those of the previous frame. */
  lemma DvarsZeroIffUnchanged(now: seq<Sample>, before: seq<Sample>, lo: real, hi: real, sqrt: real -> real)
    requires |now| == |before| > 0 && lo != hi && IsSqrt(sqrt)
    requires forall i :: 0 <= i < |now| ==> now[i].Num? && before[i].Num?
    ensures FrameDvars(now, before, lo, hi, sqrt) == Num(0.0) <==> now == before
  {
    SquaredChangeZeroIffEqual(now, before, lo, hi);
    var sum := SquaredChange(now, before, lo, hi).v;
    assert |now| as real > 0.0;
    SqrtMeanZero(sum, |now| as real, sqrt);
  }

  /** The inner loop of rsComputeDVARs: the squared normalised changes of
      frame t against frame t - 1, summed over the mask points. */
  method AccumulateChange(s: Series, t: nat, points: seq<Point3D>, lo: real, hi: real) returns (sum: Sample)
    requires s.Valid() && PointsIn(points, s.xDim, s.yDim, s.zDim) && 1 <= t < |s.frames|
    ensures sum == SquaredChange(MaskValues(s, t, points), MaskValues(s, t - 1, points), lo, hi)
  {
    ghost var now, before := MaskValues(s, t, points), MaskValues(s, t - 1, points);
    sum := Num(0.0);
    var p := 0;
    while p < |points|
      invariant 0 <= p <= |points|
      invariant sum == SquaredChange(now[..p], before[..p], lo, hi)
    {
      var iNow := Normalised(Voxel(s, t, points[p]), lo, hi);
      var iBefore := Normalised(Voxel(s, t - 1, points[p]), lo, hi);
      TakeSnoc(now, p);
      TakeSnoc(before, p);
      SquaredChangeSnoc(now[..p], before[..p], now[p], before[p], lo, hi);
      sum := Add(sum, Square(Sub(iNow, iBefore)));
      p := p + 1;
    }
    assert now[..p] == now && before[..p] == before;
  }

  /** rsComputeDVARs, with the frames processed one after the other. */
  method ComputeDvars(dvars: array<Sample>, lo: real, hi: real, s: Series, points: seq<Point3D>, sqrt: real -> real)
    requires s.Valid() && PointsIn(points, s.xDim, s.yDim, s.zDim)
    requires dvars.Length == |s.frames| >= 1
    modifies dvars
    ensures dvars[0] == Num(0.0)
    ensures forall t :: 1 <= t < |s.frames| ==>
      dvars[t] == FrameDvars(MaskValues(s, t, points), MaskValues(s, t - 1, points), lo, hi, sqrt)
  {
    dvars[0] := Num(0.0);
    var t := 1;
    while t < |s.frames|
      invariant 1 <= t <= |s.frames|
      invariant dvars[0] == Num(0.0)
      invariant forall k :: 1 <= k < t ==>
        dvars[k] == FrameDvars(MaskValues(s, k, points), MaskValues(s, k - 1, points), lo, hi, sqrt)
    {
      var sum := AccumulateChange(s, t, points, lo, hi);
      var value := if |points| == 0 || sum.NaN? then NaN else Num(sqrt(sum.v / |points| as real));
      assert value == FrameDvars(MaskValues(s, t, points), MaskValues(s, t - 1, points), lo, hi, sqrt);
      dvars[t] := value;
      t := t + 1;
    }
  }

  // ---------------------------------------------------------------------
  // Flagging
  // ---------------------------------------------------------------------

  function MaxInt(a: int, b: int): int { if a > b then a else b }

  function MinInt(a: int, b: int): int { if a < b then a else b }

  /** Frame t exceeds a threshold; comparisons with NaN are false. */
  predicate Triggered(fd: seq<real>, dvars: seq<Sample>, t: nat, fdThreshold: real, dvarsThreshold: real)
    requires t < |fd| && t < |dvars|
  {
    fd[t] > fdThreshold || Exceeds(dvars[t], dvarsThreshold)
  }

  /** Frame i is t or one of its neighbours clamped to the series. */
  predicate Marks(t: nat, i: nat, vDim: nat)
  {
    i == t || i == MaxInt(t - 1, 0) || i == MinInt(t + 1, vDim - 1)
  }

  /** Frame i is flagged by some triggered frame t in [1, upTo). */
  predicate FlaggedBefore(fd: seq<real>, dvars: seq<Sample>, vDim: nat, fdThreshold: real, dvarsThreshold: real,
                          i: nat, upTo: nat)
    requires vDim <= |fd| && vDim <= |dvars|
  {
    exists t :: 1 <= t < upTo && t < vDim && Triggered(fd, dvars, t, fdThreshold, dvarsThreshold) && Marks(t, i, vDim)
  }

  /** Frame i ends flagged: some frame t >= 1 exceeded a threshold and i is
      t, max(t - 1, 0) or min(t + 1, vDim - 1). */
  predicate Flagged(fd: seq<real>, dvars: seq<Sample>, vDim: nat, fdThreshold: real, dvarsThreshold: real, i: nat)
    requires vDim <= |fd| && vDim <= |dvars|
  {
    FlaggedBefore(fd, dvars, vDim, fdThreshold, dvarsThreshold, i, vDim)
  }

  function Flags(fd: seq<real>, dvars: seq<Sample>, vDim: nat, fdThreshold: real, dvarsThreshold: real): (f: seq<bool>)
    requires vDim <= |fd| && vDim <= |dvars|
    ensures |f| == vDim
  {
    seq(vDim, i requires 0 <= i < vDim => Flagged(fd, dvars, vDim, fdThreshold, dvarsThreshold, i))
  }

  lemma FlagsOf(f: seq<bool>, fd: seq<real>, dvars: seq<Sample>, vDim: nat, fdThreshold: real, dvarsThreshold: real)
    requires vDim <= |fd| && vDim <= |dvars| && |f| == vDim
    requires forall i :: 0 <= i < vDim ==> f[i] == Flagged(fd, dvars, vDim, fdThreshold, dvarsThreshold, i)
    ensures f == Flags(fd, dvars, vDim, fdThreshold, dvarsThreshold)
  {
  }

  /** The reset loop and the flagging loop of rsMotionScrubbingRun. */
  method FlagFrames(fd: seq<real>, dvars: seq<Sample>, vDim: nat, fdThreshold: real, dvarsThreshold: real)
    returns (flagged: seq<bool>)
    requires vDim <= |fd| && vDim <= |dvars|
    ensures |flagged| == vDim
    ensures forall i :: 0 <= i < vDim ==> flagged[i] == Flagged(fd, dvars, vDim, fdThreshold, dvarsThreshold, i)
  {
    var flaggedFrames := new bool[vDim];
    for t := 0 to vDim
      invariant forall i :: 0 <= i < t ==> !flaggedFrames[i]
    {
      flaggedFrames[t] := false;
    }
    var t := 1;
    while t < vDim
      invariant 1 <= t
      invariant forall i :: 0 <= i < vDim ==>
        flaggedFrames[i] == FlaggedBefore(fd, dvars, vDim, fdThreshold, dvarsThreshold, i, t)
    {
      if fd[t] > fdThreshold || Exceeds(dvars[t], dvarsThreshold) {
        flaggedFrames[MaxInt(t - 1, 0)] := true;
        flaggedFrames[t] := true;
        flaggedFrames[MinInt(t + 1, vDim - 1)] := true;
        assert Triggered(fd, dvars, t, fdThreshold, dvarsThreshold);
      }
      t := t + 1;
    }
    flagged := flaggedFrames[..];
  }

  /** The flagged frames in closed form: frame i is flagged exactly when it
      exceeds a threshold itself (i >= 1), or its successor does, or its
      predecessor does and is not frame 0. */
  lemma FlaggedNeighbourhood(fd: seq<real>, dvars: seq<Sample>, vDim: nat, fdThreshold: real, dvarsThreshold: real,
                             i: nat)
    requires vDim <= |fd| && vDim <= |dvars| && i < vDim
    ensures Flagged(fd, dvars, vDim, fdThreshold, dvarsThreshold, i) <==>
      (1 <= i && Triggered(fd, dvars, i, fdThreshold, dvarsThreshold)) ||
      (i + 1 < vDim && Triggered(fd, dvars, i + 1, fdThreshold, dvarsThreshold)) ||
      (2 <= i && Triggered(fd, dvars, i - 1, fdThreshold, dvarsThreshold))
  {
    if 1 <= i && Triggered(fd, dvars, i, fdThreshold, dvarsThreshold) {
      assert Marks(i, i, vDim);
    } else if i + 1 < vDim && Triggered(fd, dvars, i + 1, fdThreshold, dvarsThreshold) {
      assert Marks(i + 1, i, vDim);
    } else if 2 <= i && Triggered(fd, dvars, i - 1, fdThreshold, dvarsThreshold) {
      assert Marks(i - 1, i, vDim);
    }
  }

  // ---------------------------------------------------------------------
  // Frame map and flagged-index list
  // ---------------------------------------------------------------------

  /** The indices i of s with s[i] == b, ascending. */
  function IndicesOf(s: seq<bool>, b: bool): (r: seq<nat>)
    ensures |r| <= |s|
    ensures forall k :: 0 <= k < |r| ==> r[k] < |s| && s[r[k]] == b
    ensures forall k, l :: 0 <= k < l < |r| ==> r[k] < r[l]
    decreases |s|
  {
    if |s| == 0 then []
    else
      var n := |s| - 1;
      assert forall i :: 0 <= i < n ==> s[..n][i] == s[i];
      IndicesOf(s[..n], b) + (if s[n] == b then [n] else [])
  }

  /** Every index holding `b` is listed. */
  lemma {:induction false} IndicesOfComplete(s: seq<bool>, b: bool, i: nat)
    requires i < |s| && s[i] == b
    ensures i in IndicesOf(s, b)
    decreases |s|
  {
    var n := |s| - 1;
    if i < n {
      assert s[..n][i] == s[i];
      IndicesOfComplete(s[..n], b, i);
    }
  }

  lemma {:induction false} IndicesPartition(s: seq<bool>)
    ensures |IndicesOf(s, false)| + |IndicesOf(s, true)| == |s|
    decreases |s|
  {
    if |s| > 0 {
      IndicesPartition(s[..|s| - 1]);
    }
  }

  /** The frame-map loop: framemap[0 .. remainingFrames) receives the
      unflagged frames in ascending order. */
  method BuildFrameMap(flagged: seq<bool>) returns (framemap: seq<nat>, remainingFrames: nat)
    ensures |framemap| == |flagged| && remainingFrames <= |flagged|
    ensures framemap[..remainingFrames] == IndicesOf(flagged, false)
  {
    var map_ := new nat[|flagged|];
    remainingFrames := 0;
    for t := 0 to |flagged|
      invariant remainingFrames <= t
      invariant map_[..remainingFrames] == IndicesOf(flagged[..t], false)
    {
      assert flagged[..t + 1][..t] == flagged[..t];
      if flagged[t] == false {
        map_[remainingFrames] := t;
        remainingFrames := remainingFrames + 1;
      }
    }
    assert flagged[..|flagged|] == flagged;
    framemap := map_[..];
  }

  /** rsSaveIndexVector: the indices written, one per line, are those whose
      entry is TRUE, ascending. */
  method SaveIndexVector(vector: seq<bool>) returns (lines: seq<nat>)
    ensures lines == IndicesOf(vector, true)
  {
    lines := [];
    for i := 0 to |vector|
      invariant lines == IndicesOf(vector[..i], true)
    {
      assert vector[..i + 1][..i] == vector[..i];
      if vector[i] == true {
        lines := lines + [i];
      }
    }
    assert vector[..|vector|] == vector;
  }

  /** The copy loop: output frame t is input frame framemap[t]. */
  method AssembleOutput(s: Series, framemap: seq<nat>, ghost flagged: seq<bool>) returns (out: seq<Grid<Sample>>)
    requires |flagged| == |s.frames| && framemap == IndicesOf(flagged, false)
    ensures |out| == |framemap|
    ensures forall t :: 0 <= t < |out| ==> out[t] == s.frames[framemap[t]]
    ensures out == Scrubbed(s.frames, flagged)
  {
    out := [];
    for t := 0 to |framemap|
      invariant |out| == t
      invariant forall k :: 0 <= k < t ==> out[k] == s.frames[framemap[k]]
    {
      out := out + [s.frames[framemap[t]]];
    }
    ScrubbedOf(out, s.frames, flagged, framemap);
  }

  /** The scrubbed series keeps exactly the unflagged frames, in order. */
  function Scrubbed(frames: seq<Grid<Sample>>, flagged: seq<bool>): (out: seq<Grid<Sample>>)
    requires |flagged| == |frames|
    ensures |out| == |IndicesOf(flagged, false)|
  {
    var keep := IndicesOf(flagged, false);
    seq(|keep|, t requires 0 <= t < |keep| => frames[keep[t]])
  }

  /** The frame map and the copy of the kept frames into the output file. */
  method ScrubbedVolume(s: Series, flagged: seq<bool>) returns (frames: seq<Grid<Sample>>)
    requires |flagged| == |s.frames|
    ensures frames == Scrubbed(s.frames, flagged)
  {
    var framemap, remainingFrames := BuildFrameMap(flagged);
    frames := AssembleOutput(s, framemap[..remainingFrames], flagged);
  }

  lemma ScrubbedOf(out: seq<Grid<Sample>>, frames: seq<Grid<Sample>>, flagged: seq<bool>, framemap: seq<nat>)
    requires |flagged| == |frames| && framemap == IndicesOf(flagged, false)
    requires |out| == |framemap| && forall t :: 0 <= t < |out| ==> out[t] == frames[framemap[t]]
    ensures out == Scrubbed(frames, flagged)
  {
  }

  // ---------------------------------------------------------------------
  // The tool's parameter record, Init and Run
  // ---------------------------------------------------------------------

  /** What opening the input file gave: rsOpenNiftiFile's `readable` flag and,
      when set, the series. */
  datatype NiftiFile = Unreadable | Readable(series: Series)

  /** How rsMotionScrubbingInit ended: the first missing argument, an input
      that could not be read, a mask that could not be read, or success. */
  datatype InitStatus = NoInput | NoOutput | NoMask | NoRealignment | InputUnreadable | MaskInvalid | Ready

  function InitOutcome(inputpath: Option<string>, outputpath: Option<string>, maskpath: Option<string>,
                       realignmentpath: Option<string>, inputFile: NiftiFile, mask: Option<seq<Point3D>>): InitStatus
  {
    if inputpath.None? then NoInput
    else if outputpath.None? then NoOutput
    else if maskpath.None? then NoMask
    else if realignmentpath.None? then NoRealignment
    else if inputFile.Unreadable? then InputUnreadable
    else if mask.None? then MaskInvalid
    else Ready
  }

  /** Init succeeds exactly when the four required paths are given, the input
      is readable and the mask yields points; a missing path is reported
      before any file is looked at. */
  lemma InitReadyIff(inputpath: Option<string>, outputpath: Option<string>, maskpath: Option<string>,
                     realignmentpath: Option<string>, inputFile: NiftiFile, mask: Option<seq<Point3D>>)
    ensures InitOutcome(inputpath, outputpath, maskpath, realignmentpath, inputFile, mask) == Ready <==>
      inputpath.Some? && outputpath.Some? && maskpath.Some? && realignmentpath.Some? &&
      inputFile.Readable? && mask.Some?
    ensures (inputpath.None? || outputpath.None? || maskpath.None? || realignmentpath.None?) ==>
      InitOutcome(inputpath, outputpath, maskpath, realignmentpath, inputFile, mask)
        in {NoInput, NoOutput, NoMask, NoRealignment}
  {
  }

  /** The DVARS series Run computes: normalised by the value range of the
      series over the mask. */
  function RunDvars(s: Series, points: seq<Point3D>, sqrt: real -> real): (d: seq<Sample>)
    requires s.Valid() && |s.frames| >= 1 && PointsIn(points, s.xDim, s.yDim, s.zDim)
    ensures |d| == |s.frames|
  {
    var upTo := |s.frames|;
    DvarsSeries(s, points, Lowest(Scanned(s, points, upTo)), Highest(Scanned(s, points, upTo)), sqrt)
  }

  /** The frames Run flags, from the displacement and DVARS series. */
  function RunFlags(s: Series, points: seq<Point3D>, rp: seq<seq<real>>, rpEntries: nat,
                    deg2mm: (real, real) -> real, sqrt: real -> real,
                    fdThreshold: real, dvarsThreshold: real): (f: seq<bool>)
    requires s.Valid() && |s.frames| >= 1 && PointsIn(points, s.xDim, s.yDim, s.zDim)
    requires |s.frames| <= rpEntries && RegressorTable(rp, rpEntries)
    ensures |f| == |s.frames|
  {
    Flags(Displacements(rp, rpEntries, deg2mm), RunDvars(s, points, sqrt), |s.frames|, fdThreshold, dvarsThreshold)
  }

  /** The computing part of rsMotionScrubbingRun: value range, framewise
      displacement, DVARS and the flags, each into a buffer of its own. */
  method ScrubSeries(s: Series, points: seq<Point3D>, rp: seq<seq<real>>, rpEntries: nat,
                     deg2mm: (real, real) -> real, sqrt: real -> real,
                     fdThreshold: real, dvarsThreshold: real)
    returns (dvars: seq<Sample>, fd: seq<real>, flagged: seq<bool>)
    requires s.Valid() && |s.frames| >= 1 && PointsIn(points, s.xDim, s.yDim, s.zDim)
    requires |s.frames| <= rpEntries && RegressorTable(rp, rpEntries)
    ensures dvars == RunDvars(s, points, sqrt)
    ensures fd == Displacements(rp, rpEntries, deg2mm)
    ensures flagged == RunFlags(s, points, rp, rpEntries, deg2mm, sqrt, fdThreshold, dvarsThreshold)
  {
    var vDim := |s.frames|;
    var lo, hi := ComputeValueRange(s, points);

    var fdBuffer := new real[rpEntries];
    ComputeFramewiseDisplacement(fdBuffer, rp, rpEntries, deg2mm);
    fd := fdBuffer[..];

    var dvarsBuffer := new Sample[vDim];
    ComputeDvars(dvarsBuffer, lo, hi, s, points, sqrt);
    dvars := dvarsBuffer[..];
    DvarsSeriesOf(dvars, s, points, lo, hi, sqrt);

    flagged := FlagFrames(fd, dvars, vDim, fdThreshold, dvarsThreshold);
    FlagsOf(flagged, fd, dvars, vDim, fdThreshold, dvarsThreshold);
  }

  /** rsMotionScrubbingParameters.  NULL paths are None; the fields dvarsFile,
      fdFile, flaggedFile and output hold what Run writes to the files. */
  class MotionScrubbingParameters {
    var inputpath: Option<string>
    var outputpath: Option<string>
    var maskpath: Option<string>
    var realignmentpath: Option<string>
    var dvarspath: Option<string>
    var fdpath: Option<string>
    var flaggedpath: Option<string>
    var dvarsthreshold: real
    var fdthreshold: real

    var input: Option<NiftiFile>
    var rp: seq<seq<real>>
    var rpEntries: nat
    var maskPoints: Option<seq<Point3D>>
    var parametersValid: bool

    var dvarsFile: Option<seq<Sample>>
    var fdFile: Option<seq<real>>
    var flaggedFile: Option<seq<nat>>
    var output: Option<seq<Grid<Sample>>>

    constructor (inputpath: Option<string>, outputpath: Option<string>, maskpath: Option<string>,
                 realignmentpath: Option<string>, dvarspath: Option<string>, fdpath: Option<string>,
                 flaggedpath: Option<string>, dvarsthreshold: real, fdthreshold: real)
      ensures this.inputpath == inputpath && this.outputpath == outputpath && this.maskpath == maskpath
      ensures this.realignmentpath == realignmentpath && this.dvarspath == dvarspath
      ensures this.fdpath == fdpath && this.flaggedpath == flaggedpath
      ensures this.dvarsthreshold == dvarsthreshold && this.fdthreshold == fdthreshold
      ensures input.None? && rp == [] && rpEntries == 0 && maskPoints.None? && !parametersValid
      ensures dvarsFile.None? && fdFile.None? && flaggedFile.None? && output.None?
    {
      this.inputpath, this.outputpath, this.maskpath := inputpath, outputpath, maskpath;
      this.realignmentpath, this.dvarspath := realignmentpath, dvarspath;
      this.fdpath, this.flaggedpath := fdpath, flaggedpath;
      this.dvarsthreshold, this.fdthreshold := dvarsthreshold, fdthreshold;
      input, rp, rpEntries, maskPoints, parametersValid := None, [], 0, None, false;
      dvarsFile, fdFile, flaggedFile, output := None, None, None, None;
    }

    /** rsMotionScrubbingInit.  `inputFile` is what rsOpenNiftiFile yields for
        the input path, `regressors` and `entries` what rsLoadRegressors
        yields for the realignment path, and `mask` what rsReadMask yields
        (None for NULL). */
    method Init(inputFile: NiftiFile, regressors: seq<seq<real>>, entries: nat, mask: Option<seq<Point3D>>)
      returns (status: InitStatus)
      modifies this`parametersValid, this`input, this`rp, this`rpEntries, this`maskPoints
      ensures status == InitOutcome(inputpath, outputpath, maskpath, realignmentpath, inputFile, mask)
      ensures parametersValid <==> status == Ready
      ensures input == if status in {NoInput, NoOutput, NoMask, NoRealignment} then old(input) else Some(inputFile)
      ensures status in {Ready, MaskInvalid} ==> rp == regressors && rpEntries == entries && maskPoints == mask
      ensures status !in {Ready, MaskInvalid} ==>
        rp == old(rp) && rpEntries == old(rpEntries) && maskPoints == old(maskPoints)
    {
      parametersValid := false;
      if inputpath.None? {
        return NoInput;
      }
      if outputpath.None? {
        return NoOutput;
      }
      if maskpath.None? {
        return NoMask;
      }
      if realignmentpath.None? {
        return NoRealignment;
      }
      input := Some(inputFile);
      if inputFile.Unreadable? {
        return InputUnreadable;
      }
      rp, rpEntries := regressors, entries;
      maskPoints := mask;
      if maskPoints.None? {
        return MaskInvalid;
      }
      parametersValid := true;
      return Ready;
    }

    /** rsMotionScrubbingRun.  `deg2mm` and `sqrt` are the library functions
        it calls, and `outputCreatable` whether rsCloneNiftiFile produced a
        readable output file. */
    method Run(deg2mm: (real, real) -> real, sqrt: real -> real, outputCreatable: bool)
      requires input.Some? && input.value.Readable?
      requires input.value.series.Valid() && |input.value.series.frames| >= 1
      requires maskPoints.Some?
      requires PointsIn(maskPoints.value, input.value.series.xDim, input.value.series.yDim, input.value.series.zDim)
      requires rpEntries >= |input.value.series.frames| && RegressorTable(rp, rpEntries)
      modifies this`parametersValid, this`dvarsFile, this`fdFile, this`flaggedFile, this`output
      ensures parametersValid == outputCreatable
      ensures dvarsFile == if dvarspath.Some? then Some(RunDvars(old(input).value.series, old(maskPoints).value, sqrt))
                           else old(dvarsFile)
      ensures fdFile == if fdpath.Some?
                        then Some(Displacements(old(rp), old(rpEntries), deg2mm)[..|old(input).value.series.frames|])
                        else old(fdFile)
      ensures flaggedFile == if flaggedpath.Some?
                             then Some(IndicesOf(RunFlags(old(input).value.series, old(maskPoints).value,
                                                          old(rp), old(rpEntries), deg2mm, sqrt,
                                                          old(fdthreshold), old(dvarsthreshold)), true))
                             else old(flaggedFile)
      ensures output == if outputCreatable
                        then Some(Scrubbed(old(input).value.series.frames,
                                           RunFlags(old(input).value.series, old(maskPoints).value,
                                                    old(rp), old(rpEntries), deg2mm, sqrt,
                                                    old(fdthreshold), old(dvarsthreshold))))
                        else old(output)
    {
      parametersValid := false;
      var s := input.value.series;
      var points := maskPoints.value;
      var vDim := |s.frames|;

      var dvars, fd, flagged := ScrubSeries(s, points, rp, rpEntries, deg2mm, sqrt, fdthreshold, dvarsthreshold);
      if dvarspath.Some? {
        dvarsFile := Some(dvars);
      }
      if fdpath.Some? {
        fdFile := Some(fd[..vDim]);
      }
      if flaggedpath.Some? {
        var lines := SaveIndexVector(flagged);
        flaggedFile := Some(lines);
      }

      if !outputCreatable {
        return;
      }

      var frames := ScrubbedVolume(s, flagged);
      output := Some(frames);
      parametersValid := true;
    }
  }
}

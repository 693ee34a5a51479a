/**
  rstimecourse: the time course of one voxel, or the mean time course of
  the voxels of a binary mask, of a 4D NIfTI volume (rstools/rstimecourse.c).
  Modelled here: the scaling defaults, ReadMask (resampling the mask onto
  the input grid, counting and listing the voxels above 0.01, optionally
  writing the resampled mask back), the command-line parser of `main`, its
  validation rules, the choice between voxel and mask mode and the per-frame
  mask average.
 */
module Timecourse {
  import opened Base
  import opened NiftiUtils

  // ---------------------------------------------------------------------
  // Scaling
  // ---------------------------------------------------------------------

  /** The slope and intercept the tool applies: the header's scl_slope and
      scl_inter when scl_slope is not 0, otherwise 1 and 0 (NIfTI's "no
      scaling"). */
  function EffectiveScaling(sclSlope: real, sclInter: real): (r: (real, real))
    ensures r.0 != 0.0
    ensures sclSlope != 0.0 ==> r == (sclSlope, sclInter)
    ensures sclSlope == 0.0 ==> r == (1.0, 0.0)
  {
    if sclSlope != 0.0 then (sclSlope, sclInter) else (1.0, 0.0)
  }

  // ---------------------------------------------------------------------
  // Volumes and the voxels of a mask
  // ---------------------------------------------------------------------

  /** One 3D volume of doubles with its dimensions. */
  datatype Volume = Volume(xDim: nat, yDim: nat, zDim: nat, data: Grid<real>)
  {
    ghost predicate Valid()
    {
      Shaped(data, xDim, yDim, zDim)
    }
  }

  /** The mask test of ReadMask: the voxel's value exceeds 0.01. */
  predicate Above(v: Volume, p: Point3D)
    requires v.Valid() && InGrid(p, v.xDim, v.yDim, v.zDim)
  {
    v.data[p.z][p.y][p.x] > 0.01
  }

  /** Strictly increasing in the order x, then y, then z: every point at
      most once, in the order the tool's loops visit them. */
  predicate LexSorted(s: seq<Point3D>)
  {
    forall i, j :: 0 <= i < j < |s| ==> LexBefore(s[i], s[j])
  }

  /** The mask voxels (x, y, z) with z < k, in ascending z. */
  function Column(v: Volume, x: nat, y: nat, k: nat): (s: seq<Point3D>)
    requires v.Valid() && x < v.xDim && y < v.yDim && k <= v.zDim
    ensures |s| <= k
    decreases k
  {
    if k == 0 then []
    else
      var p := Point3D(x, y, k - 1);
      Column(v, x, y, k - 1) + (if Above(v, p) then [p] else [])
  }

  /** The mask voxels with this x and y < k, ordered by y, then z. */
  function Plane(v: Volume, x: nat, k: nat): seq<Point3D>
    requires v.Valid() && x < v.xDim && k <= v.yDim
    decreases k
  {
    if k == 0 then [] else Plane(v, x, k - 1) + Column(v, x, k - 1, v.zDim)
  }

  /** The mask voxels with x < k, ordered by x, then y, then z. */
  function Cube(v: Volume, k: nat): seq<Point3D>
    requires v.Valid() && k <= v.xDim
    decreases k
  {
    if k == 0 then [] else Cube(v, k - 1) + Plane(v, k - 1, v.yDim)
  }

  /** Two sorted runs, the first entirely before the second, make a sorted run. */
  lemma SortedConcat(a: seq<Point3D>, b: seq<Point3D>)
    requires LexSorted(a) && LexSorted(b)
    requires forall i, j :: 0 <= i < |a| && 0 <= j < |b| ==> LexBefore(a[i], b[j])
    ensures LexSorted(a + b)
  {
    forall i, j | 0 <= i < j < |a + b|
      ensures LexBefore((a + b)[i], (a + b)[j])
    {
      if j < |a| {
      } else if i < |a| {
        assert LexBefore(a[i], b[j - |a|]);
      } else {
        assert LexBefore(b[i - |a|], b[j - |a|]);
      }
    }
  }

  /** Every voxel of Column(v, x, y, k) is a mask voxel of that column
      below k, and they are listed in ascending z. */
  lemma {:induction false} ColumnListed(v: Volume, x: nat, y: nat, k: nat)
    requires v.Valid() && x < v.xDim && y < v.yDim && k <= v.zDim
    ensures var s := Column(v, x, y, k);
            && (forall i :: 0 <= i < |s| ==>
                  s[i].x == x && s[i].y == y && s[i].z < k && InGrid(s[i], v.xDim, v.yDim, v.zDim) && Above(v, s[i]))
            && LexSorted(s)
    decreases k
  {
    if k > 0 {
      ColumnListed(v, x, y, k - 1);
      var p := Point3D(x, y, k - 1);
      SortedConcat(Column(v, x, y, k - 1), if Above(v, p) then [p] else []);
    }
  }

  /** Every voxel of Plane(v, x, k) is a mask voxel of that plane with
      y < k, and they are listed in ascending (y, z). */
  lemma {:induction false} PlaneListed(v: Volume, x: nat, k: nat)
    requires v.Valid() && x < v.xDim && k <= v.yDim
    ensures var s := Plane(v, x, k);
            && (forall i :: 0 <= i < |s| ==>
                  s[i].x == x && s[i].y < k && InGrid(s[i], v.xDim, v.yDim, v.zDim) && Above(v, s[i]))
            && LexSorted(s)
    decreases k
  {
    if k > 0 {
      PlaneListed(v, x, k - 1);
      ColumnListed(v, x, k - 1, v.zDim);
      SortedConcat(Plane(v, x, k - 1), Column(v, x, k - 1, v.zDim));
    }
  }

  /** Every voxel of Cube(v, k) is a mask voxel with x < k, and they are
      listed in ascending (x, y, z). */
  lemma {:induction false} CubeListed(v: Volume, k: nat)
    requires v.Valid() && k <= v.xDim
    ensures var s := Cube(v, k);
            && (forall i :: 0 <= i < |s| ==> s[i].x < k && InGrid(s[i], v.xDim, v.yDim, v.zDim) && Above(v, s[i]))
            && LexSorted(s)
    decreases k
  {
    if k > 0 {
      CubeListed(v, k - 1);
      PlaneListed(v, k - 1, v.yDim);
      SortedConcat(Cube(v, k - 1), Plane(v, k - 1, v.yDim));
    }
  }

  /** The points ReadMask returns for a resampled mask. */
  function MaskPoints(v: Volume): seq<Point3D>
    requires v.Valid()
  {
    Cube(v, v.xDim)
  }

  lemma {:induction false} ColumnComplete(v: Volume, p: Point3D, k: nat)
    requires v.Valid() && InGrid(p, v.xDim, v.yDim, v.zDim) && p.z < k <= v.zDim && Above(v, p)
    ensures p in Column(v, p.x, p.y, k)
    decreases k
  {
    if p.z < k - 1 {
      ColumnComplete(v, p, k - 1);
    }
  }

  lemma {:induction false} PlaneComplete(v: Volume, p: Point3D, k: nat)
    requires v.Valid() && InGrid(p, v.xDim, v.yDim, v.zDim) && p.y < k <= v.yDim && Above(v, p)
    ensures p in Plane(v, p.x, k)
    decreases k
  {
    if p.y < k - 1 {
      PlaneComplete(v, p, k - 1);
    } else {
      ColumnComplete(v, p, v.zDim);
    }
  }

  lemma {:induction false} CubeComplete(v: Volume, p: Point3D, k: nat)
    requires v.Valid() && InGrid(p, v.xDim, v.yDim, v.zDim) && p.x < k <= v.xDim && Above(v, p)
    ensures p in Cube(v, k)
    decreases k
  {
    if p.x < k - 1 {
      CubeComplete(v, p, k - 1);
    } else {
      PlaneComplete(v, p, v.yDim);
    }
  }

  /** A point is listed exactly when it lies in the grid and its mask value
      exceeds 0.01; the list is in x-then-y-then-z order, so no point is
      listed twice. */
  lemma MaskPointsExact(v: Volume, p: Point3D)
    requires v.Valid()
    ensures p in MaskPoints(v) <==> InGrid(p, v.xDim, v.yDim, v.zDim) && Above(v, p)
    ensures LexSorted(MaskPoints(v))
  {
    CubeListed(v, v.xDim);
    if InGrid(p, v.xDim, v.yDim, v.zDim) && Above(v, p) {
      CubeComplete(v, p, v.xDim);
    }
  }

  // ---------------------------------------------------------------------
  // The two triple loops of ReadMask
  // ---------------------------------------------------------------------

  lemma {:induction false} ColumnGrows(v: Volume, x: nat, y: nat, k: nat, k': nat)
    requires v.Valid() && x < v.xDim && y < v.yDim && k <= k' <= v.zDim
    ensures |Column(v, x, y, k)| <= |Column(v, x, y, k')|
    decreases k'
  {
    if k < k' {
      ColumnGrows(v, x, y, k, k' - 1);
    }
  }

  lemma {:induction false} PlaneGrows(v: Volume, x: nat, k: nat, k': nat)
    requires v.Valid() && x < v.xDim && k <= k' <= v.yDim
    ensures |Plane(v, x, k)| <= |Plane(v, x, k')|
    decreases k'
  {
    if k < k' {
      PlaneGrows(v, x, k, k' - 1);
    }
  }

  lemma {:induction false} CubeGrows(v: Volume, k: nat, k': nat)
    requires v.Valid() && k <= k' <= v.xDim
    ensures |Cube(v, k)| <= |Cube(v, k')|
    decreases k'
  {
    if k < k' {
      CubeGrows(v, k, k' - 1);
    }
  }

  /** `r` holds the values of `v`, indexed [z, y, x]. */
  ghost predicate Holds(r: array3<real>, v: Volume)
    reads r
  {
    v.Valid() && r.Length0 == v.zDim && r.Length1 == v.yDim && r.Length2 == v.xDim &&
    forall z, y, x :: 0 <= z < v.zDim && 0 <= y < v.yDim && 0 <= x < v.xDim ==> r[z, y, x] == v.data[z][y][x]
  }

  /** The counting loop of ReadMask. */
  method CountMaskPoints(r: array3<real>, ghost v: Volume) returns (nPoints: nat)
    requires Holds(r, v)
    ensures nPoints == |MaskPoints(v)|
  {
    nPoints := 0;
    for x := 0 to r.Length2
      invariant nPoints == |Cube(v, x)|
    {
      for y := 0 to r.Length1
        invariant nPoints == |Cube(v, x)| + |Plane(v, x, y)|
      {
        for z := 0 to r.Length0
          invariant nPoints == |Cube(v, x)| + |Plane(v, x, y)| + |Column(v, x, y, z)|
        {
          if r[z, y, x] > 0.01 {
            nPoints := nPoints + 1;
          }
        }
      }
    }
  }

  /** The innermost listing loop of ReadMask: appends the mask voxels of
      one (x, y) column at the running index, after `listed`. */
  method ListColumn(r: array3<real>, ghost v: Volume, buffer: array<Point3D>, start: nat, x: nat, y: nat,
                    ghost listed: seq<Point3D>)
    returns (i: nat)
    requires Holds(r, v) && x < v.xDim && y < v.yDim
    requires start + |Column(v, x, y, v.zDim)| <= buffer.Length
    requires start <= buffer.Length && buffer[..start] == listed
    modifies buffer
    ensures i == start + |Column(v, x, y, v.zDim)|
    ensures buffer[..i] == listed + Column(v, x, y, v.zDim)
  {
    i := start;
    for z := 0 to r.Length0
      invariant i == start + |Column(v, x, y, z)| <= buffer.Length
      invariant buffer[..i] == listed + Column(v, x, y, z)
    {
      ColumnGrows(v, x, y, z + 1, v.zDim);
      if r[z, y, x] > 0.01 {
        buffer[i] := MakePoint3D(x, y, z);
        i := i + 1;
      }
    }
  }

  /** The middle listing loop of ReadMask: appends the mask voxels of one
      x plane at the running index, after `listed`. */
  method ListPlane(r: array3<real>, ghost v: Volume, buffer: array<Point3D>, start: nat, x: nat,
                   ghost listed: seq<Point3D>)
    returns (i: nat)
    requires Holds(r, v) && x < v.xDim
    requires start + |Plane(v, x, v.yDim)| <= buffer.Length
    requires start <= buffer.Length && buffer[..start] == listed
    modifies buffer
    ensures i == start + |Plane(v, x, v.yDim)|
    ensures buffer[..i] == listed + Plane(v, x, v.yDim)
  {
    i := start;
    for y := 0 to r.Length1
      invariant i == start + |Plane(v, x, y)| <= buffer.Length
      invariant buffer[..i] == listed + Plane(v, x, y)
    {
      PlaneGrows(v, x, y + 1, v.yDim);
      ghost var before := listed + Plane(v, x, y);
      ghost var column := Column(v, x, y, v.zDim);
      assert Plane(v, x, y + 1) == Plane(v, x, y) + column;
      assert before + column == listed + Plane(v, x, y + 1);
      i := ListColumn(r, v, buffer, i, x, y, before);
    }
  }

  /** The listing loop of ReadMask: a running index fills the array the
      count sized. */
  method ListMaskPoints(r: array3<real>, ghost v: Volume, nPoints: nat) returns (points: seq<Point3D>)
    requires Holds(r, v) && nPoints == |MaskPoints(v)|
    ensures points == MaskPoints(v)
  {
    var buffer := new Point3D[nPoints];
    var i := 0;
    for x := 0 to r.Length2
      invariant i == |Cube(v, x)| <= nPoints
      invariant buffer[..i] == Cube(v, x)
    {
      CubeGrows(v, x + 1, v.xDim);
      ghost var before := Cube(v, x);
      i := ListPlane(r, v, buffer, i, x, before);
    }
    points := buffer[..];
  }

  // ---------------------------------------------------------------------
  // ReadMask
  // ---------------------------------------------------------------------

  /** What FslOpen and FslReadVolumes yield for the mask path: no header,
      no readable first volume, or the header's scaling and the first
      volume as scaled doubles. */
  datatype MaskFile = CannotOpen | CannotRead | Opened(sclSlope: real, sclInter: real, volume: Volume)

  /** A mask the resampling can read: a non-empty grid of its stated size. */
  ghost predicate Readable(m: Volume)
  {
    m.Valid() && m.xDim > 0 && m.yDim > 0 && m.zDim > 0
  }

  /** ResampleVolume's result as a value. */
  function Resampled(m: Volume, newX: nat, newY: nat, newZ: nat): (r: Volume)
    requires Readable(m)
    ensures r.Valid() && r.xDim == newX && r.yDim == newY && r.zDim == newZ
    ensures forall p: Point3D :: InGrid(p, newX, newY, newZ) ==>
              r.data[p.z][p.y][p.x] == ResampledAt(m.data, m.xDim, m.yDim, m.zDim, newX, newY, newZ, p)
  {
    var data := seq(newZ, z requires 0 <= z < newZ =>
                  seq(newY, y requires 0 <= y < newY =>
                    seq(newX, x requires 0 <= x < newX =>
                      ResampledAt(m.data, m.xDim, m.yDim, m.zDim, newX, newY, newZ, Point3D(x, y, z)))));
    Volume(newX, newY, newZ, data)
  }

  /** The double the save path as written hands to the cast for one voxel:
      `(v - scl_inter) / scl_slope` with the prototype's raw header fields.
      A zero slope makes the quotient non-finite (an infinity, or NaN when
      v equals the intercept); NaN stands for both here. */
  function RawUnscaled(v: real, sclSlope: real, sclInter: real): Sample
  {
    if sclSlope == 0.0 then NaN else Num((v - sclInter) / sclSlope)
  }

  /** The quotients the save path as written computes, voxel by voxel at
      the voxel's flat index, before the cast to the storage type. */
  function SaveAsWritten(r: Volume, sclSlope: real, sclInter: real): (buf: seq<Sample>)
    requires r.Valid()
    ensures |buf| == r.xDim * r.yDim * r.zDim
    ensures forall p: Point3D :: InGrid(p, r.xDim, r.yDim, r.zDim) ==>
              buf[FlatIndex(p, r.xDim, r.yDim, r.zDim)] == RawUnscaled(r.data[p.z][p.y][p.x], sclSlope, sclInter)
  {
    var n := r.xDim * r.yDim * r.zDim;
    var buf := seq(n, i requires 0 <= i < n =>
                     var p := Unflatten(i, r.xDim, r.yDim, r.zDim);
                     RawUnscaled(r.data[p.z][p.y][p.x], sclSlope, sclInter));
    assert forall p: Point3D :: InGrid(p, r.xDim, r.yDim, r.zDim) ==>
             buf[FlatIndex(p, r.xDim, r.yDim, r.zDim)] == RawUnscaled(r.data[p.z][p.y][p.x], sclSlope, sclInter) by {
      forall p: Point3D | InGrid(p, r.xDim, r.yDim, r.zDim) {
        UnflattenFlatIndex(p, r.xDim, r.yDim, r.zDim);
      }
    }
    buf
  }

  /** On a non-empty mask the save path as written stores the same doubles
      as the save with the effective scaling exactly when the prototype's
      scl_slope is not 0; with scl_slope 0 every voxel of the written mask
      is a division by 0. */
  lemma {:induction false} SaveAsWrittenAgreesIff(r: Volume, sclSlope: real, sclInter: real, buf: seq<real>)
    requires r.Valid() && r.xDim * r.yDim * r.zDim > 0
    requires SavedMask(buf, r, sclSlope, sclInter, x => x)
    ensures (forall k :: 0 <= k < |buf| ==> SaveAsWritten(r, sclSlope, sclInter)[k] == Num(buf[k]))
            <==> sclSlope != 0.0
  {
    var written := SaveAsWritten(r, sclSlope, sclInter);
    if sclSlope != 0.0 {
      forall k | 0 <= k < |buf|
        ensures written[k] == Num(buf[k])
      {
        var p := Unflatten(k, r.xDim, r.yDim, r.zDim);
        assert FlatIndex(p, r.xDim, r.yDim, r.zDim) == k;
      }
    } else {
      var p := Unflatten(0, r.xDim, r.yDim, r.zDim);
      assert written[FlatIndex(p, r.xDim, r.yDim, r.zDim)].NaN?;
    }
  }

  /** The buffer the save path writes: each voxel of the resampled mask,
      unscaled with the prototype's effective scaling, at its flat index. */
  ghost predicate SavedMask<T>(buf: seq<T>, r: Volume, sclSlope: real, sclInter: real, cast: real -> T)
    requires r.Valid()
  {
    var (slope, inter) := EffectiveScaling(sclSlope, sclInter);
    |buf| == r.xDim * r.yDim * r.zDim &&
    forall p: Point3D :: InGrid(p, r.xDim, r.yDim, r.zDim) ==>
      FlatIndex(p, r.xDim, r.yDim, r.zDim) < |buf| &&
      buf[FlatIndex(p, r.xDim, r.yDim, r.zDim)] == Unscaled(r.data[p.z][p.y][p.x], slope, inter, cast)
  }

  /** The save path of ReadMask: the resampled mask converted to the
      prototype's storage type into a buffer of newX*newY*newZ voxels. */
  method SaveResampledMask<T>(resampledMask: array3<real>, ghost r: Volume,
                              prototypeSlope: real, prototypeInter: real, cast: real -> T)
    returns (buffer: seq<T>)
    requires Holds(resampledMask, r)
    ensures SavedMask(buffer, r, prototypeSlope, prototypeInter, cast)
  {
    var (slope, inter) := EffectiveScaling(prototypeSlope, prototypeInter);
    var xh, yh, zh := resampledMask.Length2, resampledMask.Length1, resampledMask.Length0;
    var maskBuffer := new T[xh * yh * zh](_ => cast(0.0));
    ConvertScaledDoubleToBuffer(maskBuffer, resampledMask, slope, inter, xh, yh, zh, cast);
    buffer := maskBuffer[..];
    forall p: Point3D | InGrid(p, xh, yh, zh)
      ensures buffer[FlatIndex(p, xh, yh, zh)] == Unscaled(r.data[p.z][p.y][p.x], slope, inter, cast)
    {
    }
  }

  /** ReadMask.  `file` is what the mask path yields, (newX, newY, newZ)
      the input's grid, `saveOpened` whether a resampled-mask path was
      given and could be opened for writing, (prototypeSlope,
      prototypeInter) the input header's scaling and `cast` the conversion
      to the input's storage type.  None stands for the NULL result. */
  method ReadMask<T>(file: MaskFile, newX: nat, newY: nat, newZ: nat, saveOpened: bool,
                     prototypeSlope: real, prototypeInter: real, cast: real -> T)
    returns (points: Option<seq<Point3D>>, nPoints: nat, saved: Option<seq<T>>)
    requires file.Opened? ==> Readable(file.volume)
    ensures file.Opened? <==> points.Some?
    ensures file.Opened? ==>
              var r := Resampled(file.volume, newX, newY, newZ);
              && points.value == MaskPoints(r)
              && nPoints == |points.value|
              && (saveOpened <==> saved.Some?)
              && (saved.Some? ==> SavedMask(saved.value, r, prototypeSlope, prototypeInter, cast))
    ensures !file.Opened? ==> saved.None?
  {
    nPoints := 0;
    saved := None;
    if file.CannotOpen? || file.CannotRead? {
      return None, nPoints, saved;
    }
    var m := file.volume;
    var resampledMask := ResampleVolume(m.data, m.xDim, m.yDim, m.zDim, newX, newY, newZ);
    ghost var r := Resampled(m, newX, newY, newZ);
    forall z, y, x | 0 <= z < newZ && 0 <= y < newY && 0 <= x < newX
      ensures resampledMask[z, y, x] == r.data[z][y][x]
    {
      assert InGrid(Point3D(x, y, z), newX, newY, newZ);
    }

    nPoints := CountMaskPoints(resampledMask, r);
    var listed := ListMaskPoints(resampledMask, r, nPoints);
    points := Some(listed);

    if saveOpened {
      var buffer := SaveResampledMask(resampledMask, r, prototypeSlope, prototypeInter, cast);
      saved := Some(buffer);
    }
  }

  // ---------------------------------------------------------------------
  // Mask mode: the mean over the mask points, frame by frame
  // ---------------------------------------------------------------------

  /** The running sum `sum = sum + v` in the order of the points, from 0. */
  function Sum(values: seq<Sample>): Sample
  {
    if |values| == 0 then Num(0.0) else Add(Sum(values[..|values| - 1]), values[|values| - 1])
  }

  /** `sum / nPoints` in C: with no points the sum is 0.0 and 0.0/0 is NaN,
      and a NaN in the sum stays NaN. */
  function Mean(values: seq<Sample>): (m: Sample)
    ensures |values| == 0 ==> m.NaN?
  {
    var sum := Sum(values);
    if |values| == 0 || sum.NaN? then NaN else Num(sum.v / |values| as real)
  }

  /** The sum is NaN exactly when one of the values is. */
  lemma {:induction false} SumNaN(values: seq<Sample>)
    ensures Sum(values).NaN? <==> exists i :: 0 <= i < |values| && values[i].NaN?
    decreases |values|
  {
    if |values| > 0 {
      var n := |values| - 1;
      SumNaN(values[..n]);
      if Sum(values[..n]).NaN? {
        var i :| 0 <= i < n && values[..n][i].NaN?;
        assert values[i].NaN?;
      }
      if exists i :: 0 <= i < |values| && values[i].NaN? {
        var i :| 0 <= i < |values| && values[i].NaN?;
        if i < n {
          assert values[..n][i].NaN?;
        }
      }
    }
  }

  /** The mean is NaN exactly when there are no values or one of them is
      NaN. */
  lemma MeanNaN(values: seq<Sample>)
    ensures Mean(values).NaN? <==> |values| == 0 || exists i :: 0 <= i < |values| && values[i].NaN?
  {
    SumNaN(values);
  }

  lemma {:induction false} SumBounds(values: seq<Sample>, lo: real, hi: real)
    requires forall i :: 0 <= i < |values| ==> values[i].Num? && lo <= values[i].v <= hi
    ensures Sum(values).Num?
    ensures |values| as real * lo <= Sum(values).v <= |values| as real * hi
    decreases |values|
  {
    if |values| > 0 {
      var n := |values| - 1;
      SumBounds(values[..n], lo, hi);
      assert (n + 1) as real * lo == n as real * lo + lo;
      assert (n + 1) as real * hi == n as real * hi + hi;
    }
  }

  /** A sum of n numbers within [lo, hi], divided by n, lies within [lo, hi]. */
  lemma QuotientWithin(sum: real, n: real, lo: real, hi: real)
    requires n > 0.0 && n * lo <= sum <= n * hi
    ensures lo <= sum / n <= hi
  {
    DivNonNegative(sum - n * lo, n);
    DivNonNegative(n * hi - sum, n);
    MulDivCancel(lo, n);
    MulDivCancel(hi, n);
    assert (sum - n * lo) / n == sum / n - (n * lo) / n;
    assert (n * hi - sum) / n == (n * hi) / n - sum / n;
  }

  /** The mean of numbers within [lo, hi] is a number within [lo, hi]. */
  lemma MeanWithin(values: seq<Sample>, lo: real, hi: real)
    requires |values| > 0
    requires forall i :: 0 <= i < |values| ==> values[i].Num? && lo <= values[i].v <= hi
    ensures Mean(values).Num? && lo <= Mean(values).v <= hi
  {
    SumQuotientWithin(values, lo, hi);
    assert Mean(values) == Num(Sum(values).v / |values| as real);
  }

  /** The sum of n numbers within [lo, hi], divided by n, lies within [lo, hi]. */
  lemma SumQuotientWithin(values: seq<Sample>, lo: real, hi: real)
    requires |values| > 0
    requires forall i :: 0 <= i < |values| ==> values[i].Num? && lo <= values[i].v <= hi
    ensures Sum(values).Num? && lo <= Sum(values).v / |values| as real <= hi
  {
    SumBounds(values, lo, hi);
    QuotientWithin(Sum(values).v, |values| as real, lo, hi);
  }

  /** What FslOpen yields for the input path: no header, or the header's
      dimensions and scaling with the stored values of every frame. */
  datatype InputFile = Unopenable | Input(xDim: nat, yDim: nat, zDim: nat, sclSlope: real, sclInter: real,
                                          stored: seq<Grid<real>>)
  {
    ghost predicate Valid()
    {
      Input? ==> forall t :: 0 <= t < |stored| ==> Shaped(stored[t], xDim, yDim, zDim)
    }
  }

  /** The scaled double of voxel p in frame t, with the effective scaling
      of `main`; `toScaled` stands for the library's conversion of a stored
      value with a slope and intercept, which yields NaN for a
      floating-point voxel holding NaN.  Mask mode reads whole frames
      through the library's own scaled read, taken to agree with this. */
  function ScaledVoxel(f: InputFile, t: nat, p: Point3D, toScaled: (real, real, real) -> Sample): Sample
    requires f.Input? && f.Valid() && t < |f.stored| && InGrid(p, f.xDim, f.yDim, f.zDim)
  {
    var (slope, inter) := EffectiveScaling(f.sclSlope, f.sclInter);
    toScaled(f.stored[t][p.z][p.y][p.x], slope, inter)
  }

  /** The values at the mask points in frame t, in the order of the points. */
  function FrameValues(f: InputFile, t: nat, points: seq<Point3D>, toScaled: (real, real, real) -> Sample)
    : (vs: seq<Sample>)
    requires f.Input? && f.Valid() && t < |f.stored| && PointsIn(points, f.xDim, f.yDim, f.zDim)
    ensures |vs| == |points|
    ensures forall i :: 0 <= i < |points| ==> vs[i] == ScaledVoxel(f, t, points[i], toScaled)
  {
    seq(|points|, i requires 0 <= i < |points| => ScaledVoxel(f, t, points[i], toScaled))
  }

  /** The sum of the first k mask values of frame t. */
  lemma SumStep(vs: seq<Sample>, k: nat)
    requires k < |vs|
    ensures Sum(vs[..k + 1]) == Add(Sum(vs[..k]), vs[k])
  {
    assert vs[..k + 1][..k] == vs[..k];
  }

  /** The inner loop of mask mode: the mean of one frame. */
  method FrameMean(f: InputFile, t: nat, points: seq<Point3D>, nPoints: nat, toScaled: (real, real, real) -> Sample)
    returns (avg: Sample)
    requires f.Input? && f.Valid() && t < |f.stored| && PointsIn(points, f.xDim, f.yDim, f.zDim)
    requires nPoints == |points|
    ensures avg == Mean(FrameValues(f, t, points, toScaled))
  {
    ghost var vs := FrameValues(f, t, points, toScaled);
    var (slope, inter) := EffectiveScaling(f.sclSlope, f.sclInter);
    var sum := Num(0.0);
    for i := 0 to nPoints
      invariant sum == Sum(vs[..i])
    {
      var p := points[i];
      SumStep(vs, i);
      sum := Add(sum, toScaled(f.stored[t][p.z][p.y][p.x], slope, inter));
    }
    assert vs[..nPoints] == vs;
    avg := if nPoints == 0 || sum.NaN? then NaN else Num(sum.v / nPoints as real);
  }

  /** One line per frame: the mean of the frame over the mask points. */
  method MaskTimecourse(f: InputFile, points: seq<Point3D>, nPoints: nat, toScaled: (real, real, real) -> Sample)
    returns (lines: seq<Sample>)
    requires f.Input? && f.Valid() && PointsIn(points, f.xDim, f.yDim, f.zDim) && nPoints == |points|
    ensures |lines| == |f.stored|
    ensures forall t :: 0 <= t < |lines| ==> lines[t] == Mean(FrameValues(f, t, points, toScaled))
  {
    lines := [];
    for t := 0 to |f.stored|
      invariant |lines| == t
      invariant forall u :: 0 <= u < t ==> lines[u] == Mean(FrameValues(f, u, points, toScaled))
    {
      var avg := FrameMean(f, t, points, nPoints, toScaled);
      lines := lines + [avg];
    }
  }

  // ---------------------------------------------------------------------
  // Voxel mode
  // ---------------------------------------------------------------------

  /** One line per frame: the scaled value of voxel (x, y, z). */
  method VoxelTimecourse(f: InputFile, x: nat, y: nat, z: nat, toScaled: (real, real, real) -> Sample)
    returns (lines: seq<Sample>)
    requires f.Input? && f.Valid() && InGrid(Point3D(x, y, z), f.xDim, f.yDim, f.zDim)
    ensures |lines| == |f.stored|
    ensures forall t :: 0 <= t < |lines| ==> lines[t] == ScaledVoxel(f, t, Point3D(x, y, z), toScaled)
  {
    var (slope, inter) := EffectiveScaling(f.sclSlope, f.sclInter);
    lines := [];
    for t := 0 to |f.stored|
      invariant |lines| == t
      invariant forall u :: 0 <= u < t ==> lines[u] == ScaledVoxel(f, u, Point3D(x, y, z), toScaled)
    {
      var v := toScaled(f.stored[t][z][y][x], slope, inter);
      lines := lines + [v];
    }
  }

  // ---------------------------------------------------------------------
  // Command line
  // ---------------------------------------------------------------------

  /** The settings main collects; -1 marks a coordinate not given. */
  datatype Arguments = Arguments(inputpath: Option<string>, maskpath: Option<string>,
                                 savemaskpath: Option<string>, x: int, y: int, z: int, verbose: bool)

  const Defaults: Arguments := Arguments(None, None, None, -1, -1, -1, false)

  /** The outcome of parsing: the help text (exit 0), a value-taking
      option without its value (exit 1, named as in the message), or the
      settings with the unrecognised arguments that were reported. */
  datatype Parse = ShowHelp | MissingArgument(option: string) | Parsed(args: Arguments, unrecognised: seq<string>)

  /** `strncmp(a, p, |p|) == 0` for a C string a without embedded NUL. */
  predicate HasPrefix(a: string, p: string)
  {
    |p| <= |a| && a[..|p|] == p
  }

  /** An argument none of the option tests accepts. */
  predicate Unrecognised(a: string)
  {
    !HasPrefix(a, "-h") && a != "-input" && !HasPrefix(a, "-m") && !HasPrefix(a, "-s") &&
    !HasPrefix(a, "-v") && !HasPrefix(a, "-p")
  }

  /** The option whose value an argument asks for, for the three options
      that take one value, in the order main tests them. */
  function ValueOption(a: string): Option<string>
  {
    if HasPrefix(a, "-h") then None
    else if a == "-input" then Some("-input")
    else if HasPrefix(a, "-m") then Some("-m")
    else if HasPrefix(a, "-s") then Some("-savemask")
    else None
  }

  /** The parsing loop of main from position ac on. */
  function ParseFrom(argv: seq<string>, ac: nat, acc: Arguments, unrecognised: seq<string>, atoi: string -> int): Parse
    decreases |argv| - ac
  {
    if ac >= |argv| then Parsed(acc, unrecognised)
    else
      var a := argv[ac];
      if HasPrefix(a, "-h") then ShowHelp
      else if a == "-input" then
        if ac + 1 >= |argv| then MissingArgument("-input")
        else ParseFrom(argv, ac + 2, acc.(inputpath := Some(argv[ac + 1])), unrecognised, atoi)
      else if HasPrefix(a, "-m") then
        if ac + 1 >= |argv| then MissingArgument("-m")
        else ParseFrom(argv, ac + 2, acc.(maskpath := Some(argv[ac + 1])), unrecognised, atoi)
      else if HasPrefix(a, "-s") then
        if ac + 1 >= |argv| then MissingArgument("-savemask")
        else ParseFrom(argv, ac + 2, acc.(savemaskpath := Some(argv[ac + 1])), unrecognised, atoi)
      else if HasPrefix(a, "-v") then
        ParseFrom(argv, ac + 1, acc.(verbose := true), unrecognised, atoi)
      else if HasPrefix(a, "-p") then
        if ac + 3 >= |argv| then MissingArgument("-p")
        else ParseFrom(argv, ac + 4, acc.(x := atoi(argv[ac + 1]), y := atoi(argv[ac + 2]), z := atoi(argv[ac + 3])),
                       unrecognised, atoi)
      else ParseFrom(argv, ac + 1, acc, unrecognised + [a], atoi)
  }

  /** argv[0] is the program name; with no further argument main shows the
      help. `atoi` is the C library's conversion. */
  function ParseCommandLine(argv: seq<string>, atoi: string -> int): Parse
  {
    if |argv| < 2 then ShowHelp else ParseFrom(argv, 1, Defaults, [], atoi)
  }

  /** The parsing loop of main. */
  method ParseArguments(argv: seq<string>, atoi: string -> int) returns (r: Parse)
    ensures r == ParseCommandLine(argv, atoi)
  {
    if |argv| < 2 {
      return ShowHelp;
    }
    var args := Defaults;
    var unrecognised: seq<string> := [];
    var ac := 1;
    while ac < |argv|
      invariant 1 <= ac <= |argv|
      invariant ParseFrom(argv, ac, args, unrecognised, atoi) == ParseCommandLine(argv, atoi)
      decreases |argv| - ac
    {
      var a := argv[ac];
      if HasPrefix(a, "-h") {
        return ShowHelp;
      } else if a == "-input" {
        ac := ac + 1;
        if ac >= |argv| {
          return MissingArgument("-input");
        }
        args := args.(inputpath := Some(argv[ac]));
      } else if HasPrefix(a, "-m") {
        ac := ac + 1;
        if ac >= |argv| {
          return MissingArgument("-m");
        }
        args := args.(maskpath := Some(argv[ac]));
      } else if HasPrefix(a, "-s") {
        ac := ac + 1;
        if ac >= |argv| {
          return MissingArgument("-savemask");
        }
        args := args.(savemaskpath := Some(argv[ac]));
      } else if HasPrefix(a, "-v") {
        args := args.(verbose := true);
      } else if HasPrefix(a, "-p") {
        if ac + 3 >= |argv| {
          return MissingArgument("-p");
        }
        ac := ac + 1;
        args := args.(x := atoi(argv[ac]));
        ac := ac + 1;
        args := args.(y := atoi(argv[ac]));
        ac := ac + 1;
        args := args.(z := atoi(argv[ac]));
      } else {
        unrecognised := unrecognised + [a];
      }
      ac := ac + 1;
    }
    return Parsed(args, unrecognised);
  }

  /** Parsing a longer command line goes through the same steps until the
      shorter one is used up, then carries on with the rest. */
  lemma {:induction false} ParseAppend(argv: seq<string>, rest: seq<string>, ac: nat, acc: Arguments,
                                       unrecognised: seq<string>, atoi: string -> int)
    requires ac <= |argv| && ParseFrom(argv, ac, acc, unrecognised, atoi).Parsed?
    ensures var p := ParseFrom(argv, ac, acc, unrecognised, atoi);
            ParseFrom(argv + rest, ac, acc, unrecognised, atoi) == ParseFrom(argv + rest, |argv|, p.args, p.unrecognised, atoi)
    decreases |argv| - ac
  {
    if ac < |argv| {
      var a := argv[ac];
      var all := argv + rest;
      assert all[ac] == a;
      if a == "-input" || HasPrefix(a, "-m") || HasPrefix(a, "-s") {
        assert all[ac + 1] == argv[ac + 1];
        if a == "-input" {
          ParseAppend(argv, rest, ac + 2, acc.(inputpath := Some(argv[ac + 1])), unrecognised, atoi);
        } else if HasPrefix(a, "-m") {
          ParseAppend(argv, rest, ac + 2, acc.(maskpath := Some(argv[ac + 1])), unrecognised, atoi);
        } else {
          ParseAppend(argv, rest, ac + 2, acc.(savemaskpath := Some(argv[ac + 1])), unrecognised, atoi);
        }
      } else if HasPrefix(a, "-v") {
        ParseAppend(argv, rest, ac + 1, acc.(verbose := true), unrecognised, atoi);
      } else if HasPrefix(a, "-p") {
        assert all[ac + 1] == argv[ac + 1] && all[ac + 2] == argv[ac + 2] && all[ac + 3] == argv[ac + 3];
        ParseAppend(argv, rest, ac + 4,
                    acc.(x := atoi(argv[ac + 1]), y := atoi(argv[ac + 2]), z := atoi(argv[ac + 3])), unrecognised, atoi);
      } else {
        ParseAppend(argv, rest, ac + 1, acc, unrecognised + [a], atoi);
      }
    }
  }

  /** A value-taking option can only miss its value at the end of the
      command line: -input, -m and -s as the last argument, -p among the
      last three. */
  lemma {:induction false} MissingArgumentAtEnd(argv: seq<string>, ac: nat, acc: Arguments,
                                                unrecognised: seq<string>, atoi: string -> int)
    requires ParseFrom(argv, ac, acc, unrecognised, atoi).MissingArgument?
    ensures var o := ParseFrom(argv, ac, acc, unrecognised, atoi).option;
            && (o != "-p" ==> ValueOption(argv[|argv| - 1]) == Some(o))
            && (o == "-p" ==> exists k :: ac <= k < |argv| && |argv| <= k + 3 && HasPrefix(argv[k], "-p"))
    decreases |argv| - ac
  {
    var a := argv[ac];
    if a == "-input" || HasPrefix(a, "-m") || HasPrefix(a, "-s") {
      if ac + 1 < |argv| {
        if a == "-input" {
          MissingArgumentAtEnd(argv, ac + 2, acc.(inputpath := Some(argv[ac + 1])), unrecognised, atoi);
        } else if HasPrefix(a, "-m") {
          MissingArgumentAtEnd(argv, ac + 2, acc.(maskpath := Some(argv[ac + 1])), unrecognised, atoi);
        } else {
          MissingArgumentAtEnd(argv, ac + 2, acc.(savemaskpath := Some(argv[ac + 1])), unrecognised, atoi);
        }
      }
    } else if HasPrefix(a, "-v") {
      MissingArgumentAtEnd(argv, ac + 1, acc.(verbose := true), unrecognised, atoi);
    } else if HasPrefix(a, "-p") {
      if ac + 3 < |argv| {
        MissingArgumentAtEnd(argv, ac + 4,
                             acc.(x := atoi(argv[ac + 1]), y := atoi(argv[ac + 2]), z := atoi(argv[ac + 3])),
                             unrecognised, atoi);
      }
    } else {
      MissingArgumentAtEnd(argv, ac + 1, acc, unrecognised + [a], atoi);
    }
  }

  /** Unrecognised arguments do not stop the parse: each is collected (and
      reported), and every collected one is an argument none of the
      option tests accepts. */
  lemma {:induction false} UnrecognisedCollected(argv: seq<string>, ac: nat, acc: Arguments,
                                                 unrecognised: seq<string>, atoi: string -> int)
    requires forall i :: 0 <= i < |unrecognised| ==> Unrecognised(unrecognised[i]) && unrecognised[i] in argv
    requires ParseFrom(argv, ac, acc, unrecognised, atoi).Parsed?
    ensures var u := ParseFrom(argv, ac, acc, unrecognised, atoi).unrecognised;
            forall i :: 0 <= i < |u| ==> Unrecognised(u[i]) && u[i] in argv
    decreases |argv| - ac
  {
    if ac < |argv| {
      var a := argv[ac];
      if a == "-input" {
        UnrecognisedCollected(argv, ac + 2, acc.(inputpath := Some(argv[ac + 1])), unrecognised, atoi);
      } else if HasPrefix(a, "-m") {
        UnrecognisedCollected(argv, ac + 2, acc.(maskpath := Some(argv[ac + 1])), unrecognised, atoi);
      } else if HasPrefix(a, "-s") {
        UnrecognisedCollected(argv, ac + 2, acc.(savemaskpath := Some(argv[ac + 1])), unrecognised, atoi);
      } else if HasPrefix(a, "-v") {
        UnrecognisedCollected(argv, ac + 1, acc.(verbose := true), unrecognised, atoi);
      } else if HasPrefix(a, "-p") {
        UnrecognisedCollected(argv, ac + 4,
                              acc.(x := atoi(argv[ac + 1]), y := atoi(argv[ac + 2]), z := atoi(argv[ac + 3])),
                              unrecognised, atoi);
      } else {
        UnrecognisedCollected(argv, ac + 1, acc, unrecognised + [a], atoi);
      }
    }
  }

  /** One step of the parse over `-input <path>`. */
  lemma InputStep(argv: seq<string>, ac: nat, acc: Arguments, unrecognised: seq<string>, atoi: string -> int)
    requires ac + 1 < |argv| && argv[ac] == "-input"
    ensures ParseFrom(argv, ac, acc, unrecognised, atoi)
         == ParseFrom(argv, ac + 2, acc.(inputpath := Some(argv[ac + 1])), unrecognised, atoi)
  {
    assert argv[ac][1] == 'i';
    assert !HasPrefix(argv[ac], "-h");
  }

  /** A later -input replaces an earlier one and leaves every other
      setting as it was. */
  lemma LaterInputOverrides(argv: seq<string>, path: string, atoi: string -> int)
    requires |argv| >= 1 && ParseFrom(argv, 1, Defaults, [], atoi).Parsed?
    ensures var p := ParseFrom(argv, 1, Defaults, [], atoi);
            ParseCommandLine(argv + ["-input", path], atoi) == Parsed(p.args.(inputpath := Some(path)), p.unrecognised)
  {
    var p := ParseFrom(argv, 1, Defaults, [], atoi);
    var all := argv + ["-input", path];
    ParseAppend(argv, ["-input", path], 1, Defaults, [], atoi);
    assert all[|argv|] == "-input" && all[|argv| + 1] == path;
    InputStep(all, |argv|, p.args, p.unrecognised, atoi);
  }

  // ---------------------------------------------------------------------
  // The tool
  // ---------------------------------------------------------------------

  /** Exit status, the values printed one per line, and whether the
      resampled mask is written. */
  datatype Outcome = Outcome(exitCode: int, lines: seq<Sample>, savesMask: bool)

  /** Voxel mode's lines: the scaled value of p in every frame. */
  function VoxelLines(f: InputFile, p: Point3D, toScaled: (real, real, real) -> Sample): seq<Sample>
    requires f.Input? && f.Valid() && InGrid(p, f.xDim, f.yDim, f.zDim)
  {
    seq(|f.stored|, t requires 0 <= t < |f.stored| => ScaledVoxel(f, t, p, toScaled))
  }

  /** Mask mode's lines: the mean over the mask points of every frame. */
  function MaskLines(f: InputFile, points: seq<Point3D>, toScaled: (real, real, real) -> Sample): seq<Sample>
    requires f.Input? && f.Valid() && PointsIn(points, f.xDim, f.yDim, f.zDim)
  {
    seq(|f.stored|, t requires 0 <= t < |f.stored| => Mean(FrameValues(f, t, points, toScaled)))
  }

  /** The mask points of a mask resampled to the input's grid lie in that grid. */
  lemma ResampledPointsIn(m: Volume, xh: nat, yh: nat, zh: nat)
    requires Readable(m)
    ensures PointsIn(MaskPoints(Resampled(m, xh, yh, zh)), xh, yh, zh)
  {
    var points := MaskPoints(Resampled(m, xh, yh, zh));
    forall i | 0 <= i < |points|
      ensures InGrid(points[i], xh, yh, zh)
    {
      MaskPointsExact(Resampled(m, xh, yh, zh), points[i]);
    }
  }

  /** What rstimecourse does with a command line, the input file, the file
      the mask path yields and whether the resampled-mask path can be
      written, checked in the order main checks them. */
  function ToolOutcome(argv: seq<string>, atoi: string -> int, input: InputFile, mask: MaskFile,
                       saveOpenable: bool, toScaled: (real, real, real) -> Sample): Outcome
    requires input.Valid() && (mask.Opened? ==> Readable(mask.volume))
  {
    match ParseCommandLine(argv, atoi)
    case ShowHelp => Outcome(0, [], false)
    case MissingArgument(_) => Outcome(1, [], false)
    case Parsed(args, _) =>
      if args.inputpath.None? then Outcome(1, [], false)
      else if args.maskpath.None? && (args.x < 0 || args.y < 0 || args.z < 0) then Outcome(1, [], false)
      else if input.Unopenable? then Outcome(1, [], false)
      else if args.x >= 0 then
        if args.x >= input.xDim || args.y < 0 || args.y >= input.yDim || args.z < 0 || args.z >= input.zDim
        then Outcome(1, [], false)
        else Outcome(0, VoxelLines(input, Point3D(args.x, args.y, args.z), toScaled), false)
      else if !mask.Opened? then Outcome(1, [], false)
      else
        ResampledPointsIn(mask.volume, input.xDim, input.yDim, input.zDim);
        var points := MaskPoints(Resampled(mask.volume, input.xDim, input.yDim, input.zDim));
        Outcome(0, MaskLines(input, points, toScaled), args.savemaskpath.Some? && saveOpenable)
  }

  /** main of rstimecourse.  `cast` converts to the input's storage type,
      for the resampled mask written with the input as prototype. */
  method RunTool<T>(argv: seq<string>, atoi: string -> int, input: InputFile, mask: MaskFile, saveOpenable: bool,
                    toScaled: (real, real, real) -> Sample, cast: real -> T)
    returns (exitCode: int, lines: seq<Sample>, saved: Option<seq<T>>)
    requires input.Valid() && (mask.Opened? ==> Readable(mask.volume))
    ensures var o := ToolOutcome(argv, atoi, input, mask, saveOpenable, toScaled);
            exitCode == o.exitCode && lines == o.lines && saved.Some? == o.savesMask
    ensures saved.Some? ==> && input.Input? && mask.Opened?
                            && SavedMask(saved.value, Resampled(mask.volume, input.xDim, input.yDim, input.zDim),
                                         input.sclSlope, input.sclInter, cast)
  {
    lines := [];
    saved := None;
    var parse := ParseArguments(argv, atoi);
    if parse.ShowHelp? {
      return 0, lines, saved;
    }
    if parse.MissingArgument? {
      return 1, lines, saved;
    }
    var args := parse.args;
    if args.inputpath.None? {
      return 1, lines, saved;
    }
    if args.maskpath.None? && (args.x < 0 || args.y < 0 || args.z < 0) {
      return 1, lines, saved;
    }
    if input.Unopenable? {
      return 1, lines, saved;
    }
    if args.x >= 0 {
      if args.x >= input.xDim {
        return 1, lines, saved;
      }
      if args.y < 0 || args.y >= input.yDim {
        return 1, lines, saved;
      }
      if args.z < 0 || args.z >= input.zDim {
        return 1, lines, saved;
      }
      lines := VoxelTimecourse(input, args.x, args.y, args.z, toScaled);
      assert lines == VoxelLines(input, Point3D(args.x, args.y, args.z), toScaled);
    } else {
      var points, nPoints, buffer := ReadMask(mask, input.xDim, input.yDim, input.zDim,
                                              args.savemaskpath.Some? && saveOpenable,
                                              input.sclSlope, input.sclInter, cast);
      if points.None? {
        return 1, lines, saved;
      }
      saved := buffer;
      ResampledPointsIn(mask.volume, input.xDim, input.yDim, input.zDim);
      lines := MaskTimecourse(input, points.value, nPoints, toScaled);
      assert lines == MaskLines(input, points.value, toScaled);
    }
    exitCode := 0;
  }

  /** A failing run prints nothing and saves nothing; a successful run past
      the help text has read the input and prints one line per frame. */
  lemma OutcomeShape(argv: seq<string>, atoi: string -> int, input: InputFile, mask: MaskFile,
                     saveOpenable: bool, toScaled: (real, real, real) -> Sample)
    requires input.Valid() && (mask.Opened? ==> Readable(mask.volume))
    ensures var o := ToolOutcome(argv, atoi, input, mask, saveOpenable, toScaled);
            && (o.exitCode == 0 || o.exitCode == 1)
            && (o.exitCode != 0 ==> o.lines == [] && !o.savesMask)
            && (o.exitCode == 0 && !ParseCommandLine(argv, atoi).ShowHelp? ==>
                  && ParseCommandLine(argv, atoi).Parsed?
                  && ParseCommandLine(argv, atoi).args.inputpath.Some?
                  && input.Input? && |o.lines| == |input.stored|)
  {
  }

  /** The validation rules of main: a parsed command line succeeds exactly
      when an input was named, a mask or a complete voxel was given, the
      input opens, and then either the voxel lies inside the input's grid
      or (without a voxel) the mask can be read. */
  lemma SuccessIff(argv: seq<string>, atoi: string -> int, input: InputFile, mask: MaskFile,
                   saveOpenable: bool, toScaled: (real, real, real) -> Sample)
    requires input.Valid() && (mask.Opened? ==> Readable(mask.volume))
    requires ParseCommandLine(argv, atoi).Parsed?
    ensures var a := ParseCommandLine(argv, atoi).args;
            ToolOutcome(argv, atoi, input, mask, saveOpenable, toScaled).exitCode == 0 <==>
              && a.inputpath.Some?
              && (a.maskpath.Some? || (a.x >= 0 && a.y >= 0 && a.z >= 0))
              && input.Input?
              && (a.x >= 0 ==> a.x < input.xDim && 0 <= a.y < input.yDim && 0 <= a.z < input.zDim)
              && (a.x < 0 ==> mask.Opened?)
  {
  }

  /** A voxel given with -p takes precedence over a mask: the mask file
      and the resampled-mask path make no difference then. */
  lemma VoxelModeIgnoresMask(argv: seq<string>, atoi: string -> int, input: InputFile,
                             mask: MaskFile, mask': MaskFile, saveOpenable: bool, saveOpenable': bool,
                             toScaled: (real, real, real) -> Sample)
    requires input.Valid() && (mask.Opened? ==> Readable(mask.volume)) && (mask'.Opened? ==> Readable(mask'.volume))
    requires ParseCommandLine(argv, atoi).Parsed? && ParseCommandLine(argv, atoi).args.x >= 0
    ensures ToolOutcome(argv, atoi, input, mask, saveOpenable, toScaled)
         == ToolOutcome(argv, atoi, input, mask', saveOpenable', toScaled)
  {
  }

  /** One frame's mask mean: NaN exactly when the mask is empty or a masked
      voxel is NaN, and within [lo, hi] when every masked voxel is a number
      within [lo, hi]. */
  lemma FrameMeanFacts(f: InputFile, t: nat, points: seq<Point3D>, toScaled: (real, real, real) -> Sample,
                       lo: real, hi: real)
    requires f.Input? && f.Valid() && t < |f.stored| && PointsIn(points, f.xDim, f.yDim, f.zDim)
    ensures var m := Mean(FrameValues(f, t, points, toScaled));
            && (m.NaN? <==>
                  (|points| == 0 || exists i :: 0 <= i < |points| && ScaledVoxel(f, t, points[i], toScaled).NaN?))
            && ((forall i :: 0 <= i < |points| ==>
                   var v := ScaledVoxel(f, t, points[i], toScaled); v.Num? && lo <= v.v <= hi) ==>
                  |points| == 0 || (m.Num? && lo <= m.v <= hi))
  {
    var vs := FrameValues(f, t, points, toScaled);
    MeanNaN(vs);
    if |points| > 0 && forall i :: 0 <= i < |points| ==>
                         var v := ScaledVoxel(f, t, points[i], toScaled); v.Num? && lo <= v.v <= hi {
      MeanWithin(vs, lo, hi);
    }
  }

  /** In mask mode every printed value is NaN exactly when the resampled
      mask is empty or one of the voxels it selects is NaN, and otherwise
      lies within the range of the frame's values at the mask points. */
  lemma MaskModeMean(argv: seq<string>, atoi: string -> int, input: InputFile, mask: MaskFile,
                     saveOpenable: bool, toScaled: (real, real, real) -> Sample, t: nat, lo: real, hi: real)
    requires input.Valid() && (mask.Opened? ==> Readable(mask.volume))
    requires ParseCommandLine(argv, atoi).Parsed? && ParseCommandLine(argv, atoi).args.x < 0
    requires ToolOutcome(argv, atoi, input, mask, saveOpenable, toScaled).exitCode == 0
    requires t < |input.stored|
    ensures mask.Opened? && input.Input?
    ensures var points := MaskPoints(Resampled(mask.volume, input.xDim, input.yDim, input.zDim));
            var line := ToolOutcome(argv, atoi, input, mask, saveOpenable, toScaled).lines[t];
            && (line.NaN? <==>
                  (|points| == 0 ||
                   exists i :: 0 <= i < |points| && InGrid(points[i], input.xDim, input.yDim, input.zDim) &&
                               ScaledVoxel(input, t, points[i], toScaled).NaN?))
            && ((forall i :: 0 <= i < |points| && InGrid(points[i], input.xDim, input.yDim, input.zDim) ==>
                   var v := ScaledVoxel(input, t, points[i], toScaled); v.Num? && lo <= v.v <= hi) ==>
                  |points| == 0 || (line.Num? && lo <= line.v <= hi))
  {
    var points := MaskPoints(Resampled(mask.volume, input.xDim, input.yDim, input.zDim));
    ResampledPointsIn(mask.volume, input.xDim, input.yDim, input.zDim);
    assert ToolOutcome(argv, atoi, input, mask, saveOpenable, toScaled).lines[t]
        == Mean(FrameValues(input, t, points, toScaled));
    FrameMeanFacts(input, t, points, toScaled, lo, hi);
  }
}

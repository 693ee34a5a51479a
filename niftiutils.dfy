/**
  rstools/rsniftiutils.c: voxel coordinates, the flat buffer layout that the
  `convertScaledDoubleToBuffer_*` family writes, and nearest-lower-neighbour
  resampling of a volume onto another grid.
 */
module NiftiUtils {
  import opened Base

  /** An unsigned voxel coordinate. */
  datatype Point3D = Point3D(x: nat, y: nat, z: nat)

  function MakePoint3D(x: nat, y: nat, z: nat): (p: Point3D)
    ensures p.x == x && p.y == y && p.z == z
  {
    Point3D(x, y, z)
  }

  /** `p` is a voxel of an xh * yh * zh grid. */
  predicate InGrid(p: Point3D, xh: nat, yh: nat, zh: nat)
  {
    p.x < xh && p.y < yh && p.z < zh
  }

  /** Every point of a list is a voxel of the grid. */
  predicate PointsIn(points: seq<Point3D>, xh: nat, yh: nat, zh: nat)
  {
    forall i :: 0 <= i < |points| ==> InGrid(points[i], xh, yh, zh)
  }

  /** The order in which the converters and ReadMask visit voxels: x is the
      outermost loop, then y, then z. */
  predicate LexBefore(p: Point3D, q: Point3D)
  {
    p.x < q.x || (p.x == q.x && p.y < q.y) || (p.x == q.x && p.y == q.y && p.z < q.z)
  }

  // ---------------------------------------------------------------------
  // Flat buffer layout
  // ---------------------------------------------------------------------

  lemma OffsetBound(x: nat, y: nat, z: nat, xh: nat, yh: nat, zh: nat)
    requires x < xh && y < yh && z < zh
    ensures z * (yh * xh) + y * xh + x < xh * yh * zh
  {
    MulMonotone(y, yh - 1, xh);
    MulMonotone(z + 1, zh, yh * xh);
    assert (z + 1) * (yh * xh) == z * (yh * xh) + (yh - 1) * xh + xh;
    assert zh * (yh * xh) == xh * yh * zh;
  }

  /** Offset of voxel p in a z-major buffer, z*(yh*xh) + y*xh + x; for a
      voxel of the grid it lies inside the xh*yh*zh buffer. */
  function FlatIndex(p: Point3D, xh: nat, yh: nat, zh: nat): (i: nat)
    requires InGrid(p, xh, yh, zh)
    ensures i < xh * yh * zh
  {
    OffsetBound(p.x, p.y, p.z, xh, yh, zh);
    p.z * (yh * xh) + p.y * xh + p.x
  }

  /** The integer facts behind decoding an offset: a quotient-remainder
      split by xh and then by yh recombines into the z-major offset. */
  lemma Recombine(i: nat, xh: nat, yh: nat, zh: nat, q: nat, x: nat, y: nat, z: nat)
    requires i == q * xh + x && q == z * yh + y
    requires i < xh * yh * zh
    ensures z * (yh * xh) + y * xh + x == i
    ensures z < zh
  {
    assert (z * yh + y) * xh == z * (yh * xh) + y * xh;
    assert zh * (yh * xh) == xh * yh * zh;
    if zh <= z {
      MulMonotone(zh, z, yh * xh);
    }
  }

  lemma OffsetDecode(i: nat, xh: nat, yh: nat, zh: nat)
    requires i < xh * yh * zh
    ensures xh > 0 && yh > 0
    ensures 0 <= i / xh && 0 <= i / xh / yh < zh
    ensures (i / xh / yh) * (yh * xh) + ((i / xh) % yh) * xh + i % xh == i
  {
    var q := i / xh;
    Recombine(i, xh, yh, zh, q, i % xh, q % yh, q / yh);
  }

  /** The voxel stored at offset i, the inverse of FlatIndex. */
  function Unflatten(i: nat, xh: nat, yh: nat, zh: nat): (p: Point3D)
    requires i < xh * yh * zh
    ensures InGrid(p, xh, yh, zh) && FlatIndex(p, xh, yh, zh) == i
  {
    OffsetDecode(i, xh, yh, zh);
    Point3D(i % xh, (i / xh) % yh, i / xh / yh)
  }

  /** Decoding an encoded in-range voxel gives the voxel back. */
  lemma UnflattenFlatIndex(p: Point3D, xh: nat, yh: nat, zh: nat)
    requires InGrid(p, xh, yh, zh)
    ensures Unflatten(FlatIndex(p, xh, yh, zh), xh, yh, zh) == p
  {
    var i := FlatIndex(p, xh, yh, zh);
    assert i == (p.z * yh + p.y) * xh + p.x;
    DivModUnique(i, xh, p.z * yh + p.y, p.x);
    DivModUnique(p.z * yh + p.y, yh, p.z, p.y);
  }

  /** Distinct in-range voxels occupy distinct slots. */
  lemma FlatIndexInjective(p: Point3D, q: Point3D, xh: nat, yh: nat, zh: nat)
    requires InGrid(p, xh, yh, zh) && InGrid(q, xh, yh, zh) && p != q
    ensures FlatIndex(p, xh, yh, zh) != FlatIndex(q, xh, yh, zh)
  {
    UnflattenFlatIndex(p, xh, yh, zh);
    UnflattenFlatIndex(q, xh, yh, zh);
  }

  // ---------------------------------------------------------------------
  // convertScaledDoubleToBuffer_*
  // ---------------------------------------------------------------------

  /** The value stored for a scaled double: undo `v = stored*slope + inter`
      and convert to the buffer's element type. */
  function Unscaled<T>(v: real, slope: real, inter: real, cast: real -> T): T
    requires slope != 0.0
  {
    cast((v - inter) / slope)
  }

  /** `out` holds, at the offset of every voxel visited before `bound`, the
      voxel's unscaled value, and `before` everywhere else. */
  ghost predicate Converted<T>(out: seq<T>, before: seq<T>, inbuf: array3<real>, slope: real, inter: real,
                               xh: nat, yh: nat, zh: nat, bound: Point3D, cast: real -> T)
    requires slope != 0.0
    requires inbuf.Length0 >= zh && inbuf.Length1 >= yh && inbuf.Length2 >= xh
    reads inbuf
  {
    |out| == |before| && xh * yh * zh <= |out| &&
    (forall i :: 0 <= i < xh * yh * zh ==>
       var p := Unflatten(i, xh, yh, zh);
       out[i] == if LexBefore(p, bound) then Unscaled(inbuf[p.z, p.y, p.x], slope, inter, cast) else before[i]) &&
    (forall i :: xh * yh * zh <= i < |out| ==> out[i] == before[i])
  }

  /** The innermost loop of the converters: the column (x, y, 0..zh). */
  method ConvertColumn<T>(outbuf: array<T>, inbuf: array3<real>, slope: real, inter: real,
                          xh: nat, yh: nat, zh: nat, cast: real -> T, x: nat, y: nat, ghost before: seq<T>)
    requires slope != 0.0
    requires inbuf.Length0 >= zh && inbuf.Length1 >= yh && inbuf.Length2 >= xh
    requires x < xh && y < yh
    requires Converted(outbuf[..], before, inbuf, slope, inter, xh, yh, zh, Point3D(x, y, 0), cast)
    modifies outbuf
    ensures Converted(outbuf[..], before, inbuf, slope, inter, xh, yh, zh, Point3D(x, y + 1, 0), cast)
  {
    for z := 0 to zh
      invariant Converted(outbuf[..], before, inbuf, slope, inter, xh, yh, zh, Point3D(x, y, z), cast)
    {
      var here := Point3D(x, y, z);
      UnflattenFlatIndex(here, xh, yh, zh);
      outbuf[FlatIndex(here, xh, yh, zh)] := cast((inbuf[z, y, x] - inter) / slope);
    }
  }

  /** The middle loop of the converters: the plane (x, 0..yh, 0..zh). */
  method ConvertPlane<T>(outbuf: array<T>, inbuf: array3<real>, slope: real, inter: real,
                         xh: nat, yh: nat, zh: nat, cast: real -> T, x: nat, ghost before: seq<T>)
    requires slope != 0.0
    requires inbuf.Length0 >= zh && inbuf.Length1 >= yh && inbuf.Length2 >= xh
    requires x < xh
    requires Converted(outbuf[..], before, inbuf, slope, inter, xh, yh, zh, Point3D(x, 0, 0), cast)
    modifies outbuf
    ensures Converted(outbuf[..], before, inbuf, slope, inter, xh, yh, zh, Point3D(x + 1, 0, 0), cast)
  {
    for y := 0 to yh
      invariant Converted(outbuf[..], before, inbuf, slope, inter, xh, yh, zh, Point3D(x, y, 0), cast)
    {
      ConvertColumn(outbuf, inbuf, slope, inter, xh, yh, zh, cast, x, y, before);
    }
  }

  /** The ten `convertScaledDoubleToBuffer_<TYPE>` functions differ only in
      the C cast applied to each value; `cast` stands for it.  The voxels
      are visited x-major, each written to its z-major offset. */
  method ConvertScaledDoubleToBuffer<T>(outbuf: array<T>, inbuf: array3<real>, slope: real, inter: real,
                                        xh: nat, yh: nat, zh: nat, cast: real -> T)
    requires slope != 0.0
    requires inbuf.Length0 >= zh && inbuf.Length1 >= yh && inbuf.Length2 >= xh
    requires outbuf.Length >= xh * yh * zh
    modifies outbuf
    ensures forall i :: 0 <= i < xh * yh * zh ==>
              var p := Unflatten(i, xh, yh, zh);
              outbuf[i] == Unscaled(inbuf[p.z, p.y, p.x], slope, inter, cast)
    ensures forall p: Point3D :: InGrid(p, xh, yh, zh) ==>
              outbuf[FlatIndex(p, xh, yh, zh)] == Unscaled(inbuf[p.z, p.y, p.x], slope, inter, cast)
    ensures forall i :: xh * yh * zh <= i < outbuf.Length ==> outbuf[i] == old(outbuf[i])
  {
    ghost var before := outbuf[..];
    for x := 0 to xh
      invariant Converted(outbuf[..], before, inbuf, slope, inter, xh, yh, zh, Point3D(x, 0, 0), cast)
    {
      ConvertPlane(outbuf, inbuf, slope, inter, xh, yh, zh, cast, x, before);
    }
    forall p: Point3D | InGrid(p, xh, yh, zh)
      ensures outbuf[FlatIndex(p, xh, yh, zh)] == Unscaled(inbuf[p.z, p.y, p.x], slope, inter, cast)
    {
      UnflattenFlatIndex(p, xh, yh, zh);
    }
  }

  // ---------------------------------------------------------------------
  // ResampleVolume
  // ---------------------------------------------------------------------

  /** Index on the old axis that supplies index i of the new axis:
      floor(oldN / newN * i). */
  function SourceIndex(oldN: nat, newN: nat, i: nat): (r: nat)
    requires newN > 0
    ensures r * newN <= oldN * i < (r + 1) * newN
  {
    var q := (oldN * i) / newN;
    assert oldN * i == q * newN + (oldN * i) % newN;
    q
  }

  lemma SourceIndexBound(oldN: nat, newN: nat, i: nat)
    requires oldN > 0 && i < newN
    ensures SourceIndex(oldN, newN, i) < oldN
  {
    var k := SourceIndex(oldN, newN, i);
    assert k * newN <= oldN * i;
    MulMonotone(i, newN, oldN);
    assert oldN * i < oldN * newN;
    MulCancelLess(k, oldN, newN);
  }

  lemma SourceIndexIdentity(n: nat, i: nat)
    requires n > 0 && i < n
    ensures SourceIndex(n, n, i) == i
  {
    DivModUnique(n * i, n, i, 0);
  }

  /** The voxel of the old grid that the resampled volume shows at p; it
      lies inside the old grid. */
  function SourceVoxel(oldX: nat, oldY: nat, oldZ: nat, newX: nat, newY: nat, newZ: nat, p: Point3D): (q: Point3D)
    requires oldX > 0 && oldY > 0 && oldZ > 0
    requires InGrid(p, newX, newY, newZ)
    ensures InGrid(q, oldX, oldY, oldZ)
  {
    SourceIndexBound(oldX, newX, p.x);
    SourceIndexBound(oldY, newY, p.y);
    SourceIndexBound(oldZ, newZ, p.z);
    Point3D(SourceIndex(oldX, newX, p.x), SourceIndex(oldY, newY, p.y), SourceIndex(oldZ, newZ, p.z))
  }

  /** The value the resampled volume shows at p. */
  function ResampledAt(oldVolume: Grid<real>, oldX: nat, oldY: nat, oldZ: nat,
                       newX: nat, newY: nat, newZ: nat, p: Point3D): real
    requires Shaped(oldVolume, oldX, oldY, oldZ)
    requires oldX > 0 && oldY > 0 && oldZ > 0
    requires InGrid(p, newX, newY, newZ)
  {
    var q := SourceVoxel(oldX, oldY, oldZ, newX, newY, newZ, p);
    oldVolume[q.z][q.y][q.x]
  }

  /** Resampling onto a grid of the same size changes nothing. */
  lemma ResampleIdentity(oldVolume: Grid<real>, n: Point3D, p: Point3D)
    requires Shaped(oldVolume, n.x, n.y, n.z) && n.x > 0 && n.y > 0 && n.z > 0
    requires InGrid(p, n.x, n.y, n.z)
    ensures ResampledAt(oldVolume, n.x, n.y, n.z, n.x, n.y, n.z, p) == oldVolume[p.z][p.y][p.x]
  {
    SourceIndexIdentity(n.x, p.x);
    SourceIndexIdentity(n.y, p.y);
    SourceIndexIdentity(n.z, p.z);
  }

  /** Every voxel of the new grid visited before `bound` holds its resampled value. */
  ghost predicate ResampledBefore(resampled: array3<real>, oldVolume: Grid<real>, oldX: nat, oldY: nat, oldZ: nat,
                                  bound: Point3D)
    requires Shaped(oldVolume, oldX, oldY, oldZ) && oldX > 0 && oldY > 0 && oldZ > 0
    reads resampled
  {
    var (newX, newY, newZ) := (resampled.Length2, resampled.Length1, resampled.Length0);
    forall p: Point3D :: InGrid(p, newX, newY, newZ) && LexBefore(p, bound) ==>
      resampled[p.z, p.y, p.x] == ResampledAt(oldVolume, oldX, oldY, oldZ, newX, newY, newZ, p)
  }

  /** The innermost loop of ResampleVolume: the column (x, y, 0..newZ). */
  method ResampleColumn(resampled: array3<real>, oldVolume: Grid<real>, oldX: nat, oldY: nat, oldZ: nat,
                        x: nat, y: nat)
    requires Shaped(oldVolume, oldX, oldY, oldZ) && oldX > 0 && oldY > 0 && oldZ > 0
    requires x < resampled.Length2 && y < resampled.Length1
    requires ResampledBefore(resampled, oldVolume, oldX, oldY, oldZ, Point3D(x, y, 0))
    modifies resampled
    ensures ResampledBefore(resampled, oldVolume, oldX, oldY, oldZ, Point3D(x, y + 1, 0))
  {
    var (newX, newY, newZ) := (resampled.Length2, resampled.Length1, resampled.Length0);
    var resampledX := SourceIndex(oldX, newX, x);
    var resampledY := SourceIndex(oldY, newY, y);
    for z := 0 to newZ
      invariant ResampledBefore(resampled, oldVolume, oldX, oldY, oldZ, Point3D(x, y, z))
    {
      var resampledZ := SourceIndex(oldZ, newZ, z);
      ghost var here := Point3D(x, y, z);
      assert SourceVoxel(oldX, oldY, oldZ, newX, newY, newZ, here) == Point3D(resampledX, resampledY, resampledZ);
      resampled[z, y, x] := oldVolume[resampledZ][resampledY][resampledX];
    }
  }

  method ResampleVolume(oldVolume: Grid<real>, oldX: nat, oldY: nat, oldZ: nat,
                        newX: nat, newY: nat, newZ: nat) returns (resampled: array3<real>)
    requires Shaped(oldVolume, oldX, oldY, oldZ)
    requires oldX > 0 && oldY > 0 && oldZ > 0
    ensures fresh(resampled)
    ensures resampled.Length0 == newZ && resampled.Length1 == newY && resampled.Length2 == newX
    ensures forall p: Point3D :: InGrid(p, newX, newY, newZ) ==>
              resampled[p.z, p.y, p.x] == ResampledAt(oldVolume, oldX, oldY, oldZ, newX, newY, newZ, p)
  {
    resampled := new real[newZ, newY, newX];
    for x := 0 to newX
      invariant ResampledBefore(resampled, oldVolume, oldX, oldY, oldZ, Point3D(x, 0, 0))
    {
      for y := 0 to newY
        invariant ResampledBefore(resampled, oldVolume, oldX, oldY, oldZ, Point3D(x, y, 0))
      {
        ResampleColumn(resampled, oldVolume, oldX, oldY, oldZ, x, y);
      }
    }
  }
}

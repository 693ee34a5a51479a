/**
  Shared value types of the RSTools model: an optional value, a double that
  may be NaN, and a three-dimensional voxel grid indexed [z][y][x] as the
  tools' `double ***` volumes are.
 */
module Base {

  datatype Option<T> = None | Some(value: T)

  /** A C `double` as the model sees it: a finite real or NaN.  Infinities
      and rounding are not modelled. */
  datatype Sample = Num(v: real) | NaN

  /** NaN propagates through every arithmetic operation, as in IEEE 754. */
  function Add(a: Sample, b: Sample): Sample
  {
    if a.NaN? || b.NaN? then NaN else Num(a.v + b.v)
  }

  function Sub(a: Sample, b: Sample): Sample
  {
    if a.NaN? || b.NaN? then NaN else Num(a.v - b.v)
  }

  function Square(a: Sample): Sample
  {
    if a.NaN? then NaN else Num(a.v * a.v)
  }

  /** `s > threshold` in C: every comparison with NaN is false. */
  predicate Exceeds(s: Sample, threshold: real)
  {
    s.Num? && s.v > threshold
  }

  function Abs(r: real): real
  {
    if r < 0.0 then -r else r
  }

  /** A volume as the tools hold it in memory: grid[z][y][x]. */
  type Grid<T> = seq<seq<seq<T>>>

  /** `g` has zh planes of yh rows of xh voxels. */
  ghost predicate Shaped<T>(g: Grid<T>, xh: nat, yh: nat, zh: nat)
  {
    |g| == zh &&
    (forall z :: 0 <= z < zh ==> |g[z]| == yh) &&
    (forall z, y :: 0 <= z < zh && 0 <= y < yh ==> |g[z][y]| == xh)
  }

  /** Extending a prefix of v by one element. */
  lemma TakeSnoc<T>(v: seq<T>, p: nat)
    requires p < |v|
    ensures v[..p + 1] == v[..p] + [v[p]]
  {
  }

  lemma TakeOneMore<T>(u: seq<T>, v: seq<T>, p: nat)
    requires p < |v|
    ensures u + v[..p + 1] == (u + v[..p]) + [v[p]]
  {
    TakeSnoc(v, p);
  }

  // -----------------------------------------------------------------------
  // Integer arithmetic used by the index proofs
  // -----------------------------------------------------------------------

  lemma {:induction false} MulMonotone(a: int, b: int, c: nat)
    requires a <= b
    ensures a * c <= b * c
    decreases b - a
  {
    if a < b {
      MulMonotone(a + 1, b, c);
      assert (a + 1) * c == a * c + c;
    }
  }

  lemma MulCancelLess(a: int, b: int, c: nat)
    requires a * c < b * c
    ensures a < b
  {
    if b <= a {
      MulMonotone(b, a, c);
    }
  }

  /** Quotient and remainder are determined by the defining equation. */
  lemma DivModUnique(a: int, d: int, q: int, r: int)
    requires d > 0 && 0 <= r < d && a == q * d + r
    ensures a / d == q && a % d == r
  {
    var q', r' := a / d, a % d;
    assert a == q' * d + r';
    if q' < q {
      MulMonotone(q' + 1, q, d);
    } else if q < q' {
      MulMonotone(q + 1, q', d);
    }
  }

  lemma MulDivCancel(x: real, y: real)
    requires y != 0.0
    ensures (x * y) / y == x
  {
  }

  lemma DivNonNegative(a: real, b: real)
    requires 0.0 <= a && 0.0 < b
    ensures 0.0 <= a / b && (a / b == 0.0 <==> a == 0.0)
  {
    MulDivCancel(a / b, b);
  }

  /** Only 0 squares to 0 (argued through division). */
  lemma SquareZero(x: real)
    requires x * x == 0.0
    ensures x == 0.0
  {
    if x != 0.0 {
      MulDivCancel(x, x);
    }
  }
}

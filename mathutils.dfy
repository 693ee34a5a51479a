/**
  rstools/rsmathutils.c: the index arithmetic of the FFT band-pass filter
  `rsFFTFilter` (bin frequency table, choice of the kept bin range [i1, i2],
  zeroing of the other bins) and the row layout of `d2matrix`.

  The source keeps the table in `double F[T]`, but for even T its filling loop
  writes F[T] and for odd T its search loops read F[T].  The loops as written
  are modelled over a table of T + 1 slots, slot T standing for the memory
  just past the C array and `pastEnd` for whatever that memory holds; the
  filter itself uses the in-bounds table and search, which agree with the
  written ones for every even T.
 */
module MathUtils {
  import opened Base

  // ---------------------------------------------------------------------
  // Frequency table
  // ---------------------------------------------------------------------

  /** Frequency the source assigns to bin j of a T-sample half-complex
      spectrum: 0 for the DC bin 0, and 2k / (2 * T * samplingRate) for both
      bins 2k-1 and 2k (the real and imaginary part of frequency k). */
  function BinFrequency(j: nat, T: nat, samplingRate: real): real
    requires T > 0 && samplingRate != 0.0
  {
    if j == 0 then 0.0 else (2 * ((j + 1) / 2)) as real / (2.0 * T as real * samplingRate)
  }

  /** The table after the filling loop: slots 0..T-1 hold the bin
      frequencies; slot T holds one too for even T (the write past the end)
      and keeps `pastEnd` for odd T. */
  function Table(T: nat, samplingRate: real, pastEnd: real): (F: seq<real>)
    requires T > 0 && samplingRate != 0.0
    ensures |F| == T + 1
  {
    seq(T + 1, j requires 0 <= j <= T =>
      if j < T || T % 2 == 0 then BinFrequency(j, T, samplingRate) else pastEnd)
  }

  /** Both halves of a frequency pair share its frequency. */
  lemma BinPairsShareFrequency(k: nat, T: nat, samplingRate: real)
    requires T > 0 && samplingRate != 0.0 && k >= 1
    ensures BinFrequency(2 * k - 1, T, samplingRate) == BinFrequency(2 * k, T, samplingRate)
    ensures BinFrequency(2 * k, T, samplingRate) == (2 * k) as real / (2.0 * T as real * samplingRate)
  {
  }

  /** With a positive sampling rate the bin frequencies never decrease. */
  lemma BinFrequencyMonotone(i: nat, j: nat, T: nat, samplingRate: real)
    requires T > 0 && samplingRate > 0.0 && i <= j
    ensures 0.0 <= BinFrequency(i, T, samplingRate) <= BinFrequency(j, T, samplingRate)
  {
    var d := 2.0 * T as real * samplingRate;
    assert d > 0.0;
    if i > 0 {
      var a, b := (2 * ((i + 1) / 2)) as real, (2 * ((j + 1) / 2)) as real;
      assert 0.0 <= a <= b;
      assert a / d <= b / d;
    }
  }

  /** The frequency loop of rsFFTFilter as written.  Like the source it
      advances its own loop variable inside the body; for even T its last
      step writes slot T. */
  method FrequencyTable(F: array<real>, T: nat, samplingRate: real)
    requires F.Length == T + 1
    requires T > 0 && samplingRate != 0.0
    modifies F
    ensures F[..] == Table(T, samplingRate, old(F[T]))
  {
    var i := 0;
    while i < T
      invariant i <= T + 1
      invariant i == 0 || i % 2 == 1
      invariant i == T + 1 ==> T % 2 == 0
      invariant forall j :: 0 <= j < i ==> F[j] == BinFrequency(j, T, samplingRate)
      invariant forall j :: i <= j <= T ==> F[j] == old(F[j])
    {
      F[i] := 0.0;
      if i > 0 {
        i := i + 1;
        F[i] := i as real / (2.0 * T as real * samplingRate);
        F[i - 1] := F[i];
        BinPairsShareFrequency(i / 2, T, samplingRate);
      }
      i := i + 1;
    }
    ghost var table := Table(T, samplingRate, old(F[T]));
    assert forall j :: 0 <= j <= T ==> F[j] == table[j];
  }

  /** For T = 2 the loop overwrites the double just past the table (here
      holding 7) with the Nyquist frequency. */
  lemma TableOverwritesPastEnd()
    ensures Table(2, 1.0, 7.0)[2] == 0.5
  {
  }

  /** The table the loop evidently means to build: one slot per bin, each
      holding its bin's frequency; the first T slots of the table as
      written. */
  function IntendedTable(T: nat, samplingRate: real): (F: seq<real>)
    requires T > 0 && samplingRate != 0.0
    ensures |F| == T
    ensures forall pastEnd :: F == Table(T, samplingRate, pastEnd)[..T]
  {
    seq(T, j requires 0 <= j < T => BinFrequency(j, T, samplingRate))
  }

  /** The frequency loop kept inside the T slots of the table: the last
      frequency of an even T is still stored in slot T - 1. */
  method FrequencyTableInBounds(F: array<real>, T: nat, samplingRate: real)
    requires F.Length == T
    requires T > 0 && samplingRate != 0.0
    modifies F
    ensures F[..] == IntendedTable(T, samplingRate)
  {
    var i := 0;
    while i < T
      invariant i <= T + 1
      invariant i == 0 || i % 2 == 1
      invariant forall j :: 0 <= j < i && j < T ==> F[j] == BinFrequency(j, T, samplingRate)
    {
      F[i] := 0.0;
      if i > 0 {
        i := i + 1;
        var f := i as real / (2.0 * T as real * samplingRate);
        if i < T {
          F[i] := f;
        }
        F[i - 1] := f;
        BinPairsShareFrequency(i / 2, T, samplingRate);
      }
      i := i + 1;
    }
    ghost var table := IntendedTable(T, samplingRate);
    assert forall j :: 0 <= j < T ==> F[j] == table[j];
  }

  // ---------------------------------------------------------------------
  // Kept bin range
  // ---------------------------------------------------------------------

  /** The first odd index i, from `from` on and at most `last`, with
      F[i] > f: the bin the search loops stop at. */
  function FirstOddAbove(F: seq<real>, last: nat, f: real, from: nat): (r: Option<nat>)
    requires |F| == last + 1 && from % 2 == 1
    decreases last + 1 - from
    ensures r.Some? ==> from <= r.value <= last && r.value % 2 == 1 && F[r.value] > f
    ensures r.Some? ==> forall j :: from <= j < r.value && j % 2 == 1 ==> F[j] <= f
    ensures r.None? ==> forall j :: from <= j <= last && j % 2 == 1 ==> F[j] <= f
  {
    if from > last then None
    else if F[from] > f then Some(from)
    else FirstOddAbove(F, last, f, from + 2)
  }

  /** The bin both edges fall back to when no bin exceeds the cutoff. */
  function Fallback(T: nat): int
  {
    if T % 2 == 0 then T - 1 else T - 2
  }

  /** i1 for a search over the odd bins up to `last`: two below the first
      bin above f1, clamped at 0. */
  function LowerEdge(F: seq<real>, last: nat, T: nat, f1: real): int
    requires |F| == last + 1
  {
    match FirstOddAbove(F, last, f1, 1)
    case Some(i) => if i - 2 < 0 then 0 else i - 2
    case None => Fallback(T)
  }

  /** i2 for a search over the odd bins up to `last`: one above the first
      bin above f2, clamped at T - 1. */
  function UpperEdge(F: seq<real>, last: nat, T: nat, f2: real): int
    requires |F| == last + 1
  {
    match FirstOddAbove(F, last, f2, 1)
    case Some(i) => if i + 1 >= T then T - 1 else i + 1
    case None => Fallback(T)
  }

  /** The two search loops of rsFFTFilter, with their `break` and the
      fallback assignments after them.  The source searches up to
      last = T, over a table of T + 1 slots; last = T - 1 keeps the search
      inside the T slots of the C array. */
  method SelectBand(F: array<real>, last: nat, T: nat, f1: real, f2: real) returns (i1: int, i2: int)
    requires F.Length == last + 1
    ensures i1 == LowerEdge(F[..], last, T, f1)
    ensures i2 == UpperEdge(F[..], last, T, f2)
  {
    i1, i2 := -1, -1;
    var i := 1;
    while i <= last
      invariant i % 2 == 1 && i1 == -1
      invariant FirstOddAbove(F[..], last, f1, 1) == FirstOddAbove(F[..], last, f1, i)
    {
      if F[i] > f1 {
        i1 := if i - 2 < 0 then 0 else i - 2;
        break;
      }
      i := i + 2;
    }
    i := 1;
    while i <= last
      invariant i % 2 == 1 && i2 == -1
      invariant FirstOddAbove(F[..], last, f2, 1) == FirstOddAbove(F[..], last, f2, i)
    {
      if F[i] > f2 {
        i2 := if i + 1 >= T then T - 1 else i + 1;
        break;
      }
      i := i + 2;
    }
    if i1 < 0 {
      i1 := if T % 2 == 0 then T - 1 else T - 2;
    }
    if i2 < 0 {
      i2 := if T % 2 == 0 then T - 1 else T - 2;
    }
  }

  /** For at least two samples both edges are bins of the spectrum, and a
      cutoff pair f1 <= f2 never yields an empty range, whatever the table
      holds. */
  lemma BandEdgesOrdered(F: seq<real>, last: nat, T: nat, f1: real, f2: real)
    requires |F| == last + 1 && last <= T && T >= 2 && f1 <= f2
    ensures 0 <= LowerEdge(F, last, T, f1) <= UpperEdge(F, last, T, f2) <= T - 1
  {
    var lo, hi := FirstOddAbove(F, last, f1, 1), FirstOddAbove(F, last, f2, 1);
    if hi.Some? {
      assert F[hi.value] > f1;
      assert lo.Some? && lo.value <= hi.value;
    }
  }

  /** For odd T the search as written reads slot T: with T = 3, a sampling
      rate of 1 and f2 = 0.5, i2 is 2 when the double past the table
      exceeds 0.5 and 1 when it does not. */
  lemma UpperEdgeReadsPastEnd()
    ensures UpperEdge(Table(3, 1.0, 1.0), 3, 3, 0.5) == 2
    ensures UpperEdge(Table(3, 1.0, 0.0), 3, 3, 0.5) == 1
  {
    var hit, miss := Table(3, 1.0, 1.0), Table(3, 1.0, 0.0);
    assert hit[1] == miss[1] == 1.0 / 3.0;
    assert FirstOddAbove(hit, 3, 0.5, 1) == FirstOddAbove(hit, 3, 0.5, 3) == Some(3);
    assert FirstOddAbove(miss, 3, 0.5, 1) == FirstOddAbove(miss, 3, 0.5, 3) == None;
  }

  /** Searching a table of T + 1 slots up to T finds what a search of its
      first T slots up to T - 1 finds, whenever slot T cannot stop it: for
      even T it is never an odd bin, for odd T it holds no more than f. */
  lemma {:induction false} SearchWithinBounds(A: seq<real>, B: seq<real>, T: nat, f: real, from: nat)
    requires T > 0 && |A| == T + 1 && B == A[..T] && from % 2 == 1
    requires T % 2 == 0 || A[T] <= f
    ensures FirstOddAbove(A, T, f, from) == FirstOddAbove(B, T - 1, f, from)
    decreases T + 1 - from
  {
    if from < T {
      assert A[from] == B[from];
      SearchWithinBounds(A, B, T, f, from + 2);
    } else if from == T {
      assert FirstOddAbove(A, T, f, from) == FirstOddAbove(A, T, f, from + 2);
    }
  }

  /** The band as written equals the band of the in-bounds table and
      search for every even T, and for odd T whenever the double past the
      table does not exceed the cutoff. */
  lemma BandWithinBounds(T: nat, samplingRate: real, pastEnd: real, f1: real, f2: real)
    requires T > 0 && samplingRate != 0.0
    ensures (T % 2 == 0 || pastEnd <= f1) ==>
              LowerEdge(Table(T, samplingRate, pastEnd), T, T, f1)
              == LowerEdge(IntendedTable(T, samplingRate), T - 1, T, f1)
    ensures (T % 2 == 0 || pastEnd <= f2) ==>
              UpperEdge(Table(T, samplingRate, pastEnd), T, T, f2)
              == UpperEdge(IntendedTable(T, samplingRate), T - 1, T, f2)
  {
    var A, B := Table(T, samplingRate, pastEnd), IntendedTable(T, samplingRate);
    assert B == A[..T];
    if T % 2 == 1 {
      assert A[T] == pastEnd;
    }
    if T % 2 == 0 || pastEnd <= f1 {
      SearchWithinBounds(A, B, T, f1, 1);
    }
    if T % 2 == 0 || pastEnd <= f2 {
      SearchWithinBounds(A, B, T, f2, 1);
    }
  }

  // ---------------------------------------------------------------------
  // Band zeroing and the whole filter
  // ---------------------------------------------------------------------

  /** The spectrum after the zeroing loop: bins outside [i1, i2] are 0. */
  function BandPass(s: seq<real>, i1: int, i2: int): (r: seq<real>)
  {
    seq(|s|, i requires 0 <= i < |s| => if i < i1 || i > i2 then 0.0 else s[i])
  }

  /** Zeroing is idempotent and keeps exactly the bins of [i1, i2]. */
  lemma BandPassKeepsBand(s: seq<real>, i1: int, i2: int)
    ensures |BandPass(s, i1, i2)| == |s|
    ensures forall i :: 0 <= i < |s| && i1 <= i <= i2 ==> BandPass(s, i1, i2)[i] == s[i]
    ensures forall i :: 0 <= i < |s| && (i < i1 || i > i2) ==> BandPass(s, i1, i2)[i] == 0.0
    ensures BandPass(BandPass(s, i1, i2), i1, i2) == BandPass(s, i1, i2)
  {
  }

  method ZeroOutOfBand(data: array<real>, T: nat, i1: int, i2: int)
    requires data.Length == T
    modifies data
    ensures data[..] == BandPass(old(data[..]), i1, i2)
  {
    for i := 0 to T
      invariant forall j :: 0 <= j < i ==> data[j] == if j < i1 || j > i2 then 0.0 else old(data[j])
      invariant forall j :: i <= j < T ==> data[j] == old(data[j])
    {
      if i < i1 || i > i2 {
        data[i] := 0.0;
      }
    }
  }

  /** Overwrite `data` with the output of a transform computed in place by
      the FFT library. */
  method Transform(data: array<real>, transform: seq<real> -> seq<real>)
    requires |transform(data[..])| == data.Length
    modifies data
    ensures data[..] == transform(old(data[..]))
  {
    var out := transform(data[..]);
    forall i | 0 <= i < data.Length {
      data[i] := out[i];
    }
  }

  /** rsFFTFilter on T samples, with the frequency table and the band
      search kept inside the table's T slots.  `forward` and `inverse` are
      the library's real-to-half-complex and half-complex-to-real
      transforms. */
  method FFTFilter(data: array<real>, T: nat, samplingRate: real, f1: real, f2: real,
                   forward: seq<real> -> seq<real>, inverse: seq<real> -> seq<real>)
    requires data.Length == T && T > 0 && samplingRate != 0.0
    requires forall s: seq<real> :: |forward(s)| == |s|
    requires forall s: seq<real> :: |inverse(s)| == |s|
    modifies data
    ensures var F := IntendedTable(T, samplingRate);
            data[..] == inverse(BandPass(forward(old(data[..])), LowerEdge(F, T - 1, T, f1), UpperEdge(F, T - 1, T, f2)))
  {
    var F := new real[T];
    FrequencyTableInBounds(F, T, samplingRate);
    var i1, i2 := SelectBand(F, T - 1, T, f1, f2);
    Transform(data, forward);
    ZeroOutOfBand(data, T, i1, i2);
    Transform(data, inverse);
  }

  // ---------------------------------------------------------------------
  // d2matrix
  // ---------------------------------------------------------------------

  /** Offset of row j in the (yh+1) * (xh+1) blob of a d2matrix. */
  function RowOffset(j: nat, ncol: nat): nat
  {
    j * ncol
  }

  /** The row pointers of d2matrix(yh, xh), as offsets into its one blob of
      (yh+1) * (xh+1) doubles: row 0 starts the blob and each further row
      starts one row length after the previous one. */
  method D2Matrix(yh: int, xh: int) returns (rows: seq<nat>, blobSize: nat)
    requires yh >= 0 && xh >= -1
    ensures blobSize == (yh + 1) * (xh + 1)
    ensures |rows| == yh + 1
    ensures forall j :: 0 <= j < |rows| ==> rows[j] == RowOffset(j, xh + 1)
  {
    var nrow, ncol := yh + 1, xh + 1;
    blobSize := ncol * nrow;
    var t := new nat[nrow];
    t[0] := 0;
    var j := 1;
    while j < nrow
      invariant 1 <= j <= nrow
      invariant forall k :: 0 <= k < j ==> t[k] == RowOffset(k, ncol)
    {
      t[j] := t[j - 1] + ncol;
      j := j + 1;
    }
    rows := t[..];
  }

  /** The rows of a d2matrix tile its blob: cell (j, i) lies inside the blob
      and distinct cells never share a slot. */
  lemma RowsPartitionBlob(j: nat, i: nat, j': nat, i': nat, nrow: nat, ncol: nat)
    requires j < nrow && i < ncol && j' < nrow && i' < ncol
    ensures RowOffset(j, ncol) + i < nrow * ncol
    ensures (j, i) != (j', i') ==> RowOffset(j, ncol) + i != RowOffset(j', ncol) + i'
  {
    MulMonotone(j + 1, nrow, ncol);
    if RowOffset(j, ncol) + i == RowOffset(j', ncol) + i' {
      DivModUnique(RowOffset(j, ncol) + i, ncol, j, i);
      DivModUnique(RowOffset(j', ncol) + i', ncol, j', i');
    }
  }
}

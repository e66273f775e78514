/** The five window statistics, defined over exact reals, and what they satisfy.
    A window is the list of normalized samples, oldest first. */
module FeatureExtraction {
  import opened Numeric
  import opened RingBuffer

  /** The feature vector, in the order the model's `feature` indices use. */
  datatype Features = Features(rms: real, peakToPeak: real, stdDev: real, percentile90: real, meanAbs: real)

  function Vector(f: Features): seq<real> {
    [f.rms, f.peakToPeak, f.stdDev, f.percentile90, f.meanAbs]
  }

  /** Sample amplitudes scaled to [-1, 1) by dividing by 32768. */
  function Normalize(w: seq<Int16>): (x: seq<real>)
    ensures |x| == |w|
    ensures forall i :: 0 <= i < |w| ==> -1.0 <= x[i] < 1.0 && x[i] * 32768.0 == w[i] as real
  {
    seq(|w|, i requires 0 <= i < |w| => w[i] as real / 32768.0)
  }

  function Sum(s: seq<real>): real {
    if |s| == 0 then 0.0 else Sum(s[..|s| - 1]) + s[|s| - 1]
  }

  function SumSquares(s: seq<real>): (r: real)
    ensures r >= 0.0
  {
    if |s| == 0 then 0.0 else SumSquares(s[..|s| - 1]) + s[|s| - 1] * s[|s| - 1]
  }

  function SumSquaredDeviations(s: seq<real>, m: real): (r: real)
    ensures r >= 0.0
  {
    if |s| == 0 then 0.0
    else
      var e := s[|s| - 1] - m;
      SumSquaredDeviations(s[..|s| - 1], m) + e * e
  }

  function Abs(x: real): real {
    if x < 0.0 then -x else x
  }

  function SumAbs(s: seq<real>): (r: real)
    ensures r >= 0.0
  {
    if |s| == 0 then 0.0 else SumAbs(s[..|s| - 1]) + Abs(s[|s| - 1])
  }

  function MinOf(s: seq<real>): (r: real)
    requires |s| > 0
    ensures r in s
    ensures forall k :: 0 <= k < |s| ==> r <= s[k]
  {
    if |s| == 1 then s[0]
    else
      var m := MinOf(s[..|s| - 1]);
      if s[|s| - 1] < m then s[|s| - 1] else m
  }

  function MaxOf(s: seq<real>): (r: real)
    requires |s| > 0
    ensures r in s
    ensures forall k :: 0 <= k < |s| ==> s[k] <= r
  {
    if |s| == 1 then s[0]
    else
      var m := MaxOf(s[..|s| - 1]);
      if s[|s| - 1] > m then s[|s| - 1] else m
  }

  function Mean(s: seq<real>): real
    requires |s| > 0
  {
    Sum(s) / |s| as real
  }

  /** Every sample moved by -c. */
  function Offset(s: seq<real>, c: real): seq<real> {
    seq(|s|, i requires 0 <= i < |s| => s[i] - c)
  }

  /** The window with its own DC mean removed. */
  function Centered(x: seq<real>): seq<real>
    requires |x| > 0
  {
    Offset(x, Mean(x))
  }

  function AbsValues(s: seq<real>): seq<real> {
    seq(|s|, i requires 0 <= i < |s| => Abs(s[i]))
  }

  predicate Sorted(s: seq<real>) {
    forall i, j :: 0 <= i < j < |s| ==> s[i] <= s[j]
  }

  /** x placed before the first element of s that is not smaller than it. */
  function Insert(x: real, s: seq<real>): (r: seq<real>)
    ensures |r| == |s| + 1
  {
    if |s| == 0 then [x]
    else if x <= s[0] then [x] + s
    else [s[0]] + Insert(x, s[1..])
  }

  /** Ascending order of the values: the role `std::sort` plays in the source.
      Which sorting algorithm produces it does not matter (see SortedUnique). */
  function SortAscending(s: seq<real>): (r: seq<real>)
    ensures |r| == |s|
  {
    if |s| == 0 then []
    else Insert(s[|s| - 1], SortAscending(s[..|s| - 1]))
  }

  /** Insertion adds exactly x. */
  lemma {:induction false} InsertAdds(x: real, s: seq<real>)
    ensures multiset(Insert(x, s)) == multiset(s) + multiset{x}
  {
    if |s| > 0 && x > s[0] {
      InsertAdds(x, s[1..]);
      assert Insert(x, s) == [s[0]] + Insert(x, s[1..]);
      assert s == [s[0]] + s[1..];
    }
  }

  /** The first element after insertion is the smaller of x and the old first. */
  lemma InsertHead(x: real, s: seq<real>)
    ensures Insert(x, s)[0] == if |s| > 0 && s[0] < x then s[0] else x
  {
  }

  /** Inserting into a sorted list keeps it sorted. */
  lemma {:induction false} InsertSorted(x: real, s: seq<real>)
    requires Sorted(s)
    ensures Sorted(Insert(x, s))
  {
    if |s| > 0 && x > s[0] {
      var t := Insert(x, s[1..]);
      InsertSorted(x, s[1..]);
      InsertHead(x, s[1..]);
      assert s[0] <= t[0];
      assert forall k :: 0 <= k < |t| ==> s[0] <= t[k];
      assert Insert(x, s) == [s[0]] + t;
    }
  }

  /** SortAscending yields an ascending permutation of its input. */
  lemma {:induction false} SortAscendingSorts(s: seq<real>)
    ensures Sorted(SortAscending(s))
    ensures multiset(SortAscending(s)) == multiset(s)
  {
    if |s| > 0 {
      SortAscendingSorts(s[..|s| - 1]);
      InsertSorted(s[|s| - 1], SortAscending(s[..|s| - 1]));
      InsertAdds(s[|s| - 1], SortAscending(s[..|s| - 1]));
      assert s == s[..|s| - 1] + [s[|s| - 1]];
    }
  }

  /** `(int)(0.9 * n)`, clamped to the last index. */
  function PercentileIndex(n: int): (k: int)
    requires n > 0
    ensures 0 <= k < n
  {
    var k := Trunc(0.9 * n as real);
    if k >= n then n - 1 else k
  }

  /** The five statistics of a non-empty window that has already had its DC
      mean removed; `sqrt` is the square root the platform supplies. */
  function Statistics(d: seq<real>, sqrt: real -> real): Features
    requires |d| > 0
  {
    var n := |d| as real;
    Features(
      rms := sqrt(SumSquares(d) / n),
      peakToPeak := MaxOf(d) - MinOf(d),
      stdDev := sqrt(SumSquaredDeviations(d, Mean(d)) / n),
      percentile90 := SortAscending(AbsValues(d))[PercentileIndex(|d|)],
      meanAbs := SumAbs(d) / n)
  }

  /** The features of a non-empty window of normalized samples: the statistics
      of the window with its own DC mean removed. */
  function FeaturesOf(x: seq<real>, sqrt: real -> real): Features
    requires |x| > 0
  {
    Statistics(Centered(x), sqrt)
  }

  /** DC offset removal: subtracts `mean` from every sample in place. */
  method RemoveMean(window: array<real>, mean: real)
    modifies window
    ensures window[..] == Offset(old(window[..]), mean)
  {
    for i := 0 to window.Length
      invariant forall k :: 0 <= k < i ==> window[k] == old(window[k]) - mean
      invariant forall k :: i <= k < window.Length ==> window[k] == old(window[k])
    {
      window[i] := window[i] - mean;
    }
  }

  /** Feature 1: the root of the mean of the squared samples. */
  method RootMeanSquare(window: array<real>, sqrt: real -> real) returns (rms: real)
    requires window.Length > 0
    ensures rms == sqrt(SumSquares(window[..]) / window.Length as real)
  {
    ghost var d := window[..];
    var sumSq := 0.0;
    for i := 0 to window.Length
      invariant sumSq == SumSquares(d[..i])
    {
      sumSq := sumSq + window[i] * window[i];
      SumSquaresStep(d, i);
    }
    assert d[..window.Length] == d;
    rms := sqrt(sumSq / window.Length as real);
  }

  /** Feature 2: the largest sample minus the smallest. */
  method PeakToPeak(window: array<real>) returns (peakToPeak: real)
    requires window.Length > 0
    ensures peakToPeak == MaxOf(window[..]) - MinOf(window[..])
  {
    ghost var d := window[..];
    var minVal, maxVal := window[0], window[0];
    assert d[..1] == [d[0]];
    for i := 1 to window.Length
      invariant minVal == MinOf(d[..i]) && maxVal == MaxOf(d[..i])
    {
      MinMaxStep(d, i);
      if window[i] < minVal {
        minVal := window[i];
      }
      if window[i] > maxVal {
        maxVal := window[i];
      }
    }
    assert d[..window.Length] == d;
    peakToPeak := maxVal - minVal;
  }

  /** Feature 3: the population standard deviation, around a mean the method
      computes afresh from the window. */
  method StandardDeviation(window: array<real>, sqrt: real -> real) returns (stdDev: real)
    requires window.Length > 0
    ensures stdDev == sqrt(SumSquaredDeviations(window[..], Mean(window[..])) / window.Length as real)
  {
    ghost var d := window[..];
    var n := window.Length as real;
    var meanForStd := 0.0;
    for i := 0 to window.Length
      invariant meanForStd == Sum(d[..i])
    {
      meanForStd := meanForStd + window[i];
      SumStep(d, i);
    }
    assert d[..window.Length] == d;
    meanForStd := meanForStd / n;
    assert meanForStd == Mean(d);
    var sumForStd := 0.0;
    for i := 0 to window.Length
      invariant sumForStd == SumSquaredDeviations(d[..i], meanForStd)
    {
      var diff := window[i] - meanForStd;
      DeviationsStep(d, i, meanForStd, diff);
      sumForStd := sumForStd + diff * diff;
    }
    assert d[..window.Length] == d;
    stdDev := sqrt(sumForStd / n);
  }

  /** Feature 4: the element at index (int)(0.9 * n), clamped to the last
      index, of the ascending absolute values. The sorted copy stands for the
      source's in-place `std::sort` of its own scratch vector. */
  method Percentile90(window: array<real>) returns (percentile90: real)
    requires window.Length > 0
    ensures percentile90 == SortAscending(AbsValues(window[..]))[PercentileIndex(window.Length)]
  {
    var windowSamples := window.Length;
    var absValues := new real[windowSamples];
    for i := 0 to windowSamples
      invariant forall k :: 0 <= k < i ==> absValues[k] == Abs(window[k])
    {
      absValues[i] := Abs(window[i]);
    }
    assert absValues[..] == AbsValues(window[..]);
    var sorted := SortAscending(absValues[..]);
    var p90Index := Trunc(0.9 * windowSamples as real);
    if p90Index >= windowSamples {
      p90Index := windowSamples - 1;
    }
    percentile90 := sorted[p90Index];
  }

  /** Feature 5: the mean of the absolute values. */
  method MeanAbsolute(window: array<real>) returns (meanAbs: real)
    requires window.Length > 0
    ensures meanAbs == SumAbs(window[..]) / window.Length as real
  {
    ghost var d := window[..];
    var sumAbs := 0.0;
    for i := 0 to window.Length
      invariant sumAbs == SumAbs(d[..i])
    {
      sumAbs := sumAbs + Abs(window[i]);
      SumAbsStep(d, i);
    }
    assert d[..window.Length] == d;
    meanAbs := sumAbs / window.Length as real;
  }

  /** The statistics part of `extractFeatures`, on the window once its DC
      mean is removed: the five features in the source's order. */
  method ComputeFeatures(window: array<real>, sqrt: real -> real) returns (feat: Features)
    requires window.Length > 0
    ensures feat == Statistics(window[..], sqrt)
  {
    var rms := RootMeanSquare(window, sqrt);
    var peakToPeak := PeakToPeak(window);
    var stdDev := StandardDeviation(window, sqrt);
    var percentile90 := Percentile90(window);
    var meanAbs := MeanAbsolute(window);
    feat := Features(rms, peakToPeak, stdDev, percentile90, meanAbs);
  }

  // ---------------------------------------------------------------------------
  // Properties of the definitions
  // ---------------------------------------------------------------------------

  // Extending a prefix by one element extends each accumulator by that
  // element's term: the steps of the source's accumulator loops.

  lemma SumStep(s: seq<real>, i: int)
    requires 0 <= i < |s|
    ensures Sum(s[..i + 1]) == Sum(s[..i]) + s[i]
  {
    assert s[..i + 1][..i] == s[..i];
  }

  lemma SumSquaresStep(s: seq<real>, i: int)
    requires 0 <= i < |s|
    ensures SumSquares(s[..i + 1]) == SumSquares(s[..i]) + s[i] * s[i]
  {
    assert s[..i + 1][..i] == s[..i];
  }

  lemma DeviationsStep(s: seq<real>, i: int, m: real, diff: real)
    requires 0 <= i < |s| && diff == s[i] - m
    ensures SumSquaredDeviations(s[..i + 1], m) == SumSquaredDeviations(s[..i], m) + diff * diff
  {
    assert s[..i + 1][..i] == s[..i];
  }

  lemma SumAbsStep(s: seq<real>, i: int)
    requires 0 <= i < |s|
    ensures SumAbs(s[..i + 1]) == SumAbs(s[..i]) + Abs(s[i])
  {
    assert s[..i + 1][..i] == s[..i];
  }

  lemma MinMaxStep(s: seq<real>, i: int)
    requires 0 < i < |s|
    ensures MinOf(s[..i + 1]) == if s[i] < MinOf(s[..i]) then s[i] else MinOf(s[..i])
    ensures MaxOf(s[..i + 1]) == if s[i] > MaxOf(s[..i]) then s[i] else MaxOf(s[..i])
  {
    assert s[..i + 1][..i] == s[..i];
  }

  /** Moving every sample by -c moves the sum by -n*c. */
  lemma {:induction false} SumOffset(s: seq<real>, c: real)
    ensures Sum(Offset(s, c)) == Sum(s) - |s| as real * c
  {
    if |s| > 0 {
      var t := s[..|s| - 1];
      assert Offset(s, c)[..|s| - 1] == Offset(t, c);
      SumOffset(t, c);
    }
  }

  /** After DC removal the window sums, and averages, to zero. */
  lemma CenteredSumsToZero(x: seq<real>)
    requires |x| > 0
    ensures Sum(Centered(x)) == 0.0
    ensures Mean(Centered(x)) == 0.0
  {
    SumOffset(x, Mean(x));
  }

  lemma {:induction false} DeviationsFromZero(s: seq<real>)
    ensures SumSquaredDeviations(s, 0.0) == SumSquares(s)
  {
    if |s| > 0 {
      DeviationsFromZero(s[..|s| - 1]);
    }
  }

  /** The standard deviation, computed as the source does from the window's
      own mean, equals the RMS: the window is already centred. */
  lemma StdDevMatchesRms(x: seq<real>, sqrt: real -> real)
    requires |x| > 0
    ensures FeaturesOf(x, sqrt).stdDev == FeaturesOf(x, sqrt).rms
  {
    CenteredSumsToZero(x);
    DeviationsFromZero(Centered(x));
  }

  /** A DC offset added to the whole window changes no feature. */
  lemma OffsetInvariant(x: seq<real>, c: real, sqrt: real -> real)
    requires |x| > 0
    ensures Centered(Offset(x, c)) == Centered(x)
    ensures FeaturesOf(Offset(x, c), sqrt) == FeaturesOf(x, sqrt)
  {
    SumOffset(x, c);
    var n := |x| as real;
    MeanShift(Sum(x), n, c);
    assert Mean(Offset(x, c)) == Mean(x) - c;
    assert Centered(Offset(x, c)) == Centered(x) by {
      forall i | 0 <= i < |x|
        ensures Centered(Offset(x, c))[i] == Centered(x)[i]
      {
        assert Centered(Offset(x, c))[i] == (x[i] - c) - (Mean(x) - c);
      }
    }
  }

  lemma MeanShift(total: real, n: real, c: real)
    requires n > 0.0
    ensures (total - n * c) / n == total / n - c
  {
    assert (total / n - c) * n == total - n * c;
  }

  /** Two sorted lists holding the same values are equal. */
  lemma {:induction false} SortedUnique(a: seq<real>, b: seq<real>)
    requires Sorted(a) && Sorted(b) && multiset(a) == multiset(b)
    ensures a == b
  {
    assert |a| == |multiset(a)| == |multiset(b)| == |b|;
    if |a| > 0 {
      SortedSameHead(a, b);
      TailMultiset(a);
      TailMultiset(b);
      SortedUnique(a[1..], b[1..]);
      assert a == [a[0]] + a[1..] && b == [b[0]] + b[1..];
    }
  }

  /** Both sorted lists start with the least of the shared values. */
  lemma SortedSameHead(a: seq<real>, b: seq<real>)
    requires Sorted(a) && Sorted(b) && multiset(a) == multiset(b) && |a| > 0 && |b| > 0
    ensures a[0] == b[0]
  {
    assert a[0] in multiset(b) && b[0] in multiset(a);
    var i :| 0 <= i < |b| && b[i] == a[0];
    var j :| 0 <= j < |a| && a[j] == b[0];
    assert b[0] <= b[i] && a[0] <= a[j];
  }

  lemma TailMultiset(a: seq<real>)
    requires |a| > 0
    ensures multiset(a[1..]) == multiset(a) - multiset{a[0]}
  {
    assert a == [a[0]] + a[1..];
  }

  /** The 90th percentile is the same whichever sorted permutation of the
      absolute values is indexed: it does not depend on the sort used. */
  lemma PercentileOfAnySort(x: seq<real>, sorted: seq<real>, sqrt: real -> real)
    requires |x| > 0
    requires Sorted(sorted) && multiset(sorted) == multiset(AbsValues(Centered(x)))
    ensures |sorted| == |x|
    ensures sorted[PercentileIndex(|x|)] == FeaturesOf(x, sqrt).percentile90
  {
    var abs := AbsValues(Centered(x));
    assert |sorted| == |multiset(sorted)| == |multiset(abs)| == |x|;
    SortAscendingSorts(abs);
    SortedUnique(sorted, SortAscending(abs));
  }

  /** Without rounding the clamp never fires: the index is floor(9n/10). */
  lemma PercentileIndexIsFloor(n: int)
    requires n > 0
    ensures PercentileIndex(n) == (9 * n) / 10
    ensures Trunc(0.9 * n as real) < n
  {
    var k := Trunc(0.9 * n as real);
    assert 10 * k <= 9 * n < 10 * k + 10;
  }

  /** Each value of a sorted copy of the absolute values lies between 0 and
      the largest absolute value. */
  lemma SortedAbsBounds(d: seq<real>, k: int)
    requires 0 <= k < |d|
    ensures 0.0 <= SortAscending(AbsValues(d))[k] <= MaxOf(AbsValues(d))
  {
    var abs := AbsValues(d);
    var v := SortAscending(abs)[k];
    SortAscendingSorts(abs);
    assert v in multiset(abs);
    var i :| 0 <= i < |abs| && abs[i] == v;
  }

  lemma QuotientNonNegative(a: real, n: real)
    requires 0.0 <= a && 0.0 < n
    ensures 0.0 <= a / n
  {
    assert a / n * n == a;
  }

  /** Bounds of the amplitude features. */
  lemma FeatureBounds(x: seq<real>, sqrt: real -> real)
    requires |x| > 0
    ensures FeaturesOf(x, sqrt).peakToPeak >= 0.0
    ensures FeaturesOf(x, sqrt).meanAbs >= 0.0
    ensures 0.0 <= FeaturesOf(x, sqrt).percentile90 <= MaxOf(AbsValues(Centered(x)))
  {
    var d := Centered(x);
    var f := FeaturesOf(x, sqrt);
    SortedAbsBounds(d, PercentileIndex(|x|));
    assert MinOf(d) <= d[0] <= MaxOf(d);
    QuotientNonNegative(SumAbs(d), |x| as real);
    assert f.meanAbs == SumAbs(d) / |x| as real;
  }

  /** A window of zeros sums to zero in every accumulator. */
  lemma {:induction false} ZeroSums(s: seq<real>)
    requires forall i :: 0 <= i < |s| ==> s[i] == 0.0
    ensures Sum(s) == 0.0 && SumSquares(s) == 0.0 && SumAbs(s) == 0.0
  {
    if |s| > 0 {
      ZeroSums(s[..|s| - 1]);
    }
  }

  /** An all-zero window has all-zero features apart from the roots. */
  lemma ZeroWindow(zeros: seq<real>, sqrt: real -> real)
    requires |zeros| > 0
    requires forall i :: 0 <= i < |zeros| ==> zeros[i] == 0.0
    ensures FeaturesOf(zeros, sqrt) == Features(sqrt(0.0), 0.0, sqrt(0.0), 0.0, 0.0)
  {
    ZeroSums(zeros);
    assert Mean(zeros) == 0.0;
    assert Centered(zeros) == zeros;
    StdDevMatchesRms(zeros, sqrt);
    var abs := AbsValues(zeros);
    assert abs == zeros;
    var sorted := SortAscending(abs);
    SortAscendingSorts(abs);
    var v := sorted[PercentileIndex(|zeros|)];
    assert v in multiset(abs);
    assert MaxOf(zeros) in zeros && MinOf(zeros) in zeros;
  }

  /** A pure DC window (every sample the same value c) scores zero energy:
      no spread, no percentile, no mean amplitude, and RMS and standard
      deviation both the root of zero. */
  lemma ConstantWindow(x: seq<real>, c: real, sqrt: real -> real)
    requires |x| > 0
    requires forall i :: 0 <= i < |x| ==> x[i] == c
    ensures FeaturesOf(x, sqrt) == Features(sqrt(0.0), 0.0, sqrt(0.0), 0.0, 0.0)
  {
    var zeros := seq(|x|, i requires 0 <= i < |x| => 0.0);
    assert x == Offset(zeros, -c);
    OffsetInvariant(zeros, -c, sqrt);
    ZeroWindow(zeros, sqrt);
  }
}

/**
 The capped binary search of rfsn_v10/adaptive_batch.py and the predictor object around it.
 */
module BatchSearch {
  import opened Arithmetic
  import opened Wrappers
  import opened BatchPredictor

  // ---------------------------------------------------------------------------
  // Prediction
  // ---------------------------------------------------------------------------

  function PredictLatency(h: History, batch: int): Option<real> {
    if h == [] || |h| < 2 || Spread(h) == 0.0 then None
    else
      var predicted := Slope(h) * batch as real + Intercept(h);
      Some(if predicted > 0.0 then predicted else 0.0)
  }

  /** Python's int() of a float. */
  function Trunc(x: real): int {
    if x >= 0.0 then x.Floor else -(-x).Floor
  }

  function TruncatedMean(h: History): int
    requires h != []
  {
    Trunc(Total(X, h) / |h| as real)
  }

  /** t is x without its fraction. */
  ghost predicate CutsOff(t: real, x: real) {
    if x >= 0.0 then t <= x < t + 1.0 else t - 1.0 < x <= t
  }

  lemma TruncCutsOff(x: real)
    ensures CutsOff(Trunc(x) as real, x)
  {
  }

  lemma SignScaled(x: real, n: real, sum: real)
    requires n > 0.0 && sum == x * n
    ensures x >= 0.0 <==> sum >= 0.0
  {
    if x >= 0.0 {
      RealNonNegative(x, n);
    } else {
      RealPositive(-x, n);
      assert (-x) * n == -(x * n);
    }
  }

  lemma FromBelow(x: real, n: real, t: real)
    requires n > 0.0 && t <= x < t + 1.0
    ensures t * n <= x * n < t * n + n
  {
    RealMonotone(n, t, x);
    RealPositive(n, t + 1.0 - x);
    assert n * (t + 1.0 - x) == t * n + n - x * n;
  }

  lemma FromAbove(x: real, n: real, t: real)
    requires n > 0.0 && t - 1.0 < x <= t
    ensures t * n - n < x * n <= t * n
  {
    FromBelow(-x, n, -t);
    assert (-x) * n == -(x * n) && (-t) * n == -(t * n);
  }

  /** t is sum / n, for a positive n, cut off towards zero. */
  ghost predicate IsCutOff(t: real, n: real, sum: real) {
    if sum >= 0.0 then t * n <= sum < t * n + n else t * n - n < sum <= t * n
  }

  lemma CutOff(x: real, n: real, t: real)
    requires n > 0.0 && CutsOff(t, x)
    ensures IsCutOff(t, n, x * n)
  {
    SignScaled(x, n, x * n);
    if x >= 0.0 {
      FromBelow(x, n, t);
    } else {
      FromAbove(x, n, t);
    }
  }

  lemma CutOffQuotient(sum: real, n: real, t: real)
    requires n > 0.0 && CutsOff(t, sum / n)
    ensures IsCutOff(t, n, sum)
  {
    var x := sum / n;
    assert x * n == sum;
    CutOff(x, n, t);
  }

  /** The mean of the batch sizes, cut off towards zero. */
  lemma TruncatedMeanIs(h: History)
    requires h != []
    ensures IsCutOff(TruncatedMean(h) as real, |h| as real, Total(X, h))
  {
    TruncCutsOff(Total(X, h) / |h| as real);
    CutOffQuotient(Total(X, h), |h| as real, TruncatedMean(h) as real);
  }

  function MaxBatch(h: History): (m: int)
    requires h != []
    ensures (exists i :: 0 <= i < |h| && h[i].batch == m) && forall i :: 0 <= i < |h| ==> h[i].batch <= m
    decreases |h|
  {
    if |h| == 1 then h[0].batch
    else
      var rest := MaxBatch(h[1..]);
      assert forall i :: 1 <= i < |h| ==> h[i] == h[1..][i - 1];
      assert exists i :: 0 <= i < |h| && h[i].batch == rest by {
        var i :| 0 <= i < |h[1..]| && h[1..][i].batch == rest;
        assert h[i + 1].batch == rest;
      }
      if h[0].batch > rest then h[0].batch else rest
  }

  // ---------------------------------------------------------------------------
  // The search
  // ---------------------------------------------------------------------------

  /** k iterations of the loop; best is None until some size has met the target. */
  function Search(p: int -> real, target: real, low: int, high: int, best: Option<int>, k: nat): Option<int>
    decreases k
  {
    if k == 0 then best
    else
      var mid := (low + high) / 2;
      if p(mid) > target then Search(p, target, low, mid, best, k - 1)
      else Search(p, target, mid + 1, high, Some(mid), k - 1)
  }

  /** r is the largest size from 1 to n that meets the target, or None when none does. */
  ghost predicate IsLargest(p: int -> real, target: real, n: int, r: Option<int>) {
    match r
    case None => forall b :: 1 <= b <= n ==> p(b) > target
    case Some(x) => 1 <= x <= n && p(x) <= target && forall b :: x < b <= n ==> p(b) > target
  }

  ghost predicate Monotone(p: int -> real) {
    forall a, b :: a <= b ==> p(a) <= p(b)
  }

  function Pow2(k: nat): nat {
    if k == 0 then 1 else 2 * Pow2(k - 1)
  }

  /** Too few iterations stop short of the upper end when every size meets the target. */
  lemma {:induction false} SearchStopsShort(p: int -> real, target: real, n: int, low: int, best: Option<int>, k: nat)
    requires 1 <= low <= n && (forall b :: low <= b <= n ==> p(b) <= target)
    requires n - low + 1 >= Pow2(k) && (best.Some? ==> best.value < n)
    ensures var r := Search(p, target, low, n, best, k); r.Some? ==> r.value < n
    decreases k
  {
    if k > 0 {
      var mid := (low + n) / 2;
      assert Pow2(k) >= 2 by { Pow2Positive(k - 1); }
      assert n - (mid + 1) + 1 >= Pow2(k - 1);
      Pow2Positive(k - 1);
      SearchStopsShort(p, target, n, mid + 1, Some(mid), k - 1);
    }
  }

  lemma {:induction false} Pow2Positive(k: nat)
    ensures Pow2(k) >= 1
  {
    if k > 0 {
      Pow2Positive(k - 1);
    }
  }

  lemma TenBits()
    ensures Pow2(10) == 1024
  {
    assert Pow2(4) == 16;
    assert Pow2(7) == 128;
  }

  // ---------------------------------------------------------------------------
  // When the loop finds the largest size, for any number of iterations
  // ---------------------------------------------------------------------------

  /** Exactly the first r of the sizes 1 to n meet the target. */
  ghost predicate Threshold(p: int -> real, target: real, n: int, r: int) {
    0 <= r <= n && forall b :: 1 <= b <= n ==> (p(b) <= target <==> b <= r)
  }

  lemma {:induction false} ThresholdExists(p: int -> real, target: real, n: nat) returns (r: nat)
    requires Monotone(p)
    ensures Threshold(p, target, n, r)
    decreases n
  {
    if n == 0 {
      r := 0;
    } else if p(n) <= target {
      forall b | 1 <= b <= n
        ensures p(b) <= target
      {
        assert p(b) <= p(n);
      }
      r := n;
    } else {
      r := ThresholdExists(p, target, n - 1);
    }
  }

  lemma ThresholdIsLargest(p: int -> real, target: real, n: int, r: int)
    requires Threshold(p, target, n, r)
    ensures forall x :: IsLargest(p, target, n, x) <==> x == if r == 0 then None else Some(r)
  {
    forall x
      ensures IsLargest(p, target, n, x) <==> x == if r == 0 then None else Some(r)
    {
      if IsLargest(p, target, n, x) && r > 0 {
        assert p(r) <= target;
      }
    }
  }

  lemma HalfGap(low: int, high: int, mid: int, half: nat)
    requires mid == (low + high) / 2 && high - low < 2 * half
    ensures mid - low < half
  {
  }

  lemma OtherHalfGap(low: int, high: int, mid: int, extra: int, half: nat)
    requires mid == (low + high) / 2 && high - low + extra < 2 * half && 0 <= extra <= 1
    ensures high - (mid + 1) + extra < half
  {
  }

  /** The same loop, told by r which sizes meet the target. */
  function Halve(r: int, low: int, high: int, best: Option<int>, k: nat): Option<int>
    decreases k
  {
    if k == 0 then best
    else
      var mid := (low + high) / 2;
      if mid > r then Halve(r, low, mid, best, k - 1) else Halve(r, mid + 1, high, Some(mid), k - 1)
  }

  lemma {:induction false} SearchIsHalve(p: int -> real, target: real, n: int, r: int, low: int, high: int, best: Option<int>, k: nat)
    requires Threshold(p, target, n, r) && 1 <= low <= high + 1 && 1 <= high <= n
    ensures Search(p, target, low, high, best, k) == Halve(r, low, high, best, k)
    decreases k
  {
    if k > 0 {
      var mid := (low + high) / 2;
      assert 1 <= mid <= n && (p(mid) <= target <==> mid <= r);
      if mid > r {
        SearchIsHalve(p, target, n, r, low, mid, best, k - 1);
      } else {
        SearchIsHalve(p, target, n, r, mid + 1, high, Some(mid), k - 1);
      }
    }
  }

  /** Enough iterations find r: the gap must be below 2^k when the upper end is known to miss the
      target, and one less when it is still to be tested. */
  lemma {:induction false} HalvingFinds(n: int, r: int, low: int, high: int, best: Option<int>, k: nat)
    requires 0 <= r <= n && 1 <= low <= high + 1 && 1 <= high <= n
    requires low - 1 <= r && (high == n || r < high)
    requires best == if low == 1 then None else Some(low - 1)
    requires high - low + (if r < high then 0 else 1) < Pow2(k)
    ensures Halve(r, low, high, best, k) == if r == 0 then None else Some(r)
    decreases k
  {
    if k > 0 {
      var mid, half := (low + high) / 2, Pow2(k - 1);
      if mid > r {
        HalfGap(low, high, mid, half);
        HalvingFinds(n, r, low, mid, best, k - 1);
      } else {
        OtherHalfGap(low, high, mid, if r < high then 0 else 1, half);
        HalvingFinds(n, r, mid + 1, high, Some(mid), k - 1);
      }
    }
  }

  /** For any monotone prediction, k iterations find the largest of fewer than 2^k sizes that
      meets the target, or nothing when none does. */
  lemma SearchFinds(p: int -> real, target: real, n: nat, k: nat)
    requires Monotone(p) && 1 <= n < Pow2(k)
    ensures IsLargest(p, target, n, Search(p, target, 1, n, None, k))
  {
    var r := ThresholdExists(p, target, n);
    SearchIsHalve(p, target, n, r, 1, n, None, k);
    HalvingFinds(n, r, 1, n, None, k);
    ThresholdIsLargest(p, target, n, r);
  }

  /** Halving from low and high, with r deciding every probe, probes r itself. */
  predicate Probed(low: int, high: int, r: int, k: nat)
    decreases k
  {
    && k > 0
    && var mid := (low + high) / 2;
       mid == r || (r < mid && Probed(low, mid, r, k - 1)) || (mid < r && Probed(mid + 1, high, r, k - 1))
  }

  /** The loop ends with the largest size exactly when it already has it or will probe it. */
  lemma {:induction false} SearchIffProbed(p: int -> real, target: real, n: int, r: int, low: int, high: int, best: Option<int>, k: nat)
    requires Threshold(p, target, n, r) && 1 <= low <= high + 1 && 1 <= high <= n
    requires best.Some? ==> best.value < low
    ensures Search(p, target, low, high, best, k) == Some(r) <==> best == Some(r) || Probed(low, high, r, k)
    decreases k
  {
    if k > 0 {
      var mid := (low + high) / 2;
      assert 1 <= mid <= n;
      if p(mid) > target {
        SearchIffProbed(p, target, n, r, low, mid, best, k - 1);
      } else {
        SearchIffProbed(p, target, n, r, mid + 1, high, Some(mid), k - 1);
      }
    }
  }

  /** The last of k probes that all miss. */
  function LastMiss(high: int, k: nat): int
    decreases k
  {
    if k == 0 then high else LastMiss((1 + high) / 2, k - 1)
  }

  lemma {:induction false} SearchKeepsBest(p: int -> real, target: real, low: int, high: int, best: Option<int>, k: nat)
    requires best.Some?
    ensures Search(p, target, low, high, best, k).Some?
    decreases k
  {
    if k > 0 {
      var mid := (low + high) / 2;
      if p(mid) > target {
        SearchKeepsBest(p, target, low, mid, best, k - 1);
      } else {
        SearchKeepsBest(p, target, mid + 1, high, Some(mid), k - 1);
      }
    }
  }

  lemma {:induction false} LastMissFalls(high: int, k: nat)
    requires high >= 1
    ensures 1 <= LastMiss(high, k) <= high
    decreases k
  {
    if k > 0 {
      LastMissFalls((1 + high) / 2, k - 1);
    }
  }

  /** The loop ends with nothing exactly when even the last of its probes misses. */
  lemma {:induction false} SearchNoneIff(p: int -> real, target: real, n: int, r: int, high: int, k: nat)
    requires Threshold(p, target, n, r) && 1 <= high <= n && k > 0
    ensures Search(p, target, 1, high, None, k).None? <==> r < LastMiss(high, k)
    decreases k
  {
    var mid := (1 + high) / 2;
    LastMissFalls(mid, k - 1);
    if p(mid) > target {
      if k > 1 {
        SearchNoneIff(p, target, n, r, mid, k - 1);
      }
    } else {
      SearchKeepsBest(p, target, mid + 1, high, Some(mid), k - 1);
    }
  }

  // ---------------------------------------------------------------------------
  // When the predictions fall
  // ---------------------------------------------------------------------------

  ghost predicate Antitone(p: int -> real) {
    forall a, b :: a <= b ==> p(a) >= p(b)
  }

  lemma {:induction false} SearchMisses(p: int -> real, target: real, low: int, high: int, k: nat)
    requires low <= high && forall b :: b <= high ==> p(b) > target
    ensures Search(p, target, low, high, None, k) == None
    decreases k
  {
    if k > 0 {
      SearchMisses(p, target, low, (low + high) / 2, k - 1);
    }
  }

  lemma {:induction false} SearchClimbs(p: int -> real, target: real, low: int, n: int, best: Option<int>, k: nat)
    requires low <= n + 1 && (forall b :: low - 1 <= b ==> p(b) <= target)
    requires n - low + 1 < Pow2(k) && (low == n + 1 ==> best == Some(n))
    ensures Search(p, target, low, n, best, k) == Some(n)
    decreases k
  {
    if k > 0 {
      var mid := (low + n) / 2;
      SearchClimbs(p, target, mid + 1, n, Some(mid), k - 1);
    }
  }

  // ---------------------------------------------------------------------------
  // The recommendation
  // ---------------------------------------------------------------------------

  /** The predicted latency of a history with two different batch sizes. */
  function Predicted(h: History): int -> real
    requires |h| >= 2 && Spread(h) != 0.0
  {
    b => PredictLatency(h, b).value
  }

  /** There is a line to predict from. */
  ghost predicate Fitted(h: History) {
    |h| >= 2 && Spread(h) != 0.0
  }

  function Chosen(h: History, r: Option<int>): int
    requires h != []
  {
    if r.Some? then r.value else TruncatedMean(h)
  }

  /** What ten iterations find. */
  function Found(h: History, target: real): Option<int>
    requires Fitted(h)
  {
    Search(Predicted(h), target, 1, MaxBatch(h) * 2, None, 10)
  }

  /** What `recommend_batch_size` returns. */
  function Recommend(h: History, target: real): Option<int> {
    if h == [] then None
    else if PredictLatency(h, 0).None? then Some(TruncatedMean(h))
    else
      Some(Chosen(h, Found(h, target)))
  }

  /** A history the search is meant for: two different sizes, latency not falling with size. */
  ghost predicate Rising(h: History) {
    Fitted(h) && Slope(h) >= 0.0
  }

  /** The recommendation the documentation promises: the largest size up to twice the largest
      recorded one that is predicted to meet the target, or the mean size when none is. */
  ghost predicate Meets(h: History, target: real)
    requires Fitted(h)
  {
    exists r :: IsLargest(Predicted(h), target, MaxBatch(h) * 2, r)
             && Recommend(h, target) == Some(Chosen(h, r))
  }

  lemma LineClamped(h: History, b: int)
    requires |h| >= 2 && Spread(h) != 0.0
    ensures var y := Slope(h) * b as real + Intercept(h);
            Predicted(h)(b) == if y > 0.0 then y else 0.0
  {
  }

  lemma PredictedMonotone(h: History)
    requires Rising(h)
    ensures Monotone(Predicted(h))
  {
    forall a, b | a <= b
      ensures Predicted(h)(a) <= Predicted(h)(b)
    {
      LineClamped(h, a);
      LineClamped(h, b);
      LineRises(Slope(h), Intercept(h), a as real, b as real);
    }
  }

  lemma LineRises(slope: real, intercept: real, a: real, b: real)
    requires slope >= 0.0 && a <= b
    ensures slope * a + intercept <= slope * b + intercept
  {
    RealMonotone(slope, a, b);
  }

  lemma LineFalls(slope: real, intercept: real, a: real, b: real)
    requires slope <= 0.0 && a <= b
    ensures slope * a + intercept >= slope * b + intercept
  {
    RealMonotone(-slope, a, b);
    assert (-slope) * a == -(slope * a) && (-slope) * b == -(slope * b);
  }

  /** Ten iterations suffice for every rising history whose largest batch size is at most 511. */
  lemma TenIterationsSuffice(h: History, target: real)
    requires Rising(h) && 1 <= MaxBatch(h) <= 511
    ensures Meets(h, target)
  {
    var p, n := Predicted(h), MaxBatch(h) * 2;
    PredictedMonotone(h);
    TenBits();
    SearchFinds(p, target, n, 10);
    assert IsLargest(p, target, n, Search(p, target, 1, n, None, 10));
  }

  /** From 512 on they do not: whenever twice the largest size meets the target, something
      smaller is returned. */
  lemma TenIterationsFail(h: History, target: real)
    requires Rising(h) && MaxBatch(h) >= 512 && Predicted(h)(MaxBatch(h) * 2) <= target
    ensures !Meets(h, target)
  {
    var p, n := Predicted(h), MaxBatch(h) * 2;
    PredictedMonotone(h);
    TenBits();
    UpperEndMissed(p, target, n, 10);
    MeanAtMostMax(h);
    MeetsIff(h, target, Some(n));
  }

  /** If all of at least 2^k sizes meet the target, k iterations do not find the largest. */
  lemma UpperEndMissed(p: int -> real, target: real, n: nat, k: nat)
    requires Monotone(p) && p(n) <= target && n >= 1 && n >= Pow2(k)
    ensures Search(p, target, 1, n, None, k) != Some(n)
    ensures forall y :: IsLargest(p, target, n, y) <==> y == Some(n)
  {
    forall b | 1 <= b <= n
      ensures p(b) <= target
    {
      assert p(b) <= p(n);
    }
    SearchStopsShort(p, target, n, 1, None, k);
    ThresholdIsLargest(p, target, n, n);
  }

  /** The bound is exact: for a largest batch size m, ten iterations suffice on every history
      and target if and only if m is at most 511. */
  lemma IterationBoundIsExact(m: int)
    requires m >= 1
    ensures (forall h, target :: Rising(h) && MaxBatch(h) == m ==> Meets(h, target)) <==> m <= 511
  {
    if m <= 511 {
      forall h, target | Rising(h) && MaxBatch(h) == m
        ensures Meets(h, target)
      {
        TenIterationsSuffice(h, target);
      }
    } else {
      var h := [Observation(m, 0.0), Observation(1, 0.0)];
      FlatHistory(m);
      TenIterationsFail(h, 0.0);
      assert Rising(h) && MaxBatch(h) == m && !Meets(h, 0.0);
    }
  }

  /** For any rising history, with r sizes up to twice the largest meeting the target: the
      recommendation is the promised one exactly when none meets it, when ten halvings probe
      r itself, or when they probe nothing that small and the mean size happens to be r. */
  lemma RisingMeetsIff(h: History, target: real, r: int)
    requires Rising(h) && MaxBatch(h) >= 1 && Threshold(Predicted(h), target, MaxBatch(h) * 2, r)
    ensures Meets(h, target) <==>
            var n := MaxBatch(h) * 2;
            r == 0 || Probed(1, n, r, 10) || (r < LastMiss(n, 10) && TruncatedMean(h) == r)
  {
    var p, n := Predicted(h), MaxBatch(h) * 2;
    ThresholdIsLargest(p, target, n, r);
    SearchIffProbed(p, target, n, r, 1, n, None, 10);
    SearchNoneIff(p, target, n, r, n, 10);
    LastMissFalls(n, 10);
    MeetsIff(h, target, if r == 0 then None else Some(r));
  }

  /** Which recommendation is promised, once the largest size is known. */
  lemma MeetsIff(h: History, target: real, x: Option<int>)
    requires Fitted(h) && forall y :: IsLargest(Predicted(h), target, MaxBatch(h) * 2, y) <==> y == x
    ensures Meets(h, target) <==> Chosen(h, Found(h, target)) == Chosen(h, x)
  {
    FittedPredicts(h);
    assert IsLargest(Predicted(h), target, MaxBatch(h) * 2, x);
  }

  lemma FlatHistory(m: int)
    requires m > 1
    ensures var h := [Observation(m, 0.0), Observation(1, 0.0)];
            Rising(h) && MaxBatch(h) == m && forall b :: Predicted(h)(b) == 0.0
  {
    var o, q := Observation(m, 0.0), Observation(1, 0.0);
    var h := [o, q];
    SpreadSign(h);
    assert h[0].batch != h[1].batch;
    TotalTwo(X, o, q);
    TotalTwo(Y, o, q);
    TotalTwo(XY, o, q);
    assert Total(X, h) == m as real + 1.0 && Total(Y, h) == 0.0 && Total(XY, h) == 0.0;
    FlatLine(|h| as real, Total(X, h), Total(XX, h));
    forall b
      ensures Predicted(h)(b) == 0.0
    {
      LineClamped(h, b);
      assert Slope(h) == 0.0 && Intercept(h) == 0.0;
    }
    assert h[1..] == [q];
  }

  lemma FlatLine(n: real, sx: real, sxx: real)
    requires n > 0.0 && SpreadOf(n, sx, sxx) != 0.0
    ensures SlopeOf(n, sx, 0.0, 0.0, sxx) == 0.0 && InterceptOf(n, sx, 0.0, 0.0) == 0.0
  {
  }

  lemma TotalTwo(f: Observation -> real, o: Observation, q: Observation)
    ensures Total(f, [o, q]) == f(o) + f(q)
  {
    var h, t := [o, q], [q];
    assert h[1..] == t && t[1..] == [];
    assert Total(f, t) == f(t[0]) + Total(f, t[1..]);
    assert Total(f, h) == f(h[0]) + Total(f, h[1..]);
  }

  lemma {:induction false} SumAtMost(h: History, m: int)
    requires forall i :: 0 <= i < |h| ==> h[i].batch <= m
    ensures Total(X, h) <= m as real * |h| as real
    decreases |h|
  {
    if h != [] {
      SumAtMost(h[1..], m);
      Distribute(m as real, 1.0, |h[1..]| as real);
    }
  }

  lemma QuotientAtMost(x: real, n: real, m: real)
    requires n > 0.0 && x <= m * n
    ensures x / n <= m
  {
    var q := x / n;
    assert q * n == x;
    if q > m {
      RealStrict(n, m, q);
    }
  }

  /** The mean never exceeds the largest size. */
  lemma MeanAtMostMax(h: History)
    requires h != [] && MaxBatch(h) >= 1
    ensures TruncatedMean(h) <= MaxBatch(h)
  {
    MeanAtMost(h, MaxBatch(h));
  }

  lemma MeanAtMost(h: History, m: int)
    requires h != [] && m >= 0 && forall i :: 0 <= i < |h| ==> h[i].batch <= m
    ensures TruncatedMean(h) <= m
  {
    var x, n := Total(X, h), |h| as real;
    SumAtMost(h, m);
    QuotientAtMost(x, n, m as real);
    TruncAtMost(x / n, m);
  }

  lemma TruncAtMost(q: real, m: int)
    requires q <= m as real && m >= 0
    ensures Trunc(q) <= m
  {
  }

  // ---------------------------------------------------------------------------
  // When latency falls with size
  // ---------------------------------------------------------------------------

  lemma PredictedAntitone(h: History)
    requires Fitted(h) && Slope(h) <= 0.0
    ensures Antitone(Predicted(h))
  {
    forall a, b | a <= b
      ensures Predicted(h)(a) >= Predicted(h)(b)
    {
      LineClamped(h, a);
      LineClamped(h, b);
      LineFalls(Slope(h), Intercept(h), a as real, b as real);
    }
  }

  lemma NineBits()
    ensures Pow2(9) == 512
  {
    assert Pow2(3) == 8;
    assert Pow2(6) == 64;
  }

  /** What k iterations find of a falling prediction: the first probe is the middle, which
      decides between nothing and climbing towards the upper end. */
  lemma FallingSearch(p: int -> real, target: real, m: int, k: nat)
    requires Antitone(p) && m >= 1 && k >= 1
    ensures var r := Search(p, target, 1, m * 2, None, k);
            && (p(m) > target ==> r == None)
            && (p(m) <= target ==> r.Some? && (r == Some(m * 2) <==> m < Pow2(k - 1)))
  {
    SearchStep(p, target, 1, m * 2, None, k);
    assert (1 + m * 2) / 2 == m;
    if p(m) > target {
      forall b | b <= m
        ensures p(b) > target
      {
        assert p(b) >= p(m);
      }
      SearchMisses(p, target, 1, m, k - 1);
    } else {
      FallingClimb(p, target, m, k - 1);
    }
  }

  lemma FallingClimb(p: int -> real, target: real, m: int, k: nat)
    requires Antitone(p) && m >= 1 && p(m) <= target
    ensures var r := Search(p, target, m + 1, m * 2, Some(m), k);
            r.Some? && (r == Some(m * 2) <==> m < Pow2(k))
  {
    forall b | m <= b
      ensures p(b) <= target
    {
      assert p(m) >= p(b);
    }
    SearchKeepsBest(p, target, m + 1, m * 2, Some(m), k);
    if m < Pow2(k) {
      SearchClimbs(p, target, m + 1, m * 2, Some(m), k);
    } else {
      SearchStopsShort(p, target, m * 2, m + 1, Some(m), k);
    }
  }

  /** For any history whose line does not rise, and whose largest size is m: the
      recommendation is the promised one exactly when nothing up to twice m meets the target,
      or m itself meets it and m is at most 511. */
  lemma FallingMeetsIff(h: History, target: real)
    requires Fitted(h) && Slope(h) <= 0.0 && MaxBatch(h) >= 1
    ensures var m := MaxBatch(h);
            Meets(h, target) <==> Predicted(h)(m * 2) > target || (Predicted(h)(m) <= target && m <= 511)
  {
    var p, m := Predicted(h), MaxBatch(h);
    PredictedAntitone(h);
    FallingSearch(p, target, m, 10);
    NineBits();
    MeanAtMostMax(h);
    var x := if p(m * 2) > target then None else Some(m * 2);
    FallingLargest(p, target, m * 2, x);
    MeetsIff(h, target, x);
    assert p(m) >= p(m * 2);
  }

  lemma FallingLargest(p: int -> real, target: real, n: int, x: Option<int>)
    requires Antitone(p) && n >= 1 && x == if p(n) > target then None else Some(n)
    ensures forall y :: IsLargest(p, target, n, y) <==> y == x
  {
    forall y
      ensures IsLargest(p, target, n, y) <==> y == x
    {
      forall b | 1 <= b <= n
        ensures p(b) >= p(n)
      {
      }
    }
  }

  /** Without a rising line the search can miss every size that meets the target: here sizes
      3 and 4 are predicted to take no time, and the mean size is returned, which does not
      meet the target. */
  lemma FallingHistoryIsMissed()
    ensures var h := [Observation(1, 100.0), Observation(2, 50.0)];
            && PredictLatency(h, 3) == Some(0.0) && PredictLatency(h, 1) == Some(100.0)
            && Recommend(h, 10.0) == Some(1) && Fitted(h) && !Meets(h, 10.0)
  {
    var o, q := Observation(1, 100.0), Observation(2, 50.0);
    var h := [o, q];
    assert h[1..] == [q];
    TotalTwo(X, o, q);
    TotalTwo(Y, o, q);
    TotalTwo(XY, o, q);
    TotalTwo(XX, o, q);
    assert Spread(h) == 1.0 && Slope(h) == -50.0 && Intercept(h) == 150.0;
    var p := Predicted(h);
    assert p(2) == 50.0 && p(1) == 100.0;
    assert MaxBatch(h) == 2;
    StuckAtOne(p, 10.0, 8);
    assert Search(p, 10.0, 1, 4, None, 10) == Search(p, 10.0, 1, 2, None, 9);
    assert Search(p, 10.0, 1, 2, None, 9) == Search(p, 10.0, 1, 1, None, 8);
    assert Total(X, h) / 2.0 == 1.5;
    LineClamped(h, 4);
    FallingMeetsIff(h, 10.0);
  }

  lemma {:induction false} StuckAtOne(p: int -> real, target: real, k: nat)
    requires p(1) > target
    ensures Search(p, target, 1, 1, None, k) == None
    decreases k
  {
    if k > 0 {
      StuckAtOne(p, target, k - 1);
    }
  }

  // ---------------------------------------------------------------------------
  // The predictor
  // ---------------------------------------------------------------------------

  /** Python's s[-w:]. */
  function LastSlice(s: History, w: int): History {
    if w > 0 then (if w < |s| then s[|s| - w..] else s)
    else if w == 0 then s
    else if -w < |s| then s[-w..] else []
  }

  function Recorded(s: History, o: Observation, w: int): History {
    var t := s + [o];
    if |t| > w then LastSlice(t, w) else t
  }

  function RecordAll(s: History, news: History, w: int): History
    decreases |news|
  {
    if news == [] then s
    else Recorded(RecordAll(s, news[..|news| - 1], w), news[|news| - 1], w)
  }

  /** A window of w >= 1 keeps exactly the last w observations, in order, of any sequence of
      recordings; a window of 0 keeps them all, because the slice [-0:] is the whole list, and a
      negative one keeps nothing. */
  lemma {:induction false} WindowKeepsLast(news: History, w: int)
    ensures RecordAll([], news, w) == if w < 0 then [] else if 0 < w < |news| then news[|news| - w..] else news
    decreases |news|
  {
    if news != [] {
      var front, o := news[..|news| - 1], news[|news| - 1];
      WindowKeepsLast(front, w);
      assert news == front + [o];
    }
  }

  /** The loop, for any predictor p that either never predicts or predicts by q. */
  method HalveRange(p: int -> Option<real>, ghost q: int -> real, ghost fitted: bool,
                    target: real, maxBatch: int, start: int, iterations: nat) returns (best: int)
    requires if fitted then forall b :: p(b) == Some(q(b)) else forall b :: p(b).None?
    ensures !fitted ==> best == start
    ensures fitted ==> var r := Search(q, target, 1, maxBatch, None, iterations); best == if r.Some? then r.value else start
  {
    var low, high := 1, maxBatch;
    best := start;
    ghost var found: Option<int>, left := None, iterations;
    var i := 0;
    while i < iterations
      invariant 0 <= i <= iterations && left == iterations - i
      invariant best == if found.Some? then found.value else start
      invariant !fitted ==> found.None?
      invariant Search(q, target, low, high, found, left) == Search(q, target, 1, maxBatch, None, iterations)
    {
      SearchStep(q, target, low, high, found, left);
      var mid := (low + high) / 2;
      var predicted := p(mid);
      if predicted.None? {
        break;
      }
      if predicted.value > target {
        high := mid;
      } else {
        best := mid;
        found := Some(mid);
        low := mid + 1;
      }
      i, left := i + 1, left - 1;
    }
  }

  lemma SearchStep(q: int -> real, target: real, low: int, high: int, best: Option<int>, k: nat)
    requires k > 0
    ensures var mid := (low + high) / 2;
            Search(q, target, low, high, best, k) ==
            if q(mid) > target then Search(q, target, low, mid, best, k - 1)
            else Search(q, target, mid + 1, high, Some(mid), k - 1)
  {
  }

  lemma FittedPredicts(h: History)
    ensures !Fitted(h) ==> forall b :: PredictLatency(h, b).None?
    ensures Fitted(h) ==> forall b :: PredictLatency(h, b) == Some(Predicted(h)(b))
  {
  }

  class PerformancePredictor {
    const windowSize: int
    var history: History

    constructor (windowSize: int)
      ensures this.windowSize == windowSize && history == []
    {
      this.windowSize := windowSize;
      history := [];
    }

    method Record(batch: int, latency: real)
      modifies this
      ensures history == Recorded(old(history), Observation(batch, latency), windowSize)
      ensures windowSize >= 1 ==> |history| <= windowSize
      ensures var all := old(history) + [Observation(batch, latency)];
              |history| <= |all| && history == all[|all| - |history|..]
    {
      history := history + [Observation(batch, latency)];
      if |history| > windowSize {
        history := LastSlice(history, windowSize);
      }
    }

    method RecommendBatchSize(target: real) returns (r: Option<int>)
      ensures r == Recommend(history, target)
      ensures r.None? <==> history == []
    {
      var h := history;
      if h == [] {
        return None;
      }
      FittedPredicts(h);
      var best := HalveRange(b => PredictLatency(h, b), if Fitted(h) then Predicted(h) else _ => 0.0, Fitted(h),
                             target, MaxBatch(h) * 2, TruncatedMean(h), 10);
      return Some(best);
    }
  }
}

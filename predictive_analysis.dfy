/**
 * Online estimators used by the bridge server: an exponential moving
 * average forecaster, an arrival-time predictor over a sliding window of
 * speed samples, and a risk heatmap whose cells decay over time.
 *
 * Arithmetic is over `real` (no floating-point rounding). The wall clock is
 * not read: the current time is passed in as `now`.
 */
module PredictiveAnalysis {

  datatype Option<T> = None | Some(value: T)

  /** A value, or the exception the source raises instead. */
  datatype Result<T> = Ok(value: T) | Err(reason: string)

  /** Default arguments of the estimators' constructors and methods. */
  const DefaultAlpha: real := 0.3
  const DefaultSteps: int := 1
  const DefaultWindow: nat := 30
  const DefaultMinSpeed: real := 0.05
  const DefaultDecayPerSec: real := 0.01
  const DefaultAmount: real := 1.0

  function Max(a: real, b: real): real { if a >= b then a else b }
  function Min(a: real, b: real): real { if a <= b then a else b }

  // ---------------------------------------------------------------------
  // EMAForecaster
  // ---------------------------------------------------------------------

  /** The EMA step `alpha * value + (1 - alpha) * level`. */
  function Blend(alpha: real, value: real, level: real): (r: real)
    ensures 0.0 <= alpha <= 1.0 ==> Min(value, level) <= r <= Max(value, level)
  {
    var r := alpha * value + (1.0 - alpha) * level;
    assert r - level == alpha * (value - level);
    r
  }

  /** Smallest and largest of a non-empty sequence, folded from the back. */
  function SeqMin(s: seq<real>): real
    requires |s| > 0
  {
    if |s| == 1 then s[0] else Min(SeqMin(s[..|s| - 1]), s[|s| - 1])
  }

  function SeqMax(s: seq<real>): real
    requires |s| > 0
  {
    if |s| == 1 then s[0] else Max(SeqMax(s[..|s| - 1]), s[|s| - 1])
  }

  class EMAForecaster {
    const alpha: real
    var level: Option<real>
    /** Every observation fed so far. */
    ghost var observed: seq<real>

    /**
     * The level exists exactly when something was observed, and with a
     * smoothing factor in [0, 1] it never leaves the observed range.
     */
    ghost predicate Valid()
      reads this
    {
      && (level.None? <==> observed == [])
      && (level.Some? && 0.0 <= alpha <= 1.0 ==>
            SeqMin(observed) <= level.value <= SeqMax(observed))
    }

    constructor (alpha: real := DefaultAlpha)
      ensures Valid()
      ensures this.alpha == alpha && level == None && observed == []
    {
      this.alpha := alpha;
      level := None;
      observed := [];
    }

    /** Feed one observation; the first one becomes the level. */
    method Update(value: real) returns (r: real)
      requires Valid()
      modifies this
      ensures Valid()
      ensures observed == old(observed) + [value]
      ensures level == Some(r)
      ensures old(level).None? ==> r == value
      ensures old(level).Some? ==> r == Blend(alpha, value, old(level).value)
    {
      if level.None? {
        level := Some(value);
      } else {
        level := Some(Blend(alpha, value, level.value));
      }
      observed := observed + [value];
      assert observed[..|observed| - 1] == old(observed);
      r := level.value;
    }

    /** Forecast `steps` ahead: the current level, or an error before any update. */
    method Predict(steps: int := DefaultSteps) returns (r: Result<real>)
      ensures r.Ok? <==> level.Some?
      ensures level.Some? ==> r.value == level.value
    {
      if level.None? {
        r := Err("No data yet. Call update() first.");
      } else {
        r := Ok(level.value);
      }
    }
  }

  // ---------------------------------------------------------------------
  // ETAPredictor
  // ---------------------------------------------------------------------

  /** The last `n` elements of `s` (all of `s` when it is shorter). */
  function LastN(s: seq<real>, n: nat): (r: seq<real>)
    ensures |r| == if |s| <= n then |s| else n
  {
    if |s| <= n then s else s[|s| - n..]
  }

  /** Trimming before appending keeps the same window as appending to everything. */
  lemma LastNAppend(s: seq<real>, n: nat, x: real)
    ensures LastN(LastN(s, n) + [x], n) == LastN(s + [x], n)
  {
    if |s| > n {
      assert LastN(s, n) + [x] == s[|s| - n..] + [x];
      assert (s + [x])[|s| + 1 - n..] == (s[|s| - n..] + [x])[1..];
    }
  }

  predicate AllNonNegative(s: seq<real>)
  {
    forall i :: 0 <= i < |s| ==> s[i] >= 0.0
  }

  /** No sample is strictly positive (the window is empty or holds only zeros). */
  predicate NoPositive(s: seq<real>)
  {
    forall i :: 0 <= i < |s| ==> s[i] <= 0.0
  }

  /**
   * Number of strictly positive samples, `len(valid_speeds)`. It is typed
   * `real` because it is only ever divided by the real inverse sum: a `nat`
   * converted with `as real` inside those nonlinear real proofs makes them
   * far more expensive to verify.
   */
  function CountPositive(s: seq<real>): (n: real)
    ensures n >= 0.0
  {
    if s == [] then 0.0
    else CountPositive(s[..|s| - 1]) + (if s[|s| - 1] > 0.0 then 1.0 else 0.0)
  }

  /** The count never exceeds the number of samples. */
  lemma {:induction false} CountPositiveAtMostLength(s: seq<real>)
    ensures CountPositive(s) <= |s| as real
  {
    if s != [] {
      CountPositiveAtMostLength(s[..|s| - 1]);
    }
  }

  /** The count is zero exactly when no sample is positive. */
  lemma {:induction false} CountPositiveZero(s: seq<real>)
    ensures CountPositive(s) == 0.0 <==> NoPositive(s)
  {
    if s != [] {
      var p := s[..|s| - 1];
      assert forall i :: 0 <= i < |p| ==> p[i] == s[i];
      CountPositiveZero(p);
    }
  }

  /** Sum of `1 / s` over the strictly positive samples. */
  function SumInverse(s: seq<real>): (t: real)
    ensures t >= 0.0
  {
    if s == [] then 0.0
    else SumInverse(s[..|s| - 1]) + (if s[|s| - 1] > 0.0 then 1.0 / s[|s| - 1] else 0.0)
  }

  /** The inverse sum is zero exactly when no sample is positive. */
  lemma {:induction false} SumInverseZero(s: seq<real>)
    ensures SumInverse(s) == 0.0 <==> NoPositive(s)
  {
    if s != [] {
      var p := s[..|s| - 1];
      assert forall i :: 0 <= i < |p| ==> p[i] == s[i];
      SumInverseZero(p);
      if s[|s| - 1] > 0.0 {
        assert 1.0 / s[|s| - 1] > 0.0;
      }
    }
  }

  /** With a positive sample present the inverse sum is positive, so the mean is defined. */
  lemma SumInversePositive(s: seq<real>)
    requires CountPositive(s) > 0.0
    ensures SumInverse(s) > 0.0
  {
    CountPositiveZero(s);
    SumInverseZero(s);
  }

  /** A zero (or clamped-away) sample changes neither the count nor the inverse sum. */
  lemma ZeroSampleIgnored(s: seq<real>, x: real)
    requires x <= 0.0
    ensures CountPositive(s + [x]) == CountPositive(s)
    ensures SumInverse(s + [x]) == SumInverse(s)
  {
    assert (s + [x])[..|s|] == s;
  }

  lemma SeqMaxIsUpperBound(s: seq<real>)
    requires |s| > 0
    ensures forall i :: 0 <= i < |s| ==> s[i] <= SeqMax(s)
  {
    if |s| > 1 {
      SeqMaxIsUpperBound(s[..|s| - 1]);
    }
  }

  /** `k` added once per strictly positive sample. */
  function PerPositive(s: seq<real>, k: real): real
  {
    if s == [] then 0.0
    else PerPositive(s[..|s| - 1], k) + (if s[|s| - 1] > 0.0 then k else 0.0)
  }

  /** Adding `k` once per positive sample is multiplying the count by `k`. */
  lemma {:induction false} PerPositiveScales(s: seq<real>, k: real)
    ensures PerPositive(s, k) == CountPositive(s) * k
  {
    if s != [] {
      var p := s[..|s| - 1];
      PerPositiveScales(p, k);
      if s[|s| - 1] > 0.0 {
        assert (CountPositive(p) + 1.0) * k == CountPositive(p) * k + k;
      }
    }
  }

  /** Inversion reverses the order of positive reals. */
  lemma InverseAntitone(x: real, y: real)
    requires 0.0 < x <= y
    ensures 1.0 / y <= 1.0 / x
  {
    assert 1.0 / x - 1.0 / y == (y - x) * (1.0 / x) * (1.0 / y);
  }

  /** Every sample at most `hi` has its inverse at least `1 / hi`, so the inverses sum to at least `N / hi`. */
  lemma {:induction false} SumInverseAtLeast(s: seq<real>, hi: real)
    requires hi > 0.0
    requires forall i :: 0 <= i < |s| ==> s[i] <= hi
    ensures PerPositive(s, 1.0 / hi) <= SumInverse(s)
  {
    if s != [] {
      var p, x := s[..|s| - 1], s[|s| - 1];
      assert forall i :: 0 <= i < |p| ==> p[i] == s[i];
      SumInverseAtLeast(p, hi);
      if x > 0.0 {
        InverseAntitone(x, hi);
      }
    }
  }

  /** Every positive sample at least `lo` has its inverse at most `1 / lo`, so the inverses sum to at most `N / lo`. */
  lemma {:induction false} SumInverseAtMost(s: seq<real>, lo: real)
    requires lo > 0.0
    requires forall i :: 0 <= i < |s| && s[i] > 0.0 ==> lo <= s[i]
    ensures SumInverse(s) <= PerPositive(s, 1.0 / lo)
  {
    if s != [] {
      var p, x := s[..|s| - 1], s[|s| - 1];
      assert forall i :: 0 <= i < |p| ==> p[i] == s[i];
      SumInverseAtMost(p, lo);
      if x > 0.0 {
        InverseAntitone(lo, x);
      }
    }
  }

  /** `n / t <= hi` when `n / hi <= w <= t`, for positive `n`, `t` and `hi`. */
  lemma QuotientAtMost(n: real, t: real, hi: real, w: real)
    requires n > 0.0 && t > 0.0 && hi > 0.0
    requires w == n * (1.0 / hi) && w <= t
    ensures n / t <= hi
  {
    assert hi - n / t == (t - n * (1.0 / hi)) * hi / t;
  }

  /** `lo <= n / t` when `t <= w <= n / lo`, for positive `n`, `t` and `lo`. */
  lemma QuotientAtLeast(n: real, t: real, lo: real, w: real)
    requires n > 0.0 && t > 0.0 && lo > 0.0
    requires w == n * (1.0 / lo) && t <= w
    ensures lo <= n / t
  {
    assert n / t - lo == (n * (1.0 / lo) - t) * lo / t;
  }

  /** Harmonic mean of the strictly positive samples: `N / Sum(1/s)`. */
  function HarmonicMean(s: seq<real>): (h: real)
    requires CountPositive(s) > 0.0
    ensures h > 0.0
  {
    SumInversePositive(s);
    CountPositive(s) / SumInverse(s)
  }

  /** The harmonic mean is at most any bound on all the samples. */
  lemma HarmonicMeanAtMost(s: seq<real>, hi: real)
    requires CountPositive(s) > 0.0 && hi > 0.0
    requires forall i :: 0 <= i < |s| ==> s[i] <= hi
    ensures HarmonicMean(s) <= hi
  {
    SumInverseAtLeast(s, hi);
    PerPositiveScales(s, 1.0 / hi);
    MeanAtMostFromInverses(s, hi);
  }

  /** The division step of `HarmonicMeanAtMost`. */
  lemma MeanAtMostFromInverses(s: seq<real>, hi: real)
    requires CountPositive(s) > 0.0 && hi > 0.0
    requires PerPositive(s, 1.0 / hi) <= SumInverse(s)
    requires PerPositive(s, 1.0 / hi) == CountPositive(s) * (1.0 / hi)
    ensures HarmonicMean(s) <= hi
  {
    SumInversePositive(s);
    QuotientAtMost(CountPositive(s), SumInverse(s), hi, PerPositive(s, 1.0 / hi));
  }

  /** The harmonic mean is at least any positive bound below the positive samples. */
  lemma HarmonicMeanAtLeast(s: seq<real>, lo: real)
    requires CountPositive(s) > 0.0 && lo > 0.0
    requires forall i :: 0 <= i < |s| && s[i] > 0.0 ==> lo <= s[i]
    ensures lo <= HarmonicMean(s)
  {
    SumInverseAtMost(s, lo);
    PerPositiveScales(s, 1.0 / lo);
    MeanAtLeastFromInverses(s, lo);
  }

  /** The division step of `HarmonicMeanAtLeast`. */
  lemma MeanAtLeastFromInverses(s: seq<real>, lo: real)
    requires CountPositive(s) > 0.0 && lo > 0.0
    requires SumInverse(s) <= PerPositive(s, 1.0 / lo)
    requires PerPositive(s, 1.0 / lo) == CountPositive(s) * (1.0 / lo)
    ensures lo <= HarmonicMean(s)
  {
    SumInversePositive(s);
    QuotientAtLeast(CountPositive(s), SumInverse(s), lo, PerPositive(s, 1.0 / lo));
  }

  /** The harmonic mean lies between the slowest positive sample and the fastest sample. */
  lemma HarmonicMeanBounds(s: seq<real>, slowest: real)
    requires CountPositive(s) > 0.0
    requires 0.0 < slowest
    requires forall i :: 0 <= i < |s| && s[i] > 0.0 ==> slowest <= s[i]
    ensures slowest <= HarmonicMean(s) <= SeqMax(s)
  {
    SeqMaxIsUpperBound(s);
    CountPositiveZero(s);
    HarmonicMeanAtMost(s, SeqMax(s));
    HarmonicMeanAtLeast(s, slowest);
  }

  /** The speed an ETA is computed with: `min_speed` when no sample is positive. */
  function SpeedUsed(s: seq<real>, minSpeed: real): (v: real)
    ensures v >= minSpeed
    ensures CountPositive(s) == 0.0 ==> v == minSpeed
  {
    if CountPositive(s) == 0.0 then minSpeed else Max(HarmonicMean(s), minSpeed)
  }

  /**
   * With a positive sample, the speed used is never above both the fastest
   * sample and `min_speed`, and never below the slowest positive sample.
   */
  lemma SpeedUsedBounds(s: seq<real>, minSpeed: real, slowest: real)
    requires CountPositive(s) > 0.0
    requires 0.0 < slowest
    requires forall i :: 0 <= i < |s| && s[i] > 0.0 ==> slowest <= s[i]
    ensures slowest <= SpeedUsed(s, minSpeed) <= Max(SeqMax(s), minSpeed)
  {
    HarmonicMeanBounds(s, slowest);
  }

  /** Dividing a non-negative distance by a larger speed gives a smaller time. */
  lemma DivideByLarger(d: real, v: real, m: real)
    requires d >= 0.0 && 0.0 < m <= v
    ensures 0.0 <= d / v <= d / m
  {
    assert d / v * v == d;
    assert d / m * m == d;
    assert d / v * m <= d / v * v;
  }

  class ETAPredictor {
    const window: nat
    /** The deque `_speeds` with `maxlen == window`. */
    var speeds: seq<real>
    /** Every (clamped) sample ever appended, in arrival order. */
    ghost var fed: seq<real>

    /** The deque holds the last `window` samples fed, all non-negative. */
    ghost predicate Valid()
      reads this
    {
      speeds == LastN(fed, window) && AllNonNegative(fed)
    }

    constructor (window: nat := DefaultWindow)
      ensures Valid()
      ensures this.window == window && speeds == [] && fed == []
    {
      this.window := window;
      speeds := [];
      fed := [];
    }

    /** Append a sample, negative speeds clamped to 0; the oldest is evicted when full. */
    method UpdateSpeed(speed: real)
      requires Valid()
      modifies this
      ensures Valid()
      ensures fed == old(fed) + [Max(0.0, speed)]
      ensures speeds == LastN(old(speeds) + [Max(0.0, speed)], window)
    {
      var x := Max(0.0, speed);
      LastNAppend(fed, window, x);
      if |speeds| < window {
        speeds := speeds + [x];
      } else if window > 0 {
        speeds := speeds[1..] + [x];
      }
      fed := fed + [x];
    }

    /** The window's facts: bounded size, non-negative samples. */
    lemma WindowFacts()
      requires Valid()
      ensures |speeds| <= window
      ensures |speeds| == if |fed| <= window then |fed| else window
      ensures forall i :: 0 <= i < |speeds| ==> speeds[i] >= 0.0
    {
    }

    /**
     * `remaining / v` with `v` the clamped harmonic mean of the positive
     * samples (or `min_speed`); division by a zero speed raises.
     */
    method EstimateEtaSeconds(remaining: real, minSpeed: real := DefaultMinSpeed) returns (r: Result<real>)
      ensures r.Ok? <==> SpeedUsed(speeds, minSpeed) != 0.0
      ensures r.Ok? ==> r.value == remaining / SpeedUsed(speeds, minSpeed)
      ensures remaining >= 0.0 && minSpeed > 0.0 ==> r.Ok? && 0.0 <= r.value <= remaining / minSpeed
    {
      var v: real;
      if |speeds| == 0 {
        v := minSpeed;
      } else {
        var count := 0.0;
        var inverseSum := 0.0;
        var i := 0;
        while i < |speeds|
          invariant 0 <= i <= |speeds|
          invariant count == CountPositive(speeds[..i])
          invariant inverseSum == SumInverse(speeds[..i])
        {
          assert speeds[..i + 1][..i] == speeds[..i];
          if speeds[i] > 0.0 {
            count := count + 1.0;
            inverseSum := inverseSum + 1.0 / speeds[i];
          }
          i := i + 1;
        }
        assert speeds[..i] == speeds;
        if count == 0.0 {
          v := minSpeed;
        } else {
          SumInversePositive(speeds);
          v := count / inverseSum;
          v := Max(v, minSpeed);
        }
      }
      if v == 0.0 {
        r := Err("float division by zero");
      } else {
        r := Ok(remaining / v);
        if remaining >= 0.0 && minSpeed > 0.0 {
          DivideByLarger(remaining, v, minSpeed);
        }
      }
    }
  }

  // ---------------------------------------------------------------------
  // RiskHeatmap
  // ---------------------------------------------------------------------

  /** `range(n)` is empty for a negative `n`. */
  function Nat(n: int): nat { if n < 0 then 0 else n }

  /** Seconds elapsed since the last decay, never negative. */
  function Elapsed(lastTs: real, now: real): (dt: real)
    ensures dt >= 0.0
    ensures dt == 0.0 <==> now <= lastTs
  {
    Max(0.0, now - lastTs)
  }

  /** `max(0, 1 - decay_per_sec * dt)`: in [0, 1] for a non-negative rate, 1 when no time passed. */
  function DecayFactor(rate: real, dt: real): (f: real)
    ensures f >= 0.0
    ensures rate >= 0.0 && dt >= 0.0 ==> f <= 1.0
    ensures dt == 0.0 ==> f == 1.0
  {
    Max(0.0, 1.0 - rate * dt)
  }

  /** How many times the cell `(r, c)` is listed. */
  function Occurrences(cells: seq<(int, int)>, r: int, c: int): (n: nat)
    ensures n == 0 <==> (r, c) !in cells
  {
    if cells == [] then 0
    else
      var init := cells[..|cells| - 1];
      assert cells == init + [cells[|cells| - 1]];
      Occurrences(init, r, c) + (if cells[|cells| - 1] == (r, c) then 1 else 0)
  }

  /** What reinforcing with `cells` adds to the cell `(r, c)`: `amount` per listing. */
  function Reinforcement(cells: seq<(int, int)>, amount: real, r: int, c: int): (x: real)
    ensures (r, c) !in cells ==> x == 0.0
    ensures amount >= 0.0 ==> x >= 0.0
  {
    if cells == [] then 0.0
    else
      Reinforcement(cells[..|cells| - 1], amount, r, c)
      + (if cells[|cells| - 1] == (r, c) then amount else 0.0)
  }

  /** A cell is never counted more often than the list is long. */
  lemma {:induction false} OccurrencesAtMostLength(cells: seq<(int, int)>, r: int, c: int)
    ensures Occurrences(cells, r, c) <= |cells|
  {
    if cells != [] {
      OccurrencesAtMostLength(cells[..|cells| - 1], r, c);
    }
  }

  /** The added risk is `amount` times the number of listings. */
  lemma {:induction false} ReinforcementCounts(cells: seq<(int, int)>, amount: real, r: int, c: int)
    ensures Reinforcement(cells, amount, r, c) == amount * Occurrences(cells, r, c) as real
  {
    if cells != [] {
      var init := cells[..|cells| - 1];
      ReinforcementCounts(init, amount, r, c);
      var k, k' := Occurrences(init, r, c), Occurrences(cells, r, c);
      var x, x' := Reinforcement(init, amount, r, c), Reinforcement(cells, amount, r, c);
      if cells[|cells| - 1] == (r, c) {
        assert k' == k + 1 && x' == x + amount;
        CountStep(amount, k, k', x, x');
      } else {
        assert k' == k && x' == x;
      }
    }
  }

  /** One more listing adds `amount` to a total of `amount * k`. */
  lemma CountStep(amount: real, k: nat, k': nat, before: real, after: real)
    requires before == amount * k as real
    requires k' == k + 1 && after == before + amount
    ensures after == amount * k' as real
  {
    assert k' as real == k as real + 1.0;
  }

  class RiskHeatmap {
    const rows: int
    const cols: int
    const decayPerSec: real
    const grid: array2<real>
    var lastTs: real

    /** The grid has `rows` rows of `cols` cells (none for a negative size). */
    ghost predicate Valid()
      reads this
    {
      grid.Length0 == Nat(rows) && grid.Length1 == Nat(cols)
    }

    /** A zero grid, with the decay clock started at `now`. */
    constructor (rows: int, cols: int, now: real, decayPerSec: real := DefaultDecayPerSec)
      ensures Valid() && fresh(grid)
      ensures this.rows == rows && this.cols == cols && this.decayPerSec == decayPerSec
      ensures lastTs == now
      ensures forall i, j :: 0 <= i < grid.Length0 && 0 <= j < grid.Length1 ==> grid[i, j] == 0.0
    {
      this.rows := rows;
      this.cols := cols;
      this.decayPerSec := decayPerSec;
      grid := new real[Nat(rows), Nat(cols)]((i, j) => 0.0);
      lastTs := now;
    }

    /** Scale every cell by the decay factor of the time elapsed since the last call. */
    method ApplyDecay(now: real)
      requires Valid()
      modifies this, grid
      ensures Valid()
      ensures lastTs == now
      ensures forall i, j :: 0 <= i < grid.Length0 && 0 <= j < grid.Length1 ==>
                grid[i, j] == old(grid[i, j]) * DecayFactor(decayPerSec, Elapsed(old(lastTs), now))
      ensures now <= old(lastTs) ==> forall i, j :: 0 <= i < grid.Length0 && 0 <= j < grid.Length1 ==>
                grid[i, j] == old(grid[i, j])
    {
      var dt := Elapsed(lastTs, now);
      lastTs := now;
      if dt <= 0.0 {
        return;
      }
      var factor := DecayFactor(decayPerSec, dt);
      var r := 0;
      while r < rows
        invariant 0 <= r <= grid.Length0
        invariant lastTs == now
        invariant forall i, j :: 0 <= i < r && 0 <= j < grid.Length1 ==> grid[i, j] == old(grid[i, j]) * factor
        invariant forall i, j :: r <= i < grid.Length0 && 0 <= j < grid.Length1 ==> grid[i, j] == old(grid[i, j])
      {
        var c := 0;
        while c < cols
          invariant 0 <= c <= grid.Length1
          invariant lastTs == now
          invariant forall i, j :: 0 <= i < r && 0 <= j < grid.Length1 ==> grid[i, j] == old(grid[i, j]) * factor
          invariant forall j :: 0 <= j < c ==> grid[r, j] == old(grid[r, j]) * factor
          invariant forall i, j :: r <= i < grid.Length0 && 0 <= j < grid.Length1 && (i > r || j >= c) ==>
                      grid[i, j] == old(grid[i, j])
        {
          grid[r, c] := grid[r, c] * factor;
          c := c + 1;
        }
        r := r + 1;
      }
    }

    /**
     * Decay, then add `amount` to each listed in-bounds cell once per
     * occurrence; out-of-bounds pairs are ignored.
     */
    method Reinforce(cells: seq<(int, int)>, now: real, amount: real := DefaultAmount)
      requires Valid()
      modifies this, grid
      ensures Valid()
      ensures lastTs == now
      ensures forall i, j :: 0 <= i < grid.Length0 && 0 <= j < grid.Length1 ==>
                grid[i, j] == old(grid[i, j]) * DecayFactor(decayPerSec, Elapsed(old(lastTs), now))
                              + Reinforcement(cells, amount, i, j)
    {
      ApplyDecay(now);
      label decayed:
      var k := 0;
      while k < |cells|
        invariant 0 <= k <= |cells|
        invariant lastTs == now
        invariant forall i, j :: 0 <= i < grid.Length0 && 0 <= j < grid.Length1 ==>
                    grid[i, j] == old@decayed(grid[i, j]) + Reinforcement(cells[..k], amount, i, j)
      {
        assert cells[..k + 1][..k] == cells[..k];
        var (r, c) := cells[k];
        if 0 <= r < rows && 0 <= c < cols {
          grid[r, c] := grid[r, c] + amount;
        }
        k := k + 1;
      }
      assert cells[..k] == cells;
    }

    /** The decayed grid itself (the same array, not a copy). */
    method Get(now: real) returns (g: array2<real>)
      requires Valid()
      modifies this, grid
      ensures Valid()
      ensures g == grid
      ensures lastTs == now
      ensures forall i, j :: 0 <= i < grid.Length0 && 0 <= j < grid.Length1 ==>
                grid[i, j] == old(grid[i, j]) * DecayFactor(decayPerSec, Elapsed(old(lastTs), now))
    {
      ApplyDecay(now);
      g := grid;
    }
  }
}

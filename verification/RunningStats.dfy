/** The measurement controller of run_test1: readings retried until they fall within a tenth of the
    previous one, a running mean and variance, and readings rolled back when they do not lower the
    coefficient of variation. Doubles are reals; the coefficient is kept squared. */
module RunningStats {

  /** std_dev / mean, squared. 0.0 / 0.0 compares false with everything. */
  datatype Coeff = NaN | Infinite | Sq(v: real)

  function CoeffOf(variance: real, mean: real): Coeff {
    if variance < 0.0 then NaN
    else if mean == 0.0 then (if variance == 0.0 then NaN else Infinite)
    else Sq(variance / (mean * mean))
  }

  /** a >= b on coefficients. */
  predicate NotBelow(a: Coeff, b: Coeff) {
    match (a, b)
    case (NaN, _) => false
    case (_, NaN) => false
    case (Infinite, _) => true
    case (_, Infinite) => false
    case (Sq(x), Sq(y)) => x >= y
  }

  /** a < target, for a positive target given squared. */
  predicate Below(a: Coeff, targetSq: real) {
    a.Sq? && a.v < targetSq
  }

  datatype Stats = Stats(mean: real, variance: real, coeff: Coeff)

  /** The test programs set starting_k = 5, max_k = 20 and coeff_target = 0.05, here squared. */
  datatype Config = Config(startingK: int, maxK: int, targetSq: real)

  const DEFAULT_STATS := Stats(0.0, 0.0, Sq(0.0))

  /** The loop's variables, and the readings that mean and variance currently count. */
  datatype Control = Control(j: nat, n: nat, st: Stats, k: int, stopped: bool, kept: seq<nat>)

  function Started(st: Stats, k: int): Control {
    Control(1, 1, st, k, false, [])
  }

  // ---------- one iteration ----------

  function NextMean(mean: real, n: nat, y: nat): real
    requires n > 0
  {
    (mean * (n - 1) as real + y as real) / n as real
  }

  /** (y - mean) * (y - previous mean). */
  function Cross(y: real, mean: real, prevMean: real): real {
    (y - mean) * (y - prevMean)
  }

  /** k times the old value plus the new contribution, over k + 1. */
  function Blend(k: real, v: real, x: real): real
    requires k + 1.0 != 0.0
  {
    (k * v + x) / (k + 1.0)
  }

  function NextVariance(st: Stats, n: nat, y: nat): real
    requires n > 1
  {
    Blend((n - 2) as real, st.variance, Cross(y as real, NextMean(st.mean, n, y), st.mean))
  }

  /** The statistics with the reading counted in, before any rollback. */
  function Taken(st: Stats, j: nat, n: nat, y: nat): Stats
    requires n > 0 && (j > 2 ==> n > 1)
  {
    var mean := NextMean(st.mean, n, y);
    if j > 2 then
      var variance := NextVariance(st, n, y);
      Stats(mean, variance, CoeffOf(variance, mean))
    else st.(mean := mean)
  }

  predicate RollsBack(cfg: Config, c: Control, y: nat)
    requires c.n > 0 && (c.j > 2 ==> c.n > 1)
  {
    c.j > 2 && c.j > cfg.startingK && NotBelow(Taken(c.st, c.j, c.n, y).coeff, c.st.coeff)
  }

  function Iterate(cfg: Config, c: Control, y: nat): Control
    requires c.n > 0 && (c.j > 2 ==> c.n > 1)
  {
    var back := RollsBack(cfg, c, y);
    var st := if back then c.st else Taken(c.st, c.j, c.n, y);
    var n := if back then c.n - 1 else c.n;
    var kept := if back then c.kept else c.kept + [y];
    if c.j >= cfg.startingK && Below(st.coeff, cfg.targetSq)
    then Control(c.j, n, st, n, true, kept)
    else Control(c.j + 1, n + 1, st, c.k, false, kept)
  }

  /** Iterations completed so far. */
  function Done(c: Control): int {
    if c.stopped then c.j else c.j - 1
  }

  /** n runs one ahead of the count until the loop breaks; the first two readings are always kept. */
  predicate Sound(c: Control) {
    && 0 < c.j
    && c.n == |c.kept| + (if c.stopped then 0 else 1)
    && (Done(c) <= 2 ==> |c.kept| == Done(c))
    && (Done(c) > 2 ==> 2 <= |c.kept| <= Done(c))
  }

  /** Iterations over completed readings, until the loop breaks, reaches max_k, or runs out of them. */
  function Run(cfg: Config, c: Control, ys: seq<nat>): Control
    requires Sound(c)
    ensures Sound(Run(cfg, c, ys))
    decreases |ys|
  {
    if c.stopped || c.j > cfg.maxK || ys == [] then c else Run(cfg, Iterate(cfg, c, ys[0]), ys[1..])
  }

  /** Unless it breaks, the loop goes through max_k readings, or all there are. */
  lemma {:induction false} RunLength(cfg: Config, c: Control, ys: seq<nat>)
    requires Sound(c) && !c.stopped && c.j <= cfg.maxK + 1
    ensures var d := Run(cfg, c, ys);
            && d.j <= cfg.maxK + 1
            && (!d.stopped ==> d.j == if c.j + |ys| <= cfg.maxK + 1 then c.j + |ys| else cfg.maxK + 1)
    decreases |ys|
  {
    if c.j <= cfg.maxK && ys != [] {
      var e := Iterate(cfg, c, ys[0]);
      if e.stopped {
        assert Run(cfg, e, ys[1..]) == e;
      } else {
        RunLength(cfg, e, ys[1..]);
      }
    }
  }

  // ---------- the retry loop ----------

  /** y > prev_y * 1.1 sends the reading back; the first reading is its own bound. */
  predicate Retried(prev: int, y: nat) {
    prev != -1 && 10 * y > 11 * prev
  }

  /** The readings that complete the do-while, out of all the raw ones. */
  function Completed(prev: int, raw: seq<nat>): seq<nat>
    decreases |raw|
  {
    if raw == [] then []
    else if Retried(prev, raw[0]) then Completed(prev, raw[1..])
    else [raw[0]] + Completed(raw[0], raw[1..])
  }

  /** Which readings complete: the first, and every other that is at most a tenth above the last one
      that did. */
  lemma {:induction false} OneMoreReading(prev: int, raw: seq<nat>, y: nat)
    ensures var ys := Completed(prev, raw);
            var last := if ys != [] then ys[|ys| - 1] else prev;
            Completed(prev, raw + [y]) == if last == -1 || 10 * y <= 11 * last then ys + [y] else ys
    decreases |raw|
  {
    if raw == [] {
      assert (raw + [y])[1..] == [] && (raw + [y])[0] == y;
    } else {
      assert (raw + [y])[0] == raw[0] && (raw + [y])[1..] == raw[1..] + [y];
      OneMoreReading(if Retried(prev, raw[0]) then prev else raw[0], raw[1..], y);
    }
  }

  function Pow(b: nat, e: nat): nat
    decreases e
  {
    if e == 0 then 1 else b * Pow(b, e - 1)
  }

  lemma {:induction false} CompletedSteps(prev: int, raw: seq<nat>)
    ensures var ys := Completed(prev, raw);
            && (ys != [] && prev != -1 ==> 10 * ys[0] <= 11 * prev)
            && forall t :: 0 <= t < |ys| - 1 ==> 10 * ys[t + 1] <= 11 * ys[t]
    decreases |raw|
  {
    if raw != [] {
      if Retried(prev, raw[0]) {
        CompletedSteps(prev, raw[1..]);
      } else {
        CompletedSteps(raw[0], raw[1..]);
        var rest := Completed(raw[0], raw[1..]);
        assert Completed(prev, raw) == [raw[0]] + rest;
      }
    }
  }

  /** Over a whole run, completed readings grow by at most a tenth per step, including those the
      statistics later roll back. */
  lemma {:induction false} RetryBound(raw: seq<nat>, t: nat)
    requires t < |Completed(-1, raw)|
    ensures var ys := Completed(-1, raw); Pow(10, t) * ys[t] <= Pow(11, t) * ys[0]
    decreases t
  {
    var ys := Completed(-1, raw);
    if t > 0 {
      RetryBound(raw, t - 1);
      CompletedSteps(-1, raw);
      assert 10 * ys[(t - 1) + 1] <= 11 * ys[t - 1];
      RatioStep(Pow(10, t - 1), Pow(11, t - 1), ys[t - 1], ys[t], ys[0]);
    }
  }

  lemma RatioStep(p: nat, q: nat, a: nat, b: nat, c: nat)
    requires p * a <= q * c && 10 * b <= 11 * a
    ensures (10 * p) * b <= (11 * q) * c
  {
    assert p * (10 * b) <= p * (11 * a);
    assert p * (11 * a) == 11 * (p * a);
    assert p * (10 * b) == (10 * p) * b;
    assert 11 * (q * c) == (11 * q) * c;
  }

  // ---------- closed form ----------

  function Sum(ys: seq<nat>): real {
    if ys == [] then 0.0 else Sum(ys[..|ys| - 1]) + ys[|ys| - 1] as real
  }

  function SumOfSquares(ys: seq<nat>): real {
    if ys == [] then 0.0
    else SumOfSquares(ys[..|ys| - 1]) + ys[|ys| - 1] as real * ys[|ys| - 1] as real
  }

  function Deviation(y: real, m: real): real {
    (y - m) * (y - m)
  }

  /** Sum of squared deviations about m. */
  function Spread(ys: seq<nat>, m: real): real {
    if ys == [] then 0.0 else Spread(ys[..|ys| - 1], m) + Deviation(ys[|ys| - 1] as real, m)
  }

  /** What the three totals are of: every reading, once. */
  lemma {:induction false} TotalsAdd(xs: seq<nat>, ys: seq<nat>, m: real)
    ensures Sum(xs + ys) == Sum(xs) + Sum(ys) && Spread(xs + ys, m) == Spread(xs, m) + Spread(ys, m)
    ensures SumOfSquares(xs + ys) == SumOfSquares(xs) + SumOfSquares(ys)
    decreases |ys|
  {
    if ys == [] {
      assert xs + ys == xs;
    } else {
      TotalsAdd(xs, ys[..|ys| - 1], m);
      assert (xs + ys)[..|xs + ys| - 1] == xs + ys[..|ys| - 1];
    }
  }

  lemma TotalsOfOne(y: nat, m: real)
    ensures Sum([y]) == y as real && SumOfSquares([y]) == y as real * y as real
    ensures Spread([y], m) == (y as real - m) * (y as real - m)
  {
    assert [y][..0] == [];
    assert Sum([]) == 0.0 && SumOfSquares([]) == 0.0 && Spread([], m) == 0.0;
  }

  /** What the skipped update at the second reading leaves out: (y2 - y1)^2 / 2. */
  function Missed(ys: seq<nat>): real
    requires |ys| >= 2
  {
    Deviation(ys[1] as real, ys[0] as real) / 2.0
  }

  function Scaled(k: real, v: real): real {
    k * v
  }

  /** mean and variance in terms of the readings kept; v0 is the variance the loop started with. */
  ghost predicate ClosedForm(ys: seq<nat>, mean: real, variance: real, v0: real) {
    && (ys != [] ==> Scaled(|ys| as real, mean) == Sum(ys))
    && (|ys| < 2 ==> variance == v0)
    && (|ys| >= 2 ==> Scaled((|ys| - 1) as real, variance) == Spread(ys, mean) - Missed(ys) + v0)
  }

  ghost predicate Closed(c: Control, v0: real) {
    ClosedForm(c.kept, c.st.mean, c.st.variance, v0)
  }

  /** The spread about m of n readings with total t and sum of squares q. */
  function Moments(n: real, t: real, q: real, m: real): real {
    q - 2.0 * m * t + n * m * m
  }

  lemma MomentStep(n: real, t: real, q: real, m: real, y: real, n': real, t': real, q': real)
    requires n' == n + 1.0 && t' == t + y && q' == q + y * y
    ensures Moments(n', t', q', m) == Moments(n, t, q, m) + Deviation(y, m)
  {
    assert m * t' == m * t + m * y;
    assert n' * m * m == n * m * m + m * m;
  }

  lemma {:induction false} SpreadMoments(ys: seq<nat>, m: real)
    ensures Spread(ys, m) == Moments(|ys| as real, Sum(ys), SumOfSquares(ys), m)
    decreases |ys|
  {
    if ys != [] {
      var front, y := ys[..|ys| - 1], ys[|ys| - 1] as real;
      SpreadMoments(front, m);
      MomentStep(|front| as real, Sum(front), SumOfSquares(front), m, y,
                 |ys| as real, Sum(ys), SumOfSquares(ys));
    }
  }

  /** Moving from mean m of n readings with total t to mean m' of one more. */
  lemma MovedMean(n: real, t: real, q: real, m: real, y: real, n': real, t': real, q': real, m': real)
    requires n' == n + 1.0 && t' == t + y && q' == q + y * y
    requires Scaled(n, m) == t && Scaled(n', m') == t'
    ensures Moments(n', t', q', m') == Moments(n, t, q, m) + Cross(y, m', m)
  {
    var d := m' - m;
    var e := n * d;
    assert y - m' == e && y - m == e + d;
    MomentStep(n, t, q, m', y, n', t', q');
    assert Deviation(y, m') == e * e && Cross(y, m', m) == e * e + e * d;
    assert Moments(n, t, q, m') == Moments(n, t, q, m) + e * d by {
      assert m' * t == m * t + d * t;
      assert d * t == e * m;
      assert n * m' * m' == n * m * m + 2.0 * (e * m) + e * d;
    }
  }

  lemma DivideBack(a: real, b: real)
    requires b != 0.0
    ensures b * (a / b) == a
  {
  }

  lemma BlendBack(k: real, v: real, x: real)
    requires k + 1.0 != 0.0
    ensures Scaled(k + 1.0, Blend(k, v, x)) == Scaled(k, v) + x
  {
    DivideBack(k * v + x, k + 1.0);
  }

  lemma MeanBack(m: real, n: nat, y: nat)
    requires n > 0
    ensures Scaled(n as real, NextMean(m, n, y)) == Scaled((n - 1) as real, m) + y as real
  {
    DivideBack(m * (n - 1) as real + y as real, n as real);
  }

  /** One more reading in every total. */
  lemma OneMore(ys: seq<nat>, y: nat)
    ensures |ys + [y]| as real == |ys| as real + 1.0
    ensures Sum(ys + [y]) == Sum(ys) + y as real
    ensures SumOfSquares(ys + [y]) == SumOfSquares(ys) + y as real * y as real
  {
    assert (ys + [y])[..|ys|] == ys;
  }

  lemma SpreadOfOneMore(ys: seq<nat>, y: nat, m: real, m': real)
    requires Scaled(|ys| as real, m) == Sum(ys) && Scaled(|ys + [y]| as real, m') == Sum(ys + [y])
    ensures Spread(ys + [y], m') == Spread(ys, m) + Cross(y as real, m', m)
  {
    OneMore(ys, y);
    SpreadMoments(ys, m);
    SpreadMoments(ys + [y], m');
    MovedMean(|ys| as real, Sum(ys), SumOfSquares(ys), m, y as real,
              |ys + [y]| as real, Sum(ys + [y]), SumOfSquares(ys + [y]), m');
  }

  lemma SpreadOfTwo(a: nat, b: nat, m: real)
    requires 2.0 * m == a as real + b as real
    ensures Spread([a, b], m) == Missed([a, b])
  {
    assert [a, b][..1] == [a] && [a][..0] == [];
    assert Spread([a], m) == Spread([], m) + Deviation(a as real, m);
    var h := b as real - m;
    assert Deviation(a as real, m) == h * h && Deviation(b as real, m) == h * h;
    assert Deviation(b as real, a as real) == (2.0 * h) * (2.0 * h);
  }

  lemma ClosedFormOfTwo(ys: seq<nat>, m: real, y: nat)
    requires |ys| == 1 && Scaled(1.0, m) == Sum(ys)
    ensures Spread(ys + [y], NextMean(m, 2, y)) == Missed(ys + [y])
  {
    MeanBack(m, 2, y);
    assert ys + [y] == [ys[0], y] && ys == [ys[0]] && ys[..0] == [];
    assert Sum(ys) == Sum([]) + ys[0] as real;
    SpreadOfTwo(ys[0], y, NextMean(m, 2, y));
  }

  lemma ClosedFormOfMore(ys: seq<nat>, st: Stats, y: nat, v0: real)
    requires |ys| >= 2 && Scaled(|ys| as real, st.mean) == Sum(ys)
    requires Scaled((|ys| - 1) as real, st.variance) == Spread(ys, st.mean) - Missed(ys) + v0
    ensures Scaled(|ys| as real, NextVariance(st, |ys| + 1, y))
            == Spread(ys + [y], NextMean(st.mean, |ys| + 1, y)) - Missed(ys + [y]) + v0
  {
    var n, m' := |ys| + 1, NextMean(st.mean, |ys| + 1, y);
    MeanBack(st.mean, n, y);
    OneMore(ys, y);
    SpreadOfOneMore(ys, y, st.mean, m');
    BlendBack((n - 2) as real, st.variance, Cross(y as real, m', st.mean));
    assert (n - 2) as real + 1.0 == |ys| as real;
    assert (ys + [y])[0] == ys[0] && (ys + [y])[1] == ys[1];
  }

  lemma ClosedFormTaken(ys: seq<nat>, st: Stats, j: nat, y: nat, v0: real)
    requires ClosedForm(ys, st.mean, st.variance, v0) && (j > 2 <==> |ys| >= 2)
    ensures var next := Taken(st, j, |ys| + 1, y); ClosedForm(ys + [y], next.mean, next.variance, v0)
  {
    MeanBack(st.mean, |ys| + 1, y);
    OneMore(ys, y);
    if |ys| == 1 {
      ClosedFormOfTwo(ys, st.mean, y);
    } else if |ys| >= 2 {
      ClosedFormOfMore(ys, st, y, v0);
    }
  }

  lemma ClosedFormStep(cfg: Config, c: Control, y: nat, v0: real)
    requires Sound(c) && !c.stopped && Closed(c, v0)
    ensures Closed(Iterate(cfg, c, y), v0)
  {
    ClosedFormTaken(c.kept, c.st, c.j, y, v0);
  }

  /** Whatever mix of readings is kept and rolled back, the mean times the number kept is their sum,
      and (number - 1) * variance is their spread about the mean, less (y2 - y1)^2 / 2, plus the
      variance at entry. */
  lemma {:induction false} RunClosedForm(cfg: Config, c: Control, ys: seq<nat>, v0: real)
    requires Sound(c) && Closed(c, v0)
    ensures Closed(Run(cfg, c, ys), v0)
    decreases |ys|
  {
    if !c.stopped && c.j <= cfg.maxK && ys != [] {
      ClosedFormStep(cfg, c, ys[0], v0);
      RunClosedForm(cfg, Iterate(cfg, c, ys[0]), ys[1..], v0);
    }
  }

  // ---------- signs ----------

  lemma {:induction false} SpreadCoversTwo(ys: seq<nat>, m: real)
    requires |ys| >= 2
    ensures Spread(ys, m) >= Deviation(ys[0] as real, m) + Deviation(ys[1] as real, m)
    decreases |ys|
  {
    if |ys| == 2 {
      assert ys[..1] == [ys[0]] && [ys[0]][..0] == [];
      assert Spread([ys[0]], m) == Spread([], m) + Deviation(ys[0] as real, m);
    } else {
      SpreadCoversTwo(ys[..|ys| - 1], m);
      SquareSign(ys[|ys| - 1] as real, m);
    }
  }

  lemma SquareSign(y: real, m: real)
    ensures Deviation(y, m) >= 0.0
  {
  }

  lemma TwoDeviations(a: real, b: real, m: real)
    ensures Deviation(a, m) + Deviation(b, m) >= Deviation(b, a) / 2.0
  {
    var p, q := a - m, b - m;
    assert Deviation(b, a) == p * p - 2.0 * (p * q) + q * q;
    assert (p + q) * (p + q) == p * p + 2.0 * (p * q) + q * q;
    SquareSign(p, -q);
    assert (p + q) * (p + q) >= 0.0;
  }

  lemma SignOfFactor(k: real, v: real)
    requires k > 0.0 && Scaled(k, v) >= 0.0
    ensures v >= 0.0 && (Scaled(k, v) > 0.0 ==> v > 0.0)
  {
  }

  /** The variance is never negative, although its first update is skipped. */
  lemma VarianceNotNegative(ys: seq<nat>, mean: real, variance: real, v0: real)
    requires ClosedForm(ys, mean, variance, v0) && v0 >= 0.0
    ensures variance >= 0.0
  {
    if |ys| >= 2 {
      SpreadCoversTwo(ys, mean);
      TwoDeviations(ys[0] as real, ys[1] as real, mean);
      SignOfFactor((|ys| - 1) as real, variance);
    }
  }

  lemma {:induction false} SumCoversFirst(ys: seq<nat>)
    requires ys != []
    ensures Sum(ys) >= ys[0] as real
    decreases |ys|
  {
    if |ys| == 1 {
      assert ys[..0] == [];
    } else {
      SumCoversFirst(ys[..|ys| - 1]);
    }
  }

  lemma MeanPositive(ys: seq<nat>, mean: real)
    requires ys != [] && ys[0] > 0 && Scaled(|ys| as real, mean) == Sum(ys)
    ensures mean > 0.0
  {
    SumCoversFirst(ys);
    SignOfFactor(|ys| as real, mean);
  }

  /** Once a positive first reading and a second one are in, every coefficient computed is a number. */
  lemma CoefficientIsNumber(ys: seq<nat>, mean: real, variance: real, v0: real)
    requires ClosedForm(ys, mean, variance, v0) && v0 >= 0.0 && ys != [] && ys[0] > 0
    ensures CoeffOf(variance, mean).Sq?
  {
    VarianceNotNegative(ys, mean, variance, v0);
    MeanPositive(ys, mean);
  }

  // ---------- acceptance ----------

  /** The state in which the acceptance rule is at work. */
  ghost predicate Judging(cfg: Config, c: Control, v0: real) {
    && Sound(c) && Closed(c, v0) && v0 >= 0.0 && c.st.coeff.Sq?
    && c.j > 2 && c.j > cfg.startingK && c.kept[0] > 0
  }

  lemma JudgeOne(cfg: Config, c: Control, y: nat, v0: real)
    requires Judging(cfg, c, v0) && !c.stopped
    ensures var d := Iterate(cfg, c, y);
            && (!d.stopped ==> Judging(cfg, d, v0)) && d.st.coeff.Sq?
            && if RollsBack(cfg, c, y) then d.kept == c.kept && d.st == c.st
               else d.kept == c.kept + [y] && d.st.coeff.v < c.st.coeff.v
  {
    ClosedFormStep(cfg, c, y, v0);
    ClosedFormTaken(c.kept, c.st, c.j, y, v0);
    var next := Taken(c.st, c.j, c.n, y);
    CoefficientIsNumber(c.kept + [y], next.mean, next.variance, v0);
  }

  /** Over any stretch of readings past starting_k, either none was kept and mean, variance and
      coefficient are exactly what they were, or the coefficient is strictly lower. */
  lemma {:induction false} CoefficientFalls(cfg: Config, c: Control, ys: seq<nat>, v0: real)
    requires Judging(cfg, c, v0)
    ensures var d := Run(cfg, c, ys);
            && c.kept <= d.kept && d.st.coeff.Sq?
            && if d.kept == c.kept then d.st == c.st else d.st.coeff.v < c.st.coeff.v
    decreases |ys|
  {
    if !c.stopped && c.j <= cfg.maxK && ys != [] {
      JudgeOne(cfg, c, ys[0], v0);
      var d := Iterate(cfg, c, ys[0]);
      if !d.stopped {
        CoefficientFalls(cfg, d, ys[1..], v0);
      }
    }
  }

  /** The coefficient is a number, and the readings started with a positive one. */
  ghost predicate Numeric(c: Control, v0: real) {
    && Sound(c) && Closed(c, v0) && v0 >= 0.0 && c.st.coeff.Sq?
    && (c.kept != [] ==> c.kept[0] > 0)
  }

  lemma NumericStep(cfg: Config, c: Control, y: nat, v0: real)
    requires Numeric(c, v0) && !c.stopped && (c.kept == [] ==> y > 0)
    ensures Numeric(Iterate(cfg, c, y), v0)
  {
    ClosedFormStep(cfg, c, y, v0);
    ClosedFormTaken(c.kept, c.st, c.j, y, v0);
    var next := Taken(c.st, c.j, c.n, y);
    assert (c.kept + [y])[0] > 0;
    CoefficientIsNumber(c.kept + [y], next.mean, next.variance, v0);
  }

  lemma {:induction false} NumericRun(cfg: Config, c: Control, ys: seq<nat>, v0: real)
    requires Numeric(c, v0) && (c.kept == [] && ys != [] ==> ys[0] > 0)
    ensures Numeric(Run(cfg, c, ys), v0)
    decreases |ys|
  {
    if !c.stopped && c.j <= cfg.maxK && ys != [] {
      NumericStep(cfg, c, ys[0], v0);
      NumericRun(cfg, Iterate(cfg, c, ys[0]), ys[1..], v0);
    }
  }

  /** From the default statistics, after any readings of which the first is positive: past
      starting_k, a reading is either kept and lowers the coefficient, or leaves no trace. */
  lemma KeptLowersCoefficient(cfg: Config, ys: seq<nat>, y: nat)
    requires ys != [] && ys[0] > 0
    ensures var c := Run(cfg, Started(DEFAULT_STATS, cfg.startingK), ys);
            !c.stopped && c.j > 2 && c.j > cfg.startingK ==>
              var d := Iterate(cfg, c, y);
              if d.kept == c.kept + [y] then c.st.coeff.Sq? && d.st.coeff.Sq? && d.st.coeff.v < c.st.coeff.v
              else d.kept == c.kept && d.st == c.st
  {
    var c := Run(cfg, Started(DEFAULT_STATS, cfg.startingK), ys);
    NumericRun(cfg, Started(DEFAULT_STATS, cfg.startingK), ys, 0.0);
    if !c.stopped && c.j > 2 && c.j > cfg.startingK {
      JudgeOne(cfg, c, y, 0.0);
    }
  }

  // ---------- which readings are kept ----------

  function MeanOf(ys: seq<nat>): real
    requires ys != []
  {
    Sum(ys) / |ys| as real
  }

  /** The variance in closed form, from the readings it counts. */
  function VarianceOf(ys: seq<nat>): real {
    if |ys| < 2 then 0.0 else (Spread(ys, MeanOf(ys)) - Missed(ys)) / (|ys| - 1) as real
  }

  /** Only zeros so far, where 0 / 0 takes the place of the coefficient. */
  predicate Undefined(ys: seq<nat>) {
    |ys| > 2 && Sum(ys) == 0.0
  }

  /** Variance over squared mean. Up to the second reading the coefficient is the default. */
  function CoefficientOf(ys: seq<nat>): real
    requires !Undefined(ys)
  {
    if |ys| <= 2 then 0.0
    else
      MeanNotZero(ys);
      VarianceOf(ys) / (MeanOf(ys) * MeanOf(ys))
  }

  /** One more reading lowers the coefficient, or there is nothing to compare. */
  predicate Improves(ys: seq<nat>, y: nat) {
    Undefined(ys) || Undefined(ys + [y]) || CoefficientOf(ys + [y]) < CoefficientOf(ys)
  }

  predicate MeetsTarget(ys: seq<nat>, targetSq: real) {
    !Undefined(ys) && CoefficientOf(ys) < targetSq
  }

  /** The readings that count in the end, chosen one by one, and whether the target was met: past
      starting_k a reading counts if and only if it improves on those before it. */
  function Chosen(cfg: Config, kept: seq<nat>, j: nat, ys: seq<nat>): (seq<nat>, bool)
    decreases |ys|
  {
    if ys == [] || j > cfg.maxK then (kept, false)
    else
      var next := if j <= 2 || j <= cfg.startingK || Improves(kept, ys[0]) then kept + [ys[0]] else kept;
      if j >= cfg.startingK && MeetsTarget(next, cfg.targetSq) then (next, true)
      else Chosen(cfg, next, j + 1, ys[1..])
  }

  lemma {:induction false} SumNotNegative(ys: seq<nat>)
    ensures Sum(ys) >= 0.0
    decreases |ys|
  {
    if ys != [] {
      SumNotNegative(ys[..|ys| - 1]);
    }
  }

  lemma {:induction false} ZeroSpread(ys: seq<nat>)
    requires Sum(ys) == 0.0
    ensures Spread(ys, 0.0) == 0.0
    ensures forall k :: 0 <= k < |ys| ==> ys[k] == 0
    decreases |ys|
  {
    if ys != [] {
      SumNotNegative(ys[..|ys| - 1]);
      ZeroSpread(ys[..|ys| - 1]);
    }
  }

  lemma DivideOut(n: real, m: real, t: real)
    requires n > 0.0 && Scaled(n, m) == t
    ensures m == t / n
  {
  }

  /** mean and variance are determined by the readings they count. */
  lemma ClosedFormIs(ys: seq<nat>, mean: real, variance: real)
    requires ClosedForm(ys, mean, variance, 0.0)
    ensures ys != [] ==> mean == MeanOf(ys)
    ensures variance == VarianceOf(ys)
  {
    if ys != [] {
      DivideOut(|ys| as real, mean, Sum(ys));
    }
    if |ys| >= 2 {
      DivideOut((|ys| - 1) as real, variance, Spread(ys, mean) - Missed(ys));
    }
  }

  lemma MeanNotZero(ys: seq<nat>)
    requires ys != []
    ensures MeanOf(ys) == 0.0 <==> Sum(ys) == 0.0
    ensures MeanOf(ys) * MeanOf(ys) == 0.0 <==> Sum(ys) == 0.0
  {
    var m := MeanOf(ys);
    DivideBack(Sum(ys), |ys| as real);
    ZeroProduct(|ys| as real, m);
    ZeroProduct(m, m);
  }

  lemma ZeroProduct(a: real, b: real)
    ensures a * b == 0.0 <==> a == 0.0 || b == 0.0
  {
  }

  lemma ZeroVariance(ys: seq<nat>)
    requires |ys| >= 2 && Sum(ys) == 0.0
    ensures VarianceOf(ys) == 0.0
  {
    MeanNotZero(ys);
    ZeroSpread(ys);
  }

  /** And so is the coefficient computed from them. */
  lemma CoeffIs(ys: seq<nat>, mean: real, variance: real)
    requires |ys| > 2 && ClosedForm(ys, mean, variance, 0.0)
    ensures CoeffOf(variance, mean) == if Undefined(ys) then NaN else Sq(CoefficientOf(ys))
  {
    VarianceNotNegative(ys, mean, variance, 0.0);
    ClosedFormIs(ys, mean, variance);
    MeanNotZero(ys);
    if Undefined(ys) {
      ZeroVariance(ys);
    }
  }

  /** The statistics are the closed form of the readings kept, the coefficient included. */
  ghost predicate Determined(c: Control) {
    && Sound(c) && Closed(c, 0.0)
    && c.st.coeff == if Undefined(c.kept) then NaN else Sq(CoefficientOf(c.kept))
  }

  lemma TakenIsDetermined(c: Control, y: nat)
    requires Determined(c) && !c.stopped
    ensures var next, ys := Taken(c.st, c.j, c.n, y), c.kept + [y];
            && ClosedForm(ys, next.mean, next.variance, 0.0)
            && next.coeff == if Undefined(ys) then NaN else Sq(CoefficientOf(ys))
  {
    var next, ys := Taken(c.st, c.j, c.n, y), c.kept + [y];
    ClosedFormTaken(c.kept, c.st, c.j, y, 0.0);
    ClosedFormIs(ys, next.mean, next.variance);
    if c.j > 2 {
      CoeffIs(ys, next.mean, next.variance);
    }
  }

  /** In terms of the readings alone: past starting_k one is kept if and only if it improves. */
  lemma KeptIff(cfg: Config, c: Control, y: nat)
    requires Determined(c) && !c.stopped
    ensures Determined(Iterate(cfg, c, y))
    ensures Iterate(cfg, c, y).kept ==
            if c.j <= 2 || c.j <= cfg.startingK || Improves(c.kept, y) then c.kept + [y] else c.kept
    ensures Iterate(cfg, c, y).stopped <==>
            c.j >= cfg.startingK && MeetsTarget(Iterate(cfg, c, y).kept, cfg.targetSq)
  {
    TakenIsDetermined(c, y);
  }

  lemma {:induction false} RunChooses(cfg: Config, c: Control, ys: seq<nat>)
    requires Determined(c) && !c.stopped
    ensures Determined(Run(cfg, c, ys))
    ensures (Run(cfg, c, ys).kept, Run(cfg, c, ys).stopped) == Chosen(cfg, c.kept, c.j, ys)
    decreases |ys|
  {
    if c.j <= cfg.maxK && ys != [] {
      KeptIff(cfg, c, ys[0]);
      var d := Iterate(cfg, c, ys[0]);
      if d.stopped {
        assert Run(cfg, d, ys[1..]) == d;
      } else {
        RunChooses(cfg, d, ys[1..]);
      }
    }
  }

  // ---------- the early exit ----------

  /** Past starting_k, the coefficient has been compared with the target and was not below it. */
  predicate NotYetBelow(cfg: Config, c: Control) {
    c.j > 2 && c.j > cfg.startingK && !c.stopped ==> !Below(c.st.coeff, cfg.targetSq)
  }

  /** The break is taken only on a reading that was just kept, with k the number of readings behind
      mean and variance; if it is never taken, k keeps the value it had. */
  lemma {:induction false} EarlyExit(cfg: Config, c: Control, ys: seq<nat>)
    requires Sound(c) && !c.stopped && NotYetBelow(cfg, c)
    ensures var d := Run(cfg, c, ys);
            if d.stopped then
              && d.k == |d.kept| && Below(d.st.coeff, cfg.targetSq) && d.j >= cfg.startingK
              && exists p :: 0 <= p < |ys| && LastKept(d.kept, ys[p]) && KeptAt(cfg, c, ys, p)
            else d.k == c.k
    decreases |ys|
  {
    if c.j <= cfg.maxK && ys != [] {
      var e := Iterate(cfg, c, ys[0]);
      if e.stopped {
        StopsKept(cfg, c, ys);
        assert Run(cfg, e, ys[1..]) == e;
      } else {
        EarlyExit(cfg, e, ys[1..]);
        var d := Run(cfg, e, ys[1..]);
        if d.stopped {
          var p :| 0 <= p < |ys[1..]| && LastKept(d.kept, ys[1..][p]) && KeptAt(cfg, e, ys[1..], p);
          RunPrefix(cfg, c, ys, p);
          assert KeptAt(cfg, c, ys, p + 1);
        }
      }
    }
  }

  predicate LastKept(kept: seq<nat>, y: nat) {
    kept != [] && kept[|kept| - 1] == y
  }

  /** A break in this very iteration is on a kept reading: a rollback leaves the coefficient where
      it was, not below the target. */
  lemma StopsKept(cfg: Config, c: Control, ys: seq<nat>)
    requires Sound(c) && !c.stopped && NotYetBelow(cfg, c) && c.j <= cfg.maxK && ys != []
    requires Iterate(cfg, c, ys[0]).stopped
    ensures LastKept(Iterate(cfg, c, ys[0]).kept, ys[0]) && KeptAt(cfg, c, ys, 0)
  {
    assert ys[..0] == [] && Run(cfg, c, ys[..0]) == c;
  }

  /** The run comes to reading p, and that reading is not rolled back. */
  ghost predicate KeptAt(cfg: Config, c: Control, ys: seq<nat>, p: nat)
    requires Sound(c) && p < |ys|
  {
    var b := Run(cfg, c, ys[..p]);
    !b.stopped && b.j <= cfg.maxK && !RollsBack(cfg, b, ys[p])
  }

  lemma RunPrefix(cfg: Config, c: Control, ys: seq<nat>, p: nat)
    requires Sound(c) && !c.stopped && c.j <= cfg.maxK && p < |ys| - 1
    ensures Run(cfg, c, ys[..p + 1]) == Run(cfg, Iterate(cfg, c, ys[0]), ys[1..][..p])
  {
    assert ys[..p + 1][1..] == ys[1..][..p];
  }

  /** A whole run from the default statistics, over any raw readings. */
  lemma WholeRun(cfg: Config, raw: seq<nat>)
    ensures var c := Run(cfg, Started(DEFAULT_STATS, cfg.startingK), Completed(-1, raw));
            && Closed(c, 0.0) && c.st.variance >= 0.0
            && (|c.kept| >= 2 ==>
                  Scaled((|c.kept| - 1) as real, c.st.variance) == Spread(c.kept, c.st.mean) - Missed(c.kept))
            && (if c.stopped then c.k == |c.kept| && Below(c.st.coeff, cfg.targetSq) else c.k == cfg.startingK)
  {
    var c0, ys := Started(DEFAULT_STATS, cfg.startingK), Completed(-1, raw);
    RunClosedForm(cfg, c0, ys, 0.0);
    EarlyExit(cfg, c0, ys);
    var c := Run(cfg, c0, ys);
    VarianceNotNegative(c.kept, c.st.mean, c.st.variance, 0.0);
  }

  /** kept comes from ys by leaving readings out. */
  predicate Selects(kept: seq<nat>, ys: seq<nat>)
    decreases |ys|
  {
    if ys == [] then kept == []
    else
      || Selects(kept, ys[..|ys| - 1])
      || (kept != [] && kept[|kept| - 1] == ys[|ys| - 1] && Selects(kept[..|kept| - 1], ys[..|ys| - 1]))
  }

  lemma {:induction false} SelectsFewer(kept: seq<nat>, ys: seq<nat>, more: seq<nat>)
    requires Selects(kept, ys)
    ensures Selects(kept, ys + more)
    decreases |more|
  {
    if more == [] {
      assert ys + more == ys;
    } else {
      SelectsFewer(kept, ys, more[..|more| - 1]);
      assert (ys + more)[..|ys + more| - 1] == ys + more[..|more| - 1];
    }
  }

  lemma {:induction false} SelectsAll(ys: seq<nat>)
    ensures Selects(ys, ys)
    decreases |ys|
  {
    if ys != [] {
      SelectsAll(ys[..|ys| - 1]);
    }
  }

  lemma SelectsOneMore(kept: seq<nat>, ys: seq<nat>, y: nat)
    requires Selects(kept, ys)
    ensures Selects(kept + [y], ys + [y]) && Selects(kept, ys + [y])
  {
    assert (ys + [y])[..|ys|] == ys && (kept + [y])[..|kept|] == kept;
  }

  /** The readings counted are a selection, in order, of those that were counted before and those read. */
  lemma {:induction false} RunSelects(cfg: Config, c: Control, ys: seq<nat>)
    requires Sound(c)
    ensures Selects(Run(cfg, c, ys).kept, c.kept + ys)
    decreases |ys|
  {
    SelectsAll(c.kept);
    RunSelectsFrom(cfg, c, c.kept, ys);
  }

  lemma {:induction false} RunSelectsFrom(cfg: Config, c: Control, past: seq<nat>, ys: seq<nat>)
    requires Sound(c) && Selects(c.kept, past)
    ensures Selects(Run(cfg, c, ys).kept, past + ys)
    decreases |ys|
  {
    if c.stopped || c.j > cfg.maxK || ys == [] {
      SelectsFewer(c.kept, past, ys);
    } else {
      SelectsOneMore(c.kept, past, ys[0]);
      RunSelectsFrom(cfg, Iterate(cfg, c, ys[0]), past + [ys[0]], ys[1..]);
      assert past + ys == past + [ys[0]] + ys[1..];
    }
  }

  // ---------- the code ----------

  class Recorder {
    var mean: real
    var variance: real
    var coeff: Coeff
    var k: int

    constructor ()
    {
      mean, variance, coeff, k := 0.0, 0.0, NaN, 0;
    }

    function View(): Stats reads this {
      Stats(mean, variance, coeff)
    }

    /** set_default_running_stats. */
    method SetDefault(cfg: Config)
      modifies this
      ensures View() == DEFAULT_STATS && k == cfg.startingK
    {
      k := cfg.startingK;
      mean, variance, coeff := 0.0, 0.0, Sq(0.0);
    }

    /** The do-while: raw readings are taken from position i until one is not sent back. */
    static method ReadOne(prevY: int, raw: seq<nat>, i: nat) returns (found: bool, y: nat, next: nat)
      requires i <= |raw|
      ensures i <= next <= |raw|
      ensures Completed(prevY, raw[i..]) == if found then [y] + Completed(y, raw[next..]) else []
    {
      var bound := prevY;
      next, y, found := i, 0, false;
      while !found && next < |raw|
        invariant i <= next <= |raw|
        invariant if found then Completed(prevY, raw[i..]) == [y] + Completed(y, raw[next..])
                  else bound == prevY && Completed(prevY, raw[i..]) == Completed(prevY, raw[next..])
        decreases !found, |raw| - next
      {
        y := raw[next];
        assert raw[next..][0] == y && raw[next..][1..] == raw[next + 1..];
        if bound == -1 {
          bound := y;
        }
        next := next + 1;
        found := !(10 * y > 11 * bound);
      }
    }

    /** The update of the statistics in iteration j, with its rollback; n' is the count after it. */
    method Update(cfg: Config, j: nat, n: nat, y: nat) returns (n': nat)
      requires n > 0 && (j > 2 ==> n > 1)
      modifies this
      ensures k == old(k)
      ensures var st, next := old(View()), Taken(old(View()), j, n, y);
              if j > 2 && j > cfg.startingK && NotBelow(next.coeff, st.coeff) then View() == st && n' == n - 1
              else View() == next && n' == n
      ensures var st, next := old(View()), Taken(old(View()), j, n, y);
              j > 2 && j > cfg.startingK && st.coeff.Sq? && next.coeff.Sq? ==>
                (n' == n <==> next.coeff.v < st.coeff.v) && coeff.Sq?
                && coeff.v == if next.coeff.v < st.coeff.v then next.coeff.v else st.coeff.v
    {
      var prevMean, prevVariance, prevCoeff := mean, variance, coeff;
      mean := NextMean(prevMean, n, y);
      n' := n;
      if j > 2 {
        variance := Blend((n - 2) as real, variance, Cross(y as real, mean, prevMean));
        coeff := CoeffOf(variance, mean);
        if NotBelow(coeff, prevCoeff) && j > cfg.startingK {
          variance, mean, coeff := prevVariance, prevMean, prevCoeff;
          n' := n - 1;
        }
      }
    }

    /** run_test1 over raw readings; it also returns where the readings run out. */
    method RunTest1(cfg: Config, raw: seq<nat>)
      modifies this
      ensures var c := Run(cfg, Started(old(View()), old(k)), Completed(-1, raw));
              View() == c.st && k == c.k
    {
      var j, n, i := 1, 1, 0;
      var prevY: int := -1;
      ghost var c := Started(View(), k);
      ghost var final := Run(cfg, c, Completed(-1, raw));
      while j <= cfg.maxK
        invariant 0 <= i <= |raw| && 0 < n
        invariant Sound(c) && !c.stopped && c.j == j && c.n == n && c.st == View() && c.k == k
        invariant Run(cfg, c, Completed(prevY, raw[i..])) == final
        decreases cfg.maxK - j
      {
        var found, y, next := ReadOne(prevY, raw, i);
        if !found {
          return;
        }
        ghost var rest := Completed(y, raw[next..]);
        assert ([y] + rest)[1..] == rest;
        prevY, i := y, next;
        n := Update(cfg, j, n, y);
        c := Iterate(cfg, c, y);
        if j >= cfg.startingK && Below(coeff, cfg.targetSq) {
          k := n;
          break;
        }
        j, n := j + 1, n + 1;
      }
    }

    /** One measurement: the default statistics, then run_test1. What it leaves is about the readings
        kept, the completed ones that improve on those before them: mean times their number is their
        sum, the variance is their spread about it less what the second reading missed, over their
        number less one, and k is their number if the run stopped early. */
    method Measure(cfg: Config, raw: seq<nat>) returns (ghost kept: seq<nat>, ghost stopped: bool)
      modifies this
      ensures Selects(kept, Completed(-1, raw)) && (kept, stopped) == Chosen(cfg, [], 1, Completed(-1, raw))
      ensures ClosedForm(kept, mean, variance, 0.0) && variance >= 0.0
      ensures coeff == if Undefined(kept) then NaN else Sq(CoefficientOf(kept))
      ensures if stopped then k == |kept| && Below(coeff, cfg.targetSq) else k == cfg.startingK
    {
      SetDefault(cfg);
      RunTest1(cfg, raw);
      ghost var c := Run(cfg, Started(DEFAULT_STATS, cfg.startingK), Completed(-1, raw));
      WholeRun(cfg, raw);
      RunSelects(cfg, Started(DEFAULT_STATS, cfg.startingK), Completed(-1, raw));
      RunChooses(cfg, Started(DEFAULT_STATS, cfg.startingK), Completed(-1, raw));
      kept, stopped := c.kept, c.stopped;
      assert [] + Completed(-1, raw) == Completed(-1, raw);
    }
  }
}

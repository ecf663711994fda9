/** The problem data of the solver (src/main/kotlin/utils.kt): the right-hand
    side of the test equation, the initial values and the step size derived
    from them, the bounds of the error sweep, their validation, the sampling
    grid of the closed-form solution and the maximum reduction over a series.
    Every quantity is a mathematical real; the closed-form solution itself is
    a parameter `exact`. */
module Utils {
  import opened LinkedMap

  /** The right-hand side f of the test equation y' = 5 - x^2 - y^2 + 2xy. */
  function F(x: real, y: real): real {
    5.0 - x * x - y * y + 2.0 * x * y
  }

  /** Two values of f, among them the two slopes of the worked Euler example. */
  lemma FValues()
    ensures F(0.0, 1.0) == 4.0
    ensures F(0.5, 3.0) == -1.25
    ensures F(1.0, 3.0) == 1.0
  {
  }

  /** f depends on x and y only through y - x: f(x, y) = 5 - (y - x)^2. So
      the lines y = x + 2 and y = x - 2, on which f is 1, are solutions. */
  lemma FOfDifference(x: real, y: real)
    ensures F(x, y) == 5.0 - (y - x) * (y - x)
    ensures (y - x) * (y - x) == 4.0 ==> F(x, y) == 1.0
  {
  }

  /** The initial-value problem: start point (x0, y0), right end xMax and the
      number of fixed steps. */
  datatype InitialValues = InitialValues(x0: real, y0: real, xMax: real, numberOfSteps: int)

  /** The values the application starts with. */
  const DefaultInitialValues := InitialValues(0.0, 1.0, 20.0, 45)

  /** The step size, recomputed from the current fields on every use. */
  function H(p: InitialValues): (h: real)
    requires p.numberOfSteps != 0
    ensures (p.numberOfSteps as real) * h == p.xMax - p.x0
    ensures p.x0 < p.xMax && p.numberOfSteps >= 1 ==> h > 0.0
    ensures p.x0 == p.xMax ==> h == 0.0
  {
    (p.xMax - p.x0) / (p.numberOfSteps as real)
  }

  /** A copy carrying the same four fields, hence the same step size. */
  function Clone(p: InitialValues): (c: InitialValues)
    ensures c.x0 == p.x0 && c.y0 == p.y0 && c.xMax == p.xMax
    ensures c.numberOfSteps == p.numberOfSteps
    ensures p.numberOfSteps != 0 ==> H(c) == H(p)
  {
    InitialValues(p.x0, p.y0, p.xMax, p.numberOfSteps)
  }

  /** The step-count range of the global-error sweep. */
  datatype TotalErrorData = TotalErrorData(n0: int, nMax: int)

  const DefaultTotalErrorData := TotalErrorData(30, 110)

  predicate EnsureTotalErrorData(t: TotalErrorData) {
    t.n0 <= t.nMax
  }

  predicate EnsureInitialValuesCorrect(p: InitialValues) {
    p.x0 <= p.xMax
  }

  predicate EnsureDataCorrect(t: TotalErrorData, p: InitialValues) {
    EnsureTotalErrorData(t) && EnsureInitialValuesCorrect(p)
  }

  /** The checks compare with <=: equal bounds pass, and only a strictly
      reversed pair is refused; the number of steps is never inspected. */
  lemma ValidationBoundaries(n: int, x: real, y: real, steps: int)
    ensures EnsureTotalErrorData(TotalErrorData(n, n))
    ensures !EnsureTotalErrorData(TotalErrorData(n + 1, n))
    ensures EnsureInitialValuesCorrect(InitialValues(x, y, x, steps))
    ensures !EnsureInitialValuesCorrect(InitialValues(x + 1.0, y, x, steps))
    ensures EnsureDataCorrect(DefaultTotalErrorData, InitialValues(x, y, x, steps))
  {
  }

  /** The value of x after `k` passes of the grid loop's `x += h`. */
  function GridX(x0: real, h: real, k: nat): real {
    if k == 0 then x0 else GridX(x0, h, k - 1) + h
  }

  /** Over the reals the accumulated x is the arithmetic progression. */
  lemma {:induction false} GridXIsArithmetic(x0: real, h: real, k: nat)
    ensures GridX(x0, h, k) == x0 + (k as real) * h
  {
    if k > 0 {
      GridXIsArithmetic(x0, h, k - 1);
      assert (k as real) * h == ((k - 1) as real) * h + h;
    }
  }

  /** The condition under which the grid loop of the closed-form sampler
      stops: it either never starts, or x grows by a positive step. */
  predicate GridTerminates(p: InitialValues)
    requires p.numberOfSteps != 0
  {
    p.x0 > p.xMax || H(p) > 0.0
  }

  /** i*h against n*h for a positive step h, when n*h spans [x0, xMax]. */
  lemma ScaleCompare(i: int, n: int, h: real, x0: real, xMax: real)
    requires h > 0.0 && (n as real) * h == xMax - x0
    ensures i < n ==> x0 + (i as real) * h < xMax
    ensures i > n ==> x0 + (i as real) * h > xMax
    ensures i == n ==> x0 + (i as real) * h == xMax
  {
    if i < n {
      ScaleStrict(i, n, h);
    } else if i > n {
      ScaleStrict(n, i, h);
    }
  }

  lemma ScaleStrict(a: int, b: int, h: real)
    requires a < b && h > 0.0
    ensures (a as real) * h < (b as real) * h
  {
    assert (b as real) * h - (a as real) * h == ((b - a) as real) * h;
  }

  /** With a positive step the accumulated x strictly increases. */
  lemma {:induction false} GridXIncreasing(x0: real, h: real, j: nat, i: nat)
    requires h > 0.0 && j < i
    ensures GridX(x0, h, j) < GridX(x0, h, i)
  {
    if j < i - 1 {
      GridXIncreasing(x0, h, j, i - 1);
    }
  }

  /** Pass `i` runs (x <= xMax) only while i <= n, and the loop stops
      (x > xMax) only once i > n, when n steps of width h span [x0, xMax]. */
  lemma GridXAgainstBound(x0: real, xMax: real, h: real, n: int, i: nat)
    requires h > 0.0 && (n as real) * h == xMax - x0
    ensures GridX(x0, h, i) <= xMax ==> i <= n
    ensures GridX(x0, h, i) > xMax ==> i > n
    ensures i == n ==> GridX(x0, h, i) == xMax
  {
    GridXIsArithmetic(x0, h, i);
    ScaleCompare(i, n, h, x0, xMax);
  }

  /** The samples taken before pass `i`, as the grid loop appends them. */
  ghost predicate GridPrefix(r: seq<(real, real)>, x0: real, h: real, exact: real -> real, i: nat) {
    && |r| == i
    && forall j :: 0 <= j < i ==> r[j].0 == GridX(x0, h, j) && r[j].1 == exact(r[j].0)
  }

  /** With a positive step, the next sample's key is new, so writing it
      appends one entry. */
  lemma GridAppend(r: seq<(real, real)>, x0: real, h: real, exact: real -> real, i: nat)
    requires h > 0.0 && DistinctKeys(r) && GridPrefix(r, x0, h, exact, i)
    ensures GridX(x0, h, i) !in Keys(r)
    ensures Put(r, GridX(x0, h, i), exact(GridX(x0, h, i))) == r + [(GridX(x0, h, i), exact(GridX(x0, h, i)))]
    ensures GridPrefix(r + [(GridX(x0, h, i), exact(GridX(x0, h, i)))], x0, h, exact, i + 1)
  {
    forall j | 0 <= j < i
      ensures r[j].0 < GridX(x0, h, i)
    {
      GridXIncreasing(x0, h, j, i);
    }
  }

  /** The state of the grid loop before pass `i`: x is the i-th grid point
      and `r` holds the samples of the earlier passes. */
  ghost predicate Sampling(r: seq<(real, real)>, x: real, x0: real, xMax: real, h: real, n: int,
                           exact: real -> real, i: nat)
  {
    && x == GridX(x0, h, i)
    && GridPrefix(r, x0, h, exact, i)
    && (forall j :: 0 <= j < i ==> r[j].0 <= xMax)
    && DistinctKeys(r)
    && (x0 > xMax ==> i == 0)
    && (x0 <= xMax ==> h > 0.0 && i <= n + 1)
  }

  /** The loop starts in that state. */
  lemma SampleStart(x0: real, xMax: real, h: real, n: int, exact: real -> real)
    requires (n as real) * h == xMax - x0
    requires x0 > xMax || h > 0.0
    ensures Sampling([], x0, x0, xMax, h, n, exact, 0)
  {
    if x0 <= xMax && n < 0 {
      ScaleStrict(n, 0, h);
    }
  }

  /** A pass taken while x <= xMax appends the sample at x, keeps the state,
      and stays within numberOfSteps + 1 passes. */
  lemma SampleStep(r: seq<(real, real)>, x: real, x0: real, xMax: real, h: real, n: int,
                   exact: real -> real, i: nat)
    requires (n as real) * h == xMax - x0
    requires Sampling(r, x, x0, xMax, h, n, exact, i) && x <= xMax
    ensures i + 1 <= n + 1
    ensures Put(r, x, exact(x)) == r + [(x, exact(x))]
    ensures Sampling(r + [(x, exact(x))], x + h, x0, xMax, h, n, exact, i + 1)
  {
    GridXAgainstBound(x0, xMax, h, n, i);
    GridAppend(r, x0, h, exact, i);
  }

  /** Once x > xMax, the samples are the n + 1 grid points of [x0, xMax]. */
  lemma SampleExit(r: seq<(real, real)>, x: real, x0: real, xMax: real, h: real, n: int,
                   exact: real -> real, i: nat)
    requires (n as real) * h == xMax - x0
    requires Sampling(r, x, x0, xMax, h, n, exact, i) && x > xMax
    ensures DistinctKeys(r)
    ensures x0 > xMax ==> r == []
    ensures x0 <= xMax ==> |r| == n + 1 && r[|r| - 1].0 == xMax
    ensures forall j :: 0 <= j < |r| ==> r[j].0 == x0 + (j as real) * h
    ensures forall j :: 0 <= j < |r| ==> r[j].0 <= xMax && r[j].1 == exact(r[j].0)
  {
    if x0 <= xMax {
      GridXAgainstBound(x0, xMax, h, n, i);
      GridXAgainstBound(x0, xMax, h, n, n);
    }
    forall j | 0 <= j < |r|
      ensures r[j].0 == x0 + (j as real) * h
    {
      GridXIsArithmetic(x0, h, j);
    }
  }

  /** The grid loop with its step fixed: samples `exact` at x0, x0 + h, ...
      for as long as x <= xMax, where n steps of width h span [x0, xMax]. */
  method SampleGrid(x0: real, xMax: real, h: real, n: int, exact: real -> real) returns (r: seq<(real, real)>)
    requires (n as real) * h == xMax - x0
    requires x0 > xMax || h > 0.0
    ensures DistinctKeys(r)
    ensures x0 > xMax ==> r == []
    ensures x0 <= xMax ==> |r| == n + 1 && r[|r| - 1].0 == xMax
    ensures forall i :: 0 <= i < |r| ==> r[i].0 == x0 + (i as real) * h
    ensures forall i :: 0 <= i < |r| ==> r[i].0 <= xMax && r[i].1 == exact(r[i].0)
  {
    r := [];
    var x := x0;
    ghost var i: nat := 0;
    SampleStart(x0, xMax, h, n, exact);
    while x <= xMax
      invariant Sampling(r, x, x0, xMax, h, n, exact, i)
      decreases n + 1 - i
    {
      SampleStep(r, x, x0, xMax, h, n, exact, i);
      r := Put(r, x, exact(x));
      x := x + h;
      i := i + 1;
    }
    SampleExit(r, x, x0, xMax, h, n, exact, i);
  }

  /** `ExactSolution.computeFor(initialValues)`: samples `exact` at
      x0, x0 + h, ... for as long as x <= xMax. */
  method ExactGrid(p: InitialValues, exact: real -> real) returns (r: seq<(real, real)>)
    requires p.numberOfSteps != 0
    requires GridTerminates(p)
    ensures DistinctKeys(r)
    ensures p.x0 > p.xMax ==> r == []
    ensures p.x0 <= p.xMax ==> |r| == p.numberOfSteps + 1 && r[|r| - 1].0 == p.xMax
    ensures forall i :: 0 <= i < |r| ==> r[i].0 == p.x0 + (i as real) * H(p)
    ensures forall i :: 0 <= i < |r| ==> r[i].0 <= p.xMax && r[i].1 == exact(r[i].0)
  {
    r := SampleGrid(p.x0, p.xMax, H(p), p.numberOfSteps, exact);
  }

  /** The corrected validation: a strictly increasing range and at least one
      step. Whatever it accepts has a positive step, so the grid loop ends
      after numberOfSteps + 1 samples; it accepts a subset of what
      `EnsureInitialValuesCorrect` accepts. */
  function InitialValuesValid(p: InitialValues): (ok: bool)
    ensures ok ==> EnsureInitialValuesCorrect(p)
    ensures ok ==> p.numberOfSteps != 0 && H(p) > 0.0 && GridTerminates(p)
    ensures !ok && EnsureInitialValuesCorrect(p) ==> p.x0 == p.xMax || p.numberOfSteps <= 0
  {
    p.x0 < p.xMax && p.numberOfSteps >= 1
  }

  /** As written, `EnsureInitialValuesCorrect` also passes every input the
      corrected check refuses with a defined step (x0 == xMax, or a negative
      number of steps); on all of them the grid loop's guard x <= xMax holds
      after every number of passes, so the loop never exits. */
  lemma {:induction false} AcceptedGridNeverExits(p: InitialValues, k: nat)
    requires EnsureInitialValuesCorrect(p)
    requires p.numberOfSteps != 0 && !InitialValuesValid(p)
    ensures GridX(p.x0, H(p), k) <= p.xMax
    ensures !GridTerminates(p)
  {
    GridXIsArithmetic(p.x0, H(p), k);
    if p.x0 < p.xMax {
      assert p.numberOfSteps < 0;
      assert H(p) < 0.0;
      assert (k as real) * H(p) <= 0.0;
    }
  }

  /** The smallest such input: a one-point range passes `EnsureDataCorrect`
      with the default sweep bounds, and its step is 0. */
  lemma DegenerateRangeAccepted()
    ensures EnsureDataCorrect(DefaultTotalErrorData, InitialValues(0.0, 1.0, 0.0, 45))
    ensures H(InitialValues(0.0, 1.0, 0.0, 45)) == 0.0
    ensures !GridTerminates(InitialValues(0.0, 1.0, 0.0, 45))
  {
  }

  /** The application's default problem passes the corrected check, with
      step 4/9. */
  lemma DefaultsValid()
    ensures InitialValuesValid(DefaultInitialValues)
    ensures H(DefaultInitialValues) == 4.0 / 9.0
    ensures EnsureDataCorrect(DefaultTotalErrorData, DefaultInitialValues)
  {
  }

  /** One pass of `getMaxByValue`'s loop over the values still to visit,
      given the running maximum `max` (-1.0 meaning "none yet"). */
  function ScanMax(vs: seq<real>, max: real): (r: real)
    ensures r == max || r in vs
    ensures max != -1.0 && -1.0 !in vs ==> max <= r && forall v :: v in vs ==> v <= r
  {
    if |vs| == 0 then max
    else
      assert vs == [vs[0]] + vs[1..];
      ScanMax(vs[1..], if max == -1.0 || vs[0] > max then vs[0] else max)
  }

  /** `getMaxByValue`: 0.0 for an empty map; otherwise a value of the map,
      and the largest one provided -1.0, the sentinel, is not a value. */
  function GetMaxByValue(m: seq<(real, real)>): (r: real)
    ensures |m| == 0 ==> r == 0.0
    ensures |m| > 0 ==> r in Values(m)
    ensures -1.0 !in Values(m) ==> forall v :: v in Values(m) ==> v <= r
  {
    if |m| == 0 then 0.0
    else
      var vs := Values(m);
      assert vs == [vs[0]] + vs[1..];
      ScanMax(vs, -1.0)
  }

  /** The sentinel is also a legitimate value: once the running maximum is
      -1.0, the next value replaces it even when it is smaller. */
  lemma SentinelCollision()
    ensures GetMaxByValue([(0.0, -1.0), (1.0, -5.0)]) == -5.0
  {
    var vs := Values([(0.0, -1.0), (1.0, -5.0)]);
    assert vs == [-1.0, -5.0];
    assert vs[1..] == [-5.0];
    assert vs[1..][1..] == [];
  }

  /** The corrected scan: the running maximum starts at the first value, so
      no value doubles as a marker. */
  function MaxFrom(vs: seq<real>, max: real): (r: real)
    ensures r == max || r in vs
    ensures max <= r && forall v :: v in vs ==> v <= r
  {
    if |vs| == 0 then max
    else
      assert vs == [vs[0]] + vs[1..];
      MaxFrom(vs[1..], if vs[0] > max then vs[0] else max)
  }

  /** The corrected `getMaxByValue`: 0.0 for an empty map, otherwise the
      largest value, whatever the values are. */
  function MaxByValue(m: seq<(real, real)>): (r: real)
    ensures |m| == 0 ==> r == 0.0
    ensures |m| > 0 ==> r in Values(m) && forall v :: v in Values(m) ==> v <= r
  {
    if |m| == 0 then 0.0
    else
      var vs := Values(m);
      assert vs == [vs[0]] + vs[1..];
      MaxFrom(vs[1..], vs[0])
  }

  /** Where the sentinel does not occur among the values, the original and
      the corrected maximum agree. */
  lemma MaxByValueAgrees(m: seq<(real, real)>)
    requires -1.0 !in Values(m)
    ensures GetMaxByValue(m) == MaxByValue(m)
  {
    if |m| > 0 {
      var a, b := GetMaxByValue(m), MaxByValue(m);
      assert a <= b && b <= a;
    }
  }

  /** On the colliding input the corrected maximum is the true one. */
  lemma SentinelCollisionCorrected()
    ensures MaxByValue([(0.0, -1.0), (1.0, -5.0)]) == -1.0
  {
    var vs := Values([(0.0, -1.0), (1.0, -5.0)]);
    assert vs == [-1.0, -5.0];
  }
}

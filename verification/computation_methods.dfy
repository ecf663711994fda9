/** The three fixed-step solvers and their local-error routine
    (src/main/kotlin/computation_methods.kt). A solver starts its map with
    (x0, y0) and then, `numberOfSteps` times, advances y by its step formula,
    advances x by h and writes (x, y) into the map. */
module ComputationMethods {
  import opened LinkedMap
  import opened Utils

  /** The three subclasses of `ComputationalMethod`. */
  datatype MethodKind = Euler | ImprovedEuler | RungeKutta

  /** The new y after one pass of a solver's loop from (x, y) with step h. */
  function Step(kind: MethodKind, f: (real, real) -> real, x: real, y: real, h: real): real {
    match kind
    case Euler =>
      y + h * f(x, y)
    case ImprovedEuler =>
      var k1 := f(x, y);
      var k2 := f(x + h, y + h * k1);
      y + h / 2.0 * (k1 + k2)
    case RungeKutta =>
      var k1 := f(x, y);
      var k2 := f(x + h / 2.0, y + h / 2.0 * k1);
      var k3 := f(x + h / 2.0, y + h / 2.0 * k2);
      var k4 := f(x + h, y + h * k3);
      y + h / 6.0 * (k1 + 2.0 * k2 + 2.0 * k3 + k4)
  }

  /** A step of width 0 leaves y unchanged, whatever the method. */
  lemma StepOfZeroWidth(kind: MethodKind, f: (real, real) -> real, x: real, y: real)
    ensures Step(kind, f, x, y, 0.0) == y
  {
  }

  /** Improved Euler in predictor-corrector form: the mean of y and of an
      Euler step taken from the Euler-predicted point (x + h, y + h f(x, y)). */
  lemma ImprovedEulerAveragesEuler(f: (real, real) -> real, x: real, y: real, h: real)
    ensures Step(ImprovedEuler, f, x, y, h) == (y + Step(Euler, f, x + h, Step(Euler, f, x, y, h), h)) / 2.0
  {
  }

  /** The slope each method applies over a step: k1 for Euler, the mean
      (k1 + k2) / 2 for Improved Euler, the weighted mean
      (k1 + 2 k2 + 2 k3 + k4) / 6 for Runge-Kutta. */
  function Slope(kind: MethodKind, f: (real, real) -> real, x: real, y: real, h: real): real {
    var k1 := f(x, y);
    match kind
    case Euler => k1
    case ImprovedEuler =>
      (k1 + f(x + h, y + h * k1)) / 2.0
    case RungeKutta =>
      var k2 := f(x + h / 2.0, y + h / 2.0 * k1);
      var k3 := f(x + h / 2.0, y + h / 2.0 * k2);
      (k1 + 2.0 * k2 + 2.0 * k3 + f(x + h, y + h * k3)) / 6.0
  }

  /** Every step is y + h times the method's slope, and each slope equals
      f(x, y) at h = 0: all three methods are consistent with the equation. */
  lemma StepConsistent(kind: MethodKind, f: (real, real) -> real, x: real, y: real, h: real)
    ensures Step(kind, f, x, y, h) == y + h * Slope(kind, f, x, y, h)
    ensures Slope(kind, f, x, y, 0.0) == f(x, y)
  {
  }

  /** A right-hand side that is 1 all along the line y = x + c: the line is
      then an exact solution of y' = f(x, y). */
  ghost predicate UnitSlopeOn(f: (real, real) -> real, c: real) {
    forall a, b :: b - a == c ==> f(a, b) == 1.0
  }

  /** The lines y = x + 2 and y = x - 2 are such solutions of the test
      equation. */
  lemma EquilibriaOfF(c: real)
    requires c * c == 4.0
    ensures UnitSlopeOn(F, c)
  {
    forall a, b | b - a == c
      ensures F(a, b) == 1.0
    {
      FOfDifference(a, b);
    }
  }

  /** On such a line every method is exact: one step from a point of the
      line lands on the line again. */
  lemma StepFollowsLine(kind: MethodKind, f: (real, real) -> real, c: real, x: real, y: real, h: real)
    requires UnitSlopeOn(f, c) && y - x == c
    ensures Step(kind, f, x, y, h) == y + h
  {
    var k1 := f(x, y);
    match kind
    case Euler =>
    case ImprovedEuler =>
      assert (y + h * k1) - (x + h) == c;
    case RungeKutta =>
      assert (y + h / 2.0 * k1) - (x + h / 2.0) == c;
      var k2 := f(x + h / 2.0, y + h / 2.0 * k1);
      assert (y + h / 2.0 * k2) - (x + h / 2.0) == c;
      var k3 := f(x + h / 2.0, y + h / 2.0 * k2);
      assert (y + h * k3) - (x + h) == c;
  }

  /** Entry i + 1 of `t` is one pass of the loop on from entry i: x advanced
      by h, y by the method's step. */
  ghost predicate StepsAt(kind: MethodKind, f: (real, real) -> real, h: real, t: seq<(real, real)>, i: int)
    requires 0 <= i < |t| - 1
  {
    t[i + 1] == (t[i].0 + h, Step(kind, f, t[i].0, t[i].1, h))
  }

  /** The entries a solver's loop has written after `n` passes when every
      key is new: the start point, then one Step per pass. */
  function Trajectory(kind: MethodKind, f: (real, real) -> real, x0: real, y0: real, h: real, n: nat): (t: seq<(real, real)>)
    ensures |t| == n + 1
    ensures t[0] == (x0, y0)
    ensures forall i :: 0 <= i <= n ==> t[i].0 == GridX(x0, h, i)
    ensures forall i :: 0 <= i < n ==> StepsAt(kind, f, h, t, i)
    decreases n
  {
    if n == 0 then [(x0, y0)]
    else
      var t := Trajectory(kind, f, x0, y0, h, n - 1);
      var t' := t + [(t[n - 1].0 + h, Step(kind, f, t[n - 1].0, t[n - 1].1, h))];
      assert forall i :: 0 <= i < n ==> StepsAt(kind, f, h, t', i) by {
        forall i | 0 <= i < n
          ensures StepsAt(kind, f, h, t', i)
        {
          if i < n - 1 {
            assert StepsAt(kind, f, h, t, i);
          }
        }
      }
      t'
  }

  /** With a nonzero step the accumulated keys never repeat. */
  lemma GridXInjective(x0: real, h: real, j: nat, i: nat)
    requires h != 0.0 && j < i
    ensures GridX(x0, h, j) != GridX(x0, h, i)
  {
    GridXIsArithmetic(x0, h, j);
    GridXIsArithmetic(x0, h, i);
    NonzeroProduct(i - j, h);
  }

  lemma NonzeroProduct(d: int, h: real)
    requires d > 0 && h != 0.0
    ensures (d as real) * h != 0.0
  {
  }

  lemma TrajectoryDistinct(kind: MethodKind, f: (real, real) -> real, x0: real, y0: real, h: real, n: nat)
    requires h != 0.0
    ensures DistinctKeys(Trajectory(kind, f, x0, y0, h, n))
  {
    var t := Trajectory(kind, f, x0, y0, h, n);
    forall i, j | 0 <= i < j < |t|
      ensures t[i].0 != t[j].0
    {
      GridXInjective(x0, h, i, j);
    }
  }

  /** One more pass extends a trajectory by the next step from its last
      entry. */
  lemma TrajectorySnoc(kind: MethodKind, f: (real, real) -> real, x0: real, y0: real, h: real, n: nat)
    ensures var t := Trajectory(kind, f, x0, y0, h, n);
      Trajectory(kind, f, x0, y0, h, n + 1) == t + [(t[n].0 + h, Step(kind, f, t[n].0, t[n].1, h))]
  {
  }

  /** With a nonzero step the next key x + h is not yet in the trajectory. */
  lemma TrajectoryFreshKey(kind: MethodKind, f: (real, real) -> real, x0: real, y0: real, h: real, n: nat)
    requires h != 0.0
    ensures Trajectory(kind, f, x0, y0, h, n)[n].0 + h !in Keys(Trajectory(kind, f, x0, y0, h, n))
  {
    var t := Trajectory(kind, f, x0, y0, h, n);
    var x := t[n].0;
    assert x + h == GridX(x0, h, n + 1);
    forall j | 0 <= j <= n
      ensures t[j].0 != x + h
    {
      GridXInjective(x0, h, j, n + 1);
    }
  }

  /** One more pass of the loop writes a new key, so it appends exactly the
      next trajectory point. */
  lemma TrajectoryPut(kind: MethodKind, f: (real, real) -> real, x0: real, y0: real, h: real, n: nat,
                      x: real, y: real, y': real)
    requires h != 0.0
    requires (x, y) == Trajectory(kind, f, x0, y0, h, n)[n]
    requires y' == Step(kind, f, x, y, h)
    ensures DistinctKeys(Trajectory(kind, f, x0, y0, h, n))
    ensures x + h !in Keys(Trajectory(kind, f, x0, y0, h, n))
    ensures Trajectory(kind, f, x0, y0, h, n + 1) == Trajectory(kind, f, x0, y0, h, n) + [(x + h, y')]
    ensures Put(Trajectory(kind, f, x0, y0, h, n), x + h, y') == Trajectory(kind, f, x0, y0, h, n + 1)
  {
    TrajectoryDistinct(kind, f, x0, y0, h, n);
    TrajectoryFreshKey(kind, f, x0, y0, h, n);
    TrajectorySnoc(kind, f, x0, y0, h, n);
  }

  /** What `computeFor` returns: the start point (x0, y0) and, when the
      step is nonzero, one more entry per pass. With no pass
      (numberOfSteps <= 0), or with h = 0 (x0 == xMax), where every pass
      rewrites the key x0 with an unchanged y, there is just the start point. */
  function Solution(kind: MethodKind, f: (real, real) -> real, p: InitialValues): (t: seq<(real, real)>)
    ensures DistinctKeys(t)
    ensures |t| >= 1 && t[0] == (p.x0, p.y0)
    ensures p.numberOfSteps >= 1 && p.x0 != p.xMax ==> |t| == p.numberOfSteps + 1
    ensures p.numberOfSteps <= 0 || p.x0 == p.xMax ==> t == [(p.x0, p.y0)]
  {
    if p.numberOfSteps >= 1 && p.x0 != p.xMax then
      TrajectoryDistinct(kind, f, p.x0, p.y0, H(p), p.numberOfSteps);
      Trajectory(kind, f, p.x0, p.y0, H(p), p.numberOfSteps)
    else
      [(p.x0, p.y0)]
  }

  /** With a nonzero step, the last key of the solution is xMax. */
  lemma SolutionEndsAtXMax(kind: MethodKind, f: (real, real) -> real, p: InitialValues)
    requires p.numberOfSteps >= 1 && p.x0 != p.xMax
    ensures Solution(kind, f, p)[p.numberOfSteps].0 == p.xMax
  {
    GridXIsArithmetic(p.x0, H(p), p.numberOfSteps);
  }

  /** With a nonzero step, key i of the solution is x0 + i h. */
  lemma SolutionOnGrid(kind: MethodKind, f: (real, real) -> real, p: InitialValues)
    requires p.numberOfSteps >= 1 && p.x0 != p.xMax
    ensures forall i :: 0 <= i <= p.numberOfSteps ==> Solution(kind, f, p)[i].0 == p.x0 + (i as real) * H(p)
  {
    TrajectoryOnGrid(kind, f, p.x0, p.y0, H(p), p.numberOfSteps);
  }

  /** With a nonzero step, each entry of the solution is one Step of the
      method, of width h, from the previous entry. */
  lemma SolutionSteps(kind: MethodKind, f: (real, real) -> real, p: InitialValues)
    requires p.numberOfSteps >= 1 && p.x0 != p.xMax
    ensures forall i :: 0 <= i < p.numberOfSteps ==> StepsAt(kind, f, H(p), Solution(kind, f, p), i)
  {
  }

  /** The keys of a trajectory are the arithmetic progression x0 + i h. */
  lemma TrajectoryOnGrid(kind: MethodKind, f: (real, real) -> real, x0: real, y0: real, h: real, n: nat)
    ensures forall i :: 0 <= i <= n ==> Trajectory(kind, f, x0, y0, h, n)[i].0 == x0 + (i as real) * h
  {
    var t := Trajectory(kind, f, x0, y0, h, n);
    forall i | 0 <= i <= n
      ensures t[i].0 == x0 + (i as real) * h
    {
      GridXIsArithmetic(x0, h, i);
    }
  }

  /** The state of a solver's loop after `i` passes with step h: the map
      written so far and the current point (x, y), its last entry. */
  ghost predicate PassesDone(kind: MethodKind, f: (real, real) -> real, x0: real, y0: real, h: real, i: nat,
                             r: seq<(real, real)>, x: real, y: real)
  {
    && DistinctKeys(r) && |r| >= 1
    && (x, y) == r[|r| - 1]
    && (if h != 0.0 then r == Trajectory(kind, f, x0, y0, h, i) else r == [(x0, y0)])
  }

  /** One pass of the loop body keeps `PassesDone`: with h != 0 it appends
      the next trajectory point, with h == 0 it rewrites the entry (x0, y0)
      with itself. */
  lemma OnePass(kind: MethodKind, f: (real, real) -> real, x0: real, y0: real, h: real, i: nat,
                r: seq<(real, real)>, x: real, y: real)
    requires PassesDone(kind, f, x0, y0, h, i, r, x, y)
    ensures var y' := Step(kind, f, x, y, h);
      PassesDone(kind, f, x0, y0, h, i + 1, Put(r, x + h, y'), x + h, y')
  {
    var y' := Step(kind, f, x, y, h);
    if h != 0.0 {
      TrajectoryPut(kind, f, x0, y0, h, i, x, y, y');
      TrajectoryDistinct(kind, f, x0, y0, h, i + 1);
    } else {
      StepOfZeroWidth(kind, f, x, y);
      assert Put(r, x, y) == [(x, y)];
    }
  }

  /** The loop of `computeFor` with the step width h fixed: n passes, each
      writing the next point into the insertion-ordered map. */
  method Passes(kind: MethodKind, f: (real, real) -> real, x0: real, y0: real, h: real, n: nat)
    returns (r: seq<(real, real)>, x: real, y: real)
    ensures PassesDone(kind, f, x0, y0, h, n, r, x, y)
  {
    r := Put([], x0, y0);
    x, y := x0, y0;
    var i := 0;
    while i < n
      invariant i <= n
      invariant PassesDone(kind, f, x0, y0, h, i, r, x, y)
    {
      OnePass(kind, f, x0, y0, h, i, r, x, y);
      y := Step(kind, f, x, y, h);
      x := x + h;
      r := Put(r, x, y);
      i := i + 1;
    }
  }

  /** `computeFor` of the three subclasses: the start point, then
      numberOfSteps passes of width h; shown to produce the Solution. */
  method ComputeFor(kind: MethodKind, f: (real, real) -> real, p: InitialValues) returns (r: seq<(real, real)>)
    ensures r == Solution(kind, f, p)
    ensures |r| >= 1 && r[0] == (p.x0, p.y0)
  {
    if p.numberOfSteps >= 1 {
      var x, y;
      r, x, y := Passes(kind, f, p.x0, p.y0, H(p), p.numberOfSteps);
      PassesGiveSolution(kind, f, p, p.numberOfSteps, r, x, y);
    } else {
      r := Put([], p.x0, p.y0);
      PassesGiveSolution(kind, f, p, 0, r, p.x0, p.y0);
    }
  }

  /** The loop's final state is the Solution. */
  lemma PassesGiveSolution(kind: MethodKind, f: (real, real) -> real, p: InitialValues, i: nat,
                           r: seq<(real, real)>, x: real, y: real)
    requires p.numberOfSteps >= 1 ==> i == p.numberOfSteps && PassesDone(kind, f, p.x0, p.y0, H(p), i, r, x, y)
    requires p.numberOfSteps < 1 ==> r == [(p.x0, p.y0)]
    ensures r == Solution(kind, f, p)
  {
  }

  /** The first i local errors: the solver's keys in its order, each with
      exact(x) - y. */
  ghost predicate ErrorsUpTo(e: seq<(real, real)>, computed: seq<(real, real)>, exact: real -> real, i: nat) {
    && i <= |computed|
    && |e| == i
    && DistinctKeys(e)
    && forall j :: 0 <= j < i ==> e[j] == (computed[j].0, exact(computed[j].0) - computed[j].1)
  }

  /** Writing the error of the next solver entry appends it, since the
      solver's keys are distinct. */
  lemma ErrorStep(e: seq<(real, real)>, computed: seq<(real, real)>, exact: real -> real, i: nat)
    requires DistinctKeys(computed) && ErrorsUpTo(e, computed, exact, i) && i < |computed|
    ensures var (x, y) := computed[i];
      ErrorsUpTo(Put(e, x, exact(x) - y), computed, exact, i + 1)
  {
    var (x, y) := computed[i];
    forall j | 0 <= j < i
      ensures e[j].0 != x
    {
      assert e[j].0 == computed[j].0;
    }
    assert x !in Keys(e);
  }

  /** The loop of `computeLocalErrors` over a solver's map: for every entry
      (x, y), in order, the signed difference exact(x) - y. */
  method ErrorsOf(computed: seq<(real, real)>, exact: real -> real) returns (e: seq<(real, real)>)
    requires DistinctKeys(computed)
    ensures Keys(e) == Keys(computed)
    ensures forall i :: 0 <= i < |e| ==> e[i].1 == exact(e[i].0) - computed[i].1
    ensures DistinctKeys(e)
  {
    e := [];
    var i := 0;
    while i < |computed|
      invariant ErrorsUpTo(e, computed, exact, i)
    {
      ErrorStep(e, computed, exact, i);
      var (x, y) := computed[i];
      e := Put(e, x, exact(x) - y);
      i := i + 1;
    }
    assert forall j :: 0 <= j < |e| ==> e[j] == (computed[j].0, exact(computed[j].0) - computed[j].1);
  }

  /** `computeLocalErrors`: the solver's map with each y replaced by the
      signed local error exact(x) - y, keys and order unchanged. */
  method ComputeLocalErrors(kind: MethodKind, f: (real, real) -> real, p: InitialValues, exact: real -> real) returns (e: seq<(real, real)>)
    ensures Keys(e) == Keys(Solution(kind, f, p))
    ensures forall i :: 0 <= i < |e| ==> e[i].1 == exact(e[i].0) - Solution(kind, f, p)[i].1
    ensures DistinctKeys(e)
  {
    var computed := ComputeFor(kind, f, p);
    e := ErrorsOf(computed, exact);
  }

  /** Started on one of the exact solutions y = x + 2 or y = x - 2, every
      method stays on it: each entry has y - x == y0 - x0, so the local
      errors against that solution are all zero. */
  lemma SolutionFollowsEquilibrium(kind: MethodKind, p: InitialValues)
    requires (p.y0 - p.x0) * (p.y0 - p.x0) == 4.0
    ensures forall i :: 0 <= i < |Solution(kind, F, p)| ==>
      Solution(kind, F, p)[i].1 - Solution(kind, F, p)[i].0 == p.y0 - p.x0
  {
    if p.numberOfSteps >= 1 && H(p) != 0.0 {
      EquilibriaOfF(p.y0 - p.x0);
      TrajectoryFollowsLine(kind, F, p.y0 - p.x0, p.x0, p.y0, H(p), p.numberOfSteps);
    }
  }

  /** From a last entry on a unit-slope solution line, the next pass moves
      along the line: both x and y grow by h. */
  lemma TrajectoryStepOnLine(kind: MethodKind, f: (real, real) -> real, c: real,
                             x0: real, y0: real, h: real, n: nat)
    requires UnitSlopeOn(f, c)
    requires Trajectory(kind, f, x0, y0, h, n)[n].1 - Trajectory(kind, f, x0, y0, h, n)[n].0 == c
    ensures var t := Trajectory(kind, f, x0, y0, h, n);
      Trajectory(kind, f, x0, y0, h, n + 1) == t + [(t[n].0 + h, t[n].1 + h)]
  {
    var t := Trajectory(kind, f, x0, y0, h, n);
    StepFollowsLine(kind, f, c, t[n].0, t[n].1, h);
    TrajectorySnoc(kind, f, x0, y0, h, n);
  }

  /** A trajectory started on a unit-slope solution line never leaves it. */
  lemma {:induction false} TrajectoryFollowsLine(kind: MethodKind, f: (real, real) -> real, c: real,
                                                 x0: real, y0: real, h: real, n: nat)
    requires UnitSlopeOn(f, c) && y0 - x0 == c
    ensures forall i :: 0 <= i <= n ==>
      Trajectory(kind, f, x0, y0, h, n)[i].1 - Trajectory(kind, f, x0, y0, h, n)[i].0 == c
  {
    if n > 0 {
      TrajectoryFollowsLine(kind, f, c, x0, y0, h, n - 1);
      TrajectoryStepOnLine(kind, f, c, x0, y0, h, n - 1);
      var t, t' := Trajectory(kind, f, x0, y0, h, n - 1), Trajectory(kind, f, x0, y0, h, n);
      forall i | 0 <= i <= n
        ensures t'[i].1 - t'[i].0 == c
      {
        if i < n {
          assert t'[i] == t[i];
        }
      }
    }
  }

  /** The worked Euler example: y' = f from (0, 1) to 1 in two steps. */
  lemma EulerWorkedExample()
    ensures Solution(Euler, F, InitialValues(0.0, 1.0, 1.0, 2)) == [(0.0, 1.0), (0.5, 3.0), (1.0, 2.375)]
  {
    var p := InitialValues(0.0, 1.0, 1.0, 2);
    assert H(p) == 0.5;
    FValues();
    var t1 := Trajectory(Euler, F, 0.0, 1.0, 0.5, 1);
    assert t1 == [(0.0, 1.0), (0.5, 3.0)];
  }

  /** The same problem with Improved Euler. */
  lemma ImprovedEulerWorkedExample()
    ensures Solution(ImprovedEuler, F, InitialValues(0.0, 1.0, 1.0, 2))
      == [(0.0, 1.0), (0.5, 1.6875), (1.0, 2405807.0 / 1048576.0)]
  {
    var p := InitialValues(0.0, 1.0, 1.0, 2);
    assert H(p) == 0.5;
    assert Step(ImprovedEuler, F, 0.0, 1.0, 0.5) == 1.6875;
    assert Step(ImprovedEuler, F, 0.5, 1.6875, 0.5) == 2405807.0 / 1048576.0;
    var t1 := Trajectory(ImprovedEuler, F, 0.0, 1.0, 0.5, 1);
    assert t1 == [(0.0, 1.0), (0.5, 1.6875)];
  }

  /** Classical Runge-Kutta from (0, 1) to 1 in one step. */
  lemma RungeKuttaWorkedExample()
    ensures Solution(RungeKutta, F, InitialValues(0.0, 1.0, 1.0, 1)) == [(0.0, 1.0), (1.0, -3243.0 / 8192.0)]
  {
    var p := InitialValues(0.0, 1.0, 1.0, 1);
    assert H(p) == 1.0;
    assert Step(RungeKutta, F, 0.0, 1.0, 1.0) == -3243.0 / 8192.0;
  }
}

/** `ComputationalMethodsManager`: the registry of solvers by name, filled at
    startup, and the lookups that run a registered solver. The registry is an
    explicit value instead of a process-wide singleton. */
module MethodsManager {
  import opened Wrappers
  import opened LinkedMap
  import opened Utils
  import opened ComputationMethods

  /** A registered method object: which solver it is, and the display flag
      `isSelected`. */
  datatype ComputationalMethod = ComputationalMethod(kind: MethodKind, isSelected: bool) {
    /** The `name` each subclass declares. */
    function Name(): string {
      match kind
      case Euler => "Euler method"
      case ImprovedEuler => "Improved Euler method"
      case RungeKutta => "Runge-Kutta method"
    }
  }

  /** A newly constructed method object; `isSelected` starts true. */
  function NewMethod(kind: MethodKind): ComputationalMethod {
    ComputationalMethod(kind, true)
  }

  /** The three names differ (they differ already in length). */
  lemma NamesDistinct()
    ensures forall a: MethodKind, b: MethodKind :: a != b ==> NewMethod(a).Name() != NewMethod(b).Name()
  {
    assert |"Euler method"| == 12;
    assert |"Improved Euler method"| == 21;
    assert |"Runge-Kutta method"| == 18;
  }

  /** `listOfMethods`: name to method, in registration order. */
  type Registry = seq<(string, ComputationalMethod)>

  /** `initMethod`: registers `m` under its name. A name registered before
      keeps its position, a new one goes last. */
  function InitMethod(reg: Registry, m: ComputationalMethod): (r: Registry)
    requires DistinctKeys(reg)
    ensures DistinctKeys(r)
    ensures m.Name() in Keys(reg) ==> Keys(r) == Keys(reg)
    ensures m.Name() !in Keys(reg) ==> Keys(r) == Keys(reg) + [m.Name()]
  {
    Put(reg, m.Name(), m)
  }

  /** After `initMethod`, looking the name up yields `m`, and every other
      name keeps its entry. */
  lemma InitMethodLookup(reg: Registry, m: ComputationalMethod)
    requires DistinctKeys(reg)
    ensures Get(InitMethod(reg, m), m.Name()) == Some(m)
    ensures forall name :: name != m.Name() ==> Get(InitMethod(reg, m), name) == Get(reg, name)
  {
    GetPut(reg, m.Name(), m);
  }

  /** The registry after the three registrations, in order. */
  ghost predicate IsStartupRegistry(r: Registry) {
    r == [("Euler method", NewMethod(Euler)),
          ("Improved Euler method", NewMethod(ImprovedEuler)),
          ("Runge-Kutta method", NewMethod(RungeKutta))]
  }

  /** Registering Euler, then Improved Euler, then Runge-Kutta into an empty
      registry appends each under its own name. */
  lemma StartupChain(r1: Registry, r2: Registry, r3: Registry)
    requires r1 == InitMethod([], NewMethod(Euler))
    requires r2 == InitMethod(r1, NewMethod(ImprovedEuler))
    requires r3 == InitMethod(r2, NewMethod(RungeKutta))
    ensures IsStartupRegistry(r3)
  {
    NamesDistinct();
    assert r1 == [("Euler method", NewMethod(Euler))];
    assert Keys(r1) == ["Euler method"];
    assert r2 == r1 + [("Improved Euler method", NewMethod(ImprovedEuler))];
    assert Keys(r2) == ["Euler method", "Improved Euler method"];
  }

  /** The startup registry lists the three names once each, in
      registration order. */
  lemma StartupKeys(r: Registry)
    requires IsStartupRegistry(r)
    ensures DistinctKeys(r)
    ensures Keys(r) == ["Euler method", "Improved Euler method", "Runge-Kutta method"]
  {
    NamesDistinct();
  }

  /** Every method in the startup registry is selected and filed under its
      own name. */
  lemma StartupEntries(r: Registry)
    requires IsStartupRegistry(r)
    ensures forall i :: 0 <= i < |r| ==> r[i].1.isSelected && r[i].1.Name() == r[i].0
  {
  }

  /** Each of the three methods is found in the startup registry under its
      name. */
  lemma StartupLookup(r: Registry)
    requires IsStartupRegistry(r)
    ensures forall kind :: Get(r, NewMethod(kind).Name()) == Some(NewMethod(kind))
  {
    StartupKeys(r);
    forall kind: MethodKind
      ensures Get(r, NewMethod(kind).Name()) == Some(NewMethod(kind))
    {
      var i := match kind case Euler => 0 case ImprovedEuler => 1 case RungeKutta => 2;
      GetAt(r, i);
    }
  }

  /** The manager's `init` block: Euler, Improved Euler and Runge-Kutta are
      registered in this order, each selected. */
  function Startup(): (r: Registry)
    ensures DistinctKeys(r)
    ensures Keys(r) == ["Euler method", "Improved Euler method", "Runge-Kutta method"]
    ensures forall i :: 0 <= i < |r| ==> r[i].1.isSelected && r[i].1.Name() == r[i].0
    ensures forall kind :: Get(r, NewMethod(kind).Name()) == Some(NewMethod(kind))
  {
    var r1 := InitMethod([], NewMethod(Euler));
    var r2 := InitMethod(r1, NewMethod(ImprovedEuler));
    var r3 := InitMethod(r2, NewMethod(RungeKutta));
    StartupChain(r1, r2, r3);
    StartupKeys(r3);
    StartupEntries(r3);
    StartupLookup(r3);
    r3
  }

  /** `compute(name)`: the solution of the registered method, or None where
      the Kotlin `!!` would throw. */
  method Compute(reg: Registry, name: string, p: InitialValues) returns (r: Option<seq<(real, real)>>)
    ensures Get(reg, name).None? ==> r.None?
    ensures Get(reg, name).Some? ==> r == Some(Solution(Get(reg, name).value.kind, F, p))
  {
    match Get(reg, name)
    case None =>
      r := None;
    case Some(m) =>
      var t := ComputeFor(m.kind, F, p);
      r := Some(t);
  }

  /** `computeLocalErrors(name)`: the local errors of the registered method,
      or None for an unregistered name. */
  method ComputeLocalErrorsByName(reg: Registry, name: string, p: InitialValues, exact: real -> real)
    returns (r: Option<seq<(real, real)>>)
    ensures Get(reg, name).None? ==> r.None?
    ensures Get(reg, name).Some? ==>
      && r.Some?
      && Keys(r.value) == Keys(Solution(Get(reg, name).value.kind, F, p))
      && forall i :: 0 <= i < |r.value| ==>
        r.value[i].1 == exact(r.value[i].0) - Solution(Get(reg, name).value.kind, F, p)[i].1
  {
    match Get(reg, name)
    case None =>
      r := None;
    case Some(m) =>
      var e := ComputeLocalErrors(m.kind, F, p, exact);
      r := Some(e);
  }
}

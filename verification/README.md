# Fixed-step solvers for y' = 5 - x^2 - y^2 + 2xy

This project models the numerical core of a small Kotlin desktop program. The
program solves the initial-value problem y' = f(x, y) = 5 - x^2 - y^2 + 2xy
with three fixed-step methods: Euler, Improved Euler (Heun) and classical
fourth-order Runge-Kutta. It also samples the closed-form solution on the same
grid and reports local errors. Every quantity is a mathematical `real`.

- `Wrappers` holds `Option`, the result where the Kotlin code would throw on a
  `!!` of a missing map entry.
- `LinkedMap` models Kotlin's `mutableMapOf()`. That map keeps insertion order,
  and writing an existing key replaces its value in place. The model is a
  sequence of (key, value) pairs with distinct keys, with `Get` and `Put`.
- `Utils` models `src/main/kotlin/utils.kt`:
  - the right-hand side `F`;
  - `InitialValues` with its step size `H` and `Clone`;
  - `TotalErrorData` and the three validation predicates;
  - the closed-form grid loop `ExactGrid`;
  - `GetMaxByValue`.
- `ComputationMethods` models the three `computeFor` loops of
  `src/main/kotlin/computation_methods.kt`. They share one `Step` function per
  method kind and one `Solution` that describes their result.
  `ComputeLocalErrors` is also in this module.
- `MethodsManager` models `ComputationalMethodsManager`:
  - the registry of methods by name;
  - `initMethod` and the `init` block (`Startup`);
  - the lookups `compute` and `computeLocalErrors`.

The solvers are generic over the right-hand side `f`. The manager passes `F`,
which is what `initialFunction` always is. The closed form
`ExactSolution.computeFor(x)` is a parameter `exact: real -> real`.

Three facts about the code shape the model:

- Local errors are the signed difference exact(x) - y
  (`src/main/kotlin/computation_methods.kt:38`), not an absolute value.
- They are taken at the solver's own keys.
- The validation accepts x0 == xMax (see Findings).

## Model

| member | source | states |
|---|---|---|
| Utils.F | src/main/kotlin/utils.kt:15 | the right-hand side 5 - x^2 - y^2 + 2xy; its values and its form 5 - (y - x)^2 are stated by FValues and FOfDifference |
| Utils.FValues | src/main/kotlin/utils.kt:15 | f(0, 1) = 4 and f(0.5, 3) = -1.25, the two slopes of the worked Euler example, and f(1, 3) = 1 |
| Utils.FOfDifference | src/main/kotlin/utils.kt:15 | f depends only on y - x: f = 5 - (y - x)^2, so f is 1 wherever (y - x)^2 = 4 |
| Utils.H | src/main/kotlin/utils.kt:33-34 | numberOfSteps steps of width h span exactly xMax - x0; h > 0 for a proper range with at least one step; h = 0 when x0 == xMax |
| Utils.InitialValues | src/main/kotlin/utils.kt:18-53 | the four constructor arguments of `InitialValuesInfo`; the step size is derived from them by H, not stored |
| Utils.DefaultInitialValues | src/main/kotlin/utils.kt:19-22 | the default arguments (0, 1, 20, 45); DefaultsValid states that they pass validation with step 4/9 |
| Utils.TotalErrorData | src/main/kotlin/utils.kt:55-65 | the two sweep bounds n0 and nMax, without their UI property wrappers |
| Utils.DefaultTotalErrorData | src/main/kotlin/utils.kt:55 | the default bounds (30, 110); DefaultsValid states that they pass EnsureTotalErrorData |
| Utils.Clone | src/main/kotlin/utils.kt:45-52 | the copy has all four fields of the original and therefore the same step size |
| Utils.EnsureTotalErrorData | src/main/kotlin/utils.kt:171-173 | the sweep bounds pass when n0 <= nMax; ValidationBoundaries states where the boundary lies |
| Utils.EnsureInitialValuesCorrect | src/main/kotlin/utils.kt:175-177 | the initial values pass when x0 <= xMax, whatever the step count; ValidationBoundaries and AcceptedGridNeverExits state its consequences |
| Utils.EnsureDataCorrect | src/main/kotlin/utils.kt:167-169 | both checks together; DegenerateRangeAccepted and DefaultsValid evaluate it |
| Utils.ValidationBoundaries | src/main/kotlin/utils.kt:167-177 | both checks accept equal bounds and reject only a strictly reversed pair; the step count is never inspected |
| Utils.GridX | src/main/kotlin/utils.kt:84 | the value of x after k passes of `x += h`; GridXIsArithmetic gives its closed form |
| Utils.GridXIsArithmetic | src/main/kotlin/utils.kt:82-85 | after k passes of `x += h` the loop variable is x0 + k h |
| Utils.GridXAgainstBound | src/main/kotlin/utils.kt:82-85 | when n steps of a positive width h span [x0, xMax], the guard x <= xMax holds exactly for passes 0..n, and pass n lands on xMax |
| Utils.GridAppend | src/main/kotlin/utils.kt:83 | with a positive step each sample key is new, so writing it appends one entry |
| Utils.SampleStart | src/main/kotlin/utils.kt:80-81 | the grid loop starts with an empty map at x0, within the pass bound |
| Utils.SampleStep | src/main/kotlin/utils.kt:82-85 | a pass taken while x <= xMax appends the sample at x and stays within numberOfSteps + 1 passes |
| Utils.SampleExit | src/main/kotlin/utils.kt:82-86 | once x > xMax the samples are the grid points x0 + i h of [x0, xMax], numberOfSteps + 1 of them when x0 <= xMax, none otherwise |
| Utils.SampleGrid | src/main/kotlin/utils.kt:80-86 | for n steps of width h spanning [x0, xMax], the loop returns n + 1 distinct keys x0 + i h, the last xMax, each with exact(x); none when x0 > xMax |
| Utils.ExactGrid | src/main/kotlin/utils.kt:79-87 | the closed-form sampler returns numberOfSteps + 1 distinct keys x0 + i h, all <= xMax, the last one xMax, each mapped to exact(x); the result is empty when x0 > xMax |
| Utils.InitialValuesValid | src/main/kotlin/utils.kt:175-177 | the corrected check accepts only inputs with a positive step, on which the grid loop ends; it refuses, among the inputs the original accepts, exactly those with x0 == xMax or no positive step count |
| Utils.AcceptedGridNeverExits | src/main/kotlin/utils.kt:175-177 | every input with a nonzero step count that the original check accepts but the corrected one refuses keeps the loop guard x <= xMax true after any number of passes |
| Utils.DegenerateRangeAccepted | src/main/kotlin/utils.kt:167-177 | x0 = xMax = 0 with 45 steps passes `ensureDataCorrect` with the default sweep bounds, has step 0, and its grid loop does not terminate |
| Utils.DefaultsValid | src/main/kotlin/utils.kt:18-55 | the defaults (0, 1, 20, 45) of lines 19-22 pass the corrected check with step 4/9, and the default sweep bounds (30, 110) of line 55 pass too |
| Utils.ScanMax | src/main/kotlin/utils.kt:158-163 | the scan returns its start value or one of the visited values; with a real running maximum and no -1.0 among the values, it returns the largest |
| Utils.GetMaxByValue | src/main/kotlin/utils.kt:156-165 | 0.0 for an empty map; otherwise a value of the map; it is the largest value whenever -1.0 does not occur among them |
| Utils.SentinelCollision | src/main/kotlin/utils.kt:158-162 | the map with values -1.0, -5.0 yields -5.0: a genuine -1.0 is mistaken for "no maximum yet" |
| Utils.MaxFrom | src/main/kotlin/utils.kt:159-163 | the corrected scan returns its start value or a visited value, and it is at least every visited value |
| Utils.MaxByValue | src/main/kotlin/utils.kt:156-165 | the corrected maximum: 0.0 for an empty map, otherwise a value of the map that is at least every value |
| Utils.MaxByValueAgrees | src/main/kotlin/utils.kt:156-165 | where -1.0 is not a value, the original scan and the corrected maximum return the same number |
| Utils.SentinelCollisionCorrected | src/main/kotlin/utils.kt:158-162 | on the values -1.0, -5.0 the corrected maximum is -1.0 |
| LinkedMap.Get | src/main/kotlin/computation_methods.kt:16 | a lookup is absent exactly when the key is not among the keys; a present result is the value stored beside that key |
| LinkedMap.Put | src/main/kotlin/computation_methods.kt:24 | keys stay distinct; a new key is appended at the end; an existing key keeps its position and only its value changes, and every other entry is unchanged |
| LinkedMap.ConsDistinct | src/main/kotlin/computation_methods.kt:24 | an entry whose key is new keeps the keys distinct |
| LinkedMap.GetAt | src/main/kotlin/computation_methods.kt:16 | every stored entry is what a lookup of its key returns |
| LinkedMap.GetPut | src/main/kotlin/computation_methods.kt:24 | after a write, the written key reads back the written value and every other key reads back what it did before |
| ComputationMethods.Step | src/main/kotlin/computation_methods.kt:54-101 | the y update of each method: Euler (line 54), Improved Euler (lines 74-76) and Runge-Kutta (lines 96-101); StepConsistent, ImprovedEulerAveragesEuler, StepOfZeroWidth and StepFollowsLine state its properties |
| ComputationMethods.StepOfZeroWidth | src/main/kotlin/computation_methods.kt:54 | a step of width 0 leaves y unchanged for every method |
| ComputationMethods.ImprovedEulerAveragesEuler | src/main/kotlin/computation_methods.kt:74-76 | the Improved Euler step is the mean of y and of an Euler step taken from the Euler-predicted point, i.e. Heun's predictor-corrector |
| ComputationMethods.StepConsistent | src/main/kotlin/computation_methods.kt:54-101 | every step (lines 54, 74-76 and 96-101) is y + h times the method's slope, and the slope at h = 0 is f(x, y): each method is consistent with the equation |
| ComputationMethods.EquilibriaOfF | src/main/kotlin/utils.kt:15 | the lines y = x + 2 and y = x - 2 have slope f = 1 everywhere, so they are exact solutions |
| ComputationMethods.StepFollowsLine | src/main/kotlin/computation_methods.kt:54-101 | on an exact solution line of slope 1, each of the three steps (lines 54, 74-76 and 96-101) advances y by exactly h |
| ComputationMethods.Trajectory | src/main/kotlin/computation_methods.kt:49-57 | n passes give n + 1 entries starting at (x0, y0); key i is the i-th accumulated x, and each entry is one step of the method from the previous one |
| ComputationMethods.TrajectoryDistinct | src/main/kotlin/computation_methods.kt:55-56 | with a nonzero step no key is written twice |
| ComputationMethods.TrajectoryPut | src/main/kotlin/computation_methods.kt:54-56 | one more pass writes a key not yet present, so the map write appends exactly the next trajectory point |
| ComputationMethods.TrajectoryOnGrid | src/main/kotlin/computation_methods.kt:55 | key i of the trajectory is x0 + i h |
| ComputationMethods.TrajectorySnoc | src/main/kotlin/computation_methods.kt:53-57 | one more pass extends the trajectory by exactly one entry: x + h with the method's step from the last entry |
| ComputationMethods.TrajectoryFreshKey | src/main/kotlin/computation_methods.kt:55-56 | with a nonzero step the key written by the next pass is not yet in the map |
| ComputationMethods.Solution | src/main/kotlin/computation_methods.kt:47-59 | the solver map starts with (x0, y0) and has distinct keys; with a step count >= 1 and x0 != xMax it has numberOfSteps + 1 entries; with no steps or x0 == xMax it is the single entry (x0, y0) |
| ComputationMethods.SolutionEndsAtXMax | src/main/kotlin/computation_methods.kt:53-55 | with a step count >= 1 and x0 != xMax the last key is xMax |
| ComputationMethods.SolutionOnGrid | src/main/kotlin/computation_methods.kt:53-55 | with a step count >= 1 and x0 != xMax key i is x0 + i h |
| ComputationMethods.SolutionSteps | src/main/kotlin/computation_methods.kt:53-57 | with a step count >= 1 and x0 != xMax each entry is one step of the method, of width h, from the previous one |
| ComputationMethods.OnePass | src/main/kotlin/computation_methods.kt:53-57 | one loop pass keeps the loop state a prefix of the trajectory, or the single start entry when h = 0 |
| ComputationMethods.Passes | src/main/kotlin/computation_methods.kt:51-57 | after n passes of width h the map is the n-pass trajectory (the start entry alone when h = 0) and (x, y) is its last entry |
| ComputationMethods.PassesGiveSolution | src/main/kotlin/computation_methods.kt:47-59 | the loop's final state is the solution described by Solution |
| ComputationMethods.ComputeFor | src/main/kotlin/computation_methods.kt:87-106 | each solver's `computeFor` returns Solution for its kind, starting with (x0, y0); the same body covers lines 47-59 and 65-81 |
| ComputationMethods.ErrorStep | src/main/kotlin/computation_methods.kt:37-38 | writing the error of the next solver entry appends it, because the solver's keys are distinct |
| ComputationMethods.ErrorsOf | src/main/kotlin/computation_methods.kt:35-40 | for any map with distinct keys, the error map has the same keys in the same order, each with exact(x) - y |
| ComputationMethods.ComputeLocalErrors | src/main/kotlin/computation_methods.kt:34-41 | the error map has the solver's keys in the solver's order, and each value is exact(x) - y for the solver's y at that position |
| ComputationMethods.TrajectoryStepOnLine | src/main/kotlin/computation_methods.kt:53-57 | from a last entry on an exact solution line of slope 1, the next pass adds h to both x and y |
| ComputationMethods.TrajectoryFollowsLine | src/main/kotlin/computation_methods.kt:53-57 | a trajectory started on an exact solution line of slope 1 stays on it at every entry |
| ComputationMethods.SolutionFollowsEquilibrium | src/main/kotlin/computation_methods.kt:47-106 | started with (y0 - x0)^2 = 4, every method reproduces the exact solution y = x + (y0 - x0) at every grid point |
| ComputationMethods.EulerWorkedExample | src/main/kotlin/computation_methods.kt:53-57 | Euler for f from (0, 1) to 1 in 2 steps gives (0, 1), (0.5, 3), (1, 2.375) |
| ComputationMethods.ImprovedEulerWorkedExample | src/main/kotlin/computation_methods.kt:71-78 | Improved Euler on the same problem gives (0, 1), (0.5, 1.6875), (1, 2405807/1048576) |
| ComputationMethods.RungeKuttaWorkedExample | src/main/kotlin/computation_methods.kt:93-103 | one Runge-Kutta step from (0, 1) to 1 gives (1, -3243/8192) |
| MethodsManager.ComputationalMethod.Name | src/main/kotlin/computation_methods.kt:44-85 | the `name` of each subclass (lines 45, 63, 85); NamesDistinct states that they differ |
| MethodsManager.NewMethod | src/main/kotlin/computation_methods.kt:28-31 | a newly constructed method, with `isSelected` initially true (line 30); StartupEntries states it for the registered methods |
| MethodsManager.NamesDistinct | src/main/kotlin/computation_methods.kt:45-85 | the three method names are pairwise different |
| MethodsManager.InitMethod | src/main/kotlin/computation_methods.kt:23-25 | registering keeps names distinct; an already-registered name keeps its position, and a new name goes last |
| MethodsManager.InitMethodLookup | src/main/kotlin/computation_methods.kt:23-25 | after registering, the name looks up the method, and every other name looks up what it did before |
| MethodsManager.StartupChain | src/main/kotlin/computation_methods.kt:9-13 | the three registrations from empty give Euler, Improved Euler, Runge-Kutta, in that order, each selected |
| MethodsManager.StartupKeys | src/main/kotlin/computation_methods.kt:9-13 | that registry holds the three names once each, in registration order |
| MethodsManager.StartupEntries | src/main/kotlin/computation_methods.kt:28-31 | every method in that registry is selected and is stored under its own name |
| MethodsManager.StartupLookup | src/main/kotlin/computation_methods.kt:9-13 | each of the three methods is found under its name |
| MethodsManager.Startup | src/main/kotlin/computation_methods.kt:9-13 | the manager starts with exactly the three methods in the order Euler, Improved Euler, Runge-Kutta, each selected (the property's initial value of line 30) and found under its own name |
| MethodsManager.Compute | src/main/kotlin/computation_methods.kt:15-17 | an unregistered name gives None; a registered one gives the Solution of that method for f |
| MethodsManager.ComputeLocalErrorsByName | src/main/kotlin/computation_methods.kt:19-21 | an unregistered name gives None; a registered one gives that method's local errors: the solver's keys, each with exact(x) - y |

## Left out

- The user interface: `main.kt`, `ChartGenerator` and the chart series. They
  only display what the modelled functions return.
- JavaFX properties and `mapOfProperties`. The fields are plain datatype
  fields.
- `getSelectedMethods` and `computeGlobalErrors` are called by the charts but
  are not defined in the source files modelled here.
- The global-error sweep over n0..nMax is left out for the same reason. Only
  its bounds and their validation are modelled.
- IEEE 754 double arithmetic is left out: rounding, infinities and NaN. The
  model computes in exact reals.
- Because of that, the accumulated x of the loops equals x0 + i h exactly. In
  doubles it can drift from that, and the sampler may take one sample fewer.
- Kotlin's 32-bit `Int` range for `numberOfSteps`, `n0` and `nMax` is not
  modelled; they are unbounded integers.
- The closed form 1/(c e^(4x) - 0.25) + x + 2 is not modelled, since Dafny has
  no exponential. It is the parameter `exact`.
- The closed form reads x0 and y0 from the manager's global initial values.
  A caller passes the matching `exact`.
- The singletons `ComputationalMethodsManager`, `InitialValueFunction` and
  `ExactSolution` are explicit values and parameters.
- The manager's `initialValues` and `totalErrorInfo` fields are arguments.
- Utils.H: requires numberOfSteps != 0. In Kotlin a zero step count makes h an
  infinity or NaN. The solvers never evaluate h then, because their loop does
  not run.
- Utils.ExactGrid: requires a step count != 0, because h is then infinite or
  NaN in Kotlin. There, when x0 <= xMax, the loop exits after the single sample
  (x0, exact(x0)), and when x0 > xMax it takes no sample; the model covers
  neither. It also requires `GridTerminates`: only the inputs that this
  excludes make the loop run forever, which `AcceptedGridNeverExits` states
  instead.
- The claim that RK4 is more accurate than Improved Euler, and that one more
  accurate than Euler, is a statement about convergence of real analysis. It is
  not stated.

## Findings

| source | as written | input that shows it | evidently intended | confidence | as-written member | corrected member |
|---|---|---|---|---|---|---|
| src/main/kotlin/utils.kt:175-177 | `ensureInitialValuesCorrect` accepts x0 <= xMax and ignores the step count. With x0 == xMax and a nonzero step count the step h is 0, so the closed-form loop `while (x <= xMax) x += h` (lines 82-85) never exits. A negative step count is accepted the same way. | x0 = 0, y0 = 1, xMax = 0, numberOfSteps = 45 with the default sweep bounds | accept only x0 < xMax and numberOfSteps >= 1, so the step is positive and the loop stops after numberOfSteps + 1 samples | not executed | Utils.AcceptedGridNeverExits | Utils.InitialValuesValid |
| src/main/kotlin/utils.kt:158-162 | `getMaxByValue` uses -1.0 both as "no maximum yet" and as a value to compare. Once the running maximum is -1.0, the next value replaces it even when it is smaller. | values -1.0, -5.0 give -5.0 | the largest value, here -1.0 | not executed | Utils.SentinelCollision | Utils.MaxByValue |

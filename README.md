# Ant colony route calculator

This project models the route calculator of a small Unity scene. A set of
waypoints is placed in the plane, and the calculator searches for a short
closed tour through all of them by ant colony optimisation:

- It starts from an all-zero N-by-N pheromone table.
- In each iteration, each ant starts at a waypoint and takes N - 1 steps.
  At each step it builds a probability for every waypoint and picks the
  next one by roulette-wheel selection. It then closes the loop back to its
  start.
- Each ant deposits intensity / length on both directions of every step of
  its tour. The deposit goes into a per-iteration accumulator. The ant then
  offers its tour as the best path.
- After the last ant of an iteration, the table is evaporated and the
  accumulator is added to it.

The model follows the code as written, including its defects:

- When the desirabilities total zero, every waypoint gets probability 1 / N,
  visited ones included. On the first iteration (an all-zero table, with
  `pow(0, pheremonePower) = 0`) an ant can therefore return to a waypoint it
  has already visited.
- The best length is never assigned, so every completed tour replaces the
  best path, and the last ant of the last iteration wins.
- The division by the tour length is not guarded. Reals have no infinity or
  NaN, so the model stops the run at a tour of length zero instead (see
  `Route.RouteCalculator.LeavePheremones` under "Left out").
- Selection returns -1 when the draw is not below the last running total.

The modules are:

- `Matrices`: the tables as values — zero, evaporate-and-add, deposit along
  a tour — and the symmetry and sign facts about them.
- `Roulette`: normalisation with the uniform fallback, running totals and
  the first-index-above-the-draw selection.
- `Tours`: one ant, as values — its configuration, desirabilities,
  probabilities, walk, closed tour, tour length, deposit and best-path
  update.
- `Colony`: the iteration and ant loops of the search, as values, and the
  properties of a whole run.
- `Route`: the `RouteCalculator` class. It holds the pheromone table as an
  `array2<real>`, together with the best path and the best length. Each of
  its methods runs the source's loops and is proved equal to the value-level
  definitions.

`UnityEngine.Random` is replaced by parameters:

- `starts(iteration, ant)` is the ant's start index;
- `draws(iteration, ant, step)` is the roulette draw of one step.

`Vector2.Distance` of the waypoint positions becomes a distance table in the
configuration. `Mathf.Pow` becomes a function-valued field of the
configuration.

Where the source would throw, the model stops the run with a fault:

- an index of -1, or any other out-of-range index, reaching `m_WayPoints` or
  `m_Pheremones` gives `IndexOutOfRange`;
- a tour of length zero, where the source would divide by zero, gives
  `ZeroLengthTour`.

## Model

| member | source | states |
|---|---|---|
| Route.NewZeroMatrix | Assets/RouteCalculator.cs:44-51 | a fresh N-by-N array every cell of which is zero |
| Route.RouteCalculator.constructor | Assets/RouteCalculator.cs:27-30 | no table yet, an empty best path, a best length of positive infinity |
| Route.RouteCalculator.InitPheremones | Assets/RouteCalculator.cs:107-117 | the table is replaced by a fresh N-by-N array whose contents are the zero table |
| Route.RouteCalculator.UpdatePheremones | Assets/RouteCalculator.cs:119-128 | every cell becomes evaporation times its old value plus the accumulator's cell, and no other array changes |
| Route.RouteCalculator.MeasureTour | Assets/RouteCalculator.cs:132-139 | fails exactly when the tour has two or more entries and some entry names no waypoint; otherwise returns the sum of consecutive distances, which is non-negative |
| Route.RouteCalculator.LeavePheremones | Assets/RouteCalculator.cs:130-151 | the accumulator becomes `Deposit` of its old value; on an out-of-range entry or a zero length it is left unchanged and the fault is reported |
| Route.RouteCalculator.DepositAlong | Assets/RouteCalculator.cs:143-150 | each step from a to b adds the value to cell (a, b) and to cell (b, a), so the accumulator becomes `Deposited` of its old contents |
| Route.RouteCalculator.GetIndexProbabilities | Assets/RouteCalculator.cs:153-195 | returns `IndexProbabilities` of the current table: zero desirability for visited waypoints, the desirability formula for the others, normalised; fails when the current index names no waypoint and some waypoint is unvisited |
| Route.RouteCalculator.Normalised | Assets/RouteCalculator.cs:179-194 | each desirability divided by the total, or 1 / N for every entry when the total is zero |
| Route.RouteCalculator.ChooseRandomFromProbabilities | Assets/RouteCalculator.cs:197-216 | returns -1 or an index; a returned index is the least one whose running total is strictly above the draw; -1 means no running total is above it |
| Route.RouteCalculator.RunAnt | Assets/RouteCalculator.cs:56-75 | the ant's tour is `AntTour`: N - 1 roulette steps, then the first entry appended, giving N + 1 entries that start and end at the start |
| Route.RouteCalculator.UpdateBestPath | Assets/RouteCalculator.cs:90-105 | the best path becomes the tour exactly when its length is below the stored best length, and the best length is left unchanged |
| Route.RouteCalculator.VisitAnt | Assets/RouteCalculator.cs:56-79 | one ant: the accumulator, the best path and the outcome are those of `AntVisit`, and the pheromone table is not changed |
| Route.RouteCalculator.RunAnts | Assets/RouteCalculator.cs:54-80 | the ants of one iteration, in order and against the same table, give the accumulator, best path and outcome of `AntsFrom` |
| Route.RouteCalculator.Compute | Assets/RouteCalculator.cs:37-88 | the final table, best path and outcome are those of `Run`: a zero table, then per iteration a fresh zero accumulator, the ants, and one update |
| Matrices.SnapshotFrom | Assets/RouteCalculator.cs:27 | an N-by-N array whose cells equal those of a table has that table as its contents |
| Matrices.EdgeDepositExtend | Assets/RouteCalculator.cs:143-150 | one more step of the tour adds that step's deposit, on both directions, to every cell |
| Matrices.EdgeDepositSymmetric | Assets/RouteCalculator.cs:148-149 | a tour's deposit on cell (i, j) equals its deposit on cell (j, i) |
| Matrices.EdgeDepositNonNegative | Assets/RouteCalculator.cs:148-149 | a non-negative value deposits a non-negative amount on every cell |
| Matrices.EdgeDepositOfNothing | Assets/RouteCalculator.cs:148-149 | depositing zero adds nothing to any cell |
| Matrices.DepositedKeepsSymmetry | Assets/RouteCalculator.cs:143-150 | depositing along a tour keeps a symmetric accumulator symmetric |
| Matrices.DepositedKeepsNonNegative | Assets/RouteCalculator.cs:143-150 | depositing a non-negative value keeps a non-negative accumulator non-negative |
| Matrices.DepositedNothingIsIdentity | Assets/RouteCalculator.cs:143-150 | depositing zero leaves the accumulator as it was |
| Matrices.EvaporatedKeepsSymmetry | Assets/RouteCalculator.cs:119-128 | the table update keeps symmetric tables symmetric |
| Matrices.EvaporatedKeepsNonNegative | Assets/RouteCalculator.cs:119-128 | the update keeps the table non-negative when the evaporation and both tables are non-negative |
| Matrices.EvaporatedZeroIsZero | Assets/RouteCalculator.cs:119-128 | updating a zero table with a zero accumulator gives the zero table |
| Matrices.ZeroIsSymmetricAndNonNegative | Assets/RouteCalculator.cs:107-117 | the initial table is symmetric and non-negative |
| Roulette.SumAppend | Assets/RouteCalculator.cs:170 | appending an entry adds it to the running sum |
| Roulette.ScaledPrefixSum | Assets/RouteCalculator.cs:184-187 | with a non-zero total, the first k probabilities sum to the first k weights over the total |
| Roulette.UniformPrefixSum | Assets/RouteCalculator.cs:188-191 | with a zero total, the first k probabilities sum to k / N |
| Roulette.NormaliseSumsToOne | Assets/RouteCalculator.cs:182-192 | the probabilities sum to one, in the fallback case too |
| Roulette.SelectFromIsLeast | Assets/RouteCalculator.cs:209-215 | searching from i returns the least index at or after i whose running total exceeds the draw, or -1 when none does |
| Roulette.SelectIsLeast | Assets/RouteCalculator.cs:199-215 | selection returns -1 exactly when no running total exceeds the draw, and otherwise the least index whose running total does |
| Roulette.LastCumulativeIsSum | Assets/RouteCalculator.cs:202-206 | the last running total is the sum of all probabilities |
| Roulette.ZeroProbabilityNeverSelected | Assets/RouteCalculator.cs:209-213 | a non-negative draw never selects an entry of probability zero |
| Roulette.PrefixSumBelowTotal | Assets/RouteCalculator.cs:202-206 | over non-negative entries every running total is at most the total |
| Roulette.SelectFailsIffDrawReachesTotal | Assets/RouteCalculator.cs:197-216 | over non-negative probabilities, selection returns -1 exactly when the draw is at least the total |
| Roulette.DrawBelowTotalSelects | Assets/RouteCalculator.cs:209-213 | a draw below the total always selects an index |
| Roulette.DrawOfOneFallsThrough | Assets/RouteCalculator.cs:211-215 | a draw of exactly 1 over probabilities summing to exactly 1 yields -1 |
| Tours.TourLengthNonNegative | Assets/RouteCalculator.cs:92-99 | a tour's length is non-negative |
| Tours.TourLengthPositive | Assets/RouteCalculator.cs:132-141 | a tour that steps between two different waypoints has a positive length, so the division is defined |
| Tours.IndexProbabilitiesFacts | Assets/RouteCalculator.cs:153-195 | fails exactly when the current index names no waypoint and some waypoint is unvisited; otherwise one probability per waypoint summing to one, zero for visited waypoints when the total is non-zero, 1 / N for every waypoint when it is zero |
| Tours.WalkFrom | Assets/RouteCalculator.cs:63-72 | a completed walk keeps the visited prefix, ends at an entry of its visited list, and has one entry per remaining step added |
| Tours.AntTour | Assets/RouteCalculator.cs:56-75 | a completed tour has N + 1 entries and starts and ends at the ant's start |
| Tours.Deposit | Assets/RouteCalculator.cs:130-151 | a successful deposit reads only waypoints and keeps the accumulator N by N |
| Tours.DepositSucceeded | Assets/RouteCalculator.cs:141-150 | a successful deposit had a positive length and spread intensity / length over the tour |
| Tours.InfiniteBoundAlwaysReplaced | Assets/RouteCalculator.cs:101-104 | while the best length is positive infinity, every tour becomes the best path |
| Tours.InformedStepSelectsUnvisited | Assets/RouteCalculator.cs:66-71 | a step whose desirabilities have a non-zero total, with a draw in [0, 1), selects an unvisited waypoint and never -1 |
| Tours.InformedStepKeepsDistinct | Assets/RouteCalculator.cs:63-72 | such a step extends a walk of distinct waypoints with a new waypoint and is the walk's next step |
| Tours.InformedWalkVisitsDistinct | Assets/RouteCalculator.cs:63-72 | a walk whose every step is informed completes with N distinct waypoints |
| Tours.InformedTourIsHamiltonianCycle | Assets/RouteCalculator.cs:56-75 | an ant whose every step is informed completes a tour whose first N entries are distinct waypoints and which returns to its start |
| Tours.FirstIterationCanRevisit | Assets/RouteCalculator.cs:184-191 | with two waypoints and the all-zero first table, the 1/2-1/2 fallback and a draw of 1/4 give the tour [0, 0, 0], whose deposit divides by a zero length |
| Tours.FirstStepWeightsAreZero | Assets/RouteCalculator.cs:159-177 | on the all-zero table every desirability is zero, so both probabilities are 1/2 |
| Tours.HalvesSelectFirst | Assets/RouteCalculator.cs:209-213 | a draw of 1/4 over [1/2, 1/2] selects index 0 |
| Colony.AntVisit | Assets/RouteCalculator.cs:56-79 | the accumulator stays N by N |
| Colony.AntsFrom | Assets/RouteCalculator.cs:54-80 | the accumulator stays N by N through the ant loop |
| Colony.IterationsFrom | Assets/RouteCalculator.cs:41-87 | the pheromone table stays N by N through the iteration loop |
| Colony.VisitKeepsSymmetry | Assets/RouteCalculator.cs:77 | one ant keeps the accumulator symmetric |
| Colony.AntsKeepSymmetry | Assets/RouteCalculator.cs:54-80 | the ants of an iteration keep the accumulator symmetric |
| Colony.IterationsKeepSymmetry | Assets/RouteCalculator.cs:41-87 | the iterations keep the table symmetric |
| Colony.RunKeepsPheromonesSymmetric | Assets/RouteCalculator.cs:37-88 | the table at the end of a run is symmetric |
| Colony.VisitKeepsNonNegative | Assets/RouteCalculator.cs:77 | with a non-negative intensity, one ant keeps the accumulator non-negative |
| Colony.AntsKeepNonNegative | Assets/RouteCalculator.cs:54-80 | the ants of an iteration keep the accumulator non-negative |
| Colony.IterationsKeepNonNegative | Assets/RouteCalculator.cs:41-87 | with non-negative evaporation and intensity, the table stays non-negative through the iterations the model runs; on a stop it is the table before the stopping iteration's update |
| Colony.RunKeepsPheromonesNonNegative | Assets/RouteCalculator.cs:37-88 | with non-negative evaporation and intensity, the table at the end of a run that no zero-length tour stopped is non-negative |
| Colony.VisitWithoutIntensityAddsNothing | Assets/RouteCalculator.cs:77 | with zero intensity, one ant leaves the accumulator as it was |
| Colony.AntsWithoutIntensityAddNothing | Assets/RouteCalculator.cs:54-80 | with zero intensity, the accumulator stays zero through an iteration |
| Colony.IterationsWithoutIntensityStayZero | Assets/RouteCalculator.cs:41-87 | with zero intensity, a zero table stays zero through the iterations the model runs |
| Colony.ZeroIntensityKeepsTableZero | Assets/RouteCalculator.cs:37-88 | with zero intensity, the table is zero at the end of a run that no zero-length tour stopped |
| Colony.LastAntWins | Assets/RouteCalculator.cs:79 | with the best length at positive infinity, the best path after a completed iteration is the last ant's tour |
| Colony.AntToursAreClosed | Assets/RouteCalculator.cs:74-75 | every tour the calculator's ants complete starts and ends at the ant's start and has N + 1 entries |
| Colony.CompletedIterationContinues | Assets/RouteCalculator.cs:41-87 | in a run that completes, every ant of the iteration completed and the run goes on from the updated table and the iteration's best path |
| Colony.LastIterationsBestIsClosed | Assets/RouteCalculator.cs:41-87 | after completed iterations, the best path is the tour the last ant of the last iteration completed over an N-by-N table, and it is closed from that ant's start |
| Colony.CompletedRunBestPathIsClosedTour | Assets/RouteCalculator.cs:37-88 | after a completed run with at least one iteration and one ant, the best path is the `AntTour` of the last ant of the last iteration over some N-by-N table, closed from that ant's start with N + 1 entries |
| Colony.LastAntToursAreAntTours | Assets/RouteCalculator.cs:56-75 | a tour the calculator's last ant completes over a table is that ant's `AntTour` over it |

## Left out

- Rendering: `DrawPath`, `DrawLine` and the line material are not part of this model.
- Coroutine pacing: `StartComputing`, `yield return` and `WaitForSeconds` only
  spread the iterations over frames. `Compute` runs all iterations in one call.
- `WayPointSpawner.cs` only places the waypoints and is not part of this model.
  The waypoints enter as the distance table.
- Floating point: all arithmetic is over the reals. Rounding, infinities and NaN
  are not modelled.
- `Vector2.Distance` and `Mathf.Pow` are not modelled. The distance table and the
  power function are configuration values.
- Tours.ValidConfig: requires distinct waypoints to be at a positive distance.
  Coincident waypoints give `1 / 0 = +inf` in the source, which has no real
  counterpart.
- Route.RouteCalculator.LeavePheremones: a tour of length zero stops the run with
  `ZeroLengthTour`. The source instead divides by zero and carries on with
  infinite or NaN pheromone. For this reason `Colony.RunKeepsPheromonesNonNegative`
  and `Colony.ZeroIntensityKeepsTableZero` only cover runs that no zero-length
  tour stopped.
- Out-of-range indices stop the run with `IndexOutOfRange`, where the source throws
  and the coroutine ends. A -1 from selection that only lands in the ant's visited
  list is carried on, as in the source, until something indexes with it.
- Route.RouteCalculator.UpdateBestPath: requires a tour whose entries name
  waypoints. In `Compute` it runs only after `LeavePheremones` has measured the
  same tour successfully.
- Route.RouteCalculator.UpdatePheremones: requires the accumulator and the table to
  be different arrays. `Compute` always passes a freshly allocated accumulator.
- `UnityEngine.Random` is not modelled. The start indices and the draws are function
  parameters, and their range is not restricted.

/**
 * The whole optimisation run of the route calculator, as values: each
 * iteration starts a fresh all-zero accumulator, runs every ant against the
 * same pheromone table, deposits each completed tour into the accumulator and
 * offers it to the best-path bookkeeping, and only after the last ant
 * evaporates the table and adds the accumulator, once. An ant that reaches an
 * index outside the waypoint list, or a tour of length zero, stops the run
 * where it is. `Route.RouteCalculator.Compute` is proved equal to `Run`.
 *
 * The iteration structure is stated for any way of building a tour (a
 * `TourMaker`); `Run` uses the route calculator's own, `AntTours`.
 */
module Colony {
  import opened Matrices
  import opened Tours

  /** The accumulator, the best path and how the ants of one iteration ended. */
  datatype Progress = Progress(add: Matrix, bestPath: seq<int>, outcome: Outcome)

  /** The pheromone table, the best path and how the run ended. */
  datatype State = State(pheremones: Matrix, bestPath: seq<int>, outcome: Outcome)

  /** How ant `index` of iteration `iteration` builds its tour over pheromone table `p`. */
  type TourMaker = (Matrix, int, int) -> Result<Ant>

  /**
   * The route calculator's ants: ant `index` of iteration `iteration` starts
   * at `starts(iteration, index)` and steps with the draws
   * `draws(iteration, index, _)`. Only N-by-N tables are ever passed to it.
   */
  function AntTours(c: Config, starts: (int, int) -> int, draws: (int, int, int) -> real): TourMaker
    requires ValidConfig(c)
  {
    (p: Matrix, iteration: int, index: int) =>
      if IsSquare(p, WayPointCount(c)) then AntTour(c, p, starts(iteration, index), draws, iteration, index)
      else Err(IndexOutOfRange)
  }

  /**
   * One ant: its tour over table `p`, its deposit into the accumulator, its
   * offer as the best path; or the fault that stops it, with the accumulator
   * and the best path untouched.
   */
  function AntVisit(c: Config, tour: TourMaker, p: Matrix, add: Matrix, best: seq<int>, bestLength: Bound,
                    iteration: int, index: int): (r: Progress)
    requires ValidConfig(c) && IsSquare(add, WayPointCount(c))
    ensures IsSquare(r.add, WayPointCount(c))
  {
    match tour(p, iteration, index)
    case Err(f) => Progress(add, best, Aborted(f))
    case Ok(ant) =>
      match Deposit(c, add, ant.visited)
      case Err(f) => Progress(add, best, Aborted(f))
      case Ok(add') => Progress(add', UpdatedBest(c, bestLength, best, ant.visited), Completed)
  }

  /** Ants `index` .. antsPerIteration - 1 of iteration `iteration`, all reading table `p`. */
  function AntsFrom(c: Config, tour: TourMaker, p: Matrix, add: Matrix, best: seq<int>, bestLength: Bound,
                    iteration: int, index: int): (r: Progress)
    requires ValidConfig(c) && IsSquare(add, WayPointCount(c))
    decreases c.antsPerIteration - index
    ensures IsSquare(r.add, WayPointCount(c))
  {
    if index >= c.antsPerIteration then Progress(add, best, Completed)
    else
      var visit := AntVisit(c, tour, p, add, best, bestLength, iteration, index);
      if visit.outcome.Aborted? then visit
      else AntsFrom(c, tour, p, visit.add, visit.bestPath, bestLength, iteration, index + 1)
  }

  /** Iterations `iteration` .. iterations - 1, from table `p`. */
  function IterationsFrom(c: Config, tour: TourMaker, p: Matrix, best: seq<int>, bestLength: Bound,
                          iteration: int): (r: State)
    requires ValidConfig(c) && IsSquare(p, WayPointCount(c))
    decreases c.iterations - iteration
    ensures IsSquare(r.pheremones, WayPointCount(c))
  {
    if iteration >= c.iterations then State(p, best, Completed)
    else
      var ants := AntsFrom(c, tour, p, Zero(WayPointCount(c)), best, bestLength, iteration, 0);
      if ants.outcome.Aborted? then State(p, ants.bestPath, ants.outcome)
      else IterationsFrom(c, tour, Evaporated(p, ants.add, c.evaporation), ants.bestPath, bestLength, iteration + 1)
  }

  /** The run: the table starts all zero, the best path as it was before. */
  function Run(c: Config, best: seq<int>, bestLength: Bound,
               starts: (int, int) -> int, draws: (int, int, int) -> real): State
    requires ValidConfig(c)
  {
    IterationsFrom(c, AntTours(c, starts, draws), Zero(WayPointCount(c)), best, bestLength, 0)
  }

  /** One ant deposits the same amount on both cells of every step. */
  lemma VisitKeepsSymmetry(c: Config, tour: TourMaker, p: Matrix, add: Matrix, best: seq<int>, bestLength: Bound,
                           iteration: int, index: int)
    requires ValidConfig(c) && IsSquare(add, WayPointCount(c)) && IsSymmetric(add)
    ensures IsSymmetric(AntVisit(c, tour, p, add, best, bestLength, iteration, index).add)
  {
    var t := tour(p, iteration, index);
    if t.Ok? && Deposit(c, add, t.value.visited).Ok? {
      var v := t.value.visited;
      DepositedKeepsSymmetry(add, v, c.pheremoneIntensity / TourLength(c, v));
    }
  }

  lemma {:induction false} AntsKeepSymmetry(c: Config, tour: TourMaker, p: Matrix, add: Matrix, best: seq<int>,
                                            bestLength: Bound, iteration: int, index: int)
    requires ValidConfig(c) && IsSquare(add, WayPointCount(c)) && IsSymmetric(add)
    ensures IsSymmetric(AntsFrom(c, tour, p, add, best, bestLength, iteration, index).add)
    decreases c.antsPerIteration - index
  {
    if index < c.antsPerIteration {
      var visit := AntVisit(c, tour, p, add, best, bestLength, iteration, index);
      VisitKeepsSymmetry(c, tour, p, add, best, bestLength, iteration, index);
      if visit.outcome.Completed? {
        AntsKeepSymmetry(c, tour, p, visit.add, visit.bestPath, bestLength, iteration, index + 1);
      }
    }
  }

  lemma {:induction false} IterationsKeepSymmetry(c: Config, tour: TourMaker, p: Matrix, best: seq<int>,
                                                  bestLength: Bound, iteration: int)
    requires ValidConfig(c) && IsSquare(p, WayPointCount(c)) && IsSymmetric(p)
    ensures IsSymmetric(IterationsFrom(c, tour, p, best, bestLength, iteration).pheremones)
    decreases c.iterations - iteration
  {
    if iteration < c.iterations {
      var n := WayPointCount(c);
      ZeroIsSymmetricAndNonNegative(n);
      AntsKeepSymmetry(c, tour, p, Zero(n), best, bestLength, iteration, 0);
      var ants := AntsFrom(c, tour, p, Zero(n), best, bestLength, iteration, 0);
      if ants.outcome.Completed? {
        EvaporatedKeepsSymmetry(p, ants.add, c.evaporation);
        IterationsKeepSymmetry(c, tour, Evaporated(p, ants.add, c.evaporation), ants.bestPath, bestLength,
                               iteration + 1);
      }
    }
  }

  /** However the run ends, the pheromone table is symmetric. */
  lemma RunKeepsPheromonesSymmetric(c: Config, best: seq<int>, bestLength: Bound,
                                    starts: (int, int) -> int, draws: (int, int, int) -> real)
    requires ValidConfig(c)
    ensures IsSymmetric(Run(c, best, bestLength, starts, draws).pheremones)
  {
    ZeroIsSymmetricAndNonNegative(WayPointCount(c));
    IterationsKeepSymmetry(c, AntTours(c, starts, draws), Zero(WayPointCount(c)), best, bestLength, 0);
  }

  /** One ant deposits a non-negative intensity divided by a positive length. */
  lemma VisitKeepsNonNegative(c: Config, tour: TourMaker, p: Matrix, add: Matrix, best: seq<int>,
                              bestLength: Bound, iteration: int, index: int)
    requires ValidConfig(c) && IsSquare(add, WayPointCount(c))
    requires IsNonNegative(add) && 0.0 <= c.pheremoneIntensity
    ensures IsNonNegative(AntVisit(c, tour, p, add, best, bestLength, iteration, index).add)
  {
    var t := tour(p, iteration, index);
    if t.Ok? && Deposit(c, add, t.value.visited).Ok? {
      var v := t.value.visited;
      DepositSucceeded(c, add, v);
      assert 0.0 <= c.pheremoneIntensity / TourLength(c, v);
      DepositedKeepsNonNegative(add, v, c.pheremoneIntensity / TourLength(c, v));
    }
  }

  lemma {:induction false} AntsKeepNonNegative(c: Config, tour: TourMaker, p: Matrix, add: Matrix, best: seq<int>,
                                               bestLength: Bound, iteration: int, index: int)
    requires ValidConfig(c) && IsSquare(add, WayPointCount(c))
    requires IsNonNegative(add) && 0.0 <= c.pheremoneIntensity
    ensures IsNonNegative(AntsFrom(c, tour, p, add, best, bestLength, iteration, index).add)
    decreases c.antsPerIteration - index
  {
    if index < c.antsPerIteration {
      var visit := AntVisit(c, tour, p, add, best, bestLength, iteration, index);
      VisitKeepsNonNegative(c, tour, p, add, best, bestLength, iteration, index);
      if visit.outcome.Completed? {
        AntsKeepNonNegative(c, tour, p, visit.add, visit.bestPath, bestLength, iteration, index + 1);
      }
    }
  }

  /**
   * The iterations keep the table non-negative. When an ant stops the run,
   * the table is the one the model stops with, before that iteration's update.
   */
  lemma {:induction false} IterationsKeepNonNegative(c: Config, tour: TourMaker, p: Matrix, best: seq<int>,
                                                     bestLength: Bound, iteration: int)
    requires ValidConfig(c) && IsSquare(p, WayPointCount(c)) && IsNonNegative(p)
    requires 0.0 <= c.evaporation && 0.0 <= c.pheremoneIntensity
    ensures IsNonNegative(IterationsFrom(c, tour, p, best, bestLength, iteration).pheremones)
    decreases c.iterations - iteration
  {
    if iteration < c.iterations {
      var n := WayPointCount(c);
      ZeroIsSymmetricAndNonNegative(n);
      AntsKeepNonNegative(c, tour, p, Zero(n), best, bestLength, iteration, 0);
      var ants := AntsFrom(c, tour, p, Zero(n), best, bestLength, iteration, 0);
      if ants.outcome.Completed? {
        EvaporatedKeepsNonNegative(p, ants.add, c.evaporation);
        IterationsKeepNonNegative(c, tour, Evaporated(p, ants.add, c.evaporation), ants.bestPath, bestLength,
                                  iteration + 1);
      }
    }
  }

  /**
   * With a non-negative evaporation factor and intensity, the pheromone table
   * never holds a negative value: the deposit divides a non-negative intensity
   * by a positive length. A run stopped by a zero-length tour is excluded:
   * there the source goes on with an infinite or NaN deposit.
   */
  lemma RunKeepsPheromonesNonNegative(c: Config, best: seq<int>, bestLength: Bound,
                                      starts: (int, int) -> int, draws: (int, int, int) -> real)
    requires ValidConfig(c) && 0.0 <= c.evaporation && 0.0 <= c.pheremoneIntensity
    requires Run(c, best, bestLength, starts, draws).outcome != Aborted(ZeroLengthTour)
    ensures IsNonNegative(Run(c, best, bestLength, starts, draws).pheremones)
  {
    ZeroIsSymmetricAndNonNegative(WayPointCount(c));
    IterationsKeepNonNegative(c, AntTours(c, starts, draws), Zero(WayPointCount(c)), best, bestLength, 0);
  }

  /** An ant with no intensity to deposit leaves the accumulator as it was. */
  lemma VisitWithoutIntensityAddsNothing(c: Config, tour: TourMaker, p: Matrix, add: Matrix, best: seq<int>,
                                         bestLength: Bound, iteration: int, index: int)
    requires ValidConfig(c) && IsSquare(add, WayPointCount(c)) && c.pheremoneIntensity == 0.0
    ensures AntVisit(c, tour, p, add, best, bestLength, iteration, index).add == add
  {
    var t := tour(p, iteration, index);
    if t.Ok? && Deposit(c, add, t.value.visited).Ok? {
      var v := t.value.visited;
      DepositSucceeded(c, add, v);
      assert c.pheremoneIntensity / TourLength(c, v) == 0.0;
      DepositedNothingIsIdentity(add, v);
    }
  }

  lemma {:induction false} AntsWithoutIntensityAddNothing(c: Config, tour: TourMaker, p: Matrix, best: seq<int>,
                                                          bestLength: Bound, iteration: int, index: int)
    requires ValidConfig(c) && c.pheremoneIntensity == 0.0
    ensures AntsFrom(c, tour, p, Zero(WayPointCount(c)), best, bestLength, iteration, index).add
         == Zero(WayPointCount(c))
    decreases c.antsPerIteration - index
  {
    var zero := Zero(WayPointCount(c));
    if index < c.antsPerIteration {
      var visit := AntVisit(c, tour, p, zero, best, bestLength, iteration, index);
      VisitWithoutIntensityAddsNothing(c, tour, p, zero, best, bestLength, iteration, index);
      if visit.outcome.Completed? {
        AntsWithoutIntensityAddNothing(c, tour, p, visit.bestPath, bestLength, iteration, index + 1);
      }
    }
  }

  /**
   * With zero intensity the iterations keep a zero table zero. When an ant
   * stops the run, the table is the one the model stops with.
   */
  lemma {:induction false} IterationsWithoutIntensityStayZero(c: Config, tour: TourMaker, best: seq<int>,
                                                              bestLength: Bound, iteration: int)
    requires ValidConfig(c) && c.pheremoneIntensity == 0.0
    ensures IterationsFrom(c, tour, Zero(WayPointCount(c)), best, bestLength, iteration).pheremones
         == Zero(WayPointCount(c))
    decreases c.iterations - iteration
  {
    var n := WayPointCount(c);
    if iteration < c.iterations {
      AntsWithoutIntensityAddNothing(c, tour, Zero(n), best, bestLength, iteration, 0);
      var ants := AntsFrom(c, tour, Zero(n), Zero(n), best, bestLength, iteration, 0);
      if ants.outcome.Completed? {
        EvaporatedZeroIsZero(n, c.evaporation);
        IterationsWithoutIntensityStayZero(c, tour, ants.bestPath, bestLength, iteration + 1);
      }
    }
  }

  /**
   * With zero intensity nothing is ever deposited, so the table stays all
   * zero for the whole run and every step of every ant falls back to the
   * uniform distribution whenever `pow(0, pheremonePower)` is zero. A run
   * stopped by a zero-length tour is excluded: there the source computes
   * 0 / 0 and goes on with NaN pheromone.
   */
  lemma ZeroIntensityKeepsTableZero(c: Config, best: seq<int>, bestLength: Bound,
                                    starts: (int, int) -> int, draws: (int, int, int) -> real)
    requires ValidConfig(c) && c.pheremoneIntensity == 0.0
    requires Run(c, best, bestLength, starts, draws).outcome != Aborted(ZeroLengthTour)
    ensures Run(c, best, bestLength, starts, draws).pheremones == Zero(WayPointCount(c))
  {
    IterationsWithoutIntensityStayZero(c, AntTours(c, starts, draws), best, bestLength, 0);
  }

  /**
   * Because `m_BestPathLength` stays at positive infinity, the best path
   * after an iteration whose ants all completed is the last ant's tour,
   * whatever its length.
   */
  lemma {:induction false} LastAntWins(c: Config, tour: TourMaker, p: Matrix, add: Matrix, best: seq<int>,
                                       iteration: int, index: int)
    requires ValidConfig(c) && IsSquare(add, WayPointCount(c))
    requires 0 <= index < c.antsPerIteration
    requires AntsFrom(c, tour, p, add, best, PositiveInfinity, iteration, index).outcome.Completed?
    ensures var last := tour(p, iteration, c.antsPerIteration - 1);
      last.Ok? && AntsFrom(c, tour, p, add, best, PositiveInfinity, iteration, index).bestPath == last.value.visited
    decreases c.antsPerIteration - index
  {
    var visit := AntVisit(c, tour, p, add, best, PositiveInfinity, iteration, index);
    if index + 1 < c.antsPerIteration {
      LastAntWins(c, tour, p, visit.add, visit.bestPath, iteration, index + 1);
    } else {
      InfiniteBoundAlwaysReplaced(c, best, tour(p, iteration, index).value.visited);
    }
  }

  /** Every tour the maker completes starts and ends at the ant's start and has m + 1 entries. */
  ghost predicate ClosedTours(tour: TourMaker, starts: (int, int) -> int, m: nat) {
    forall p, iteration, index :: tour(p, iteration, index).Ok? ==>
      IsClosedTour(tour(p, iteration, index).value.visited, starts(iteration, index), m)
  }

  lemma AntToursAreClosed(c: Config, starts: (int, int) -> int, draws: (int, int, int) -> real)
    requires ValidConfig(c)
    ensures ClosedTours(AntTours(c, starts, draws), starts, if WayPointCount(c) == 0 then 1 else WayPointCount(c))
  {
  }

  /**
   * `path` is the tour the last ant of the last iteration completes over some
   * N-by-N pheromone table `q`.
   */
  predicate MadeByLastAnt(c: Config, tour: TourMaker, q: Matrix, path: seq<int>) {
    && IsSquare(q, WayPointCount(c))
    && tour(q, c.iterations - 1, c.antsPerIteration - 1).Ok?
    && tour(q, c.iterations - 1, c.antsPerIteration - 1).value.visited == path
  }

  /**
   * The best path of state `s` is the last ant's tour over some table, and a
   * closed tour from that ant's start with m + 1 entries.
   */
  ghost predicate BestIsLastTour(c: Config, tour: TourMaker, s: State, start: int, m: nat) {
    && IsClosedTour(s.bestPath, start, m)
    && exists q :: MadeByLastAnt(c, tour, q, s.bestPath)
  }

  lemma {:induction false} LastIterationsBestIsClosed(c: Config, tour: TourMaker, starts: (int, int) -> int,
                                                      p: Matrix, best: seq<int>, iteration: int)
    requires ValidConfig(c) && IsSquare(p, WayPointCount(c))
    requires ClosedTours(tour, starts, if WayPointCount(c) == 0 then 1 else WayPointCount(c))
    requires 0 <= iteration < c.iterations && 0 < c.antsPerIteration
    requires IterationsFrom(c, tour, p, best, PositiveInfinity, iteration).outcome.Completed?
    ensures BestIsLastTour(c, tour, IterationsFrom(c, tour, p, best, PositiveInfinity, iteration),
                           starts(c.iterations - 1, c.antsPerIteration - 1),
                           if WayPointCount(c) == 0 then 1 else WayPointCount(c))
    decreases c.iterations - iteration
  {
    var ants := AntsFrom(c, tour, p, Zero(WayPointCount(c)), best, PositiveInfinity, iteration, 0);
    CompletedIterationContinues(c, tour, p, best, PositiveInfinity, iteration);
    LastAntWins(c, tour, p, Zero(WayPointCount(c)), best, iteration, 0);
    if iteration + 1 < c.iterations {
      LastIterationsBestIsClosed(c, tour, starts, Evaporated(p, ants.add, c.evaporation), ants.bestPath,
                                 iteration + 1);
    } else {
      assert MadeByLastAnt(c, tour, p, ants.bestPath);
    }
  }

  /**
   * An iteration of a run that completes had all its ants complete, and the
   * run goes on from the updated table and the iteration's best path.
   */
  lemma CompletedIterationContinues(c: Config, tour: TourMaker, p: Matrix, best: seq<int>, bestLength: Bound,
                                    iteration: int)
    requires ValidConfig(c) && IsSquare(p, WayPointCount(c)) && 0 <= iteration < c.iterations
    requires IterationsFrom(c, tour, p, best, bestLength, iteration).outcome.Completed?
    ensures var ants := AntsFrom(c, tour, p, Zero(WayPointCount(c)), best, bestLength, iteration, 0);
      && ants.outcome.Completed?
      && IterationsFrom(c, tour, p, best, bestLength, iteration)
         == IterationsFrom(c, tour, Evaporated(p, ants.add, c.evaporation), ants.bestPath, bestLength, iteration + 1)
  {
  }

  /**
   * After a completed run of at least one iteration of at least one ant, with
   * the best length still at positive infinity, the best path is the tour the
   * last ant of the last iteration built over the table it read, and so a
   * closed tour from that ant's start back to its start.
   */
  lemma CompletedRunBestPathIsClosedTour(c: Config, best: seq<int>,
                                         starts: (int, int) -> int, draws: (int, int, int) -> real)
    requires ValidConfig(c) && 0 < c.iterations && 0 < c.antsPerIteration
    requires Run(c, best, PositiveInfinity, starts, draws).outcome.Completed?
    ensures IsClosedTour(Run(c, best, PositiveInfinity, starts, draws).bestPath,
                         starts(c.iterations - 1, c.antsPerIteration - 1),
                         if WayPointCount(c) == 0 then 1 else WayPointCount(c))
    ensures exists q :: IsLastAntTour(c, q, starts, draws, Run(c, best, PositiveInfinity, starts, draws).bestPath)
  {
    AntToursAreClosed(c, starts, draws);
    LastIterationsBestIsClosed(c, AntTours(c, starts, draws), starts, Zero(WayPointCount(c)), best, 0);
    LastAntToursAreAntTours(c, starts, draws, Run(c, best, PositiveInfinity, starts, draws).bestPath);
  }

  /** A path the calculator's last ant completes over some table is that ant's `AntTour` over it. */
  lemma LastAntToursAreAntTours(c: Config, starts: (int, int) -> int, draws: (int, int, int) -> real,
                                path: seq<int>)
    requires ValidConfig(c)
    requires exists q :: MadeByLastAnt(c, AntTours(c, starts, draws), q, path)
    ensures exists q :: IsLastAntTour(c, q, starts, draws, path)
  {
    var q :| MadeByLastAnt(c, AntTours(c, starts, draws), q, path);
    assert IsLastAntTour(c, q, starts, draws, path);
  }

  /** `path` is the last ant's `AntTour` over the N-by-N table `q`. */
  predicate IsLastAntTour(c: Config, q: Matrix, starts: (int, int) -> int, draws: (int, int, int) -> real,
                          path: seq<int>)
    requires ValidConfig(c)
  {
    && IsSquare(q, WayPointCount(c))
    && var last := AntTour(c, q, starts(c.iterations - 1, c.antsPerIteration - 1), draws,
                           c.iterations - 1, c.antsPerIteration - 1);
       last.Ok? && last.value.visited == path
  }
}

/**
 * One ant of the route calculator, as values: the configuration the
 * calculator reads, the desirability of each waypoint, the probabilities
 * built from them, the walk that picks the next waypoint N - 1 times and
 * closes the loop, the length of a tour, the deposit a tour leaves, and the
 * best-path bookkeeping. The methods of `Route.RouteCalculator` are proved
 * equal to these functions.
 */
module Tours {
  import opened Matrices
  import opened Roulette

  /**
   * What the calculator reads and never writes: its serialized tuning fields,
   * the distances between the waypoints (what `Vector2.Distance` returns for
   * their positions) and the power function `Mathf.Pow`.
   */
  datatype Config = Config(
    antsPerIteration: int,
    iterations: int,
    distancePower: real,
    pheremonePower: real,
    evaporation: real,
    pheremoneIntensity: real,
    distance: Matrix,
    pow: (real, real) -> real)

  /** The number of waypoints, `m_WayPoints.Count`. */
  function WayPointCount(c: Config): nat {
    |c.distance|
  }

  /**
   * Distances are symmetric, zero from a waypoint to itself and positive
   * between two different waypoints (no two waypoints share a position).
   */
  predicate ValidConfig(c: Config) {
    var d, n := c.distance, |c.distance|;
    && IsSquare(d, n)
    && (forall i, j :: 0 <= i < n && 0 <= j < n ==> d[i][j] == d[j][i])
    && (forall i :: 0 <= i < n ==> d[i][i] == 0.0)
    && (forall i, j :: 0 <= i < n && 0 <= j < n && i != j ==> 0.0 < d[i][j])
  }

  /** Why a run stops early: an index outside the waypoint list, or a tour of length zero. */
  datatype Fault = IndexOutOfRange | ZeroLengthTour

  datatype Result<T> = Ok(value: T) | Err(fault: Fault)

  datatype Outcome = Completed | Aborted(fault: Fault)

  /** The source's `Ant` struct: the waypoints visited so far, in order, and the current one. */
  datatype Ant = Ant(visited: seq<int>, current: int)

  /** `m_BestPathLength`: a float that starts at positive infinity. */
  datatype Bound = Finite(value: real) | PositiveInfinity

  predicate Below(x: real, b: Bound) {
    b.PositiveInfinity? || x < b.value
  }

  predicate OnWayPoints(t: seq<int>, n: nat) {
    forall k :: 0 <= k < |t| ==> 0 <= t[k] < n
  }

  /** Every index the length loop reads names a waypoint (it reads none when |t| < 2). */
  predicate Measurable(t: seq<int>, n: nat) {
    |t| < 2 || OnWayPoints(t, n)
  }

  /** The sum of the distances between consecutive entries of `t`. */
  function TourLength(c: Config, t: seq<int>): real
    requires ValidConfig(c) && Measurable(t, WayPointCount(c))
    decreases |t|
  {
    if |t| < 2 then 0.0
    else TourLength(c, t[..|t| - 1]) + c.distance[t[|t| - 2]][t[|t| - 1]]
  }

  lemma {:induction false} TourLengthNonNegative(c: Config, t: seq<int>)
    requires ValidConfig(c) && Measurable(t, WayPointCount(c))
    ensures 0.0 <= TourLength(c, t)
    decreases |t|
  {
    if |t| >= 2 {
      TourLengthNonNegative(c, t[..|t| - 1]);
      var a, b := t[|t| - 2], t[|t| - 1];
      assert 0.0 <= c.distance[a][b] by {
        if a != b {
          assert 0.0 < c.distance[a][b];
        }
      }
    }
  }

  /** A tour of two or more waypoints that steps between two different ones has positive length. */
  lemma {:induction false} TourLengthPositive(c: Config, t: seq<int>, k: nat)
    requires ValidConfig(c) && Measurable(t, WayPointCount(c))
    requires k + 1 < |t| && t[k] != t[k + 1]
    ensures 0.0 < TourLength(c, t)
    decreases |t|
  {
    if k + 2 < |t| {
      TourLengthPositive(c, t[..|t| - 1], k);
      assert 0.0 <= c.distance[t[|t| - 2]][t[|t| - 1]] by {
        if t[|t| - 2] != t[|t| - 1] {
          assert 0.0 < c.distance[t[|t| - 2]][t[|t| - 1]];
        }
      }
    } else {
      TourLengthNonNegative(c, t[..|t| - 1]);
    }
  }

  /**
   * Whether the probability loop can read what it needs: it reads the current
   * waypoint's row only when some waypoint is still unvisited.
   */
  predicate CanRead(c: Config, ant: Ant) {
    || 0 <= ant.current < WayPointCount(c)
    || forall i :: 0 <= i < WayPointCount(c) ==> i in ant.visited
  }

  /** `pow(1 / distance, distancePower) * pow(pheromone, pheremonePower)`. */
  function Desirability(c: Config, p: Matrix, from: int, to: int): real
    requires ValidConfig(c) && IsSquare(p, WayPointCount(c))
    requires 0 <= from < WayPointCount(c) && 0 <= to < WayPointCount(c) && from != to
  {
    c.pow(1.0 / c.distance[from][to], c.distancePower) * c.pow(p[from][to], c.pheremonePower)
  }

  /** Zero for a visited waypoint, its desirability from the current one otherwise. */
  function Weight(c: Config, p: Matrix, ant: Ant, i: int): real
    requires ValidConfig(c) && IsSquare(p, WayPointCount(c)) && ant.current in ant.visited
    requires 0 <= i < WayPointCount(c) && (i in ant.visited || 0 <= ant.current < WayPointCount(c))
  {
    if i in ant.visited then 0.0 else Desirability(c, p, ant.current, i)
  }

  function Weights(c: Config, p: Matrix, ant: Ant): (w: seq<real>)
    requires ValidConfig(c) && IsSquare(p, WayPointCount(c))
    requires ant.current in ant.visited && CanRead(c, ant)
    ensures |w| == WayPointCount(c)
  {
    seq(WayPointCount(c), i requires 0 <= i < WayPointCount(c) => Weight(c, p, ant, i))
  }

  /** What `GetIndexProbabilities` returns for `ant` over pheromone table `p`. */
  function IndexProbabilities(c: Config, p: Matrix, ant: Ant): Result<seq<real>>
    requires ValidConfig(c) && IsSquare(p, WayPointCount(c)) && ant.current in ant.visited
  {
    if CanRead(c, ant) then Ok(Normalise(Weights(c, p, ant))) else Err(IndexOutOfRange)
  }

  /**
   * The probabilities: one per waypoint, summing to one; when the desirabilities
   * have a non-zero total every visited waypoint gets zero, otherwise every
   * waypoint, visited or not, gets 1 / N. They fail only when the current
   * index is not a waypoint and some waypoint is unvisited.
   */
  lemma IndexProbabilitiesFacts(c: Config, p: Matrix, ant: Ant)
    requires ValidConfig(c) && IsSquare(p, WayPointCount(c)) && ant.current in ant.visited
    ensures IndexProbabilities(c, p, ant).Err? <==>
      !(0 <= ant.current < WayPointCount(c)) && exists i :: 0 <= i < WayPointCount(c) && i !in ant.visited
    ensures IndexProbabilities(c, p, ant).Ok? ==>
      var probs, n := IndexProbabilities(c, p, ant).value, WayPointCount(c);
      && |probs| == n
      && (n > 0 ==> Sum(probs) == 1.0)
      && (Sum(Weights(c, p, ant)) != 0.0 ==>
            forall i :: 0 <= i < n ==>
              probs[i] == Weights(c, p, ant)[i] / Sum(Weights(c, p, ant))
              && (i in ant.visited ==> probs[i] == 0.0))
      && (Sum(Weights(c, p, ant)) == 0.0 ==> forall i :: 0 <= i < n ==> probs[i] == 1.0 / (n as real))
  {
    if CanRead(c, ant) && WayPointCount(c) > 0 {
      NormaliseSumsToOne(Weights(c, p, ant));
    }
  }

  function Advance(ant: Ant, next: int): Ant {
    Ant(ant.visited + [next], next)
  }

  /**
   * The ant's remaining steps, from step `step` up to N - 2: compute the
   * probabilities, select with the step's draw, move there.
   */
  function WalkFrom(c: Config, p: Matrix, ant: Ant, step: int,
                    draws: (int, int, int) -> real, iteration: int, index: int): (r: Result<Ant>)
    requires ValidConfig(c) && IsSquare(p, WayPointCount(c)) && ant.current in ant.visited
    decreases WayPointCount(c) - 1 - step
    ensures r.Ok? ==> r.value.current in r.value.visited && ant.visited <= r.value.visited
    ensures r.Ok? ==>
      |r.value.visited| == |ant.visited| + (if step < WayPointCount(c) - 1 then WayPointCount(c) - 1 - step else 0)
  {
    if step >= WayPointCount(c) - 1 then Ok(ant)
    else match IndexProbabilities(c, p, ant)
      case Err(f) => Err(f)
      case Ok(probs) =>
        WalkFrom(c, p, Advance(ant, Select(probs, draws(iteration, index, step))), step + 1, draws, iteration, index)
  }

  predicate IsClosedTour(t: seq<int>, start: int, m: nat) {
    |t| == m + 1 && t[0] == start && t[m] == start
  }

  /**
   * The tour of ant `index` in iteration `iteration`, starting at `start`: the
   * walk, closed by appending its first entry. With N waypoints (N >= 1) it
   * has N + 1 entries and starts and ends at `start`.
   */
  function AntTour(c: Config, p: Matrix, start: int,
                   draws: (int, int, int) -> real, iteration: int, index: int): (r: Result<Ant>)
    requires ValidConfig(c) && IsSquare(p, WayPointCount(c))
    ensures r.Ok? ==>
      IsClosedTour(r.value.visited, start, if WayPointCount(c) == 0 then 1 else WayPointCount(c))
  {
    match WalkFrom(c, p, Ant([start], start), 0, draws, iteration, index)
    case Err(f) => Err(f)
    case Ok(ant) => Ok(Ant(ant.visited + [ant.visited[0]], ant.current))
  }

  /**
   * What `LeavePheremones` does to the accumulator `add`: fails on an index
   * outside the waypoint list and on a zero length (the source divides by it
   * unguarded), and otherwise deposits intensity / length on both directions
   * of every step.
   */
  function Deposit(c: Config, add: Matrix, t: seq<int>): (r: Result<Matrix>)
    requires ValidConfig(c) && IsSquare(add, WayPointCount(c))
    ensures r.Ok? ==> Measurable(t, WayPointCount(c)) && IsSquare(r.value, WayPointCount(c))
  {
    if !Measurable(t, WayPointCount(c)) then Err(IndexOutOfRange)
    else
      var length := TourLength(c, t);
      if length == 0.0 then Err(ZeroLengthTour)
      else Ok(Deposited(add, t, c.pheremoneIntensity / length))
  }

  /** A deposit that succeeds spreads intensity / length over a tour of positive length. */
  lemma DepositSucceeded(c: Config, add: Matrix, t: seq<int>)
    requires ValidConfig(c) && IsSquare(add, WayPointCount(c)) && Deposit(c, add, t).Ok?
    ensures 0.0 < TourLength(c, t)
    ensures Deposit(c, add, t).value == Deposited(add, t, c.pheremoneIntensity / TourLength(c, t))
  {
    TourLengthNonNegative(c, t);
  }

  /** `m_BestPathIndices` after `UpdateBestPath`: the tour if it is shorter than the stored bound. */
  function UpdatedBest(c: Config, bestLength: Bound, best: seq<int>, t: seq<int>): seq<int>
    requires ValidConfig(c) && Measurable(t, WayPointCount(c))
  {
    if Below(TourLength(c, t), bestLength) then t else best
  }

  /** While the bound stays at positive infinity every tour replaces the best path. */
  lemma {:induction false} InfiniteBoundAlwaysReplaced(c: Config, best: seq<int>, t: seq<int>)
    requires ValidConfig(c) && Measurable(t, WayPointCount(c))
    ensures UpdatedBest(c, PositiveInfinity, best, t) == t
  {
  }

  /**
   * Every step of the walk draws from desirabilities with a non-zero total,
   * so the uniform fallback is never used.
   */
  predicate Informed(c: Config, p: Matrix, ant: Ant, step: int,
                     draws: (int, int, int) -> real, iteration: int, index: int)
    requires ValidConfig(c) && IsSquare(p, WayPointCount(c)) && ant.current in ant.visited
    decreases WayPointCount(c) - 1 - step
  {
    || step >= WayPointCount(c) - 1
    || !CanRead(c, ant)
    || (&& Sum(Weights(c, p, ant)) != 0.0
        && Informed(c, p, Advance(ant, Select(Normalise(Weights(c, p, ant)), draws(iteration, index, step))),
                    step + 1, draws, iteration, index))
  }

  predicate Distinct(s: seq<int>) {
    forall i, j :: 0 <= i < j < |s| ==> s[i] != s[j]
  }

  /**
   * One informed step with a draw in [0, 1) selects a waypoint the ant has not
   * visited: the probabilities sum to one, so some index is selected, and
   * visited waypoints have probability zero, so none of them is.
   */
  lemma InformedStepSelectsUnvisited(c: Config, p: Matrix, ant: Ant, draw: real)
    requires ValidConfig(c) && IsSquare(p, WayPointCount(c)) && ant.current in ant.visited
    requires 0 <= ant.current < WayPointCount(c)
    requires Sum(Weights(c, p, ant)) != 0.0
    requires 0.0 <= draw < 1.0
    ensures var next := Select(Normalise(Weights(c, p, ant)), draw);
      0 <= next < WayPointCount(c) && next !in ant.visited
  {
    var w := Weights(c, p, ant);
    var probs := Normalise(w);
    NormaliseSumsToOne(w);
    DrawBelowTotalSelects(probs, draw);
    ZeroProbabilityNeverSelected(probs, draw);
    var next := Select(probs, draw);
    assert probs[next] == w[next] / Sum(w) && w[next] != 0.0;
    assert w[next] == Weight(c, p, ant, next);
  }

  lemma DistinctAppend(s: seq<int>, x: int)
    requires Distinct(s) && x !in s
    ensures Distinct(s + [x])
  {
  }

  /**
   * Induction step of the Hamiltonian-cycle property: from a walk of distinct
   * waypoints, informed steps with draws in [0, 1) always select an unvisited
   * waypoint, never -1, and the walk reaches N distinct waypoints.
   */
  lemma {:induction false} InformedWalkVisitsDistinct(c: Config, p: Matrix, ant: Ant, step: int,
                                                     draws: (int, int, int) -> real, iteration: int, index: int)
    requires ValidConfig(c) && IsSquare(p, WayPointCount(c)) && ant.current in ant.visited
    requires 0 <= step < WayPointCount(c) && |ant.visited| == step + 1
    requires 0 <= ant.current < WayPointCount(c)
    requires Distinct(ant.visited) && OnWayPoints(ant.visited, WayPointCount(c))
    requires forall k :: 0.0 <= draws(iteration, index, k) < 1.0
    requires Informed(c, p, ant, step, draws, iteration, index)
    ensures VisitsAllOnce(WalkFrom(c, p, ant, step, draws, iteration, index), WayPointCount(c))
    decreases WayPointCount(c) - 1 - step
  {
    if step < WayPointCount(c) - 1 {
      var draw := draws(iteration, index, step);
      var ant' := Advance(ant, Select(Normalise(Weights(c, p, ant)), draw));
      InformedStepKeepsDistinct(c, p, ant, step, draws, iteration, index);
      InformedWalkVisitsDistinct(c, p, ant', step + 1, draws, iteration, index);
    } else {
      assert WalkFrom(c, p, ant, step, draws, iteration, index) == Ok(ant);
    }
  }

  /** A completed walk over N distinct waypoints. */
  predicate VisitsAllOnce(r: Result<Ant>, n: nat) {
    r.Ok? && |r.value.visited| == n && Distinct(r.value.visited) && OnWayPoints(r.value.visited, n)
  }

  /** One informed step extends a walk of distinct waypoints by an unvisited waypoint. */
  lemma InformedStepKeepsDistinct(c: Config, p: Matrix, ant: Ant, step: int,
                                  draws: (int, int, int) -> real, iteration: int, index: int)
    requires ValidConfig(c) && IsSquare(p, WayPointCount(c)) && ant.current in ant.visited
    requires 0 <= step < WayPointCount(c) - 1
    requires 0 <= ant.current < WayPointCount(c)
    requires Distinct(ant.visited)
    requires 0.0 <= draws(iteration, index, step) < 1.0
    requires Informed(c, p, ant, step, draws, iteration, index)
    ensures var ant' := Advance(ant, Select(Normalise(Weights(c, p, ant)), draws(iteration, index, step)));
      && 0 <= ant'.current < WayPointCount(c) && ant'.current !in ant.visited
      && Distinct(ant'.visited) && (OnWayPoints(ant.visited, WayPointCount(c)) ==> OnWayPoints(ant'.visited, WayPointCount(c)))
      && Informed(c, p, ant', step + 1, draws, iteration, index)
      && WalkFrom(c, p, ant, step, draws, iteration, index) == WalkFrom(c, p, ant', step + 1, draws, iteration, index)
  {
    var draw := draws(iteration, index, step);
    InformedStepSelectsUnvisited(c, p, ant, draw);
    var next := Select(Normalise(Weights(c, p, ant)), draw);
    DistinctAppend(ant.visited, next);
    assert IndexProbabilities(c, p, ant) == Ok(Normalise(Weights(c, p, ant)));
  }

  /**
   * An ant whose every step is informed, drawing in [0, 1) from a waypoint
   * start, builds a Hamiltonian cycle: N + 1 entries, first and last equal to
   * the start, the first N distinct waypoints.
   */
  lemma InformedTourIsHamiltonianCycle(c: Config, p: Matrix, start: int,
                                       draws: (int, int, int) -> real, iteration: int, index: int)
    requires ValidConfig(c) && IsSquare(p, WayPointCount(c))
    requires 0 <= start < WayPointCount(c)
    requires forall k :: 0.0 <= draws(iteration, index, k) < 1.0
    requires Informed(c, p, Ant([start], start), 0, draws, iteration, index)
    ensures AntTour(c, p, start, draws, iteration, index).Ok?
    ensures var t := AntTour(c, p, start, draws, iteration, index).value.visited;
      && IsClosedTour(t, start, WayPointCount(c))
      && Distinct(t[..WayPointCount(c)])
      && OnWayPoints(t, WayPointCount(c))
  {
    InformedWalkVisitsDistinct(c, p, Ant([start], start), 0, draws, iteration, index);
    var v := WalkFrom(c, p, Ant([start], start), 0, draws, iteration, index).value.visited;
    assert (v + [v[0]])[..WayPointCount(c)] == v;
  }

  /**
   * The fallback lets an ant revisit: with two waypoints and an all-zero
   * pheromone table (the state of the first iteration), every desirability is
   * zero when `pow(0, pheremonePower)` is zero, both probabilities are 1/2, and
   * a draw of 1/4 sends the ant back to its start. The tour [0, 0, 0] then has
   * length zero, and its deposit divides by zero.
   */
  lemma FirstIterationCanRevisit(c: Config, draws: (int, int, int) -> real, iteration: int, index: int)
    requires ValidConfig(c) && WayPointCount(c) == 2
    requires c.pow(0.0, c.pheremonePower) == 0.0
    requires draws(iteration, index, 0) == 0.25
    ensures AntTour(c, Zero(2), 0, draws, iteration, index) == Ok(Ant([0, 0, 0], 0))
    ensures Deposit(c, Zero(2), [0, 0, 0]) == Err(ZeroLengthTour)
  {
    var ant := Ant([0], 0);
    FirstStepWeightsAreZero(c);
    HalvesSelectFirst();
    assert IndexProbabilities(c, Zero(2), ant) == Ok([0.5, 0.5]);
    var ant' := Advance(ant, 0);
    assert WalkFrom(c, Zero(2), ant', 1, draws, iteration, index) == Ok(ant');
    assert Select([0.5, 0.5], draws(iteration, index, 0)) == 0;
    assert WalkFrom(c, Zero(2), ant, 0, draws, iteration, index) == Ok(ant');
    assert ant'.visited + [ant'.visited[0]] == [0, 0, 0];
    assert [0, 0, 0][..2] == [0, 0] && [0, 0][..1] == [0];
    assert TourLength(c, [0, 0, 0]) == 0.0;
  }

  lemma FirstStepWeightsAreZero(c: Config)
    requires ValidConfig(c) && WayPointCount(c) == 2
    requires c.pow(0.0, c.pheremonePower) == 0.0
    ensures Normalise(Weights(c, Zero(2), Ant([0], 0))) == [0.5, 0.5]
  {
    var w := Weights(c, Zero(2), Ant([0], 0));
    assert w[1] == Desirability(c, Zero(2), 0, 1) == 0.0;
    assert w == [] + [0.0] + [0.0];
    SumAppend([], 0.0);
    SumAppend([0.0], 0.0);
  }

  lemma HalvesSelectFirst()
    ensures Select([0.5, 0.5], 0.25) == 0
  {
    assert [0.5, 0.5][..1] == [] + [0.5];
    SumAppend([], 0.5);
    assert Cumulative([0.5, 0.5])[0] == 0.5;
  }
}

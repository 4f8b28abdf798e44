/**
 * The route calculator itself: a component that owns the pheromone table as
 * a two-dimensional array, the best path found so far and the never-updated
 * best length, and runs the ant colony search over its waypoints. Every
 * method does what the corresponding routine does, step by step, and is
 * proved equal to the value-level definitions of `Tours` and `Colony`.
 *
 * The random draws are parameters: `starts(iteration, ant)` is the start
 * index of an ant and `draws(iteration, ant, step)` the roulette draw of one
 * of its steps.
 */
module Route {
  import opened Matrices
  import opened Roulette
  import opened Tours
  import opened Colony

  /** A fresh n-by-n array with every cell set to zero by two nested loops. */
  method NewZeroMatrix(n: nat) returns (m: array2<real>)
    ensures fresh(m) && m.Length0 == n && m.Length1 == n
    ensures Snapshot(m) == Zero(n)
  {
    m := new real[n, n];
    var i := 0;
    while i < n
      invariant 0 <= i <= n
      invariant forall r, s :: 0 <= r < i && 0 <= s < n ==> m[r, s] == 0.0
    {
      var j := 0;
      while j < n
        invariant 0 <= j <= n
        invariant forall r, s :: 0 <= r < i && 0 <= s < n ==> m[r, s] == 0.0
        invariant forall s :: 0 <= s < j ==> m[i, s] == 0.0
      {
        m[i, j] := 0.0;
        j := j + 1;
      }
      i := i + 1;
    }
    SnapshotFrom(m, Zero(n));
  }

  class RouteCalculator {
    /** The tuning fields, the waypoint distances and the power function. */
    const config: Config
    /** `m_WayPoints.Count`. */
    const wayPointCount: nat

    /** `m_Pheremones`: null until `InitPheremones` runs. */
    var pheremones: array2?<real>
    /** `m_BestPathIndices`. */
    var bestPathIndices: seq<int>
    /** `m_BestPathLength`. */
    var bestPathLength: Bound

    predicate Valid() {
      ValidConfig(config) && wayPointCount == WayPointCount(config)
    }

    /** The pheromone table exists and is N by N. */
    predicate Ready()
      reads this
    {
      pheremones != null && pheremones.Length0 == wayPointCount && pheremones.Length1 == wayPointCount
    }

    /** The component as the engine creates it: no table yet, an empty best path, an infinite best length. */
    constructor (config: Config)
      requires ValidConfig(config)
      ensures Valid() && this.config == config
      ensures pheremones == null && bestPathIndices == [] && bestPathLength == PositiveInfinity
    {
      this.config := config;
      wayPointCount := WayPointCount(config);
      pheremones := null;
      bestPathIndices := [];
      bestPathLength := PositiveInfinity;
    }

    /** Allocates the N-by-N pheromone table and sets every cell to zero. */
    method InitPheremones()
      requires Valid()
      modifies this`pheremones
      ensures Ready() && fresh(pheremones)
      ensures Snapshot(pheremones) == Zero(wayPointCount)
    {
      pheremones := NewZeroMatrix(wayPointCount);
    }

    /** Every cell becomes evaporation times its old value plus the pending deposit, and nothing else changes. */
    method UpdatePheremones(pheremonesToAdd: array2<real>)
      requires Valid() && Ready()
      requires pheremonesToAdd.Length0 == wayPointCount && pheremonesToAdd.Length1 == wayPointCount
      requires pheremonesToAdd != pheremones
      modifies pheremones
      ensures Snapshot(pheremones)
           == Evaporated(old(Snapshot(pheremones)), Snapshot(pheremonesToAdd), config.evaporation)
    {
      var n := wayPointCount;
      ghost var p := Snapshot(pheremones);
      ghost var next := Evaporated(p, Snapshot(pheremonesToAdd), config.evaporation);
      var i := 0;
      while i < n
        invariant 0 <= i <= n
        invariant forall r, s :: 0 <= r < n && 0 <= s < n ==>
          pheremones[r, s] == if r < i then next[r][s] else p[r][s]
      {
        var j := 0;
        while j < n
          invariant 0 <= j <= n
          invariant forall r, s :: 0 <= r < n && 0 <= s < n ==>
            pheremones[r, s] == if r < i || (r == i && s < j) then next[r][s] else p[r][s]
        {
          pheremones[i, j] := config.evaporation * pheremones[i, j] + pheremonesToAdd[i, j];
          j := j + 1;
        }
        i := i + 1;
      }
      SnapshotFrom(pheremones, next);
    }

    /**
     * The length loop shared by `LeavePheremones` and `UpdateBestPath`: the
     * sum of the distances between consecutive entries, or the out-of-range
     * fault at the first entry that names no waypoint.
     */
    method MeasureTour(tour: seq<int>) returns (r: Result<real>)
      requires Valid()
      ensures r.Err? <==> !Measurable(tour, wayPointCount)
      ensures r.Err? ==> r.fault == IndexOutOfRange
      ensures r.Ok? ==> r.value == TourLength(config, tour) && 0.0 <= r.value
    {
      var length := 0.0;
      var i := 0;
      while i < |tour| - 1
        invariant 0 <= i && (|tour| == 0 ==> i == 0) && (|tour| > 0 ==> i <= |tour| - 1)
        invariant 0 < i ==> OnWayPoints(tour[..i + 1], wayPointCount)
        invariant length == if i == 0 then 0.0 else TourLength(config, tour[..i + 1])
      {
        var idx1 := tour[i];
        var idx2 := tour[i + 1];
        if !(0 <= idx1 < wayPointCount && 0 <= idx2 < wayPointCount) {
          return Err(IndexOutOfRange);
        }
        assert tour[..i + 2][..i + 1] == tour[..i + 1];
        length := length + config.distance[idx1][idx2];
        i := i + 1;
      }
      assert |tour| >= 2 ==> tour[..i + 1] == tour;
      TourLengthNonNegative(config, tour);
      r := Ok(length);
    }

    /**
     * Adds intensity / length to both cells of every step of the ant's tour
     * in the accumulator; stops with a fault, leaving the accumulator as it
     * was, when an entry names no waypoint or the length is zero.
     */
    method LeavePheremones(ant: Ant, pheremonesToAdd: array2<real>) returns (outcome: Outcome)
      requires Valid()
      requires pheremonesToAdd.Length0 == wayPointCount && pheremonesToAdd.Length1 == wayPointCount
      modifies pheremonesToAdd
      ensures var deposit := Deposit(config, old(Snapshot(pheremonesToAdd)), ant.visited);
        && (outcome == if deposit.Ok? then Completed else Aborted(deposit.fault))
        && Snapshot(pheremonesToAdd) == if deposit.Ok? then deposit.value else old(Snapshot(pheremonesToAdd))
    {
      var measured := MeasureTour(ant.visited);
      if measured.Err? {
        outcome := Aborted(measured.fault);
      } else if measured.value == 0.0 {
        outcome := Aborted(ZeroLengthTour);
      } else {
        var pheremoneValue := config.pheremoneIntensity / measured.value;
        DepositAlong(ant.visited, pheremoneValue, pheremonesToAdd);
        outcome := Completed;
      }
    }

    /** The deposit loop: `value` on both cells of every step of `tour`. */
    static method DepositAlong(tour: seq<int>, value: real, pheremonesToAdd: array2<real>)
      requires pheremonesToAdd.Length0 == pheremonesToAdd.Length1
      requires Measurable(tour, pheremonesToAdd.Length0)
      modifies pheremonesToAdd
      ensures Snapshot(pheremonesToAdd) == Deposited(old(Snapshot(pheremonesToAdd)), tour, value)
    {
      var n := pheremonesToAdd.Length0;
      ghost var add := Snapshot(pheremonesToAdd);
      var i := 0;
      while i < |tour| - 1
        invariant 0 <= i && (|tour| == 0 ==> i == 0) && (|tour| > 0 ==> i <= |tour| - 1)
        invariant forall r, s :: 0 <= r < n && 0 <= s < n ==>
          pheremonesToAdd[r, s] == add[r][s] + EdgeDeposit(tour[..if |tour| == 0 then 0 else i + 1], value, r, s)
      {
        var idx1 := tour[i];
        var idx2 := tour[i + 1];
        assert tour[..i + 2][..i + 1] == tour[..i + 1];
        EdgeDepositExtend(tour[..i + 1], tour[..i + 2], value);
        pheremonesToAdd[idx1, idx2] := pheremonesToAdd[idx1, idx2] + value;
        pheremonesToAdd[idx2, idx1] := pheremonesToAdd[idx2, idx1] + value;
        i := i + 1;
      }
      assert tour[..if |tour| == 0 then 0 else i + 1] == tour;
      SnapshotFrom(pheremonesToAdd, Deposited(add, tour, value));
    }

    /**
     * The probability list for the ant's next step: zero desirability for
     * visited waypoints, `pow(1 / distance, distancePower) * pow(pheromone,
     * pheremonePower)` for the others, normalised by the total or 1 / N each
     * when the total is zero. Fails when the current index names no waypoint
     * and some waypoint is unvisited, where the source indexes out of range.
     */
    method GetIndexProbabilities(ant: Ant) returns (r: Result<seq<real>>)
      requires Valid() && Ready() && ant.current in ant.visited
      ensures r == IndexProbabilities(config, Snapshot(pheremones), ant)
    {
      var n := wayPointCount;
      ghost var p := Snapshot(pheremones);
      var desirabilities: seq<real> := [];
      var totalDesirability := 0.0;
      var i := 0;
      while i < n
        invariant 0 <= i <= n && |desirabilities| == i
        invariant !(0 <= ant.current < n) ==> forall k :: 0 <= k < i ==> k in ant.visited
        invariant forall k :: 0 <= k < i ==> desirabilities[k] == Weight(config, p, ant, k)
        invariant totalDesirability == Sum(desirabilities)
      {
        var desirability := 0.0;
        if i !in ant.visited {
          if !(0 <= ant.current < n) {
            assert !CanRead(config, ant);
            return Err(IndexOutOfRange);
          }
          var distance := config.distance[ant.current][i];
          var pheremone := pheremones[ant.current, i];
          assert pheremone == p[ant.current][i];
          desirability := config.pow(1.0 / distance, config.distancePower)
                        * config.pow(pheremone, config.pheremonePower);
        }
        assert desirability == Weight(config, p, ant, i);
        SumAppend(desirabilities, desirability);
        desirabilities := desirabilities + [desirability];
        totalDesirability := totalDesirability + desirability;
        i := i + 1;
      }
      assert CanRead(config, ant);
      assert desirabilities == Weights(config, p, ant);
      var probabilities := Normalised(desirabilities, totalDesirability);
      r := Ok(probabilities);
    }

    /** The second loop: each desirability over the total, or 1 / N each when the total is zero. */
    static method Normalised(desirabilities: seq<real>, totalDesirability: real) returns (probabilities: seq<real>)
      requires totalDesirability == Sum(desirabilities)
      ensures probabilities == Normalise(desirabilities)
    {
      probabilities := [];
      var i := 0;
      while i < |desirabilities|
        invariant 0 <= i <= |desirabilities| && |probabilities| == i
        invariant forall k :: 0 <= k < i ==> probabilities[k] == Normalise(desirabilities)[k]
      {
        if totalDesirability != 0.0 {
          probabilities := probabilities + [desirabilities[i] / totalDesirability];
        } else {
          probabilities := probabilities + [1.0 / (|desirabilities| as real)];
        }
        i := i + 1;
      }
    }

    /**
     * Builds the running totals, then returns the first index whose running
     * total is strictly greater than the draw, or -1 when there is none.
     */
    static method ChooseRandomFromProbabilities(probabilities: seq<real>, random: real) returns (index: int)
      ensures -1 <= index < |probabilities|
      ensures index != -1 ==> random < Cumulative(probabilities)[index]
      ensures forall k :: 0 <= k < (if index == -1 then |probabilities| else index) ==>
        Cumulative(probabilities)[k] <= random
      ensures index == Select(probabilities, random)
    {
      var cumulativeProbabilities: seq<real> := [];
      var cumulative := 0.0;
      var i := 0;
      while i < |probabilities|
        invariant 0 <= i <= |probabilities|
        invariant cumulative == Sum(probabilities[..i])
        invariant cumulativeProbabilities == Cumulative(probabilities)[..i]
      {
        assert probabilities[..i + 1] == probabilities[..i] + [probabilities[i]];
        SumAppend(probabilities[..i], probabilities[i]);
        cumulative := cumulative + probabilities[i];
        cumulativeProbabilities := cumulativeProbabilities + [cumulative];
        i := i + 1;
      }
      i := 0;
      while i < |cumulativeProbabilities|
        invariant 0 <= i <= |cumulativeProbabilities|
        invariant forall k :: 0 <= k < i ==> Cumulative(probabilities)[k] <= random
        invariant Select(probabilities, random) == SelectFrom(probabilities, random, i)
      {
        if random < cumulativeProbabilities[i] {
          return i;
        }
        i := i + 1;
      }
      return -1;
    }

    /**
     * One ant: start at `start`, take N - 1 steps each choosing with the
     * step's draw from the current probabilities, then close the loop by
     * appending the first entry.
     */
    method RunAnt(start: int, draws: (int, int, int) -> real, iteration: int, index: int)
      returns (r: Result<Ant>)
      requires Valid() && Ready()
      ensures r == AntTour(config, Snapshot(pheremones), start, draws, iteration, index)
      ensures r.Ok? ==>
        IsClosedTour(r.value.visited, start, if wayPointCount == 0 then 1 else wayPointCount)
    {
      ghost var p := Snapshot(pheremones);
      var ant := Ant([start], start);
      var c := 0;
      while c < wayPointCount - 1
        invariant 0 <= c && ant.current in ant.visited
        invariant WalkFrom(config, p, ant, c, draws, iteration, index)
               == WalkFrom(config, p, Ant([start], start), 0, draws, iteration, index)
        decreases wayPointCount - 1 - c
      {
        var probabilities := GetIndexProbabilities(ant);
        if probabilities.Err? {
          return Err(probabilities.fault);
        }
        var nextIndex := ChooseRandomFromProbabilities(probabilities.value, draws(iteration, index, c));
        ant := Ant(ant.visited + [nextIndex], nextIndex);
        c := c + 1;
      }
      ant := Ant(ant.visited + [ant.visited[0]], ant.current);
      r := Ok(ant);
    }

    /**
     * Measures the ant's tour and makes it the best path when it is shorter
     * than `bestPathLength`; `bestPathLength` itself is never assigned.
     */
    method UpdateBestPath(ant: Ant)
      requires Valid() && Measurable(ant.visited, wayPointCount)
      modifies this`bestPathIndices
      ensures bestPathIndices == UpdatedBest(config, bestPathLength, old(bestPathIndices), ant.visited)
      ensures bestPathLength == old(bestPathLength)
    {
      var measured := MeasureTour(ant.visited);
      var length := measured.value;
      if Below(length, bestPathLength) {
        bestPathIndices := ant.visited;
      }
    }

    /**
     * The body of the ant loop: build the ant's tour from its start, deposit
     * it into the accumulator and offer it as the best path, or stop with the
     * fault of the first of these that fails.
     */
    method VisitAnt(iteration: int, index: int, pheremonesToAdd: array2<real>,
                    starts: (int, int) -> int, draws: (int, int, int) -> real) returns (outcome: Outcome)
      requires Valid() && Ready() && pheremonesToAdd != pheremones
      requires pheremonesToAdd.Length0 == wayPointCount && pheremonesToAdd.Length1 == wayPointCount
      modifies pheremonesToAdd, this`bestPathIndices
      ensures Snapshot(pheremones) == old(Snapshot(pheremones))
      ensures Progress(Snapshot(pheremonesToAdd), bestPathIndices, outcome)
           == AntVisit(config, AntTours(config, starts, draws), old(Snapshot(pheremones)),
                       old(Snapshot(pheremonesToAdd)), old(bestPathIndices), bestPathLength, iteration, index)
    {
      var pathStart := starts(iteration, index);
      var ant := RunAnt(pathStart, draws, iteration, index);
      if ant.Err? {
        return Aborted(ant.fault);
      }
      outcome := LeavePheremones(ant.value, pheremonesToAdd);
      if outcome.Aborted? {
        return;
      }
      UpdateBestPath(ant.value);
    }

    /**
     * The ants of one iteration, in order, all reading the same table: build
     * the tour, deposit it into the accumulator, offer it as the best path.
     * Stops at the first ant that fails.
     */
    method RunAnts(iteration: int, pheremonesToAdd: array2<real>,
                   starts: (int, int) -> int, draws: (int, int, int) -> real) returns (outcome: Outcome)
      requires Valid() && Ready() && pheremonesToAdd != pheremones
      requires pheremonesToAdd.Length0 == wayPointCount && pheremonesToAdd.Length1 == wayPointCount
      modifies pheremonesToAdd, this`bestPathIndices
      ensures Progress(Snapshot(pheremonesToAdd), bestPathIndices, outcome)
           == AntsFrom(config, AntTours(config, starts, draws), Snapshot(pheremones), old(Snapshot(pheremonesToAdd)),
                       old(bestPathIndices), bestPathLength, iteration, 0)
    {
      ghost var p := Snapshot(pheremones);
      ghost var add := Snapshot(pheremonesToAdd);
      ghost var tour := AntTours(config, starts, draws);
      ghost var start := AntsFrom(config, tour, p, add, bestPathIndices, bestPathLength, iteration, 0);
      var a := 0;
      outcome := Completed;
      while a < config.antsPerIteration && outcome.Completed?
        invariant 0 <= a && IsSquare(add, wayPointCount)
        invariant Snapshot(pheremones) == p && Snapshot(pheremonesToAdd) == add
        invariant start == if outcome.Completed?
          then AntsFrom(config, tour, p, add, bestPathIndices, bestPathLength, iteration, a)
          else Progress(add, bestPathIndices, outcome)
        decreases config.antsPerIteration - a
      {
        ghost var visit := AntVisit(config, tour, p, add, bestPathIndices, bestPathLength, iteration, a);
        outcome := VisitAnt(iteration, a, pheremonesToAdd, starts, draws);
        add := visit.add;
        a := a + 1;
      }
    }

    /**
     * The search: a zero table, then for each iteration a fresh zero
     * accumulator, every ant built against the same table, its deposit and
     * its best-path update, and one table update after the last ant. Ends
     * early with the fault of the first ant that fails.
     */
    method Compute(starts: (int, int) -> int, draws: (int, int, int) -> real) returns (outcome: Outcome)
      requires Valid()
      modifies this`pheremones, this`bestPathIndices
      ensures Ready() && fresh(pheremones)
      ensures bestPathLength == old(bestPathLength)
      ensures State(Snapshot(pheremones), bestPathIndices, outcome)
           == Run(config, old(bestPathIndices), bestPathLength, starts, draws)
    {
      InitPheremones();
      var iteration := 0;
      while iteration < config.iterations
        invariant 0 <= iteration
        invariant Ready() && fresh(pheremones)
        invariant IterationsFrom(config, AntTours(config, starts, draws), Snapshot(pheremones), bestPathIndices,
                                 bestPathLength, iteration)
               == Run(config, old(bestPathIndices), bestPathLength, starts, draws)
        decreases config.iterations - iteration
      {
        var pheremonesToAdd := NewZeroMatrix(wayPointCount);
        outcome := RunAnts(iteration, pheremonesToAdd, starts, draws);
        if outcome.Aborted? {
          return;
        }
        UpdatePheremones(pheremonesToAdd);
        iteration := iteration + 1;
      }
      outcome := Completed;
    }
  }
}

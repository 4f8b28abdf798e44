/**
 * The route calculator keeps two square tables of reals indexed by waypoint:
 * the pheromone table, carried from one iteration to the next, and the
 * per-iteration table of pheromone still to be added. This module gives the
 * value of such a table as a sequence of rows and the three things the
 * calculator does to it: fill it with zeros, evaporate it and add the
 * pending deposits, and deposit along the edges of a tour.
 */
module Matrices {

  /** The value of a `float[,]` of size n by n, row by row. */
  type Matrix = seq<seq<real>>

  predicate IsSquare(m: Matrix, n: nat) {
    |m| == n && forall i :: 0 <= i < n ==> |m[i]| == n
  }

  predicate IsSymmetric(m: Matrix)
    requires IsSquare(m, |m|)
  {
    forall i, j :: 0 <= i < |m| && 0 <= j < |m| ==> m[i][j] == m[j][i]
  }

  predicate IsNonNegative(m: Matrix)
    requires IsSquare(m, |m|)
  {
    forall i, j :: 0 <= i < |m| && 0 <= j < |m| ==> 0.0 <= m[i][j]
  }

  /** The current contents of a two-dimensional array. */
  function Snapshot(a: array2<real>): Matrix
    reads a
  {
    seq(a.Length0, i requires 0 <= i < a.Length0 reads a =>
      seq(a.Length1, j requires 0 <= j < a.Length1 reads a => a[i, j]))
  }

  lemma SnapshotFrom(a: array2<real>, m: Matrix)
    requires IsSquare(m, |m|) && a.Length0 == |m| && a.Length1 == |m|
    requires forall i, j :: 0 <= i < |m| && 0 <= j < |m| ==> a[i, j] == m[i][j]
    ensures Snapshot(a) == m
  {
    forall i | 0 <= i < |m|
      ensures Snapshot(a)[i] == m[i]
    {
      assert forall j :: 0 <= j < |m| ==> Snapshot(a)[i][j] == m[i][j];
    }
  }

  /** The table every cell of which is 0. */
  function Zero(n: nat): (m: Matrix)
    ensures IsSquare(m, n)
  {
    seq(n, i => seq(n, j => 0.0))
  }

  /** Every cell becomes `evaporation * p[i][j] + add[i][j]`. */
  function Evaporated(p: Matrix, add: Matrix, evaporation: real): (r: Matrix)
    requires IsSquare(p, |p|) && IsSquare(add, |p|)
    ensures IsSquare(r, |p|)
  {
    seq(|p|, i requires 0 <= i < |p| =>
      seq(|p|, j requires 0 <= j < |p| => evaporation * p[i][j] + add[i][j]))
  }

  /**
   * What one step from waypoint a to waypoint b adds to cell (i, j): `v` for
   * the cell (a, b) and `v` for the cell (b, a), so `2 * v` when a == b.
   */
  function PairDeposit(a: int, b: int, v: real, i: int, j: int): real {
    (if a == i && b == j then v else 0.0) + (if b == i && a == j then v else 0.0)
  }

  /** What all the steps of tour `t`, in order, add to cell (i, j). */
  function EdgeDeposit(t: seq<int>, v: real, i: int, j: int): real
    decreases |t|
  {
    if |t| < 2 then 0.0
    else EdgeDeposit(t[..|t| - 1], v, i, j) + PairDeposit(t[|t| - 2], t[|t| - 1], v, i, j)
  }

  /** The table after `v` is deposited on both directions of every step of `t`. */
  function Deposited(add: Matrix, t: seq<int>, v: real): (r: Matrix)
    requires IsSquare(add, |add|)
    ensures IsSquare(r, |add|)
  {
    seq(|add|, i requires 0 <= i < |add| =>
      seq(|add|, j requires 0 <= j < |add| => add[i][j] + EdgeDeposit(t, v, i, j)))
  }

  /** Taking one more step of a tour adds that step's deposit to every cell. */
  lemma EdgeDepositExtend(shorter: seq<int>, longer: seq<int>, v: real)
    requires 2 <= |longer| && shorter == longer[..|longer| - 1]
    ensures forall i, j ::
      (EdgeDeposit(longer, v, i, j)
         == EdgeDeposit(shorter, v, i, j) + PairDeposit(longer[|longer| - 2], longer[|longer| - 1], v, i, j))
  {
  }

  /** Every step is deposited in both directions, so cell (i, j) gets what cell (j, i) gets. */
  lemma {:induction false} EdgeDepositSymmetric(t: seq<int>, v: real, i: int, j: int)
    ensures EdgeDeposit(t, v, i, j) == EdgeDeposit(t, v, j, i)
    decreases |t|
  {
    if |t| >= 2 {
      EdgeDepositSymmetric(t[..|t| - 1], v, i, j);
    }
  }

  lemma {:induction false} EdgeDepositNonNegative(t: seq<int>, v: real, i: int, j: int)
    requires 0.0 <= v
    ensures 0.0 <= EdgeDeposit(t, v, i, j)
    decreases |t|
  {
    if |t| >= 2 {
      EdgeDepositNonNegative(t[..|t| - 1], v, i, j);
    }
  }

  /** A deposit of no pheromone adds nothing to any cell. */
  lemma {:induction false} EdgeDepositOfNothing(t: seq<int>, i: int, j: int)
    ensures EdgeDeposit(t, 0.0, i, j) == 0.0
    decreases |t|
  {
    if |t| >= 2 {
      EdgeDepositOfNothing(t[..|t| - 1], i, j);
    }
  }

  lemma DepositedKeepsSymmetry(add: Matrix, t: seq<int>, v: real)
    requires IsSquare(add, |add|) && IsSymmetric(add)
    ensures IsSymmetric(Deposited(add, t, v))
  {
    forall i, j | 0 <= i < |add| && 0 <= j < |add|
      ensures Deposited(add, t, v)[i][j] == Deposited(add, t, v)[j][i]
    {
      EdgeDepositSymmetric(t, v, i, j);
    }
  }

  lemma DepositedKeepsNonNegative(add: Matrix, t: seq<int>, v: real)
    requires IsSquare(add, |add|) && IsNonNegative(add) && 0.0 <= v
    ensures IsNonNegative(Deposited(add, t, v))
  {
    forall i, j | 0 <= i < |add| && 0 <= j < |add|
      ensures 0.0 <= Deposited(add, t, v)[i][j]
    {
      EdgeDepositNonNegative(t, v, i, j);
    }
  }

  lemma DepositedNothingIsIdentity(add: Matrix, t: seq<int>)
    requires IsSquare(add, |add|)
    ensures Deposited(add, t, 0.0) == add
  {
    forall i | 0 <= i < |add|
      ensures Deposited(add, t, 0.0)[i] == add[i]
    {
      forall j | 0 <= j < |add|
        ensures Deposited(add, t, 0.0)[i][j] == add[i][j]
      {
        EdgeDepositOfNothing(t, i, j);
      }
    }
  }

  lemma EvaporatedKeepsSymmetry(p: Matrix, add: Matrix, evaporation: real)
    requires IsSquare(p, |p|) && IsSquare(add, |p|)
    requires IsSymmetric(p) && IsSymmetric(add)
    ensures IsSymmetric(Evaporated(p, add, evaporation))
  {
  }

  lemma EvaporatedKeepsNonNegative(p: Matrix, add: Matrix, evaporation: real)
    requires IsSquare(p, |p|) && IsSquare(add, |p|)
    requires IsNonNegative(p) && IsNonNegative(add) && 0.0 <= evaporation
    ensures IsNonNegative(Evaporated(p, add, evaporation))
  {
  }

  lemma EvaporatedZeroIsZero(n: nat, evaporation: real)
    ensures Evaporated(Zero(n), Zero(n), evaporation) == Zero(n)
  {
    forall i | 0 <= i < n
      ensures Evaporated(Zero(n), Zero(n), evaporation)[i] == Zero(n)[i]
    {
    }
  }

  lemma ZeroIsSymmetricAndNonNegative(n: nat)
    ensures IsSymmetric(Zero(n)) && IsNonNegative(Zero(n))
  {
  }
}

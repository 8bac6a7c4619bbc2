/** The pheromone matrix shared by all ants: its initial value, evaporation, and the symmetric
    reinforcement of every edge of every ant's closed tour by the reciprocal of the tour's cost. */
module Pheromones {
  import opened Tsp

  /** Fraction of every trail lost per iteration (EVAPORACION). */
  const EVAPORATION: real := 0.5
  /** Trail level of every edge before the first iteration (FEROMONA_INICIAL). */
  const INITIAL_PHEROMONE: real := 1.0

  /** m is an n-by-n matrix equal to its transpose. */
  ghost predicate Symmetric(m: seq<seq<real>>, n: nat)
  {
    SquareMatrix(m, n) && forall i, j :: 0 <= i < n && 0 <= j < n ==> m[i][j] == m[j][i]
  }

  /** m is an n-by-n matrix of strictly positive entries. */
  ghost predicate Positive(m: seq<seq<real>>, n: nat)
  {
    SquareMatrix(m, n) && forall i, j :: 0 <= i < n && 0 <= j < n ==> m[i][j] > 0.0
  }

  /** A row of n equal entries. */
  function Row(n: nat, v: real): (r: seq<real>)
    ensures |r| == n
  {
    seq(n, _ => v)
  }

  /** The n-by-n matrix with every entry v. */
  function Uniform(n: nat, v: real): (m: seq<seq<real>>)
    ensures SquareMatrix(m, n)
  {
    seq(n, _ => Row(n, v))
  }

  /** The undirected edge {x, y} is the cell pair {(p, q), (q, p)}. */
  predicate IsEdge(x: int, y: int, p: int, q: int)
  {
    (x == p && y == q) || (x == q && y == p)
  }

  /** What traversing x -> y adds to cell (p, q): inc to cell (x, y) and inc to cell (y, x),
      so a loop edge x -> x adds inc twice to its diagonal cell. */
  function EdgeDeposit(x: int, y: int, p: int, q: int, inc: real): real
  {
    (if x == p && y == q then inc else 0.0) + (if y == p && x == q then inc else 0.0)
  }

  /** The cells (p, q) and (q, p) lie on the open path along route. */
  predicate OnPath(route: seq<int>, p: int, q: int)
  {
    |route| >= 2 &&
      (OnPath(route[..|route| - 1], p, q) || IsEdge(route[|route| - 2], route[|route| - 1], p, q))
  }

  /** The cells (p, q) and (q, p) lie on the closed tour along route. */
  predicate OnTour(route: seq<int>, p: int, q: int)
    requires |route| >= 1
  {
    OnPath(route, p, q) || IsEdge(route[|route| - 1], route[0], p, q)
  }

  /** The cells (p, q) and (q, p) lie on the tour of at least one ant. */
  predicate OnSomeTour(routes: seq<seq<int>>, p: int, q: int)
    requires forall a :: 0 <= a < |routes| ==> |routes[a]| >= 1
  {
    |routes| >= 1 &&
      (OnSomeTour(routes[..|routes| - 1], p, q) || OnTour(routes[|routes| - 1], p, q))
  }

  /** What the open path along route adds to cell (p, q), inc per traversal. */
  function PathDeposit(route: seq<int>, p: int, q: int, inc: real): real
  {
    if |route| <= 1 then 0.0
    else PathDeposit(route[..|route| - 1], p, q, inc) + EdgeDeposit(route[|route| - 2], route[|route| - 1], p, q, inc)
  }

  /** What one ant's closed tour adds to cell (p, q): its path plus the closing edge. */
  function TourDeposit(route: seq<int>, p: int, q: int, inc: real): real
    requires |route| >= 1
  {
    PathDeposit(route, p, q, inc) + EdgeDeposit(route[|route| - 1], route[0], p, q, inc)
  }

  /** The ants' tours and costs as handed to the update: one non-empty route and one
      positive cost per ant. */
  ghost predicate ValidColony(routes: seq<seq<int>>, costs: seq<real>)
  {
    |routes| == |costs| && forall a :: 0 <= a < |routes| ==> |routes[a]| >= 1 && costs[a] > 0.0
  }

  /** What all ants together add to cell (p, q): each ant's tour, reinforced by 1 / cost. */
  function ColonyDeposit(routes: seq<seq<int>>, costs: seq<real>, p: int, q: int): real
    requires ValidColony(routes, costs)
  {
    if |routes| == 0 then 0.0
    else
      var k := |routes| - 1;
      ColonyDeposit(routes[..k], costs[..k], p, q) + TourDeposit(routes[k], p, q, 1.0 / costs[k])
  }

  /** Every entry scaled by the fraction that survives evaporation. */
  function Evaporated(m: seq<seq<real>>, n: nat): (e: seq<seq<real>>)
    requires SquareMatrix(m, n)
    ensures SquareMatrix(e, n)
  {
    seq(n, i requires 0 <= i < n => seq(n, j requires 0 <= j < n => m[i][j] * (1.0 - EVAPORATION)))
  }

  /** The matrix after one update: evaporated, then reinforced by every ant's tour. */
  function Updated(m: seq<seq<real>>, n: nat, routes: seq<seq<int>>, costs: seq<real>): (u: seq<seq<real>>)
    requires SquareMatrix(m, n) && ValidColony(routes, costs)
    ensures SquareMatrix(u, n)
  {
    seq(n, i requires 0 <= i < n =>
      seq(n, j requires 0 <= j < n => m[i][j] * (1.0 - EVAPORATION) + ColonyDeposit(routes, costs, i, j)))
  }

  // ---------------------------------------------------------------------------------------
  // Properties of the deposits and of one update

  /** Both directions of an edge receive the same deposit. */
  lemma {:induction false} PathDepositSymmetric(route: seq<int>, p: int, q: int, inc: real)
    ensures PathDeposit(route, p, q, inc) == PathDeposit(route, q, p, inc)
  {
    if |route| > 1 {
      PathDepositSymmetric(route[..|route| - 1], p, q, inc);
    }
  }

  lemma {:induction false} ColonyDepositSymmetric(routes: seq<seq<int>>, costs: seq<real>, p: int, q: int)
    requires ValidColony(routes, costs)
    ensures ColonyDeposit(routes, costs, p, q) == ColonyDeposit(routes, costs, q, p)
  {
    if |routes| > 0 {
      var k := |routes| - 1;
      ColonyDepositSymmetric(routes[..k], costs[..k], p, q);
      PathDepositSymmetric(routes[k], p, q, 1.0 / costs[k]);
    }
  }

  /** With a positive increment, a path deposits nothing on a cell off the path and a
      positive amount on a cell of the path. */
  lemma {:induction false} PathDepositSign(route: seq<int>, p: int, q: int, inc: real)
    requires inc > 0.0
    ensures PathDeposit(route, p, q, inc) >= 0.0
    ensures PathDeposit(route, p, q, inc) > 0.0 <==> OnPath(route, p, q)
  {
    if |route| > 1 {
      PathDepositSign(route[..|route| - 1], p, q, inc);
    }
  }

  /** The same for one ant's closed tour. */
  lemma TourDepositSign(route: seq<int>, p: int, q: int, inc: real)
    requires |route| >= 1 && inc > 0.0
    ensures TourDeposit(route, p, q, inc) >= 0.0
    ensures TourDeposit(route, p, q, inc) > 0.0 <==> OnTour(route, p, q)
  {
    PathDepositSign(route, p, q, inc);
  }

  /** All ants together deposit a positive amount on exactly the cells of some ant's tour,
      and nothing anywhere else. */
  lemma {:induction false} ColonyDepositSign(routes: seq<seq<int>>, costs: seq<real>, p: int, q: int)
    requires ValidColony(routes, costs)
    ensures ColonyDeposit(routes, costs, p, q) >= 0.0
    ensures ColonyDeposit(routes, costs, p, q) > 0.0 <==> OnSomeTour(routes, p, q)
  {
    if |routes| > 0 {
      var k := |routes| - 1;
      ColonyDepositSign(routes[..k], costs[..k], p, q);
      TourDepositSign(routes[k], p, q, 1.0 / costs[k]);
      assert routes[..k] == routes[..|routes| - 1];
    }
  }

  /** An update keeps the matrix symmetric: both directions of every edge evaporate and are
      reinforced alike. */
  lemma UpdatePreservesSymmetry(m: seq<seq<real>>, n: nat, routes: seq<seq<int>>, costs: seq<real>)
    requires Symmetric(m, n) && ValidColony(routes, costs)
    ensures Symmetric(Updated(m, n, routes, costs), n)
  {
    var u := Updated(m, n, routes, costs);
    forall i, j | 0 <= i < n && 0 <= j < n
      ensures u[i][j] == u[j][i]
    {
      ColonyDepositSymmetric(routes, costs, i, j);
    }
  }

  /** An update keeps every trail strictly positive: evaporation keeps half of a positive
      trail and deposits are never negative. */
  lemma UpdatePreservesPositivity(m: seq<seq<real>>, n: nat, routes: seq<seq<int>>, costs: seq<real>)
    requires Positive(m, n) && ValidColony(routes, costs)
    ensures Positive(Updated(m, n, routes, costs), n)
  {
    var u := Updated(m, n, routes, costs);
    forall i, j | 0 <= i < n && 0 <= j < n
      ensures u[i][j] > 0.0
    {
      ColonyDepositSign(routes, costs, i, j);
    }
  }

  /** After an update a trail ends above its evaporated level exactly when its edge lies on
      some ant's tour; every other trail is just the evaporated one. */
  lemma UpdateReinforcesExactlyTourEdges(m: seq<seq<real>>, n: nat, routes: seq<seq<int>>, costs: seq<real>,
                                          p: int, q: int)
    requires SquareMatrix(m, n) && ValidColony(routes, costs) && 0 <= p < n && 0 <= q < n
    ensures Updated(m, n, routes, costs)[p][q] >= m[p][q] * (1.0 - EVAPORATION)
    ensures Updated(m, n, routes, costs)[p][q] > m[p][q] * (1.0 - EVAPORATION) <==> OnSomeTour(routes, p, q)
  {
    ColonyDepositSign(routes, costs, p, q);
  }

  /** The initial matrix is symmetric and positive. */
  lemma UniformSymmetricPositive(n: nat)
    ensures Symmetric(Uniform(n, INITIAL_PHEROMONE), n)
    ensures Positive(Uniform(n, INITIAL_PHEROMONE), n)
  {
  }

  /** Two n-by-n matrices with the same entries are equal. */
  lemma SameEntries(m1: seq<seq<real>>, m2: seq<seq<real>>, n: nat)
    requires SquareMatrix(m1, n) && SquareMatrix(m2, n)
    requires forall i, j :: 0 <= i < n && 0 <= j < n ==> m1[i][j] == m2[i][j]
    ensures m1 == m2
  {
    forall i | 0 <= i < n
      ensures m1[i] == m2[i]
    {
      assert forall j :: 0 <= j < n ==> m1[i][j] == m2[i][j];
    }
  }

  // ---------------------------------------------------------------------------------------
  // The matrix itself

  /** The global pheromone matrix (feromonas): an n-by-n array updated in place. */
  class PheromoneMatrix {
    const n: nat
    const cells: array2<real>

    ghost predicate Valid()
    {
      cells.Length0 == n && cells.Length1 == n
    }

    /** The trail levels as a value: row i, column j is cells[i, j]. */
    function Snapshot(): (m: seq<seq<real>>)
      requires Valid()
      reads cells
      ensures SquareMatrix(m, n)
      ensures forall i, j :: 0 <= i < n && 0 <= j < n ==> m[i][j] == cells[i, j]
    {
      seq(n, i requires 0 <= i < n reads cells => seq(n, j requires 0 <= j < n reads cells => cells[i, j]))
    }

    /** The declaration of the matrix: every entry starts at INITIAL_PHEROMONE. */
    constructor (size: nat)
      ensures n == size && Valid() && fresh(cells)
      ensures Snapshot() == Uniform(size, INITIAL_PHEROMONE)
    {
      n := size;
      cells := new real[size, size]((i, j) => INITIAL_PHEROMONE);
      new;
      SameEntries(Snapshot(), Uniform(size, INITIAL_PHEROMONE), size);
    }

    /** inicializarFeromonas: fill every row with INITIAL_PHEROMONE. */
    method Initialize()
      requires Valid()
      modifies cells
      ensures Snapshot() == Uniform(n, INITIAL_PHEROMONE)
    {
      for i := 0 to n
        invariant forall r, c :: 0 <= r < i && 0 <= c < n ==> cells[r, c] == INITIAL_PHEROMONE
      {
        for j := 0 to n
          invariant forall r, c :: 0 <= r < i && 0 <= c < n ==> cells[r, c] == INITIAL_PHEROMONE
          invariant forall c :: 0 <= c < j ==> cells[i, c] == INITIAL_PHEROMONE
        {
          cells[i, j] := INITIAL_PHEROMONE;
        }
      }
      SameEntries(Snapshot(), Uniform(n, INITIAL_PHEROMONE), n);
    }

    /** The evaporation pass: every cell keeps 1 - EVAPORATION of its trail. */
    method Evaporate()
      requires Valid()
      modifies cells
      ensures Snapshot() == Evaporated(old(Snapshot()), n)
    {
      ghost var before := Snapshot();
      for i := 0 to n
        invariant forall r, c :: 0 <= r < n && 0 <= c < n ==>
          cells[r, c] == if r < i then before[r][c] * (1.0 - EVAPORATION) else before[r][c]
      {
        for j := 0 to n
          invariant forall r, c :: 0 <= r < n && 0 <= c < n ==>
            cells[r, c] == if r < i || (r == i && c < j) then before[r][c] * (1.0 - EVAPORATION) else before[r][c]
        {
          cells[i, j] := cells[i, j] * (1.0 - EVAPORATION);
        }
      }
      SameEntries(Snapshot(), Evaporated(before, n), n);
    }

    /** One compound addition: cell (a, b) grows by inc, nothing else changes. */
    method AddTo(a: int, b: int, inc: real)
      requires Valid() && 0 <= a < n && 0 <= b < n
      modifies cells
      ensures forall p, q :: 0 <= p < n && 0 <= q < n ==>
        cells[p, q] == old(cells[p, q]) + (if p == a && q == b then inc else 0.0)
    {
      cells[a, b] := cells[a, b] + inc;
    }

    /** One ant's reinforcement: every edge of its open path in both directions, then the
        closing edge in both directions, each by inc. */
    method DepositTour(route: seq<int>, inc: real)
      requires Valid() && |route| == n && n >= 1 && InRange(route, n)
      modifies cells
      ensures forall p, q :: 0 <= p < n && 0 <= q < n ==>
        cells[p, q] == old(cells[p, q]) + TourDeposit(route, p, q, inc)
    {
      ghost var before := Snapshot();
      for j := 0 to n - 1
        invariant forall p, q :: 0 <= p < n && 0 <= q < n ==>
          cells[p, q] == before[p][q] + PathDeposit(route[..j + 1], p, q, inc)
      {
        var a, b := route[j], route[j + 1];
        AddTo(a, b, inc);
        AddTo(b, a, inc);
        assert route[..j + 2][..j + 1] == route[..j + 1];
      }
      assert route[..n] == route;
      AddTo(route[n - 1], route[0], inc);
      AddTo(route[0], route[n - 1], inc);
    }

    /** actualizarFeromonas: evaporate, then reinforce with every ant's tour by 1 / cost. */
    method Update(routes: seq<seq<int>>, costs: seq<real>)
      requires Valid() && n >= 1 && ValidColony(routes, costs)
      requires forall a :: 0 <= a < |routes| ==> |routes[a]| == n && InRange(routes[a], n)
      modifies cells
      ensures Snapshot() == Updated(old(Snapshot()), n, routes, costs)
    {
      ghost var before := Snapshot();
      Evaporate();
      ghost var evaporated := Snapshot();
      for a := 0 to |routes|
        invariant forall p, q :: 0 <= p < n && 0 <= q < n ==>
          cells[p, q] == evaporated[p][q] + ColonyDeposit(routes[..a], costs[..a], p, q)
      {
        DepositTour(routes[a], 1.0 / costs[a]);
        assert routes[..a + 1][..a] == routes[..a] && costs[..a + 1][..a] == costs[..a];
      }
      assert routes[..|routes|] == routes && costs[..|costs|] == costs;
      SameEntries(Snapshot(), Updated(before, n, routes, costs), n);
    }
  }
}

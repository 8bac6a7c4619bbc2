/** Tour construction for one ant: a random start city, then n - 1 roulette-wheel steps over
    the desirability weights of the cities, then the closing edge back to the start. */
module Construction {
  import opened Tsp
  import opened Desirability
  import opened Roulette

  /** What one ant hands back: its route, the route's cost, and the weight vector of the
      final construction step (earlier steps' vectors are overwritten). */
  datatype Tour = Tour(route: seq<int>, cost: real, lastWeights: seq<real>)

  /** The outcome of one construction. The source does not handle a scan that runs off the
      end: it stores the sentinel -1 as a city and indexes the visited flags with it. The
      model stops there and hands back the cities placed so far. */
  datatype Outcome =
    | Built(tour: Tour)
    | NoCityReached(placed: seq<int>)

  /** Every pheromone entry is strictly positive (true from initialisation on). */
  ghost predicate PositivePheromones(tau: seq<seq<real>>)
  {
    forall i, j :: 0 <= i < |tau| && 0 <= j < |tau[i]| ==> tau[i][j] > 0.0
  }

  /** The random draws one construction consumes, one per roulette step: each is the fraction
      of the total weight drawn, in [0, 1), so the drawn value lies in [0, total). */
  ghost predicate ValidSpins(spins: seq<real>, n: nat)
  {
    n >= 1 && |spins| == n - 1 && forall k :: 0 <= k < |spins| ==> 0.0 <= spins[k] < 1.0
  }

  /** The visited flags of an ant that has placed the cities of prefix. */
  function Visited(prefix: seq<int>, n: nat): (v: seq<bool>)
    ensures |v| == n && forall c :: 0 <= c < n ==> (v[c] <==> c in prefix)
  {
    seq(n, c => c in prefix)
  }

  /** The weight vector of one construction step: the weight of every city for an ant
      standing on cur (a visited city) with the given visited flags. */
  function StepWeights(tau: seq<seq<real>>, dist: seq<seq<real>>, n: nat, cur: int, visited: seq<bool>): (w: seq<real>)
    requires ValidDistances(dist, n) && SquareMatrix(tau, n)
    requires 0 <= cur < n && |visited| == n && visited[cur]
    ensures |w| == n
  {
    seq(n, j requires 0 <= j < n => Weight(tau, dist, cur, j, visited))
  }

  /** The city the roulette wheel selects for an ant that has placed the cities of prefix
      (standing on its last one) and draws the fraction u of the step's total weight; -1 when
      the scan runs off the end. */
  function Choice(tau: seq<seq<real>>, dist: seq<seq<real>>, n: nat, prefix: seq<int>, u: real): int
    requires ValidDistances(dist, n) && SquareMatrix(tau, n)
    requires |prefix| >= 1 && 0 <= prefix[|prefix| - 1] < n
  {
    var w := StepWeights(tau, dist, n, prefix[|prefix| - 1], Visited(prefix, n));
    Pick(w, Draw(u, w))
  }

  /** Every city of route after the first is the roulette choice of its step, made with that
      step's draw: the city placed at step k (k >= 1) is chosen with spins[k - 1]. */
  ghost predicate FollowsDraws(tau: seq<seq<real>>, dist: seq<seq<real>>, n: nat, spins: seq<real>, route: seq<int>)
    requires ValidDistances(dist, n) && SquareMatrix(tau, n)
    requires |route| <= |spins| + 1
  {
    |route| <= 1 ||
      var prefix := route[..|route| - 1];
      && 0 <= prefix[|prefix| - 1] < n
      && FollowsDraws(tau, dist, n, spins, prefix)
      && route[|route| - 1] == Choice(tau, dist, n, prefix, spins[|route| - 2])
  }

  /** lastWeights is the weight vector of the final step of building route: computed from
      the second-to-last city with every city but the last one visited. For a single city
      there is no step, and the vector stays empty. */
  ghost predicate LastStepWeights(tau: seq<seq<real>>, dist: seq<seq<real>>, n: nat, route: seq<int>, lastWeights: seq<real>)
    requires ValidDistances(dist, n) && SquareMatrix(tau, n) && |route| >= 1 && InRange(route, n)
  {
    var m := |route|;
    if m == 1 then lastWeights == []
    else
      assert route[m - 2] in route[..m - 1];
      lastWeights == StepWeights(tau, dist, n, route[m - 2], Visited(route[..m - 1], n))
  }

  /** The vector the source keeps for reporting carries almost no information: once all but
      one city are placed, the only positive weight is that of the last city of the tour. */
  lemma {:induction false} FinalStepSingleCandidate(tau: seq<seq<real>>, dist: seq<seq<real>>, route: seq<int>, lastWeights: seq<real>)
    requires |route| >= 2
    requires ValidDistances(dist, |route|) && SquareMatrix(tau, |route|) && IsPermutation(route, |route|)
    requires PositivePheromones(tau)
    requires LastStepWeights(tau, dist, |route|, route, lastWeights)
    ensures |lastWeights| == |route|
    ensures forall j :: 0 <= j < |route| ==> (lastWeights[j] > 0.0 <==> j == route[|route| - 1])
    ensures forall j :: 0 <= j < |route| ==> lastWeights[j] >= 0.0
  {
    var n := |route|;
    var prefix := route[..n - 1];
    PermutationCoversAll(route, n);
    forall j | 0 <= j < n
      ensures lastWeights[j] >= 0.0
      ensures lastWeights[j] > 0.0 <==> j == route[n - 1]
    {
      if j == route[n - 1] {
        assert j !in prefix by {
          forall i | 0 <= i < n - 1 ensures prefix[i] != j {
            assert route[i] != route[n - 1];
          }
        }
        assert j != route[n - 2];
      } else {
        assert j in route;
        var i :| 0 <= i < n && route[i] == j;
        assert i < n - 1;
        assert prefix[i] == j;
        assert Visited(prefix, n)[j];
      }
    }
  }

  /** One roulette step under the conditions the source takes for granted: positive
      pheromones, a city still unvisited and a non-zero draw. The wheel then selects a city
      of [0, n) that is not yet on the route. */
  lemma {:induction false} StepSucceeds(tau: seq<seq<real>>, dist: seq<seq<real>>, n: nat, prefix: seq<int>, u: real)
    requires ValidDistances(dist, n) && SquareMatrix(tau, n) && PositivePheromones(tau)
    requires 1 <= |prefix| < n && InRange(prefix, n)
    requires 0.0 < u < 1.0
    ensures 0 <= Choice(tau, dist, n, prefix, u) < n
    ensures Choice(tau, dist, n, prefix, u) !in prefix
  {
    var visited := Visited(prefix, n);
    var w := StepWeights(tau, dist, n, prefix[|prefix| - 1], visited);
    assert Choice(tau, dist, n, prefix, u) == Pick(w, Draw(u, w));
    MissingCity(prefix, n);
    var c :| 0 <= c < n && c !in prefix;
    StepWeightsSign(tau, dist, n, prefix[|prefix| - 1], visited);
    assert w[c] > 0.0;
    DrawLandsOnPositiveWeight(w, u);
  }

  /** With positive pheromones the scan of a step never runs off the end, whatever the draw
      in [0, 1): the sentinel -1 is never chosen. */
  lemma {:induction false} StepNeverMisses(tau: seq<seq<real>>, dist: seq<seq<real>>, n: nat, prefix: seq<int>, u: real)
    requires ValidDistances(dist, n) && SquareMatrix(tau, n) && PositivePheromones(tau)
    requires |prefix| >= 1 && 0 <= prefix[|prefix| - 1] < n
    requires 0.0 <= u < 1.0
    ensures 0 <= Choice(tau, dist, n, prefix, u) < n
  {
    var visited := Visited(prefix, n);
    var w := StepWeights(tau, dist, n, prefix[|prefix| - 1], visited);
    assert Choice(tau, dist, n, prefix, u) == Pick(w, Draw(u, w));
    StepWeightsSign(tau, dist, n, prefix[|prefix| - 1], visited);
    DrawNeverMisses(w, u);
  }

  /** With positive pheromones every weight is non-negative, and positive exactly for the
      cities not yet visited. */
  lemma {:induction false} StepWeightsSign(tau: seq<seq<real>>, dist: seq<seq<real>>, n: nat, cur: int, visited: seq<bool>)
    requires ValidDistances(dist, n) && SquareMatrix(tau, n) && PositivePheromones(tau)
    requires 0 <= cur < n && |visited| == n && visited[cur]
    ensures forall j :: 0 <= j < n ==> StepWeights(tau, dist, n, cur, visited)[j] >= 0.0
    ensures forall j :: 0 <= j < n ==> (StepWeights(tau, dist, n, cur, visited)[j] > 0.0 <==> !visited[j])
  {
    var w := StepWeights(tau, dist, n, cur, visited);
    forall j | 0 <= j < n
      ensures w[j] >= 0.0 && (w[j] > 0.0 <==> !visited[j])
    {
      if !visited[j] {
        assert j != cur;
        WeightZeroIffVisited(tau, dist, cur, j, visited);
      }
    }
  }

  /** The weakness of the source's ">=" test: a draw of exactly 0 selects city 0 whatever its
      weight, so an ant that has already visited city 0 places it a second time. */
  lemma {:induction false} ZeroDrawRevisitsCityZero(tau: seq<seq<real>>, dist: seq<seq<real>>, n: nat, prefix: seq<int>)
    requires ValidDistances(dist, n) && SquareMatrix(tau, n)
    requires |prefix| >= 1 && InRange(prefix, n) && 0 in prefix
    ensures Choice(tau, dist, n, prefix, 0.0) == 0
    ensures Choice(tau, dist, n, prefix, 0.0) in prefix
  {
    var w := StepWeights(tau, dist, n, prefix[|prefix| - 1], Visited(prefix, n));
    assert w[0] == 0.0;
    ZeroDrawPicksFirst(w);
  }

  /** On positive pheromones that is the only way a city gets placed twice: a step chooses a
      city already on the route exactly when its draw is zero and city 0 is already placed. */
  lemma {:induction false} RevisitIffZeroDraw(tau: seq<seq<real>>, dist: seq<seq<real>>, n: nat, prefix: seq<int>, u: real)
    requires ValidDistances(dist, n) && SquareMatrix(tau, n) && PositivePheromones(tau)
    requires 1 <= |prefix| < n && InRange(prefix, n)
    requires 0.0 <= u < 1.0
    ensures Choice(tau, dist, n, prefix, u) in prefix <==> u == 0.0 && 0 in prefix
  {
    if u > 0.0 {
      StepSucceeds(tau, dist, n, prefix, u);
    } else {
      var w := StepWeights(tau, dist, n, prefix[|prefix| - 1], Visited(prefix, n));
      StepWeightsSign(tau, dist, n, prefix[|prefix| - 1], Visited(prefix, n));
      assert Draw(u, w) == 0.0;
      ZeroDrawPicksFirst(w);
    }
  }

  /** The inner loop that fills the local weight vector and sums it. */
  method ComputeWeights(tau: seq<seq<real>>, dist: seq<seq<real>>, cur: int, visited: seq<bool>)
    returns (weights: seq<real>, total: real)
    requires ValidDistances(dist, |visited|) && SquareMatrix(tau, |visited|)
    requires 0 <= cur < |visited| && visited[cur]
    ensures weights == StepWeights(tau, dist, |visited|, cur, visited)
    ensures total == Sum(weights)
  {
    var n := |visited|;
    var local := new real[n];
    total := 0.0;
    for j := 0 to n
      invariant total == Sum(local[..j])
      invariant forall k :: 0 <= k < j ==> local[k] == Weight(tau, dist, cur, k, visited)
    {
      local[j] := Weight(tau, dist, cur, j, visited);
      SumSnoc(local[..], j);
      assert local[..][..j + 1] == local[..j + 1] && local[..][..j] == local[..j];
      total := total + local[j];
    }
    assert local[..n] == local[..];
    weights := local[..];
  }

  /** One step of the construction loop: compute the weights from the current city, draw
      the fraction u of their total and scan the wheel. The city chosen is the roulette choice
      Choice; it is -1 only when the scan runs off the end, and under positive pheromones with
      a non-zero draw it is a city not yet placed. */
  method ChooseNext(tau: seq<seq<real>>, dist: seq<seq<real>>, n: nat, route: seq<int>, visited: seq<bool>, u: real)
    returns (next: int, weights: seq<real>)
    requires ValidDistances(dist, n) && SquareMatrix(tau, n)
    requires 1 <= |route| < n && InRange(route, n) && visited == Visited(route, n)
    requires 0.0 <= u < 1.0
    ensures weights == StepWeights(tau, dist, n, route[|route| - 1], visited)
    ensures next == Choice(tau, dist, n, route, u)
    ensures -1 <= next < n
    ensures PositivePheromones(tau) ==> 0 <= next
    ensures PositivePheromones(tau) && u > 0.0 ==> 0 <= next && !visited[next]
  {
    var cur := route[|route| - 1];
    var total;
    weights, total := ComputeWeights(tau, dist, cur, visited);
    var r := u * total;
    assert r == Draw(u, weights);
    next := Spin(weights, r);
    if PositivePheromones(tau) {
      StepNeverMisses(tau, dist, n, route, u);
      if u > 0.0 {
        StepSucceeds(tau, dist, n, route, u);
      }
    }
  }

  /** The city at position k >= 1 of a route that follows the draws is the choice of step k,
      made from the cities before it with the draw spins[k - 1]. */
  lemma {:induction false} FollowsDrawsAt(tau: seq<seq<real>>, dist: seq<seq<real>>, n: nat, spins: seq<real>,
                                          route: seq<int>, k: nat)
    requires ValidDistances(dist, n) && SquareMatrix(tau, n) && |route| <= |spins| + 1
    requires FollowsDraws(tau, dist, n, spins, route) && 1 <= k < |route|
    ensures 0 <= route[k - 1] < n
    ensures route[k] == Choice(tau, dist, n, route[..k], spins[k - 1])
  {
    var m := |route|;
    var t := route[..m - 1];
    if k < m - 1 {
      FollowsDrawsAt(tau, dist, n, spins, t, k);
      assert t[..k] == route[..k];
    }
  }

  /** With all draws zero an ant that starts at city 0 never leaves it. */
  lemma {:induction false} ZeroDrawsStayAtCityZero(tau: seq<seq<real>>, dist: seq<seq<real>>, n: nat,
                                                   spins: seq<real>, route: seq<int>, k: nat)
    requires ValidDistances(dist, n) && SquareMatrix(tau, n) && |route| <= |spins| + 1
    requires FollowsDraws(tau, dist, n, spins, route) && InRange(route, n)
    requires |route| >= 1 && route[0] == 0 && forall i :: 0 <= i < |spins| ==> spins[i] == 0.0
    requires k <= |route|
    ensures forall i :: 0 <= i < k ==> route[i] == 0
  {
    if k > 1 {
      ZeroDrawsStayAtCityZero(tau, dist, n, spins, route, k - 1);
      FollowsDrawsAt(tau, dist, n, spins, route, k - 1);
      var prefix := route[..k - 1];
      assert prefix[0] == 0;
      ZeroDrawRevisitsCityZero(tau, dist, n, prefix);
    }
  }

  /** On positive pheromones and at least two cities, a constructed tour costs nothing
      exactly when the ant starts at city 0 and every one of its draws is zero: the tour then
      stays on city 0 and is the only way the source's 1 / cost divides by zero. */
  lemma {:induction false} ZeroCostIffZeroDraws(tau: seq<seq<real>>, dist: seq<seq<real>>, n: nat, start: int,
                                                spins: seq<real>, tour: Tour)
    requires ValidDistances(dist, n) && SquareMatrix(tau, n) && ValidSpins(spins, n) && PositivePheromones(tau)
    requires n >= 2 && ConstructedTour(tau, dist, n, start, spins, tour)
    ensures tour.cost == 0.0 <==> start == 0 && forall k :: 0 <= k < |spins| ==> spins[k] == 0.0
  {
    var route := tour.route;
    TourLengthZeroIffConstant(dist, route, n);
    if tour.cost == 0.0 {
      forall k | 0 <= k < |spins|
        ensures start == 0 && spins[k] == 0.0
      {
        FollowsDrawsAt(tau, dist, n, spins, route, k + 1);
        var prefix := route[..k + 1];
        assert route[k + 1] == start && prefix[0] == start;
        RevisitIffZeroDraw(tau, dist, n, prefix, spins[k]);
        var i :| 0 <= i < |prefix| && prefix[i] == 0;
        assert route[i] == start;
      }
    } else if start == 0 && forall k :: 0 <= k < |spins| ==> spins[k] == 0.0 {
      ZeroDrawsStayAtCityZero(tau, dist, n, spins, route, |route|);
      assert false;
    }
  }

  /** The state of an ant part-way through construction: route starts at start and holds
      cities of [0, n), visited flags exactly the cities of route, and cost is the length of
      the open path along route. */
  ghost predicate PartialTour(dist: seq<seq<real>>, n: nat, start: int, route: seq<int>,
                              visited: seq<bool>, cost: real)
  {
    && ValidDistances(dist, n)
    && 1 <= |route| <= n && route[0] == start && InRange(route, n)
    && visited == Visited(route, n)
    && cost == PathLength(dist, route, n)
  }

  /** One construction step: appending a city, marking it visited and adding the edge to it
      keeps the partial-tour state, and keeps the route free of repetitions when the city was
      not yet visited. */
  lemma {:induction false} ExtendPartialTour(dist: seq<seq<real>>, n: nat, start: int, route: seq<int>,
                          visited: seq<bool>, cost: real, cur: int, next: int)
    requires PartialTour(dist, n, start, route, visited, cost) && cur == route[|route| - 1]
    requires |route| < n && 0 <= next < n
    ensures PartialTour(dist, n, start, route + [next], visited[next := true], cost + dist[cur][next])
    ensures (route + [next])[..|route|] == route
    ensures Distinct(route) && !visited[next] ==> Distinct(route + [next])
  {
    PathLengthSnoc(dist, route, next, n);
    assert (route + [next])[..|route|] == route;
    assert visited[next := true] == Visited(route + [next], n);
  }

  /** Appending the roulette choice of the next step keeps the route faithful to the draws. */
  lemma {:induction false} FollowsDrawsSnoc(tau: seq<seq<real>>, dist: seq<seq<real>>, n: nat, spins: seq<real>,
                         route: seq<int>, next: int)
    requires ValidDistances(dist, n) && SquareMatrix(tau, n)
    requires 1 <= |route| <= |spins| && InRange(route, n) && 0 <= next < n
    requires FollowsDraws(tau, dist, n, spins, route)
    requires next == Choice(tau, dist, n, route, spins[|route| - 1])
    ensures InRange(route + [next], n)
    ensures FollowsDraws(tau, dist, n, spins, route + [next])
  {
    var ext := route + [next];
    assert ext[..|ext| - 1] == route;
    assert 0 <= route[|route| - 1] < n && ext[|ext| - 1] == next;
  }

  /** Everything the construction loop maintains, for an ant that has placed route:
      the partial-tour state, the draws followed so far, no repetition under fair conditions
      (fair: positive pheromones and non-zero draws), and the weight vector of the latest step. */
  ghost predicate AntState(tau: seq<seq<real>>, dist: seq<seq<real>>, n: nat, start: int, spins: seq<real>,
                           fair: bool, route: seq<int>, visited: seq<bool>, cost: real, lastWeights: seq<real>)
  {
    && SquareMatrix(tau, n) && ValidSpins(spins, n)
    && PartialTour(dist, n, start, route, visited, cost)
    && FollowsDraws(tau, dist, n, spins, route)
    && (fair ==> Distinct(route))
    && LastStepWeights(tau, dist, n, route, lastWeights)
  }

  /** The state right after the start city is placed. */
  lemma {:induction false} AntStateInit(tau: seq<seq<real>>, dist: seq<seq<real>>, n: nat, start: int,
                                        spins: seq<real>, fair: bool)
    requires ValidDistances(dist, n) && SquareMatrix(tau, n) && ValidSpins(spins, n)
    requires 0 <= start < n
    ensures AntState(tau, dist, n, start, spins, fair, [start], seq(n, c => false)[start := true], 0.0, [])
  {
    assert seq(n, c => false)[start := true] == Visited([start], n);
  }

  /** One successful step of the loop: placing the roulette choice next keeps the state, with
      the step's weights as the latest weight vector. */
  lemma {:induction false} AntStateStep(tau: seq<seq<real>>, dist: seq<seq<real>>, n: nat, start: int,
                                        spins: seq<real>, fair: bool, route: seq<int>, visited: seq<bool>,
                                        cost: real, lastWeights: seq<real>, cur: int, weights: seq<real>, next: int)
    requires AntState(tau, dist, n, start, spins, fair, route, visited, cost, lastWeights)
    requires |route| < n && cur == route[|route| - 1] && 0 <= next < n
    requires weights == StepWeights(tau, dist, n, cur, visited)
    requires next == Choice(tau, dist, n, route, spins[|route| - 1])
    requires fair ==> !visited[next]
    ensures AntState(tau, dist, n, start, spins, fair, route + [next], visited[next := true],
                     cost + dist[cur][next], weights)
  {
    ExtendPartialTour(dist, n, start, route, visited, cost, cur, next);
    FollowsDrawsSnoc(tau, dist, n, spins, route, next);
    var ext := route + [next];
    assert ext[|ext| - 2] == cur && ext[..|ext| - 1] == route;
  }

  /** tour is what the construction yields for an ant starting at start with the draws
      spins: a closed route of n cities of [0, n) starting at start, each city after the first
      the roulette choice of its step, the cost the length of the closed route, and the weight
      vector that of the final step. */
  ghost predicate ConstructedTour(tau: seq<seq<real>>, dist: seq<seq<real>>, n: nat, start: int,
                                  spins: seq<real>, tour: Tour)
    requires ValidDistances(dist, n) && SquareMatrix(tau, n) && ValidSpins(spins, n)
  {
    && |tour.route| == n && InRange(tour.route, n) && tour.route[0] == start
    && FollowsDraws(tau, dist, n, spins, tour.route)
    && tour.cost == TourLength(dist, tour.route, n)
    && LastStepWeights(tau, dist, n, tour.route, tour.lastWeights)
  }

  /** placed is where the construction stops: the cities placed before the scan ran off the
      end, following the draws, and the next choice is the sentinel -1. */
  ghost predicate StuckAt(tau: seq<seq<real>>, dist: seq<seq<real>>, n: nat, start: int,
                          spins: seq<real>, placed: seq<int>)
    requires ValidDistances(dist, n) && SquareMatrix(tau, n) && ValidSpins(spins, n)
  {
    && 1 <= |placed| < n && InRange(placed, n) && placed[0] == start
    && FollowsDraws(tau, dist, n, spins, placed)
    && Choice(tau, dist, n, placed, spins[|placed| - 1]) == -1
  }

  /** When all n cities are placed, closing the route gives the constructed tour, and under
      fair conditions a permutation. */
  lemma {:induction false} AntStateDone(tau: seq<seq<real>>, dist: seq<seq<real>>, n: nat, start: int,
                                        spins: seq<real>, fair: bool, route: seq<int>, visited: seq<bool>,
                                        cost: real, lastWeights: seq<real>, cur: int)
    requires AntState(tau, dist, n, start, spins, fair, route, visited, cost, lastWeights)
    requires |route| == n && cur == route[n - 1]
    ensures ConstructedTour(tau, dist, n, start, spins, Tour(route, cost + dist[cur][route[0]], lastWeights))
    ensures fair ==> IsPermutation(route, n)
  {
  }

  /** When the scan of the next step runs off the end, the cities placed so far are where
      the construction stops. */
  lemma {:induction false} AntStateStuck(tau: seq<seq<real>>, dist: seq<seq<real>>, n: nat, start: int,
                                         spins: seq<real>, fair: bool, route: seq<int>, visited: seq<bool>,
                                         cost: real, lastWeights: seq<real>)
    requires AntState(tau, dist, n, start, spins, fair, route, visited, cost, lastWeights)
    requires |route| < n && Choice(tau, dist, n, route, spins[|route| - 1]) == -1
    ensures StuckAt(tau, dist, n, start, spins, route)
  {
  }

  /** construirSolucion. start is the uniformly drawn start city and spins[k] the fraction
      drawn at step k + 1; the drawn value of a step is that fraction of the step's total
      weight. A Built outcome is a closed route of n cities starting at start, each city after
      the first being the roulette choice of its step, its cost is the length of the closed
      route, and the weight vector kept is the final step's. With positive pheromones and
      non-zero draws the construction never fails and the route is a permutation. */
  method BuildTour(tau: seq<seq<real>>, dist: seq<seq<real>>, start: int, spins: seq<real>)
    returns (outcome: Outcome)
    requires ValidDistances(dist, |dist|) && SquareMatrix(tau, |dist|)
    requires 0 <= start < |dist| && ValidSpins(spins, |dist|)
    ensures outcome.Built? ==> ConstructedTour(tau, dist, |dist|, start, spins, outcome.tour)
    ensures outcome.NoCityReached? ==> StuckAt(tau, dist, |dist|, start, spins, outcome.placed)
    ensures PositivePheromones(tau) ==> outcome.Built?
    ensures PositivePheromones(tau) && (forall k :: 0 <= k < |spins| ==> spins[k] > 0.0) ==>
      outcome.Built? && IsPermutation(outcome.tour.route, |dist|)
  {
    var n := |dist|;
    ghost var fair := PositivePheromones(tau) && forall k :: 0 <= k < |spins| ==> spins[k] > 0.0;
    var cur := start;
    var route := [cur];
    var visited := seq(n, c => false)[cur := true];
    var cost := 0.0;
    var lastWeights: seq<real> := [];
    AntStateInit(tau, dist, n, start, spins, fair);
    var step := 1;
    while step < n
      invariant 1 <= step <= n && |route| == step && cur == route[step - 1]
      invariant AntState(tau, dist, n, start, spins, fair, route, visited, cost, lastWeights)
    {
      var next, weights := ChooseNext(tau, dist, n, route, visited, spins[step - 1]);
      if next == -1 {
        AntStateStuck(tau, dist, n, start, spins, fair, route, visited, cost, lastWeights);
        return NoCityReached(route);
      }
      AntStateStep(tau, dist, n, start, spins, fair, route, visited, cost, lastWeights, cur, weights, next);
      route := route + [next];
      visited := visited[next := true];
      cost := cost + dist[cur][next];
      lastWeights := weights;
      cur := next;
      step := step + 1;
    }
    AntStateDone(tau, dist, n, start, spins, fair, route, visited, cost, lastWeights, cur);
    cost := cost + dist[cur][route[0]];
    outcome := Built(Tour(route, cost, lastWeights));
  }
}

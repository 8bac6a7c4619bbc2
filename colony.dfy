/** The main loop of the colony: the pheromones are initialised, then each iteration lets
    every ant build a tour on the current trails and updates the trails with all the tours. */
module Colony {
  import opened Tsp
  import opened Construction
  import opened Pheromones

  /** Number of ants per iteration (NUM_HORMIGAS). */
  const ANTS: nat := 24
  /** Number of iterations (ITERACIONES). */
  const ITERATIONS: nat := 100

  /** The random draws of one ant in one iteration: its start city and, per roulette step, the
      fraction of the step's total weight drawn. */
  datatype AntDraws = AntDraws(start: int, spins: seq<real>)

  /** Why a run stops early. The source carries on in both cases: it stores the sentinel -1 in
      the route, or it divides by a zero cost. */
  datatype StopReason =
    | Stuck(placed: seq<int>)  // the scan of a roulette step ran off the end
    | ZeroCost(tour: Tour)     // a tour of cost 0, whose reinforcement 1 / cost is undefined

  /** What the ants of one iteration produce. */
  datatype IterationOutcome =
    | AllBuilt(tours: seq<Tour>)
    | AntStopped(ant: nat, reason: StopReason)

  /** What a run produces: the tours of every iteration, or the iterations completed before
      an ant stopped the run. */
  datatype RunOutcome =
    | Completed(history: seq<seq<Tour>>)
    | Stopped(history: seq<seq<Tour>>, ant: nat, reason: StopReason)

  /** Draws for every ant of every iteration. */
  ghost predicate ValidDraws(draws: seq<seq<AntDraws>>, n: nat)
  {
    |draws| == ITERATIONS &&
      forall it :: 0 <= it < |draws| ==>
        |draws[it]| == ANTS &&
        forall a :: 0 <= a < ANTS ==> 0 <= draws[it][a].start < n && ValidSpins(draws[it][a].spins, n)
  }

  /** No draw of any ant in any iteration is exactly zero. */
  ghost predicate NonZeroDraws(draws: seq<seq<AntDraws>>)
  {
    forall it, a, k :: 0 <= it < |draws| && 0 <= a < |draws[it]| && 0 <= k < |draws[it][a].spins| ==>
      draws[it][a].spins[k] > 0.0
  }

  /** The tours of one iteration as the update takes them: routes of n cities and positive
      costs. */
  ghost predicate ValidTours(tours: seq<Tour>, n: nat)
  {
    forall a :: 0 <= a < |tours| ==>
      |tours[a].route| == n && InRange(tours[a].route, n) && tours[a].cost > 0.0
  }

  ghost predicate ValidHistory(history: seq<seq<Tour>>, n: nat)
  {
    n >= 1 && forall it :: 0 <= it < |history| ==> ValidTours(history[it], n)
  }

  function Routes(tours: seq<Tour>): (routes: seq<seq<int>>)
    ensures |routes| == |tours| && forall a :: 0 <= a < |tours| ==> routes[a] == tours[a].route
  {
    seq(|tours|, a requires 0 <= a < |tours| => tours[a].route)
  }

  function Costs(tours: seq<Tour>): (costs: seq<real>)
    ensures |costs| == |tours| && forall a :: 0 <= a < |tours| ==> costs[a] == tours[a].cost
  {
    seq(|tours|, a requires 0 <= a < |tours| => tours[a].cost)
  }

  lemma ToursFormColony(tours: seq<Tour>, n: nat)
    requires n >= 1 && ValidTours(tours, n)
    ensures ValidColony(Routes(tours), Costs(tours))
    ensures forall a :: 0 <= a < |tours| ==> |Routes(tours)[a]| == n && InRange(Routes(tours)[a], n)
  {
  }

  /** The pheromone matrix after the iterations of history: the initial matrix, updated once
      per iteration with that iteration's tours. */
  function Replay(n: nat, history: seq<seq<Tour>>): (m: seq<seq<real>>)
    requires ValidHistory(history, n)
    ensures SquareMatrix(m, n)
  {
    if |history| == 0 then Uniform(n, INITIAL_PHEROMONE)
    else
      var k := |history| - 1;
      ToursFormColony(history[k], n);
      Updated(Replay(n, history[..k]), n, Routes(history[k]), Costs(history[k]))
  }

  /** Whatever the tours, the trails stay symmetric and strictly positive. */
  lemma {:induction false} ReplaySymmetricPositive(n: nat, history: seq<seq<Tour>>)
    requires ValidHistory(history, n)
    ensures Symmetric(Replay(n, history), n)
    ensures Positive(Replay(n, history), n)
  {
    if |history| == 0 {
      UniformSymmetricPositive(n);
    } else {
      var k := |history| - 1;
      ReplaySymmetricPositive(n, history[..k]);
      ToursFormColony(history[k], n);
      UpdatePreservesSymmetry(Replay(n, history[..k]), n, Routes(history[k]), Costs(history[k]));
      UpdatePreservesPositivity(Replay(n, history[..k]), n, Routes(history[k]), Costs(history[k]));
    }
  }

  /** Every tour of history is the one its ant constructs with its draws on the trails left
      by the iterations before. */
  ghost predicate FollowsRunDraws(n: nat, dist: seq<seq<real>>, draws: seq<seq<AntDraws>>,
                                  history: seq<seq<Tour>>)
    requires ValidDistances(dist, n) && ValidDraws(draws, n) && ValidHistory(history, n)
    requires |history| <= |draws|
  {
    forall it :: 0 <= it < |history| ==>
      |history[it]| == ANTS &&
      forall a :: 0 <= a < ANTS ==>
        ConstructedTour(Replay(n, history[..it]), dist, n, draws[it][a].start, draws[it][a].spins, history[it][a])
  }

  /** The state of a run after the iterations of history: every tour is valid and is the one
      its ant built with its draws on the trails of its iteration, and a permutation when
      fair. */
  ghost predicate RunState(n: nat, dist: seq<seq<real>>, draws: seq<seq<AntDraws>>, fair: bool,
                           history: seq<seq<Tour>>)
    requires ValidDistances(dist, n) && ValidDraws(draws, n)
  {
    && ValidHistory(history, n) && |history| <= |draws|
    && FollowsRunDraws(n, dist, draws, history)
    && (fair ==> forall i, a :: 0 <= i < |history| && 0 <= a < ANTS ==> IsPermutation(history[i][a].route, n))
  }

  /** One completed iteration extends the run state, and the trails it leaves are the
      update of the trails it started from with its tours. */
  lemma {:induction false} RunStateSnoc(n: nat, dist: seq<seq<real>>, draws: seq<seq<AntDraws>>, fair: bool,
                                        history: seq<seq<Tour>>, tours: seq<Tour>)
    requires ValidDistances(dist, n) && ValidDraws(draws, n)
    requires RunState(n, dist, draws, fair, history) && |history| < |draws|
    requires |tours| == ANTS && ValidTours(tours, n)
    requires forall a :: 0 <= a < ANTS ==>
      ConstructedTour(Replay(n, history), dist, n, draws[|history|][a].start, draws[|history|][a].spins, tours[a])
    requires fair ==> forall a :: 0 <= a < ANTS ==> IsPermutation(tours[a].route, n)
    ensures ValidHistory(history + [tours], n)
    ensures RunState(n, dist, draws, fair, history + [tours])
    ensures Replay(n, history + [tours]) == Updated(Replay(n, history), n, Routes(tours), Costs(tours))
  {
    var next := history + [tours];
    assert next[..|history|] == history;
    forall i | 0 <= i < |next|
      ensures ValidTours(next[i], n)
      ensures |next[i]| == ANTS && forall a :: 0 <= a < ANTS ==>
        ConstructedTour(Replay(n, next[..i]), dist, n, draws[i][a].start, draws[i][a].spins, next[i][a])
      ensures fair ==> forall a :: 0 <= a < ANTS ==> IsPermutation(next[i][a].route, n)
    {
      if i < |history| {
        assert next[..i] == history[..i] && next[i] == history[i];
      }
    }
  }

  /** The first |tours| ants have built tours[b] with their own draws on the trails tau, each
      of positive cost, and each a permutation when fair. */
  ghost predicate AntsBuilt(tau: seq<seq<real>>, dist: seq<seq<real>>, n: nat, draws: seq<AntDraws>,
                            fair: bool, tours: seq<Tour>)
    requires ValidDistances(dist, n) && SquareMatrix(tau, n)
    requires forall a :: 0 <= a < |draws| ==> 0 <= draws[a].start < n && ValidSpins(draws[a].spins, n)
  {
    && |tours| <= |draws| && ValidTours(tours, n)
    && (forall b :: 0 <= b < |tours| ==>
          ConstructedTour(tau, dist, n, draws[b].start, draws[b].spins, tours[b]))
    && (fair ==> forall b :: 0 <= b < |tours| ==> IsPermutation(tours[b].route, n))
  }

  /** The next ant's tour extends the tours built so far. */
  lemma {:induction false} AntsBuiltSnoc(tau: seq<seq<real>>, dist: seq<seq<real>>, n: nat, draws: seq<AntDraws>,
                                         fair: bool, tours: seq<Tour>, tour: Tour)
    requires ValidDistances(dist, n) && SquareMatrix(tau, n)
    requires forall a :: 0 <= a < |draws| ==> 0 <= draws[a].start < n && ValidSpins(draws[a].spins, n)
    requires AntsBuilt(tau, dist, n, draws, fair, tours) && |tours| < |draws|
    requires ConstructedTour(tau, dist, n, draws[|tours|].start, draws[|tours|].spins, tour)
    requires tour.cost > 0.0 && (fair ==> IsPermutation(tour.route, n))
    ensures AntsBuilt(tau, dist, n, draws, fair, tours + [tour])
  {
    var next := tours + [tour];
    forall b | 0 <= b < |next|
      ensures ConstructedTour(tau, dist, n, draws[b].start, draws[b].spins, next[b])
      ensures |next[b].route| == n && InRange(next[b].route, n) && next[b].cost > 0.0
      ensures fair ==> IsPermutation(next[b].route, n)
    {
      if b < |tours| {
        assert next[b] == tours[b];
      }
    }
  }

  /** The ants' loop of one iteration: each ant builds its tour on the same trails tau. All
      tours are handed back when every ant completes a tour of positive cost; otherwise the
      first ant that cannot is reported. On positive trails, with at least two cities and
      non-zero draws, every ant builds a permutation of positive cost. */
  method BuildAll(tau: seq<seq<real>>, dist: seq<seq<real>>, draws: seq<AntDraws>)
    returns (result: IterationOutcome)
    requires ValidDistances(dist, |dist|) && SquareMatrix(tau, |dist|) && |dist| >= 1
    requires |draws| == ANTS
    requires forall a :: 0 <= a < ANTS ==> 0 <= draws[a].start < |dist| && ValidSpins(draws[a].spins, |dist|)
    ensures result.AllBuilt? ==>
      && |result.tours| == ANTS && ValidTours(result.tours, |dist|)
      && forall a :: 0 <= a < ANTS ==>
           ConstructedTour(tau, dist, |dist|, draws[a].start, draws[a].spins, result.tours[a])
    ensures result.AntStopped? ==> result.ant < ANTS
    ensures result.AntStopped? && PositivePheromones(tau) ==> result.reason.ZeroCost?
    ensures result.AntStopped? && PositivePheromones(tau) && |dist| >= 2 ==>
      draws[result.ant].start == 0 &&
      forall k :: 0 <= k < |draws[result.ant].spins| ==> draws[result.ant].spins[k] == 0.0
    ensures result.AntStopped? && result.reason.Stuck? ==>
      StuckAt(tau, dist, |dist|, draws[result.ant].start, draws[result.ant].spins, result.reason.placed)
    ensures result.AntStopped? && result.reason.ZeroCost? ==>
      && ConstructedTour(tau, dist, |dist|, draws[result.ant].start, draws[result.ant].spins, result.reason.tour)
      && result.reason.tour.cost == 0.0
    ensures PositivePheromones(tau) && |dist| >= 2 &&
            (forall a, k :: 0 <= a < ANTS && 0 <= k < |draws[a].spins| ==> draws[a].spins[k] > 0.0) ==>
      result.AllBuilt? && forall a :: 0 <= a < ANTS ==> IsPermutation(result.tours[a].route, |dist|)
  {
    var n := |dist|;
    ghost var fair := PositivePheromones(tau) && n >= 2 &&
      forall a, k :: 0 <= a < ANTS && 0 <= k < |draws[a].spins| ==> draws[a].spins[k] > 0.0;
    var tours: seq<Tour> := [];
    for a := 0 to ANTS
      invariant |tours| == a && AntsBuilt(tau, dist, n, draws, fair, tours)
    {
      var outcome := BuildTour(tau, dist, draws[a].start, draws[a].spins);
      if outcome.NoCityReached? {
        return AntStopped(a, Stuck(outcome.placed));
      }
      var tour := outcome.tour;
      TourLengthNonNegative(dist, tour.route, n);
      if fair {
        TourLengthPositive(dist, tour.route, n);
      }
      if tour.cost <= 0.0 {
        if PositivePheromones(tau) && n >= 2 {
          ZeroCostIffZeroDraws(tau, dist, n, draws[a].start, draws[a].spins, tour);
        }
        return AntStopped(a, ZeroCost(tour));
      }
      AntsBuiltSnoc(tau, dist, n, draws, fair, tours, tour);
      tours := tours + [tour];
    }
    result := AllBuilt(tours);
  }

  /** main: initialise the trails, then for every iteration let all ants build their tours
      on the current trails and update the trails with them. A completed run holds ANTS tours
      per iteration, each the construction of its ant's draws on the trails of its iteration,
      and leaves the trails the replay of all updates; a stopped run reports the same of the
      iterations before the stop. With at least two cities and non-zero draws the run always
      completes and every tour is a permutation. */
  method Run(p: PheromoneMatrix, dist: seq<seq<real>>, draws: seq<seq<AntDraws>>)
    returns (outcome: RunOutcome)
    requires p.Valid() && p.n == |dist| && |dist| >= 1 && ValidDistances(dist, |dist|)
    requires ValidDraws(draws, |dist|)
    modifies p.cells
    ensures ValidHistory(outcome.history, |dist|) && |outcome.history| <= ITERATIONS
    ensures FollowsRunDraws(|dist|, dist, draws, outcome.history)
    ensures p.Snapshot() == Replay(|dist|, outcome.history)
    ensures outcome.Completed? ==> |outcome.history| == ITERATIONS
    ensures outcome.Stopped? ==>
      var it, a := |outcome.history|, outcome.ant;
      var tau := Replay(|dist|, outcome.history);
      && it < ITERATIONS && a < ANTS && outcome.reason.ZeroCost?
      && ConstructedTour(tau, dist, |dist|, draws[it][a].start, draws[it][a].spins, outcome.reason.tour)
      && outcome.reason.tour.cost == 0.0
      && (|dist| >= 2 ==>
            draws[it][a].start == 0 && forall k :: 0 <= k < |draws[it][a].spins| ==> draws[it][a].spins[k] == 0.0)
    ensures |dist| >= 2 && NonZeroDraws(draws) ==>
      && outcome.Completed?
      && forall it, a :: 0 <= it < ITERATIONS && 0 <= a < ANTS ==>
           IsPermutation(outcome.history[it][a].route, |dist|)
  {
    var n := |dist|;
    ghost var fair := n >= 2 && NonZeroDraws(draws);
    p.Initialize();
    var history: seq<seq<Tour>> := [];
    for it := 0 to ITERATIONS
      invariant |history| == it
      invariant RunState(n, dist, draws, fair, history)
      invariant p.Snapshot() == Replay(n, history)
    {
      ReplaySymmetricPositive(n, history);
      var tau := p.Snapshot();
      assert PositivePheromones(tau);
      var result := BuildAll(tau, dist, draws[it]);
      if result.AntStopped? {
        return Stopped(history, result.ant, result.reason);
      }
      var tours := result.tours;
      ToursFormColony(tours, n);
      p.Update(Routes(tours), Costs(tours));
      RunStateSnoc(n, dist, draws, fair, history, tours);
      history := history + [tours];
    }
    outcome := Completed(history);
  }
}

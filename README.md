# Ant Colony Optimisation for the travelling-salesman problem — a verified model

This project models `main.cpp`, an Ant Colony Optimisation (ACO) solver for the
symmetric travelling-salesman problem, in Dafny.

**Pheromone matrix** (`feromonas`). An n-by-n matrix of trail levels shared by all ants.
- It starts uniform at `FEROMONA_INICIAL`.
- Each iteration it is evaporated by the factor `1 - EVAPORACION`.
- Each ant's closed tour then reinforces it by `1 / cost`, in both directions of every edge.

**Desirability** (`calcularProbabilidad`). The weight of a move is `pow(tau, ALPHA) * pow(1 / d, BETA)`. A city already visited gets weight 0.

**Tour construction** (`construirSolucion`). An ant starts at a random city. For each of the n - 1 remaining steps it:
1. computes the weight of every city and their total;
2. draws a value in `[0, total)`;
3. scans the cities in index order, accumulating weights, and stops at the first city whose running sum reaches the draw;
4. adds that city to the route and the edge to the cost.

The closing edge back to the start is added last.

**The main loop.** It initialises the trails. Then, for `ITERACIONES` iterations, it lets each of the `NUM_HORMIGAS` ants build a tour on the current trails and updates the trails with all the tours.

## Modules

| file | module | source |
|---|---|---|
| `tsp.dfy` | `Tsp` | Cities, distance matrices, routes, open and closed route length, permutations. |
| `desirability.dfy` | `Desirability` | `calcularProbabilidad`, as a function with exact powers: ALPHA = 1 and BETA = 5 are whole numbers. |
| `roulette.dfy` | `Roulette` | Running sums, and the first-reaching scan as a function (`Pick`) and as the loop with its `break` (`Spin`). |
| `construction.dfy` | `Construction` | `construirSolucion` as the method `BuildTour`, specified by `Choice`, `FollowsDraws` and `ConstructedTour`. |
| `pheromones.dfy` | `Pheromones` | `feromonas` as the class `PheromoneMatrix` over an `array2<real>`, specified by `Uniform`, `Evaporated` and `Updated`. |
| `colony.dfy` | `Colony` | The loop of `main`: `BuildAll`, the ants of one iteration, and `Run`, all iterations. |

### Randomness as parameters

- Each construction takes its start city as a parameter in `[0, n)`.
- The draw of a step is a fraction `u` in `[0, 1)` of that step's total weight, so the value drawn is `u * total`.
- A run takes one such set of draws per ant per iteration (`AntDraws`).

### What is proved

- **Desirability.** A visited city gets weight 0 exactly. An unvisited city's weight depends only on the trail and the length of its edge, is positive on a positive trail, and is strictly larger for a shorter edge or a stronger trail.
- **The scan.** It selects the smallest index whose running sum reaches the draw, and returns -1 exactly when no running sum does.
  - On non-negative weights, a draw in `[0, total)` never makes it return -1.
  - A non-zero draw always lands on a positive weight.
  - A zero draw selects index 0, whatever its weight.
- **Construction: what is built.** `BuildTour` returns the route its draws determine, step by step. The cost is the length of the closed route. The weight vector kept is that of the final step.
- **Construction: when it is a permutation.** On positive trails the construction always completes. With non-zero draws as well, the route is a permutation of the cities.
- **Construction: the zero draw.** The source's `>=` test has one weak spot: a zero draw picks city 0 even when it is already on the route.
  - On positive trails this is the only way a city gets placed twice.
  - A tour costs 0 exactly when it starts at city 0 and every draw is zero. That is the only way the reinforcement `1 / cost` divides by zero.
- **Pheromone matrix.**
  - Initialisation makes every entry `FEROMONA_INICIAL`.
  - Evaporation multiplies every entry by `1 - EVAPORACION`.
  - The update adds to each cell `1 / cost` for every traversal of that edge, in either direction, by every ant.
  - A trail rises above its evaporated level exactly when its edge is on some ant's tour.
  - Updates keep the matrix symmetric and strictly positive.
- **Run.**
  - A completed run holds `NUM_HORMIGAS` tours per iteration. Each is the construction of its ant's draws on the trails left by the iterations before it.
  - The final trails are the initial matrix updated once per iteration.
  - A run stops early only on a tour of cost 0.
  - With at least two cities and non-zero draws, the run completes and every tour is a permutation.

## Model

| member | source | states |
|---|---|---|
| Tsp.TourLengthNonNegative | main.cpp:111-115 | The cost of a closed route is never negative. |
| Tsp.TourLengthPositive | main.cpp:128-141 | A permutation of at least two cities has strictly positive length, so the reinforcement 1 / cost is defined. |
| Tsp.PathLengthZeroIffConstant | main.cpp:111 | An open route has length 0 if and only if it never leaves its first city. |
| Tsp.TourLengthZeroIffConstant | main.cpp:111-115 | A closed route has length 0 if and only if it never leaves its first city. |
| Tsp.MissingCity | main.cpp:84-110 | A route shorter than n leaves some city unvisited, so every step has a candidate. |
| Tsp.PermutationCoversAll | main.cpp:72-113 | A permutation of n cities visits every city of [0, n): as a set it is exactly [0, n). |
| Desirability.Desirability | main.cpp:67-68 | pow(tau, ALPHA) * pow(1 / d, BETA) is non-negative for a non-negative trail and positive for a positive one. |
| Desirability.ShorterIsMoreDesirable | main.cpp:67-68 | At equal pheromone, a strictly shorter edge has strictly larger weight. |
| Desirability.StrongerTrailIsMoreDesirable | main.cpp:67-68 | At equal length, a strictly stronger trail has strictly larger weight. |
| Desirability.WeightZeroIffVisited | main.cpp:65-69 | On a positive trail the weight is non-negative, and is 0 if and only if the candidate is visited. |
| Desirability.WeightIsLocal | main.cpp:65-69 | The weight depends only on the edge's trail, the edge's length and the candidate's visited flag. |
| Roulette.SumSign | main.cpp:86-91 | A total of non-negative weights is non-negative, and positive when one weight is positive. |
| Roulette.PickFromFirstReaching | main.cpp:98-107 | The scan from index k selects the first index from k on whose running sum reaches the draw, and -1 exactly when none does. |
| Roulette.PickIsFirstReaching | main.cpp:98-107 | Selection returns the smallest index whose running sum reaches the draw, and -1 exactly when no running sum does. |
| Roulette.PickPositiveWeight | main.cpp:101-107 | For a draw in (0, total], the selected index exists and carries a strictly positive weight. |
| Roulette.DrawNeverMisses | main.cpp:96-107 | Over non-negative weights, a draw in [0, total) never leaves the sentinel -1. |
| Roulette.DrawLandsOnPositiveWeight | main.cpp:96-107 | Over non-negative weights with a positive one, a non-zero draw selects an index of positive weight. |
| Roulette.ZeroDrawPicksFirst | main.cpp:101-106 | A draw of 0 selects index 0 whatever its weight. |
| Roulette.Spin | main.cpp:98-107 | The accumulating loop with its break returns exactly the selection Pick. |
| Construction.ComputeWeights | main.cpp:85-91 | The weight loop fills the vector with every city's weight from the current city and returns its total. |
| Construction.ChooseNext | main.cpp:85-107 | One step returns the roulette choice and that step's weights. On positive trails the choice is a city; with a non-zero draw it is unvisited. |
| Construction.StepWeightsSign | main.cpp:88-91 | On positive trails every step weight is non-negative, and positive exactly for unvisited cities. |
| Construction.StepSucceeds | main.cpp:96-110 | On positive trails with a non-zero draw, a step chooses a city of [0, n) not yet on the route. |
| Construction.StepNeverMisses | main.cpp:96-110 | On positive trails, a step never chooses the sentinel -1, whatever the draw in [0, 1). |
| Construction.ZeroDrawRevisitsCityZero | main.cpp:101-110 | Once city 0 is on the route, a zero draw chooses city 0 again. |
| Construction.RevisitIffZeroDraw | main.cpp:101-110 | On positive trails, a step chooses a city already on the route if and only if the draw is zero and city 0 is placed. |
| Construction.FinalStepSingleCandidate | main.cpp:93-94 | The kept weight vector (final step only) is positive at exactly one index: the last city of the tour. |
| Construction.FollowsDrawsAt | main.cpp:84-112 | The city at position k of a constructed route is the roulette choice of step k, made with draw k - 1. |
| Construction.ExtendPartialTour | main.cpp:109-112 | Placing a city keeps the route in range, leaves the flags set exactly for the cities on the route, and adds exactly the edge from the previous city to the running cost. It creates no repeat when the city was unvisited. |
| Construction.AntStateInit | main.cpp:72-82 | After the start city is placed, the visited flags are set exactly for the start city, the cost is 0, and the one-city route follows the draws. |
| Construction.AntStateStep | main.cpp:84-113 | Placing the step's roulette choice keeps the state, with the step's weights as the latest vector. |
| Construction.AntStateDone | main.cpp:115-117 | Closing the full route gives the constructed tour, which is a permutation under fair draws. |
| Construction.AntStateStuck | main.cpp:99-110 | When the scan runs off the end, the cities placed so far follow the draws and the next choice is -1. |
| Construction.ZeroDrawsStayAtCityZero | main.cpp:101-112 | An ant starting at city 0 whose draws are all zero never leaves city 0. |
| Construction.ZeroCostIffZeroDraws | main.cpp:71-118 | On positive trails with n >= 2, a tour costs 0 if and only if it starts at city 0 and every draw is zero. |
| Construction.BuildTour | main.cpp:71-118 | The route is n cities from the start, each step's roulette choice; cost is the closed length, weights the final step's. Positive trails always complete, non-zero draws give a permutation. |
| Pheromones.PathDepositSymmetric | main.cpp:131-136 | The open-path reinforcement adds the same amount to cell (p, q) and to cell (q, p). |
| Pheromones.ColonyDepositSymmetric | main.cpp:127-142 | All ants together add the same amount to cell (p, q) and to cell (q, p). |
| Pheromones.PathDepositSign | main.cpp:131-136 | A path adds a positive amount to a cell if and only if the cell's edge is on the path, and never a negative one. |
| Pheromones.TourDepositSign | main.cpp:131-141 | A closed tour adds a positive amount to a cell if and only if the cell's edge is on the tour, and never a negative one. |
| Pheromones.ColonyDepositSign | main.cpp:127-142 | All ants add a positive amount to a cell if and only if its edge is on some ant's tour, and never a negative one. |
| Pheromones.UpdatePreservesSymmetry | main.cpp:120-143 | An update keeps a symmetric matrix symmetric. |
| Pheromones.UpdatePreservesPositivity | main.cpp:120-143 | An update with positive costs keeps a positive matrix strictly positive. |
| Pheromones.UpdateReinforcesExactlyTourEdges | main.cpp:120-143 | After an update, a cell is at least its evaporated level, and above it if and only if its edge is on some ant's tour. |
| Pheromones.UniformSymmetricPositive | main.cpp:57-63 | The initial uniform matrix is symmetric and strictly positive. |
| Pheromones.PheromoneMatrix.constructor | main.cpp:57 | A new matrix has every entry equal to FEROMONA_INICIAL. |
| Pheromones.PheromoneMatrix.Initialize | main.cpp:59-63 | After initialisation every entry equals FEROMONA_INICIAL. |
| Pheromones.PheromoneMatrix.Evaporate | main.cpp:121-125 | Every entry becomes its previous value times 1 - EVAPORACION. |
| Pheromones.PheromoneMatrix.AddTo | main.cpp:134-135 | Exactly one cell grows by the increment; no other cell changes. |
| Pheromones.PheromoneMatrix.DepositTour | main.cpp:128-141 | Each cell grows by inc per traversal of its edge, in either direction, by the ant's closed tour. |
| Pheromones.PheromoneMatrix.Update | main.cpp:120-143 | The new matrix is the evaporated old one plus, per cell, 1 / cost for every traversal of its edge by every ant. |
| Colony.ReplaySymmetricPositive | main.cpp:165-176 | After any number of iterations the trails are symmetric and strictly positive. |
| Colony.AntsBuiltSnoc | main.cpp:172-174 | Each ant's tour, built on the same trails, extends the tours built so far. |
| Colony.RunStateSnoc | main.cpp:167-176 | A completed iteration extends the run; its trails are the update of the previous trails with its tours. |
| Colony.BuildAll | main.cpp:172-174 | Every ant builds its own draws' tour on the same trails. On positive trails only a zero-cost tour stops the loop. With n >= 2 and non-zero draws all complete as permutations. |
| Colony.Run | main.cpp:162-180 | The trails are initialised and updated once per iteration; every tour is built on its iteration's trails. A stop is a zero-cost tour; with n >= 2 and non-zero draws the run completes with permutations. |

## Two cases the code leaves unhandled

The scan of a step can finish without reaching the draw, leaving `siguiente_ciudad` at -1 (main.cpp:99). The code then stores -1 in the route (main.cpp:109) and uses it as an index into the visited flags (main.cpp:110). The model follows the code up to that point: at that step `BuildTour` returns `NoCityReached` with the cities placed so far.

A draw of exactly 0 passes the `>=` test at index 0 (main.cpp:101-104), so city 0 is selected again once it is visited. The model keeps that behaviour: it proves a tour to be a permutation only for non-zero draws, and `RevisitIffZeroDraw` shows this is the only way a city repeats.

## Left out

- Console output: `imprimirInformacion` (main.cpp:145-160) and the printing in `main` (main.cpp:178-179, 182). The weight vector kept for printing is modelled as `Tour.lastWeights`.
- Timing with `high_resolution_clock` (main.cpp:163, 184-186).
- The random number generators (main.cpp:76-80, 96-97), replaced by parameters. The start city is given, and each step's draw is given as a fraction of the step's total. The distribution of the draws is not modelled, nor the fresh seeding per construction.
- Floating-point arithmetic. `float`, `pow` and the `double` draw become exact reals; `pow` is exact because both exponents are whole numbers.
  - Rounding is the only way the source's scan can run off the end. `DrawNeverMisses` proves that exact arithmetic never does, so `NoCityReached` models that undefined path without being reachable on positive trails.
- The 24-by-24 `distancias` literal (main.cpp:30-55). The model takes any n-by-n matrix with a zero diagonal and positive entries between distinct cities, and `NUM_CIUDADES` is its size. The literal has that shape: 0 on the diagonal, whole numbers from 1 to 9 elsewhere. Symmetry is not required by any proof, so the model does not assume it.
- Run: on a tour of cost 0 the source divides by zero: IEEE float gives an infinite trail and carries on. The model stops the run at that ant and reports it, and `ZeroCostIffZeroDraws` characterises when that happens. Such a tour never leaves city 0 (`TourLengthZeroIffConstant`), so the infinite value lands only on the diagonal cell (0, 0). No weight ever reads a diagonal cell, because the current city is always visited and a visited candidate gets weight 0 without reading its trail (`WeightZeroIffVisited`, `StepWeights`). Later iterations of the source are therefore unaffected, and stopping is a choice of the model, not a behaviour of the code.
- Run: with a single city every tour has cost 0, so a run on a 1-by-1 matrix stops at the first ant.
- Run: the construction's -1 outcome stops the run as well. It cannot occur, because the trails stay positive (`ReplaySymmetricPositive`).
- The constants: `NUM_HORMIGAS` = 24, `ITERACIONES` = 100, `EVAPORACION` = 0.5 and `FEROMONA_INICIAL` = 1.0 are fixed as in the source, so no configuration of them is modelled.

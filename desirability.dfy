/** The edge-selection weight of an ant: pheromone strength combined with inverse distance,
    zero for a city the ant has already visited. */
module Desirability {

  /** Exponent on the pheromone trail (1.0 in the source). */
  const ALPHA: nat := 1
  /** Exponent on the inverse distance (5.0 in the source). */
  const BETA: nat := 5

  /** x raised to a whole exponent; both exponents of the source are whole numbers,
      so this is the exact real value of its pow calls. */
  function Power(x: real, k: nat): real
  {
    if k == 0 then 1.0 else x * Power(x, k - 1)
  }

  /** A power of a positive base is positive, of a non-negative base non-negative. */
  lemma {:induction false} PowerSign(x: real, k: nat)
    ensures x > 0.0 ==> Power(x, k) > 0.0
    ensures x >= 0.0 ==> Power(x, k) >= 0.0
  {
    if k > 0 {
      PowerSign(x, k - 1);
    }
  }

  /** Multiplying by a positive factor keeps a strict order. */
  lemma MulStrict(a: real, b: real, c: real)
    requires a > 0.0 && b < c
    ensures a * b < a * c
  {
  }

  /** Power is strictly increasing in its base on the positive reals, for a positive exponent. */
  lemma {:induction false} PowerStrictlyMonotone(x: real, y: real, k: nat)
    requires 0.0 < x < y && k >= 1
    ensures Power(x, k) < Power(y, k)
  {
    if k == 1 {
      assert Power(x, 0) == 1.0 && Power(y, 0) == 1.0;
    } else {
      PowerStrictlyMonotone(x, y, k - 1);
      PowerSign(x, k - 1);
      var px, py := Power(x, k - 1), Power(y, k - 1);
      MulStrict(px, x, y);
      MulStrict(y, px, py);
      assert x * px < y * px;
    }
  }

  /** Taking the reciprocal reverses the order of positive reals. */
  lemma ReciprocalDecreasing(d1: real, d2: real)
    requires 0.0 < d1 < d2
    ensures 0.0 < 1.0 / d2 < 1.0 / d1
  {
    var inv1, inv2 := 1.0 / d1, 1.0 / d2;
    assert inv2 * d2 == 1.0 && inv1 * d1 == 1.0;
    MulStrict(inv1, d1, d2);
  }

  /** pow(tau, ALPHA) * pow(1 / d, BETA): the desirability of an edge with pheromone tau and
      length d. A non-negative trail gives a non-negative weight and a positive one a positive
      weight, which is what the roulette wheel relies on. */
  function Desirability(tau: real, d: real): (w: real)
    requires d > 0.0
    ensures tau >= 0.0 ==> w >= 0.0
    ensures tau > 0.0 ==> w > 0.0
  {
    PowerSign(1.0 / d, BETA);
    PowerSign(tau, ALPHA);
    Power(tau, ALPHA) * Power(1.0 / d, BETA)
  }

  /** A shorter edge is strictly more desirable at equal pheromone (BETA rewards greed). */
  lemma ShorterIsMoreDesirable(tau: real, d1: real, d2: real)
    requires tau > 0.0 && 0.0 < d1 < d2
    ensures Desirability(tau, d1) > Desirability(tau, d2)
  {
    ReciprocalDecreasing(d1, d2);
    var inv1, inv2 := 1.0 / d1, 1.0 / d2;
    PowerStrictlyMonotone(inv2, inv1, BETA);
    PowerSign(tau, ALPHA);
    var t, p1, p2 := Power(tau, ALPHA), Power(inv1, BETA), Power(inv2, BETA);
    MulStrict(t, p2, p1);
  }

  /** A stronger trail is strictly more desirable at equal length (ALPHA rewards pheromone). */
  lemma StrongerTrailIsMoreDesirable(tau1: real, tau2: real, d: real)
    requires 0.0 < tau1 < tau2 && d > 0.0
    ensures Desirability(tau1, d) < Desirability(tau2, d)
  {
    PowerStrictlyMonotone(tau1, tau2, ALPHA);
    PowerSign(1.0 / d, BETA);
    var p, t1, t2 := Power(1.0 / d, BETA), Power(tau1, ALPHA), Power(tau2, ALPHA);
    MulStrict(p, t1, t2);
    assert t1 * p < t2 * p;
  }

  /** calcularProbabilidad: the weight of moving from city cur to city next, given the
      pheromone matrix tau, the distances and the ant's visited flags. */
  function Weight(tau: seq<seq<real>>, dist: seq<seq<real>>, cur: int, next: int, visited: seq<bool>): real
    requires 0 <= cur < |tau| && 0 <= next < |tau[cur]|
    requires cur < |dist| && next < |dist[cur]| && next < |visited|
    requires visited[next] || dist[cur][next] > 0.0
  {
    if visited[next] then 0.0 else Desirability(tau[cur][next], dist[cur][next])
  }

  /** With a positive trail on the edge, the weight is positive exactly when the candidate
      has not been visited: visited candidates, and only they, get weight 0. */
  lemma WeightZeroIffVisited(tau: seq<seq<real>>, dist: seq<seq<real>>, cur: int, next: int, visited: seq<bool>)
    requires 0 <= cur < |tau| && 0 <= next < |tau[cur]|
    requires cur < |dist| && next < |dist[cur]| && next < |visited|
    requires dist[cur][next] > 0.0 && tau[cur][next] > 0.0
    ensures Weight(tau, dist, cur, next, visited) >= 0.0
    ensures Weight(tau, dist, cur, next, visited) == 0.0 <==> visited[next]
  {
  }

  /** The weight depends on nothing but the pheromone and the distance of the edge
      (cur, next) and on whether next is visited. */
  lemma WeightIsLocal(tau1: seq<seq<real>>, tau2: seq<seq<real>>, dist1: seq<seq<real>>, dist2: seq<seq<real>>,
                      cur: int, next: int, visited1: seq<bool>, visited2: seq<bool>)
    requires 0 <= cur < |tau1| && 0 <= next < |tau1[cur]|
    requires 0 <= cur < |tau2| && 0 <= next < |tau2[cur]|
    requires cur < |dist1| && next < |dist1[cur]| && next < |visited1|
    requires cur < |dist2| && next < |dist2[cur]| && next < |visited2|
    requires visited1[next] || dist1[cur][next] > 0.0
    requires tau1[cur][next] == tau2[cur][next] && dist1[cur][next] == dist2[cur][next]
    requires visited1[next] == visited2[next]
    ensures Weight(tau1, dist1, cur, next, visited1) == Weight(tau2, dist2, cur, next, visited2)
  {
  }
}

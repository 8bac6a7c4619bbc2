/** Cities, the distance matrix and closed tours of the symmetric travelling-salesman problem. */
module Tsp {

  /** m is an n-by-n matrix. */
  ghost predicate SquareMatrix(m: seq<seq<real>>, n: nat)
  {
    |m| == n && forall i :: 0 <= i < n ==> |m[i]| == n
  }

  /** What the algorithm needs of its distance matrix: square of size n, zero on the
      diagonal and strictly positive between distinct cities (the weight of a move divides by
      the distance). */
  ghost predicate ValidDistances(dist: seq<seq<real>>, n: nat)
  {
    && SquareMatrix(dist, n)
    && (forall i :: 0 <= i < n ==> dist[i][i] == 0.0)
    && (forall i, j :: 0 <= i < n && 0 <= j < n && i != j ==> dist[i][j] > 0.0)
  }

  /** Every entry of s is a city of [0, n). */
  ghost predicate InRange(s: seq<int>, n: nat)
  {
    forall k :: 0 <= k < |s| ==> 0 <= s[k] < n
  }

  /** No city occurs twice in s. */
  ghost predicate Distinct(s: seq<int>)
  {
    forall i, j :: 0 <= i < j < |s| ==> s[i] != s[j]
  }

  /** A tour: n distinct cities of [0, n), in visiting order. */
  ghost predicate IsPermutation(route: seq<int>, n: nat)
  {
    |route| == n && InRange(route, n) && Distinct(route)
  }

  /** Length of the open path route[0] -> route[1] -> ... -> route[|route|-1]. */
  function PathLength(dist: seq<seq<real>>, route: seq<int>, n: nat): real
    requires ValidDistances(dist, n) && InRange(route, n)
  {
    if |route| <= 1 then 0.0
    else PathLength(dist, route[..|route| - 1], n) + dist[route[|route| - 2]][route[|route| - 1]]
  }

  /** Length of the closed tour: the open path plus the edge from the last city back to the first. */
  function TourLength(dist: seq<seq<real>>, route: seq<int>, n: nat): real
    requires ValidDistances(dist, n) && InRange(route, n) && |route| > 0
  {
    PathLength(dist, route, n) + dist[route[|route| - 1]][route[0]]
  }

  /** Appending a city extends the open path by exactly one edge. */
  lemma {:induction false} PathLengthSnoc(dist: seq<seq<real>>, route: seq<int>, c: int, n: nat)
    requires ValidDistances(dist, n) && InRange(route, n) && 0 <= c < n && |route| > 0
    ensures InRange(route + [c], n)
    ensures PathLength(dist, route + [c], n) == PathLength(dist, route, n) + dist[route[|route| - 1]][c]
  {
    assert (route + [c])[..|route|] == route;
  }

  /** Distances are never negative, so no prefix of a path is longer than the path. */
  lemma {:induction false} PathLengthPrefix(dist: seq<seq<real>>, route: seq<int>, k: nat, n: nat)
    requires ValidDistances(dist, n) && InRange(route, n) && k <= |route|
    ensures InRange(route[..k], n)
    ensures 0.0 <= PathLength(dist, route[..k], n) <= PathLength(dist, route, n)
    decreases |route|
  {
    if |route| <= 1 {
      assert |route[..k]| <= 1;
    } else {
      var t := route[..|route| - 1];
      var a, b := route[|route| - 2], route[|route| - 1];
      assert dist[a][b] >= 0.0 by {
        if a == b { assert dist[a][a] == 0.0; } else { assert dist[a][b] > 0.0; }
      }
      if k == |route| {
        PathLengthPrefix(dist, t, |t|, n);
        assert t[..|t|] == t;
        assert route[..k] == route;
      } else {
        PathLengthPrefix(dist, t, k, n);
        assert t[..k] == route[..k];
        PathLengthPrefix(dist, t, |t|, n);
        assert t[..|t|] == t;
      }
    }
  }

  /** No closed route is shorter than zero. */
  lemma {:induction false} TourLengthNonNegative(dist: seq<seq<real>>, route: seq<int>, n: nat)
    requires ValidDistances(dist, n) && InRange(route, n) && |route| > 0
    ensures TourLength(dist, route, n) >= 0.0
  {
    PathLengthPrefix(dist, route, |route|, n);
    assert route[..|route|] == route;
    var a, b := route[|route| - 1], route[0];
    assert dist[a][b] >= 0.0 by {
      if a == b { assert dist[a][a] == 0.0; } else { assert dist[a][b] > 0.0; }
    }
  }

  /** A tour through at least two distinct cities has strictly positive length: this is what
      makes the reinforcement 1/cost well defined. */
  lemma {:induction false} TourLengthPositive(dist: seq<seq<real>>, route: seq<int>, n: nat)
    requires ValidDistances(dist, n) && IsPermutation(route, n) && n >= 2
    ensures TourLength(dist, route, n) > 0.0
  {
    PathLengthPrefix(dist, route, 2, n);
    assert route[..2][..1] == route[..1];
    assert PathLength(dist, route[..2], n) == dist[route[0]][route[1]];
    assert route[0] != route[1] && route[n - 1] != route[0];
  }

  /** An open path has length 0 exactly when it never leaves its first city. */
  lemma {:induction false} PathLengthZeroIffConstant(dist: seq<seq<real>>, route: seq<int>, n: nat)
    requires ValidDistances(dist, n) && InRange(route, n)
    ensures PathLength(dist, route, n) == 0.0 <==> forall k :: 0 <= k < |route| ==> route[k] == route[0]
  {
    if |route| > 1 {
      var t := route[..|route| - 1];
      PathLengthZeroIffConstant(dist, t, n);
      PathLengthPrefix(dist, t, |t|, n);
      assert t[..|t|] == t;
      var a, b := route[|route| - 2], route[|route| - 1];
      if a == b { assert dist[a][b] == 0.0; } else { assert dist[a][b] > 0.0; }
      if forall k :: 0 <= k < |route| ==> route[k] == route[0] {
        assert forall k :: 0 <= k < |t| ==> t[k] == t[0];
      }
      if PathLength(dist, route, n) == 0.0 {
        assert forall k :: 0 <= k < |t| ==> t[k] == route[0];
      }
    }
  }

  /** A closed route has length 0 exactly when it never leaves its first city. */
  lemma {:induction false} TourLengthZeroIffConstant(dist: seq<seq<real>>, route: seq<int>, n: nat)
    requires ValidDistances(dist, n) && InRange(route, n) && |route| > 0
    ensures TourLength(dist, route, n) == 0.0 <==> forall k :: 0 <= k < |route| ==> route[k] == route[0]
  {
    PathLengthZeroIffConstant(dist, route, n);
    PathLengthPrefix(dist, route, |route|, n);
    assert route[..|route|] == route;
    var a, b := route[|route| - 1], route[0];
    if a == b { assert dist[a][b] == 0.0; } else { assert dist[a][b] > 0.0; }
  }

  /** The cities occurring in s. */
  function Cities(s: seq<int>): set<int>
  {
    set c | c in s
  }

  /** The set of all cities [0, n). */
  function AllCities(n: nat): (all: set<int>)
    ensures forall c :: c in all <==> 0 <= c < n
  {
    if n == 0 then {} else AllCities(n - 1) + {n - 1}
  }

  lemma {:induction false} AllCitiesCard(n: nat)
    ensures |AllCities(n)| == n
  {
    if n > 0 {
      AllCitiesCard(n - 1);
      var smaller := AllCities(n - 1);
      assert n - 1 !in smaller;
      assert |smaller + {n - 1}| == |smaller| + 1;
    }
  }

  /** A sequence has at most as many distinct cities as entries, and exactly as many
      when no city repeats. */
  lemma {:induction false} CitiesCard(s: seq<int>)
    ensures |Cities(s)| <= |s|
    ensures Distinct(s) ==> |Cities(s)| == |s|
  {
    if s != [] {
      var t := s[..|s| - 1];
      CitiesCard(t);
      assert s == t + [s[|s| - 1]];
      assert Cities(s) == Cities(t) + {s[|s| - 1]};
      if Distinct(s) {
        assert Distinct(t);
        assert s[|s| - 1] !in Cities(t);
      }
    }
  }

  /** Pigeonhole: a sequence that contains every city of [0, n) has at least n entries.
      Contrapositively, a partial route shorter than n leaves some city unvisited. */
  lemma {:induction false} CoverLength(s: seq<int>, n: nat)
    requires forall c :: 0 <= c < n ==> c in s
    ensures |s| >= n
  {
    var all := AllCities(n);
    var seen := Cities(s);
    assert all <= seen;
    assert seen == all + (seen - all);
    AllCitiesCard(n);
    CitiesCard(s);
  }

  /** A partial route shorter than n leaves some city of [0, n) out. */
  lemma {:induction false} MissingCity(route: seq<int>, n: nat)
    requires |route| < n
    ensures exists c :: 0 <= c < n && c !in route
  {
    if forall c :: 0 <= c < n ==> c in route {
      CoverLength(route, n);
      assert false;
    }
  }

  /** A tour visits every city exactly once: as a set, it is exactly [0, n). */
  lemma {:induction false} PermutationCoversAll(route: seq<int>, n: nat)
    requires IsPermutation(route, n)
    ensures Cities(route) == AllCities(n)
    ensures forall c :: 0 <= c < n ==> c in route
  {
    var all := AllCities(n);
    var seen := Cities(route);
    assert seen <= all;
    assert all == seen + (all - seen);
    AllCitiesCard(n);
    CitiesCard(route);
    assert all - seen == {};
    forall c | 0 <= c < n ensures c in route {
      assert c in all;
    }
  }
}

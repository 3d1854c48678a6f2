/** Ants_python.py: the Ant Colony System heuristic for the travelling
    salesman problem. Cities are indexed 0..n-1; the rounded Euclidean
    distance `euc_2d`, the float power `**` and the random number generator
    are not part of this model: the distance and the power are parameters,
    and every random draw is an injected value within the range the
    generator promises. */
module Ants {

  /** `euc_2d`: a non-negative integer distance between two cities. */
  type Distance = (seq<real>, seq<real>) -> nat

  /** The indices in the tour all name cities. */
  predicate ValidTour(tour: seq<nat>, n: nat)
  {
    forall i :: 0 <= i < |tour| ==> tour[i] < n
  }

  /** A permutation of 0..n-1. */
  predicate IsPermutation(s: seq<nat>, n: nat)
  {
    && |s| == n
    && (forall i :: 0 <= i < |s| ==> s[i] < n)
    && (forall i, j :: 0 <= i < j < |s| ==> s[i] != s[j])
  }

  /** Two different cities are never at distance 0 (otherwise `1.0 / distance`
      in `calculate_choices` divides by zero). */
  predicate Apart(cities: seq<seq<real>>, euc2d: Distance)
  {
    forall a, b :: 0 <= a < |cities| && 0 <= b < |cities| && a != b ==> euc2d(cities[a], cities[b]) > 0
  }

  // ---------------------------------------------------------------------
  // cost

  /** The city after position `i` on the closed tour: the next one, or the
      first one after the last. */
  function Succ(tour: seq<nat>, i: nat): nat
    requires i < |tour|
  {
    if i == |tour| - 1 then tour[0] else tour[i + 1]
  }

  function EdgeCost(tour: seq<nat>, cities: seq<seq<real>>, euc2d: Distance, i: nat): nat
    requires ValidTour(tour, |cities|) && i < |tour|
  {
    euc2d(cities[tour[i]], cities[Succ(tour, i)])
  }

  /** The length of the first `m` edges of the tour. */
  function PathCost(tour: seq<nat>, cities: seq<seq<real>>, euc2d: Distance, m: nat): nat
    requires ValidTour(tour, |cities|) && m <= |tour|
  {
    if m == 0 then 0 else PathCost(tour, cities, euc2d, m - 1) + EdgeCost(tour, cities, euc2d, m - 1)
  }

  /** The length of the closed tour, the edge back to the start included. */
  function TourCost(tour: seq<nat>, cities: seq<seq<real>>, euc2d: Distance): nat
    requires ValidTour(tour, |cities|)
  {
    PathCost(tour, cities, euc2d, |tour|)
  }

  /** `cost`: accumulates the distance of every consecutive pair and of the
      pair (last, first). */
  method Cost(permutation: seq<nat>, cities: seq<seq<real>>, euc2d: Distance) returns (distance: nat)
    requires ValidTour(permutation, |cities|)
    ensures distance == TourCost(permutation, cities, euc2d)
  {
    distance := 0;
    for i := 0 to |permutation|
      invariant distance == PathCost(permutation, cities, euc2d, i)
    {
      var c2 := if i == |permutation| - 1 then permutation[0] else permutation[i + 1];
      distance := distance + euc2d(cities[permutation[i]], cities[c2]);
    }
  }

  /** The same tour started from its second city. */
  function Rotate(tour: seq<nat>): (r: seq<nat>)
    requires |tour| > 0
    ensures |r| == |tour| && r[|r| - 1] == tour[0]
    ensures forall i :: 0 <= i < |r| - 1 ==> r[i] == tour[i + 1]
  {
    tour[1..] + [tour[0]]
  }

  lemma {:induction false} RotatedPath(tour: seq<nat>, cities: seq<seq<real>>, euc2d: Distance, m: nat)
    requires ValidTour(tour, |cities|) && |tour| > 0 && m <= |tour| - 1
    ensures ValidTour(Rotate(tour), |cities|)
    ensures PathCost(Rotate(tour), cities, euc2d, m) + EdgeCost(tour, cities, euc2d, 0)
            == PathCost(tour, cities, euc2d, m + 1)
  {
    var r := Rotate(tour);
    if m > 0 {
      RotatedPath(tour, cities, euc2d, m - 1);
      assert r[m - 1] == tour[m] && Succ(r, m - 1) == Succ(tour, m);
      assert EdgeCost(r, cities, euc2d, m - 1) == EdgeCost(tour, cities, euc2d, m);
    }
  }

  /** The cost of a closed tour does not depend on the city it starts from. */
  lemma CostRotationInvariant(tour: seq<nat>, cities: seq<seq<real>>, euc2d: Distance)
    requires ValidTour(tour, |cities|) && |tour| > 0
    ensures ValidTour(Rotate(tour), |cities|)
    ensures TourCost(Rotate(tour), cities, euc2d) == TourCost(tour, cities, euc2d)
  {
    var n := |tour|;
    RotatedPath(tour, cities, euc2d, n - 1);
    assert EdgeCost(Rotate(tour), cities, euc2d, n - 1) == EdgeCost(tour, cities, euc2d, 0);
  }

  lemma {:induction false} PathCostCoversFirstEdge(tour: seq<nat>, cities: seq<seq<real>>, euc2d: Distance, m: nat)
    requires ValidTour(tour, |cities|) && 1 <= m <= |tour|
    ensures PathCost(tour, cities, euc2d, m) >= EdgeCost(tour, cities, euc2d, 0)
  {
    if m > 1 {
      PathCostCoversFirstEdge(tour, cities, euc2d, m - 1);
    }
  }

  /** A tour through at least two cities that are apart has a positive
      cost, so `1.0 / cost` is defined. */
  lemma CostPositive(tour: seq<nat>, cities: seq<seq<real>>, euc2d: Distance)
    requires |cities| >= 2 && IsPermutation(tour, |cities|) && Apart(cities, euc2d)
    ensures TourCost(tour, cities, euc2d) > 0
  {
    assert tour[0] != tour[1];
    assert EdgeCost(tour, cities, euc2d, 0) > 0;
    PathCostCoversFirstEdge(tour, cities, euc2d, |tour|);
  }

  // ---------------------------------------------------------------------
  // random_permutation

  /** `list(range(n))`. */
  function Range(n: nat): (r: seq<nat>)
    ensures |r| == n && forall i :: 0 <= i < n ==> r[i] == i
  {
    seq(n, i => i)
  }

  /** `perm[r], perm[i] = perm[i], perm[r]`. */
  function Swap(s: seq<nat>, r: nat, i: nat): (t: seq<nat>)
    requires r < |s| && i < |s|
    ensures |t| == |s|
  {
    s[r := s[i]][i := s[r]]
  }

  /** The draws of `random.randint(0, n - (i + 1))`, one per position. */
  predicate ValidShuffleDraws(draws: seq<nat>, n: nat)
  {
    |draws| == n && forall i :: 0 <= i < n ==> draws[i] <= n - (i + 1)
  }

  /** The list after the first `i` swaps of the Fisher-Yates loop. */
  function Shuffled(n: nat, draws: seq<nat>, i: nat): (s: seq<nat>)
    requires ValidShuffleDraws(draws, n) && i <= n
    ensures |s| == n
  {
    if i == 0 then Range(n)
    else Swap(Shuffled(n, draws, i - 1), draws[i - 1] + (i - 1), i - 1)
  }

  lemma ShuffledStep(n: nat, draws: seq<nat>, i: nat)
    requires ValidShuffleDraws(draws, n) && i < n
    ensures Shuffled(n, draws, i + 1) == Swap(Shuffled(n, draws, i), draws[i] + i, i)
  {
  }

  /** Exchanging two positions of a permutation gives a permutation. */
  lemma SwapKeepsPermutation(s: seq<nat>, n: nat, r: nat, i: nat)
    requires IsPermutation(s, n) && r < n && i < n
    ensures IsPermutation(Swap(s, r, i), n)
  {
    var t := Swap(s, r, i);
    forall j | 0 <= j < |t|
      ensures t[j] == s[if j == i then r else if j == r then i else j]
    {
    }
  }

  /** After any number of swaps the list is still a permutation of 0..n-1. */
  lemma {:induction false} ShuffledIsPermutation(n: nat, draws: seq<nat>, i: nat)
    requires ValidShuffleDraws(draws, n) && i <= n
    ensures IsPermutation(Shuffled(n, draws, i), n)
  {
    if i > 0 {
      ShuffledIsPermutation(n, draws, i - 1);
      SwapKeepsPermutation(Shuffled(n, draws, i - 1), n, draws[i - 1] + (i - 1), i - 1);
    }
  }

  /** The tuple assignment `perm[r], perm[i] = perm[i], perm[r]` on the list. */
  method SwapInPlace(a: array<nat>, r: nat, i: nat)
    requires r < a.Length && i < a.Length
    modifies a
    ensures a[..] == Swap(old(a[..]), r, i)
  {
    var atI, atR := a[i], a[r];
    a[r] := atI;
    a[i] := atR;
  }

  /** `random_permutation`: the Fisher-Yates shuffle of `range(n)` in place,
      swapping position `i` with the drawn position `i + draws[i]`; it
      returns a permutation of 0..n-1. */
  method RandomPermutation(cities: seq<seq<real>>, draws: seq<nat>) returns (perm: seq<nat>)
    requires ValidShuffleDraws(draws, |cities|)
    ensures perm == Shuffled(|cities|, draws, |cities|)
    ensures IsPermutation(perm, |cities|)
  {
    var n := |cities|;
    var a := new nat[n](i => i);
    assert a[..] == Range(n);
    ShuffleInPlace(a, draws);
    perm := a[..];
    ShuffledIsPermutation(n, draws, n);
  }

  /** The swap loop of `random_permutation` on the list `range(n)`. */
  method ShuffleInPlace(a: array<nat>, draws: seq<nat>)
    requires ValidShuffleDraws(draws, a.Length) && a[..] == Range(a.Length)
    modifies a
    ensures a[..] == Shuffled(a.Length, draws, a.Length)
  {
    for i := 0 to a.Length
      invariant a[..] == Shuffled(a.Length, draws, i)
    {
      SwapInPlace(a, draws[i] + i, i);
      ShuffledStep(a.Length, draws, i);
    }
  }

  // ---------------------------------------------------------------------
  // the pheromone matrix

  /** `[[init_pher] * n] * n`: n references to one row of n values. */
  predicate Shared(pheromone: seq<array<real>>, n: nat)
  {
    && |pheromone| == n && n > 0
    && pheromone[0].Length == n
    && forall a :: 0 <= a < n ==> pheromone[a] == pheromone[0]
  }

  /** `initialise_pheromone_matrix`: every entry starts at `initPher`, and
      every row is the same fresh list. */
  method InitialisePheromoneMatrix(numCities: nat, initPher: real) returns (matrix: seq<array<real>>)
    ensures |matrix| == numCities
    ensures numCities > 0 ==> Shared(matrix, numCities) && fresh(matrix[0])
    ensures forall a, b :: 0 <= a < numCities && 0 <= b < numCities ==> matrix[a][b] == initPher
  {
    var row := new real[numCities](_ => initPher);
    matrix := seq(numCities, _ => row);
  }

  /** One edge `(v, y)` of the update loops: both `phero[v][y]` and
      `phero[y][v]` get `(1 - c) * phero[v][y] + c * target`. With the shared
      row, these are the row's entries `y` and then `v`. */
  function Deposit(row: seq<real>, tour: seq<nat>, c: real, target: real, i: nat): (r: seq<real>)
    requires ValidTour(tour, |row|) && i < |tour|
    ensures |r| == |row|
  {
    var v, y := tour[i], Succ(tour, i);
    var value := (1.0 - c) * row[y] + c * target;
    row[y := value][v := value]
  }

  lemma DepositWrites(row: seq<real>, tour: seq<nat>, c: real, target: real, i: nat, value: real)
    requires ValidTour(tour, |row|) && i < |tour|
    requires value == (1.0 - c) * row[Succ(tour, i)] + c * target
    ensures Deposit(row, tour, c, target, i) == row[Succ(tour, i) := value][tour[i] := value]
  {
  }

  /** The row after the first `m` edges of the tour. */
  function Deposits(row: seq<real>, tour: seq<nat>, c: real, target: real, m: nat): (r: seq<real>)
    requires ValidTour(tour, |row|) && m <= |tour|
    ensures |r| == |row|
  {
    if m == 0 then row else Deposit(Deposits(row, tour, c, target, m - 1), tour, c, target, m - 1)
  }

  /** `local_update_pheromone`: every edge of the candidate's tour, the
      closing one included, moves toward `init_phero`; all rows see it. */
  method LocalUpdatePheromone(pheromone: seq<array<real>>, cand: Candidate, cLocalPhero: real, initPhero: real)
    requires Shared(pheromone, |pheromone|) && ValidTour(cand.vector, |pheromone|)
    modifies pheromone[0]
    ensures forall a :: 0 <= a < |pheromone| ==>
              pheromone[a][..] == Deposits(old(pheromone[0][..]), cand.vector, cLocalPhero, initPhero, |cand.vector|)
  {
    var tour := cand.vector;
    for i := 0 to |tour|
      invariant pheromone[0][..] == Deposits(old(pheromone[0][..]), tour, cLocalPhero, initPhero, i)
    {
      ghost var before := pheromone[0][..];
      var y := if i == |tour| - 1 then tour[0] else tour[i + 1];
      var value := (1.0 - cLocalPhero) * pheromone[tour[i]][y] + cLocalPhero * initPhero;
      assert y == Succ(tour, i) && value == (1.0 - cLocalPhero) * before[y] + cLocalPhero * initPhero;
      pheromone[tour[i]][y] := value;
      pheromone[y][tour[i]] := value;
      assert pheromone[0][..] == before[y := value][tour[i] := value];
      DepositWrites(before, tour, cLocalPhero, initPhero, i, value);
    }
  }

  /** `global_update_pheromone`: every edge of the best tour moves toward
      `1 / cost`; the cost must not be 0. */
  method GlobalUpdatePheromone(phero: seq<array<real>>, cand: Candidate, decay: real)
    requires Shared(phero, |phero|) && ValidTour(cand.vector, |phero|)
    requires cand.cost > 0
    modifies phero[0]
    ensures forall a :: 0 <= a < |phero| ==>
              phero[a][..] == Deposits(old(phero[0][..]), cand.vector, decay, 1.0 / cand.cost as real, |cand.vector|)
  {
    var tour := cand.vector;
    for i := 0 to |tour|
      invariant phero[0][..] == Deposits(old(phero[0][..]), tour, decay, 1.0 / cand.cost as real, i)
    {
      ghost var before := phero[0][..];
      var y := if i == |tour| - 1 then tour[0] else tour[i + 1];
      var value := ((1.0 - decay) * phero[tour[i]][y]) + (decay * (1.0 / cand.cost as real));
      assert y == Succ(tour, i) && value == (1.0 - decay) * before[y] + decay * (1.0 / cand.cost as real);
      phero[tour[i]][y] := value;
      phero[y][tour[i]] := value;
      assert phero[0][..] == before[y := value][tour[i] := value];
      DepositWrites(before, tour, decay, 1.0 / cand.cost as real, i, value);
    }
  }

  /** An update writes only the entries of cities on the tour. */
  lemma {:induction false} DepositsOffTour(row: seq<real>, tour: seq<nat>, c: real, target: real, m: nat, j: nat)
    requires ValidTour(tour, |row|) && m <= |tour| && j < |row| && j !in tour
    ensures Deposits(row, tour, c, target, m)[j] == row[j]
  {
    if m > 0 {
      DepositsOffTour(row, tour, c, target, m - 1, j);
      assert tour[m - 1] in tour && Succ(tour, m - 1) in tour;
    }
  }

  lemma ConvexBetween(x: real, t: real, c: real, lo: real, hi: real)
    requires lo <= x <= hi && lo <= t <= hi && 0.0 <= c <= 1.0
    ensures lo <= (1.0 - c) * x + c * t <= hi
  {
    assert (1.0 - c) * (x - lo) >= 0.0 && c * (t - lo) >= 0.0;
    assert (1.0 - c) * (hi - x) >= 0.0 && c * (hi - t) >= 0.0;
  }

  /** The written values are convex combinations: with `0 <= c <= 1`, a row
      whose entries and target lie in `[lo, hi]` keeps them there; in
      particular positive pheromone stays positive. */
  lemma {:induction false} DepositsStayWithin(row: seq<real>, tour: seq<nat>, c: real, target: real, m: nat, lo: real, hi: real)
    requires ValidTour(tour, |row|) && m <= |tour|
    requires 0.0 <= c <= 1.0 && lo <= target <= hi
    requires forall j :: 0 <= j < |row| ==> lo <= row[j] <= hi
    ensures forall j :: 0 <= j < |row| ==> lo <= Deposits(row, tour, c, target, m)[j] <= hi
  {
    if m > 0 {
      DepositsStayWithin(row, tour, c, target, m - 1, lo, hi);
      var prev := Deposits(row, tour, c, target, m - 1);
      var value := (1.0 - c) * prev[Succ(tour, m - 1)] + c * target;
      ConvexBetween(prev[Succ(tour, m - 1)], target, c, lo, hi);
      DepositWrites(prev, tour, c, target, m - 1, value);
    }
  }

  // ---------------------------------------------------------------------
  // calculate_choices, greedy_select, prob_select

  /** One `prob` dictionary. */
  datatype Choice = Choice(city: nat, history: real, distance: nat, heuristic: real, prob: real)

  /** `calculate_choices` candidate order: the cities below `n` not in
      `exclude`, ascending. */
  function Candidates(n: nat, exclude: seq<nat>): (r: seq<nat>)
    ensures forall t :: 0 <= t < |r| ==> r[t] < n && r[t] !in exclude
  {
    if n == 0 then []
    else Candidates(n - 1, exclude) + (if n - 1 !in exclude then [n - 1] else [])
  }

  /** Every city below `n` not in `exclude` is a candidate, and the
      candidates ascend. */
  lemma {:induction false} CandidatesComplete(n: nat, exclude: seq<nat>)
    ensures forall i :: 0 <= i < n && i !in exclude ==> i in Candidates(n, exclude)
    ensures forall t, u :: 0 <= t < u < |Candidates(n, exclude)| ==> Candidates(n, exclude)[t] < Candidates(n, exclude)[u]
  {
    if n > 0 {
      CandidatesComplete(n - 1, exclude);
    }
  }

  function Below(exclude: seq<nat>, m: nat): set<nat>
  {
    set x | x in exclude && x < m
  }

  lemma {:induction false} CandidatesAndBelow(m: nat, exclude: seq<nat>)
    ensures |Candidates(m, exclude)| + |Below(exclude, m)| == m
  {
    if m == 0 {
      assert Below(exclude, 0) == {};
    } else {
      CandidatesAndBelow(m - 1, exclude);
      if m - 1 in exclude {
        assert Below(exclude, m) == Below(exclude, m - 1) + {m - 1};
      } else {
        assert Below(exclude, m) == Below(exclude, m - 1);
      }
    }
  }

  /** The cities a list holds. */
  function Elements(s: seq<nat>): set<nat>
  {
    set x | x in s
  }

  lemma {:induction false} DistinctElements(s: seq<nat>)
    requires forall i, j :: 0 <= i < j < |s| ==> s[i] != s[j]
    ensures |Elements(s)| == |s|
  {
    if s != [] {
      var init, last := s[..|s| - 1], s[|s| - 1];
      DistinctElements(init);
      assert s == init + [last];
      assert Elements(s) == Elements(init) + {last};
      assert last !in Elements(init);
    } else {
      assert Elements(s) == {};
    }
  }

  /** With `exclude` a partial tour (distinct cities below `n`), there are
      `n - |exclude|` candidates: the ant has a choice until every city is
      visited. */
  lemma CandidatesCount(n: nat, exclude: seq<nat>)
    requires |exclude| <= n && ValidTour(exclude, n)
    requires forall i, j :: 0 <= i < j < |exclude| ==> exclude[i] != exclude[j]
    ensures |Candidates(n, exclude)| == n - |exclude|
  {
    CandidatesAndBelow(n, exclude);
    DistinctElements(exclude);
    assert Below(exclude, n) == Elements(exclude);
  }

  /** The entry for city `i`: the pheromone to the power `c_hist`, the
      inverse distance to the power `c_heur`, and their product. */
  function MakeChoice(i: nat, pheromone: real, distance: nat, cHeur: real, cHist: real,
                      pow: (real, real) -> real): (c: Choice)
    requires distance != 0
    ensures c.city == i && c.distance == distance
  {
    var history := pow(pheromone, cHist);
    var heuristic := pow(1.0 / distance as real, cHeur);
    Choice(i, history, distance, heuristic, history * heuristic)
  }

  /** The entries for the cities below `m` not in `exclude`, ascending,
      seen from `lastCity` with pheromone row `row`: one for each candidate,
      in the candidates' order. */
  function ChoicesUpTo(m: nat, exclude: seq<nat>, cities: seq<seq<real>>, lastCity: nat, row: seq<real>,
                       cHeur: real, cHist: real, euc2d: Distance, pow: (real, real) -> real): (r: seq<Choice>)
    requires m <= |cities| <= |row| && lastCity < |cities|
    requires forall i :: 0 <= i < |cities| && i !in exclude ==> euc2d(cities[lastCity], cities[i]) != 0
    ensures |r| == |Candidates(m, exclude)|
    ensures forall t :: 0 <= t < |r| ==> r[t].city == Candidates(m, exclude)[t]
  {
    if m == 0 then []
    else
      ChoicesUpTo(m - 1, exclude, cities, lastCity, row, cHeur, cHist, euc2d, pow)
        + (if m - 1 !in exclude
           then [MakeChoice(m - 1, row[m - 1], euc2d(cities[lastCity], cities[m - 1]), cHeur, cHist, pow)]
           else [])
  }

  /** `calculate_choices`: one entry per city not in `exclude`, in ascending
      index order, with the pheromone and distance seen from `lastCity`. */
  method CalculateChoices(cities: seq<seq<real>>, lastCity: nat, exclude: seq<nat>, pheromone: seq<array<real>>,
                          cHeur: real, cHist: real, euc2d: Distance, pow: (real, real) -> real)
    returns (choices: seq<Choice>)
    requires lastCity < |cities| && lastCity < |pheromone| && pheromone[lastCity].Length >= |cities|
    requires forall i :: 0 <= i < |cities| && i !in exclude ==> euc2d(cities[lastCity], cities[i]) != 0
    ensures choices == ChoicesUpTo(|cities|, exclude, cities, lastCity, pheromone[lastCity][..],
                                   cHeur, cHist, euc2d, pow)
  {
    ghost var row := pheromone[lastCity][..];
    choices := [];
    for i := 0 to |cities|
      invariant choices == ChoicesUpTo(i, exclude, cities, lastCity, row, cHeur, cHist, euc2d, pow)
    {
      ghost var upTo := ChoicesUpTo(i, exclude, cities, lastCity, row, cHeur, cHist, euc2d, pow);
      ghost var next := ChoicesUpTo(i + 1, exclude, cities, lastCity, row, cHeur, cHist, euc2d, pow);
      if i !in exclude {
        var distance := euc2d(cities[lastCity], cities[i]);
        var p := pheromone[lastCity][i];
        assert p == row[i];
        choices := choices + [MakeChoice(i, p, distance, cHeur, cHist, pow)];
        assert next == upTo + [MakeChoice(i, row[i], distance, cHeur, cHist, pow)];
      } else {
        assert next == upTo;
      }
    }
  }

  /** The position `max(choices, key=prob)` picks: a largest `prob`, the
      first of them. */
  function FirstMaxIndex(choices: seq<Choice>): (k: nat)
    requires |choices| > 0
    ensures k < |choices|
    ensures forall j :: 0 <= j < |choices| ==> choices[j].prob <= choices[k].prob
    ensures forall j :: 0 <= j < k ==> choices[j].prob < choices[k].prob
  {
    if |choices| == 1 then 0
    else
      var k := FirstMaxIndex(choices[..|choices| - 1]);
      if choices[|choices| - 1].prob > choices[k].prob then |choices| - 1 else k
  }

  /** `greedy_select`: the city of the first choice of largest `prob`, as
      `max(choices, key=...)` returns the first maximum. */
  function GreedySelect(choices: seq<Choice>): (city: nat)
    requires |choices| > 0
    ensures exists k :: 0 <= k < |choices| && choices[k].city == city
              && (forall j :: 0 <= j < |choices| ==> choices[j].prob <= choices[k].prob)
              && (forall j :: 0 <= j < k ==> choices[j].prob < choices[k].prob)
  {
    choices[FirstMaxIndex(choices)].city
  }

  /** `sum(element['prob'] for element in choices)`, left to right. */
  function Total(choices: seq<Choice>, m: nat): real
    requires m <= |choices|
  {
    if m == 0 then 0.0 else Total(choices, m - 1) + choices[m - 1].prob
  }

  /** What the roulette loop has subtracted from `v` after `m` steps. */
  function Spent(choices: seq<Choice>, total: real, m: nat): real
    requires m <= |choices| && total != 0.0
  {
    if m == 0 then 0.0 else Spent(choices, total, m - 1) + choices[m - 1].prob / total
  }

  /** The position the roulette loop returns from, starting at `i`: the
      first where `v` has dropped to 0 or below, else the last position
      (`choices[-1]`). */
  function Crossing(choices: seq<Choice>, total: real, v: real, i: nat): (k: nat)
    requires 0 < |choices| && i <= |choices| && total != 0.0
    ensures i <= k < |choices| || k == |choices| - 1
    decreases |choices| - i
  {
    if i == |choices| then |choices| - 1
    else if v - Spent(choices, total, i + 1) <= 0.0 then i
    else Crossing(choices, total, v, i + 1)
  }

  /** The position `prob_select` returns: the uniform draw when all
      probabilities add up to 0, the roulette position otherwise. */
  function RouletteIndex(choices: seq<Choice>, uniformDraw: nat, v: real): (k: nat)
    requires 0 < |choices| && uniformDraw < |choices|
    ensures k < |choices|
  {
    var total := Total(choices, |choices|);
    if total == 0.0 then uniformDraw else Crossing(choices, total, v, 0)
  }

  /** `prob_select`: a city of `choices`, drawn uniformly (`uniformDraw`,
      the `randint`) when the probabilities add up to 0, and otherwise by
      subtracting each probability's share of the total from `v` (the
      `random()` draw) until it drops to 0 or below. */
  method ProbSelect(choices: seq<Choice>, uniformDraw: nat, v: real) returns (city: nat)
    requires 0 < |choices| && uniformDraw < |choices|
    ensures city == choices[RouletteIndex(choices, uniformDraw, v)].city
  {
    var total := 0.0;
    for t := 0 to |choices|
      invariant total == Total(choices, t)
    {
      total := total + choices[t].prob;
    }
    if total == 0.0 {
      return choices[uniformDraw].city;
    }
    var w := v;
    for i := 0 to |choices|
      invariant w == v - Spent(choices, total, i)
      invariant Crossing(choices, total, v, i) == Crossing(choices, total, v, 0)
    {
      w := w - choices[i].prob / total;
      if w <= 0.0 {
        return choices[i].city;
      }
    }
    return choices[|choices| - 1].city;
  }

  lemma {:induction false} SpentIsShare(choices: seq<Choice>, total: real, m: nat)
    requires m <= |choices| && total != 0.0
    ensures Spent(choices, total, m) == Total(choices, m) / total
  {
    if m > 0 {
      SpentIsShare(choices, total, m - 1);
      var a, b := Total(choices, m - 1), choices[m - 1].prob;
      assert a / total + b / total == (a + b) / total;
    }
  }

  lemma {:induction false} CrossingBefore(choices: seq<Choice>, total: real, v: real, i: nat)
    requires 0 < |choices| && i < |choices| && total != 0.0
    requires v - Spent(choices, total, |choices|) <= 0.0
    ensures i <= Crossing(choices, total, v, i) < |choices|
    ensures v - Spent(choices, total, Crossing(choices, total, v, i) + 1) <= 0.0
    decreases |choices| - i
  {
    if v - Spent(choices, total, i + 1) > 0.0 {
      CrossingBefore(choices, total, v, i + 1);
    }
  }

  /** In exact arithmetic the shares add up to 1, so a draw `v <= 1` always
      drops to 0 or below inside the loop: the `choices[-1]` fallback is
      reached only through floating-point rounding. */
  lemma RouletteStopsInLoop(choices: seq<Choice>, v: real)
    requires 0 < |choices| && Total(choices, |choices|) != 0.0 && v <= 1.0
    ensures var total := Total(choices, |choices|);
      var k := Crossing(choices, total, v, 0);
      v - Spent(choices, total, k + 1) <= 0.0
      && forall m :: 1 <= m <= k ==> v - Spent(choices, total, m) > 0.0
  {
    var total := Total(choices, |choices|);
    SpentIsShare(choices, total, |choices|);
    CrossingBefore(choices, total, v, 0);
    CrossingIsFirst(choices, total, v, 0);
  }

  lemma {:induction false} CrossingIsFirst(choices: seq<Choice>, total: real, v: real, i: nat)
    requires 0 < |choices| && i <= |choices| && total != 0.0
    ensures forall m :: i + 1 <= m <= Crossing(choices, total, v, i) ==> v - Spent(choices, total, m) > 0.0
    decreases |choices| - i
  {
    if i < |choices| && v - Spent(choices, total, i + 1) > 0.0 {
      CrossingIsFirst(choices, total, v, i + 1);
    }
  }

  // ---------------------------------------------------------------------
  // stepwise_const and search

  /** The random draws one ant uses: the start city, and per step the
      greedy test draw, the `randint` of the uniform case and the roulette
      `random()`. */
  datatype StepDraws = StepDraws(start: nat, greedy: seq<real>, uniform: seq<nat>, roulette: seq<real>)

  predicate ValidStepDraws(d: StepDraws, n: nat)
  {
    && n >= 1 && d.start < n
    && |d.greedy| >= n - 1 && |d.uniform| >= n - 1 && |d.roulette| >= n - 1
    && (forall s :: 0 <= s < n - 1 ==> d.uniform[s] < n - 1 - s)
  }

  /** The city an ant appends to the unfinished partial tour `perm` when
      every pheromone row is `row`: among the choices for the unvisited
      cities seen from the last one, the greedy pick when that step's draw
      is at most `c_greed`, else the roulette pick. It is always a city not
      yet visited. */
  function NextCity(cities: seq<seq<real>>, row: seq<real>, cHeur: real, cGreed: real,
                    euc2d: Distance, pow: (real, real) -> real, draws: StepDraws, perm: seq<nat>): (c: nat)
    requires Apart(cities, euc2d) && |row| == |cities| && ValidStepDraws(draws, |cities|)
    requires 1 <= |perm| < |cities| && ValidTour(perm, |cities|)
    requires forall i, j :: 0 <= i < j < |perm| ==> perm[i] != perm[j]
    ensures c < |cities| && c !in perm
  {
    var n := |cities|;
    var last := perm[|perm| - 1];
    assert last in perm;
    var choices := ChoicesUpTo(n, perm, cities, last, row, cHeur, 1.0, euc2d, pow);
    CandidatesCount(n, perm);
    var step := |perm| - 1;
    var k := if draws.greedy[step] <= cGreed then FirstMaxIndex(choices)
             else RouletteIndex(choices, draws.uniform[step], draws.roulette[step]);
    assert choices[k].city == Candidates(n, perm)[k];
    choices[k].city
  }

  /** The tour an ant completes from the partial tour `perm` when every
      pheromone row is `row`, appending `NextCity` until every city is
      visited: a permutation of all cities that extends `perm`. */
  function Construct(cities: seq<seq<real>>, row: seq<real>, cHeur: real, cGreed: real,
                     euc2d: Distance, pow: (real, real) -> real, draws: StepDraws, perm: seq<nat>): (r: seq<nat>)
    requires Apart(cities, euc2d) && |row| == |cities| && ValidStepDraws(draws, |cities|)
    requires 1 <= |perm| <= |cities| && ValidTour(perm, |cities|)
    requires forall i, j :: 0 <= i < j < |perm| ==> perm[i] != perm[j]
    ensures IsPermutation(r, |cities|)
    ensures r[..|perm|] == perm
    decreases |cities| - |perm|
  {
    if |perm| == |cities| then perm
    else
      var city := NextCity(cities, row, cHeur, cGreed, euc2d, pow, draws, perm);
      var next := perm + [city];
      AppendFresh(perm, city, |cities|);
      var r := Construct(cities, row, cHeur, cGreed, euc2d, pow, draws, next);
      assert r[..|perm|] == r[..|next|][..|perm|];
      r
  }

  /** Every city `Construct` appends is the `NextCity` of the tour built so
      far: position `s` holds the pick among the cities unvisited in the
      first `s`. */
  lemma {:induction false} ConstructSteps(cities: seq<seq<real>>, row: seq<real>, cHeur: real, cGreed: real,
                                          euc2d: Distance, pow: (real, real) -> real, draws: StepDraws,
                                          perm: seq<nat>)
    requires Apart(cities, euc2d) && |row| == |cities| && ValidStepDraws(draws, |cities|)
    requires 1 <= |perm| <= |cities| && ValidTour(perm, |cities|)
    requires forall i, j :: 0 <= i < j < |perm| ==> perm[i] != perm[j]
    ensures var r := Construct(cities, row, cHeur, cGreed, euc2d, pow, draws, perm);
      forall s :: |perm| <= s < |cities| ==>
        && ValidTour(r[..s], |cities|) && (forall i, j :: 0 <= i < j < s ==> r[..s][i] != r[..s][j])
        && r[s] == NextCity(cities, row, cHeur, cGreed, euc2d, pow, draws, r[..s])
    decreases |cities| - |perm|
  {
    var r := Construct(cities, row, cHeur, cGreed, euc2d, pow, draws, perm);
    if |perm| < |cities| {
      var city := NextCity(cities, row, cHeur, cGreed, euc2d, pow, draws, perm);
      var next := perm + [city];
      AppendFresh(perm, city, |cities|);
      ConstructSteps(cities, row, cHeur, cGreed, euc2d, pow, draws, next);
      assert r == Construct(cities, row, cHeur, cGreed, euc2d, pow, draws, next);
      forall s | |perm| <= s < |cities|
        ensures ValidTour(r[..s], |cities|) && (forall i, j :: 0 <= i < j < s ==> r[..s][i] != r[..s][j])
        ensures r[s] == NextCity(cities, row, cHeur, cGreed, euc2d, pow, draws, r[..s])
      {
        if s == |perm| {
          assert r[..s] == perm;
          assert r[s] == r[..|next|][s] == city;
        }
      }
    }
  }

  /** `stepwise_const`: starts at the drawn city and, while some city is
      unvisited, appends the greedy or the roulette choice among the
      unvisited cities; the tour is the one `Construct` defines from the
      shared pheromone row, so a permutation of all cities. */
  method StepwiseConst(cities: seq<seq<real>>, phero: seq<array<real>>, cHeur: real, cGreed: real,
                       euc2d: Distance, pow: (real, real) -> real, draws: StepDraws)
    returns (perm: seq<nat>)
    requires Shared(phero, |cities|) && Apart(cities, euc2d)
    requires ValidStepDraws(draws, |cities|)
    ensures perm == Construct(cities, phero[0][..], cHeur, cGreed, euc2d, pow, draws, [draws.start])
    ensures IsPermutation(perm, |cities|)
    ensures perm[0] == draws.start
  {
    var n := |cities|;
    ghost var row := phero[0][..];
    perm := [draws.start];
    while |perm| < n
      invariant 1 <= |perm| <= n && perm[0] == draws.start
      invariant ValidTour(perm, n)
      invariant forall i, j :: 0 <= i < j < |perm| ==> perm[i] != perm[j]
      invariant Construct(cities, row, cHeur, cGreed, euc2d, pow, draws, perm)
                == Construct(cities, row, cHeur, cGreed, euc2d, pow, draws, [draws.start])
      decreases n - |perm|
    {
      var last := perm[|perm| - 1];
      assert last in perm;
      var choices := CalculateChoices(cities, last, perm, phero, cHeur, 1.0, euc2d, pow);
      assert phero[last] == phero[0];
      CandidatesCount(n, perm);
      var step := |perm| - 1;
      var greedy := draws.greedy[step] <= cGreed;
      var nextCity := SelectNext(choices, greedy, draws.uniform[step], draws.roulette[step]);
      ghost var k := if greedy then FirstMaxIndex(choices) else RouletteIndex(choices, draws.uniform[step], draws.roulette[step]);
      assert nextCity == Candidates(n, perm)[k];
      AppendFresh(perm, nextCity, n);
      perm := perm + [nextCity];
    }
  }

  /** `greedy_select(choices) if (greedy) else prob_select(choices)`. */
  method SelectNext(choices: seq<Choice>, greedy: bool, uniformDraw: nat, v: real) returns (city: nat)
    requires 0 < |choices| && uniformDraw < |choices|
    ensures city == choices[if greedy then FirstMaxIndex(choices) else RouletteIndex(choices, uniformDraw, v)].city
  {
    if greedy {
      city := GreedySelect(choices);
    } else {
      city := ProbSelect(choices, uniformDraw, v);
    }
  }

  /** Appending a city that is not yet on a partial tour keeps its cities
      distinct. */
  lemma AppendFresh(perm: seq<nat>, city: nat, n: nat)
    requires ValidTour(perm, n) && forall i, j :: 0 <= i < j < |perm| ==> perm[i] != perm[j]
    requires city < n && city !in perm
    ensures ValidTour(perm + [city], n)
    ensures forall i, j :: 0 <= i < j < |perm + [city]| ==> (perm + [city])[i] != (perm + [city])[j]
  {
  }

  /** A tour and its cost: the `cand` / `best` dictionaries. */
  datatype Candidate = Candidate(vector: seq<nat>, cost: nat)

  predicate ValidAntDraws(antDraws: seq<seq<StepDraws>>, maxIt: nat, numAnts: nat, n: nat)
  {
    && |antDraws| >= maxIt
    && (forall it :: 0 <= it < maxIt ==> |antDraws[it]| >= numAnts)
    && (forall it, a :: 0 <= it < maxIt && 0 <= a < numAnts && a < |antDraws[it]| ==>
          ValidStepDraws(antDraws[it][a], n))
  }

  /** The best-so-far candidate after the ants' tours in turn: a tour
      replaces it only when strictly cheaper (`cand['cost'] < best['cost']`). */
  function BestOf(best0: Candidate, ants: seq<Candidate>): Candidate
    decreases |ants|
  {
    if ants == [] then best0
    else
      var b := BestOf(best0, ants[..|ants| - 1]);
      if ants[|ants| - 1].cost < b.cost then ants[|ants| - 1] else b
  }

  /** The best-so-far candidate is no dearer than the start and than every
      tour; it is the start, or a tour strictly cheaper than the start and
      than every tour before it (so a tie keeps the earlier one). */
  lemma {:induction false} BestOfProperties(best0: Candidate, ants: seq<Candidate>)
    ensures var b := BestOf(best0, ants);
      && b.cost <= best0.cost
      && (forall c :: c in ants ==> b.cost <= c.cost)
      && (b == best0 || exists a :: 0 <= a < |ants| && b == ants[a] && b.cost < best0.cost
                                  && forall j :: 0 <= j < a ==> b.cost < ants[j].cost)
    decreases |ants|
  {
    if ants != [] {
      var prefix, last := ants[..|ants| - 1], ants[|ants| - 1];
      assert ants == prefix + [last];
      BestOfProperties(best0, prefix);
      var b', b := BestOf(best0, prefix), BestOf(best0, ants);
      if last.cost < b'.cost {
        assert b == ants[|ants| - 1];
        assert forall j :: 0 <= j < |ants| - 1 ==> b.cost < ants[j].cost by {
          forall j | 0 <= j < |ants| - 1 ensures b.cost < ants[j].cost {
            assert ants[j] in prefix;
          }
        }
      } else {
        assert b == b';
        if b' != best0 {
          var a :| 0 <= a < |prefix| && b' == prefix[a] && b'.cost < best0.cost
                   && forall j :: 0 <= j < a ==> b'.cost < prefix[j].cost;
          assert b == ants[a];
        }
      }
    }
  }

  /** The tours of two rounds in a row pick the same best as one after the other. */
  lemma {:induction false} BestOfAppend(best0: Candidate, A: seq<Candidate>, B: seq<Candidate>)
    ensures BestOf(best0, A + B) == BestOf(BestOf(best0, A), B)
    decreases |B|
  {
    if B == [] {
      assert A + B == A;
    } else {
      var B', last := B[..|B| - 1], B[|B| - 1];
      assert (A + B)[..|A + B| - 1] == A + B';
      BestOfAppend(best0, A, B');
    }
  }

  /** The shared pheromone row after the local update of each tour in turn. */
  function LocalDeposits(row: seq<real>, ants: seq<Candidate>, c: real, target: real): (r: seq<real>)
    requires forall a :: 0 <= a < |ants| ==> ValidTour(ants[a].vector, |row|)
    ensures |r| == |row|
    decreases |ants|
  {
    if ants == [] then row
    else
      var last := ants[|ants| - 1];
      Deposits(LocalDeposits(row, ants[..|ants| - 1], c, target), last.vector, c, target, |last.vector|)
  }

  /** `search`: the best-so-far tour starts as a random permutation and is
      replaced only by a strictly cheaper ant tour; after each ant the
      pheromone moves toward its initial value along that ant's tour, and
      after each iteration toward `1 / cost` along the best tour. `tried`
      lists the ants' tours in the order they were built; the result is the
      best of the start and of those tours, a permutation with its true cost. */
  method Search(cities: seq<seq<real>>, maxIt: nat, numAnts: nat, decay: real, cHeur: real,
                cLocalPhero: real, cGreed: real, euc2d: Distance, pow: (real, real) -> real,
                permDraws: seq<nat>, antDraws: seq<seq<StepDraws>>)
    returns (best: Candidate, ghost tried: seq<Candidate>)
    requires |cities| >= 2 && Apart(cities, euc2d)
    requires ValidShuffleDraws(permDraws, |cities|)
    requires ValidAntDraws(antDraws, maxIt, numAnts, |cities|)
    ensures IsPermutation(best.vector, |cities|)
    ensures best.cost == TourCost(best.vector, cities, euc2d)
    ensures var first := Shuffled(|cities|, permDraws, |cities|);
      && ValidTour(first, |cities|) && best.cost <= TourCost(first, cities, euc2d)
      && best == BestOf(Candidate(first, TourCost(first, cities, euc2d)), tried)
    ensures |tried| == maxIt * numAnts
    ensures forall c :: c in tried ==> IsPermutation(c.vector, |cities|) && c.cost == TourCost(c.vector, cities, euc2d)
    ensures forall c :: c in tried ==> best.cost <= c.cost
  {
    var n := |cities|;
    var first := RandomPermutation(cities, permDraws);
    var firstCost := Cost(first, cities, euc2d);
    best := Candidate(first, firstCost);
    ghost var start := best;
    CostPositive(first, cities, euc2d);
    var initPheromone := 1.0 / (n as real * best.cost as real);
    var pheromone := InitialisePheromoneMatrix(n, initPheromone);
    tried := [];
    for it := 0 to maxIt
      invariant Shared(pheromone, n)
      invariant IsPermutation(best.vector, n) && best.cost == TourCost(best.vector, cities, euc2d)
      invariant |tried| == it * numAnts
      invariant forall c :: c in tried ==> IsPermutation(c.vector, n) && c.cost == TourCost(c.vector, cities, euc2d)
      invariant best == BestOf(start, tried)
    {
      ghost var ants;
      ghost var before := best;
      best, ants := ConstructTours(cities, pheromone, best, numAnts, cHeur, cLocalPhero, initPheromone, cGreed,
                                   euc2d, pow, antDraws[it]);
      BestOfAppend(start, tried, ants);
      tried := tried + ants;
      assert |tried| == it * numAnts + numAnts == (it + 1) * numAnts;
      CostPositive(best.vector, cities, euc2d);
      GlobalUpdatePheromone(pheromone, best, decay);
    }
    BestOfProperties(start, tried);
  }

  /** An ant's candidate: the tour `Construct` builds from its draws over
      pheromone row `row`, with its true cost. */
  predicate AntTour(c: Candidate, cities: seq<seq<real>>, row: seq<real>, cHeur: real, cGreed: real,
                    euc2d: Distance, pow: (real, real) -> real, d: StepDraws)
  {
    && Apart(cities, euc2d) && |row| == |cities| && ValidStepDraws(d, |cities|)
    && c.vector == Construct(cities, row, cHeur, cGreed, euc2d, pow, d, [d.start])
    && c.cost == TourCost(c.vector, cities, euc2d)
  }

  /** The ants' candidates in build order: each is the tour `Construct`
      builds from its draws over the row the earlier ants' local updates
      left, starting from `row0`, with its true cost. */
  predicate AntTours(ants: seq<Candidate>, cities: seq<seq<real>>, row0: seq<real>, cHeur: real, cGreed: real,
                     cLocalPhero: real, initPheromone: real, euc2d: Distance, pow: (real, real) -> real,
                     draws: seq<StepDraws>)
  {
    && |ants| <= |draws|
    && (forall i :: 0 <= i < |ants| ==> ValidTour(ants[i].vector, |row0|))
    && forall i :: 0 <= i < |ants| ==>
         AntTour(ants[i], cities, LocalDeposits(row0, ants[..i], cLocalPhero, initPheromone),
                 cHeur, cGreed, euc2d, pow, draws[i])
  }

  /** One more ant, built over the row the earlier ones left, extends the list. */
  lemma AntToursSnoc(ants: seq<Candidate>, cand: Candidate, cities: seq<seq<real>>, row0: seq<real>, cHeur: real,
                     cGreed: real, cLocalPhero: real, initPheromone: real, euc2d: Distance,
                     pow: (real, real) -> real, draws: seq<StepDraws>)
    requires AntTours(ants, cities, row0, cHeur, cGreed, cLocalPhero, initPheromone, euc2d, pow, draws)
    requires |ants| < |draws| && ValidTour(cand.vector, |row0|)
    requires AntTour(cand, cities, LocalDeposits(row0, ants, cLocalPhero, initPheromone),
                     cHeur, cGreed, euc2d, pow, draws[|ants|])
    ensures AntTours(ants + [cand], cities, row0, cHeur, cGreed, cLocalPhero, initPheromone, euc2d, pow, draws)
  {
    var next := ants + [cand];
    forall i | 0 <= i < |next|
      ensures ValidTour(next[i].vector, |row0|)
      ensures AntTour(next[i], cities, LocalDeposits(row0, next[..i], cLocalPhero, initPheromone),
                      cHeur, cGreed, euc2d, pow, draws[i])
    {
      if i < |ants| {
        assert next[..i] == ants[..i] && next[i] == ants[i];
      } else {
        assert next[..i] == ants;
      }
    }
  }

  /** Each ant's tour is a permutation starting at its drawn city, with its
      true cost. */
  lemma AntToursArePermutations(ants: seq<Candidate>, cities: seq<seq<real>>, row0: seq<real>, cHeur: real,
                                cGreed: real, cLocalPhero: real, initPheromone: real, euc2d: Distance,
                                pow: (real, real) -> real, draws: seq<StepDraws>)
    requires AntTours(ants, cities, row0, cHeur, cGreed, cLocalPhero, initPheromone, euc2d, pow, draws)
    ensures forall a :: 0 <= a < |ants| ==> ValidTour(ants[a].vector, |cities|)
    ensures forall a :: 0 <= a < |ants| ==>
              && IsPermutation(ants[a].vector, |cities|) && ants[a].vector[0] == draws[a].start
              && ants[a].cost == TourCost(ants[a].vector, cities, euc2d)
  {
    forall a | 0 <= a < |ants|
      ensures ValidTour(ants[a].vector, |cities|)
      ensures IsPermutation(ants[a].vector, |cities|) && ants[a].vector[0] == draws[a].start
      ensures ants[a].cost == TourCost(ants[a].vector, cities, euc2d)
    {
      var row := LocalDeposits(row0, ants[..a], cLocalPhero, initPheromone);
      assert AntTour(ants[a], cities, row, cHeur, cGreed, euc2d, pow, draws[a]);
      var r := Construct(cities, row, cHeur, cGreed, euc2d, pow, draws[a], [draws[a].start]);
      assert r[..1] == [draws[a].start];
    }
  }

  /** One iteration's ants: each builds a tour starting at its drawn city,
      which replaces the best one when strictly cheaper and is then
      reinforced locally. `ants` lists the tours built, in order; the shared
      pheromone row ends as the local updates of those tours in turn. */
  method ConstructTours(cities: seq<seq<real>>, pheromone: seq<array<real>>, best0: Candidate, numAnts: nat,
                        cHeur: real, cLocalPhero: real, initPheromone: real, cGreed: real,
                        euc2d: Distance, pow: (real, real) -> real, draws: seq<StepDraws>)
    returns (best: Candidate, ghost ants: seq<Candidate>)
    requires |cities| >= 2 && Apart(cities, euc2d) && Shared(pheromone, |cities|)
    requires |draws| >= numAnts && forall a :: 0 <= a < numAnts ==> ValidStepDraws(draws[a], |cities|)
    requires IsPermutation(best0.vector, |cities|) && best0.cost == TourCost(best0.vector, cities, euc2d)
    modifies pheromone[0]
    ensures IsPermutation(best.vector, |cities|) && best.cost == TourCost(best.vector, cities, euc2d)
    ensures |ants| == numAnts
    ensures forall a :: 0 <= a < |ants| ==> ValidTour(ants[a].vector, |cities|)
    ensures AntTours(ants, cities, old(pheromone[0][..]), cHeur, cGreed, cLocalPhero, initPheromone, euc2d, pow, draws)
    ensures forall a :: 0 <= a < |ants| ==>
              && IsPermutation(ants[a].vector, |cities|) && ants[a].vector[0] == draws[a].start
              && ants[a].cost == TourCost(ants[a].vector, cities, euc2d)
    ensures best == BestOf(best0, ants)
    ensures best.cost <= best0.cost
    ensures forall c :: c in ants ==> best.cost <= c.cost
    ensures forall a :: 0 <= a < |pheromone| ==>
              pheromone[a][..] == LocalDeposits(old(pheromone[0][..]), ants, cLocalPhero, initPheromone)
  {
    best, ants := best0, [];
    ghost var row0 := pheromone[0][..];
    for a := 0 to numAnts
      invariant IsPermutation(best.vector, |cities|) && best.cost == TourCost(best.vector, cities, euc2d)
      invariant |ants| == a
      invariant AntTours(ants, cities, row0, cHeur, cGreed, cLocalPhero, initPheromone, euc2d, pow, draws)
      invariant best == BestOf(best0, ants)
      invariant pheromone[0][..] == LocalDeposits(row0, ants, cLocalPhero, initPheromone)
    {
      var vector := StepwiseConst(cities, pheromone, cHeur, cGreed, euc2d, pow, draws[a]);
      var cost := Cost(vector, cities, euc2d);
      var cand := Candidate(vector, cost);
      if cand.cost < best.cost {
        best := cand;
      }
      ghost var before := pheromone[0][..];
      AntToursSnoc(ants, cand, cities, row0, cHeur, cGreed, cLocalPhero, initPheromone, euc2d, pow, draws);
      ants := ants + [cand];
      assert ants[..|ants| - 1] == ants[..a];
      LocalUpdatePheromone(pheromone, cand, cLocalPhero, initPheromone);
      assert pheromone[0][..] == Deposits(before, vector, cLocalPhero, initPheromone, |vector|);
    }
    AntToursArePermutations(ants, cities, row0, cHeur, cGreed, cLocalPhero, initPheromone, euc2d, pow, draws);
    BestOfProperties(best0, ants);
  }
}

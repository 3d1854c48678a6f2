/** tools/guiga_algorithms.py: the balanced angular sector assignment. The
    cities get their angle as a third field and are sorted by it; each city
    goes to the first boundary strictly above its angle, unless that sector
    (not the last one) already holds `optimal_split` cities, in which case it
    overflows into the next sector. Each sector is then closed into a tour
    through the center. */
module GuigaAlgorithms {
  import opened Grid
  import opened Sectors
  import ToolsEnvironment

  lemma DivModFacts(n: nat, k: nat)
    requires k >= 1
    ensures n == (n / k) * k + n % k && 0 <= n % k < k
    ensures (n / k + 1) * k == (n / k) * k + k
  {
  }

  /** Python's `round(n / k)` for a count `n` and `k >= 1`: the nearest
      integer, ties to the even one. */
  function PyRoundDiv(n: nat, k: nat): (r: nat)
    requires k >= 1
    ensures -(k as int) <= 2 * (n - r * k) <= k
    ensures (2 * (n - r * k) == k || 2 * (n - r * k) == -(k as int)) ==> r % 2 == 0
  {
    DivModFacts(n, k);
    var q, rem := n / k, n % k;
    if 2 * rem < k then q
    else if 2 * rem > k then q + 1
    else if q % 2 == 0 then q
    else q + 1
  }

  lemma Distribute(lo: int, d: int, k: int)
    ensures (lo + d) * k == lo * k + d * k
  {
  }

  lemma AtLeastOnce(d: int, k: int)
    requires d >= 1 && k >= 0
    ensures d * k >= k
  {
    assert d * k == k + (d - 1) * k;
  }

  /** Moving the quotient up by `hi - lo` lowers the doubled remainder by
      twice that many `k`. */
  lemma RemainderGap(n: nat, k: nat, lo: int, hi: int)
    requires k >= 1 && lo < hi
    ensures 2 * (n - hi * k) <= 2 * (n - lo * k) - 2 * k
    ensures hi - lo >= 2 ==> 2 * (n - hi * k) <= 2 * (n - lo * k) - 4 * k
    ensures hi - lo == 1 ==> 2 * (n - hi * k) == 2 * (n - lo * k) - 2 * k
  {
    var d := hi - lo;
    Distribute(lo, d, k);
    if d >= 2 {
      Distribute(2, d - 2, k);
      AtLeastOnce(d - 1, k);
    } else {
      AtLeastOnce(d, k);
    }
  }

  /** The round-half-to-even value is the only integer meeting both bounds
      and the tie rule. */
  lemma PyRoundDivUnique(n: nat, k: nat, r': int)
    requires k >= 1
    requires -(k as int) <= 2 * (n - r' * k) <= k
    requires (2 * (n - r' * k) == k || 2 * (n - r' * k) == -(k as int)) ==> r' % 2 == 0
    ensures r' == PyRoundDiv(n, k)
  {
    var r := PyRoundDiv(n, k);
    if r' < r {
      RemainderGap(n, k, r', r);
    } else if r' > r {
      RemainderGap(n, k, r, r');
    }
  }

  // ---------------------------------------------------------------------
  // The cities with their angle appended, and `sorted(..., key=lambda e: e[2])`

  /** Every city list carries its angle as a third field. */
  predicate Triples(s: seq<seq<real>>)
  {
    forall j :: 0 <= j < |s| ==> |s[j]| == 3
  }

  /** Ascending by the angle field. */
  predicate SortedByAngle(s: seq<seq<real>>)
    requires Triples(s)
  {
    forall i, j :: 0 <= i < j < |s| ==> s[i][2] <= s[j][2]
  }

  /** Inserts `x` before the first element whose angle is not below its own. */
  function Insert(x: seq<real>, s: seq<seq<real>>): (r: seq<seq<real>>)
    requires |x| == 3 && Triples(s)
    ensures Triples(r) && |r| == |s| + 1
    ensures multiset(r) == multiset(s) + multiset{x}
  {
    if s == [] || x[2] <= s[0][2] then [x] + s
    else
      assert s == [s[0]] + s[1..];
      [s[0]] + Insert(x, s[1..])
  }

  /** Inserting into a sorted list keeps it sorted. */
  lemma {:induction false} InsertKeepsSorted(x: seq<real>, s: seq<seq<real>>)
    requires |x| == 3 && Triples(s) && SortedByAngle(s)
    ensures SortedByAngle(Insert(x, s))
    ensures Insert(x, s)[0] == x || Insert(x, s)[0] == s[0]
  {
    if s != [] && x[2] > s[0][2] {
      InsertKeepsSorted(x, s[1..]);
    }
  }

  /** Python's stable `sorted` by the angle field, as an insertion sort that
      keeps equal angles in input order. */
  function SortByAngle(s: seq<seq<real>>): (r: seq<seq<real>>)
    requires Triples(s)
    ensures Triples(r) && |r| == |s|
    ensures SortedByAngle(r)
    ensures multiset(r) == multiset(s)
  {
    if s == [] then []
    else
      assert s == [s[0]] + s[1..];
      InsertKeepsSorted(s[0], SortByAngle(s[1..]));
      Insert(s[0], SortByAngle(s[1..]))
  }

  /** The cities whose angle is exactly `a`, in order. */
  function WithAngle(s: seq<seq<real>>, a: real): seq<seq<real>>
    requires Triples(s)
  {
    if s == [] then []
    else (if s[0][2] == a then [s[0]] else []) + WithAngle(s[1..], a)
  }

  lemma WithAngleCons(y: seq<real>, s: seq<seq<real>>, a: real)
    requires |y| == 3 && Triples(s)
    ensures WithAngle([y] + s, a) == (if y[2] == a then [y] else []) + WithAngle(s, a)
  {
    assert ([y] + s)[1..] == s;
  }

  lemma {:induction false} InsertWithAngle(x: seq<real>, s: seq<seq<real>>, a: real)
    requires |x| == 3 && Triples(s)
    ensures WithAngle(Insert(x, s), a) == (if x[2] == a then [x] else []) + WithAngle(s, a)
  {
    if s == [] || x[2] <= s[0][2] {
      WithAngleCons(x, s, a);
    } else {
      InsertWithAngle(x, s[1..], a);
      WithAngleCons(s[0], Insert(x, s[1..]), a);
    }
  }

  /** The sort is stable: cities of equal angle keep their relative order. */
  lemma {:induction false} SortIsStable(s: seq<seq<real>>, a: real)
    requires Triples(s)
    ensures WithAngle(SortByAngle(s), a) == WithAngle(s, a)
  {
    if s != [] {
      SortIsStable(s[1..], a);
      InsertWithAngle(s[0], SortByAngle(s[1..]), a);
    }
  }

  /** The first loop over the cities: `city.append(find_angle_from_center(city))`. */
  function Annotate(env: ToolsEnvironment.Environment, cities: seq<seq<real>>,
                    angleBetween: (seq<real>, seq<real>) -> real): (r: seq<seq<real>>)
    requires forall j :: 0 <= j < |cities| ==> |cities[j]| == 2
    ensures Triples(r) && |r| == |cities|
    ensures forall j :: 0 <= j < |r| ==> r[j][..2] == cities[j]
  {
    seq(|cities|, j requires 0 <= j < |cities| =>
      cities[j] + [env.FindAngleFromCenter(cities[j], angleBetween)])
  }

  /** `city[:2]` of each city: what the dictionary stores. */
  function Coords(s: seq<seq<real>>): (r: seq<seq<real>>)
    requires Triples(s)
    ensures |r| == |s|
    ensures forall j :: 0 <= j < |s| ==> |r[j]| == 2
  {
    seq(|s|, j requires 0 <= j < |s| => s[j][..2])
  }

  /** `city[2]` of each city. */
  function AngleKeys(s: seq<seq<real>>): (r: seq<real>)
    requires Triples(s)
    ensures |r| == |s|
  {
    seq(|s|, j requires 0 <= j < |s| => s[j][2])
  }

  // ---------------------------------------------------------------------
  // The balanced placement rule

  /** Where the city with angle `a` goes, given where the earlier cities
      went: the first boundary `i` with `a < bounds[i] != 0`; kept there when
      sector `i` is not yet a key, holds fewer than `split` cities, or is the
      last boundary's; otherwise moved on to `i + 1`. */
  function Place(a: real, bounds: seq<real>, split: nat, dest: seq<Option<nat>>): Option<nat>
  {
    match FirstMatch(a, bounds, true)
    case None => None
    case Some(i) =>
      var size := |Members(dest, i)|;
      if size == 0 || size < split || bounds[i] == bounds[|bounds| - 1] then Some(i)
      else Some(i + 1)
  }

  /** The destination of every city, in the sorted order, each decided with
      the sector sizes its predecessors left. */
  function BalancedDest(angles: seq<real>, bounds: seq<real>, split: nat): (d: seq<Option<nat>>)
    ensures |d| == |angles|
  {
    if angles == [] then []
    else
      var last := |angles| - 1;
      var d := BalancedDest(angles[..last], bounds, split);
      d + [Place(angles[last], bounds, split, d)]
  }

  /** On the boundaries of `k >= 1` sectors: a city is placed exactly when
      its angle is below 2*pi (so never the 999 center); it lands in its
      first matching sector `i`, or in `i + 1` exactly when `i < k` and `i`
      already holds `max(split, 1)` cities; the keys are among 1..k. */
  lemma PlaceOnBoundaries(a: real, k: nat, split: nat, dest: seq<Option<nat>>)
    requires k >= 1
    ensures var r, first := Place(a, Boundaries(k), split, dest), FirstMatch(a, Boundaries(k), true);
      && (r.Some? <==> a < TwoPi)
      && (r.Some? ==> 1 <= r.value <= k)
      && (r.Some? && r.value != first.value ==>
            r.value == first.value + 1 && first.value < k
            && |Members(dest, first.value)| >= split && |Members(dest, first.value)| >= 1)
      && (r.Some? && (first.value == k || |Members(dest, first.value)| < split) ==> r == first)
      && ((r.Some? && first.value < k && |Members(dest, first.value)| >= split
           && |Members(dest, first.value)| >= 1) ==> r.value == first.value + 1)
  {
    FirstMatchOnBoundaries(a, k, true);
    BoundariesShape(k);
    var first := FirstMatch(a, Boundaries(k), true);
    if first.Some? && first.value < k {
      assert Boundaries(k)[first.value] < Boundaries(k)[k];
    }
  }

  lemma {:induction false} BalancedDestPrefix(angles: seq<real>, bounds: seq<real>, split: nat, j: nat)
    requires j <= |angles|
    ensures BalancedDest(angles, bounds, split)[..j] == BalancedDest(angles[..j], bounds, split)
    decreases |angles|
  {
    if j < |angles| {
      var last := |angles| - 1;
      BalancedDestPrefix(angles[..last], bounds, split, j);
      assert angles[..last][..j] == angles[..j];
    } else {
      assert angles[..j] == angles;
    }
  }

  /** City `j`'s destination is decided by its angle and the destinations of
      the cities before it. */
  lemma BalancedDestAt(angles: seq<real>, bounds: seq<real>, split: nat, j: nat)
    requires j < |angles|
    ensures BalancedDest(angles, bounds, split)[j]
            == Place(angles[j], bounds, split, BalancedDest(angles[..j], bounds, split))
  {
    BalancedDestPrefix(angles, bounds, split, j + 1);
    assert angles[..j + 1][..j] == angles[..j];
  }

  /** The sector dictionary before the routes are closed. */
  function BalancedSectors(sorted: seq<seq<real>>, k: nat, split: nat): (m: map<nat, seq<seq<real>>>)
    requires Triples(sorted)
  {
    Group(Coords(sorted), BalancedDest(AngleKeys(sorted), Boundaries(k), split))
  }

  /** Keys are among 1..k, and a city is placed exactly when its angle is
      below 2*pi; each placed city is in exactly one sector, once. */
  lemma BalancedKeys(angles: seq<real>, k: nat, split: nat)
    requires k >= 1
    ensures var d := BalancedDest(angles, Boundaries(k), split);
      && (forall s :: s in Used(d) ==> 1 <= s <= k)
      && (forall j :: 0 <= j < |d| ==> (d[j].Some? <==> angles[j] < TwoPi))
  {
    var d := BalancedDest(angles, Boundaries(k), split);
    forall j | 0 <= j < |d|
      ensures d[j].Some? ==> 1 <= d[j].value <= k
      ensures d[j].Some? <==> angles[j] < TwoPi
    {
      BalancedDestAt(angles, Boundaries(k), split, j);
      PlaceOnBoundaries(angles[j], k, split, BalancedDest(angles[..j], Boundaries(k), split));
    }
  }

  /** The number of angles below `bound`. */
  function CountBelow(angles: seq<real>, bound: real): nat
  {
    if angles == [] then 0
    else CountBelow(angles[..|angles| - 1], bound) + (if angles[|angles| - 1] < bound then 1 else 0)
  }

  lemma {:induction false} PlacedCountBalanced(angles: seq<real>, k: nat, split: nat)
    requires k >= 1
    ensures PlacedCount(BalancedDest(angles, Boundaries(k), split)) == CountBelow(angles, TwoPi)
  {
    if angles != [] {
      var last := |angles| - 1;
      var d := BalancedDest(angles, Boundaries(k), split);
      PlacedCountBalanced(angles[..last], k, split);
      assert d[..|d| - 1] == BalancedDest(angles[..last], Boundaries(k), split);
      PlaceOnBoundaries(angles[last], k, split, BalancedDest(angles[..last], Boundaries(k), split));
    }
  }

  /** Conservation: the sizes of sectors 1..k add up to the number of cities
      whose angle is below 2*pi. */
  lemma BalancedConservation(sorted: seq<seq<real>>, k: nat, split: nat)
    requires k >= 1 && Triples(sorted)
    ensures SectorSizes(BalancedSectors(sorted, k, split), k + 1) == CountBelow(AngleKeys(sorted), TwoPi)
  {
    var d := BalancedDest(AngleKeys(sorted), Boundaries(k), split);
    BalancedKeys(AngleKeys(sorted), k, split);
    forall j | 0 <= j < |d| && d[j].Some?
      ensures d[j].value < k + 1
    {
      assert d[j].value in Used(d);
    }
    Conservation(Coords(sorted), d, k + 1);
    PlacedCountBalanced(AngleKeys(sorted), k, split);
  }

  /** Within a sector the cities appear in ascending angle order. */
  lemma SectorInAngleOrder(sorted: seq<seq<real>>, k: nat, split: nat, s: nat)
    requires Triples(sorted) && SortedByAngle(sorted)
    ensures var m := Members(BalancedDest(AngleKeys(sorted), Boundaries(k), split), s);
      forall t, u :: 0 <= t < u < |m| ==> sorted[m[t]][2] <= sorted[m[u]][2]
  {
  }

  // ---------------------------------------------------------------------
  // get_uav_routes

  /** One pass of the city loop: the enumeration of the boundaries stops at
      the first `i` with `angle < angles[i] != 0`, where the city (its
      coordinates) is appended under `i` or, when sector `i` is full and not
      the last, under `i + 1`; keys are created as needed. */
  method PlaceBalanced(uavRoutes: map<nat, seq<seq<real>>>, city: seq<real>, cityAngle: real,
                       angles: seq<real>, split: nat,
                       ghost points: seq<seq<real>>, ghost dest: seq<Option<nat>>)
    returns (routes: map<nat, seq<seq<real>>>, o: Option<nat>)
    requires |points| == |dest| && uavRoutes == Group(points, dest)
    ensures o == Place(cityAngle, angles, split, dest)
    ensures routes == Placed(uavRoutes, city, o)
  {
    routes, o := uavRoutes, None;
    var i := 0;
    while i < |angles|
      invariant 0 <= i <= |angles|
      invariant routes == uavRoutes && o == None
      invariant forall t :: 0 <= t < i ==> !Matches(cityAngle, angles[t], true)
    {
      if cityAngle < angles[i] && angles[i] != 0.0 {
        ghost var first := FirstMatch(cityAngle, angles, true);
        assert Matches(cityAngle, angles[i], true);
        assert first == Some(i);
        UsedIffMembers(dest, i);
        if i !in routes {
          routes := routes[i := [city]];
          o := Some(i);
          assert [] + [city] == [city];
        } else if |routes[i]| < split || angles[i] == angles[|angles| - 1] {
          routes := routes[i := routes[i] + [city]];
          o := Some(i);
        } else {
          if i + 1 !in routes {
            routes := routes[i + 1 := [city]];
            assert [] + [city] == [city];
          } else {
            routes := routes[i + 1 := routes[i + 1] + [city]];
          }
          o := Some(i + 1);
        }
        return;
      }
      i := i + 1;
    }
  }

  /** The first loop over the cities: each city list gets its angle
      appended, in place. */
  method AnnotateCities(env: ToolsEnvironment.Environment, angleBetween: (seq<real>, seq<real>) -> real)
    requires forall j :: 0 <= j < |env.cities| ==> |env.cities[j]| == 2
    modifies env
    ensures env.cities == Annotate(env, old(env.cities), angleBetween)
  {
    ghost var original := env.cities;
    for j := 0 to |env.cities|
      invariant |env.cities| == |original|
      invariant forall t :: 0 <= t < j ==>
                  env.cities[t] == original[t] + [env.FindAngleFromCenter(original[t], angleBetween)]
      invariant forall t :: j <= t < |original| ==> env.cities[t] == original[t]
    {
      var city := env.cities[j];
      env.cities := env.cities[j := city + [env.FindAngleFromCenter(city, angleBetween)]];
    }
  }

  /** The assignment loop over the sorted cities: the dictionary holds, per
      sector, the coordinates of the cities the balanced rule sent there, in
      the sorted order. */
  method AssignCities(cities: seq<seq<real>>, angles: seq<real>, optimalSplit: nat)
    returns (uavRoutes: map<nat, seq<seq<real>>>)
    requires Triples(cities)
    ensures uavRoutes == Group(Coords(cities), BalancedDest(AngleKeys(cities), angles, optimalSplit))
  {
    ghost var keys, coords := AngleKeys(cities), Coords(cities);
    ghost var dest: seq<Option<nat>> := [];
    uavRoutes := map[];
    for j := 0 to |cities|
      invariant |dest| == j
      invariant dest == BalancedDest(keys[..j], angles, optimalSplit)
      invariant uavRoutes == Group(coords[..j], dest)
    {
      var city := cities[j];
      var cityAngle := city[2];
      // `city_angle != 'center'` always holds here: this environment
      // reports the center with the number 999
      ghost var o: Option<nat>;
      uavRoutes, o := PlaceBalanced(uavRoutes, city[..2], cityAngle, angles, optimalSplit, coords[..j], dest);
      GroupSnoc(coords[..j], dest, city[..2], o);
      assert coords[..j] + [city[..2]] == coords[..j + 1];
      assert keys[..j + 1][..j] == keys[..j];
      dest := dest + [o];
    }
    assert keys[..|cities|] == keys && coords[..|cities|] == coords;
  }

  /** The last loop: each route gets the center inserted at index 0, is
      reordered by the solver, and gets its first element appended. */
  method CloseSectors(sectors: map<nat, seq<seq<real>>>, center: seq<real>,
                      solver: seq<seq<real>> -> seq<seq<real>>)
    returns (uavRoutes: map<nat, seq<seq<real>>>)
    requires Permutes(solver)
    ensures uavRoutes.Keys == sectors.Keys
    ensures forall key :: key in sectors ==> uavRoutes[key] == Tour(center, sectors[key], solver)
  {
    uavRoutes := sectors;
    var remaining := sectors.Keys;
    while remaining != {}
      invariant remaining <= sectors.Keys && uavRoutes.Keys == sectors.Keys
      invariant forall key :: key in remaining ==> uavRoutes[key] == sectors[key]
      invariant forall key :: key in sectors && key !in remaining ==>
                  uavRoutes[key] == Tour(center, sectors[key], solver)
      decreases remaining
    {
      var key :| key in remaining;
      var path := [center] + uavRoutes[key];
      path := solver(path);
      assert |path| == |multiset(path)| == |[center] + sectors[key]|;
      path := path + [path[0]];
      uavRoutes := uavRoutes[key := path];
      remaining := remaining - {key};
    }
  }

  /** `get_uav_routes`: builds the boundaries, computes `optimal_split`
      from the number of cities (the center included), appends each city's
      angle, replaces the cities by their stable sort on it, assigns the
      cities, then closes each sector into a tour through the center. */
  method GetUavRoutes(env: ToolsEnvironment.Environment, numberOfUavs: nat,
                      angleBetween: (seq<real>, seq<real>) -> real, boundaryPoint: real -> seq<real>,
                      solver: seq<seq<real>> -> seq<seq<real>>)
    returns (uavRoutes: map<nat, seq<seq<real>>>, rotatedPoints: seq<seq<real>>)
    requires numberOfUavs >= 1
    requires forall j :: 0 <= j < |env.cities| ==> |env.cities[j]| == 2
    requires Permutes(solver)
    modifies env
    ensures |rotatedPoints| == numberOfUavs
    ensures env.cities == SortByAngle(Annotate(env, old(env.cities), angleBetween))
    ensures var sectors := BalancedSectors(env.cities, numberOfUavs, PyRoundDiv(|old(env.cities)|, numberOfUavs));
      && uavRoutes.Keys == sectors.Keys
      && forall key :: key in sectors ==> uavRoutes[key] == Tour(env.center, sectors[key], solver)
  {
    var angles;
    angles, rotatedPoints := BuildBoundaries(numberOfUavs, boundaryPoint);
    var n, k := |env.cities|, |angles| - 1;
    assert n == |old(env.cities)| && k == numberOfUavs;
    var optimalSplit := PyRoundDiv(n, k);
    AnnotateCities(env, angleBetween);
    env.cities := SortByAngle(env.cities);
    var sectors := AssignCities(env.cities, angles, optimalSplit);
    assert sectors == BalancedSectors(env.cities, numberOfUavs, optimalSplit);
    uavRoutes := CloseSectors(sectors, env.center, solver);
  }
}

/** main.py: the unbalanced angular sector assignment. Every city but the
    center goes to the first boundary its angle is at most (`<=`), skipping
    the boundary 0; nothing is rebalanced. Its entry point then closes each
    sector into a tour through the center. */
module MainRoutes {
  import opened Grid
  import opened Sectors
  import RootEnvironment

  /** The sector main.py's loop puts a city with angle `a` in. */
  function Destination(a: Angle, bounds: seq<real>): Option<nat>
  {
    if a.Center? then None else FirstMatch(a.r, bounds, false)
  }

  /** The destination of each city, its angle taken from environment.py. */
  function Destinations(env: RootEnvironment.Environment, cities: seq<seq<real>>,
                        angleBetween: (seq<real>, seq<real>) -> real, bounds: seq<real>): (d: seq<Option<nat>>)
    requires forall j :: 0 <= j < |cities| ==> |cities[j]| == 2
    ensures |d| == |cities|
  {
    seq(|cities|, j requires 0 <= j < |cities| =>
      Destination(env.FindAngleFromCenter(cities[j], angleBetween), bounds))
  }

  /** `get_uav_routes`: the k+1 boundaries and k drawing points, and the
      dictionary whose sector `i` is exactly the subsequence of the cities,
      in input order, whose first matching boundary is `i`. */
  method GetUavRoutes(env: RootEnvironment.Environment, numberOfUavs: nat,
                      angleBetween: (seq<real>, seq<real>) -> real, boundaryPoint: real -> seq<real>)
    returns (uavRoutes: map<nat, seq<seq<real>>>, rotatedPoints: seq<seq<real>>)
    requires forall j :: 0 <= j < |env.cities| ==> |env.cities[j]| == 2
    ensures |rotatedPoints| == numberOfUavs
    ensures uavRoutes == Group(env.cities, Destinations(env, env.cities, angleBetween, Boundaries(numberOfUavs)))
  {
    var angles;
    angles, rotatedPoints := BuildBoundaries(numberOfUavs, boundaryPoint);
    uavRoutes := map[];
    var cities := env.cities;
    ghost var dest: seq<Option<nat>> := [];
    for j := 0 to |cities|
      invariant dest == Destinations(env, cities[..j], angleBetween, angles)
      invariant uavRoutes == Group(cities[..j], dest)
    {
      var city := cities[j];
      var cityAngle := env.FindAngleFromCenter(city, angleBetween);
      ghost var o: Option<nat>;
      uavRoutes, o := PlaceCity(uavRoutes, city, cityAngle, angles);
      GroupSnoc(cities[..j], dest, city, o);
      assert cities[..j] + [city] == cities[..j + 1];
      dest := dest + [o];
    }
    assert cities[..|cities|] == cities;
  }

  /** One pass of the city loop: the center is skipped; any other city is
      appended under the first boundary `i` with `angle <= angles[i] != 0`
      (the key is created if needed), and the boundary loop stops there. */
  method PlaceCity(uavRoutes: map<nat, seq<seq<real>>>, city: seq<real>, cityAngle: Angle, angles: seq<real>)
    returns (routes: map<nat, seq<seq<real>>>, o: Option<nat>)
    ensures o == Destination(cityAngle, angles)
    ensures routes == Placed(uavRoutes, city, o)
  {
    routes, o := uavRoutes, None;
    if cityAngle != Center {
      var i := 0;
      while i < |angles|
        invariant 0 <= i <= |angles|
        invariant routes == uavRoutes && o == None
        invariant forall t :: 0 <= t < i ==> !Matches(cityAngle.r, angles[t], false)
      {
        if cityAngle.r <= angles[i] && angles[i] != 0.0 {
          if i !in routes {
            routes := routes[i := [city]];
            assert [] + [city] == [city];
          } else {
            routes := routes[i := routes[i] + [city]];
          }
          o := Some(i);
          ghost var r := FirstMatch(cityAngle.r, angles, false);
          assert Matches(cityAngle.r, angles[i], false);
          assert r == Some(i);
          assert routes == Extend(uavRoutes, i, city);
          return;
        }
        i := i + 1;
      }
    }
  }

  /** With k >= 1 sectors every key is one of 1..k; the center is in no
      sector; every other city whose angle is at most 2*pi is in exactly one,
      and the sector sizes add up to the number of such cities. */
  lemma SectorsPartitionCities(angles: seq<Angle>, k: nat)
    requires k >= 1
    requires forall j :: 0 <= j < |angles| && angles[j].Rad? ==> angles[j].r <= TwoPi
    ensures var dest := seq(|angles|, j requires 0 <= j < |angles| => Destination(angles[j], Boundaries(k)));
      && (forall s :: s in Used(dest) ==> 1 <= s <= k)
      && (forall j :: 0 <= j < |dest| ==> (dest[j].Some? <==> angles[j] != Center))
  {
    var dest := seq(|angles|, j requires 0 <= j < |angles| => Destination(angles[j], Boundaries(k)));
    forall j | 0 <= j < |dest|
      ensures dest[j].Some? ==> 1 <= dest[j].value <= k
      ensures dest[j].Some? <==> angles[j] != Center
    {
      if angles[j].Rad? {
        FirstMatchOnBoundaries(angles[j].r, k, false);
      }
    }
  }

  /** Conservation for main.py's dictionary: the sizes of sectors 1..k add
      up to the number of cities placed. */
  lemma SectorSizesAddUp(cities: seq<seq<real>>, angles: seq<Angle>, k: nat)
    requires k >= 1 && |cities| == |angles|
    ensures var dest := seq(|angles|, j requires 0 <= j < |angles| => Destination(angles[j], Boundaries(k)));
      SectorSizes(Group(cities, dest), k + 1) == PlacedCount(dest)
  {
    var dest := seq(|angles|, j requires 0 <= j < |angles| => Destination(angles[j], Boundaries(k)));
    forall j | 0 <= j < |dest| && dest[j].Some?
      ensures dest[j].value < k + 1
    {
      FirstMatchOnBoundaries(angles[j].r, k, false);
    }
    Conservation(cities, dest, k + 1);
  }

  /** With no UAVs the boundary list is just 2*pi, and every city but the
      center whose angle is at most 2*pi lands under key 0. */
  lemma NoUavsUseKeyZero(a: Angle)
    requires a.Rad? && a.r <= TwoPi
    ensures Destination(a, Boundaries(0)) == Some(0)
  {
    assert Boundaries(0) == [Radians(360.0)];
    assert Matches(a.r, Boundaries(0)[0], false);
  }

  /** The steps of main.py's entry point for every sector: `path.insert(0,
      center)` changes the list stored in the dictionary, while the solved
      and closed path (`path.append(path[0])`) is only drawn. */
  method CloseRoutes(uavRoutes: map<nat, seq<seq<real>>>, center: (real, real),
                     solver: seq<seq<real>> -> seq<seq<real>>)
    returns (stored: map<nat, seq<seq<real>>>, drawn: map<nat, seq<seq<real>>>)
    requires Permutes(solver)
    ensures stored.Keys == uavRoutes.Keys && drawn.Keys == uavRoutes.Keys
    ensures forall key :: key in uavRoutes ==> stored[key] == [[center.0, center.1]] + uavRoutes[key]
    ensures forall key :: key in uavRoutes ==> drawn[key] == Tour([center.0, center.1], uavRoutes[key], solver)
  {
    stored, drawn := uavRoutes, map[];
    var remaining := uavRoutes.Keys;
    while remaining != {}
      invariant remaining <= uavRoutes.Keys
      invariant stored.Keys == uavRoutes.Keys && drawn.Keys == uavRoutes.Keys - remaining
      invariant forall key :: key in remaining ==> stored[key] == uavRoutes[key]
      invariant forall key :: key in uavRoutes && key !in remaining ==>
                  stored[key] == [[center.0, center.1]] + uavRoutes[key] &&
                  drawn[key] == Tour([center.0, center.1], uavRoutes[key], solver)
      decreases remaining
    {
      var key :| key in remaining;
      // path.insert(0, center) on the list the dictionary holds
      stored := stored[key := [[center.0, center.1]] + stored[key]];
      // path = solver(path); path.append(path[0])
      drawn := drawn[key := Tour([center.0, center.1], uavRoutes[key], solver)];
      remaining := remaining - {key};
    }
  }
}

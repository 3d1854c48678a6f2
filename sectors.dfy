/** What the two drafts of `get_uav_routes` (main.py and
    tools/guiga_algorithms.py) share: the k+1 angular boundaries, the search
    for the first boundary a city's angle falls under, the sector dictionary
    seen as a grouping of the cities by their destination sector, and the
    closing of a sector into a tour through the center.

    A sector dictionary is described by `dest`, the sector each city went to
    (`None` for a city no sector took): sector `s` holds, in input order,
    exactly the cities `j` with `dest[j] == Some(s)`. */
module Sectors {
  import opened Grid

  datatype Option<T> = None | Some(value: T)

  /** Boundary `num` of `k`: `np.radians(num * (360 / k))`. */
  function Boundary(num: nat, k: nat): real
    requires num < k
  {
    Radians(num as real * (360.0 / k as real))
  }

  /** The `angles` list: the k boundaries appended in the loop, then
      `np.radians(360)`. */
  function Boundaries(k: nat): (b: seq<real>)
    ensures |b| == k + 1
  {
    seq(k, num requires 0 <= num < k => Boundary(num, k)) + [Radians(360.0)]
  }

  lemma RadiansStrict(a: real, b: real)
    requires a < b
    ensures Radians(a) < Radians(b)
  {
    assert (b - a) * Pi > 0.0;
    assert Radians(b) - Radians(a) == (b - a) * Pi / 180.0;
  }

  lemma ScaleStrict(a: real, b: real, c: real)
    requires a < b && c > 0.0
    ensures a * c < b * c
  {
    assert (b - a) * c > 0.0;
  }

  /** The boundaries run from 0 to 2*pi and strictly increase, so the last
      one is the only one equal to 2*pi. */
  lemma BoundariesShape(k: nat)
    ensures Boundaries(k)[k] == TwoPi
    ensures k >= 1 ==> Boundaries(k)[0] == 0.0
    ensures forall i, j :: 0 <= i < j <= k ==> Boundaries(k)[i] < Boundaries(k)[j]
  {
    var b := Boundaries(k);
    forall i, j | 0 <= i < j <= k
      ensures b[i] < b[j]
    {
      var step := 360.0 / k as real;
      assert step * k as real == 360.0;
      ScaleStrict(i as real, j as real, step);
      RadiansStrict(i as real * step, j as real * step);
      if j == k {
        assert b[j] == Radians(360.0);
      }
    }
  }

  /** The first loop of `get_uav_routes`: appends the k boundaries and the
      drawing point of each (the rotation of a reference vector, given here
      as `boundaryPoint`), then the closing boundary 2*pi. */
  method BuildBoundaries(k: nat, boundaryPoint: real -> seq<real>)
    returns (angles: seq<real>, rotatedPoints: seq<seq<real>>)
    ensures angles == Boundaries(k)
    ensures |rotatedPoints| == k
    ensures forall num :: 0 <= num < k ==> rotatedPoints[num] == boundaryPoint(angles[num])
  {
    angles, rotatedPoints := [], [];
    for num := 0 to k
      invariant |angles| == num && |rotatedPoints| == num
      invariant forall i :: 0 <= i < num ==> angles[i] == Boundary(i, k)
      invariant forall i :: 0 <= i < num ==> rotatedPoints[i] == boundaryPoint(angles[i])
    {
      var angle := 360.0 / k as real;
      var theta := Radians(num as real * angle);
      angles := angles + [theta];
      rotatedPoints := rotatedPoints + [boundaryPoint(theta)];
    }
    angles := angles + [Radians(360.0)];
  }

  /** Whether angle `a` falls under boundary `b`: `a < b != 0` in the
      balanced draft (strict), `a <= b != 0` in main.py. */
  predicate Matches(a: real, b: real, strict: bool)
  {
    (if strict then a < b else a <= b) && b != 0.0
  }

  /** The index of the first boundary at or after `from` that `a` matches. */
  function FirstMatchFrom(a: real, bounds: seq<real>, strict: bool, from: nat): (r: Option<nat>)
    requires from <= |bounds|
    ensures r.Some? ==> from <= r.value < |bounds| && Matches(a, bounds[r.value], strict)
    ensures r.Some? ==> forall i :: from <= i < r.value ==> !Matches(a, bounds[i], strict)
    ensures r.None? ==> forall i :: from <= i < |bounds| ==> !Matches(a, bounds[i], strict)
    decreases |bounds| - from
  {
    if from == |bounds| then None
    else if Matches(a, bounds[from], strict) then Some(from)
    else FirstMatchFrom(a, bounds, strict, from + 1)
  }

  /** The boundary the `for i, angle in enumerate(angles)` loop stops at
      (its `break`), or `None` when the loop runs out. */
  function FirstMatch(a: real, bounds: seq<real>, strict: bool): (r: Option<nat>)
    ensures r.Some? ==> r.value < |bounds| && Matches(a, bounds[r.value], strict)
    ensures r.Some? ==> forall i :: 0 <= i < r.value ==> !Matches(a, bounds[i], strict)
    ensures r.None? ==> forall i :: 0 <= i < |bounds| ==> !Matches(a, bounds[i], strict)
  {
    FirstMatchFrom(a, bounds, strict, 0)
  }

  /** On the boundaries of `k >= 1` sectors, an angle finds a boundary
      exactly when it is below 2*pi (strict) or at most 2*pi (non-strict),
      and that boundary is one of 1..k: boundary 0 never matches. */
  lemma FirstMatchOnBoundaries(a: real, k: nat, strict: bool)
    requires k >= 1
    ensures FirstMatch(a, Boundaries(k), strict).Some? <==> (if strict then a < TwoPi else a <= TwoPi)
    ensures FirstMatch(a, Boundaries(k), strict).Some? ==> 1 <= FirstMatch(a, Boundaries(k), strict).value <= k
  {
    BoundariesShape(k);
    var b := Boundaries(k);
    assert b[k] == TwoPi && TwoPi != 0.0;
    var r := FirstMatch(a, b, strict);
    if r.None? {
      assert !Matches(a, b[k], strict);
    }
  }

  /** The indices of the cities that went to sector `s`, in input order. */
  function Members(dest: seq<Option<nat>>, s: nat): (m: seq<nat>)
    ensures forall t :: 0 <= t < |m| ==> m[t] < |dest| && dest[m[t]] == Some(s)
    ensures forall j :: 0 <= j < |dest| && dest[j] == Some(s) ==> j in m
    ensures forall t, u :: 0 <= t < u < |m| ==> m[t] < m[u]
    decreases |dest|
  {
    if dest == [] then []
    else
      var last := |dest| - 1;
      Members(dest[..last], s) + (if dest[last] == Some(s) then [last] else [])
  }

  /** A city is listed in sector `s` exactly when its destination is `s`,
      so it is listed in at most one sector, and at most once there. */
  lemma AssignedOnce(dest: seq<Option<nat>>, j: nat, s: nat)
    requires j < |dest|
    ensures j in Members(dest, s) <==> dest[j] == Some(s)
    ensures dest[j] == Some(s) ==> multiset(Members(dest, s))[j] == 1
  {
    if dest[j] == Some(s) {
      OnceInAscending(Members(dest, s), j);
    }
  }

  /** A value of a strictly ascending list occurs in it once. */
  lemma {:induction false} OnceInAscending(m: seq<nat>, j: nat)
    requires forall t, u :: 0 <= t < u < |m| ==> m[t] < m[u]
    requires j in m
    ensures multiset(m)[j] == 1
  {
    var init, last := m[..|m| - 1], m[|m| - 1];
    assert m == init + [last];
    if j == last {
      assert forall t :: 0 <= t < |init| ==> init[t] < j;
      assert j !in init;
    } else {
      OnceInAscending(init, j);
    }
  }

  /** The cities at the given indices, in that order. */
  function Pick<T>(points: seq<T>, idx: seq<nat>): (r: seq<T>)
    requires forall t :: 0 <= t < |idx| ==> idx[t] < |points|
    ensures |r| == |idx|
  {
    seq(|idx|, t requires 0 <= t < |idx| => points[idx[t]])
  }

  /** The sectors that received at least one city: the dictionary's keys. */
  function Used(dest: seq<Option<nat>>): set<nat>
  {
    set j | 0 <= j < |dest| && dest[j].Some? :: dest[j].value
  }

  /** The sector dictionary: each used sector maps to its cities in input order. */
  function Group<T>(points: seq<T>, dest: seq<Option<nat>>): (m: map<nat, seq<T>>)
    requires |points| == |dest|
    ensures m.Keys == Used(dest)
  {
    map s | s in Used(dest) :: Pick(points, Members(dest, s))
  }

  lemma MembersSnoc(dest: seq<Option<nat>>, o: Option<nat>, s: nat)
    ensures Members(dest + [o], s) == Members(dest, s) + (if o == Some(s) then [|dest|] else [])
  {
    assert (dest + [o])[..|dest|] == dest;
  }

  lemma PickSnoc<T>(points: seq<T>, x: T, idx: seq<nat>)
    requires forall t :: 0 <= t < |idx| ==> idx[t] < |points|
    ensures Pick(points + [x], idx) == Pick(points, idx)
    ensures Pick(points + [x], idx + [|points|]) == Pick(points, idx) + [x]
  {
  }

  lemma UsedSnoc(dest: seq<Option<nat>>, o: Option<nat>)
    ensures Used(dest + [o]) == Used(dest) + (if o.Some? then {o.value} else {})
  {
    var d := dest + [o];
    forall s | s in Used(dest)
      ensures s in Used(d)
    {
      var j :| 0 <= j < |dest| && dest[j] == Some(s);
      assert d[j] == Some(s);
    }
    if o.Some? {
      assert d[|dest|] == o;
    }
  }

  /** A sector is a key of the dictionary exactly when it lists some city. */
  lemma UsedIffMembers(dest: seq<Option<nat>>, s: nat)
    ensures s in Used(dest) <==> |Members(dest, s)| > 0
  {
    if s in Used(dest) {
      var j :| 0 <= j < |dest| && dest[j] == Some(s);
      assert j in Members(dest, s);
    }
  }

  /** A sector no city went to is not a key, and lists no city. */
  lemma UnusedIsEmpty(dest: seq<Option<nat>>, s: nat)
    requires s !in Used(dest)
    ensures Members(dest, s) == []
  {
  }

  /** The expected dictionary after placing one more city. */
  function Placed<T>(routes: map<nat, seq<T>>, x: T, o: Option<nat>): map<nat, seq<T>>
  {
    if o.Some? then Extend(routes, o.value, x) else routes
  }

  lemma GroupSnocAt<T>(points: seq<T>, dest: seq<Option<nat>>, x: T, o: Option<nat>, s: nat)
    requires |points| == |dest|
    requires s in Group(points + [x], dest + [o]) && s in Placed(Group(points, dest), x, o)
    ensures Group(points + [x], dest + [o])[s] == Placed(Group(points, dest), x, o)[s]
  {
    MembersSnoc(dest, o, s);
    PickSnoc(points, x, Members(dest, s));
    if o == Some(s) && s !in Group(points, dest) {
      UnusedIsEmpty(dest, s);
    }
  }

  /** Placing one more city: the dictionary gains it at the end of its
      sector (creating the key if needed), or is unchanged for `None`. */
  lemma GroupSnoc<T>(points: seq<T>, dest: seq<Option<nat>>, x: T, o: Option<nat>)
    requires |points| == |dest|
    ensures Group(points + [x], dest + [o]) == Placed(Group(points, dest), x, o)
  {
    GroupSnocKeys(points, dest, x, o);
    forall s | s in Group(points + [x], dest + [o])
      ensures Group(points + [x], dest + [o])[s] == Placed(Group(points, dest), x, o)[s]
    {
      GroupSnocAt(points, dest, x, o, s);
    }
  }

  lemma GroupSnocKeys<T>(points: seq<T>, dest: seq<Option<nat>>, x: T, o: Option<nat>)
    requires |points| == |dest|
    ensures Group(points + [x], dest + [o]).Keys == Placed(Group(points, dest), x, o).Keys
  {
    UsedSnoc(dest, o);
  }

  /** The number of cities some sector took. */
  function PlacedCount(dest: seq<Option<nat>>): nat
  {
    if dest == [] then 0
    else PlacedCount(dest[..|dest| - 1]) + (if dest[|dest| - 1].Some? then 1 else 0)
  }

  /** The dictionary after appending `x` to sector `s`, creating the key if needed. */
  function Extend<T>(routes: map<nat, seq<T>>, s: nat, x: T): map<nat, seq<T>>
  {
    routes[s := (if s in routes then routes[s] else []) + [x]]
  }

  /** The total size of sectors `0 .. n-1` of a sector dictionary. */
  function SectorSizes<T>(routes: map<nat, seq<T>>, n: nat): nat
  {
    if n == 0 then 0
    else SectorSizes(routes, n - 1) + (if n - 1 in routes then |routes[n - 1]| else 0)
  }

  /** Appending a city to sector `s` adds one to the sizes of sectors below `n` that include `s`. */
  lemma {:induction false} SectorSizesAdd<T>(routes: map<nat, seq<T>>, s: nat, x: T, n: nat)
    ensures SectorSizes(Extend(routes, s, x), n)
            == SectorSizes(routes, n) + (if s < n then 1 else 0)
  {
    if n > 0 {
      SectorSizesAdd(routes, s, x, n - 1);
    }
  }

  lemma {:induction false} SectorSizesEmpty<T>(routes: map<nat, seq<T>>, n: nat)
    requires routes == map[]
    ensures SectorSizes(routes, n) == 0
  {
    if n > 0 {
      SectorSizesEmpty(routes, n - 1);
    }
  }

  /** Conservation: when every destination is a sector below `n`, the
      sectors' sizes add up to the number of cities placed. */
  lemma {:induction false} Conservation<T>(points: seq<T>, dest: seq<Option<nat>>, n: nat)
    requires |points| == |dest|
    requires forall j :: 0 <= j < |dest| && dest[j].Some? ==> dest[j].value < n
    ensures SectorSizes(Group(points, dest), n) == PlacedCount(dest)
  {
    if dest != [] {
      var last := |dest| - 1;
      var g := Group(points[..last], dest[..last]);
      Conservation(points[..last], dest[..last], n);
      GroupSnoc(points[..last], dest[..last], points[last], dest[last]);
      assert points[..last] + [points[last]] == points;
      assert dest[..last] + [dest[last]] == dest;
      assert Group(points, dest) == Placed(g, points[last], dest[last]);
      if dest[last].Some? {
        SectorSizesAdd(g, dest[last].value, points[last], n);
      }
    } else {
      SectorSizesEmpty(Group(points, dest), n);
    }
  }

  /** The solver handed to the routes returns a permutation of its input
      (the external TSP package is not part of this model). */
  ghost predicate Permutes(solver: seq<seq<real>> -> seq<seq<real>>)
  {
    forall s :: multiset(solver(s)) == multiset(s)
  }

  /** One closed route: the center inserted at index 0, the solver's order,
      then the first element appended again. */
  function Tour(center: seq<real>, sector: seq<seq<real>>, solver: seq<seq<real>> -> seq<seq<real>>): (r: seq<seq<real>>)
    requires Permutes(solver)
    ensures |r| == |sector| + 2
    ensures r[0] == r[|r| - 1]
    ensures multiset(r[..|r| - 1]) == multiset([center] + sector)
  {
    var path := solver([center] + sector);
    assert |path| == |multiset(path)| == |[center] + sector|;
    assert (path + [path[0]])[..|path|] == path;
    path + [path[0]]
  }
}

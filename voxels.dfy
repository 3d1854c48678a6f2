/** tools/environment.py, class Voxel: expanding a few known voxel corners
    into the dense grid of unit voxels. The dictionary of known corners is
    a Python dict, so its keys keep their insertion order; voxel types are
    strings such as "tree" and corners are integer triples. */
module Voxels {

  datatype Point = Point(x: int, y: int, z: int)

  /** `Voxel(bottom_corner, voxel_type)`; `identity` stays `None` here. */
  datatype Voxel = Voxel(bottomCorner: Point, voxelType: string)

  /** The dictionary `known_voxels`: voxel type to the list of its corners,
      with the keys in insertion order. */
  predicate Distinct(ks: seq<string>)
  {
    forall i, j :: 0 <= i < j < |ks| ==> ks[i] != ks[j]
  }

  class VoxelDict {
    var keys: seq<string>
    var lists: map<string, seq<Point>>

    ghost predicate Valid()
      reads this
    {
      && Distinct(keys)
      && (forall k :: k in lists <==> k in keys)
    }

    constructor (keys: seq<string>, lists: map<string, seq<Point>>)
      requires Distinct(keys)
      requires forall k :: k in lists <==> k in keys
      ensures Valid() && this.keys == keys && this.lists == lists
    {
      this.keys := keys;
      this.lists := lists;
    }
  }

  /** The keys of `ks` not in `D`, in their order. */
  function Without(ks: seq<string>, D: set<string>): (r: seq<string>)
    ensures forall k :: k in r <==> k in ks && k !in D
  {
    if ks == [] then [] else if ks[0] in D then Without(ks[1..], D) else [ks[0]] + Without(ks[1..], D)
  }

  /** The keys of `ks` whose list is not empty, in their order. */
  function NonEmpty(ks: seq<string>, lists: map<string, seq<Point>>): (r: seq<string>)
    requires forall k :: k in ks ==> k in lists
    ensures forall k :: k in r <==> k in ks && lists[k] != []
  {
    if ks == [] then [] else if lists[ks[0]] == [] then NonEmpty(ks[1..], lists) else [ks[0]] + NonEmpty(ks[1..], lists)
  }

  /** Deleting one more key from what is left is deleting both. */
  lemma {:induction false} WithoutTwice(ks: seq<string>, D: set<string>, k: string)
    ensures Without(Without(ks, D), {k}) == Without(ks, D + {k})
  {
    if ks != [] {
      WithoutTwice(ks[1..], D, k);
    }
  }

  lemma {:induction false} WithoutNothing(ks: seq<string>)
    ensures Without(ks, {}) == ks
  {
    if ks != [] {
      WithoutNothing(ks[1..]);
      assert ks == [ks[0]] + ks[1..];
    }
  }

  /** Removing exactly the keys whose list is empty leaves the non-empty ones. */
  lemma {:induction false} WithoutEmpties(ks: seq<string>, lists: map<string, seq<Point>>, D: set<string>)
    requires forall k :: k in ks ==> k in lists && (k in D <==> lists[k] == [])
    ensures Without(ks, D) == NonEmpty(ks, lists)
  {
    if ks != [] {
      WithoutEmpties(ks[1..], lists, D);
    }
  }

  lemma {:induction false} WithoutDistinct(ks: seq<string>, D: set<string>)
    requires Distinct(ks)
    ensures Distinct(Without(ks, D))
  {
    if ks != [] {
      assert Distinct(ks[1..]);
      WithoutDistinct(ks[1..], D);
      var w := Without(ks[1..], D);
      assert ks[0] !in ks[1..] by {
        forall j | 0 <= j < |ks[1..]|
          ensures ks[1..][j] != ks[0]
        {
          assert ks[1..][j] == ks[j + 1];
        }
      }
      if ks[0] !in D {
        var r := [ks[0]] + w;
        forall i, j | 0 <= i < j < |r|
          ensures r[i] != r[j]
        {
          assert r[j] == w[j - 1] && r[j] in w;
          if i > 0 {
            assert r[i] == w[i - 1];
          }
        }
      }
    }
  }

  /** `delete_empty_keys(dict_obj)`: collect the keys whose list is empty, then
      delete them one by one. Afterwards exactly the keys with a non-empty
      list are left, in their old order and with their old lists. */
  method DeleteEmptyKeys(d: VoxelDict)
    requires d.Valid()
    modifies d
    ensures d.Valid()
    ensures d.keys == NonEmpty(old(d.keys), old(d.lists))
    ensures forall k :: k in d.lists <==> k in old(d.lists) && old(d.lists)[k] != []
    ensures forall k :: k in d.lists ==> d.lists[k] == old(d.lists)[k]
  {
    ghost var keys0, lists0 := d.keys, d.lists;
    var emptyKeys := EmptyKeys(d);
    ghost var removed := DeleteKeys(d, emptyKeys);
    WithoutEmpties(keys0, lists0, removed);
    WithoutDistinct(keys0, removed);
  }

  /** The first loop of `delete_empty_keys`: the keys whose list is empty. */
  method EmptyKeys(d: VoxelDict) returns (emptyKeys: seq<string>)
    requires d.Valid()
    ensures forall k :: k in emptyKeys <==> k in d.keys && d.lists[k] == []
  {
    emptyKeys := [];
    for j := 0 to |d.keys|
      invariant forall k :: k in emptyKeys <==> k in d.keys[..j] && d.lists[k] == []
    {
      if d.lists[d.keys[j]] == [] {
        emptyKeys := emptyKeys + [d.keys[j]];
      }
      assert d.keys[..j + 1] == d.keys[..j] + [d.keys[j]];
    }
    assert d.keys[..|d.keys|] == d.keys;
  }

  /** The second loop of `delete_empty_keys`: `del dict_obj[empty_key]` for
      each collected key; `removed` is the set of keys deleted. */
  method DeleteKeys(d: VoxelDict, emptyKeys: seq<string>) returns (ghost removed: set<string>)
    modifies d
    ensures forall k :: k in removed <==> k in emptyKeys
    ensures d.keys == Without(old(d.keys), removed)
    ensures d.lists == old(d.lists) - removed
  {
    ghost var keys0, lists0 := d.keys, d.lists;
    removed := {};
    WithoutNothing(keys0);
    for j := 0 to |emptyKeys|
      invariant forall k :: k in removed <==> k in emptyKeys[..j]
      invariant d.keys == Without(keys0, removed)
      invariant d.lists == lists0 - removed
    {
      var emptyKey := emptyKeys[j];
      WithoutTwice(keys0, removed, emptyKey);
      d.keys := Without(d.keys, {emptyKey});
      d.lists := d.lists - {emptyKey};
      removed := removed + {emptyKey};
      assert emptyKeys[..j + 1] == emptyKeys[..j] + [emptyKey];
    }
    assert emptyKeys[..|emptyKeys|] == emptyKeys;
  }

  /** `voxel_corners`: the lists of the keys, one after the other. */
  function Corners(ks: seq<string>, lists: map<string, seq<Point>>): seq<Point>
    requires forall k :: k in ks ==> k in lists
  {
    if ks == [] then [] else lists[ks[0]] + Corners(ks[1..], lists)
  }

  /** `types`: each key once for every corner in its list. */
  function Types(ks: seq<string>, lists: map<string, seq<Point>>): (r: seq<string>)
    requires forall k :: k in ks ==> k in lists
    ensures |r| == |Corners(ks, lists)|
  {
    if ks == [] then [] else seq(|lists[ks[0]]|, _ => ks[0]) + Types(ks[1..], lists)
  }

  lemma {:induction false} CornersSnoc(ks: seq<string>, k: string, lists: map<string, seq<Point>>)
    requires forall k' :: k' in ks + [k] ==> k' in lists
    ensures Corners(ks + [k], lists) == Corners(ks, lists) + lists[k]
  {
    if ks == [] {
      assert ks + [k] == [k];
      assert Corners([k], lists) == lists[k] + [];
    } else {
      var t := ks[1..];
      assert (ks + [k])[0] == ks[0] && (ks + [k])[1..] == t + [k];
      CornersSnoc(t, k, lists);
      assert Corners(ks + [k], lists) == lists[ks[0]] + (Corners(t, lists) + lists[k]);
    }
  }

  lemma {:induction false} TypesSnoc(ks: seq<string>, k: string, lists: map<string, seq<Point>>)
    requires forall k' :: k' in ks + [k] ==> k' in lists
    ensures Types(ks + [k], lists) == Types(ks, lists) + seq(|lists[k]|, _ => k)
  {
    if ks == [] {
      assert ks + [k] == [k];
      assert Types([k], lists) == seq(|lists[k]|, _ => k) + [];
    } else {
      var t := ks[1..];
      assert (ks + [k])[0] == ks[0] && (ks + [k])[1..] == t + [k];
      TypesSnoc(t, k, lists);
      assert Types(ks + [k], lists) == seq(|lists[ks[0]]|, _ => ks[0]) + (Types(t, lists) + seq(|lists[k]|, _ => k));
    }
  }

  /** Keys whose list is empty add nothing, so deleting them first changes
      neither list. */
  lemma {:induction false} NonEmptySameCorners(ks: seq<string>, lists: map<string, seq<Point>>,
                                              lists': map<string, seq<Point>>)
    requires forall k :: k in ks ==> k in lists
    requires forall k :: k in ks && lists[k] != [] ==> k in lists' && lists'[k] == lists[k]
    ensures Corners(NonEmpty(ks, lists), lists') == Corners(ks, lists)
    ensures Types(NonEmpty(ks, lists), lists') == Types(ks, lists)
  {
    if ks != [] {
      NonEmptySameCorners(ks[1..], lists, lists');
      if lists[ks[0]] == [] {
        assert Corners(ks, lists) == [] + Corners(ks[1..], lists);
        assert seq(|lists[ks[0]]|, _ => ks[0]) == [];
      } else {
        var r := NonEmpty(ks, lists);
        assert r[0] == ks[0] && r[1..] == NonEmpty(ks[1..], lists);
      }
    }
  }

  /** `lst.index(p)`: the first position of `p`. */
  function FirstIndex(s: seq<Point>, p: Point): (i: nat)
    requires p in s
    ensures i < |s| && s[i] == p && forall j :: 0 <= j < i ==> s[j] != p
  {
    if s[0] == p then 0 else 1 + FirstIndex(s[1..], p)
  }

  /** The type `create_voxels` gives the point: that of its first occurrence
      among the known corners, otherwise "free space". */
  function TypeOf(corners: seq<Point>, types: seq<string>, p: Point): string
    requires |types| == |corners|
  {
    if p in corners then types[FirstIndex(corners, p)] else "free space"
  }

  /** The first key, in dictionary order, whose list holds `p`, or "free
      space" when none does. */
  function FirstKeyHolding(ks: seq<string>, lists: map<string, seq<Point>>, p: Point): string
    requires forall k :: k in ks ==> k in lists
  {
    if ks == [] then "free space" else if p in lists[ks[0]] then ks[0] else FirstKeyHolding(ks[1..], lists, p)
  }

  lemma TypeOfAppend(A: seq<Point>, B: seq<Point>, TA: seq<string>, TB: seq<string>, p: Point)
    requires |TA| == |A| && |TB| == |B|
    ensures TypeOf(A + B, TA + TB, p) == if p in A then TypeOf(A, TA, p) else TypeOf(B, TB, p)
  {
    if p in A {
      var i := FirstIndex(A, p);
      assert (A + B)[i] == p;
      var i' := FirstIndex(A + B, p);
      assert i' == i;
    } else if p in B {
      var i := FirstIndex(B, p);
      assert (A + B)[|A| + i] == p;
      var i' := FirstIndex(A + B, p);
      assert forall j :: 0 <= j < |A| ==> (A + B)[j] == A[j];
      assert forall j :: 0 <= j < i ==> (A + B)[|A| + j] == B[j];
    }
  }

  /** A voxel's type is the first key, in dictionary order, whose list holds
      its corner. */
  lemma {:induction false} TypeIsFirstKey(ks: seq<string>, lists: map<string, seq<Point>>, p: Point)
    requires forall k :: k in ks ==> k in lists
    ensures TypeOf(Corners(ks, lists), Types(ks, lists), p) == FirstKeyHolding(ks, lists, p)
  {
    if ks != [] {
      TypeIsFirstKey(ks[1..], lists, p);
      var A, TA := lists[ks[0]], seq(|lists[ks[0]]|, _ => ks[0]);
      TypeOfAppend(A, Corners(ks[1..], lists), TA, Types(ks[1..], lists), p);
      if p in A {
        assert TA[FirstIndex(A, p)] == ks[0];
      }
    }
  }

  /** `Voxel(bottom_corner=[x, y, z], voxel_type=...)` of the grid. */
  function VoxelAt(corners: seq<Point>, types: seq<string>, x: int, y: int, z: int): Voxel
    requires |types| == |corners|
  {
    Voxel(Point(x, y, z), TypeOf(corners, types, Point(x, y, z)))
  }

  /** The innermost loop: `x` in `range(nx)`. */
  function Row(corners: seq<Point>, types: seq<string>, y: int, z: int, nx: int): (r: seq<Voxel>)
    requires |types| == |corners|
    ensures |r| == if nx < 0 then 0 else nx
    decreases nx
  {
    if nx <= 0 then [] else Row(corners, types, y, z, nx - 1) + [VoxelAt(corners, types, nx - 1, y, z)]
  }

  /** The middle loop: `y` in `range(ny)`. */
  function Layer(corners: seq<Point>, types: seq<string>, z: int, ny: int, nx: int): seq<Voxel>
    requires |types| == |corners|
    decreases ny
  {
    if ny <= 0 then [] else Layer(corners, types, z, ny - 1, nx) + Row(corners, types, ny - 1, z, nx)
  }

  /** The outer loop: `z` in `range(nz)`. */
  function Grid(corners: seq<Point>, types: seq<string>, nz: int, ny: int, nx: int): seq<Voxel>
    requires |types| == |corners|
    decreases nz
  {
    if nz <= 0 then [] else Grid(corners, types, nz - 1, ny, nx) + Layer(corners, types, nz - 1, ny, nx)
  }

  /** The innermost loop appends the row of `y` and `z` to `expanded`. */
  method AppendRow(expanded0: seq<Voxel>, corners: seq<Point>, types: seq<string>, y: int, z: int, nx: int)
    returns (expanded: seq<Voxel>)
    requires |types| == |corners|
    ensures expanded == expanded0 + Row(corners, types, y, z, nx)
  {
    expanded := expanded0;
    var x := 0;
    while x < nx
      invariant 0 <= x <= (if nx < 0 then 0 else nx)
      invariant expanded == expanded0 + Row(corners, types, y, z, x)
    {
      var point := Point(x, y, z);
      if point in corners {
        expanded := expanded + [Voxel(point, types[FirstIndex(corners, point)])];
      } else {
        expanded := expanded + [Voxel(point, "free space")];
      }
      assert Row(corners, types, y, z, x + 1) == Row(corners, types, y, z, x) + [VoxelAt(corners, types, x, y, z)];
      x := x + 1;
    }
    assert Row(corners, types, y, z, x) == Row(corners, types, y, z, nx);
  }

  /** The middle loop appends the layer of `z` to `expanded`. */
  method AppendLayer(expanded0: seq<Voxel>, corners: seq<Point>, types: seq<string>, z: int, ny: int, nx: int)
    returns (expanded: seq<Voxel>)
    requires |types| == |corners|
    ensures expanded == expanded0 + Layer(corners, types, z, ny, nx)
  {
    expanded := expanded0;
    var y := 0;
    while y < ny
      invariant 0 <= y <= (if ny < 0 then 0 else ny)
      invariant expanded == expanded0 + Layer(corners, types, z, y, nx)
    {
      expanded := AppendRow(expanded, corners, types, y, z, nx);
      assert Layer(corners, types, z, y + 1, nx) == Layer(corners, types, z, y, nx) + Row(corners, types, y, z, nx);
      y := y + 1;
    }
    assert Layer(corners, types, z, y, nx) == Layer(corners, types, z, ny, nx);
  }

  /** The two loops over the dictionary items build `voxel_corners` and
      `types` side by side. */
  method CollectCorners(d: VoxelDict) returns (corners: seq<Point>, types: seq<string>)
    requires d.Valid()
    ensures corners == Corners(d.keys, d.lists) && types == Types(d.keys, d.lists)
  {
    corners, types := [], [];
    for j := 0 to |d.keys|
      invariant corners == Corners(d.keys[..j], d.lists) && types == Types(d.keys[..j], d.lists)
    {
      var key := d.keys[j];
      var values := d.lists[key];
      ghost var corners0, types0 := corners, types;
      for t := 0 to |values|
        invariant corners == corners0 + values[..t] && types == types0 + seq(t, _ => key)
      {
        corners := corners + [values[t]];
        types := types + [key];
        assert values[..t + 1] == values[..t] + [values[t]];
      }
      assert values[..|values|] == values;
      assert d.keys[..j + 1] == d.keys[..j] + [key];
      CornersSnoc(d.keys[..j], key, d.lists);
      TypesSnoc(d.keys[..j], key, d.lists);
    }
    assert d.keys[..|d.keys|] == d.keys;
  }

  /** `create_voxels(known_voxels, specs)`: delete the empty keys of the
      dictionary, then list one voxel per point of
      `[0, x_max] x [0, y_max] x [0, z_max]` in z, y, x order, each with the
      type its corner has in the dictionary. The deletion changes the
      dictionary but not the voxels. */
  method CreateVoxels(known: VoxelDict, xMax: int, yMax: int, zMax: int) returns (expanded: seq<Voxel>)
    requires known.Valid()
    modifies known
    ensures known.Valid()
    ensures known.keys == NonEmpty(old(known.keys), old(known.lists))
    ensures forall k :: k in known.lists <==> k in old(known.lists) && old(known.lists)[k] != []
    ensures forall k :: k in known.lists ==> known.lists[k] == old(known.lists)[k]
    ensures expanded == Grid(Corners(old(known.keys), old(known.lists)), Types(old(known.keys), old(known.lists)),
                             zMax + 1, yMax + 1, xMax + 1)
  {
    DeleteEmptyKeys(known);
    NonEmptySameCorners(old(known.keys), old(known.lists), known.lists);
    var corners, types := CollectCorners(known);
    expanded := Expand(corners, types, xMax, yMax, zMax);
  }

  /** The three nested loops of `create_voxels`, `z` outermost. */
  method Expand(corners: seq<Point>, types: seq<string>, xMax: int, yMax: int, zMax: int) returns (expanded: seq<Voxel>)
    requires |types| == |corners|
    ensures expanded == Grid(corners, types, zMax + 1, yMax + 1, xMax + 1)
  {
    expanded := [];
    var z := 0;
    while z < zMax + 1
      invariant 0 <= z <= (if zMax + 1 < 0 then 0 else zMax + 1)
      invariant expanded == Grid(corners, types, z, yMax + 1, xMax + 1)
    {
      expanded := AppendLayer(expanded, corners, types, z, yMax + 1, xMax + 1);
      z := z + 1;
    }
    assert Grid(corners, types, z, yMax + 1, xMax + 1) == Grid(corners, types, zMax + 1, yMax + 1, xMax + 1);
  }

  /** `range(n)` has `max(n, 0)` elements. */
  function Count(n: int): nat
  {
    if n < 0 then 0 else n
  }

  lemma {:induction false} LayerCount(corners: seq<Point>, types: seq<string>, z: int, ny: int, nx: int)
    requires |types| == |corners|
    ensures |Layer(corners, types, z, ny, nx)| == Count(ny) * Count(nx)
    decreases ny
  {
    if ny > 0 {
      LayerCount(corners, types, z, ny - 1, nx);
      assert Count(ny) == (ny - 1) + 1 && Count(ny - 1) == ny - 1;
      MulSucc(ny - 1, Count(nx));
    }
  }

  /** The grid has `(x_max+1)(y_max+1)(z_max+1)` voxels (none when a bound is
      negative). */
  lemma {:induction false} GridCount(corners: seq<Point>, types: seq<string>, nz: int, ny: int, nx: int)
    requires |types| == |corners|
    ensures |Grid(corners, types, nz, ny, nx)| == Count(nz) * (Count(ny) * Count(nx))
    decreases nz
  {
    if nz > 0 {
      GridCount(corners, types, nz - 1, ny, nx);
      LayerCount(corners, types, nz - 1, ny, nx);
      assert Count(nz) == (nz - 1) + 1 && Count(nz - 1) == nz - 1;
      MulSucc(nz - 1, Count(ny) * Count(nx));
    }
  }

  lemma MulSucc(n: int, m: int)
    ensures (n + 1) * m == n * m + m
  {
  }

  lemma MulBelow(q: int, n: int, r: int, m: int)
    requires 0 <= q < n && 0 <= r < m
    ensures q * m + r < n * m
  {
    MulSucc(q, m);
    MulLe(q + 1, n, m);
  }

  lemma MulLe(a: int, b: int, m: int)
    requires a <= b && m >= 0
    ensures a * m <= b * m
  {
    assert b * m == a * m + (b - a) * m;
  }

  lemma {:induction false} RowIndex(corners: seq<Point>, types: seq<string>, y: int, z: int, nx: int, x: int)
    requires |types| == |corners| && 0 <= x < nx
    ensures Row(corners, types, y, z, nx)[x] == VoxelAt(corners, types, x, y, z)
    decreases nx
  {
    if x < nx - 1 {
      RowIndex(corners, types, y, z, nx - 1, x);
    }
  }

  lemma {:induction false} LayerIndex(corners: seq<Point>, types: seq<string>, z: int, ny: int, nx: int, x: int, y: int)
    requires |types| == |corners| && 0 <= x < nx && 0 <= y < ny
    ensures y * nx + x < |Layer(corners, types, z, ny, nx)|
    ensures Layer(corners, types, z, ny, nx)[y * nx + x] == VoxelAt(corners, types, x, y, z)
    decreases ny
  {
    LayerCount(corners, types, z, ny - 1, nx);
    LayerCount(corners, types, z, ny, nx);
    assert Count(ny) == ny && Count(ny - 1) == ny - 1 && Count(nx) == nx;
    MulBelow(y, ny, x, nx);
    var L := Layer(corners, types, z, ny - 1, nx);
    if y < ny - 1 {
      MulBelow(y, ny - 1, x, nx);
      LayerIndex(corners, types, z, ny - 1, nx, x, y);
    } else {
      RowIndex(corners, types, y, z, nx, x);
    }
  }

  /** Position `z*m + off` of the grid is position `off` of layer `z`, where
      `m` is the size of a layer. */
  lemma {:induction false} GridLayerIndex(corners: seq<Point>, types: seq<string>, nz: int, ny: int, nx: int,
                                          z: int, off: int)
    requires |types| == |corners| && 0 <= z < nz && 0 <= off < Count(ny) * Count(nx)
    ensures off < |Layer(corners, types, z, ny, nx)|
    ensures z * (Count(ny) * Count(nx)) + off < |Grid(corners, types, nz, ny, nx)|
    ensures Grid(corners, types, nz, ny, nx)[z * (Count(ny) * Count(nx)) + off] == Layer(corners, types, z, ny, nx)[off]
    decreases nz
  {
    var m := Count(ny) * Count(nx);
    GridCount(corners, types, nz - 1, ny, nx);
    GridCount(corners, types, nz, ny, nx);
    LayerCount(corners, types, z, ny, nx);
    assert Count(nz) == nz && Count(nz - 1) == nz - 1;
    MulBelow(z, nz, off, m);
    if z < nz - 1 {
      MulBelow(z, nz - 1, off, m);
      GridLayerIndex(corners, types, nz - 1, ny, nx, z, off);
    }
  }

  lemma Position(z: int, y: int, x: int, ny: int, nx: int)
    ensures (z * ny + y) * nx + x == z * (ny * nx) + (y * nx + x)
  {
  }

  /** The voxel of `[x, y, z]` sits at position `(z*(y_max+1) + y)*(x_max+1) + x`:
      z is the outer loop and x the inner one. */
  lemma GridIndex(corners: seq<Point>, types: seq<string>, nz: int, ny: int, nx: int, x: int, y: int, z: int)
    requires |types| == |corners| && 0 <= x < nx && 0 <= y < ny && 0 <= z < nz
    ensures (z * ny + y) * nx + x < |Grid(corners, types, nz, ny, nx)|
    ensures Grid(corners, types, nz, ny, nx)[(z * ny + y) * nx + x] == VoxelAt(corners, types, x, y, z)
  {
    assert Count(ny) == ny && Count(nx) == nx;
    LayerIndex(corners, types, z, ny, nx, x, y);
    LayerCount(corners, types, z, ny, nx);
    GridLayerIndex(corners, types, nz, ny, nx, z, y * nx + x);
    Position(z, y, x, ny, nx);
  }

  /** What `create_voxels` returns, voxel by voxel: the voxel of `[x, y, z]`
      in `[0, x_max] x [0, y_max] x [0, z_max]` sits at position
      `(z*(y_max+1) + y)*(x_max+1) + x` and has the type of the first key, in
      dictionary order, whose list holds `[x, y, z]`, or "free space". */
  lemma ExpandedVoxel(keys: seq<string>, lists: map<string, seq<Point>>, xMax: int, yMax: int, zMax: int,
                      x: int, y: int, z: int)
    requires forall k :: k in keys ==> k in lists
    requires 0 <= x <= xMax && 0 <= y <= yMax && 0 <= z <= zMax
    ensures var G := Grid(Corners(keys, lists), Types(keys, lists), zMax + 1, yMax + 1, xMax + 1);
      var i := (z * (yMax + 1) + y) * (xMax + 1) + x;
      i < |G| && G[i] == Voxel(Point(x, y, z), FirstKeyHolding(keys, lists, Point(x, y, z)))
  {
    GridIndex(Corners(keys, lists), Types(keys, lists), zMax + 1, yMax + 1, xMax + 1, x, y, z);
    TypeIsFirstKey(keys, lists, Point(x, y, z));
  }
}

/** tools/paper_algorithms.py: the rectangle tiling of Algorithm 1 of
    Seyedi, Yazicioglu and Aksaray ("Persistent surveillance with
    energy-constrained UAVs and mobile charging stations"), the UAV energy
    test and the vehicle speed rule. Sizes and coordinates are integers;
    `math.ceil(x / a)` is the exact ceiling of the rational quotient. */
module PaperAlgorithms {

  /** `[[x0, x1], [y0, y1]]`: a rectangle of the environment. */
  datatype Rect = Rect(x0: int, x1: int, y0: int, y1: int)

  /** `[[x0, x1], [y0, y1], tag, weight]`: a rectangle with the two trailing
      plotting fields of the paper version. */
  datatype Tagged = Tagged(rect: Rect, tag: int, weight: real)

  lemma MulMonotone(k: int, m: int, a: int)
    requires k <= m && a >= 0
    ensures k * a <= m * a
  {
    assert m * a == k * a + (m - k) * a;
  }

  /** `math.ceil(x / a)` for a positive `a`: the least `c` with `x <= c * a`. */
  function CeilDiv(x: int, a: int): (c: int)
    requires a >= 1
    ensures (c - 1) * a < x <= c * a
  {
    var q := (-x) / a;
    assert -x == q * a + (-x) % a;
    assert (-q) * a == -(q * a) && (-q - 1) * a == -(q * a) - a;
    -q
  }

  /** The ceiling is the only integer meeting both bounds. */
  lemma CeilDivUnique(x: int, a: int, c: int)
    requires a >= 1 && (c - 1) * a < x <= c * a
    ensures c == CeilDiv(x, a)
  {
    var d := CeilDiv(x, a);
    if c < d {
      MulMonotone(c, d - 1, a);
    } else if c > d {
      MulMonotone(d, c - 1, a);
    }
  }

  /** The interior rectangle `[[(k1-1)*a1, k1*a1], [(k2-1)*a2, k2*a2]]`. */
  function Cell(a1: int, a2: int, k1: int, k2: int): Rect
  {
    Rect((k1 - 1) * a1, k1 * a1, (k2 - 1) * a2, k2 * a2)
  }

  /** The inner loop for column `k1`: `Cell(k1, k2)` for `k2` in `range(1, n)`. */
  function ColumnCells(a1: int, a2: int, k1: int, n: int): (r: seq<Rect>)
    ensures |r| == if n <= 1 then 0 else n - 1
    decreases n
  {
    if n <= 1 then [] else ColumnCells(a1, a2, k1, n - 1) + [Cell(a1, a2, k1, n - 1)]
  }

  /** The nested loops: the columns `k1` in `range(1, n1)`, one after the other. */
  function InteriorCells(a1: int, a2: int, n1: int, n2: int): seq<Rect>
    decreases n1
  {
    if n1 <= 1 then [] else InteriorCells(a1, a2, n1 - 1, n2) + ColumnCells(a1, a2, n1 - 1, n2)
  }

  /** The rectangle `[[x-a1, x], [(k-1)*a2, k*a2]]` of the right column. */
  function RightCell(a1: int, a2: int, x: int, k: int): Rect
  {
    Rect(x - a1, x, (k - 1) * a2, k * a2)
  }

  /** The second loop: `RightCell(k)` for `k` in `range(1, n)`. */
  function RightColumn(a1: int, a2: int, x: int, n: int): (r: seq<Rect>)
    ensures |r| == if n <= 1 then 0 else n - 1
    decreases n
  {
    if n <= 1 then [] else RightColumn(a1, a2, x, n - 1) + [RightCell(a1, a2, x, n - 1)]
  }

  /** The rectangle `[[(k-1)*a1, k*a1], [y-a2, y]]` of the top row. */
  function TopCell(a1: int, a2: int, y: int, k: int): Rect
  {
    Rect((k - 1) * a1, k * a1, y - a2, y)
  }

  /** The third loop: `TopCell(k)` for `k` in `range(1, n)`. */
  function TopRow(a1: int, a2: int, y: int, n: int): (r: seq<Rect>)
    ensures |r| == if n <= 1 then 0 else n - 1
    decreases n
  {
    if n <= 1 then [] else TopRow(a1, a2, y, n - 1) + [TopCell(a1, a2, y, n - 1)]
  }

  /** The last rectangle, `[[x-a1, x], [y-a2, y]]`. */
  function Corner(a1: int, a2: int, x: int, y: int): Rect
  {
    Rect(x - a1, x, y - a2, y)
  }

  /** The rectangles `partitioning` lists, in order, without their tags. */
  function Tiling(a1: int, a2: int, x: int, y: int): seq<Rect>
    requires a1 >= 1 && a2 >= 1
  {
    var n1, n2 := CeilDiv(x, a1), CeilDiv(y, a2);
    InteriorCells(a1, a2, n1, n2) + RightColumn(a1, a2, x, n2) + TopRow(a1, a2, y, n1) + [Corner(a1, a2, x, y)]
  }

  /** The rectangles `Cell(k1, k2)` of column `k1` are those with `1 <= k2 < n`. */
  lemma {:induction false} ColumnCellsMembers(a1: int, a2: int, k1: int, n: int)
    ensures forall k2 :: 1 <= k2 < n ==> Cell(a1, a2, k1, k2) in ColumnCells(a1, a2, k1, n)
    ensures forall r :: r in ColumnCells(a1, a2, k1, n) ==> exists k2 :: 1 <= k2 < n && r == Cell(a1, a2, k1, k2)
    decreases n
  {
    if n > 1 {
      ColumnCellsMembers(a1, a2, k1, n - 1);
    }
  }

  /** The interior is the grid of `Cell(k1, k2)` with `1 <= k1 < n1`, `1 <= k2 < n2`. */
  lemma {:induction false} InteriorCellsMembers(a1: int, a2: int, n1: int, n2: int)
    ensures forall k1, k2 :: 1 <= k1 < n1 && 1 <= k2 < n2 ==> Cell(a1, a2, k1, k2) in InteriorCells(a1, a2, n1, n2)
    ensures forall r :: r in InteriorCells(a1, a2, n1, n2) ==>
              exists k1, k2 :: 1 <= k1 < n1 && 1 <= k2 < n2 && r == Cell(a1, a2, k1, k2)
    decreases n1
  {
    if n1 > 1 {
      InteriorCellsMembers(a1, a2, n1 - 1, n2);
      ColumnCellsMembers(a1, a2, n1 - 1, n2);
    }
  }

  /** The right column holds `RightCell(k)` for exactly the `k` with `1 <= k < n`. */
  lemma {:induction false} RightColumnMembers(a1: int, a2: int, x: int, n: int)
    ensures forall k :: 1 <= k < n ==> RightCell(a1, a2, x, k) in RightColumn(a1, a2, x, n)
    ensures forall r :: r in RightColumn(a1, a2, x, n) ==> exists k :: 1 <= k < n && r == RightCell(a1, a2, x, k)
    decreases n
  {
    if n > 1 {
      RightColumnMembers(a1, a2, x, n - 1);
    }
  }

  /** The top row holds `TopCell(k)` for exactly the `k` with `1 <= k < n`. */
  lemma {:induction false} TopRowMembers(a1: int, a2: int, y: int, n: int)
    ensures forall k :: 1 <= k < n ==> TopCell(a1, a2, y, k) in TopRow(a1, a2, y, n)
    ensures forall r :: r in TopRow(a1, a2, y, n) ==> exists k :: 1 <= k < n && r == TopCell(a1, a2, y, k)
    decreases n
  {
    if n > 1 {
      TopRowMembers(a1, a2, y, n - 1);
    }
  }

  lemma CeilDivPositive(x: int, a: int)
    requires a >= 1 && x >= 1
    ensures CeilDiv(x, a) >= 1
  {
    var c := CeilDiv(x, a);
    if c <= 0 {
      MulMonotone(c, 0, a);
    }
  }

  lemma {:induction false} InteriorCount(a1: int, a2: int, n1: int, n2: int)
    requires n1 >= 1 && n2 >= 1
    ensures |InteriorCells(a1, a2, n1, n2)| == (n1 - 1) * (n2 - 1)
    decreases n1
  {
    if n1 > 1 {
      InteriorCount(a1, a2, n1 - 1, n2);
      assert (n1 - 1) * (n2 - 1) == (n1 - 2) * (n2 - 1) + (n2 - 1);
    }
  }

  /** `partitioning` lists exactly `ceil(x/a1) * ceil(y/a2)` rectangles. */
  lemma TilingCount(a1: int, a2: int, x: int, y: int)
    requires a1 >= 1 && a2 >= 1 && x >= 1 && y >= 1
    ensures |Tiling(a1, a2, x, y)| == CeilDiv(x, a1) * CeilDiv(y, a2)
  {
    var n1, n2 := CeilDiv(x, a1), CeilDiv(y, a2);
    CeilDivPositive(x, a1);
    CeilDivPositive(y, a2);
    InteriorCount(a1, a2, n1, n2);
    assert |Tiling(a1, a2, x, y)| == (n1 - 1) * (n2 - 1) + (n2 - 1) + (n1 - 1) + 1;
    GridCount(n1, n2);
  }

  lemma GridCount(n1: int, n2: int)
    ensures (n1 - 1) * (n2 - 1) + (n2 - 1) + (n1 - 1) + 1 == n1 * n2
  {
    assert (n1 - 1) * (n2 - 1) == n1 * n2 - n1 - n2 + 1;
  }

  /** Which list of the tiling a rectangle comes from. */
  lemma TilingMembers(a1: int, a2: int, x: int, y: int, r: Rect)
    requires a1 >= 1 && a2 >= 1
    ensures r in Tiling(a1, a2, x, y) <==>
      r in InteriorCells(a1, a2, CeilDiv(x, a1), CeilDiv(y, a2)) || r in RightColumn(a1, a2, x, CeilDiv(y, a2))
      || r in TopRow(a1, a2, y, CeilDiv(x, a1)) || r == Corner(a1, a2, x, y)
  {
  }

  /** `[[x0, x1], [y0, y1]]` is `a1` wide and `a2` high. */
  predicate HasSize(r: Rect, a1: int, a2: int)
  {
    r.x1 - r.x0 == a1 && r.y1 - r.y0 == a2
  }

  lemma CellSize(a1: int, a2: int, k1: int, k2: int)
    ensures HasSize(Cell(a1, a2, k1, k2), a1, a2)
  {
    assert k1 * a1 - (k1 - 1) * a1 == a1;
    assert k2 * a2 - (k2 - 1) * a2 == a2;
  }

  /** Every rectangle of the tiling is `a1` wide and `a2` high. */
  lemma TilingSizes(a1: int, a2: int, x: int, y: int)
    requires a1 >= 1 && a2 >= 1
    ensures forall r :: r in Tiling(a1, a2, x, y) ==> HasSize(r, a1, a2)
  {
    var n1, n2 := CeilDiv(x, a1), CeilDiv(y, a2);
    InteriorCellsMembers(a1, a2, n1, n2);
    RightColumnMembers(a1, a2, x, n2);
    TopRowMembers(a1, a2, y, n1);
    forall r | r in Tiling(a1, a2, x, y)
      ensures HasSize(r, a1, a2)
    {
      TilingMembers(a1, a2, x, y, r);
      if r in InteriorCells(a1, a2, n1, n2) {
        var k1, k2 :| 1 <= k1 < n1 && 1 <= k2 < n2 && r == Cell(a1, a2, k1, k2);
        CellSize(a1, a2, k1, k2);
      } else if r in RightColumn(a1, a2, x, n2) {
        var k :| 1 <= k < n2 && r == RightCell(a1, a2, x, k);
        assert k * a2 - (k - 1) * a2 == a2;
      } else if r in TopRow(a1, a2, y, n1) {
        var k :| 1 <= k < n1 && r == TopCell(a1, a2, y, k);
        assert k * a1 - (k - 1) * a1 == a1;
      }
    }
  }

  /** `[[x0, x1], [y0, y1]]` lies in the environment `[0, x] x [0, y]`. */
  predicate Inside(r: Rect, x: int, y: int)
  {
    0 <= r.x0 && r.x1 <= x && 0 <= r.y0 && r.y1 <= y
  }

  /** Band `k` of `[0, x]` (`(k-1)*a`, `k*a`) with `k < ceil(x/a)` ends before `x`. */
  lemma BandInside(a: int, x: int, k: int)
    requires a >= 1 && 1 <= k < CeilDiv(x, a)
    ensures 0 <= (k - 1) * a && k * a < x
  {
    MulMonotone(0, k - 1, a);
    MulMonotone(k, CeilDiv(x, a) - 1, a);
  }

  /** With `1 <= a1 <= x` and `1 <= a2 <= y` no rectangle leaves the environment. */
  lemma TilingInside(a1: int, a2: int, x: int, y: int)
    requires 1 <= a1 <= x && 1 <= a2 <= y
    ensures forall r :: r in Tiling(a1, a2, x, y) ==> Inside(r, x, y)
  {
    var n1, n2 := CeilDiv(x, a1), CeilDiv(y, a2);
    InteriorCellsMembers(a1, a2, n1, n2);
    RightColumnMembers(a1, a2, x, n2);
    TopRowMembers(a1, a2, y, n1);
    forall r | r in Tiling(a1, a2, x, y)
      ensures Inside(r, x, y)
    {
      TilingMembers(a1, a2, x, y, r);
      if r in InteriorCells(a1, a2, n1, n2) {
        var k1, k2 :| 1 <= k1 < n1 && 1 <= k2 < n2 && r == Cell(a1, a2, k1, k2);
        BandInside(a1, x, k1);
        BandInside(a2, y, k2);
      } else if r in RightColumn(a1, a2, x, n2) {
        var k :| 1 <= k < n2 && r == RightCell(a1, a2, x, k);
        BandInside(a2, y, k);
      } else if r in TopRow(a1, a2, y, n1) {
        var k :| 1 <= k < n1 && r == TopCell(a1, a2, y, k);
        BandInside(a1, x, k);
      }
    }
  }

  /** The unit square `[i, i+1] x [j, j+1]` lies in the rectangle. */
  predicate Covers(r: Rect, i: int, j: int)
  {
    r.x0 <= i && i + 1 <= r.x1 && r.y0 <= j && j + 1 <= r.y1
  }

  /** A point `i` of `[0, x)` falls in band `k` (`k < ceil(x/a)`) or, past
      the last full band, in the remainder band `[x-a, x]`. */
  lemma Band(i: int, a: int, x: int) returns (k: int)
    requires a >= 1 && 0 <= i < x
    ensures 1 <= k <= CeilDiv(x, a)
    ensures k < CeilDiv(x, a) ==> (k - 1) * a <= i && i + 1 <= k * a
    ensures k == CeilDiv(x, a) ==> x - a <= i
  {
    var n := CeilDiv(x, a);
    if i < (n - 1) * a {
      k := i / a + 1;
      assert i == (i / a) * a + i % a;
      assert k * a == (i / a) * a + a;
      if k >= n {
        MulMonotone(n - 1, k - 1, a);
      }
    } else {
      k := n;
      assert n * a == (n - 1) * a + a;
    }
  }

  /** No gaps: every unit square of `[0, x] x [0, y]` lies in some rectangle. */
  lemma TilingCovers(a1: int, a2: int, x: int, y: int, i: int, j: int)
    requires a1 >= 1 && a2 >= 1 && 0 <= i < x && 0 <= j < y
    ensures exists r :: r in Tiling(a1, a2, x, y) && Covers(r, i, j)
  {
    var n1, n2 := CeilDiv(x, a1), CeilDiv(y, a2);
    var k1 := Band(i, a1, x);
    var k2 := Band(j, a2, y);
    var r;
    if k1 < n1 && k2 < n2 {
      InteriorCellsMembers(a1, a2, n1, n2);
      r := Cell(a1, a2, k1, k2);
    } else if k2 < n2 {
      RightColumnMembers(a1, a2, x, n2);
      r := RightCell(a1, a2, x, k2);
    } else if k1 < n1 {
      TopRowMembers(a1, a2, y, n1);
      r := TopCell(a1, a2, y, k1);
    } else {
      r := Corner(a1, a2, x, y);
    }
    TilingMembers(a1, a2, x, y, r);
    assert Covers(r, i, j);
  }

  /** The interiors of the two rectangles do not meet. */
  predicate Disjoint(r: Rect, q: Rect)
  {
    r.x1 <= q.x0 || q.x1 <= r.x0 || r.y1 <= q.y0 || q.y1 <= r.y0
  }

  predicate PairwiseDisjoint(rs: seq<Rect>)
  {
    forall s, t :: 0 <= s < t < |rs| ==> Disjoint(rs[s], rs[t])
  }

  lemma DisjointConcat(A: seq<Rect>, B: seq<Rect>)
    requires PairwiseDisjoint(A) && PairwiseDisjoint(B)
    requires forall a, b :: a in A && b in B ==> Disjoint(a, b)
    ensures PairwiseDisjoint(A + B)
  {
    forall s, t | 0 <= s < t < |A + B|
      ensures Disjoint((A + B)[s], (A + B)[t])
    {
      if t < |A| {
        assert (A + B)[s] == A[s] && (A + B)[t] == A[t];
      } else if s >= |A| {
        assert (A + B)[s] == B[s - |A|] && (A + B)[t] == B[t - |A|];
      } else {
        assert (A + B)[s] in A && (A + B)[t] in B;
      }
    }
  }

  lemma {:induction false} ColumnDisjoint(a1: int, a2: int, k1: int, n: int)
    requires a2 >= 1
    ensures PairwiseDisjoint(ColumnCells(a1, a2, k1, n))
    decreases n
  {
    if n > 1 {
      ColumnDisjoint(a1, a2, k1, n - 1);
      ColumnCellsMembers(a1, a2, k1, n - 1);
      var last := Cell(a1, a2, k1, n - 1);
      forall a, b | a in ColumnCells(a1, a2, k1, n - 1) && b in [last]
        ensures Disjoint(a, b)
      {
        var k2 :| 1 <= k2 < n - 1 && a == Cell(a1, a2, k1, k2);
        MulMonotone(k2, n - 2, a2);
      }
      DisjointConcat(ColumnCells(a1, a2, k1, n - 1), [last]);
    }
  }

  /** The interior rectangles `[[(k1-1)*a1, k1*a1], [(k2-1)*a2, k2*a2]]` do not
      overlap one another. */
  lemma {:induction false} InteriorDisjoint(a1: int, a2: int, n1: int, n2: int)
    requires a1 >= 1 && a2 >= 1
    ensures PairwiseDisjoint(InteriorCells(a1, a2, n1, n2))
    decreases n1
  {
    if n1 > 1 {
      InteriorDisjoint(a1, a2, n1 - 1, n2);
      ColumnDisjoint(a1, a2, n1 - 1, n2);
      InteriorCellsMembers(a1, a2, n1 - 1, n2);
      ColumnCellsMembers(a1, a2, n1 - 1, n2);
      forall a, b | a in InteriorCells(a1, a2, n1 - 1, n2) && b in ColumnCells(a1, a2, n1 - 1, n2)
        ensures Disjoint(a, b)
      {
        var k1, k2 :| 1 <= k1 < n1 - 1 && 1 <= k2 < n2 && a == Cell(a1, a2, k1, k2);
        MulMonotone(k1, n1 - 2, a1);
      }
      DisjointConcat(InteriorCells(a1, a2, n1 - 1, n2), ColumnCells(a1, a2, n1 - 1, n2));
    }
  }

  /** Every rectangle of a list with the same two trailing fields. */
  function TagAll(rs: seq<Rect>, tag: int, weight: real): (r: seq<Tagged>)
    ensures |r| == |rs|
  {
    if rs == [] then [] else TagAll(rs[..|rs| - 1], tag, weight) + [Tagged(rs[|rs| - 1], tag, weight)]
  }

  lemma TagAllSnoc(rs: seq<Rect>, r: Rect, tag: int, weight: real)
    ensures TagAll(rs + [r], tag, weight) == TagAll(rs, tag, weight) + [Tagged(r, tag, weight)]
  {
    assert (rs + [r])[..|rs|] == rs;
  }

  lemma TagAllAppend(rs: seq<Rect>, qs: seq<Rect>, tag: int, weight: real)
    ensures TagAll(rs + qs, tag, weight) == TagAll(rs, tag, weight) + TagAll(qs, tag, weight)
    decreases |qs|
  {
    if qs != [] {
      var q := qs[..|qs| - 1];
      assert rs + qs == (rs + q) + [qs[|qs| - 1]];
      TagAllSnoc(rs + q, qs[|qs| - 1], tag, weight);
      TagAllAppend(rs, q, tag, weight);
    } else {
      assert rs + qs == rs;
    }
  }

  /** Each rectangle keeps its place and gets the two fields. */
  lemma {:induction false} TagAllAt(rs: seq<Rect>, tag: int, weight: real, t: int)
    requires 0 <= t < |rs|
    ensures TagAll(rs, tag, weight)[t] == Tagged(rs[t], tag, weight)
    decreases |rs|
  {
    if t < |rs| - 1 {
      TagAllAt(rs[..|rs| - 1], tag, weight, t);
    }
  }

  /** The list with the trailing fields dropped. */
  function Untag(ts: seq<Tagged>): (r: seq<Rect>)
    ensures |r| == |ts|
    ensures forall t :: 0 <= t < |r| ==> r[t] == ts[t].rect
  {
    if ts == [] then [] else Untag(ts[..|ts| - 1]) + [ts[|ts| - 1].rect]
  }

  /** What the paper version returns: the interior tagged 9 / 0.8, the right
      column 6 / 1, the top row 3 / 0.8 and the corner 0 / 1. */
  function TaggedTiling(a1: int, a2: int, x: int, y: int): seq<Tagged>
    requires a1 >= 1 && a2 >= 1
  {
    var n1, n2 := CeilDiv(x, a1), CeilDiv(y, a2);
    TagAll(InteriorCells(a1, a2, n1, n2), 9, 0.8) + TagAll(RightColumn(a1, a2, x, n2), 6, 1.0)
      + TagAll(TopRow(a1, a2, y, n1), 3, 0.8) + [Tagged(Corner(a1, a2, x, y), 0, 1.0)]
  }

  lemma UntagAppend(A: seq<Tagged>, B: seq<Tagged>)
    ensures Untag(A + B) == Untag(A) + Untag(B)
  {
    assert forall t :: 0 <= t < |A + B| ==> Untag(A + B)[t] == (Untag(A) + Untag(B))[t];
  }

  /** Dropping the fields undoes adding them. */
  lemma UntagTagAll(rs: seq<Rect>, tag: int, weight: real)
    ensures Untag(TagAll(rs, tag, weight)) == rs
  {
    forall t | 0 <= t < |rs|
      ensures Untag(TagAll(rs, tag, weight))[t] == rs[t]
    {
      TagAllAt(rs, tag, weight, t);
    }
  }

  /** The tagged list of `partitioning` keeps the four blocks in order. */
  predicate Layout(P: seq<Tagged>, I: seq<Rect>, R: seq<Rect>, T: seq<Rect>, c: Rect)
  {
    && |P| == |I| + |R| + |T| + 1
    && (forall t :: 0 <= t < |I| ==> P[t] == Tagged(I[t], 9, 0.8))
    && (forall t :: 0 <= t < |R| ==> P[|I| + t] == Tagged(R[t], 6, 1.0))
    && (forall t :: 0 <= t < |T| ==> P[|I| + |R| + t] == Tagged(T[t], 3, 0.8))
    && P[|P| - 1] == Tagged(c, 0, 1.0)
  }

  lemma BlocksLayout(I: seq<Rect>, R: seq<Rect>, T: seq<Rect>, c: Rect)
    ensures Layout(TagAll(I, 9, 0.8) + TagAll(R, 6, 1.0) + TagAll(T, 3, 0.8) + [Tagged(c, 0, 1.0)], I, R, T, c)
  {
    var tI, tR, tT := TagAll(I, 9, 0.8), TagAll(R, 6, 1.0), TagAll(T, 3, 0.8);
    var A, B := tI + tR, tI + tR + tT;
    var P := B + [Tagged(c, 0, 1.0)];
    forall t | 0 <= t < |I|
      ensures P[t] == Tagged(I[t], 9, 0.8)
    {
      assert P[t] == B[t] == A[t] == tI[t];
      TagAllAt(I, 9, 0.8, t);
    }
    forall t | 0 <= t < |R|
      ensures P[|I| + t] == Tagged(R[t], 6, 1.0)
    {
      assert P[|I| + t] == B[|I| + t] == A[|I| + t] == tR[t];
      TagAllAt(R, 6, 1.0, t);
    }
    forall t | 0 <= t < |T|
      ensures P[|I| + |R| + t] == Tagged(T[t], 3, 0.8)
    {
      assert P[|I| + |R| + t] == B[|A| + t] == tT[t];
      TagAllAt(T, 3, 0.8, t);
    }
  }

  /** The order and the tags: the interior (column by column) tagged 9 / 0.8,
      then the right column 6 / 1, then the top row 3 / 0.8, and last the
      corner `[[x-a1, x], [y-a2, y]]` tagged 0 / 1. */
  lemma TaggedTilingShape(a1: int, a2: int, x: int, y: int)
    requires a1 >= 1 && a2 >= 1
    ensures var n1, n2 := CeilDiv(x, a1), CeilDiv(y, a2);
      Layout(TaggedTiling(a1, a2, x, y), InteriorCells(a1, a2, n1, n2), RightColumn(a1, a2, x, n2),
             TopRow(a1, a2, y, n1), Corner(a1, a2, x, y))
  {
    var n1, n2 := CeilDiv(x, a1), CeilDiv(y, a2);
    BlocksLayout(InteriorCells(a1, a2, n1, n2), RightColumn(a1, a2, x, n2), TopRow(a1, a2, y, n1), Corner(a1, a2, x, y));
  }

  /** The tagged tiling with its two trailing fields dropped is the untagged
      tiling. */
  lemma UntagTaggedTiling(a1: int, a2: int, x: int, y: int)
    requires a1 >= 1 && a2 >= 1
    ensures Untag(TaggedTiling(a1, a2, x, y)) == Tiling(a1, a2, x, y)
  {
    var n1, n2 := CeilDiv(x, a1), CeilDiv(y, a2);
    var I, R, T := InteriorCells(a1, a2, n1, n2), RightColumn(a1, a2, x, n2), TopRow(a1, a2, y, n1);
    var tI, tR, tT := TagAll(I, 9, 0.8), TagAll(R, 6, 1.0), TagAll(T, 3, 0.8);
    var last := [Tagged(Corner(a1, a2, x, y), 0, 1.0)];
    UntagAppend(tI + tR + tT, last);
    UntagAppend(tI + tR, tT);
    UntagAppend(tI, tR);
    UntagTagAll(I, 9, 0.8);
    UntagTagAll(R, 6, 1.0);
    UntagTagAll(T, 3, 0.8);
  }

  /** `partitioning(a1, a2, x, y)`: the four loops append to `P` in turn. */
  method Partitioning(a1: int, a2: int, x: int, y: int) returns (P: seq<Tagged>)
    requires a1 >= 1 && a2 >= 1
    ensures P == TaggedTiling(a1, a2, x, y)
  {
    var n1, n2 := CeilDiv(x, a1), CeilDiv(y, a2);
    P := [];
    var k1 := 1;
    while k1 < n1
      invariant 1 <= k1 <= (if n1 < 1 then 1 else n1)
      invariant P == TagAll(InteriorCells(a1, a2, k1, n2), 9, 0.8)
    {
      P := AppendColumn(P, a1, a2, k1, n2);
      TagAllAppend(InteriorCells(a1, a2, k1, n2), ColumnCells(a1, a2, k1, n2), 9, 0.8);
      k1 := k1 + 1;
    }
    assert InteriorCells(a1, a2, k1, n2) == InteriorCells(a1, a2, n1, n2);
    P := AppendRightColumn(P, a1, a2, x, n2);
    P := AppendTopRow(P, a1, a2, y, n1);
    P := P + [Tagged(Corner(a1, a2, x, y), 0, 1.0)];
  }

  /** The inner loop over `k2` for one column `k1`. */
  method AppendColumn(P0: seq<Tagged>, a1: int, a2: int, k1: int, n2: int) returns (P: seq<Tagged>)
    ensures P == P0 + TagAll(ColumnCells(a1, a2, k1, n2), 9, 0.8)
  {
    P := P0;
    var k2 := 1;
    while k2 < n2
      invariant 1 <= k2 <= (if n2 < 1 then 1 else n2)
      invariant P == P0 + TagAll(ColumnCells(a1, a2, k1, k2), 9, 0.8)
    {
      P := P + [Tagged(Cell(a1, a2, k1, k2), 9, 0.8)];
      assert ColumnCells(a1, a2, k1, k2 + 1) == ColumnCells(a1, a2, k1, k2) + [Cell(a1, a2, k1, k2)];
      TagAllSnoc(ColumnCells(a1, a2, k1, k2), Cell(a1, a2, k1, k2), 9, 0.8);
      k2 := k2 + 1;
    }
    assert ColumnCells(a1, a2, k1, k2) == ColumnCells(a1, a2, k1, n2);
  }

  /** The second loop, over the right column. */
  method AppendRightColumn(P0: seq<Tagged>, a1: int, a2: int, x: int, n2: int) returns (P: seq<Tagged>)
    ensures P == P0 + TagAll(RightColumn(a1, a2, x, n2), 6, 1.0)
  {
    P := P0;
    var k := 1;
    while k < n2
      invariant 1 <= k <= (if n2 < 1 then 1 else n2)
      invariant P == P0 + TagAll(RightColumn(a1, a2, x, k), 6, 1.0)
    {
      P := P + [Tagged(RightCell(a1, a2, x, k), 6, 1.0)];
      assert RightColumn(a1, a2, x, k + 1) == RightColumn(a1, a2, x, k) + [RightCell(a1, a2, x, k)];
      TagAllSnoc(RightColumn(a1, a2, x, k), RightCell(a1, a2, x, k), 6, 1.0);
      k := k + 1;
    }
    assert RightColumn(a1, a2, x, k) == RightColumn(a1, a2, x, n2);
  }

  /** The third loop, over the top row. */
  method AppendTopRow(P0: seq<Tagged>, a1: int, a2: int, y: int, n1: int) returns (P: seq<Tagged>)
    ensures P == P0 + TagAll(TopRow(a1, a2, y, n1), 3, 0.8)
  {
    P := P0;
    var k := 1;
    while k < n1
      invariant 1 <= k <= (if n1 < 1 then 1 else n1)
      invariant P == P0 + TagAll(TopRow(a1, a2, y, k), 3, 0.8)
    {
      P := P + [Tagged(TopCell(a1, a2, y, k), 3, 0.8)];
      assert TopRow(a1, a2, y, k + 1) == TopRow(a1, a2, y, k) + [TopCell(a1, a2, y, k)];
      TagAllSnoc(TopRow(a1, a2, y, k), TopCell(a1, a2, y, k), 3, 0.8);
      k := k + 1;
    }
    assert TopRow(a1, a2, y, k) == TopRow(a1, a2, y, n1);
  }

  /** `uav_can_cover`: `(path_length * B_min) / uA_max <= e`; Python fails
      with a division by zero when `uA_max` is 0. */
  function UavCanCover(pathLength: real, bMin: real, uAMax: real, e: real): bool
    requires uAMax != 0.0
  {
    (pathLength * bMin) / uAMax <= e
  }

  /** For a positive top speed the test is the energy budget
      `path_length * B_min <= e * uA_max`, without the division. */
  lemma UavCanCoverBudget(pathLength: real, bMin: real, uAMax: real, e: real)
    requires uAMax > 0.0
    ensures UavCanCover(pathLength, bMin, uAMax, e) <==> pathLength * bMin <= e * uAMax
  {
    var q := (pathLength * bMin) / uAMax;
    assert q * uAMax == pathLength * bMin;
    if q <= e {
      assert q * uAMax <= e * uAMax;
    } else {
      assert q * uAMax > e * uAMax;
    }
  }

  /** More energy or a lower depletion rate never turns a coverable path
      into an uncoverable one. */
  lemma UavCanCoverMonotone(pathLength: real, bMin: real, bMin': real, uAMax: real, e: real, e': real)
    requires uAMax > 0.0 && pathLength >= 0.0 && bMin' <= bMin && e <= e'
    requires UavCanCover(pathLength, bMin, uAMax, e)
    ensures UavCanCover(pathLength, bMin', uAMax, e')
  {
    UavCanCoverBudget(pathLength, bMin, uAMax, e);
    UavCanCoverBudget(pathLength, bMin', uAMax, e');
    assert pathLength * bMin' <= pathLength * bMin;
    assert e * uAMax <= e' * uAMax;
  }

  /** `get_vehicle_velocity`: a flying UAV moves at `uA_max` times the
      distance between the nodes; otherwise a moving vehicle at `uG_max`
      times it, and a standing one at 0. `math.hypot` is a parameter. */
  function VehicleVelocity(uAMax: real, uGMax: real, v: seq<real>, vnext: seq<real>,
                           isUav: bool, isFlying: bool, isMoving: bool,
                           hypot: (real, real) -> real): real
    requires |v| >= 2 && |vnext| >= 2
  {
    if isFlying && isUav then
      var dx, dy := vnext[0] - v[0], vnext[1] - v[1];
      uAMax * hypot(dx, dy)
    else if isMoving then
      var dx, dy := vnext[0] - v[0], vnext[1] - v[1];
      uGMax * hypot(dx, dy)
    else
      0.0
  }

  /** The speed is `c * hypot(dx, dy)` where `c` is the UAV top speed for a
      flying UAV, the ground top speed for any other moving vehicle, and 0
      otherwise; with the defaults (`is_uav`, `is_flying`, not `is_moving`)
      it is the UAV's. */
  lemma VehicleVelocityCases(uAMax: real, uGMax: real, v: seq<real>, vnext: seq<real>,
                             isUav: bool, isFlying: bool, isMoving: bool, hypot: (real, real) -> real)
    requires |v| >= 2 && |vnext| >= 2
    ensures var c := if isFlying && isUav then uAMax else if isMoving then uGMax else 0.0;
      VehicleVelocity(uAMax, uGMax, v, vnext, isUav, isFlying, isMoving, hypot)
        == c * hypot(vnext[0] - v[0], vnext[1] - v[1])
    ensures VehicleVelocity(uAMax, uGMax, v, vnext, true, true, false, hypot)
        == uAMax * hypot(vnext[0] - v[0], vnext[1] - v[1])
  {
  }

  /** With non-negative top speeds and distances the speed is non-negative,
      and with a symmetric distance it is the same in both directions. */
  lemma VehicleVelocityProperties(uAMax: real, uGMax: real, v: seq<real>, vnext: seq<real>,
                                  isUav: bool, isFlying: bool, isMoving: bool, hypot: (real, real) -> real)
    requires |v| >= 2 && |vnext| >= 2
    requires uAMax >= 0.0 && uGMax >= 0.0
    requires forall dx, dy :: hypot(dx, dy) >= 0.0 && hypot(-dx, -dy) == hypot(dx, dy)
    ensures VehicleVelocity(uAMax, uGMax, v, vnext, isUav, isFlying, isMoving, hypot) >= 0.0
    ensures VehicleVelocity(uAMax, uGMax, v, vnext, isUav, isFlying, isMoving, hypot)
         == VehicleVelocity(uAMax, uGMax, vnext, v, isUav, isFlying, isMoving, hypot)
  {
    var dx, dy := vnext[0] - v[0], vnext[1] - v[1];
    assert v[0] - vnext[0] == -dx && v[1] - vnext[1] == -dy;
    assert hypot(-dx, -dy) == hypot(dx, dy);
  }
}

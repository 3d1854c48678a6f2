/** testing_grounds.py: the untagged draft of the rectangle tiling, which
    also counts the rectangles it appends in `i`. */
module TestingGrounds {
  import opened PaperAlgorithms

  /** `partitioning(a1, a2, x, y)` of testing_grounds.py: the same four loops
      as the paper version, appending bare rectangles and counting them. */
  method Partitioning(a1: int, a2: int, x: int, y: int) returns (P: seq<Rect>)
    requires a1 >= 1 && a2 >= 1
    ensures P == Tiling(a1, a2, x, y)
  {
    var n1, n2 := CeilDiv(x, a1), CeilDiv(y, a2);
    P := [];
    var i := 0;
    var k1 := 1;
    while k1 < n1
      invariant 1 <= k1 <= (if n1 < 1 then 1 else n1)
      invariant P == InteriorCells(a1, a2, k1, n2) && i == |P|
    {
      P, i := AppendColumn(P, i, a1, a2, k1, n2);
      assert InteriorCells(a1, a2, k1 + 1, n2) == InteriorCells(a1, a2, k1, n2) + ColumnCells(a1, a2, k1, n2);
      k1 := k1 + 1;
    }
    assert InteriorCells(a1, a2, k1, n2) == InteriorCells(a1, a2, n1, n2);
    ghost var interior := P;
    var k := 1;
    while k < n2
      invariant 1 <= k <= (if n2 < 1 then 1 else n2)
      invariant P == interior + RightColumn(a1, a2, x, k) && i == |P|
    {
      i := i + 1;
      P := P + [RightCell(a1, a2, x, k)];
      assert RightColumn(a1, a2, x, k + 1) == RightColumn(a1, a2, x, k) + [RightCell(a1, a2, x, k)];
      k := k + 1;
    }
    assert RightColumn(a1, a2, x, k) == RightColumn(a1, a2, x, n2);
    ghost var sides := P;
    k := 1;
    while k < n1
      invariant 1 <= k <= (if n1 < 1 then 1 else n1)
      invariant P == sides + TopRow(a1, a2, y, k) && i == |P|
    {
      i := i + 1;
      P := P + [TopCell(a1, a2, y, k)];
      assert TopRow(a1, a2, y, k + 1) == TopRow(a1, a2, y, k) + [TopCell(a1, a2, y, k)];
      k := k + 1;
    }
    assert TopRow(a1, a2, y, k) == TopRow(a1, a2, y, n1);
    i := i + 1;
    P := P + [Corner(a1, a2, x, y)];
    assert i == |P|;
  }

  /** The inner loop over `k2` for column `k1`, counting in `i`. */
  method AppendColumn(P0: seq<Rect>, i0: int, a1: int, a2: int, k1: int, n2: int) returns (P: seq<Rect>, i: int)
    requires i0 == |P0|
    ensures P == P0 + ColumnCells(a1, a2, k1, n2) && i == |P|
  {
    P, i := P0, i0;
    var k2 := 1;
    while k2 < n2
      invariant 1 <= k2 <= (if n2 < 1 then 1 else n2)
      invariant P == P0 + ColumnCells(a1, a2, k1, k2) && i == |P|
    {
      i := i + 1;
      P := P + [Cell(a1, a2, k1, k2)];
      assert ColumnCells(a1, a2, k1, k2 + 1) == ColumnCells(a1, a2, k1, k2) + [Cell(a1, a2, k1, k2)];
      k2 := k2 + 1;
    }
    assert ColumnCells(a1, a2, k1, k2) == ColumnCells(a1, a2, k1, n2);
  }

  /** The module-level call `partitioning(3, 3, 10, 11)`: `ceil(10/3)` and
      `ceil(11/3)` are both 4, so it lists 16 rectangles, the last one
      `[[7, 10], [8, 11]]`. */
  lemma ExampleCall()
    ensures |Tiling(3, 3, 10, 11)| == 16
    ensures Tiling(3, 3, 10, 11)[15] == Rect(7, 10, 8, 11)
  {
    CeilDivUnique(10, 3, 4);
    CeilDivUnique(11, 3, 4);
    TilingCount(3, 3, 10, 11);
  }
}

/**
 * What holds of every topology `init` returns: the boxes form the dim×dim grid in row-major
 * order, the unit list has the expected length and shape, every box lies in exactly one row,
 * one column and one block, and `units` and `peers` are the membership and co-membership
 * relations of the unit list.
 *
 * The lemmas come in two layers: facts about the table-building functions for any labels
 * (small proof contexts), then the same facts about a configured topology.
 */
module TopologyFacts {
  import opened Seqs
  import opened Topology

  // ---------------------------------------------------------------------------------------
  // Facts about the table-building functions.
  // ---------------------------------------------------------------------------------------

  /** Integer facts about the `side` bands of `side` labels each, for the sizes `init` accepts. */
  lemma Bands(side: nat, x: nat, p: nat)
    requires 2 <= side <= 5 && x < side * side && p < side
    ensures 0 <= p * side && p * side + side <= side * side
    ensures x / side < side && x == (x / side) * side + x % side && x % side < side
    ensures p * side <= x < p * side + side <==> x / side == p
  {
    if side == 2 {
    } else if side == 3 {
    } else if side == 4 {
    } else {
    }
  }

  /** The first `dim` labels of either alphabet have no repeats, and no separator is a column label. */
  lemma LabelsDistinct(dim: nat)
    requires dim <= 26
    ensures |RowLabels(dim)| == dim && Distinct(RowLabels(dim))
    ensures |ColumnLabels(dim)| == dim && Distinct(ColumnLabels(dim))
    ensures forall c :: c in Separators ==> c !in ColumnLabels(dim)
  {
    assert Distinct(UpperCase) && Distinct(ColumnAlphabet);
    assert forall c :: c in Separators ==> c !in ColumnAlphabet;
  }

  /** `cross(a, b)` is the concatenation of `cross(a[i], b)` over the labels of `a`. */
  lemma {:induction false} CrossByRows(a: string, b: string)
    ensures Cross(a, b) == Flatten(RowUnits(a, b))
  {
    if a != [] {
      assert RowUnits(a, b)[0] == Cross([a[0]], b);
      assert RowUnits(a, b)[1..] == RowUnits(a[1..], b);
      CrossByRows(a[1..], b);
      var first := seq(|b|, j requires 0 <= j < |b| => Pair(a[0], b[j]));
      assert [a[0]][1..] == [];
      assert Cross([a[0]], b) == first + Cross([], b) == first;
      assert Cross(a, b) == first + Cross(a[1..], b);
    }
  }

  /** The box in row `x` and column `y` is in row unit `i` exactly when `x == i`. */
  lemma RowUnitMember(rows: string, cols: string, i: nat, x: nat, y: nat)
    requires Distinct(rows) && i < |rows| && x < |rows| && y < |cols|
    ensures |RowUnits(rows, cols)| == |rows|
    ensures [rows[x], cols[y]] in RowUnits(rows, cols)[i] <==> x == i
  {
    CrossMember([rows[i]], cols, [rows[x], cols[y]]);
  }

  /** The box in row `x` and column `y` is in column unit `j` exactly when `y == j`. */
  lemma ColUnitMember(rows: string, cols: string, j: nat, x: nat, y: nat)
    requires Distinct(cols) && j < |cols| && x < |rows| && y < |cols|
    ensures |ColUnits(rows, cols)| == |cols|
    ensures [rows[x], cols[y]] in ColUnits(rows, cols)[j] <==> y == j
  {
    CrossMember(rows, [cols[j]], [rows[x], cols[y]]);
  }

  /** Band `i` of the labels is the contiguous slice of `side` labels starting at `i·side`. */
  lemma BandSlice(labels: string, side: nat, i: nat)
    requires 2 <= side <= 5 && |labels| == side * side && i < side
    ensures |Blocks(labels, SubSlices(side))| == side
    ensures 0 <= i * side && i * side + side <= |labels|
    ensures Blocks(labels, SubSlices(side))[i] == labels[i * side..i * side + side]
  {
    Bands(side, 0, i);
    assert SubSlices(side)[i] == Slice(i * side, i * side + side);
  }

  /** Block `k` is the cross of row band `p` with column band `q`, where `k == p·side + q`. */
  lemma BlockShape(rows: string, cols: string, side: nat, k: nat) returns (p: nat, q: nat)
    requires 2 <= side <= 5 && |rows| == side * side && |cols| == side * side && k < side * side
    ensures k == p * side + q && p < side && q < side
    ensures |SquareUnits(Blocks(rows, SubSlices(side)), Blocks(cols, SubSlices(side)))| == side * side
    ensures SquareUnits(Blocks(rows, SubSlices(side)), Blocks(cols, SubSlices(side)))[k]
         == Cross(Blocks(rows, SubSlices(side))[p], Blocks(cols, SubSlices(side))[q])
  {
    var rb, cb := Blocks(rows, SubSlices(side)), Blocks(cols, SubSlices(side));
    BandSlice(rows, side, 0);
    BandSlice(cols, side, 0);
    ProductIndex(rb, cb, Cross, k);
    p, q :| 0 <= p < side && 0 <= q < side && k == p * side + q && SquareUnits(rb, cb)[k] == Cross(rb[p], cb[q]);
  }

  /** Label `x` lies in band `p` exactly when `x / side == p`. */
  lemma BandMember(labels: string, side: nat, p: nat, x: nat)
    requires 2 <= side <= 5 && |labels| == side * side && Distinct(labels) && p < side && x < side * side
    ensures |Blocks(labels, SubSlices(side))| == side
    ensures labels[x] in Blocks(labels, SubSlices(side))[p] <==> x / side == p
  {
    BandSlice(labels, side, p);
    SliceMember(labels, p * side, p * side + side, x);
    Bands(side, x, p);
  }

  /** The box in row `x` and column `y` lies in block `k` exactly when `x` is in the row band
      and `y` in the column band of that block. */
  lemma BlockMember(rows: string, cols: string, side: nat, k: nat, x: nat, y: nat)
    requires 2 <= side <= 5 && |rows| == side * side && |cols| == side * side
    requires Distinct(rows) && Distinct(cols)
    requires k < side * side && x < side * side && y < side * side
    ensures [rows[x], cols[y]] in SquareUnits(Blocks(rows, SubSlices(side)), Blocks(cols, SubSlices(side)))[k]
        <==> x / side == k / side && y / side == k % side
  {
    var p, q := BlockShape(rows, cols, side, k);
    Bands(side, k, p);
    BandMember(rows, side, p, x);
    BandMember(cols, side, q, y);
    CrossMember(Blocks(rows, SubSlices(side))[p], Blocks(cols, SubSlices(side))[q], [rows[x], cols[y]]);
  }

  /** Among the block indices, `(x / side)·side + y / side` is the only one whose band pair is
      that of row `x` and column `y`. */
  lemma BlockIndex(side: nat, x: nat, y: nat) returns (k: nat)
    requires 2 <= side <= 5 && x < side * side && y < side * side
    ensures k < side * side
    ensures forall k' :: 0 <= k' < side * side ==> (x / side == k' / side && y / side == k' % side <==> k' == k)
  {
    Bands(side, x, 0);
    Bands(side, y, 0);
    var p, q := x / side, y / side;
    k := p * side + q;
    Bands(side, 0, p);
    Bands(side, k, p);
    assert k / side == p && k % side == q;
    forall k' | 0 <= k' < side * side
      ensures x / side == k' / side && y / side == k' % side <==> k' == k
    {
      Bands(side, k', 0);
    }
  }

  /** The box in row `x` and column `y` lies in block `(x / side)·side + y / side` and in no other. */
  lemma BlockOfBox(rows: string, cols: string, side: nat, x: nat, y: nat) returns (k: nat)
    requires 2 <= side <= 5 && |rows| == side * side && |cols| == side * side
    requires Distinct(rows) && Distinct(cols) && x < side * side && y < side * side
    ensures k < side * side
    ensures forall k' :: 0 <= k' < side * side ==>
              ([rows[x], cols[y]] in SquareUnits(Blocks(rows, SubSlices(side)), Blocks(cols, SubSlices(side)))[k'] <==> k' == k)
  {
    k := BlockIndex(side, x, y);
    forall k' | 0 <= k' < side * side
      ensures [rows[x], cols[y]] in SquareUnits(Blocks(rows, SubSlices(side)), Blocks(cols, SubSlices(side)))[k'] <==> k' == k
    {
      BlockMember(rows, cols, side, k', x, y);
    }
  }

  /** Band `p` holds `side` distinct labels, all of them labels. */
  lemma BandIsSlice(labels: string, side: nat, p: nat)
    requires 2 <= side <= 5 && |labels| == side * side && Distinct(labels) && p < side
    ensures var band := Blocks(labels, SubSlices(side))[p];
            |band| == side && Distinct(band) && Within(band, labels)
  {
    BandSlice(labels, side, p);
    var lo := p * side;
    var band := labels[lo..lo + side];
    forall i, j | 0 <= i < j < side ensures band[i] != band[j] {
      assert band[i] == labels[lo + i] && band[j] == labels[lo + j];
    }
  }

  /** Every block holds `side²` distinct boxes of the grid. */
  lemma BlockIsUnit(rows: string, cols: string, side: nat, k: nat)
    requires 2 <= side <= 5 && |rows| == side * side && |cols| == side * side
    requires Distinct(rows) && Distinct(cols) && k < side * side
    ensures var u := SquareUnits(Blocks(rows, SubSlices(side)), Blocks(cols, SubSlices(side)))[k];
            |u| == side * side && Distinct(u) && Within(u, Cross(rows, cols))
  {
    var p, q := BlockShape(rows, cols, side, k);
    var rs, cs := Blocks(rows, SubSlices(side))[p], Blocks(cols, SubSlices(side))[q];
    BandIsSlice(rows, side, p);
    BandIsSlice(cols, side, q);
    CrossDistinct(rs, cs);
    forall b | b in Cross(rs, cs) ensures b in Cross(rows, cols) {
      CrossMember(rs, cs, b);
      CrossMember(rows, cols, b);
    }
  }

  /** The two diagonals of a grid with `n` labels each way. */
  lemma DiagonalMember(rows: string, cols: string, x: nat, y: nat)
    requires |rows| == |cols| && Distinct(rows) && Distinct(cols) && x < |rows| && y < |cols|
    ensures |ZipJoin(rows, cols)| == |rows| && |ZipJoin(Reverse(rows), cols)| == |rows|
    ensures [rows[x], cols[y]] in ZipJoin(rows, cols) <==> x == y
    ensures [rows[x], cols[y]] in ZipJoin(Reverse(rows), cols) <==> x + y == |rows| - 1
  {
    var n := |rows|;
    var desc, asc := ZipJoin(rows, cols), ZipJoin(Reverse(rows), cols);
    if [rows[x], cols[y]] in desc {
      var i :| 0 <= i < n && desc[i] == [rows[x], cols[y]];
      assert rows[i] == rows[x] && cols[i] == cols[y];
    }
    if x == y {
      assert desc[x] == [rows[x], cols[y]];
    }
    if [rows[x], cols[y]] in asc {
      var i :| 0 <= i < n && asc[i] == [rows[x], cols[y]];
      assert rows[n - 1 - i] == rows[x] && cols[i] == cols[y];
    }
    if x + y == n - 1 {
      assert asc[y] == [rows[x], cols[y]];
    }
  }

  /** Both diagonals hold `n` distinct boxes of the grid. */
  lemma DiagonalIsUnit(rows: string, cols: string, u: seq<string>)
    requires |rows| == |cols| && Distinct(rows) && Distinct(cols)
    requires u == ZipJoin(rows, cols) || u == ZipJoin(Reverse(rows), cols)
    ensures |u| == |rows| && Distinct(u) && Within(u, Cross(rows, cols))
  {
    forall i, j | 0 <= i < j < |u| ensures u[i] != u[j] {
      assert u[i][1] == cols[i] && u[j][1] == cols[j];
    }
    forall b | b in u ensures b in Cross(rows, cols) {
      CrossMember(rows, cols, b);
    }
  }

  // ---------------------------------------------------------------------------------------
  // The same facts about a topology `init` returned.
  // ---------------------------------------------------------------------------------------

  /** The id of the box in row `x` and column `y`. */
  function Box(t: Topology, x: nat, y: nat): string
    requires x < |t.rows| && y < |t.cols|
  {
    [t.rows[x], t.cols[y]]
  }

  /** `b` lies in exactly one of `us`. */
  ghost predicate InExactlyOne(us: seq<seq<string>>, b: string)
  {
    exists k :: 0 <= k < |us| && b in us[k] && forall k' :: 0 <= k' < |us| && b in us[k'] ==> k' == k
  }

  /** An accepted configuration is `Assemble` applied to its own parameters. */
  lemma Assembled(t: Topology)
    requires FromConfig(t)
    ensures 2 <= t.side <= 5 && t.wildcard !in ColumnLabels(t.side * t.side)
    ensures t == Assemble(t.side, t.wildcard, t.diagonal, SubSlices(t.side))
  {
  }

  /** The fields `Assemble` fills in, one table at a time. */
  lemma AssembleFields(side: nat, wildcard: char, diagonal: bool, subSlices: seq<Slice>)
    ensures var t := Assemble(side, wildcard, diagonal, subSlices);
      && t.rows == RowLabels(side * side) && t.cols == ColumnLabels(side * side) && t.symbols == t.cols
      && t.boxes == Cross(t.rows, t.cols)
      && t.rowUnits == RowUnits(t.rows, t.cols) && t.colUnits == ColUnits(t.rows, t.cols)
      && t.squareUnits == SquareUnits(Blocks(t.rows, subSlices), Blocks(t.cols, subSlices))
      && t.unitList == t.rowUnits + t.colUnits + t.squareUnits + DiagonalUnits(t.rows, t.cols, t.diagonal)
      && t.units == UnitMap(t.boxes, t.unitList) && t.peers == PeerMap(t.boxes, t.units)
  {
  }

  lemma LabelFields(t: Topology)
    requires FromConfig(t)
    ensures 2 <= t.side <= 5 && t.dim == t.side * t.side
    ensures t.rows == RowLabels(t.dim) && t.cols == ColumnLabels(t.dim) && t.symbols == t.cols
  {
    Assembled(t);
  }

  lemma BoxesField(t: Topology)
    requires FromConfig(t)
    ensures t.boxes == Cross(t.rows, t.cols)
  {
    Assembled(t);
    AssembleFields(t.side, t.wildcard, t.diagonal, SubSlices(t.side));
  }

  lemma UnitFields(t: Topology)
    requires FromConfig(t)
    ensures t.rowUnits == RowUnits(t.rows, t.cols) && t.colUnits == ColUnits(t.rows, t.cols)
    ensures t.squareUnits == SquareUnits(Blocks(t.rows, SubSlices(t.side)), Blocks(t.cols, SubSlices(t.side)))
    ensures t.unitList == t.rowUnits + t.colUnits + t.squareUnits + DiagonalUnits(t.rows, t.cols, t.diagonal)
  {
    Assembled(t);
    AssembleFields(t.side, t.wildcard, t.diagonal, SubSlices(t.side));
  }

  lemma MapFields(t: Topology)
    requires FromConfig(t)
    ensures t.units == UnitMap(t.boxes, t.unitList) && t.peers == PeerMap(t.boxes, t.units)
  {
    Assembled(t);
    AssembleFields(t.side, t.wildcard, t.diagonal, SubSlices(t.side));
  }

  /** The labels: `dim = side²` of each kind, none repeated; the symbols are the column labels,
      and neither a separator nor the wildcard is one (utils.py:19-28). */
  lemma Labels(t: Topology)
    requires FromConfig(t)
    ensures 2 <= t.side <= 5 && t.dim == t.side * t.side && 4 <= t.dim <= 25
    ensures t.rows == UpperCase[..t.dim] && t.cols == ColumnAlphabet[..t.dim] && t.symbols == t.cols
    ensures |t.rows| == t.dim && |t.cols| == t.dim
    ensures Distinct(t.rows) && Distinct(t.cols)
    ensures forall c :: c in Separators ==> c !in t.symbols
    ensures t.wildcard !in t.symbols
  {
    LabelFields(t);
    DimBounds(t.side);
    LabelsDistinct(t.dim);
  }

  /** `boxes` are the `dim²` ids of the grid, none repeated, laid out row by row: the row units
      end to end (utils.py:38-39). */
  lemma BoxesRowMajor(t: Topology)
    requires FromConfig(t)
    ensures |t.boxes| == t.dim * t.dim && Distinct(t.boxes)
    ensures t.boxes == Flatten(t.rowUnits)
    ensures forall i, j :: 0 <= i < t.dim && 0 <= j < t.dim ==> |t.rowUnits[i]| == t.dim && t.rowUnits[i][j] == Box(t, i, j)
    ensures forall b :: b in t.boxes <==> |b| == 2 && b[0] in t.rows && b[1] in t.cols
  {
    Labels(t);
    BoxesField(t);
    UnitFields(t);
    CrossDistinct(t.rows, t.cols);
    CrossByRows(t.rows, t.cols);
    RowUnitCells(t.rows, t.cols);
    forall b
      ensures b in t.boxes <==> |b| == 2 && b[0] in t.rows && b[1] in t.cols
    {
      CrossMember(t.rows, t.cols, b);
    }
  }

  /** Row unit `i` lists the boxes of row `i`, column by column. */
  lemma RowUnitCells(rows: string, cols: string)
    ensures |RowUnits(rows, cols)| == |rows|
    ensures forall i, j :: 0 <= i < |rows| && 0 <= j < |cols| ==>
              |RowUnits(rows, cols)[i]| == |cols| && RowUnits(rows, cols)[i][j] == [rows[i], cols[j]]
  {
    forall i, j | 0 <= i < |rows| && 0 <= j < |cols|
      ensures |RowUnits(rows, cols)[i]| == |cols| && RowUnits(rows, cols)[i][j] == [rows[i], cols[j]]
    {
      var k := CrossAt([rows[i]], cols, 0, j);
    }
  }

  /** `boxes` are `dim²` ids, none repeated. */
  lemma BoxesDistinct(t: Topology)
    requires FromConfig(t)
    ensures |t.boxes| == t.dim * t.dim && Distinct(t.boxes)
  {
    Labels(t);
    BoxesField(t);
    CrossDistinct(t.rows, t.cols);
  }

  /** The box in row `x` and column `y` sits at index `x·dim + y` of `boxes`. */
  lemma BoxAt(t: Topology, x: nat, y: nat) returns (k: nat)
    requires FromConfig(t) && x < t.dim && y < t.dim
    ensures k == x * t.dim + y && k < |t.boxes| && t.boxes[k] == Box(t, x, y)
  {
    LabelFields(t);
    BoxesField(t);
    k := CrossAt(t.rows, t.cols, x, y);
  }

  /** A box id names its row and column. */
  lemma BoxIndices(t: Topology, b: string) returns (x: nat, y: nat)
    requires FromConfig(t) && b in t.boxes
    ensures x < t.dim && y < t.dim && b == Box(t, x, y)
  {
    BoxesRowMajor(t);
    x :| 0 <= x < |t.rows| && t.rows[x] == b[0];
    y :| 0 <= y < |t.cols| && t.cols[y] == b[1];
    assert b == [b[0], b[1]];
  }

  /** Three kinds of `dim` units each, plus the two diagonals when asked for (utils.py:39-52). */
  lemma UnitCount(t: Topology)
    requires FromConfig(t)
    ensures |t.rowUnits| == t.dim && |t.colUnits| == t.dim && |t.squareUnits| == t.dim
    ensures |t.unitList| == 3 * t.dim + (if t.diagonal then 2 else 0)
    ensures t.unitList[..3 * t.dim] == t.rowUnits + t.colUnits + t.squareUnits
  {
    LabelFields(t);
    UnitFields(t);
    BandSlice(t.rows, t.side, 0);
    BandSlice(t.cols, t.side, 0);
    var n := t.dim;
    var front := t.rowUnits + t.colUnits + t.squareUnits;
    assert |t.rowUnits| == n && |t.colUnits| == n && |t.squareUnits| == n;
    assert |front| == 3 * n;
    assert t.unitList == front + DiagonalUnits(t.rows, t.cols, t.diagonal);
  }

  /** The box in row `x` and column `y` is in row unit `i` exactly when `x == i`, and in column
      unit `j` exactly when `y == j` (utils.py:39-40). */
  lemma RowAndColumnMembers(t: Topology)
    requires FromConfig(t)
    ensures |t.rowUnits| == t.dim && |t.colUnits| == t.dim
    ensures forall i, x, y :: 0 <= i < t.dim && 0 <= x < t.dim && 0 <= y < t.dim ==>
              (Box(t, x, y) in t.rowUnits[i] <==> x == i)
    ensures forall j, x, y :: 0 <= j < t.dim && 0 <= x < t.dim && 0 <= y < t.dim ==>
              (Box(t, x, y) in t.colUnits[j] <==> y == j)
  {
    Labels(t);
    UnitFields(t);
    forall i, x, y | 0 <= i < t.dim && 0 <= x < t.dim && 0 <= y < t.dim
      ensures Box(t, x, y) in t.rowUnits[i] <==> x == i
    {
      RowUnitMember(t.rows, t.cols, i, x, y);
    }
    forall j, x, y | 0 <= j < t.dim && 0 <= x < t.dim && 0 <= y < t.dim
      ensures Box(t, x, y) in t.colUnits[j] <==> y == j
    {
      ColUnitMember(t.rows, t.cols, j, x, y);
    }
  }

  /** Block `k` holds the box in row `x` and column `y` exactly when `x` lies in row band
      `k / side` and `y` in column band `k % side`: the blocks are the side×side tiles cut from
      contiguous label slices (utils.py:30-36, 42-43). */
  lemma BlockMembers(t: Topology)
    requires FromConfig(t)
    ensures |t.squareUnits| == t.dim
    ensures forall k, x, y :: 0 <= k < t.dim && 0 <= x < t.dim && 0 <= y < t.dim ==>
              (Box(t, x, y) in t.squareUnits[k] <==> x / t.side == k / t.side && y / t.side == k % t.side)
  {
    Labels(t);
    UnitFields(t);
    UnitCount(t);
    forall k, x, y | 0 <= k < t.dim && 0 <= x < t.dim && 0 <= y < t.dim
      ensures Box(t, x, y) in t.squareUnits[k] <==> x / t.side == k / t.side && y / t.side == k % t.side
    {
      BlockMember(t.rows, t.cols, t.side, k, x, y);
    }
  }

  /** The two extra units: the descending diagonal pairs row `i` with column `i`, the ascending
      one row `dim-1-i` with column `i` (utils.py:47-52). */
  lemma Diagonals(t: Topology)
    requires FromConfig(t) && t.diagonal
    ensures |t.unitList| == 3 * t.dim + 2
    ensures |t.unitList[3 * t.dim]| == t.dim && |t.unitList[3 * t.dim + 1]| == t.dim
    ensures forall i :: 0 <= i < t.dim ==> t.unitList[3 * t.dim][i] == Box(t, i, i)
    ensures forall i :: 0 <= i < t.dim ==> t.unitList[3 * t.dim + 1][i] == [t.rows[t.dim - 1 - i], t.cols[i]]
    ensures forall x, y :: 0 <= x < t.dim && 0 <= y < t.dim ==>
              (Box(t, x, y) in t.unitList[3 * t.dim] <==> x == y)
    ensures forall x, y :: 0 <= x < t.dim && 0 <= y < t.dim ==>
              (Box(t, x, y) in t.unitList[3 * t.dim + 1] <==> x + y == t.dim - 1)
  {
    Labels(t);
    UnitFields(t);
    UnitCount(t);
    assert t.unitList[3 * t.dim] == ZipJoin(t.rows, t.cols);
    assert t.unitList[3 * t.dim + 1] == ZipJoin(Reverse(t.rows), t.cols);
    forall x, y | 0 <= x < t.dim && 0 <= y < t.dim
      ensures Box(t, x, y) in t.unitList[3 * t.dim] <==> x == y
      ensures Box(t, x, y) in t.unitList[3 * t.dim + 1] <==> x + y == t.dim - 1
    {
      DiagonalMember(t.rows, t.cols, x, y);
    }
  }

  /** Row unit `i` holds one box per column label, none repeated, all of them boxes. */
  lemma RowUnitIsUnit(rows: string, cols: string, i: nat)
    requires Distinct(rows) && Distinct(cols) && i < |rows|
    ensures var u := RowUnits(rows, cols)[i]; |u| == |cols| && Distinct(u) && Within(u, Cross(rows, cols))
  {
    var u := Cross([rows[i]], cols);
    CrossDistinct([rows[i]], cols);
    forall b | b in u ensures b in Cross(rows, cols) {
      CrossMember([rows[i]], cols, b);
      CrossMember(rows, cols, b);
    }
  }

  /** Column unit `j` holds one box per row label, none repeated, all of them boxes. */
  lemma ColUnitIsUnit(rows: string, cols: string, j: nat)
    requires Distinct(rows) && Distinct(cols) && j < |cols|
    ensures var u := ColUnits(rows, cols)[j]; |u| == |rows| && Distinct(u) && Within(u, Cross(rows, cols))
  {
    var u := Cross(rows, [cols[j]]);
    CrossDistinct(rows, [cols[j]]);
    forall b | b in u ensures b in Cross(rows, cols) {
      CrossMember(rows, [cols[j]], b);
      CrossMember(rows, cols, b);
    }
  }

  /** Every unit of one kind holds `side²` distinct boxes of the grid. */
  lemma KindsAreUnits(rows: string, cols: string, side: nat, diagonal: bool)
    requires 2 <= side <= 5 && |rows| == side * side && |cols| == side * side
    requires Distinct(rows) && Distinct(cols)
    ensures forall u :: u in RowUnits(rows, cols) ==> |u| == side * side && Distinct(u) && Within(u, Cross(rows, cols))
    ensures forall u :: u in ColUnits(rows, cols) ==> |u| == side * side && Distinct(u) && Within(u, Cross(rows, cols))
    ensures forall u :: u in SquareUnits(Blocks(rows, SubSlices(side)), Blocks(cols, SubSlices(side))) ==>
              |u| == side * side && Distinct(u) && Within(u, Cross(rows, cols))
    ensures forall u :: u in DiagonalUnits(rows, cols, diagonal) ==>
              |u| == side * side && Distinct(u) && Within(u, Cross(rows, cols))
  {
    forall u | u in RowUnits(rows, cols)
      ensures |u| == side * side && Distinct(u) && Within(u, Cross(rows, cols))
    {
      var i :| 0 <= i < |rows| && RowUnits(rows, cols)[i] == u;
      RowUnitIsUnit(rows, cols, i);
    }
    forall u | u in ColUnits(rows, cols)
      ensures |u| == side * side && Distinct(u) && Within(u, Cross(rows, cols))
    {
      var j :| 0 <= j < |cols| && ColUnits(rows, cols)[j] == u;
      ColUnitIsUnit(rows, cols, j);
    }
    var sqUs := SquareUnits(Blocks(rows, SubSlices(side)), Blocks(cols, SubSlices(side)));
    forall u | u in sqUs
      ensures |u| == side * side && Distinct(u) && Within(u, Cross(rows, cols))
    {
      var k :| 0 <= k < |sqUs| && sqUs[k] == u;
      BlockIsUnit(rows, cols, side, k);
    }
    forall u | u in DiagonalUnits(rows, cols, diagonal)
      ensures |u| == side * side && Distinct(u) && Within(u, Cross(rows, cols))
    {
      DiagonalIsUnit(rows, cols, u);
    }
  }

  /** Every unit holds exactly `dim` distinct boxes (utils.py:39-52). */
  lemma UnitsHoldDimBoxes(t: Topology)
    requires FromConfig(t)
    ensures forall u :: u in t.unitList ==> |u| == t.dim && Distinct(u) && Within(u, t.boxes)
  {
    Labels(t);
    BoxesField(t);
    UnitFields(t);
    KindsAreUnits(t.rows, t.cols, t.side, t.diagonal);
  }

  /** Every box lies in exactly one row unit, one column unit and one block unit (utils.py:39-45). */
  lemma OneRowOneColumnOneBlock(t: Topology)
    requires FromConfig(t)
    ensures forall b :: b in t.boxes ==>
              InExactlyOne(t.rowUnits, b) && InExactlyOne(t.colUnits, b) && InExactlyOne(t.squareUnits, b)
  {
    Labels(t);
    UnitCount(t);
    RowAndColumnMembers(t);
    forall b | b in t.boxes
      ensures InExactlyOne(t.rowUnits, b) && InExactlyOne(t.colUnits, b) && InExactlyOne(t.squareUnits, b)
    {
      var x, y := BoxIndices(t, b);
      assert b in t.rowUnits[x];
      assert b in t.colUnits[y];
      LabelFields(t);
      UnitFields(t);
      var k := BlockOfBox(t.rows, t.cols, t.side, x, y);
      assert b in t.squareUnits[k];
    }
  }

  /** `units[s]` are exactly the units holding `s` (utils.py:55-56). */
  lemma UnitsOfBox(t: Topology)
    requires FromConfig(t)
    ensures t.units.Keys == set b | b in t.boxes
    ensures forall s, u :: s in t.boxes ==> (u in t.units[s] <==> u in t.unitList && s in u)
  {
    MapFields(t);
  }

  /** In the maps built from `boxes` and `unitList`: the peers of `a` are the other members of
      the units holding `a`. */
  lemma PeerMapMember(boxes: seq<string>, unitList: seq<seq<string>>, a: string, b: string)
    requires a in boxes
    ensures a in PeerMap(boxes, UnitMap(boxes, unitList))
    ensures b in PeerMap(boxes, UnitMap(boxes, unitList))[a]
        <==> b != a && exists u :: u in unitList && a in u && b in u
  {
    var units := UnitMap(boxes, unitList);
    assert units[a] == UnitsContaining(unitList, a);
    assert PeerMap(boxes, units)[a] == (set x | x in Flatten(units[a])) - {a};
  }

  /** Both maps have an entry for every box and for nothing else. */
  lemma MapKeys(boxes: seq<string>, unitList: seq<seq<string>>)
    ensures UnitMap(boxes, unitList).Keys == set b | b in boxes
    ensures PeerMap(boxes, UnitMap(boxes, unitList)).Keys == set b | b in boxes
  {
  }

  /** `peers[a]` holds `b` exactly when `b` is another box sharing a unit with `a` (utils.py:58-61). */
  lemma PeersOfBox(t: Topology)
    requires FromConfig(t)
    ensures t.peers.Keys == set b | b in t.boxes
    ensures forall a, b :: a in t.boxes ==>
              (b in t.peers[a] <==> b != a && exists u :: u in t.unitList && a in u && b in u)
  {
    MapFields(t);
    MapKeys(t.boxes, t.unitList);
    forall a, b | a in t.boxes
      ensures b in t.peers[a] <==> b != a && exists u :: u in t.unitList && a in u && b in u
    {
      PeerMapMember(t.boxes, t.unitList, a, b);
    }
  }

  /** No box is its own peer, and the peer relation is symmetric. */
  lemma PeersIrreflexiveSymmetric(t: Topology)
    requires FromConfig(t)
    ensures forall a :: a in t.boxes ==> a !in t.peers[a]
    ensures forall a, b :: a in t.boxes && b in t.boxes ==> (b in t.peers[a] <==> a in t.peers[b])
  {
    PeersOfBox(t);
  }
}

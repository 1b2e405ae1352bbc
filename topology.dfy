/**
 * The constraint topology of a generalised Sudoku of side `side` (block size), built by
 * `init` in utils.py: the row and column labels, the symbol alphabet, the box ids, the row,
 * column, block and (optionally) diagonal units, and for every box its units and its peers.
 */
module Topology {
  import opened Results
  import opened Seqs

  /** The characters that separate cells in grid text: newline, carriage return, tab, space,
      and the table-drawing characters `|`, `+` and `-` (utils.py:6-7). */
  const Separators: string := "\n\r\t |+-"

  /** The separators are exactly the seven alternatives of the pattern `re_ws` (utils.py:7). */
  lemma SeparatorChars()
    ensures forall c :: c in Separators <==>
              c == '\n' || c == '\r' || c == '\t' || c == ' ' || c == '|' || c == '+' || c == '-'
  {
  }

  /** `n` consecutive characters starting at `lo`. */
  function Span(lo: char, n: nat): (r: string)
    requires lo as int + n <= 0xD800
    ensures |r| == n && forall i :: 0 <= i < n ==> r[i] as int == lo as int + i
  {
    seq(n, i requires 0 <= i < n => (lo as int + i) as char)
  }

  /** `string.ascii_uppercase`, the source of the row labels. */
  const UpperCase: string := Span('A', 26)

  /** `'1234567890' + string.lowercase`, the source of the column labels and of the symbols;
      note that `0` comes after `9`. */
  const ColumnAlphabet: string := Span('1', 9) + "0" + Span('a', 26)

  lemma UpperCaseSpelledOut()
    ensures UpperCase == "ABCDEFGHIJKLMNOPQRSTUVWXYZ"
  {
  }

  lemma DigitsSpelledOut()
    ensures Span('1', 9) == "123456789"
  {
  }

  lemma LowerCaseSpelledOut()
    ensures Span('a', 26) == "abcdefghijklmnopqrstuvwxyz"
  {
  }

  lemma ColumnAlphabetSpelledOut()
    ensures ColumnAlphabet == "1234567890abcdefghijklmnopqrstuvwxyz"
  {
    DigitsSpelledOut();
    LowerCaseSpelledOut();
  }

  /** A Python `slice(lo, hi)` with non-negative bounds. */
  datatype Slice = Slice(lo: nat, hi: nat)

  /** `s[lo:hi]`: Python clamps both bounds to the length of `s` and yields nothing when `lo >= hi`. */
  function Apply<T>(s: seq<T>, sl: Slice): (r: seq<T>)
    ensures sl.lo <= sl.hi <= |s| ==> r == s[sl.lo..sl.hi]
    ensures |r| <= |s|
  {
    var hi := if sl.hi < |s| then sl.hi else |s|;
    var lo := if sl.lo < hi then sl.lo else hi;
    s[lo..hi]
  }

  /** `s + t` on two one-character strings: a box id. */
  function Pair(s: char, t: char): string
  {
    [s, t]
  }

  /** `cross(a, b)` (utils.py:10-11): every label of `a` followed by every label of `b`, `a`-major. */
  function Cross(a: string, b: string): (r: seq<string>)
    ensures |r| == |a| * |b|
  {
    Product(a, b, Pair)
  }

  /** `cross(a, b)[i·|b| + j]` is `a[i] + b[j]`. */
  lemma CrossAt(a: string, b: string, i: nat, j: nat) returns (k: nat)
    requires i < |a| && j < |b|
    ensures k == i * |b| + j && k < |Cross(a, b)| && Cross(a, b)[k] == [a[i], b[j]]
  {
    k := ProductAt(a, b, Pair, i, j);
  }

  /** The ids `cross(a, b)` produces are exactly the two-character strings `a`-label then `b`-label. */
  lemma CrossMember(a: string, b: string, x: string)
    ensures x in Cross(a, b) <==> |x| == 2 && x[0] in a && x[1] in b
  {
    var f := Pair;
    ProductMember(a, b, f, x);
    if |x| == 2 && x[0] in a && x[1] in b {
      var i :| 0 <= i < |a| && a[i] == x[0];
      var j :| 0 <= j < |b| && b[j] == x[1];
      assert x == f(a[i], b[j]);
    }
  }

  /** Labels without repeats give ids without repeats. */
  lemma CrossDistinct(a: string, b: string)
    requires Distinct(a) && Distinct(b)
    ensures Distinct(Cross(a, b))
  {
    var f := Pair;
    forall i, j, i', j' | 0 <= i < |a| && 0 <= j < |b| && 0 <= i' < |a| && 0 <= j' < |b| && f(a[i], b[j]) == f(a[i'], b[j'])
      ensures i == i' && j == j'
    {
      assert f(a[i], b[j])[0] == a[i] && f(a[i'], b[j'])[0] == a[i'];
      assert f(a[i], b[j])[1] == b[j] && f(a[i'], b[j'])[1] == b[j'];
    }
    ProductDistinct(a, b, f);
  }

  /** `[''.join(d) for d in zip(a, b)]`: the i-th labels of both, paired; `zip` stops at the shorter. */
  function ZipJoin(a: string, b: string): (r: seq<string>)
  {
    var n := if |a| < |b| then |a| else |b|;
    seq(n, i requires 0 <= i < n => [a[i], b[i]])
  }

  /** `zip` pairs the labels up to the shorter input: entry `i` is `a[i]` then `b[i]`. */
  lemma ZipJoinAt(a: string, b: string)
    ensures |ZipJoin(a, b)| <= |a| && |ZipJoin(a, b)| <= |b|
    ensures |ZipJoin(a, b)| == |a| || |ZipJoin(a, b)| == |b|
    ensures forall i :: 0 <= i < |ZipJoin(a, b)| ==>
              |ZipJoin(a, b)[i]| == 2 && ZipJoin(a, b)[i][0] == a[i] && ZipJoin(a, b)[i][1] == b[i]
  {
  }

  /** `[s[i] for i in xrange(len(s)-1, -1, -1)]`. */
  function Reverse<T>(s: seq<T>): (r: seq<T>)
  {
    seq(|s|, i requires 0 <= i < |s| => s[|s| - 1 - i])
  }

  /** Reversing keeps the length and the elements. */
  lemma ReverseMembers<T>(s: seq<T>)
    ensures |Reverse(s)| == |s|
    ensures forall x :: x in Reverse(s) <==> x in s
  {
    var r := Reverse(s);
    forall x | x in s ensures x in r {
      var k :| 0 <= k < |s| && s[k] == x;
      assert r[|s| - 1 - k] == x;
    }
  }

  /** `[u for u in unitlist if s in u]` (utils.py:55): the units holding `s`, in list order. */
  function UnitsContaining(unitList: seq<seq<string>>, s: string): (r: seq<seq<string>>)
    ensures forall u :: u in r <==> u in unitList && s in u
    ensures |r| <= |unitList|
  {
    if unitList == [] then []
    else
      assert forall u :: u in unitList <==> u == unitList[0] || u in unitList[1..];
      (if s in unitList[0] then [unitList[0]] else []) + UnitsContaining(unitList[1..], s)
  }

  /** The tables `init` builds, bound to one configuration. */
  datatype Topology = Topology(
    side: nat,
    wildcard: char,
    diagonal: bool,
    dim: nat,
    rows: string,
    cols: string,
    symbols: string,
    boxes: seq<string>,
    rowUnits: seq<seq<string>>,
    colUnits: seq<seq<string>>,
    squareUnits: seq<seq<string>>,
    unitList: seq<seq<string>>,
    units: map<string, seq<seq<string>>>,
    peers: map<string, set<string>>)

  /** `init` raises `ValueError` for an unsupported size and `AssertionError` when a separator
      or the wildcard is also a symbol. */
  datatype ConfigError = SizeOutOfRange | SymbolClash

  /** The `sub_slices` of an accepted configuration: `side` consecutive runs of `side` labels. */
  function SubSlices(side: nat): (r: seq<Slice>)
    ensures |r| == side
    ensures side > 0 ==> r[0].lo == 0 && r[side - 1].hi == side * side
    ensures forall k :: 0 <= k < side ==> r[k].hi == r[k].lo + side
    ensures forall k :: 0 <= k < side - 1 ==> r[k + 1].lo == r[k].hi
  {
    var r := seq(side, i requires 0 <= i < side => Slice(i * side, i * side + side));
    assert side > 0 ==> (side - 1) * side + side == side * side;
    assert forall k :: 0 <= k < side - 1 ==> (k + 1) * side == k * side + side;
    r
  }

  /** `string.ascii_uppercase[:dim]` (utils.py:22-24). */
  function RowLabels(dim: nat): (r: string)
    ensures |r| == if dim <= 26 then dim else 26
  {
    Apply(UpperCase, Slice(0, dim))
  }

  /** `('1234567890' + string.lowercase)[:dim]`, also the symbol alphabet (utils.py:23-25). */
  function ColumnLabels(dim: nat): (r: string)
    ensures |r| == if dim <= 36 then dim else 36
  {
    Apply(ColumnAlphabet, Slice(0, dim))
  }

  /** `[labels[s] for s in sub_slices]` (utils.py:35-36). */
  function Blocks(labels: string, subSlices: seq<Slice>): (r: seq<string>)
    ensures |r| == |subSlices|
  {
    seq(|subSlices|, k requires 0 <= k < |subSlices| => Apply(labels, subSlices[k]))
  }

  /** Block `k` is the run of labels that slice `k` selects, clamped to the labels. */
  lemma BlocksAreSlices(labels: string, subSlices: seq<Slice>)
    ensures forall k :: 0 <= k < |subSlices| ==> |Blocks(labels, subSlices)[k]| <= |labels|
    ensures forall k :: 0 <= k < |subSlices| && subSlices[k].lo <= subSlices[k].hi <= |labels| ==>
              Blocks(labels, subSlices)[k] == labels[subSlices[k].lo..subSlices[k].hi]
  {
  }

  /** `[cross(r, cols) for r in rows]` (utils.py:39). */
  function RowUnits(rows: string, cols: string): (r: seq<seq<string>>)
    ensures |r| == |rows| && forall i :: 0 <= i < |r| ==> |r[i]| == |cols|
  {
    seq(|rows|, i requires 0 <= i < |rows| => Cross([rows[i]], cols))
  }

  /** `[cross(rows, c) for c in cols]` (utils.py:40). */
  function ColUnits(rows: string, cols: string): (r: seq<seq<string>>)
    ensures |r| == |cols| && forall j :: 0 <= j < |r| ==> |r[j]| == |rows|
  {
    seq(|cols|, j requires 0 <= j < |cols| => Cross(rows, [cols[j]]))
  }

  /** `[cross(rs, cs) for rs in row_blocks for cs in col_blocks]` (utils.py:42-43). */
  function SquareUnits(rowBlocks: seq<string>, colBlocks: seq<string>): (r: seq<seq<string>>)
    ensures |r| == |rowBlocks| * |colBlocks|
  {
    Product(rowBlocks, colBlocks, Cross)
  }

  /** `[desc_diag, asc_diag]` when `diagonal` is set, otherwise nothing (utils.py:47-52). */
  function DiagonalUnits(rows: string, cols: string, diagonal: bool): (r: seq<seq<string>>)
    ensures |r| == if diagonal then 2 else 0
    ensures forall k :: 0 <= k < |r| ==> |r[k]| <= |rows| && |r[k]| <= |cols|
  {
    if diagonal then [ZipJoin(rows, cols), ZipJoin(Reverse(rows), cols)] else []
  }

  /** `dict((s, [u for u in unitlist if s in u]) for s in boxes)` (utils.py:55-56). */
  function UnitMap(boxes: seq<string>, unitList: seq<seq<string>>): (r: map<string, seq<seq<string>>>)
    ensures r.Keys == set s | s in boxes
    ensures forall s :: s in r ==> forall u :: u in r[s] <==> u in unitList && s in u
  {
    map s | s in boxes :: UnitsContaining(unitList, s)
  }

  /** `dict((s, set(flatten(units[s])) - set([s])) for s in boxes)` (utils.py:58-61); the
      intermediate `sorted` does not change the set. */
  function PeerMap(boxes: seq<string>, units: map<string, seq<seq<string>>>): (r: map<string, set<string>>)
    ensures r.Keys == set s | s in boxes && s in units
    ensures forall s :: s in r ==> s !in r[s]
  {
    map s | s in boxes && s in units :: (set x | x in Flatten(units[s])) - {s}
  }

  /** Everything `init` computes once `sub_slices` is known (utils.py:19-25, 35-61). */
  function Assemble(side: nat, wildcard: char, diagonal: bool, subSlices: seq<Slice>): (t: Topology)
    ensures t.side == side && t.wildcard == wildcard && t.diagonal == diagonal && t.dim == side * side
    ensures t.rows == RowLabels(side * side) && t.cols == ColumnLabels(side * side) && t.symbols == t.cols
  {
    var dim := side * side;
    var rows := RowLabels(dim);
    var cols := ColumnLabels(dim);
    var boxes := Cross(rows, cols);
    var unitList := RowUnits(rows, cols) + ColUnits(rows, cols)
                    + SquareUnits(Blocks(rows, subSlices), Blocks(cols, subSlices))
                    + DiagonalUnits(rows, cols, diagonal);
    var units := UnitMap(boxes, unitList);
    Topology(side, wildcard, diagonal, dim, rows, cols, cols, boxes,
             RowUnits(rows, cols), ColUnits(rows, cols),
             SquareUnits(Blocks(rows, subSlices), Blocks(cols, subSlices)),
             unitList, units, PeerMap(boxes, units))
  }

  /** The dimensions `init` accepts. */
  lemma DimBounds(side: nat)
    requires 2 <= side <= 5
    ensures 4 <= side * side <= 25
  {
    if side == 2 {
    } else if side == 3 {
    } else if side == 4 {
    } else {
    }
  }

  /** What `init(side, wildcard, diagonal)` returns: its tables, or the error it raises
      (utils.py:14-61). */
  function Configure(side: int, wildcard: char, diagonal: bool): (r: Result<Topology, ConfigError>)
    ensures r.Err? <==> !(2 <= side <= 5) || wildcard in ColumnLabels(side * side)
    ensures r == Err(SizeOutOfRange) <==> !(2 <= side <= 5)
    ensures r.Ok? ==> r.value.side == side && r.value.wildcard == wildcard && r.value.diagonal == diagonal
    ensures r.Ok? ==> var t := r.value;
              && t.dim == side * side
              && |t.rows| == t.dim && |t.cols| == t.dim && t.symbols == t.cols
              && t.wildcard !in t.symbols
  {
    if !(2 <= side <= 5) then Err(SizeOutOfRange)
    else
      DimBounds(side);
      var symbols := ColumnLabels(side * side);
      assert wildcard in Separators + [wildcard];
      if exists c :: c in Separators + [wildcard] && c in symbols then Err(SymbolClash)
      else Ok(Assemble(side, wildcard, diagonal, SubSlices(side)))
  }

  /** The loop `for c in ws + wildcard: assert c not in symbols` (utils.py:27-28): it passes
      exactly when no checked character is a symbol. */
  method CheckNotSymbols(checked: string, symbols: string) returns (ok: bool)
    ensures ok <==> forall c :: c in checked ==> c !in symbols
  {
    var n := 0;
    while n < |checked|
      invariant 0 <= n <= |checked|
      invariant forall m :: 0 <= m < n ==> checked[m] !in symbols
    {
      if checked[n] in symbols {
        assert checked[n] in checked;
        return false;
      }
      n := n + 1;
    }
    return true;
  }

  /** The loop appending `slice(i*side, i*side + side)` for each `i` below `side` (utils.py:30-33). */
  method BuildSubSlices(side: nat) returns (subSlices: seq<Slice>)
    ensures |subSlices| == side
    ensures forall k :: 0 <= k < side ==> subSlices[k] == Slice(k * side, k * side + side)
  {
    subSlices := [];
    var i := 0;
    while i < side
      invariant 0 <= i <= side
      invariant |subSlices| == i
      invariant forall k :: 0 <= k < i ==> subSlices[k] == Slice(k * side, k * side + side)
    {
      var base := i * side;
      subSlices := subSlices + [Slice(base, base + side)];
      i := i + 1;
    }
  }

  /** `init` as the source runs it: the range check, the loop asserting that no separator and
      not the wildcard is a symbol, and the loop appending the `sub_slices`. */
  method Init(side: int, wildcard: char, diagonal: bool) returns (r: Result<Topology, ConfigError>)
    ensures r == Configure(side, wildcard, diagonal)
  {
    if !(2 <= side <= 5) {
      return Err(SizeOutOfRange);
    }
    DimBounds(side);
    var dim := side * side;
    var symbols := ColumnLabels(dim);
    var ok := CheckNotSymbols(Separators + [wildcard], symbols);
    if !ok {
      return Err(SymbolClash);
    }
    var subSlices := BuildSubSlices(side);
    assert subSlices == SubSlices(side);
    r := Ok(Assemble(side, wildcard, diagonal, subSlices));
  }

  /** `t` is the value some call of `init` returned. */
  ghost predicate FromConfig(t: Topology)
  {
    Configure(t.side, t.wildcard, t.diagonal) == Ok(t)
  }
}

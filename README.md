# Sudoku grid utilities in Dafny

This project models `utils.py`, the setup half of a generalised Sudoku solver. It has two parts.

- **The topology.** `init(side, wildcard, diagonal)` builds the constraint structure of a puzzle with `dim = side²` rows and columns:
  - the row labels, the column labels and the symbol alphabet;
  - the `dim²` box ids;
  - the row, column and block units, and optionally the two diagonals;
  - for every box, the units holding it and its peers.
- **Reading a puzzle.** `parse_grid` cuts the text of a grid into cell tokens. `grid_values` checks that there are `dim²` tokens and maps each box to its token. An empty cell (the wildcard) becomes the whole symbol alphabet.

The files:

- `seqs.dfy` has two modules. `Results` holds the `Result` type for the errors the source raises. `Seqs` holds the sequence built-ins the Python code leans on: `sum(…, [])`, nested comprehensions and distinctness.
- `topology.dfy` (module `Topology`) holds the tables `init` computes.
  - `Configure` is the value `init` returns, or the error it raises.
  - `Init` is `init` as the source runs it. Its two loops are the methods `CheckNotSymbols` (no separator and not the wildcard is a symbol) and `BuildSubSlices` (the `sub_slices` appends). `Init` is proved to return exactly `Configure`.
  - `Assemble` builds every table from `side`, the wildcard, the diagonal flag and the `sub_slices`. It is the definition that the lemmas of `TopologyFacts` are about. Its own contract only repeats which arguments it was given, so it has no row below.
- `topology_facts.dfy` (module `TopologyFacts`) proves what holds of every configured topology:
  - the boxes form the grid in row-major order;
  - the unit list has the expected count and shape;
  - every box lies in one row, one column and one block;
  - `units` and `peers` are the membership and co-membership relations of the unit list.
  - Six proof helpers in `TopologyFacts` unfold a configured topology into the tables `Assemble` builds: `Assembled`, `AssembleFields`, `LabelFields`, `BoxesField`, `UnitFields` and `MapFields`. They add nothing beyond the definitions and have no row below.
- `grid_text.dfy` (module `GridText`) holds `parse_grid` and `grid_values`.
  - `ParseGrid` is a method proved equal to the function `Tokens`. Its loop over the pieces is the method `ExpandPieces`.
  - `Pieces` is the list `puzzle` (utils.py:102-103): the grid blanked, split on spaces, stripped, with empty pieces dropped (`Kept`).
  - `Expand` is one step of the loop at utils.py:105-108: a piece holding the wildcard and longer than one character falls apart into its characters, any other piece stays whole. `ExpandAll` applies it to every piece in order, and `Tokens` is `ExpandAll` of `Pieces`.
  - `GridValues` is proved equal to `Values` applied to those tokens.
  - The two modules' properties are lemmas.

A *configured* topology `t` is one that some call returned: `FromConfig(t)`, i.e. `Configure(t.side, t.wildcard, t.diagonal) == Ok(t)`. `grid_values` is a closure over the tables of the `init` call that made it, so `GridValues` requires `FromConfig(t)`. Both `parse_grid` and `grid_values` take the wildcard as a keyword argument whose default is the one given to `init`; `ParseGrid` and `GridValues` take it as the parameter `w`, and the caller passing `t.wildcard` gets the default.

## Model

| member | source | states |
|---|---|---|
| Seqs.Flatten | utils.py:58 | `sum(ss, [])` holds exactly the elements of the pieces |
| Seqs.FlattenAppend | utils.py:58 | flattening is a homomorphism: `flatten(ss + tt) == flatten(ss) + flatten(tt)` |
| Seqs.Product | utils.py:11 | a nested comprehension over `a` and `b` has `len(a)·len(b)` elements |
| Seqs.ProductAt | utils.py:11 | the pair (i, j) sits at index `i·len(b) + j` |
| Seqs.ProductIndex | utils.py:11 | every index is `i·len(b) + j` for a pair (i, j), holding that pair's image |
| Seqs.ProductMember | utils.py:11 | an element is in the comprehension exactly when it is the image of some pair |
| Seqs.ProductDistinct | utils.py:11 | repeat-free inputs and an `f` that tells pairs apart give a repeat-free comprehension |
| Seqs.SliceMember | utils.py:35-36 | a slice of a repeat-free sequence holds `s[x]` exactly when `x` is in the slice's range |
| Topology.UpperCaseSpelledOut | utils.py:22 | the row alphabet is `A…Z` |
| Topology.ColumnAlphabetSpelledOut | utils.py:23 | the column alphabet is `1…9`, then `0`, then `a…z` |
| Topology.DigitsSpelledOut | utils.py:23 | the digit run of the column alphabet is `1…9` |
| Topology.LowerCaseSpelledOut | utils.py:23 | `string.lowercase` is `a…z` |
| Topology.Apply | utils.py:24 | a Python slice with clamped bounds: the ordinary subsequence when the bounds fit, never longer than the input |
| Topology.RowLabels | utils.py:22-24 | `ascii_uppercase[:dim]` has `dim` labels, or all 26 when `dim` is larger, as the slice clamps |
| Topology.ColumnLabels | utils.py:23-25 | the column labels (and symbols) are `dim` characters, or all 36 when `dim` is larger |
| Topology.SeparatorChars | utils.py:6-7 | `ws` holds exactly the seven characters that the pattern `re_ws` matches |
| Topology.Cross | utils.py:10-11 | `cross(a, b)` has `len(a)·len(b)` elements |
| Topology.CrossAt | utils.py:10-11 | `cross(a, b)[i·len(b) + j] == a[i] + b[j]`, so the order is `a`-major |
| Topology.CrossMember | utils.py:10-11 | the elements of `cross(a, b)` are exactly the two-character strings with a label of `a` then a label of `b` |
| Topology.CrossDistinct | utils.py:10-11 | repeat-free labels give repeat-free ids |
| Topology.UnitsContaining | utils.py:55 | `[u for u in unitlist if s in u]` holds exactly the units of the list that contain `s` |
| Topology.ZipJoinAt | utils.py:48-50 | `zip` stops at the shorter input; entry `i` is `a[i]` followed by `b[i]` |
| Topology.ReverseMembers | utils.py:49 | the reversed rows have the same length and the same labels |
| Topology.SubSlices | utils.py:30-33 | `side` slices, the first starting at 0 and the last ending at `side²`, each `side` long and each starting where the previous ends |
| Topology.Blocks | utils.py:35-36 | one block per slice |
| Topology.BlocksAreSlices | utils.py:35-36 | block `k` is the run of labels slice `k` selects, clamped to the labels |
| Topology.RowUnits | utils.py:39 | one row unit per row label, each with one id per column label |
| Topology.ColUnits | utils.py:40 | one column unit per column label, each with one id per row label |
| Topology.SquareUnits | utils.py:42-43 | one block per pair of a row band and a column band |
| Topology.DiagonalUnits | utils.py:47-52 | two diagonals when `diagonal` is set and none otherwise, neither longer than the labels |
| Topology.UnitMap | utils.py:55-56 | the keys are exactly the boxes, and `units[s]` holds exactly the units of the list that contain `s` |
| Topology.PeerMap | utils.py:58-61 | the keys are the boxes that have units, and no box is its own peer |
| Topology.Configure | utils.py:14-61 | `init` fails exactly when `side` is outside 2..5 (`ValueError`) or the wildcard is one of the first `side²` column labels (`AssertionError`); otherwise `dim == side²`, there are `dim` row and `dim` column labels, the symbols are the column labels, and the wildcard is not a symbol |
| Topology.CheckNotSymbols | utils.py:27-28 | the assert loop passes exactly when no checked character is a symbol |
| Topology.BuildSubSlices | utils.py:30-33 | the loop yields `side` slices, slice `k` covering `[k·side, k·side + side)` |
| Topology.Init | utils.py:14-61 | the source's loops (the separator and wildcard check, the `sub_slices` appends) return exactly what `Configure` describes |
| Topology.DimBounds | utils.py:16-19 | an accepted `side` gives `4 ≤ dim ≤ 25` |
| TopologyFacts.LabelsDistinct | utils.py:22-28 | the first `dim` labels of each alphabet have no repeats, and no separator is a column label |
| TopologyFacts.CrossByRows | utils.py:38-39 | `cross(rows, cols)` is the row units laid end to end |
| TopologyFacts.RowUnitMember | utils.py:39 | the box (x, y) is in row unit `i` exactly when `x == i` |
| TopologyFacts.ColUnitMember | utils.py:40 | the box (x, y) is in column unit `j` exactly when `y == j` |
| TopologyFacts.BandSlice | utils.py:30-36 | band `i` of the labels is the slice `[i·side, i·side + side)` |
| TopologyFacts.BandMember | utils.py:30-36 | label `x` is in band `p` exactly when `x / side == p` |
| TopologyFacts.BandIsSlice | utils.py:30-36 | every band holds `side` distinct labels |
| TopologyFacts.BlockShape | utils.py:42-43 | block `k = p·side + q` is the cross of row band `p` with column band `q` |
| TopologyFacts.BlockMember | utils.py:42-43 | the box (x, y) is in block `k` exactly when `x / side == k / side` and `y / side == k % side` |
| TopologyFacts.BlockIndex | utils.py:42-43 | `(x / side)·side + y / side` is the only block index whose row and column band are those of `x` and `y` |
| TopologyFacts.BlockOfBox | utils.py:42-43 | the box (x, y) is in block `(x / side)·side + y / side` and in no other block |
| TopologyFacts.BlockIsUnit | utils.py:42-43 | every block holds `dim` distinct boxes of the grid |
| TopologyFacts.DiagonalMember | utils.py:47-52 | the box (x, y) is on the descending diagonal exactly when `x == y`, and on the ascending one exactly when `x + y == dim - 1` |
| TopologyFacts.DiagonalIsUnit | utils.py:47-52 | each diagonal holds `dim` distinct boxes of the grid |
| TopologyFacts.Labels | utils.py:19-28 | `2 ≤ side ≤ 5`, `dim = side²`; the labels are the first `dim` characters of each alphabet, without repeats; the symbols are the column labels; no separator and not the wildcard is a symbol |
| TopologyFacts.BoxesRowMajor | utils.py:38-39 | `boxes` are `dim²` distinct ids; they are the row units end to end; `row_units[i][j]` is the box (i, j); they are exactly the row-label/column-label pairs |
| TopologyFacts.RowUnitCells | utils.py:39 | row unit `i` lists `rows[i] + cols[j]` at position `j`, one per column label |
| TopologyFacts.BoxesDistinct | utils.py:38 | `boxes` are `dim²` ids, none repeated |
| TopologyFacts.BoxAt | utils.py:38 | the box (x, y) sits at index `x·dim + y` of `boxes` |
| TopologyFacts.BoxIndices | utils.py:38 | every box id is the box (x, y) of some row `x` and column `y` |
| TopologyFacts.UnitCount | utils.py:39-52 | there are `dim` row, `dim` column and `dim` block units; the unit list has `3·dim` units, or `3·dim + 2` with the diagonals, and starts with rows, columns and blocks in that order |
| TopologyFacts.RowAndColumnMembers | utils.py:39-40 | the box (x, y) is in row unit `i` exactly when `x == i`, and in column unit `j` exactly when `y == j` |
| TopologyFacts.BlockMembers | utils.py:30-43 | the box (x, y) is in block `k` exactly when `x / side == k / side` and `y / side == k % side`: the blocks are the side×side tiles |
| TopologyFacts.Diagonals | utils.py:47-52 | with `diagonal`, the two extra units are `rows[i] + cols[i]` and `rows[dim-1-i] + cols[i]`, and they hold the box (x, y) exactly when `x == y` and when `x + y == dim - 1` |
| TopologyFacts.RowUnitIsUnit | utils.py:39 | every row unit holds one distinct box per column label, all of them boxes |
| TopologyFacts.ColUnitIsUnit | utils.py:40 | every column unit holds one distinct box per row label, all of them boxes |
| TopologyFacts.KindsAreUnits | utils.py:39-52 | every row, column, block and diagonal unit holds `dim` distinct boxes of the grid |
| TopologyFacts.UnitsHoldDimBoxes | utils.py:39-52 | every unit holds exactly `dim` distinct boxes |
| TopologyFacts.OneRowOneColumnOneBlock | utils.py:39-45 | every box lies in exactly one row unit, exactly one column unit and exactly one block |
| TopologyFacts.UnitsOfBox | utils.py:55-56 | `units` has a key for every box and no other; `units[s]` holds exactly the units of the list that contain `s` |
| TopologyFacts.MapKeys | utils.py:55-61 | both dictionaries have exactly the boxes as keys |
| TopologyFacts.PeerMapMember | utils.py:58-61 | `peers[a]` holds `b` exactly when `b != a` and some unit holds both |
| TopologyFacts.PeersOfBox | utils.py:58-61 | `peers` has a key for every box and no other, and `b ∈ peers[a]` exactly when `b` is another box sharing a unit with `a` |
| TopologyFacts.PeersIrreflexiveSymmetric | utils.py:58-61 | no box is its own peer, and `b ∈ peers[a] ⇔ a ∈ peers[b]` |
| GridText.Blank | utils.py:102 | the regex substitution keeps the length, puts a space exactly where a separator was, and leaves every other character in place |
| GridText.WhitespaceAndSeparators | utils.py:102-103 | `strip` removes the separators other than the bar, `+` and `-`, and vertical tab and form feed, which are not separators |
| GridText.BlankFixed | utils.py:102 | the substitution leaves alone a string whose only separators are spaces |
| GridText.Split | utils.py:103 | `split(' ')` yields at least one piece; no piece holds a space; every character of a piece comes from the input |
| GridText.SplitCons | utils.py:103 | a character other than a space in front of a string joins its first piece |
| GridText.SplitRun | utils.py:103 | a space-free run in front of a string becomes the front of its first piece |
| GridText.JoinChars | utils.py:103 | a character of `' '.join(ps)` is a joining space or a character of a piece |
| GridText.SplitJoin | utils.py:103 | `' '.join(s.split(' ')) == s` |
| GridText.JoinSplit | utils.py:103 | `' '.join(ps).split(' ') == ps` for space-free pieces |
| GridText.Strip | utils.py:103 | `strip()` is a contiguous slice `p[i:j]` of the input, everything before `i` and from `j` on being whitespace; it yields `''` exactly when the input is all whitespace; otherwise the result starts and ends with non-whitespace; it is the identity on input without whitespace |
| GridText.Kept | utils.py:103 | every kept piece is the non-empty strip of an input piece; `KeptMember` gives the converse |
| GridText.KeptMember | utils.py:103 | a string is a kept piece exactly when it is non-empty and is the strip of some input piece |
| GridText.KeptClean | utils.py:103 | non-empty pieces without whitespace are all kept, whole |
| GridText.CharsAre | utils.py:106 | a piece falls apart into one single-character token per character |
| GridText.ExpandAll | utils.py:104-109 | every token comes from expanding a piece; `ExpandAllMember` gives the converse |
| GridText.ExpandAllMember | utils.py:104-109 | a string is a token exactly when it comes from expanding one of the pieces, so a piece kept whole stays whole beside pieces that are split into characters |
| GridText.ExpandAllKeeps | utils.py:104-109 | when the wildcard only occurs alone, the loop keeps every piece whole |
| GridText.ExpandPieces | utils.py:104-109 | the loop over `puzzle` builds exactly `ExpandAll(puzzle, w)` |
| GridText.ParseGrid | utils.py:95-110 | returns exactly `Tokens(grid, w)`; every token is non-empty, holds no separator, and is the bare wildcard if it holds the wildcard at all |
| GridText.TokensOfJoin | utils.py:95-110 | separators divide the tokens: cells written out with single spaces between them come back as exactly those cells |
| GridText.PiecesClean | utils.py:102-103 | every piece of `puzzle` is non-empty and holds only characters of the grid that are not separators |
| GridText.ExpandClean | utils.py:105-108 | a piece holding the wildcard and something else falls apart into single characters, so no expanded token holds the wildcard beside another character |
| GridText.TokensClean | utils.py:102-109 | every token is non-empty, holds no separator, and is the bare wildcard if it holds the wildcard |
| GridText.Without | utils.py:102-103 | removing characters keeps exactly the characters not removed |
| GridText.BlankWithout | utils.py:102 | deleting the spaces after the substitution is deleting the separators |
| GridText.SplitFlatten | utils.py:103 | the pieces of `split(' ')` laid end to end are the input without its spaces |
| GridText.KeptFlatten | utils.py:103 | on whitespace-free pieces, stripping and dropping empties loses no character |
| GridText.CharsFlatten | utils.py:106 | the single characters of a piece laid end to end are the piece |
| GridText.ExpandPieceFlatten | utils.py:105-108 | expanding one piece, into characters or not, keeps its characters in order |
| GridText.ExpandFlatten | utils.py:104-109 | the expansion loop loses and reorders no character |
| GridText.TokensContent | utils.py:102-109 | for a grid without vertical tab or form feed, the tokens laid end to end are the grid with its separators deleted, in order |
| GridText.CompactGrid | utils.py:104-109 | a separator-free, whitespace-free grid of two or more characters that holds the wildcard becomes one token per character |
| GridText.DictOf | utils.py:127 | every key of `dict(zip(keys, vals))` is one of `keys` |
| GridText.DictOfKeys | utils.py:127 | with a value for every key, the dictionary's keys are exactly `keys` |
| GridText.DictOfAt | utils.py:127 | with distinct keys and equally many values, the dictionary's keys are exactly `keys`, and it maps `keys[i]` to `vals[i]` |
| GridText.GridValues | utils.py:112-127 | returns exactly `Values` of the parsed tokens; fails (`AssertionError` with `dim²` and `dim`) exactly when the token count is not `dim²`; on success the keys are exactly the boxes, and `boxes[i]` maps to token `i`, or to `symbols` when token `i` is the bare wildcard |
| GridText.ValuesOfTokens | utils.py:122-127 | for any token list: the error condition and error value; on success the keys are the boxes, and `boxes[i]` maps to token `i`, or to `symbols` when token `i` is the bare wildcard |
| GridText.CellAt | utils.py:122-127 | the box (x, y) holds token `x·dim + y`, with a wildcard token replaced by `symbols` |
| GridText.CleanFill | utils.py:126-127 | zipping clean tokens onto distinct boxes, with a clean symbol string for the wildcard, gives values that are non-empty and hold no separator, and hold the wildcard only if the symbols do |
| GridText.FilledDict | utils.py:126-127 | after the substitution, `dict(zip(boxes, …))` maps `boxes[i]` to token `i`, or to `symbols` for a bare wildcard |
| GridText.Fill | utils.py:126 | one value per token |
| GridText.FilledClean | utils.py:126-127 | clean tokens give values that are non-empty and hold no separator; unless the wildcard is itself a symbol, no value holds it |
| GridText.ValuesClean | utils.py:112-127 | every value `grid_values` produces is non-empty and holds no separator; unless the wildcard is itself a symbol, no value holds it |

## Left out

- `display` (utils.py:78-93) only prints the grid, so it is not modelled.
- The `if 0:` debug block (utils.py:63-75) never runs and only prints.
- `grid_values.__doc__ %= locals()` (utils.py:128) only formats a docstring.
- The module-level `display, parse_grid, grid_values = init(3)` (utils.py:132) sets process-wide state. The model passes explicit `Topology` values instead.
- `init` returning three closures (utils.py:130) is modelled as the `Topology` value. `parse_grid` is the function `Tokens(grid, w)`, which needs no table of `init`; `grid_values` is the function `Values(t, tokens, w)` over the `Topology` value and the tokens.
- The wildcard is a single character. Python accepts any string; with a longer wildcard, `init` would check each of its characters, and `parse_grid` would test for a substring.
- The regular expression engine is not modelled, only its effect: each separator character becomes a space (`Blank`).
- `sorted` in the peer table (utils.py:60) is not modelled, because it is applied to a set that is immediately made a set again.
- `xrange` and `string.lowercase` appear only through the sequences they produce.
- One Dafny character stands for one byte of a Python 2 `str`. Input outside that assumption behaves differently in the source: for a byte string holding a multi-byte character such as `é`, `[c for c in piece]` (utils.py:107) yields one token per byte where `Chars` yields one per character; for a `unicode` argument, `strip()` also removes characters such as U+0085 and U+00A0, which `PyWhitespace` does not list.
- utils_test.py calls `eliminate`, `only_choice`, `naked_twins`, `reduce_puzzle`, `search` and `values_grid`. utils.py does not define them, so they are not modelled.
- utils_test.py:35 expects the token `432` to come back as `234`. The `parse_grid` of utils.py never sorts, so the model keeps `432`, as the code does.
- GridText.TokensContent: requires a grid without vertical tab or form feed. `strip` would drop those characters at the ends of a token, and a characterisation that allows for that is left out.
- The default arguments of `init` (`wildcard='.'`, `diagonal=False`, utils.py:14) are not modelled: `Configure` and `Init` always take all three parameters.
- `SymbolClash` models the bare `assert` at utils.py:28. Under `python -O` that assert is removed, and `init` would then accept a clashing wildcard; the model always checks.
- The integer arithmetic (`side * side`, `i * side`) cannot overflow in Python, so it is modelled on unbounded integers.

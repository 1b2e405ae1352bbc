/**
 * Reading a puzzle: `parse_grid` cuts the text of a grid into cell tokens, and `grid_values`
 * turns a token list of the right length into the map from box id to cell contents, an empty
 * cell (the wildcard) becoming the whole symbol alphabet (utils.py:95-127).
 */
module GridText {
  import opened Results
  import opened Seqs
  import opened Topology
  import TopologyFacts

  /** What Python 2's `str.strip()` removes from a byte string, one character standing for one
      byte: space, tab, newline, carriage return, vertical tab and form feed. */
  const PyWhitespace: string := " \t\n\r\U{B}\U{C}"

  /** The whitespace `strip` removes is the separators other than `|`, `+` and `-`, plus vertical
      tab and form feed, which are not separators. */
  lemma WhitespaceAndSeparators()
    ensures forall c :: c in Separators ==> (c in PyWhitespace <==> c != '|' && c != '+' && c != '-')
    ensures forall c :: c in PyWhitespace ==> c in Separators || c == '\U{B}' || c == '\U{C}'
    ensures '\U{B}' !in Separators && '\U{C}' !in Separators
  {
  }

  /** `re_ws.sub(' ', grid)` (utils.py:7, 102): every separator becomes a space, and every
      other character stays where it is. */
  function Blank(g: string): (r: string)
    ensures |r| == |g|
    ensures forall i :: 0 <= i < |g| ==> (r[i] == ' ' <==> g[i] in Separators)
    ensures forall i :: 0 <= i < |g| && g[i] !in Separators ==> r[i] == g[i]
    ensures forall c :: c in r ==> c == ' ' || (c in g && c !in Separators)
  {
    if g == [] then []
    else [if g[0] in Separators then ' ' else g[0]] + Blank(g[1..])
  }

  /** `s.split(' ')`: the runs of characters between single spaces, empty runs included, so a
      string with `n` spaces yields `n + 1` pieces. */
  function Split(s: string): (r: seq<string>)
    ensures r != []
    ensures forall p :: p in r ==> ' ' !in p
    ensures forall p, c :: p in r && c in p ==> c in s
  {
    if s == [] then [""]
    else
      var rest := Split(s[1..]);
      if s[0] == ' ' then [""] + rest
      else
        assert forall p :: p in rest[1..] ==> p in rest;
        [[s[0]] + rest[0]] + rest[1..]
  }

  /** `' '.join(ps)`. */
  function Join(ps: seq<string>): string
  {
    if |ps| == 0 then ""
    else if |ps| == 1 then ps[0]
    else ps[0] + " " + Join(ps[1..])
  }

  /** Joining the pieces with single spaces gives back the string that was split. */
  lemma {:induction false} SplitJoin(s: string)
    ensures Join(Split(s)) == s
  {
    if s != [] {
      var rest := Split(s[1..]);
      SplitJoin(s[1..]);
      assert s == [s[0]] + s[1..];
      if s[0] == ' ' {
        SplitSpace(s[1..]);
        assert Join(Split(s)) == "" + " " + Join(rest);
      } else {
        SplitCons(s[0], s[1..]);
        if |rest| == 1 {
          assert Join(Split(s)) == [s[0]] + rest[0];
        } else {
          assert Join(rest) == rest[0] + " " + Join(rest[1..]);
          assert Join(Split(s)) == [s[0]] + rest[0] + " " + Join(rest[1..]);
        }
      }
    }
  }

  /** Splitting pieces that hold no space after joining them gives back the pieces. */
  lemma {:induction false} JoinSplit(ps: seq<string>)
    requires ps != [] && forall p :: p in ps ==> ' ' !in p
    ensures Split(Join(ps)) == ps
  {
    if |ps| == 1 {
      SplitRun(ps[0], []);
      assert ps[0] + [] == ps[0] && ps[0] + Split([])[0] == ps[0];
      assert ps == [ps[0]];
    } else {
      JoinSplit(ps[1..]);
      assert Join(ps) == ps[0] + ([' '] + Join(ps[1..]));
      SplitSpace(Join(ps[1..]));
      var tail := [' '] + Join(ps[1..]);
      SplitRun(ps[0], tail);
      assert Split(tail) == [""] + ps[1..];
      assert Split(tail)[0] == "" && Split(tail)[1..] == ps[1..];
      assert ps[0] + "" == ps[0];
      assert ps == [ps[0]] + ps[1..];
    }
  }

  /** A string that starts with a space splits into an empty piece, then the pieces of the rest. */
  lemma SplitSpace(s: string)
    ensures Split([' '] + s) == [""] + Split(s)
  {
    assert ([' '] + s)[1..] == s;
  }

  /** A character other than a space in front of `s` joins the first piece of `s`. */
  lemma SplitCons(c: char, s: string)
    requires c != ' '
    ensures Split([c] + s) == [[c] + Split(s)[0]] + Split(s)[1..]
  {
    assert ([c] + s)[1..] == s;
  }

  /** A run without spaces in front of `s` becomes the front of the first piece of `s`. */
  lemma {:induction false} SplitRun(run: string, s: string)
    requires ' ' !in run
    ensures Split(run + s) == [run + Split(s)[0]] + Split(s)[1..]
  {
    if run == [] {
      assert run + s == s && run + Split(s)[0] == Split(s)[0];
      assert Split(s) == [Split(s)[0]] + Split(s)[1..];
    } else {
      var c, tail := run[0], run[1..];
      assert run == [c] + tail && c in run;
      assert run + s == [c] + (tail + s);
      calc {
        Split(run + s);
        Split([c] + (tail + s));
        { SplitCons(c, tail + s); }
        [[c] + Split(tail + s)[0]] + Split(tail + s)[1..];
        { SplitRun(tail, s); }
        [[c] + (tail + Split(s)[0])] + Split(s)[1..];
        { assert [c] + (tail + Split(s)[0]) == run + Split(s)[0]; }
        [run + Split(s)[0]] + Split(s)[1..];
      }
    }
  }

  /** The number of whitespace characters at the front of `p`. */
  function Lead(p: string): (i: nat)
    ensures i <= |p|
    ensures forall k :: 0 <= k < i ==> p[k] in PyWhitespace
    ensures i < |p| ==> p[i] !in PyWhitespace
  {
    if p == [] || p[0] !in PyWhitespace then 0 else 1 + Lead(p[1..])
  }

  /** Where the whitespace at the back of `p` starts. */
  function Trail(p: string): (j: nat)
    ensures j <= |p|
    ensures forall k :: j <= k < |p| ==> p[k] in PyWhitespace
    ensures 0 < j ==> p[j - 1] !in PyWhitespace
  {
    if p == [] || p[|p| - 1] !in PyWhitespace then |p| else Trail(p[..|p| - 1])
  }

  /** `c.strip()`: `p` without its leading and trailing whitespace. */
  function Strip(p: string): (r: string)
    ensures forall c :: c in r ==> c in p
    ensures r == [] <==> forall c :: c in p ==> c in PyWhitespace
    ensures r != [] ==> r[0] !in PyWhitespace && r[|r| - 1] !in PyWhitespace
    ensures (forall c :: c in p ==> c !in PyWhitespace) ==> r == p
    ensures exists i, j :: 0 <= i <= j <= |p| && r == p[i..j]
              && (forall k :: 0 <= k < i ==> p[k] in PyWhitespace)
              && (forall k :: j <= k < |p| ==> p[k] in PyWhitespace)
  {
    var j := Trail(p);
    var i := Lead(p[..j]);
    assert forall k :: 0 <= k < i ==> p[k] == p[..j][k];
    if i == j then
      assert forall c :: c in p ==> c in PyWhitespace by {
        forall c | c in p ensures c in PyWhitespace {
          var k :| 0 <= k < |p| && p[k] == c;
        }
      }
      p[i..j]
    else
      assert p[i] !in PyWhitespace && p[i] in p;
      p[i..j]
  }

  /** `[c.strip() for c in raw if c.strip()]`. */
  function Kept(raw: seq<string>): (r: seq<string>)
    ensures forall q :: q in r ==> q != [] && exists p :: p in raw && q == Strip(p)
  {
    if raw == [] then []
    else
      var head := Strip(raw[0]);
      var rest := Kept(raw[1..]);
      assert forall p :: p in raw[1..] ==> p in raw;
      assert raw[0] in raw;
      (if head != [] then [head] else []) + rest
  }

  /** A piece is kept exactly when it is the non-empty strip of some raw piece. */
  lemma {:induction false} KeptMember(raw: seq<string>, q: string)
    ensures q in Kept(raw) <==> q != [] && exists p :: p in raw && q == Strip(p)
  {
    if raw != [] {
      KeptMember(raw[1..], q);
      if q != [] && exists p :: p in raw && q == Strip(p) {
        var p :| p in raw && q == Strip(p);
        if p != raw[0] {
          assert p in raw[1..];
        }
      }
    }
  }

  /** `puzzle` in `parse_grid` (utils.py:102-103): the stripped, non-empty runs between separators. */
  function Pieces(grid: string): seq<string>
  {
    Kept(Split(Blank(grid)))
  }

  /** Every character of `p` as a one-character string: `[c for c in piece]`. */
  function Chars(p: string): seq<string>
  {
    seq(|p|, i requires 0 <= i < |p| => [p[i]])
  }

  /** A piece falls apart into as many tokens as it has characters, each one of them. */
  lemma CharsAre(p: string)
    ensures |Chars(p)| == |p|
    ensures forall q :: q in Chars(p) ==> |q| == 1 && q[0] in p
  {
  }

  /** What the loop of `parse_grid` adds for one piece (utils.py:105-108): a piece holding the
      wildcard and something else falls apart into its characters; any other piece stays whole. */
  function Expand(p: string, w: char): seq<string>
  {
    if w in p && |p| > 1 then Chars(p) else [p]
  }

  /** `new` after the loop of `parse_grid` has seen every piece of `ps`. */
  function ExpandAll(ps: seq<string>, w: char): (r: seq<string>)
    ensures forall q :: q in r ==> exists p :: p in ps && q in Expand(p, w)
  {
    if ps == [] then []
    else
      assert forall p :: p in ps[..|ps| - 1] ==> p in ps;
      ExpandAll(ps[..|ps| - 1], w) + Expand(ps[|ps| - 1], w)
  }

  /** A token is in `new` exactly when it comes from expanding one of the pieces, so a piece
      appended whole stays whole beside pieces that fall apart. */
  lemma {:induction false} ExpandAllMember(ps: seq<string>, w: char, q: string)
    ensures q in ExpandAll(ps, w) <==> exists p :: p in ps && q in Expand(p, w)
  {
    if ps != [] {
      var init, last := ps[..|ps| - 1], ps[|ps| - 1];
      assert ps == init + [last];
      assert ExpandAll(ps, w) == ExpandAll(init, w) + Expand(last, w);
      ExpandAllMember(init, w, q);
      if q in ExpandAll(init, w) {
        var p :| p in init && q in Expand(p, w);
        assert p in ps;
      } else if q in Expand(last, w) {
        assert last in ps;
      }
      if exists p :: p in ps && q in Expand(p, w) {
        var p :| p in ps && q in Expand(p, w);
        if p != last {
          assert p in init;
        }
      }
    }
  }

  /** The token list `parse_grid(grid, w)` returns. */
  function Tokens(grid: string, w: char): seq<string>
  {
    ExpandAll(Pieces(grid), w)
  }

  /** The loop of `parse_grid` (utils.py:104-109): each piece holding the wildcard and something
      else is extended into `new` character by character, any other piece is appended whole. */
  method ExpandPieces(puzzle: seq<string>, w: char) returns (tokens: seq<string>)
    ensures tokens == ExpandAll(puzzle, w)
  {
    tokens := [];
    var i := 0;
    while i < |puzzle|
      invariant 0 <= i <= |puzzle|
      invariant tokens == ExpandAll(puzzle[..i], w)
    {
      var piece := puzzle[i];
      if w in piece && |piece| > 1 {
        tokens := tokens + Chars(piece);
      } else {
        tokens := tokens + [piece];
      }
      assert puzzle[..i + 1][..i] == puzzle[..i];
      i := i + 1;
    }
    assert puzzle[..i] == puzzle;
  }

  /** `parse_grid` (utils.py:95-110): blank out the separators, split and strip, then expand the
      pieces one by one. */
  method ParseGrid(grid: string, w: char) returns (tokens: seq<string>)
    ensures tokens == Tokens(grid, w)
    ensures forall q :: q in tokens ==>
              q != [] && (forall c :: c in q ==> c !in Separators) && (w in q ==> q == [w])
  {
    var puzzle := Pieces(grid);
    tokens := ExpandPieces(puzzle, w);
    TokensClean(grid, w);
  }

  /** Every piece is non-empty and holds only characters of the grid that are not separators. */
  lemma PiecesClean(grid: string)
    ensures forall q :: q in Pieces(grid) ==> q != [] && forall c :: c in q ==> c in grid && c !in Separators
  {
    forall q, c | q in Pieces(grid) && c in q
      ensures c in grid && c !in Separators
    {
      var p :| p in Split(Blank(grid)) && q == Strip(p);
      assert c in p && c in Blank(grid) && c != ' ';
    }
  }

  /** Expanding a clean piece gives clean tokens, and the wildcard ends up alone in its token. */
  lemma ExpandClean(p: string, w: char)
    requires p != [] && forall c :: c in p ==> c !in Separators
    ensures forall q :: q in Expand(p, w) ==>
              q != [] && (forall c :: c in q ==> c !in Separators) && (w in q ==> q == [w])
  {
    forall q | q in Expand(p, w)
      ensures q != [] && (forall c :: c in q ==> c !in Separators) && (w in q ==> q == [w])
    {
      if w in p && |p| > 1 {
        var k :| 0 <= k < |p| && Chars(p)[k] == q;
        assert q == [p[k]];
      } else if w in q {
        assert |q| == 1 && q == [q[0]];
      }
    }
  }

  /** Every token is non-empty and holds no separator, and a token holding the wildcard is the
      wildcard alone. */
  lemma TokensClean(grid: string, w: char)
    ensures forall q :: q in Tokens(grid, w) ==>
              q != [] && (forall c :: c in q ==> c !in Separators) && (w in q ==> q == [w])
  {
    PiecesClean(grid);
    forall q | q in Tokens(grid, w)
      ensures q != [] && (forall c :: c in q ==> c !in Separators) && (w in q ==> q == [w])
    {
      var p :| p in Pieces(grid) && q in Expand(p, w);
      ExpandClean(p, w);
    }
  }

  /** `s` without the characters of `cs`. */
  function Without(s: string, cs: string): (r: string)
    ensures forall c :: c in r <==> c in s && c !in cs
  {
    if s == [] then []
    else
      assert forall c :: c in s <==> c == s[0] || c in s[1..];
      (if s[0] in cs then [] else [s[0]]) + Without(s[1..], cs)
  }

  lemma {:induction false} BlankWithout(g: string)
    ensures Without(Blank(g), " ") == Without(g, Separators)
  {
    if g != [] {
      BlankWithout(g[1..]);
      assert Blank(g)[1..] == Blank(g[1..]);
    }
  }

  lemma {:induction false} SplitFlatten(s: string)
    ensures Flatten(Split(s)) == Without(s, " ")
  {
    if s != [] {
      SplitFlatten(s[1..]);
      var rest := Split(s[1..]);
      if s[0] == ' ' {
        assert ([""] + rest)[1..] == rest;
      } else {
        assert ([[s[0]] + rest[0]] + rest[1..])[1..] == rest[1..];
        assert Flatten(rest) == rest[0] + Flatten(rest[1..]);
      }
    }
  }

  lemma {:induction false} KeptFlatten(raw: seq<string>)
    requires forall p, c :: p in raw && c in p ==> c !in PyWhitespace
    ensures Flatten(Kept(raw)) == Flatten(raw)
  {
    if raw != [] {
      assert forall p :: p in raw[1..] ==> p in raw;
      KeptFlatten(raw[1..]);
      var head, rest := raw[0], Kept(raw[1..]);
      assert head in raw;
      assert Strip(head) == head;
      assert Flatten(raw) == head + Flatten(raw[1..]);
      if head == [] {
        assert Kept(raw) == rest;
        assert Flatten(raw) == Flatten(raw[1..]);
      } else {
        assert Kept(raw) == [head] + rest;
        assert ([head] + rest)[0] == head && ([head] + rest)[1..] == rest;
        assert Flatten([head] + rest) == head + Flatten(rest);
      }
    }
  }

  lemma {:induction false} CharsFlatten(p: string)
    ensures Flatten(Chars(p)) == p
  {
    if p != [] {
      assert Chars(p)[1..] == Chars(p[1..]);
      CharsFlatten(p[1..]);
      assert p == [p[0]] + p[1..];
    }
  }

  lemma FlattenOne(s: string)
    ensures Flatten([s]) == s
  {
    assert Flatten([s]) == s + Flatten([s][1..]);
  }

  /** Expanding one piece keeps its characters in order. */
  lemma ExpandPieceFlatten(p: string, w: char)
    ensures Flatten(Expand(p, w)) == p
  {
    if w in p && |p| > 1 {
      CharsFlatten(p);
    } else {
      FlattenOne(p);
    }
  }

  lemma {:induction false} ExpandFlatten(ps: seq<string>, w: char)
    ensures Flatten(ExpandAll(ps, w)) == Flatten(ps)
  {
    if ps != [] {
      var init, last := ps[..|ps| - 1], ps[|ps| - 1];
      assert ps == init + [last];
      calc {
        Flatten(ExpandAll(ps, w));
        Flatten(ExpandAll(init, w) + Expand(last, w));
        { FlattenAppend(ExpandAll(init, w), Expand(last, w)); }
        Flatten(ExpandAll(init, w)) + Flatten(Expand(last, w));
        { ExpandFlatten(init, w); ExpandPieceFlatten(last, w); }
        Flatten(init) + last;
        { FlattenOne(last); }
        Flatten(init) + Flatten([last]);
        { FlattenAppend(init, [last]); }
        Flatten(ps);
      }
    }
  }

  /** With no vertical tab and no form feed in the grid (`strip` would drop them), the tokens laid
      end to end are the grid without its separators: nothing is lost or reordered. */
  lemma TokensContent(grid: string, w: char)
    requires forall c :: c in grid ==> c != '\U{B}' && c != '\U{C}'
    ensures Flatten(Tokens(grid, w)) == Without(grid, Separators)
  {
    var raw := Split(Blank(grid));
    forall p, c | p in raw && c in p ensures c !in PyWhitespace {
      assert c in Blank(grid) && c != ' ';
    }
    KeptFlatten(raw);
    SplitFlatten(Blank(grid));
    BlankWithout(grid);
    ExpandFlatten(Pieces(grid), w);
  }

  /** A grid written without separators or spaces that holds the wildcard becomes one token per
      character, as for the 81-character puzzles of the tests (utils_test.py:18-22). */
  lemma CompactGrid(grid: string, w: char)
    requires |grid| > 1 && w in grid
    requires forall c :: c in grid ==> c !in Separators && c !in PyWhitespace
    ensures Tokens(grid, w) == Chars(grid)
  {
    assert Blank(grid) == grid;
    assert Split(grid) == [grid] by {
      JoinSplit([grid]);
    }
    assert Strip(grid) == grid;
    assert Kept([grid]) == [grid] + Kept([grid][1..]);
    assert ExpandAll([grid], w) == ExpandAll([], w) + Expand(grid, w);
  }

  /** The substitution leaves a string alone when its only separators are spaces. */
  lemma BlankFixed(s: string)
    requires forall c :: c in s ==> c == ' ' || c !in Separators
    ensures Blank(s) == s
  {
    forall i | 0 <= i < |s| ensures Blank(s)[i] == s[i] {
      assert s[i] in s;
    }
  }

  /** A character of `' '.join(ps)` is a joining space or a character of one of the pieces. */
  lemma {:induction false} JoinChars(ps: seq<string>)
    ensures forall c :: c in Join(ps) ==> c == ' ' || exists p :: p in ps && c in p
  {
    if |ps| > 1 {
      JoinChars(ps[1..]);
      assert Join(ps) == ps[0] + " " + Join(ps[1..]);
      assert forall p :: p in ps[1..] ==> p in ps;
      assert ps[0] in ps;
    } else if |ps| == 1 {
      assert ps[0] in ps;
    }
  }

  /** Stripping keeps non-empty pieces without whitespace whole, and none is dropped. */
  lemma {:induction false} KeptClean(ps: seq<string>)
    requires forall i :: 0 <= i < |ps| ==> ps[i] != [] && forall c :: c in ps[i] ==> c !in PyWhitespace
    ensures Kept(ps) == ps
  {
    if ps != [] {
      assert forall i :: 0 <= i < |ps| - 1 ==> ps[1..][i] == ps[i + 1];
      KeptClean(ps[1..]);
      assert Strip(ps[0]) == ps[0];
      assert ps == [ps[0]] + ps[1..];
    }
  }

  /** The expansion loop keeps every piece whole when the wildcard only ever occurs alone. */
  lemma {:induction false} ExpandAllKeeps(ps: seq<string>, w: char)
    requires forall i :: 0 <= i < |ps| ==> (w in ps[i] ==> |ps[i]| == 1)
    ensures ExpandAll(ps, w) == ps
  {
    if ps != [] {
      var init, last := ps[..|ps| - 1], ps[|ps| - 1];
      assert forall i :: 0 <= i < |init| ==> init[i] == ps[i];
      ExpandAllKeeps(init, w);
      assert Expand(last, w) == [last];
      assert ps == init + [last];
    }
  }

  /** Separators divide the tokens: cell contents written out with single spaces between them
      come back from `parse_grid` as exactly those cells, so `345` stays one token while `3 4 5`
      gives three (compare utils_test.py:24-28). */
  lemma TokensOfJoin(ps: seq<string>, w: char)
    requires ps != []
    requires forall p :: p in ps ==>
               p != [] && (forall c :: c in p ==> c !in Separators && c !in PyWhitespace) && (w in p ==> |p| == 1)
    ensures Tokens(Join(ps), w) == ps
  {
    var g := Join(ps);
    JoinChars(ps);
    forall c | c in g ensures c == ' ' || c !in Separators {
      if c != ' ' {
        var p :| p in ps && c in p;
      }
    }
    BlankFixed(g);
    assert ' ' in Separators;
    JoinSplit(ps);
    forall i | 0 <= i < |ps|
      ensures ps[i] != [] && (forall c :: c in ps[i] ==> c !in PyWhitespace) && (w in ps[i] ==> |ps[i]| == 1)
    {
      assert ps[i] in ps;
    }
    KeptClean(ps);
    ExpandAllKeeps(ps, w);
  }

  /** `grid_values` raises `AssertionError` when the token count is not `dim²`; the message names
      the expected count and the dimension. */
  datatype GridError = WrongLength(length: nat, dim: nat)

  /** `dict(zip(keys, vals))`: pairs up to the shorter list, a later key overriding an earlier one. */
  function DictOf(keys: seq<string>, vals: seq<string>): (m: map<string, string>)
    ensures forall k :: k in m ==> k in keys
  {
    var n := if |keys| < |vals| then |keys| else |vals|;
    if n == 0 then map[]
    else DictOf(keys[..n - 1], vals[..n - 1])[keys[n - 1] := vals[n - 1]]
  }

  /** With a value for every key, the dictionary has exactly the keys. */
  lemma {:induction false} DictOfKeys(keys: seq<string>, vals: seq<string>)
    requires |keys| == |vals|
    ensures DictOf(keys, vals).Keys == set k | k in keys
  {
    if keys != [] {
      var n := |keys|;
      var ks := keys[..n - 1];
      DictOfKeys(ks, vals[..n - 1]);
      assert keys == ks + [keys[n - 1]];
      assert (set k | k in keys) == (set k | k in ks) + {keys[n - 1]};
    }
  }

  /** With distinct keys, one per value, the dictionary maps the `i`-th key to the `i`-th value. */
  lemma {:induction false} DictOfAt(keys: seq<string>, vals: seq<string>)
    requires Distinct(keys) && |keys| == |vals|
    ensures DictOf(keys, vals).Keys == set k | k in keys
    ensures forall i :: 0 <= i < |keys| ==> keys[i] in DictOf(keys, vals) && DictOf(keys, vals)[keys[i]] == vals[i]
  {
    DictOfKeys(keys, vals);
    if keys != [] {
      var n := |keys|;
      var ks, vs := keys[..n - 1], vals[..n - 1];
      assert forall i :: 0 <= i < n - 1 ==> ks[i] == keys[i] && vs[i] == vals[i];
      DictOfAt(ks, vs);
      var m := DictOf(ks, vs);
      assert DictOf(keys, vals) == m[keys[n - 1] := vals[n - 1]];
      forall i | 0 <= i < n ensures keys[i] in DictOf(keys, vals) && DictOf(keys, vals)[keys[i]] == vals[i] {
        if i < n - 1 {
          assert keys[i] != keys[n - 1] && m[ks[i]] == vs[i];
        }
      }
    }
  }

  /** `[symbols if c == wildcard else c for c in puzzle]` (utils.py:126). */
  function Fill(tokens: seq<string>, w: char, symbols: string): (r: seq<string>)
    ensures |r| == |tokens|
  {
    seq(|tokens|, i requires 0 <= i < |tokens| => if tokens[i] == [w] then symbols else tokens[i])
  }

  /** Zipping distinct boxes onto as many tokens, after the wildcard substitution, maps the
      `i`-th box to the `i`-th token or, for a bare wildcard, to the symbols. */
  lemma FilledDict(boxes: seq<string>, tokens: seq<string>, w: char, symbols: string)
    requires Distinct(boxes) && |boxes| == |tokens|
    ensures forall i :: 0 <= i < |boxes| ==>
              boxes[i] in DictOf(boxes, Fill(tokens, w, symbols))
              && DictOf(boxes, Fill(tokens, w, symbols))[boxes[i]] == if tokens[i] == [w] then symbols else tokens[i]
  {
    DictOfAt(boxes, Fill(tokens, w, symbols));
  }

  /** What `grid_values` makes of the tokens of a grid (utils.py:122-127). */
  function Values(t: Topology, tokens: seq<string>, w: char): Result<map<string, string>, GridError>
  {
    if |tokens| != t.dim * t.dim then Err(WrongLength(t.dim * t.dim, t.dim))
    else Ok(DictOf(t.boxes, Fill(tokens, w, t.symbols)))
  }

  /** `grid_values` (utils.py:112-127), a closure over the tables of the `init` call that made it. */
  method GridValues(t: Topology, grid: string, w: char) returns (r: Result<map<string, string>, GridError>)
    requires FromConfig(t)
    ensures r == Values(t, Tokens(grid, w), w)
    ensures r.Err? <==> |Tokens(grid, w)| != t.dim * t.dim
    ensures r.Err? ==> r.error == WrongLength(t.dim * t.dim, t.dim)
    ensures r.Ok? ==> r.value.Keys == set b | b in t.boxes
    ensures r.Ok? ==> var tokens := Tokens(grid, w);
              forall i :: 0 <= i < |t.boxes| ==>
                i < |tokens| && t.boxes[i] in r.value
                && r.value[t.boxes[i]] == if tokens[i] == [w] then t.symbols else tokens[i]
  {
    var tokens := ParseGrid(grid, w);
    ValuesOfTokens(t, tokens, w);
    if |tokens| != t.dim * t.dim {
      return Err(WrongLength(t.dim * t.dim, t.dim));
    }
    var puzzle := Fill(tokens, w, t.symbols);
    r := Ok(DictOf(t.boxes, puzzle));
  }

  /** `dim²` tokens give the `i`-th box the `i`-th token, a bare wildcard becoming every symbol;
      any other count is rejected (utils.py:122-127). */
  lemma ValuesOfTokens(t: Topology, tokens: seq<string>, w: char)
    requires FromConfig(t)
    ensures var r := Values(t, tokens, w);
            && (r.Err? <==> |tokens| != t.dim * t.dim)
            && (r.Err? ==> r.error == WrongLength(t.dim * t.dim, t.dim))
            && (r.Ok? ==> |tokens| == |t.boxes| && r.value.Keys == set b | b in t.boxes)
            && (r.Ok? ==> forall i :: 0 <= i < |t.boxes| ==>
                  i < |tokens| && t.boxes[i] in r.value
                  && r.value[t.boxes[i]] == if tokens[i] == [w] then t.symbols else tokens[i])
  {
    TopologyFacts.BoxesDistinct(t);
    if |tokens| == t.dim * t.dim {
      var filled := Fill(tokens, w, t.symbols);
      assert Values(t, tokens, w) == Ok(DictOf(t.boxes, filled));
      DictOfKeys(t.boxes, filled);
      FilledDict(t.boxes, tokens, w, t.symbols);
    }
  }

  /** Read row by row, the `dim²` tokens fill the grid: the box in row `x` and column `y` holds
      token `x·dim + y`. */
  lemma CellAt(t: Topology, tokens: seq<string>, w: char, x: nat, y: nat) returns (k: nat)
    requires FromConfig(t) && x < t.dim && y < t.dim
    requires Values(t, tokens, w).Ok?
    ensures k == x * t.dim + y
    ensures k < |tokens| && TopologyFacts.Box(t, x, y) in Values(t, tokens, w).value
            && Values(t, tokens, w).value[TopologyFacts.Box(t, x, y)]
               == if tokens[k] == [w] then t.symbols else tokens[k]
  {
    k := TopologyFacts.BoxAt(t, x, y);
    ValuesOfTokens(t, tokens, w);
  }

  /** Zipping clean tokens onto distinct boxes, with a clean symbol string for the wildcard,
      gives clean values. */
  lemma CleanFill(boxes: seq<string>, tokens: seq<string>, w: char, symbols: string)
    requires Distinct(boxes) && |boxes| == |tokens|
    requires symbols != [] && forall c :: c in symbols ==> c !in Separators
    requires forall q :: q in tokens ==>
               q != [] && (forall c :: c in q ==> c !in Separators) && (w in q ==> q == [w])
    ensures var m := DictOf(boxes, Fill(tokens, w, symbols));
            forall b :: b in m ==>
              m[b] != [] && (w !in symbols ==> w !in m[b]) && forall c :: c in m[b] ==> c !in Separators
  {
    var m := DictOf(boxes, Fill(tokens, w, symbols));
    FilledDict(boxes, tokens, w, symbols);
    forall b | b in m
      ensures m[b] != [] && (w !in symbols ==> w !in m[b]) && forall c :: c in m[b] ==> c !in Separators
    {
      assert b in boxes;
      var i :| 0 <= i < |boxes| && boxes[i] == b;
      var q := tokens[i];
      assert q in tokens;
      assert m[b] == if q == [w] then symbols else q;
    }
  }

  /** Clean tokens give clean values: each is non-empty and holds no separator, and unless the
      wildcard is itself a symbol, none holds the wildcard. */
  lemma FilledClean(t: Topology, tokens: seq<string>, w: char)
    requires FromConfig(t)
    requires Values(t, tokens, w).Ok?
    requires forall q :: q in tokens ==>
               q != [] && (forall c :: c in q ==> c !in Separators) && (w in q ==> q == [w])
    ensures var m := Values(t, tokens, w).value;
            forall b :: b in m ==>
              m[b] != [] && (w !in t.symbols ==> w !in m[b]) && forall c :: c in m[b] ==> c !in Separators
  {
    TopologyFacts.Labels(t);
    TopologyFacts.BoxesDistinct(t);
    assert Values(t, tokens, w).value == DictOf(t.boxes, Fill(tokens, w, t.symbols));
    CleanFill(t.boxes, tokens, w, t.symbols);
  }

  /** Every value `grid_values` produces is a non-empty string without separators: a solved
      digit, a run of candidates, or all symbols for an empty cell; and unless the wildcard is
      itself a symbol, no value holds it. */
  lemma ValuesClean(t: Topology, grid: string, w: char)
    requires FromConfig(t)
    requires Values(t, Tokens(grid, w), w).Ok?
    ensures var m := Values(t, Tokens(grid, w), w).value;
            forall b :: b in m ==>
              m[b] != [] && (w !in t.symbols ==> w !in m[b]) && forall c :: c in m[b] ==> c !in Separators
  {
    TokensClean(grid, w);
    FilledClean(t, Tokens(grid, w), w);
  }
}

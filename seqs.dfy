/** The outcome of an operation that can fail: the value, or the error the source raises. */
module Results {
  datatype Result<+T, +E> = Ok(value: T) | Err(error: E)
}

/** Sequence helpers that the Python code gets from its built-ins. */
module Seqs {

  /** No element occurs twice. */
  ghost predicate Distinct<T>(s: seq<T>)
  {
    forall i, j :: 0 <= i < j < |s| ==> s[i] != s[j]
  }

  /** Every element of `s` is one of `t`. */
  ghost predicate Within<T>(s: seq<T>, t: seq<T>)
  {
    forall x :: x in s ==> x in t
  }

  /** `sum(ss, [])` on lists, `''.join(ss)` on strings: the pieces laid end to end. */
  function Flatten<T(!new)>(ss: seq<seq<T>>): (r: seq<T>)
    ensures forall x :: x in r <==> exists s :: s in ss && x in s
  {
    if ss == [] then []
    else
      assert forall s :: s in ss ==> s == ss[0] || s in ss[1..];
      ss[0] + Flatten(ss[1..])
  }

  lemma {:induction false} FlattenAppend<T(!new)>(ss: seq<seq<T>>, tt: seq<seq<T>>)
    ensures Flatten(ss + tt) == Flatten(ss) + Flatten(tt)
  {
    if ss != [] {
      assert (ss + tt)[0] == ss[0] && (ss + tt)[1..] == ss[1..] + tt;
      FlattenAppend(ss[1..], tt);
      assert Flatten(ss + tt) == ss[0] + (Flatten(ss[1..]) + Flatten(tt));
    } else {
      assert ss + tt == tt;
    }
  }

  /** `[f(s, t) for s in a for t in b]`: one element per pair, the first sequence being the outer loop. */
  function Product<T, U>(a: seq<T>, b: seq<T>, f: (T, T) -> U): (r: seq<U>)
    ensures |r| == |a| * |b|
  {
    if a == [] then []
    else seq(|b|, j requires 0 <= j < |b| => f(a[0], b[j])) + Product(a[1..], b, f)
  }

  /** The pair (i, j) sits at index i·|b| + j. */
  lemma {:induction false} ProductAt<T, U>(a: seq<T>, b: seq<T>, f: (T, T) -> U, i: nat, j: nat) returns (k: nat)
    requires i < |a| && j < |b|
    ensures k == i * |b| + j && k < |Product(a, b, f)|
    ensures Product(a, b, f)[k] == f(a[i], b[j])
  {
    if i > 0 {
      var k' := ProductAt(a[1..], b, f, i - 1, j);
      assert i * |b| == (i - 1) * |b| + |b|;
      k := |b| + k';
    } else {
      k := j;
    }
  }

  /** Conversely, every index is i·|b| + j for some pair (i, j). */
  lemma {:induction false} ProductIndex<T, U>(a: seq<T>, b: seq<T>, f: (T, T) -> U, k: nat)
    requires k < |Product(a, b, f)|
    ensures exists i, j :: 0 <= i < |a| && 0 <= j < |b| && k == i * |b| + j && Product(a, b, f)[k] == f(a[i], b[j])
  {
    if k < |b| {
      assert k == 0 * |b| + k && Product(a, b, f)[k] == f(a[0], b[k]);
    } else {
      ProductIndex(a[1..], b, f, k - |b|);
      var i, j :| 0 <= i < |a| - 1 && 0 <= j < |b| && k - |b| == i * |b| + j
                  && Product(a[1..], b, f)[k - |b|] == f(a[1..][i], b[j]);
      assert (i + 1) * |b| == i * |b| + |b|;
      assert Product(a, b, f)[k] == f(a[i + 1], b[j]);
    }
  }

  /** An element of the product is an image of a pair, and every image of a pair is an element. */
  lemma ProductMember<T, U>(a: seq<T>, b: seq<T>, f: (T, T) -> U, x: U)
    ensures x in Product(a, b, f) <==> exists i, j :: 0 <= i < |a| && 0 <= j < |b| && x == f(a[i], b[j])
  {
    var p := Product(a, b, f);
    if x in p {
      var k :| 0 <= k < |p| && p[k] == x;
      ProductIndex(a, b, f, k);
      var i, j :| 0 <= i < |a| && 0 <= j < |b| && k == i * |b| + j && p[k] == f(a[i], b[j]);
      assert x == f(a[i], b[j]);
    } else {
      forall i, j | 0 <= i < |a| && 0 <= j < |b| ensures x != f(a[i], b[j]) {
        var k := ProductAt(a, b, f, i, j);
        assert p[k] in p;
      }
    }
  }

  /** With distinct inputs and an `f` that tells its arguments apart, the product has no repeats. */
  lemma ProductDistinct<T, U>(a: seq<T>, b: seq<T>, f: (T, T) -> U)
    requires Distinct(a) && Distinct(b)
    requires forall i, j, i', j' ::
               (0 <= i < |a| && 0 <= j < |b| && 0 <= i' < |a| && 0 <= j' < |b| && f(a[i], b[j]) == f(a[i'], b[j']))
               ==> i == i' && j == j'
    ensures Distinct(Product(a, b, f))
  {
    var p := Product(a, b, f);
    forall k, k' | 0 <= k < k' < |p|
      ensures p[k] != p[k']
    {
      ProductIndex(a, b, f, k);
      ProductIndex(a, b, f, k');
      var i, j :| 0 <= i < |a| && 0 <= j < |b| && k == i * |b| + j && p[k] == f(a[i], b[j]);
      var i', j' :| 0 <= i' < |a| && 0 <= j' < |b| && k' == i' * |b| + j' && p[k'] == f(a[i'], b[j']);
      assert i != i' || j != j';
    }
  }

  /** A slice of a sequence without repeats holds `s[x]` exactly when `x` lies in the slice's range. */
  lemma SliceMember<T>(s: seq<T>, lo: nat, hi: nat, x: nat)
    requires Distinct(s) && lo <= hi <= |s| && x < |s|
    ensures s[x] in s[lo..hi] <==> lo <= x < hi
  {
    if s[x] in s[lo..hi] {
      var y :| 0 <= y < hi - lo && s[lo..hi][y] == s[x];
      assert s[lo + y] == s[x];
    }
    if lo <= x < hi {
      assert s[lo..hi][x - lo] == s[x];
    }
  }
}

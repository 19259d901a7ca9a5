/** `ORDER BY col ASC | DESC` followed by `OFFSET skip LIMIT limit`, over the
    keys of a table whose column `col` is given as a map from row key to
    value. SQL leaves the order of rows with equal column values open; this
    model settles it by the row key (the `id`), ascending for ASC and
    descending for DESC, so that one direction is exactly the reverse of the
    other. */
module RowOrder {
  import opened Wrappers
  import opened Values

  /** Row a comes before row b in ascending order of the column. */
  predicate Before(col: map<int, Value>, a: int, b: int)
    requires a in col && b in col
  {
    ValueLt(col[a], col[b]) || (col[a] == col[b] && a < b)
  }

  lemma BeforeIrreflexive(col: map<int, Value>, a: int)
    requires a in col
    ensures !Before(col, a, a)
  {
    ValueLtIrreflexive(col[a]);
  }

  lemma BeforeTransitive(col: map<int, Value>, a: int, b: int, c: int)
    requires a in col && b in col && c in col
    requires Before(col, a, b) && Before(col, b, c)
    ensures Before(col, a, c)
  {
    if ValueLt(col[a], col[b]) && ValueLt(col[b], col[c]) {
      ValueLtTransitive(col[a], col[b], col[c]);
    }
  }

  lemma BeforeTotal(col: map<int, Value>, a: int, b: int)
    requires a in col && b in col && a != b
    ensures Before(col, a, b) || Before(col, b, a)
  {
    if col[a] != col[b] { ValueLtTotal(col[a], col[b]); }
  }

  lemma BeforeAsymmetric(col: map<int, Value>)
    ensures forall a, b :: a in col && b in col && Before(col, a, b) ==> !Before(col, b, a)
  {
    forall a, b | a in col && b in col && Before(col, a, b)
      ensures !Before(col, b, a)
    {
      if Before(col, b, a) {
        BeforeTransitive(col, a, b, a);
        BeforeIrreflexive(col, a);
      }
    }
  }

  /** Every row strictly after the one before it in ascending order. */
  predicate Increasing(col: map<int, Value>, r: seq<int>) {
    (forall i :: 0 <= i < |r| ==> r[i] in col) &&
    forall i, j :: 0 <= i < j < |r| ==> Before(col, r[i], r[j])
  }

  /** Every row strictly after the one before it in descending order. */
  predicate Decreasing(col: map<int, Value>, r: seq<int>) {
    (forall i :: 0 <= i < |r| ==> r[i] in col) &&
    forall i, j :: 0 <= i < j < |r| ==> Before(col, r[j], r[i])
  }

  predicate IsLeast(col: map<int, Value>, s: set<int>, r: int)
    requires s <= col.Keys
  {
    r in s && forall x :: x in s && x != r ==> Before(col, r, x)
  }

  predicate IsGreatest(col: map<int, Value>, s: set<int>, r: int)
    requires s <= col.Keys
  {
    r in s && forall x :: x in s && x != r ==> Before(col, x, r)
  }

  lemma PickOne(s: set<int>)
    requires s != {}
    ensures exists x :: x in s
  {
    if forall x :: x !in s { assert false; }
  }

  lemma {:induction false} LeastExists(col: map<int, Value>, s: set<int>)
    requires s != {} && s <= col.Keys
    ensures exists r :: IsLeast(col, s, r)
    decreases |s|
  {
    PickOne(s);
    var x :| x in s;
    assert forall y :: y in s && y != x ==> y in s - {x};
    if s - {x} == {} {
      assert IsLeast(col, s, x);
    } else {
      LeastExists(col, s - {x});
      var r :| IsLeast(col, s - {x}, r);
      if Before(col, x, r) {
        forall y | y in s && y != x ensures Before(col, x, y) {
          if y != r { BeforeTransitive(col, x, r, y); }
        }
        assert IsLeast(col, s, x);
      } else {
        BeforeTotal(col, x, r);
        assert IsLeast(col, s, r);
      }
    }
  }

  lemma {:induction false} GreatestExists(col: map<int, Value>, s: set<int>)
    requires s != {} && s <= col.Keys
    ensures exists r :: IsGreatest(col, s, r)
    decreases |s|
  {
    PickOne(s);
    var x :| x in s;
    assert forall y :: y in s && y != x ==> y in s - {x};
    if s - {x} == {} {
      assert IsGreatest(col, s, x);
    } else {
      GreatestExists(col, s - {x});
      var r :| IsGreatest(col, s - {x}, r);
      if Before(col, r, x) {
        forall y | y in s && y != x ensures Before(col, y, x) {
          if y != r { BeforeTransitive(col, y, r, x); }
        }
        assert IsGreatest(col, s, x);
      } else {
        BeforeTotal(col, x, r);
        assert IsGreatest(col, s, r);
      }
    }
  }

  function Least(col: map<int, Value>, s: set<int>): (r: int)
    requires s != {} && s <= col.Keys
    ensures IsLeast(col, s, r)
  {
    LeastExists(col, s);
    BeforeAsymmetric(col);
    var r :| IsLeast(col, s, r); r
  }

  function Greatest(col: map<int, Value>, s: set<int>): (r: int)
    requires s != {} && s <= col.Keys
    ensures IsGreatest(col, s, r)
  {
    GreatestExists(col, s);
    BeforeAsymmetric(col);
    var r :| IsGreatest(col, s, r); r
  }

  lemma ConsIncreasing(col: map<int, Value>, x: int, rest: seq<int>)
    requires x in col && Increasing(col, rest)
    requires forall j :: 0 <= j < |rest| ==> Before(col, x, rest[j])
    ensures Increasing(col, [x] + rest)
  {
    var r := [x] + rest;
    forall i, j | 0 <= i < j < |r| ensures Before(col, r[i], r[j]) {
      if i > 0 { assert r[i] == rest[i - 1] && r[j] == rest[j - 1]; }
    }
  }

  lemma ConsDecreasing(col: map<int, Value>, x: int, rest: seq<int>)
    requires x in col && Decreasing(col, rest)
    requires forall j :: 0 <= j < |rest| ==> Before(col, rest[j], x)
    ensures Decreasing(col, [x] + rest)
  {
    var r := [x] + rest;
    forall i, j | 0 <= i < j < |r| ensures Before(col, r[j], r[i]) {
      if i > 0 { assert r[i] == rest[i - 1] && r[j] == rest[j - 1]; }
    }
  }

  /** The keys s listed in ascending order of the column (`ORDER BY col ASC`). */
  function Ascending(col: map<int, Value>, s: set<int>): (r: seq<int>)
    requires s <= col.Keys
    ensures Increasing(col, r) && |r| == |s|
    ensures forall x :: x in r <==> x in s
    decreases |s|
  {
    if s == {} then []
    else
      var x := Least(col, s);
      var rest := Ascending(col, s - {x});
      assert forall j :: 0 <= j < |rest| ==> rest[j] in rest && rest[j] in s - {x};
      ConsIncreasing(col, x, rest);
      [x] + rest
  }

  /** The keys s listed in descending order of the column (`ORDER BY col DESC`). */
  function Descending(col: map<int, Value>, s: set<int>): (r: seq<int>)
    requires s <= col.Keys
    ensures Decreasing(col, r) && |r| == |s|
    ensures forall x :: x in r <==> x in s
    decreases |s|
  {
    if s == {} then []
    else
      var x := Greatest(col, s);
      var rest := Descending(col, s - {x});
      assert forall j :: 0 <= j < |rest| ==> rest[j] in rest && rest[j] in s - {x};
      ConsDecreasing(col, x, rest);
      [x] + rest
  }

  function Elems(a: seq<int>): set<int> {
    set x | x in a
  }

  lemma HeadIsLeast(col: map<int, Value>, a: seq<int>)
    requires Increasing(col, a) && a != []
    ensures Elems(a) <= col.Keys && IsLeast(col, Elems(a), a[0])
  {
    forall x | x in a && x != a[0] ensures Before(col, a[0], x) {
      var i :| 0 <= i < |a| && a[i] == x;
      assert i != 0;
    }
  }

  lemma LeastUnique(col: map<int, Value>, s: set<int>, r1: int, r2: int)
    requires s <= col.Keys && IsLeast(col, s, r1) && IsLeast(col, s, r2)
    ensures r1 == r2
  {
    BeforeAsymmetric(col);
  }

  /** Two ascending listings of the same rows are the same listing. */
  lemma {:induction false} IncreasingUnique(col: map<int, Value>, a: seq<int>, b: seq<int>)
    requires Increasing(col, a) && Increasing(col, b)
    requires forall x :: x in a <==> x in b
    ensures a == b
    decreases |a|
  {
    BeforeAsymmetric(col);
    if a != [] { var h := a[0]; assert h in a; assert h in b; }
    if b != [] { var h := b[0]; assert h in b; assert h in a; }
    if a != [] && b != [] {
      var s := Elems(a);
      assert s == Elems(b);
      HeadIsLeast(col, a);
      HeadIsLeast(col, b);
      LeastUnique(col, s, a[0], b[0]);
      forall x ensures x in a[1..] <==> x in b[1..] {
        if x in a[1..] {
          var i :| 1 <= i < |a| && a[i] == x;
          assert Before(col, a[0], a[i]);
          BeforeIrreflexive(col, a[0]);
          assert x in b && x != b[0];
        }
        if x in b[1..] {
          var j :| 1 <= j < |b| && b[j] == x;
          assert Before(col, b[0], b[j]);
          BeforeIrreflexive(col, b[0]);
          assert x in a && x != a[0];
        }
      }
      IncreasingUnique(col, a[1..], b[1..]);
      assert a == [a[0]] + a[1..] && b == [b[0]] + b[1..];
    }
  }

  function Reverse<T>(s: seq<T>): (r: seq<T>)
    ensures |r| == |s| && forall i :: 0 <= i < |s| ==> r[i] == s[|s| - 1 - i]
  {
    seq(|s|, i requires 0 <= i < |s| => s[|s| - 1 - i])
  }

  /** A descending listing read back to front is ascending. */
  lemma ReverseDecreasing(col: map<int, Value>, d: seq<int>)
    requires Decreasing(col, d)
    ensures Increasing(col, Reverse(d))
  {
    var rd := Reverse(d);
    forall i, j | 0 <= i < j < |rd| ensures Before(col, rd[i], rd[j]) {
      assert rd[i] == d[|d| - 1 - i] && rd[j] == d[|d| - 1 - j];
    }
  }

  lemma ReverseElems<T>(d: seq<T>, x: T)
    ensures x in Reverse(d) <==> x in d
  {
    var rd := Reverse(d);
    if x in rd { var i :| 0 <= i < |rd| && rd[i] == x; assert d[|d| - 1 - i] == x; }
    if x in d { var i :| 0 <= i < |d| && d[i] == x; assert rd[|d| - 1 - i] == x; }
  }

  /** `ORDER BY col DESC` lists the rows of `ORDER BY col ASC` back to front. */
  lemma DescendingIsReverse(col: map<int, Value>, s: set<int>)
    requires s <= col.Keys
    ensures Descending(col, s) == Reverse(Ascending(col, s))
  {
    var a := Ascending(col, s);
    var d := Descending(col, s);
    var rd := Reverse(d);
    ReverseDecreasing(col, d);
    forall x ensures x in rd <==> x in a {
      ReverseElems(d, x);
    }
    IncreasingUnique(col, rd, a);
    assert Reverse(rd) == d;
  }

  /** A listing without repeats has as many rows as it has distinct rows. */
  lemma {:induction false} DistinctCard(d: seq<int>)
    requires forall i, j :: 0 <= i < j < |d| ==> d[i] != d[j]
    ensures |Elems(d)| == |d|
  {
    if d != [] {
      DistinctCard(d[1..]);
      assert Elems(d) == {d[0]} + Elems(d[1..]);
      assert d[0] !in Elems(d[1..]);
    }
  }

  /** The row at position n of the ascending listing has exactly n rows
      before it. */
  lemma AscendingRank(col: map<int, Value>, s: set<int>, n: nat)
    requires s <= col.Keys && n < |s|
    ensures |set k | k in s && Before(col, k, Ascending(col, s)[n])| == n
  {
    var d := Ascending(col, s);
    var below := set k | k in s && Before(col, k, d[n]);
    BeforeAsymmetric(col);
    BeforeIrreflexive(col, d[n]);
    assert forall m :: n < m < |d| ==> Before(col, d[n], d[m]);
    forall k ensures k in below <==> k in Elems(d[..n]) {
      if k in below {
        var m :| 0 <= m < |d| && d[m] == k;
        assert m < n;
        assert d[..n][m] == k;
      }
      if k in Elems(d[..n]) {
        var m :| 0 <= m < n && d[..n][m] == k;
        assert Before(col, d[m], d[n]);
      }
    }
    assert below == Elems(d[..n]);
    forall i, j | 0 <= i < j < n ensures d[..n][i] != d[..n][j] {
      assert Before(col, d[i], d[j]);
      BeforeIrreflexive(col, d[i]);
    }
    DistinctCard(d[..n]);
  }

  /** The row at position n of the descending listing has exactly n rows
      after it in ascending order. */
  lemma DescendingRank(col: map<int, Value>, s: set<int>, n: nat)
    requires s <= col.Keys && n < |s|
    ensures |set k | k in s && Before(col, Descending(col, s)[n], k)| == n
  {
    var d := Descending(col, s);
    var above := set k | k in s && Before(col, d[n], k);
    BeforeAsymmetric(col);
    BeforeIrreflexive(col, d[n]);
    assert forall m :: n < m < |d| ==> Before(col, d[m], d[n]);
    forall k ensures k in above <==> k in Elems(d[..n]) {
      if k in above {
        var m :| 0 <= m < |d| && d[m] == k;
        assert m < n;
        assert d[..n][m] == k;
      }
      if k in Elems(d[..n]) {
        var m :| 0 <= m < n && d[..n][m] == k;
        assert Before(col, d[n], d[m]);
      }
    }
    assert above == Elems(d[..n]);
    forall i, j | 0 <= i < j < n ensures d[..n][i] != d[..n][j] {
      assert Before(col, d[j], d[i]);
      BeforeIrreflexive(col, d[i]);
    }
    DistinctCard(d[..n]);
  }

  /** `OFFSET skip LIMIT limit` (no limit when `limit` is None). */
  function Page<T>(xs: seq<T>, skip: nat, limit: Option<nat>): (r: seq<T>)
    ensures skip >= |xs| ==> r == []
    ensures skip < |xs| ==> |r| == (if limit.Some? && limit.value < |xs| - skip then limit.value else |xs| - skip)
    ensures forall i :: 0 <= i < |r| ==> skip + i < |xs| && r[i] == xs[skip + i]
  {
    var rest := if skip <= |xs| then xs[skip..] else [];
    match limit
    case None => rest
    case Some(n) => if n <= |rest| then rest[..n] else rest
  }

  /** A page of an ascending listing is ascending. */
  lemma PageIncreasing(col: map<int, Value>, xs: seq<int>, skip: nat, limit: Option<nat>)
    requires Increasing(col, xs)
    ensures Increasing(col, Page(xs, skip, limit))
  {
    var r := Page(xs, skip, limit);
    forall i, j | 0 <= i < j < |r| ensures Before(col, r[i], r[j]) {
      assert r[i] == xs[skip + i] && r[j] == xs[skip + j];
    }
  }

  /** A page of a descending listing is descending. */
  lemma PageDecreasing(col: map<int, Value>, xs: seq<int>, skip: nat, limit: Option<nat>)
    requires Decreasing(col, xs)
    ensures Decreasing(col, Page(xs, skip, limit))
  {
    var r := Page(xs, skip, limit);
    forall i, j | 0 <= i < j < |r| ensures Before(col, r[j], r[i]) {
      assert r[i] == xs[skip + i] && r[j] == xs[skip + j];
    }
  }
}

/**
 * The pandas table operations the pipeline uses, over rows held in a
 * sequence: the distinct keys of a `groupby` (in order of first
 * appearance), the rows of one group, a group's size, `min`/`max` and
 * `nunique`, `drop_duplicates(subset=...)` (keep the first) and
 * `pd.concat`.
 */
module Tables {
  import opened Wrappers

  /** The column `key` computes from every row of a table (a key column, or a projection). */
  function Column<T, K>(rows: seq<T>, key: T -> K): (ks: seq<K>)
    ensures |ks| == |rows|
    ensures forall i :: 0 <= i < |rows| ==> ks[i] == key(rows[i])
  {
    if rows == [] then [] else Column(rows[..|rows| - 1], key) + [key(rows[|rows| - 1])]
  }

  predicate NoDuplicates<K(==)>(ks: seq<K>) {
    forall i, j :: 0 <= i < j < |ks| ==> ks[i] != ks[j]
  }

  /** Position of the first `k` in `ks`. */
  function FirstPos<K(==)>(ks: seq<K>, k: K): (r: nat)
    requires k in ks
    ensures r < |ks| && ks[r] == k && k !in ks[..r]
  {
    if ks[0] == k then 0 else 1 + FirstPos(ks[1..], k)
  }

  /** The distinct values of `ks`: no value twice, and exactly the values of `ks`. */
  function Distinct<K(==,!new)>(ks: seq<K>): (r: seq<K>)
    ensures NoDuplicates(r)
    ensures forall k :: k in r <==> k in ks
    ensures |r| <= |ks|
  {
    if ks == [] then []
    else
      var d := Distinct(ks[..|ks| - 1]);
      var x := ks[|ks| - 1];
      assert forall k :: k in ks <==> k in ks[..|ks| - 1] || k == x;
      if x in d then d else d + [x]
  }

  /** The distinct values come in order of first appearance. */
  lemma {:induction false} DistinctOrder<K(!new)>(ks: seq<K>)
    ensures forall i, j :: 0 <= i < j < |Distinct(ks)| ==> FirstPos(ks, Distinct(ks)[i]) < FirstPos(ks, Distinct(ks)[j])
  {
    if ks != [] {
      var p := ks[..|ks| - 1];
      var x := ks[|ks| - 1];
      var d := Distinct(p);
      DistinctOrder(p);
      assert ks == p + [x];
      forall k | k in p
        ensures FirstPos(ks, k) == FirstPos(p, k)
      {
        FirstPosPrefix(p, x, k);
      }
      if x !in d {
        FirstPosLast(p, x);
      }
    }
  }

  lemma {:induction false} FirstPosPrefix<K>(p: seq<K>, x: K, k: K)
    requires k in p
    ensures k in p + [x] && FirstPos(p + [x], k) == FirstPos(p, k)
  {
    if p[0] != k {
      assert (p + [x])[1..] == p[1..] + [x];
      FirstPosPrefix(p[1..], x, k);
    }
  }

  lemma {:induction false} FirstPosLast<K>(p: seq<K>, x: K)
    requires x !in p
    ensures x in p + [x] && FirstPos(p + [x], x) == |p|
  {
    if p != [] {
      assert (p + [x])[1..] == p[1..] + [x];
      FirstPosLast(p[1..], x);
    }
  }

  /** The rows of one group of a `groupby` on `key`, in table order. */
  function Group<T, K(==)>(rows: seq<T>, key: T -> K, k: K): (g: seq<T>)
    ensures forall x :: x in g ==> x in rows && key(x) == k
    ensures |g| <= |rows|
  {
    if rows == [] then []
    else
      var p := rows[..|rows| - 1];
      var x := rows[|rows| - 1];
      Group(p, key, k) + (if key(x) == k then [x] else [])
  }

  /** A group holds every row of the table that carries its key, as many times as the table does. */
  lemma {:induction false} GroupSize<T, K>(rows: seq<T>, key: T -> K, k: K)
    ensures |Group(rows, key, k)| == multiset(Column(rows, key))[k]
    ensures forall x :: x in rows && key(x) == k ==> x in Group(rows, key, k)
  {
    if rows != [] {
      var p := rows[..|rows| - 1];
      var x := rows[|rows| - 1];
      GroupSize(p, key, k);
      var c := Column(rows, key);
      assert c == Column(p, key) + [key(x)];
      assert multiset(c) == multiset(Column(p, key)) + multiset{key(x)};
      assert forall y :: y in rows ==> y in p || y == x;
    }
  }

  /** A key of the table has a non-empty group. */
  lemma GroupNonEmpty<T, K>(rows: seq<T>, key: T -> K, k: K)
    requires k in Column(rows, key)
    ensures |Group(rows, key, k)| >= 1
  {
    GroupSize(rows, key, k);
  }

  /** Sum of the multiplicities in `m` of the keys `ds`. */
  function SumCounts<K>(ds: seq<K>, m: multiset<K>): nat {
    if ds == [] then 0 else SumCounts(ds[..|ds| - 1], m) + m[ds[|ds| - 1]]
  }

  lemma {:induction false} SumCountsAddOne<K>(ds: seq<K>, m: multiset<K>, x: K)
    requires NoDuplicates(ds)
    ensures SumCounts(ds, m + multiset{x}) == SumCounts(ds, m) + (if x in ds then 1 else 0)
  {
    if ds != [] {
      var p := ds[..|ds| - 1];
      assert NoDuplicates(p);
      SumCountsAddOne(p, m, x);
      assert x in ds <==> x in p || x == ds[|ds| - 1];
      assert x in p ==> x != ds[|ds| - 1];
    }
  }

  lemma {:induction false} SumCountsAbsent<K>(ds: seq<K>, m: multiset<K>, x: K)
    requires x !in ds
    ensures SumCounts(ds, m + multiset{x}) == SumCounts(ds, m)
  {
    if ds != [] {
      SumCountsAbsent(ds[..|ds| - 1], m, x);
    }
  }

  /** Group sizes over the distinct keys add up to the number of rows. */
  lemma {:induction false} DistinctCountsSum<K(!new)>(ks: seq<K>)
    ensures SumCounts(Distinct(ks), multiset(ks)) == |ks|
  {
    if ks != [] {
      var p := ks[..|ks| - 1];
      var x := ks[|ks| - 1];
      assert ks == p + [x];
      assert multiset(ks) == multiset(p) + multiset{x};
      DistinctCountsSum(p);
      var d := Distinct(p);
      if x in d {
        SumCountsAddOne(d, multiset(p), x);
      } else {
        SumCountsAbsent(d, multiset(p), x);
        assert Distinct(ks) == d + [x];
        assert x !in p;
      }
    }
  }

  /** `min` of a non-empty column. */
  function MinOf(xs: seq<int>): (r: int)
    requires |xs| >= 1
    ensures r in xs && forall x :: x in xs ==> r <= x
  {
    if |xs| == 1 then xs[0]
    else
      var m := MinOf(xs[..|xs| - 1]);
      assert forall x :: x in xs ==> x in xs[..|xs| - 1] || x == xs[|xs| - 1];
      if xs[|xs| - 1] < m then xs[|xs| - 1] else m
  }

  /** `max` of a non-empty column. */
  function MaxOf(xs: seq<int>): (r: int)
    requires |xs| >= 1
    ensures r in xs && forall x :: x in xs ==> x <= r
  {
    if |xs| == 1 then xs[0]
    else
      var m := MaxOf(xs[..|xs| - 1]);
      assert forall x :: x in xs ==> x in xs[..|xs| - 1] || x == xs[|xs| - 1];
      if xs[|xs| - 1] > m then xs[|xs| - 1] else m
  }

  /** `nunique` of a column: at least one for a non-empty column, never more than its length. */
  lemma DistinctBounds<K(!new)>(ks: seq<K>)
    requires |ks| >= 1
    ensures 1 <= |Distinct(ks)| <= |ks|
  {
    assert ks[0] in Distinct(ks);
  }

  /**
   * `drop_duplicates(subset=key)`: keep the first row of every key, in
   * table order.
   */
  function DropDuplicates<T, K(==,!new)>(rows: seq<T>, key: T -> K): (r: seq<T>)
    ensures Column(r, key) == Distinct(Column(rows, key))
    ensures forall x :: x in r ==> x in rows
  {
    if rows == [] then []
    else
      var p := rows[..|rows| - 1];
      var x := rows[|rows| - 1];
      var d := DropDuplicates(p, key);
      DistinctLast(Column(rows, key));
      assert Column(rows, key)[..|rows| - 1] == Column(p, key);
      if key(x) in Column(d, key) then d
      else
        assert Column(d + [x], key) == Column(d, key) + [key(x)];
        d + [x]
  }

  /** `Distinct` takes the last value of a non-empty column exactly when it is new. */
  lemma DistinctLast<K(!new)>(ks: seq<K>)
    requires |ks| >= 1
    ensures var p := ks[..|ks| - 1];
      Distinct(ks) == if ks[|ks| - 1] in Distinct(p) then Distinct(p) else Distinct(p) + [ks[|ks| - 1]]
  {
  }

  /** Every kept row is the first row of the table carrying its key. */
  lemma {:induction false} DropDuplicatesKeepsFirst<T, K(!new)>(rows: seq<T>, key: T -> K, j: nat)
    requires j < |DropDuplicates(rows, key)|
    ensures var x := DropDuplicates(rows, key)[j];
      key(x) in Column(rows, key) && x == rows[FirstPos(Column(rows, key), key(x))]
  {
    var p := rows[..|rows| - 1];
    var x := rows[|rows| - 1];
    var d := DropDuplicates(p, key);
    var ks := Column(rows, key);
    assert ks == Column(p, key) + [key(x)];
    if j < |d| {
      DropDuplicatesKeepsFirst(p, key, j);
      var y := d[j];
      FirstPosPrefix(Column(p, key), key(x), key(y));
    } else {
      assert key(x) !in Column(d, key);
      assert key(x) !in Column(p, key);
      FirstPosLast(Column(p, key), key(x));
    }
  }

  /** `drop_duplicates` leaves no repeated key. */
  lemma DropDuplicatesUnique<T, K(!new)>(rows: seq<T>, key: T -> K)
    ensures NoDuplicates(Column(DropDuplicates(rows, key), key))
  {
  }

  /** `pd.concat` of several tables, in order. */
  function Concat<T>(tables: seq<seq<T>>): (r: seq<T>)
    ensures forall t, x :: t in tables && x in t ==> x in r
  {
    if tables == [] then []
    else
      var r := Concat(tables[..|tables| - 1]) + tables[|tables| - 1];
      assert forall t :: t in tables ==> t in tables[..|tables| - 1] || t == tables[|tables| - 1];
      r
  }

  /** Applying a function to the rows of two tables that are permutations of each other gives permutations. */
  lemma {:induction false} MapPermutation<T, U>(xs: seq<T>, ys: seq<T>, f: T -> U)
    requires multiset(xs) == multiset(ys)
    ensures multiset(Column(xs, f)) == multiset(Column(ys, f))
    decreases |xs|
  {
    if xs != [] {
      var x := xs[|xs| - 1];
      var p := xs[..|xs| - 1];
      assert xs == p + [x];
      assert x in multiset(ys);
      var i :| 0 <= i < |ys| && ys[i] == x;
      var q := ys[..i] + ys[i + 1..];
      assert ys == ys[..i] + [x] + ys[i + 1..];
      assert multiset(ys) == multiset(ys[..i]) + multiset{x} + multiset(ys[i + 1..]);
      assert multiset(xs) == multiset(p) + multiset{x};
      assert multiset(q) == multiset(ys[..i]) + multiset(ys[i + 1..]);
      assert multiset(p) == multiset(xs) - multiset{x};
      assert multiset(q) == multiset(ys) - multiset{x};
      MapPermutation(p, q, f);
      assert Column(xs, f) == Column(p, f) + [f(x)];
      ColumnSplit(ys[..i], x, ys[i + 1..], f);
      ColumnAppend(ys[..i], ys[i + 1..], f);
    }
  }

  lemma ColumnAppend<T, K>(a: seq<T>, b: seq<T>, f: T -> K)
    ensures Column(a + b, f) == Column(a, f) + Column(b, f)
  {
  }

  lemma ColumnSplit<T, K>(a: seq<T>, x: T, b: seq<T>, f: T -> K)
    ensures multiset(Column(a + [x] + b, f)) == multiset(Column(a + b, f)) + multiset{f(x)}
  {
    ColumnAppend(a + [x], b, f);
    ColumnAppend(a, [x], f);
    ColumnAppend(a, b, f);
  }

  /** Boolean-mask selection `df[mask]`: the rows satisfying `p`, in table order. */
  function Filter<T(!new)>(rows: seq<T>, p: T -> bool): (r: seq<T>)
    ensures |r| <= |rows|
    ensures forall x :: x in r <==> x in rows && p(x)
  {
    if rows == [] then []
    else
      var x := rows[|rows| - 1];
      var f := Filter(rows[..|rows| - 1], p);
      assert forall y :: y in rows <==> y in rows[..|rows| - 1] || y == x;
      f + (if p(x) then [x] else [])
  }

  /** A row of least key. */
  function ArgMinBy<T(!new)>(rows: seq<T>, key: T -> int): (r: T)
    requires |rows| >= 1
    ensures r in rows && forall x :: x in rows ==> key(r) <= key(x)
  {
    if |rows| == 1 then rows[0]
    else
      var m := ArgMinBy(rows[..|rows| - 1], key);
      var x := rows[|rows| - 1];
      assert forall y :: y in rows ==> y in rows[..|rows| - 1] || y == x;
      if key(x) < key(m) then x else m
  }

  /** A row of greatest key. */
  function ArgMaxBy<T(!new)>(rows: seq<T>, key: T -> int): (r: T)
    requires |rows| >= 1
    ensures r in rows && forall x :: x in rows ==> key(x) <= key(r)
  {
    if |rows| == 1 then rows[0]
    else
      var m := ArgMaxBy(rows[..|rows| - 1], key);
      var x := rows[|rows| - 1];
      assert forall y :: y in rows ==> y in rows[..|rows| - 1] || y == x;
      if key(x) > key(m) then x else m
  }

  predicate SortedByKey<T>(rows: seq<T>, key: T -> int) {
    forall i, j :: 0 <= i < j < |rows| ==> key(rows[i]) <= key(rows[j])
  }

  /** Insert `x` into a sorted table after every row whose key does not exceed its own. */
  function InsertByKey<T(!new)>(s: seq<T>, x: T, key: T -> int): (r: seq<T>)
    requires SortedByKey(s, key)
    ensures SortedByKey(r, key)
    ensures multiset(r) == multiset(s) + multiset{x}
  {
    if s == [] then [x]
    else
      var last := s[|s| - 1];
      var p := s[..|s| - 1];
      assert s == p + [last];
      if key(last) <= key(x) then s + [x]
      else
        var q := InsertByKey(p, x, key);
        forall y | y in q
          ensures key(y) <= key(last)
        {
          assert y in multiset(p) + multiset{x};
          if y != x {
            var i :| 0 <= i < |p| && p[i] == y;
            assert s[i] == y;
          }
        }
        SortedAppend(q, last, key);
        assert multiset(q + [last]) == multiset(q) + multiset{last};
        q + [last]
  }

  lemma SortedAppend<T>(q: seq<T>, last: T, key: T -> int)
    requires SortedByKey(q, key)
    requires forall y :: y in q ==> key(y) <= key(last)
    ensures SortedByKey(q + [last], key)
  {
    var r := q + [last];
    forall i, j | 0 <= i < j < |r|
      ensures key(r[i]) <= key(r[j])
    {
      if j < |q| {
        assert r[i] == q[i] && r[j] == q[j];
      } else {
        assert r[i] == q[i] && r[i] in q;
      }
    }
  }

  /** `sort_values(key)`: the rows sorted by key, ties kept in table order. */
  function SortByKey<T(!new)>(rows: seq<T>, key: T -> int): (r: seq<T>)
    ensures SortedByKey(r, key)
    ensures multiset(r) == multiset(rows)
    ensures |r| == |rows|
  {
    if rows == [] then []
    else
      var p := rows[..|rows| - 1];
      assert rows == p + [rows[|rows| - 1]];
      var r := InsertByKey(SortByKey(p, key), rows[|rows| - 1], key);
      assert |r| == |multiset(r)|;
      r
  }

  /**
   * Applying a conversion that may raise to every row: the converted rows
   * in order when every conversion succeeds, otherwise nothing.
   */
  function MapAll<A, B>(rows: seq<A>, f: A -> Option<B>): Option<seq<B>>
  {
    if rows == [] then Some([])
    else
      var front := MapAll(rows[..|rows| - 1], f);
      var last := f(rows[|rows| - 1]);
      if front.Some? && last.Some? then Some(front.value + [last.value]) else None
  }

  /** A conversion succeeds exactly when every row converts, and then holds each row's result in order. */
  lemma {:induction false} MapAllResult<A, B>(rows: seq<A>, f: A -> Option<B>)
    ensures MapAll(rows, f).Some? <==> forall k :: 0 <= k < |rows| ==> f(rows[k]).Some?
    ensures MapAll(rows, f).Some? ==> (|MapAll(rows, f).value| == |rows|
      && forall k :: 0 <= k < |rows| ==> f(rows[k]) == Some(MapAll(rows, f).value[k]))
  {
    if rows != [] {
      var p := rows[..|rows| - 1];
      MapAllResult(p, f);
      assert forall k :: 0 <= k < |p| ==> rows[k] == p[k];
    }
  }

  /** Converting one more row extends a successful conversion by that row's result. */
  lemma MapAllSnoc<A, B>(rows: seq<A>, x: A, f: A -> Option<B>)
    ensures MapAll(rows + [x], f) ==
      if MapAll(rows, f).Some? && f(x).Some? then Some(MapAll(rows, f).value + [f(x).value]) else None
  {
    assert (rows + [x])[..|rows|] == rows;
  }

  /** One row that fails to convert makes the whole conversion fail. */
  lemma {:induction false} MapAllFailsAt<A, B>(rows: seq<A>, f: A -> Option<B>, k: nat)
    requires k < |rows| && f(rows[k]).None?
    ensures MapAll(rows, f).None?
  {
    if k < |rows| - 1 {
      var p := rows[..|rows| - 1];
      assert p[k] == rows[k];
      MapAllFailsAt(p, f, k);
    }
  }

  /** The loop that converts the rows one by one, appending each result and giving up at the first failure. */
  method ConvertEach<A, B>(rows: seq<A>, f: A -> Option<B>) returns (r: Option<seq<B>>)
    ensures r == MapAll(rows, f)
  {
    var done: seq<B> := [];
    var i := 0;
    while i < |rows|
      invariant 0 <= i <= |rows|
      invariant MapAll(rows[..i], f) == Some(done)
    {
      MapAllSnoc(rows[..i], rows[i], f);
      assert rows[..i + 1] == rows[..i] + [rows[i]];
      var y := f(rows[i]);
      if y.None? {
        MapAllFailsAt(rows, f, i);
        return None;
      }
      done := done + [y.value];
      i := i + 1;
    }
    assert rows[..i] == rows;
    return Some(done);
  }

  /**
   * Converting every row into a run of rows and concatenating the runs in
   * order, where one conversion that raises makes the whole result nothing.
   */
  function ConcatMapAll<A, B>(rows: seq<A>, f: A -> Option<seq<B>>): Option<seq<B>> {
    if rows == [] then Some([])
    else
      var front := ConcatMapAll(rows[..|rows| - 1], f);
      var last := f(rows[|rows| - 1]);
      if front.Some? && last.Some? then Some(front.value + last.value) else None
  }

  /** One row whose conversion raises makes the whole concatenation fail. */
  lemma {:induction false} ConcatMapAllFailsAt<A, B>(rows: seq<A>, f: A -> Option<seq<B>>, k: nat)
    requires k < |rows| && f(rows[k]).None?
    ensures ConcatMapAll(rows, f).None?
  {
    if k < |rows| - 1 {
      var p := rows[..|rows| - 1];
      assert p[k] == rows[k];
      ConcatMapAllFailsAt(p, f, k);
    }
  }

  /** The concatenation fails exactly when some row's conversion raises. */
  lemma {:induction false} ConcatMapAllFails<A, B>(rows: seq<A>, f: A -> Option<seq<B>>)
    ensures ConcatMapAll(rows, f).None? <==> exists k :: 0 <= k < |rows| && f(rows[k]).None?
  {
    if rows != [] {
      var p := rows[..|rows| - 1];
      ConcatMapAllFails(p, f);
      assert forall k :: 0 <= k < |p| ==> rows[k] == p[k];
      if ConcatMapAll(p, f).None? {
        var k :| 0 <= k < |p| && f(p[k]).None?;
        assert f(rows[k]).None?;
      }
    }
  }

  lemma ConcatMapAllSnoc<A, B>(rows: seq<A>, x: A, f: A -> Option<seq<B>>)
    ensures ConcatMapAll(rows + [x], f) ==
      if ConcatMapAll(rows, f).Some? && f(x).Some? then Some(ConcatMapAll(rows, f).value + f(x).value) else None
  {
    assert (rows + [x])[..|rows|] == rows;
  }

  /** The result for two runs of rows is the first run's result followed by the second's. */
  lemma {:induction false} ConcatMapAllAppend<A, B>(a: seq<A>, b: seq<A>, f: A -> Option<seq<B>>)
    ensures ConcatMapAll(a + b, f) ==
      if ConcatMapAll(a, f).Some? && ConcatMapAll(b, f).Some?
      then Some(ConcatMapAll(a, f).value + ConcatMapAll(b, f).value) else None
    decreases |b|
  {
    if b == [] {
      assert a + b == a;
      if ConcatMapAll(a, f).Some? {
        assert ConcatMapAll(a, f).value + [] == ConcatMapAll(a, f).value;
      }
    } else {
      var b' := b[..|b| - 1];
      var x := b[|b| - 1];
      assert a + b == (a + b') + [x];
      assert b == b' + [x];
      ConcatMapAllSnoc(a + b', x, f);
      ConcatMapAllSnoc(b', x, f);
      ConcatMapAllAppend(a, b', f);
      if ConcatMapAll(a, f).Some? && ConcatMapAll(b', f).Some? && f(x).Some? {
        var u, v, w := ConcatMapAll(a, f).value, ConcatMapAll(b', f).value, f(x).value;
        assert (u + v) + w == u + (v + w);
      }
    }
  }

  /** A row of a concatenation comes from one of the tables. */
  lemma {:induction false} ConcatMember<T>(tables: seq<seq<T>>, x: T)
    requires x in Concat(tables)
    ensures exists k :: 0 <= k < |tables| && x in tables[k]
  {
    var front := tables[..|tables| - 1];
    if x !in tables[|tables| - 1] {
      assert x in Concat(front);
      ConcatMember(front, x);
      var k :| 0 <= k < |front| && x in front[k];
      assert tables[k] == front[k];
    }
  }

  /** Keeping some rows of a table without repeated keys repeats no key. */
  lemma FilterKeepsUnique<T(!new), K>(rows: seq<T>, p: T -> bool, key: T -> K, i: nat, j: nat)
    requires NoDuplicates(Column(rows, key))
    requires i < j < |Filter(rows, p)|
    ensures key(Filter(rows, p)[i]) != key(Filter(rows, p)[j])
  {
    var m := FilterPositions(rows, p);
    assert Column(rows, key)[m[i]] != Column(rows, key)[m[j]];
  }

  /** The positions of the kept rows, strictly increasing. */
  function FilterPositions<T(!new)>(rows: seq<T>, p: T -> bool): (m: seq<nat>)
    ensures |m| == |Filter(rows, p)|
    ensures forall i :: 0 <= i < |m| ==> m[i] < |rows| && rows[m[i]] == Filter(rows, p)[i]
    ensures forall i, j :: 0 <= i < j < |m| ==> m[i] < m[j]
  {
    if rows == [] then []
    else
      var front := FilterPositions(rows[..|rows| - 1], p);
      assert Filter(rows, p) == if p(rows[|rows| - 1]) then Filter(rows[..|rows| - 1], p) + [rows[|rows| - 1]]
                                else Filter(rows[..|rows| - 1], p);
      if p(rows[|rows| - 1]) then front + [|rows| - 1] else front
  }

  /** A column holding one value throughout has just that value as its distinct values. */
  lemma DistinctOfConstant<K(!new)>(ks: seq<K>, k: K)
    requires |ks| >= 1 && forall i :: 0 <= i < |ks| ==> ks[i] == k
    ensures Distinct(ks) == [k]
  {
    var r := Distinct(ks);
    assert ks[0] in ks;
    assert k in r;
    assert r[0] in r;
  }

  /** The key of any row is among the distinct keys. */
  lemma KeyListed<T, K(!new)>(rows: seq<T>, key: T -> K, x: T)
    requires x in rows
    ensures key(x) in Distinct(Column(rows, key))
  {
    var j :| 0 <= j < |rows| && rows[j] == x;
    assert Column(rows, key)[j] == key(x);
  }
}

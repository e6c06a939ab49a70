/**
 The stable sort that Python's list.sort and JavaScript's Array.sort promise:
 a reference definition, its characterisation, and the law that sorting by a
 minor key and then by a major key is one sort by the lexicographic order.
 */
module StableSort {
  import opened Common

  ghost predicate TotalPreorder<T(!new)>(leq: (T, T) -> bool) {
    && (forall x, y :: leq(x, y) || leq(y, x))
    && (forall x, y, z :: leq(x, y) && leq(y, z) ==> leq(x, z))
  }

  ghost predicate Ordered<T>(leq: (T, T) -> bool, s: seq<T>) {
    forall i, j :: 0 <= i < j < |s| ==> leq(s[i], s[j])
  }

  function Insert<T>(leq: (T, T) -> bool, x: T, s: seq<T>): seq<T> {
    if s == [] || leq(x, s[0]) then [x] + s
    else [s[0]] + Insert(leq, x, s[1..])
  }

  function Sort<T>(leq: (T, T) -> bool, s: seq<T>): seq<T> {
    if s == [] then [] else Insert(leq, s[0], Sort(leq, s[1..]))
  }

  /** The elements that leq cannot tell apart from x. */
  function Tie<T>(leq: (T, T) -> bool, x: T): T -> bool {
    y => leq(x, y) && leq(y, x)
  }

  /** t keeps every group of ties of s, whole and in its order in s. */
  ghost predicate SameTies<T(!new)>(leq: (T, T) -> bool, s: seq<T>, t: seq<T>) {
    forall x :: Filter(Tie(leq, x), t) == Filter(Tie(leq, x), s)
  }

  lemma {:induction false} InsertMultiset<T>(leq: (T, T) -> bool, x: T, s: seq<T>)
    ensures multiset(Insert(leq, x, s)) == multiset(s) + multiset{x}
  {
    if s == [] || leq(x, s[0]) {
    } else {
      InsertMultiset(leq, x, s[1..]);
      assert s == [s[0]] + s[1..];
    }
  }

  lemma {:induction false} InsertOrdered<T(!new)>(leq: (T, T) -> bool, x: T, s: seq<T>)
    requires TotalPreorder(leq) && Ordered(leq, s)
    ensures Ordered(leq, Insert(leq, x, s))
    ensures forall y :: y in Insert(leq, x, s) ==> y == x || y in s
  {
    if s == [] || leq(x, s[0]) {
    } else {
      InsertOrdered(leq, x, s[1..]);
      var rest := Insert(leq, x, s[1..]);
      forall i | 0 <= i < |rest| ensures leq(s[0], rest[i]) {
        if rest[i] != x {
          assert rest[i] in s[1..];
          var k :| 0 <= k < |s[1..]| && s[1..][k] == rest[i];
          assert s[k + 1] == rest[i];
        }
      }
      assert Insert(leq, x, s) == [s[0]] + rest;
    }
  }

  lemma {:induction false} InsertSameTies<T(!new)>(leq: (T, T) -> bool, x: T, s: seq<T>, z: T)
    requires TotalPreorder(leq)
    ensures Filter(Tie(leq, z), Insert(leq, x, s)) == Filter(Tie(leq, z), [x] + s)
  {
    if s == [] || leq(x, s[0]) {
    } else {
      var p := Tie(leq, z);
      InsertSameTies(leq, x, s[1..], z);
      var rest := Insert(leq, x, s[1..]);
      assert ([s[0]] + rest)[1..] == rest;
      assert ([x] + s)[1..] == s;
      assert ([x] + s[1..])[1..] == s[1..];
      assert !(p(x) && p(s[0]));
    }
  }

  lemma {:induction false} SortSameTies<T(!new)>(leq: (T, T) -> bool, s: seq<T>, z: T)
    requires TotalPreorder(leq)
    ensures Filter(Tie(leq, z), Sort(leq, s)) == Filter(Tie(leq, z), s)
  {
    if s != [] {
      var t := Sort(leq, s[1..]);
      SortSameTies(leq, s[1..], z);
      InsertSameTies(leq, s[0], t, z);
      assert ([s[0]] + t)[1..] == t;
    }
  }

  /** Sort orders its input, permutes it, and never reorders ties. */
  lemma {:induction false} SortCorrect<T(!new)>(leq: (T, T) -> bool, s: seq<T>)
    requires TotalPreorder(leq)
    ensures Ordered(leq, Sort(leq, s))
    ensures multiset(Sort(leq, s)) == multiset(s)
    ensures |Sort(leq, s)| == |s|
    ensures SameTies(leq, s, Sort(leq, s))
  {
    if s != [] {
      SortCorrect(leq, s[1..]);
      InsertMultiset(leq, s[0], Sort(leq, s[1..]));
      InsertOrdered(leq, s[0], Sort(leq, s[1..]));
      assert s == [s[0]] + s[1..];
      assert |Sort(leq, s)| == |multiset(Sort(leq, s))| == |multiset(s)| == |s|;
    }
    forall z ensures Filter(Tie(leq, z), Sort(leq, s)) == Filter(Tie(leq, z), s) {
      SortSameTies(leq, s, z);
    }
  }

  /** Order and ties together determine the result. */
  lemma {:induction false} OrderedSameTiesUnique<T(!new)>(leq: (T, T) -> bool, t: seq<T>, u: seq<T>)
    requires TotalPreorder(leq)
    requires Ordered(leq, t) && Ordered(leq, u) && SameTies(leq, t, u)
    ensures t == u
    decreases |t| + |u|
  {
    if t == [] {
      if u != [] {
        HeadInOther(leq, u, t);
      }
    } else {
      HeadInOther(leq, t, u);
      HeadInOther(leq, u, t);
      assert Filter(Tie(leq, t[0]), t) == Filter(Tie(leq, t[0]), u);
      assert leq(t[0], t[0]);
      assert Filter(Tie(leq, t[0]), t)[0] == t[0];
      assert Filter(Tie(leq, t[0]), u)[0] == u[0];
      forall x ensures Filter(Tie(leq, x), t[1..]) == Filter(Tie(leq, x), u[1..]) {
        var p := Tie(leq, x);
        assert Filter(p, t) == Filter(p, u);
        var head := if p(t[0]) then [t[0]] else [];
        assert Filter(p, t) == head + Filter(p, t[1..]);
        assert Filter(p, u) == head + Filter(p, u[1..]);
        assert Filter(p, t[1..]) == Filter(p, t)[|head|..];
        assert Filter(p, u[1..]) == Filter(p, u)[|head|..];
      }
      OrderedSameTiesUnique(leq, t[1..], u[1..]);
    }
  }

  /** With equal tie groups, u has a head and it is below the head of t. */
  lemma HeadInOther<T(!new)>(leq: (T, T) -> bool, t: seq<T>, u: seq<T>)
    requires TotalPreorder(leq) && Ordered(leq, u) && SameTies(leq, t, u)
    requires t != []
    ensures u != [] && leq(u[0], t[0])
  {
    var p := Tie(leq, t[0]);
    assert leq(t[0], t[0]);
    assert t[0] in Filter(p, t);
    FilterMembers(p, u);
    assert Filter(p, u) == Filter(p, t);
    assert t[0] in u;
    var k :| 0 <= k < |u| && u[k] == t[0];
  }

  /** Anything ordered with the ties of s is the sort of s. */
  lemma SortUnique<T(!new)>(leq: (T, T) -> bool, s: seq<T>, t: seq<T>)
    requires TotalPreorder(leq) && Ordered(leq, t) && SameTies(leq, s, t)
    ensures t == Sort(leq, s)
  {
    SortCorrect(leq, s);
    OrderedSameTiesUnique(leq, t, Sort(leq, s));
  }

  /** Compare by major first and by minor only between ties of major. */
  function Lex<T>(major: (T, T) -> bool, minor: (T, T) -> bool): (T, T) -> bool {
    (x, y) => major(x, y) && (major(y, x) ==> minor(x, y))
  }

  lemma LexIsPreorder<T(!new)>(major: (T, T) -> bool, minor: (T, T) -> bool)
    requires TotalPreorder(major) && TotalPreorder(minor)
    ensures TotalPreorder(Lex(major, minor))
  {
  }

  /** Elements of an ordered filtered sequence are ordered where they stand in the whole. */
  lemma {:induction false} OrderedWithinFilter<T(!new)>(leq: (T, T) -> bool, p: T -> bool, s: seq<T>, i: nat, j: nat)
    requires Ordered(leq, Filter(p, s))
    requires i < j < |s| && p(s[i]) && p(s[j])
    ensures leq(s[i], s[j])
  {
    var f := Filter(p, s);
    FilterMembers(p, s[1..]);
    if i == 0 {
      assert s[j] == s[1..][j - 1];
      assert s[j] in Filter(p, s[1..]);
      var k :| 0 <= k < |f| - 1 && f[1..][k] == s[j];
      assert f[0] == s[0] && f[k + 1] == s[j];
    } else {
      var g := Filter(p, s[1..]);
      forall a, b | 0 <= a < b < |g| ensures leq(g[a], g[b]) {
        var d := |f| - |g|;
        assert f[d..] == g;
        assert f[a + d] == g[a] && f[b + d] == g[b];
      }
      OrderedWithinFilter(leq, p, s[1..], i - 1, j - 1);
    }
  }

  /** A subsequence taken by a filter stays ordered. */
  lemma {:induction false} FilterOrdered<T(!new)>(leq: (T, T) -> bool, p: T -> bool, s: seq<T>)
    requires Ordered(leq, s)
    ensures Ordered(leq, Filter(p, s))
  {
    if s != [] {
      FilterOrdered(leq, p, s[1..]);
      FilterMembers(p, s[1..]);
      var g := Filter(p, s[1..]);
      forall y | y in g ensures leq(s[0], y) {
        assert y in s[1..];
        var k :| 0 <= k < |s[1..]| && s[1..][k] == y;
        assert s[k + 1] == y;
      }
    }
  }

  /**
   Two passes are one: a stable sort by the minor order followed by a stable
   sort by the major order is the stable sort by the lexicographic order.
   */
  lemma TwoPassSort<T(!new)>(major: (T, T) -> bool, minor: (T, T) -> bool, s: seq<T>)
    requires TotalPreorder(major) && TotalPreorder(minor)
    ensures Sort(major, Sort(minor, s)) == Sort(Lex(major, minor), s)
  {
    var first := Sort(minor, s);
    var t := Sort(major, first);
    SortCorrect(minor, s);
    SortCorrect(major, first);
    LexIsPreorder(major, minor);
    forall i, j | 0 <= i < j < |t| && major(t[j], t[i])
      ensures minor(t[i], t[j])
    {
      var p := Tie(major, t[i]);
      assert major(t[i], t[i]);
      FilterOrdered(minor, p, first);
      assert Filter(p, t) == Filter(p, first);
      OrderedWithinFilter(minor, p, t, i, j);
    }
    forall x ensures Filter(Tie(Lex(major, minor), x), t) == Filter(Tie(Lex(major, minor), x), s) {
      var hi, lo, both := Tie(major, x), Tie(minor, x), Tie(Lex(major, minor), x);
      FilterTwice(lo, hi, both, t);
      FilterTwice(lo, hi, both, first);
      FilterTwice(hi, lo, both, first);
      FilterTwice(hi, lo, both, s);
      assert Filter(hi, t) == Filter(hi, first);
      assert Filter(lo, first) == Filter(lo, s);
    }
    SortUnique(Lex(major, minor), s, t);
  }

  /** Filtering commutes with stable sorting. */
  lemma FilterOfSort<T(!new)>(leq: (T, T) -> bool, p: T -> bool, s: seq<T>)
    requires TotalPreorder(leq)
    ensures Filter(p, Sort(leq, s)) == Sort(leq, Filter(p, s))
  {
    var t := Sort(leq, s);
    SortCorrect(leq, s);
    FilterOrdered(leq, p, t);
    forall x ensures Filter(Tie(leq, x), Filter(p, t)) == Filter(Tie(leq, x), Filter(p, s)) {
      var q := Tie(leq, x);
      var both := y => p(y) && q(y);
      FilterTwice(q, p, both, t);
      FilterTwice(q, p, both, s);
      FilterTwice(p, q, both, t);
      FilterTwice(p, q, both, s);
      assert Filter(q, t) == Filter(q, s);
    }
    SortUnique(leq, Filter(p, s), Filter(p, t));
  }

  /** The head of the sort is the earliest of the minimal elements of s. */
  lemma {:induction false} SortHead<T(!new)>(leq: (T, T) -> bool, s: seq<T>) returns (k: nat)
    requires TotalPreorder(leq) && s != []
    ensures k < |s| && |Sort(leq, s)| == |s| && s[k] == Sort(leq, s)[0]
    ensures forall i :: 0 <= i < |s| ==> leq(s[k], s[i])
    ensures forall i :: 0 <= i < k ==> !leq(s[i], s[k])
  {
    SortCorrect(leq, s);
    k := 0;
    if |s| > 1 {
      var r := SortHead(leq, s[1..]);
      SortCorrect(leq, s[1..]);
      if !leq(s[0], s[r + 1]) {
        k := r + 1;
      }
    }
    assert leq(s[0], s[0]);
    forall i | 0 <= i < |s| ensures leq(s[k], s[i]) {
      if i > 0 { assert s[i] == s[1..][i - 1]; }
    }
    forall i | 0 <= i < k ensures !leq(s[i], s[k]) {
      if i > 0 { assert s[i] == s[1..][i - 1]; }
    }
  }
}

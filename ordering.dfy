/**
 * The `orderBy` of a query: a column value, an ascending or descending
 * order on it, and a sort that produces a sorted permutation of the rows.
 */
module Ordering {

  /** The value of the column named in `orderBy`; `Null` is a missing value of a nullable column. */
  datatype Key = Null | Text(s: string) | Number(n: real)

  /** Lexicographic order on strings by code point. */
  predicate LexLe(a: string, b: string)
    decreases |a|
  {
    a == [] || (b != [] && (a[0] < b[0] || (a[0] == b[0] && LexLe(a[1..], b[1..]))))
  }

  lemma {:induction false} LexTotal(a: string, b: string)
    ensures LexLe(a, b) || LexLe(b, a)
    decreases |a|
  {
    if a != [] && b != [] && a[0] == b[0] {
      LexTotal(a[1..], b[1..]);
    }
  }

  lemma {:induction false} LexTrans(a: string, b: string, c: string)
    requires LexLe(a, b) && LexLe(b, c)
    ensures LexLe(a, c)
    decreases |a|
  {
    if a != [] && b != [] && c != [] && a[0] == b[0] == c[0] {
      LexTrans(a[1..], b[1..], c[1..]);
    }
  }

  /**
   * Ascending order on keys: a missing value first, as MongoDB orders null;
   * numbers (never mixed with text in one column) before text.
   */
  predicate KeyLe(a: Key, b: Key) {
    match (a, b)
    case (Null, _) => true
    case (_, Null) => false
    case (Number(x), Number(y)) => x <= y
    case (Text(x), Text(y)) => LexLe(x, y)
    case (Number(_), Text(_)) => true
    case (Text(_), Number(_)) => false
  }

  /** `a` may come before `b` in the requested order. */
  predicate InOrder(a: Key, b: Key, descending: bool) {
    if descending then KeyLe(b, a) else KeyLe(a, b)
  }

  lemma InOrderTotal(a: Key, b: Key, descending: bool)
    ensures InOrder(a, b, descending) || InOrder(b, a, descending)
  {
    if a.Text? && b.Text? { LexTotal(a.s, b.s); }
  }

  lemma InOrderTrans(a: Key, b: Key, c: Key, descending: bool)
    requires InOrder(a, b, descending) && InOrder(b, c, descending)
    ensures InOrder(a, c, descending)
  {
    if a.Text? && b.Text? && c.Text? {
      if descending { LexTrans(c.s, b.s, a.s); } else { LexTrans(a.s, b.s, c.s); }
    }
  }

  ghost predicate SortedBy<T>(xs: seq<T>, key: T -> Key, descending: bool) {
    forall i, j :: 0 <= i < j < |xs| ==> InOrder(key(xs[i]), key(xs[j]), descending)
  }

  /** `x` placed before the first element it may precede. */
  function Insert<T>(x: T, xs: seq<T>, key: T -> Key, descending: bool): (r: seq<T>)
    ensures multiset(r) == multiset(xs) + multiset{x}
    ensures |r| == |xs| + 1
    decreases |xs|
  {
    if xs == [] then [x]
    else if InOrder(key(x), key(xs[0]), descending) then [x] + xs
    else
      assert xs == [xs[0]] + xs[1..];
      [xs[0]] + Insert(x, xs[1..], key, descending)
  }

  lemma {:induction false} InsertSorted<T>(x: T, xs: seq<T>, key: T -> Key, descending: bool)
    requires SortedBy(xs, key, descending)
    ensures SortedBy(Insert(x, xs, key, descending), key, descending)
    decreases |xs|
  {
    if xs == [] {
    } else if InOrder(key(x), key(xs[0]), descending) {
      forall j | 0 <= j < |xs| ensures InOrder(key(x), key(xs[j]), descending) {
        if j > 0 { InOrderTrans(key(x), key(xs[0]), key(xs[j]), descending); }
      }
      ConsSorted(x, xs, key, descending);
    } else {
      InOrderTotal(key(x), key(xs[0]), descending);
      InsertSorted(x, xs[1..], key, descending);
      HeadPrecedes(x, xs, key, descending);
      ConsSorted(xs[0], Insert(x, xs[1..], key, descending), key, descending);
    }
  }

  /** A head that may precede every element of a sorted tail keeps the list sorted. */
  lemma ConsSorted<T>(h: T, t: seq<T>, key: T -> Key, descending: bool)
    requires SortedBy(t, key, descending)
    requires forall j :: 0 <= j < |t| ==> InOrder(key(h), key(t[j]), descending)
    ensures SortedBy([h] + t, key, descending)
  {
    var r := [h] + t;
    forall i, j | 0 <= i < j < |r| ensures InOrder(key(r[i]), key(r[j]), descending) {
      assert r[j] == t[j - 1];
      if i > 0 { assert r[i] == t[i - 1]; }
    }
  }

  /** The head of a sorted list precedes everything an insertion behind it yields. */
  lemma HeadPrecedes<T>(x: T, xs: seq<T>, key: T -> Key, descending: bool)
    requires xs != [] && SortedBy(xs, key, descending)
    requires InOrder(key(xs[0]), key(x), descending)
    ensures forall j :: 0 <= j < |Insert(x, xs[1..], key, descending)| ==>
      InOrder(key(xs[0]), key(Insert(x, xs[1..], key, descending)[j]), descending)
  {
    var tail := xs[1..];
    var rt := Insert(x, tail, key, descending);
    forall j | 0 <= j < |rt| ensures InOrder(key(xs[0]), key(rt[j]), descending) {
      assert rt[j] in multiset(rt);
      assert rt[j] == x || rt[j] in tail;
      if rt[j] != x {
        var k :| 0 <= k < |tail| && tail[k] == rt[j];
        assert xs[k + 1] == rt[j];
      }
    }
  }

  /** Insertion sort: the rows of `xs` in the requested order. */
  function Sort<T>(xs: seq<T>, key: T -> Key, descending: bool): (r: seq<T>)
    ensures multiset(r) == multiset(xs)
    ensures |r| == |xs|
    decreases |xs|
  {
    if xs == [] then []
    else
      assert xs == [xs[0]] + xs[1..];
      Insert(xs[0], Sort(xs[1..], key, descending), key, descending)
  }

  /** The sort's result is ordered. */
  lemma {:induction false} SortSorted<T>(xs: seq<T>, key: T -> Key, descending: bool)
    ensures SortedBy(Sort(xs, key, descending), key, descending)
    decreases |xs|
  {
    if xs != [] {
      SortSorted(xs[1..], key, descending);
      InsertSorted(xs[0], Sort(xs[1..], key, descending), key, descending);
    }
  }
}

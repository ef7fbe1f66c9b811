/**
 * Tables of the store as sequences of rows in table order, and the row
 * operations the handlers use: find by unique key, delete one row, filter,
 * and the offset window of a result (`skip`/`take`).
 */
module Tables {
  import opened Wrappers

  /** Position of the first row whose key is `k`, or None when there is none. */
  function IndexOfKey<T>(rows: seq<T>, key: T -> string, k: string): (r: Option<nat>)
    ensures r.None? <==> forall i :: 0 <= i < |rows| ==> key(rows[i]) != k
    ensures r.Some? ==> r.value < |rows| && key(rows[r.value]) == k
    decreases |rows|
  {
    if rows == [] then None
    else if key(rows[0]) == k then Some(0)
    else
      match IndexOfKey(rows[1..], key, k)
      case None => None
      case Some(i) => Some(i + 1)
  }

  /** No two rows share a key (a primary key or a unique column). */
  ghost predicate DistinctKeys<T>(rows: seq<T>, key: T -> string) {
    forall i, j :: 0 <= i < |rows| && 0 <= j < |rows| && i != j ==> key(rows[i]) != key(rows[j])
  }

  /** With distinct keys, the row found for a key is the one row carrying it. */
  lemma IndexOfUnique<T>(rows: seq<T>, key: T -> string, j: nat)
    requires DistinctKeys(rows, key)
    requires j < |rows|
    ensures IndexOfKey(rows, key, key(rows[j])) == Some(j)
  {
  }

  /** Appending a row whose key is new keeps the keys distinct. */
  lemma AppendDistinct<T>(rows: seq<T>, key: T -> string, x: T)
    requires DistinctKeys(rows, key)
    requires IndexOfKey(rows, key, key(x)).None?
    ensures DistinctKeys(rows + [x], key)
  {
  }

  /** Replacing a row by one with the same key keeps the keys distinct. */
  lemma UpdateDistinct<T>(rows: seq<T>, key: T -> string, i: nat, x: T)
    requires DistinctKeys(rows, key)
    requires i < |rows| && key(x) == key(rows[i])
    ensures DistinctKeys(rows[i := x], key)
  {
  }

  /** The table without the row at position `i`, the others in their order. */
  function RemoveAt<T>(rows: seq<T>, i: nat): (r: seq<T>)
    requires i < |rows|
    ensures |r| == |rows| - 1
    ensures forall j :: 0 <= j < i ==> r[j] == rows[j]
    ensures forall j :: i <= j < |r| ==> r[j] == rows[j + 1]
    ensures multiset(r) + multiset{rows[i]} == multiset(rows)
  {
    assert rows == rows[..i] + [rows[i]] + rows[i + 1..];
    rows[..i] + rows[i + 1..]
  }

  /** Deleting a row keeps the other keys distinct. */
  lemma RemoveAtDistinct<T>(rows: seq<T>, key: T -> string, i: nat)
    requires i < |rows| && DistinctKeys(rows, key)
    ensures DistinctKeys(RemoveAt(rows, i), key)
  {
    var r := RemoveAt(rows, i);
    forall a, b | 0 <= a < |r| && 0 <= b < |r| && a != b
      ensures key(r[a]) != key(r[b])
    {
      var a' := if a < i then a else a + 1;
      var b' := if b < i then b else b + 1;
      assert r[a] == rows[a'] && r[b] == rows[b'];
    }
  }

  /** The rows satisfying `p`, in table order (a `where` clause). */
  function Filter<T(!new)>(xs: seq<T>, p: T -> bool): (r: seq<T>)
    ensures forall x :: x in r <==> x in xs && p(x)
    ensures multiset(r) <= multiset(xs)
    ensures |r| <= |xs|
    decreases |xs|
  {
    if xs == [] then []
    else
      assert xs == [xs[0]] + xs[1..];
      if p(xs[0]) then [xs[0]] + Filter(xs[1..], p) else Filter(xs[1..], p)
  }

  function Min(a: int, b: int): int {
    if a <= b then a else b
  }

  /** `skip` rows dropped, then at most `take` rows kept. */
  function Window<T>(xs: seq<T>, skip: nat, take: nat): (r: seq<T>)
    ensures |r| == if skip >= |xs| then 0 else Min(take, |xs| - skip)
    ensures forall i :: 0 <= i < |r| ==> r[i] == xs[skip + i]
  {
    if skip >= |xs| then [] else xs[skip..skip + Min(take, |xs| - skip)]
  }

  function Reverse<T>(xs: seq<T>): (r: seq<T>)
    ensures |r| == |xs|
    ensures forall i :: 0 <= i < |xs| ==> r[i] == xs[|xs| - 1 - i]
  {
    seq(|xs|, i requires 0 <= i < |xs| => xs[|xs| - 1 - i])
  }

  /** The last `take` rows before the last `skip` rows, in list order. */
  function EndWindow<T>(xs: seq<T>, skip: nat, take: nat): (r: seq<T>)
    ensures |r| == if skip >= |xs| then 0 else Min(take, |xs| - skip)
    ensures forall i :: 0 <= i < |r| ==> r[i] == xs[|xs| - skip - |r| + i]
  {
    if skip >= |xs| then [] else xs[|xs| - skip - Min(take, |xs| - skip)..|xs| - skip]
  }

  /** Counting from the end is the window of the reversed list, reversed back. */
  lemma EndWindowReversed<T>(xs: seq<T>, skip: nat, take: nat)
    ensures EndWindow(xs, skip, take) == Reverse(Window(Reverse(xs), skip, take))
  {
    var a := EndWindow(xs, skip, take);
    var b := Reverse(Window(Reverse(xs), skip, take));
    assert |a| == |b|;
    forall i | 0 <= i < |a| ensures a[i] == b[i] {
      var w := Window(Reverse(xs), skip, take);
      assert b[i] == w[|w| - 1 - i];
      assert w[|w| - 1 - i] == Reverse(xs)[skip + |w| - 1 - i];
    }
  }

  /**
   * `skip` and `take` as the store applies them to an ordered result: a
   * negative skip is refused (None); a negative take counts from the end.
   */
  function Slice<T>(xs: seq<T>, skip: int, take: int): (r: Option<seq<T>>)
    ensures r.None? <==> skip < 0
    ensures skip >= 0 && take >= 0 ==> r == Some(Window(xs, skip, take))
    ensures skip >= 0 && take < 0 ==> r == Some(EndWindow(xs, skip, -take))
  {
    if skip < 0 then None
    else if take >= 0 then Some(Window(xs, skip, take))
    else Some(EndWindow(xs, skip, -take))
  }

  /** `Math.ceil(n / d)` for a positive divisor. */
  function CeilDiv(n: nat, d: nat): (q: nat)
    requires d > 0
    ensures q * d >= n
    ensures q * d < n + d
  {
    var q := (n + d - 1) / d;
    assert n + d - 1 == q * d + (n + d - 1) % d;
    q
  }

  /** `Math.ceil(n / d)` for a non-zero divisor of either sign: the least integer at least `n / d`. */
  function Ceil(n: nat, d: int): (q: int)
    requires d != 0
    ensures d > 0 ==> q * d >= n && (q - 1) * d < n
    ensures d < 0 ==> q * d <= n && (q - 1) * d > n
  {
    if d > 0 then CeilDiv(n, d)
    else
      var q := n / -d;
      assert n == q * -d + n % -d;
      -q
  }
}

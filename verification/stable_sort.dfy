/**
 * A stable sort into non-increasing key order, the behaviour of Python's
 * `list.sort(key=..., reverse=True)`: elements with equal keys keep their
 * original relative order.
 */
module StableSort {

  /** Insert x in front of the first element whose key is at most x's key. */
  function Insert<T>(x: T, s: seq<T>, key: T -> real): (r: seq<T>)
    ensures |r| == |s| + 1
  {
    if s == [] || key(s[0]) <= key(x) then [x] + s
    else [s[0]] + Insert(x, s[1..], key)
  }

  /** Insertion sort from the back, so earlier elements end up ahead of later equal ones. */
  function SortDesc<T>(s: seq<T>, key: T -> real): (r: seq<T>)
    ensures |r| == |s|
  {
    if s == [] then [] else Insert(s[0], SortDesc(s[1..], key), key)
  }

  predicate SortedDesc<T>(s: seq<T>, key: T -> real) {
    forall i, j :: 0 <= i < j < |s| ==> key(s[i]) >= key(s[j])
  }

  /** The elements of s whose key is v, in order. */
  function WithKey<T>(s: seq<T>, key: T -> real, v: real): seq<T> {
    if s == [] then []
    else (if key(s[0]) == v then [s[0]] else []) + WithKey(s[1..], key, v)
  }

  lemma {:induction false} WithKeyAppend<T>(a: seq<T>, b: seq<T>, key: T -> real, v: real)
    ensures WithKey(a + b, key, v) == WithKey(a, key, v) + WithKey(b, key, v)
  {
    if a != [] {
      assert (a + b)[1..] == a[1..] + b;
      WithKeyAppend(a[1..], b, key, v);
    } else {
      assert a + b == b;
    }
  }

  lemma {:induction false} InsertMultiset<T>(x: T, s: seq<T>, key: T -> real)
    ensures multiset(Insert(x, s, key)) == multiset([x] + s)
  {
    if s != [] && key(s[0]) > key(x) {
      InsertMultiset(x, s[1..], key);
      assert s == [s[0]] + s[1..];
    }
  }

  lemma {:induction false} InsertSorted<T>(x: T, s: seq<T>, key: T -> real)
    requires SortedDesc(s, key)
    ensures SortedDesc(Insert(x, s, key), key)
  {
    if s != [] && key(s[0]) > key(x) {
      InsertSorted(x, s[1..], key);
      var r := Insert(x, s[1..], key);
      assert r[0] == x || r[0] == s[1];
      forall j | 0 <= j < |r| ensures key(s[0]) >= key(r[j]) {
        assert key(r[0]) >= key(r[j]);
      }
    }
  }

  /** Inserting x ahead of elements with a different key changes no key's sub-list. */
  lemma {:induction false} InsertWithKey<T>(x: T, s: seq<T>, key: T -> real, v: real)
    ensures WithKey(Insert(x, s, key), key, v) == WithKey([x] + s, key, v)
  {
    if s != [] && key(s[0]) > key(x) {
      InsertWithKey(x, s[1..], key, v);
      assert ([x] + s)[1..] == s;
      assert ([x] + s[1..])[1..] == s[1..];
      assert ([s[0]] + Insert(x, s[1..], key))[1..] == Insert(x, s[1..], key);
    }
  }

  /** The result is ordered, is a permutation of the input, and is stable. */
  lemma {:induction false} SortDescCorrect<T>(s: seq<T>, key: T -> real)
    ensures SortedDesc(SortDesc(s, key), key)
    ensures multiset(SortDesc(s, key)) == multiset(s)
    ensures forall v :: WithKey(SortDesc(s, key), key, v) == WithKey(s, key, v)
  {
    if s != [] {
      var rest := SortDesc(s[1..], key);
      SortDescCorrect(s[1..], key);
      InsertSorted(s[0], rest, key);
      InsertMultiset(s[0], rest, key);
      assert s == [s[0]] + s[1..];
      forall v ensures WithKey(SortDesc(s, key), key, v) == WithKey(s, key, v) {
        InsertWithKey(s[0], rest, key, v);
        assert ([s[0]] + rest)[1..] == rest;
      }
    }
  }

  /** Every left-out copy in a sorted list ranks no higher than each of the first m elements. */
  lemma PrefixOmitted<T>(t: seq<T>, key: T -> real, m: nat)
    requires SortedDesc(t, key) && m <= |t|
    ensures forall x :: multiset(t[..m])[x] < multiset(t)[x] ==> forall i :: 0 <= i < m ==> key(x) <= key(t[i])
  {
    var top, rest := t[..m], t[m..];
    assert t == top + rest;
    forall x | multiset(top)[x] < multiset(t)[x]
      ensures forall i :: 0 <= i < m ==> key(x) <= key(t[i])
    {
      assert x in multiset(rest);
      var j :| 0 <= j < |rest| && rest[j] == x;
      assert t[m + j] == x;
    }
  }

  /** For each key, the elements of a prefix with that key are a prefix of those of the whole. */
  lemma PrefixWithKey<T>(t: seq<T>, key: T -> real, m: nat, v: real)
    requires m <= |t|
    ensures WithKey(t[..m], key, v) <= WithKey(t, key, v)
  {
    assert t == t[..m] + t[m..];
    WithKeyAppend(t[..m], t[m..], key, v);
  }
}

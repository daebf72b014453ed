/**
 * Counting helpers shared by the constraint engine: occurrence counts in a
 * sequence, the counter dictionaries the source builds with
 * `d[c] = d.get(c, 0) + 1`, and the sum of a counter's values.
 */
module Counting {

  /** Every word has five letters, as the corpus loader keeps only such words. */
  predicate AllFive(words: seq<string>) {
    forall k :: 0 <= k < |words| ==> |words[k]| == 5
  }

  /** Python's `d.get(c, 0)` on a counter dictionary. */
  function Get(m: map<char, nat>, c: char): nat {
    if c in m then m[c] else 0
  }

  /** Number of occurrences of `x` in `s`. */
  /** `m[c] = m.get(c, 0) + 1`. */
  function Inc(m: map<char, nat>, c: char): (r: map<char, nat>)
    ensures c in r && r[c] == Get(m, c) + 1
  {
    m[c := Get(m, c) + 1]
  }

  function Count<T(==)>(s: seq<T>, x: T): nat {
    if s == [] then 0
    else Count(s[..|s| - 1], x) + (if s[|s| - 1] == x then 1 else 0)
  }

  lemma {:induction false} CountBounds<T>(s: seq<T>, x: T)
    ensures Count(s, x) <= |s|
    ensures Count(s, x) > 0 <==> x in s
  {
    if s != [] {
      CountBounds(s[..|s| - 1], x);
      assert s == s[..|s| - 1] + [s[|s| - 1]];
    }
  }

  /** The counter dictionary built by incrementing `d[c]` for each `c` of `s` in turn. */
  function Tally(s: seq<char>): map<char, nat> {
    if s == [] then map[]
    else
      var m := Tally(s[..|s| - 1]);
      var c := s[|s| - 1];
      m[c := Get(m, c) + 1]
  }

  /** Tallying one more element increments its entry. */
  lemma TallySnoc(s: seq<char>, c: char)
    ensures Tally(s + [c]) == Tally(s)[c := Get(Tally(s), c) + 1]
  {
    assert (s + [c])[..|s + [c]| - 1] == s;
  }

  /** A counter holds exactly the letters of `s`, each with its number of occurrences. */
  /** Counting one more letter of s. */
  lemma TallyPrefix(s: seq<char>, i: nat)
    requires i < |s|
    ensures Tally(s[..i + 1]) == Inc(Tally(s[..i]), s[i])
  {
    assert s[..i + 1] == s[..i] + [s[i]];
    TallySnoc(s[..i], s[i]);
  }

  lemma {:induction false} TallyCount(s: seq<char>, c: char)
    ensures c in Tally(s) <==> c in s
    ensures Get(Tally(s), c) == Count(s, c)
  {
    if s != [] {
      TallyCount(s[..|s| - 1], c);
      assert s == s[..|s| - 1] + [s[|s| - 1]];
    }
  }

  /** Some key of a non-empty map; the order in which keys are visited never matters here. */
  ghost function Pick(m: map<char, nat>): (c: char)
    requires m != map[]
    ensures c in m
  {
    assert m.Keys != {};
    var c :| c in m.Keys; c
  }

  /** Sum of the values of a counter. */
  ghost function MapSum(m: map<char, nat>): nat
    decreases |m.Keys|
  {
    if m == map[] then 0
    else
      var c := Pick(m);
      assert m.Keys - {c} < m.Keys;
      m[c] + MapSum(m - {c})
  }

  /** The sum does not depend on which key is taken out first. */
  lemma {:induction false} MapSumRemove(m: map<char, nat>, k: char)
    requires k in m
    ensures MapSum(m) == m[k] + MapSum(m - {k})
    decreases |m.Keys|
  {
    var c := Pick(m);
    if c != k {
      var mc, mk := m - {c}, m - {k};
      assert mc.Keys < m.Keys && mk.Keys < m.Keys;
      MapSumRemove(mc, k);
      MapSumRemove(mk, c);
      assert mc - {k} == mk - {c};
    }
  }

  /** Incrementing one counter entry raises the sum by one. */
  lemma MapSumIncrement(m: map<char, nat>, c: char)
    ensures MapSum(m[c := Get(m, c) + 1]) == MapSum(m) + 1
  {
    var m' := m[c := Get(m, c) + 1];
    MapSumRemove(m', c);
    if c in m {
      MapSumRemove(m, c);
      assert m' - {c} == m - {c};
    } else {
      assert m' - {c} == m;
    }
  }

  /** The counts of a tally add up to the length of the tallied sequence. */
  lemma {:induction false} TallySum(s: seq<char>)
    ensures MapSum(Tally(s)) == |s|
  {
    if s != [] {
      TallySum(s[..|s| - 1]);
      MapSumIncrement(Tally(s[..|s| - 1]), s[|s| - 1]);
    }
  }
}

/**
 * `letter_frequencies`: for each of the five positions, how many candidate
 * words have each letter there.
 */
module Frequencies {
  import opened Counting

  /** The letters at position i of the words, in order. */
  function Column(words: seq<string>, i: nat): (col: seq<char>)
    requires AllFive(words) && i < 5
    ensures |col| == |words|
  {
    if words == [] then []
    else Column(words[..|words| - 1], i) + [words[|words| - 1][i]]
  }

  /** Every word contributes its own letter to each column. */
  lemma {:induction false} ColumnHas(words: seq<string>, k: nat, i: nat)
    requires AllFive(words) && k < |words| && i < 5
    ensures words[k][i] in Column(words, i)
  {
    if k < |words| - 1 {
      ColumnHas(words[..|words| - 1], k, i);
    }
  }

  /** lFreq is the letter-count table of words: entry i tallies column i. */
  predicate FreqTable(words: seq<string>, lFreq: seq<map<char, nat>>)
    requires AllFive(words)
  {
    |lFreq| == 5 && forall i :: 0 <= i < 5 ==> lFreq[i] == Tally(Column(words, i))
  }

  /** The rows of t after counting the letters of w at positions 0 .. n-1. */
  function Bump(t: seq<map<char, nat>>, w: string, n: nat): (r: seq<map<char, nat>>)
    requires |t| == 5 && n <= 5 <= |w|
    ensures |r| == 5
  {
    if n == 0 then t
    else
      var b := Bump(t, w, n - 1);
      b[n - 1 := Inc(b[n - 1], w[n - 1])]
  }

  /** The table built from the words, one word at a time. */
  function Table(words: seq<string>): (t: seq<map<char, nat>>)
    requires AllFive(words)
    ensures |t| == 5
  {
    if words == [] then seq(5, _ => map[])
    else Bump(Table(words[..|words| - 1]), words[|words| - 1], 5)
  }

  /** Bumping positions 0 .. n-1 counts the word's letter in each of those rows and leaves the others alone. */
  lemma {:induction false} BumpAt(t: seq<map<char, nat>>, w: string, n: nat, i: nat)
    requires |t| == 5 && n <= 5 <= |w| && i < 5
    ensures Bump(t, w, n)[i] == if i < n then Inc(t[i], w[i]) else t[i]
  {
    if n > 0 {
      BumpAt(t, w, n - 1, i);
      if i == n - 1 {
        BumpAt(t, w, n - 1, n - 1);
      }
    }
  }

  /** Row i of the table is the tally of column i. */
  lemma {:induction false} TableTallies(words: seq<string>)
    requires AllFive(words)
    ensures FreqTable(words, Table(words))
  {
    if words != [] {
      var init := words[..|words| - 1];
      TableTallies(init);
      forall i | 0 <= i < 5 ensures Table(words)[i] == Tally(Column(words, i)) {
        BumpAt(Table(init), words[|words| - 1], 5, i);
        TallySnoc(Column(init, i), words[|words| - 1][i]);
      }
    }
  }

  /** The table `l_freq`, built word by word and position by position. */
  method LetterFrequencies(words: seq<string>) returns (lFreq: seq<map<char, nat>>)
    requires AllFive(words)
    ensures lFreq == Table(words) && FreqTable(words, lFreq)
  {
    lFreq := seq(5, _ => map[]);
    var k := 0;
    while k < |words|
      invariant 0 <= k <= |words| && lFreq == Table(words[..k])
    {
      var word := words[k];
      ghost var before := lFreq;
      var i := 0;
      while i < 5
        invariant 0 <= i <= 5 && lFreq == Bump(before, word, i)
      {
        lFreq := lFreq[i := Inc(lFreq[i], word[i])];
        i := i + 1;
      }
      assert words[..k + 1][..k] == words[..k];
      k := k + 1;
    }
    assert words[..k] == words;
    TableTallies(words);
  }

  /**
   * What the table says: entry i holds exactly the letters found at position i,
   * each with the number of words having it there, and its counts add up to the
   * number of words.
   */
  lemma FreqTableCounts(words: seq<string>, lFreq: seq<map<char, nat>>)
    requires AllFive(words) && FreqTable(words, lFreq)
    ensures forall i, c :: 0 <= i < 5 ==> (c in lFreq[i] <==> c in Column(words, i))
    ensures forall i, c :: 0 <= i < 5 ==> Get(lFreq[i], c) == Count(Column(words, i), c)
    ensures forall i :: 0 <= i < 5 ==> MapSum(lFreq[i]) == |words|
  {
    forall i, c | 0 <= i < 5
      ensures (c in lFreq[i] <==> c in Column(words, i)) && Get(lFreq[i], c) == Count(Column(words, i), c)
    {
      TallyCount(Column(words, i), c);
    }
    forall i | 0 <= i < 5 ensures MapSum(lFreq[i]) == |words| {
      TallySum(Column(words, i));
    }
  }
}

/**
 * `get_score` and `get_best_words`: score every candidate and return the k
 * best, highest score first.
 */
module Ranking {
  import opened Counting
  import opened Frequencies
  import opened StableSort

  /** A candidate and its score: an entry of `scored_words`. */
  datatype Scored = Scored(word: string, score: real)

  /** The sort key, the pair's second component. */
  function ScoreOf(p: Scored): real {
    p.score
  }

  /** Sum, over the first n positions, of the table entry for the word's letter there. */
  function PositionalSum(word: string, lFreq: seq<map<char, nat>>, n: nat): nat
    requires n <= 5 <= |word| && 5 <= |lFreq|
  {
    if n == 0 then 0 else PositionalSum(word, lFreq, n - 1) + Get(lFreq[n - 1], word[n - 1])
  }

  /** The number of different letters in the word. */
  function Distinct(word: string): nat {
    |set c | c in word|
  }

  /** No letter occurs twice. */
  predicate AllDifferent(word: string) {
    forall i, j :: 0 <= i < j < |word| ==> word[i] != word[j]
  }

  /**
   * The score of a word: its positional sum, weighted by logWeight(word) (the
   * natural logarithm of the word's corpus frequency) and by its number of
   * different letters.
   */
  function Score(word: string, lFreq: seq<map<char, nat>>, logWeight: string -> real): real
    requires 5 <= |word| && 5 <= |lFreq|
  {
    Weighted(PositionalSum(word, lFreq, 5), logWeight(word), Distinct(word))
  }

  /** The positional sum times the frequency weight times the number of different letters. */
  function Weighted(sum: nat, weight: real, distinct: nat): real {
    sum as real * weight * distinct as real
  }

  /** `get_score`: the positional sum by a loop, then the two weights. */
  method GetScore(word: string, lFreq: seq<map<char, nat>>, logWeight: string -> real) returns (score: real)
    requires 5 <= |word| && 5 <= |lFreq|
    ensures score == Score(word, lFreq, logWeight)
  {
    var sum: nat := 0;
    var i := 0;
    while i < 5
      invariant 0 <= i <= 5 && sum == PositionalSum(word, lFreq, i)
    {
      sum := sum + Get(lFreq[i], word[i]);
      i := i + 1;
    }
    score := sum as real * logWeight(word);
    var letters := set c | c in word;
    score := score * |letters| as real;
  }

  /**
   * Against the table of the candidates themselves, the entry for a letter at
   * position i is at most the number of candidates, and at least one when the
   * word is a candidate.
   */
  lemma EntryBounds(words: seq<string>, lFreq: seq<map<char, nat>>, word: string, i: nat)
    requires AllFive(words) && FreqTable(words, lFreq)
    requires i < 5 <= |word|
    ensures Get(lFreq[i], word[i]) <= |words|
    ensures word in words ==> Get(lFreq[i], word[i]) >= 1
  {
    var col := Column(words, i);
    TallyCount(col, word[i]);
    CountBounds(col, word[i]);
    if word in words {
      var k :| 0 <= k < |words| && words[k] == word;
      ColumnHas(words, k, i);
    }
  }

  /** Summing the entries: at most n times the number of candidates, and at least n for a candidate. */
  lemma {:induction false} PositionalSumBounds(words: seq<string>, lFreq: seq<map<char, nat>>, word: string, n: nat)
    requires AllFive(words) && FreqTable(words, lFreq)
    requires n <= 5 <= |word|
    ensures PositionalSum(word, lFreq, n) <= n * |words|
    ensures word in words ==> PositionalSum(word, lFreq, n) >= n
  {
    if n > 0 {
      PositionalSumBounds(words, lFreq, word, n - 1);
      EntryBounds(words, lFreq, word, n - 1);
      assert (n - 1) * |words| + |words| == n * |words|;
    }
  }

  /** Appending a letter adds one different letter exactly when it is new. */
  lemma DistinctSnoc(init: string, last: char)
    ensures Distinct(init + [last]) == if last in init then Distinct(init) else Distinct(init) + 1
  {
    var word := init + [last];
    assert (set c | c in word) == (set c | c in init) + {last};
    if last !in init {
      assert last !in (set c | c in init);
    } else {
      assert (set c | c in word) == (set c | c in init);
    }
  }

  /** A word has between one and |word| different letters, and |word| exactly when no letter repeats. */
  lemma {:induction false} DistinctBounds(word: string)
    ensures Distinct(word) <= |word|
    ensures word != [] ==> 1 <= Distinct(word)
    ensures Distinct(word) == |word| <==> AllDifferent(word)
  {
    if word != [] {
      var init, last := word[..|word| - 1], word[|word| - 1];
      assert word == init + [last];
      DistinctBounds(init);
      DistinctSnoc(init, last);
      if last in init {
        var k :| 0 <= k < |init| && init[k] == last;
        assert word[k] == word[|word| - 1];
      } else if AllDifferent(init) {
        forall i, j | 0 <= i < j < |word| ensures word[i] != word[j] {
          assert word[i] == init[i];
        }
      } else {
        var i, j :| 0 <= i < j < |init| && init[i] == init[j];
        assert word[i] == word[j];
      }
    }
  }

  /**
   * For a candidate whose log-frequency weight is not negative, the score lies
   * between 5 and 25 times the number of candidates, times that weight.
   */
  lemma ScoreBounds(words: seq<string>, lFreq: seq<map<char, nat>>, logWeight: string -> real, word: string)
    requires AllFive(words) && FreqTable(words, lFreq)
    requires word in words && 0.0 <= logWeight(word)
    ensures 5.0 * logWeight(word) <= Score(word, lFreq, logWeight)
    ensures Score(word, lFreq, logWeight) <= 25.0 * |words| as real * logWeight(word)
  {
    var k :| 0 <= k < |words| && words[k] == word;
    PositionalSumBounds(words, lFreq, word, 5);
    DistinctBounds(word);
    WeightedLower(PositionalSum(word, lFreq, 5), logWeight(word), Distinct(word));
    WeightedUpper(PositionalSum(word, lFreq, 5), logWeight(word), Distinct(word), |words|);
  }

  lemma MulLe(a: real, b: real, c: real)
    requires a <= b && 0.0 <= c
    ensures a * c <= b * c && c * a <= c * b
  {
  }

  lemma WeightedLower(sum: nat, weight: real, distinct: nat)
    requires 5 <= sum && 1 <= distinct && 0.0 <= weight
    ensures 5.0 * weight <= Weighted(sum, weight, distinct)
  {
    var pw := sum as real * weight;
    MulLe(5.0, sum as real, weight);
    MulLe(1.0, distinct as real, pw);
  }

  lemma WeightedUpper(sum: nat, weight: real, distinct: nat, n: nat)
    requires sum <= 5 * n && distinct <= 5 && 0.0 <= weight
    ensures Weighted(sum, weight, distinct) <= 25.0 * n as real * weight
  {
    var pw, q := sum as real * weight, 5.0 * n as real;
    MulLe(0.0, sum as real, weight);
    MulLe(distinct as real, 5.0, pw);
    MulLe(sum as real, q, weight);
    MulLe(pw, q * weight, 5.0);
  }

  /**
   * The score as a total sort key on words. Only words of at least five letters
   * are ever ranked; any other word gets 0.
   */
  function ScoreKey(lFreq: seq<map<char, nat>>, logWeight: string -> real): string -> real {
    w => if 5 <= |w| && 5 <= |lFreq| then Score(w, lFreq, logWeight) else 0.0
  }

  /** The words of the pairs, in order. */
  function Words(ps: seq<Scored>): (ws: seq<string>)
    ensures |ws| == |ps|
  {
    if ps == [] then [] else [ps[0].word] + Words(ps[1..])
  }

  /** Every pair carries its word's key. */
  predicate Honest(ps: seq<Scored>, key: string -> real) {
    forall p :: p in ps ==> key(p.word) == p.score
  }

  lemma {:induction false} InsertWords(p: Scored, ps: seq<Scored>, key: string -> real)
    requires Honest(ps, key) && key(p.word) == p.score
    ensures Words(Insert(p, ps, ScoreOf)) == Insert(p.word, Words(ps), key)
    ensures Honest(Insert(p, ps, ScoreOf), key)
  {
    if ps != [] && ps[0].score > p.score {
      assert ps[0] in ps;
      InsertWords(p, ps[1..], key);
    }
  }

  /** Sorting honest pairs by their scores sorts their words by the key, ties included. */
  lemma {:induction false} SortWords(ps: seq<Scored>, key: string -> real)
    requires Honest(ps, key)
    ensures Words(SortDesc(ps, ScoreOf)) == SortDesc(Words(ps), key)
    ensures Honest(SortDesc(ps, ScoreOf), key)
  {
    if ps != [] {
      assert ps[0] in ps;
      SortWords(ps[1..], key);
      InsertWords(ps[0], SortDesc(ps[1..], ScoreOf), key);
    }
  }

  lemma WordsPrefix(ps: seq<Scored>, m: nat)
    requires m <= |ps|
    ensures Words(ps[..m]) == Words(ps)[..m]
  {
    if m > 0 {
      WordsPrefix(ps[1..], m - 1);
      assert ps[..m][1..] == ps[1..][..m - 1];
    }
  }

  /** The first loop of `get_best_words`: pair every candidate with its score, in order. */
  method ScoreAll(words: seq<string>, lFreq: seq<map<char, nat>>, logWeight: string -> real)
    returns (scored: seq<Scored>)
    requires 5 <= |lFreq| && Scorable(words)
    ensures Words(scored) == words && Honest(scored, ScoreKey(lFreq, logWeight))
  {
    scored := [];
    var n := 0;
    while n < |words|
      invariant 0 <= n <= |words|
      invariant Words(scored) == words[..n]
      invariant Honest(scored, ScoreKey(lFreq, logWeight))
    {
      var score := GetScore(words[n], lFreq, logWeight);
      WordsSnoc(scored, Scored(words[n], score));
      assert words[..n + 1] == words[..n] + [words[n]];
      scored := scored + [Scored(words[n], score)];
      n := n + 1;
    }
    assert words[..n] == words;
  }

  lemma {:induction false} WordsSnoc(ps: seq<Scored>, p: Scored)
    ensures Words(ps + [p]) == Words(ps) + [p.word]
  {
    if ps != [] {
      assert (ps + [p])[1..] == ps[1..] + [p];
      WordsSnoc(ps[1..], p);
    }
  }

  /** The number of words `get_best_words` returns: `min(k, len(words))`, and none when that is negative. */
  function Take(k: int, n: nat): (m: nat)
    ensures m <= n
  {
    if k <= 0 then 0 else if k < n then k else n
  }

  /** Every word has at least the five letters `get_score` reads. */
  predicate Scorable(words: seq<string>) {
    forall i :: 0 <= i < |words| ==> 5 <= |words[i]|
  }

  /**
   * What `get_best_words` returns: the first k words (none if k is not
   * positive) after a stable sort by score, highest first.
   */
  function BestWords(words: seq<string>, lFreq: seq<map<char, nat>>, logWeight: string -> real, k: int): (best: seq<string>)
    ensures |best| == Take(k, |words|)
  {
    SortDesc(words, ScoreKey(lFreq, logWeight))[..Take(k, |words|)]
  }

  /** The best words are drawn from the candidates, copies included. */
  lemma BestWordsFrom(words: seq<string>, lFreq: seq<map<char, nat>>, logWeight: string -> real, k: int)
    ensures multiset(BestWords(words, lFreq, logWeight, k)) <= multiset(words)
  {
    var t := SortDesc(words, ScoreKey(lFreq, logWeight));
    SortDescCorrect(words, ScoreKey(lFreq, logWeight));
    assert t == t[..Take(k, |words|)] + t[Take(k, |words|)..];
  }

  /** The best words come highest score first. */
  lemma BestWordsOrdered(words: seq<string>, lFreq: seq<map<char, nat>>, logWeight: string -> real, k: int)
    requires 5 <= |lFreq| && Scorable(words)
    ensures Scorable(BestWords(words, lFreq, logWeight, k))
    ensures forall i, j :: 0 <= i < j < Take(k, |words|) ==>
      Score(BestWords(words, lFreq, logWeight, k)[i], lFreq, logWeight) >= Score(BestWords(words, lFreq, logWeight, k)[j], lFreq, logWeight)
  {
    var best := BestWords(words, lFreq, logWeight, k);
    BestWordsFrom(words, lFreq, logWeight, k);
    SortDescCorrect(words, ScoreKey(lFreq, logWeight));
    forall i | 0 <= i < |best| ensures 5 <= |best[i]| {
      assert best[i] in multiset(words);
    }
  }

  /** A candidate with a copy left out scores no more than any best word. */
  lemma BestWordsOmitted(words: seq<string>, lFreq: seq<map<char, nat>>, logWeight: string -> real, k: int)
    requires 5 <= |lFreq| && Scorable(words)
    ensures Scorable(BestWords(words, lFreq, logWeight, k))
    ensures forall j, i ::
      0 <= j < |words| && multiset(BestWords(words, lFreq, logWeight, k))[words[j]] < multiset(words)[words[j]] &&
      0 <= i < Take(k, |words|) ==>
        Score(words[j], lFreq, logWeight) <= Score(BestWords(words, lFreq, logWeight, k)[i], lFreq, logWeight)
  {
    var key := ScoreKey(lFreq, logWeight);
    var t := SortDesc(words, key);
    BestWordsOrdered(words, lFreq, logWeight, k);
    SortDescCorrect(words, key);
    PrefixOmitted(t, key, Take(k, |words|));
  }

  /** Ties keep the candidates' order: for each score, the best words of that score are the first candidates of that score. */
  lemma BestWordsStable(words: seq<string>, lFreq: seq<map<char, nat>>, logWeight: string -> real, k: int, v: real)
    ensures WithKey(BestWords(words, lFreq, logWeight, k), ScoreKey(lFreq, logWeight), v)
      <= WithKey(words, ScoreKey(lFreq, logWeight), v)
  {
    var key := ScoreKey(lFreq, logWeight);
    SortDescCorrect(words, key);
    PrefixWithKey(SortDesc(words, key), key, Take(k, |words|), v);
  }

  /** `get_best_words`: score the candidates, sort the pairs by score, and keep the first k words. */
  method GetBestWords(words: seq<string>, lFreq: seq<map<char, nat>>, logWeight: string -> real, k: int)
    returns (best: seq<string>)
    requires 5 <= |lFreq| && Scorable(words)
    ensures best == BestWords(words, lFreq, logWeight, k)
  {
    var scored := ScoreAll(words, lFreq, logWeight);
    var sorted := SortDesc(scored, ScoreOf);
    var m := if k < |sorted| then k else |sorted|;
    if m < 0 {
      m := 0;
    }
    best := Words(sorted[..m]);
    SortWords(scored, ScoreKey(lFreq, logWeight));
    WordsPrefix(sorted, m);
  }
}

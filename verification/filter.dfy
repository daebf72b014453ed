/**
 * `filter_words`: keep the candidate words that satisfy every rule of the
 * current triple, in their original order.
 */
module Filter {
  import opened Wrappers
  import opened Counting
  import opened Rules

  /**
   * The rules admit word w: each fixed position holds its letter, no letter sits
   * where it is forbidden, and each letter of `exists` occurs in w at least the
   * required number of times. A letter recorded with count 0 must still occur once,
   * because the source tests `c not in c_count` first.
   */
  predicate Admits(rs: RuleSet, w: string)
    requires rs.WellFormed() && |w| == 5
  {
    (forall i :: 0 <= i < 5 ==> FitsAt(rs.correct[i], rs.incorrect[i], w[i]))
    && (forall c :: c in rs.exist ==> OccursEnough(w, c, rs.exist[c]))
  }

  /** Letter x may stand at a position with this fixed letter and these forbidden letters. */
  predicate FitsAt(fixed: Option<char>, forbidden: set<char>, x: char) {
    (fixed == None || fixed == Some(x)) && x !in forbidden
  }

  /** Letter c occurs in w, and at least n times. */
  predicate OccursEnough(w: string, c: char, n: nat) {
    c in w && Count(w, c) >= n
  }

  /** The admitted words, in their original order. */
  function Filter(words: seq<string>, rs: RuleSet): seq<string>
    requires rs.WellFormed() && AllFive(words)
  {
    if words == [] then []
    else
      var last := words[|words| - 1];
      if Admits(rs, last) then Filter(words[..|words| - 1], rs) + [last]
      else Filter(words[..|words| - 1], rs)
  }

  /** a can be obtained from b by deleting elements. */
  predicate IsSubseq(a: seq<string>, b: seq<string>)
    decreases |b|
  {
    if a == [] then true
    else if b == [] then false
    else if a[|a| - 1] == b[|b| - 1] then IsSubseq(a[..|a| - 1], b[..|b| - 1])
    else IsSubseq(a, b[..|b| - 1])
  }

  /** The inner `is_valid`, which returns False at the first rule the word breaks. */
  method IsValid(rules: Rules, word: string) returns (ok: bool)
    requires rules.Valid() && |word| == 5
    ensures ok == Admits(rules.State(), word)
  {
    var correct, incorrect, exist := rules.correct, rules.incorrect, rules.exist;
    ghost var rs := rules.State();
    var cCount: map<char, nat> := map[];
    var i := 0;
    while i < 5
      invariant 0 <= i <= 5
      invariant cCount == Tally(word[..i])
      invariant forall k :: 0 <= k < i ==> FitsAt(rs.correct[k], rs.incorrect[k], word[k])
    {
      var c := word[i];
      TallyPrefix(word, i);
      cCount := Inc(cCount, c);
      assert correct[i] == rs.correct[i] && incorrect[i] == rs.incorrect[i];
      if correct[i] != None && correct[i] != Some(c) {
        assert !FitsAt(rs.correct[i], rs.incorrect[i], word[i]);
        return false;
      }
      if c in incorrect[i] {
        assert !FitsAt(rs.correct[i], rs.incorrect[i], word[i]);
        return false;
      }
      i := i + 1;
    }
    assert word[..i] == word;
    var keys := exist.Keys;
    while keys != {}
      invariant keys <= rs.exist.Keys
      invariant forall c :: c in rs.exist && c !in keys ==> OccursEnough(word, c, rs.exist[c])
      decreases |keys|
    {
      var c :| c in keys;
      TallyCount(word, c);
      if c !in cCount || cCount[c] < exist[c] {
        assert !OccursEnough(word, c, rs.exist[c]);
        return false;
      }
      keys := keys - {c};
    }
    return true;
  }

  /** `filter_words`: the loop that appends each admitted word to `new_words`. */
  method FilterWords(words: seq<string>, rules: Rules) returns (newWords: seq<string>)
    requires rules.Valid() && AllFive(words)
    ensures newWords == Filter(words, rules.State())
    ensures forall k :: 0 <= k < |words| ==> (words[k] in newWords <==> Admits(rules.State(), words[k]))
    ensures forall w :: w in newWords ==> w in words
    ensures IsSubseq(newWords, words)
  {
    newWords := [];
    var k := 0;
    while k < |words|
      invariant 0 <= k <= |words|
      invariant newWords == Filter(words[..k], rules.State())
    {
      assert words[..k + 1][..k] == words[..k];
      var ok := IsValid(rules, words[k]);
      if ok {
        newWords := newWords + [words[k]];
      }
      k := k + 1;
    }
    assert words[..k] == words;
    FilterMembers(words, rules.State());
    FilterSubseq(words, rules.State());
  }

  /** A word is kept exactly when it is a candidate the rules admit. */
  lemma {:induction false} FilterMembers(words: seq<string>, rs: RuleSet)
    requires rs.WellFormed() && AllFive(words)
    ensures forall w :: w in Filter(words, rs) ==> w in words
    ensures forall k :: 0 <= k < |words| ==> (words[k] in Filter(words, rs) <==> Admits(rs, words[k]))
  {
    if words != [] {
      var init := words[..|words| - 1];
      FilterMembers(init, rs);
      assert forall k :: 0 <= k < |init| ==> words[k] == init[k];
    }
  }

  lemma {:induction false} SubseqSnoc(a: seq<string>, b: seq<string>, x: string)
    requires IsSubseq(a, b)
    ensures IsSubseq(a, b + [x])
    decreases |b|, 1
  {
    var bx := b + [x];
    assert bx[..|bx| - 1] == b;
    if a != [] && a[|a| - 1] == x {
      SubseqDropLast(a, b);
    }
  }

  lemma {:induction false} SubseqDropLast(a: seq<string>, b: seq<string>)
    requires a != [] && IsSubseq(a, b)
    ensures IsSubseq(a[..|a| - 1], b)
    decreases |b|, 0
  {
    var a', b' := a[..|a| - 1], b[..|b| - 1];
    assert b == b' + [b[|b| - 1]];
    if a[|a| - 1] == b[|b| - 1] {
      SubseqSnoc(a', b', b[|b| - 1]);
    } else {
      SubseqDropLast(a, b');
      SubseqSnoc(a', b', b[|b| - 1]);
    }
  }

  /** The result keeps the candidates' order: it is a sub-list of the input. */
  lemma {:induction false} FilterSubseq(words: seq<string>, rs: RuleSet)
    requires rs.WellFormed() && AllFive(words)
    ensures IsSubseq(Filter(words, rs), words)
  {
    if words != [] {
      var init, last := words[..|words| - 1], words[|words| - 1];
      FilterSubseq(init, rs);
      assert words == init + [last];
      if Admits(rs, last) {
        var f := Filter(words, rs);
        assert f[..|f| - 1] == Filter(init, rs);
      } else {
        SubseqSnoc(Filter(init, rs), init, last);
      }
    }
  }

  /** The kept words are candidates, so they have five letters too. */
  lemma FilterAllFive(words: seq<string>, rs: RuleSet)
    requires rs.WellFormed() && AllFive(words)
    ensures AllFive(Filter(words, rs))
  {
    FilterMembers(words, rs);
    var f := Filter(words, rs);
    forall k | 0 <= k < |f| ensures |f[k]| == 5 {
      assert f[k] in words;
    }
  }

  /** Filtering a filtered list with rules that admit no more words is the same as filtering once. */
  lemma {:induction false} FilterAgain(words: seq<string>, weak: RuleSet, strong: RuleSet)
    requires weak.WellFormed() && strong.WellFormed() && AllFive(words)
    requires forall w :: |w| == 5 && Admits(strong, w) ==> Admits(weak, w)
    ensures AllFive(Filter(words, weak))
    ensures Filter(Filter(words, weak), strong) == Filter(words, strong)
  {
    FilterAllFive(words, weak);
    if words != [] {
      var init, last := words[..|words| - 1], words[|words| - 1];
      FilterAgain(init, weak, strong);
      var f1 := Filter(init, weak);
      var f := Filter(words, weak);
      if Admits(weak, last) {
        assert f[..|f| - 1] == f1 && f[|f| - 1] == last;
      }
    }
  }

  /** `filter_words` is idempotent. */
  lemma FilterIdempotent(words: seq<string>, rs: RuleSet)
    requires rs.WellFormed() && AllFive(words)
    ensures AllFive(Filter(words, rs))
    ensures Filter(Filter(words, rs), rs) == Filter(words, rs)
  {
    FilterAgain(words, rs, rs);
  }

  /**
   * `strong` knows at least what `weak` knows: the same fixed letters (and maybe
   * more), larger forbidden sets, and larger or additional minimum counts.
   */
  predicate Stronger(strong: RuleSet, weak: RuleSet)
    requires strong.WellFormed() && weak.WellFormed()
  {
    (forall i :: 0 <= i < 5 ==>
       (weak.correct[i] == None || strong.correct[i] == weak.correct[i]) && weak.incorrect[i] <= strong.incorrect[i])
    && (forall c :: c in weak.exist ==> c in strong.exist && strong.exist[c] >= weak.exist[c])
  }

  /** Stronger rules keep a sub-list of what weaker rules keep, and re-filtering the weaker result is enough. */
  lemma FilterNarrows(words: seq<string>, weak: RuleSet, strong: RuleSet)
    requires weak.WellFormed() && strong.WellFormed() && AllFive(words)
    requires Stronger(strong, weak)
    ensures AllFive(Filter(words, weak))
    ensures Filter(words, strong) == Filter(Filter(words, weak), strong)
    ensures IsSubseq(Filter(words, strong), Filter(words, weak))
  {
    FilterAgain(words, weak, strong);
    FilterSubseq(Filter(words, weak), strong);
  }

  /** Feedback whose 'c' marks agree with the letters already fixed. */
  predicate FixesAgree(word: string, result: string, rs: RuleSet)
    requires 5 <= |word| && 5 <= |result| && rs.WellFormed()
  {
    forall i :: 0 <= i < 5 && result[i] == 'c' ==> rs.correct[i] == None || rs.correct[i] == Some(word[i])
  }

  /** A round whose 'c' marks agree with the fixed letters only adds knowledge. */
  lemma ParseStronger(word: string, result: string, rs: RuleSet)
    requires 5 <= |word| && 5 <= |result| && rs.WellFormed()
    requires FixesAgree(word, result, rs)
    ensures Stronger(Parse(word, result, rs), rs)
  {
    forall i | 0 <= i < 5 {
      ParseCorrect(word, result, rs, i);
    }
    ParseKeepsForbidden(word, result, rs);
    ParseExistGrows(word, result, rs);
  }

  /**
   * Without that agreement a round can lose knowledge: a 'c' mark overwrites
   * the letter already fixed at its position, so the new rules are not stronger.
   */
  lemma FixOverwritten()
    ensures var rs := Empty.(correct := Empty.correct[0 := Some('a')]);
            rs.WellFormed() && Parse("bbbbb", "ccccc", rs).correct[0] == Some('b')
            && !Stronger(Parse("bbbbb", "ccccc", rs), rs)
  {
    var rs := Empty.(correct := Empty.correct[0 := Some('a')]);
    ParseCorrect("bbbbb", "ccccc", rs, 0);
  }

  /** Such a round narrows the candidates: re-filtering the previous list is enough. */
  lemma ParseNarrows(words: seq<string>, word: string, result: string, rs: RuleSet)
    requires 5 <= |word| && 5 <= |result| && rs.WellFormed() && AllFive(words)
    requires FixesAgree(word, result, rs)
    ensures AllFive(Filter(words, rs))
    ensures Filter(words, Parse(word, result, rs)) == Filter(Filter(words, rs), Parse(word, result, rs))
    ensures IsSubseq(Filter(words, Parse(word, result, rs)), Filter(words, rs))
  {
    ParseStronger(word, result, rs);
    FilterNarrows(words, rs, Parse(word, result, rs));
  }

  /**
   * A '.' that comes before a 'c' on the same letter forbids the letter at the
   * position the 'c' then fixes: after "xaxxa" scored "....c" no word is admitted,
   * not even "pizza", which that score describes.
   */
  lemma DotBeforeCorrect()
    ensures Parse("xaxxa", "....c", Empty).correct[4] == Some('a')
    ensures 'a' in Parse("xaxxa", "....c", Empty).incorrect[4]
    ensures forall w :: |w| == 5 ==> !Admits(Parse("xaxxa", "....c", Empty), w)
    ensures Filter(["pizza"], Parse("xaxxa", "....c", Empty)) == []
  {
    var word, result := "xaxxa", "....c";
    ParseCorrect(word, result, Empty, 4);
    assert CorrectBefore(word, result, Empty.correct, 1, 4) == None;
    assert ForbiddenBy(word, result, Empty.correct, 5, 4, 'a');
    ParseIncorrect(word, result, Empty, 4, 'a');
  }
}

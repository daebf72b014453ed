/**
 * The constraint state of the solver and `parse_rules`, which folds one
 * guess and its result into it.
 *
 * The state is the source's triple `(correct, incorrect, exists)`:
 *   - `correct[i]`: the letter known to be at position i, or None;
 *   - `incorrect[i]`: letters known not to be at position i;
 *   - `exists[c]`: the least number of times letter c occurs in the answer.
 * `exists` is a keyword in Dafny, so the third component is called `exist`.
 *
 * A result is read mark by mark: 'c' right letter in the right place,
 * 'x' in the word but elsewhere, '.' absent. Any other character is ignored.
 */
module Rules {
  import opened Wrappers
  import opened Counting

  /** A value snapshot of the rule triple. */
  datatype RuleSet = RuleSet(correct: seq<Option<char>>, incorrect: seq<set<char>>, exist: map<char, nat>)
  {
    predicate WellFormed() {
      |correct| == 5 && |incorrect| == 5
    }
  }

  /** The triple `parse_rules` starts from when it is given no rules. */
  const Empty: RuleSet := RuleSet(seq(5, _ => None), seq(5, _ => {}), map[])

  /** What the loop over the five marks carries: the two arrays and `new_exists`. */
  datatype Round = Round(correct: seq<Option<char>>, incorrect: seq<set<char>>, newExist: map<char, nat>)
  {
    predicate WellFormed() {
      |correct| == 5 && |incorrect| == 5
    }
  }

  /** Processing the mark at position i. */
  function Step(word: string, result: string, i: nat, s: Round): (t: Round)
    requires i < 5 <= |word| && 5 <= |result| && s.WellFormed()
    ensures t.WellFormed()
  {
    var c := word[i];
    if result[i] == '.' then
      s.(incorrect := seq(5, j requires 0 <= j < 5 =>
                            if s.correct[j] != Some(c) then s.incorrect[j] + {c} else s.incorrect[j]))
    else if result[i] == 'c' then
      s.(correct := s.correct[i := Some(c)])
    else if result[i] == 'x' then
      s.(incorrect := s.incorrect[i := s.incorrect[i] + {c}],
         newExist := s.newExist[c := Get(s.newExist, c) + 1])
    else
      s
  }

  /** The marks at positions 0 .. n-1 processed in order, starting from s0. */
  function Marks(word: string, result: string, n: nat, s0: Round): (s: Round)
    requires n <= 5 <= |word| && 5 <= |result| && s0.WellFormed()
    ensures s.WellFormed()
  {
    if n == 0 then s0 else Step(word, result, n - 1, Marks(word, result, n - 1, s0))
  }

  /** The letters of the fixed positions, in position order: what `cor_freq` counts. */
  function FixedLetters(correct: seq<Option<char>>): seq<char> {
    if correct == [] then []
    else
      FixedLetters(correct[..|correct| - 1])
      + match correct[|correct| - 1] case None => [] case Some(c) => [c]
  }

  function Max3(a: nat, b: nat, c: nat): nat {
    if a >= b && a >= c then a else if b >= c then b else c
  }

  /** `counter` in the loop over `lets`: the largest of the three counts for letter c. */
  function Top(exist: map<char, nat>, corFreq: map<char, nat>, newExist: map<char, nat>, c: char): nat {
    Max3(Get(corFreq, c), Get(exist, c), Get(newExist, c))
  }

  /** The letters of `lets` whose maximum count is positive. */
  function Raised(exist: map<char, nat>, corFreq: map<char, nat>, newExist: map<char, nat>): set<char> {
    set c | c in corFreq.Keys + exist.Keys + newExist.Keys && Top(exist, corFreq, newExist, c) > 0
  }

  /** The loop over `lets`: a raised letter gets the maximum count, every other entry is kept. */
  function Merge(exist: map<char, nat>, corFreq: map<char, nat>, newExist: map<char, nat>): map<char, nat> {
    var raised := Raised(exist, corFreq, newExist);
    map c | c in exist.Keys + raised ::
      if c in raised then Top(exist, corFreq, newExist, c) else exist[c]
  }

  /** The dictionary after visiting the letters of `order` in turn, as the loop over `lets` does. */
  function RaiseAll(exist: map<char, nat>, corFreq: map<char, nat>, newExist: map<char, nat>, order: seq<char>)
    : map<char, nat>
  {
    if order == [] then exist
    else
      var m := RaiseAll(exist, corFreq, newExist, order[..|order| - 1]);
      var c := order[|order| - 1];
      var counter := Max3(Get(corFreq, c), Get(m, c), Get(newExist, c));
      if counter > 0 then m[c := counter] else m
  }

  lemma RaiseAllSnoc(exist: map<char, nat>, corFreq: map<char, nat>, newExist: map<char, nat>, order: seq<char>, c: char)
    ensures var m := RaiseAll(exist, corFreq, newExist, order);
            var counter := Max3(Get(corFreq, c), Get(m, c), Get(newExist, c));
            RaiseAll(exist, corFreq, newExist, order + [c]) == if counter > 0 then m[c := counter] else m
  {
    assert (order + [c])[..|order|] == order;
  }

  predicate NoDuplicates(s: seq<char>) {
    forall i, j :: 0 <= i < j < |s| ==> s[i] != s[j]
  }

  /** Visiting each letter once leaves each entry as `Merge` has it, whatever the order. */
  lemma {:induction false} RaiseAllAt(exist: map<char, nat>, corFreq: map<char, nat>, newExist: map<char, nat>,
                                      order: seq<char>, c: char)
    requires NoDuplicates(order)
    ensures c in RaiseAll(exist, corFreq, newExist, order)
            <==> c in exist || (c in order && Top(exist, corFreq, newExist, c) > 0)
    ensures c in RaiseAll(exist, corFreq, newExist, order) ==>
              RaiseAll(exist, corFreq, newExist, order)[c]
              == if c in order && Top(exist, corFreq, newExist, c) > 0 then Top(exist, corFreq, newExist, c) else exist[c]
  {
    if order != [] {
      var init := order[..|order| - 1];
      assert order == init + [order[|order| - 1]];
      RaiseAllAt(exist, corFreq, newExist, init, c);
    }
  }

  lemma RaiseAllMerge(exist: map<char, nat>, corFreq: map<char, nat>, newExist: map<char, nat>, order: seq<char>)
    requires NoDuplicates(order)
    requires forall c :: c in order <==> c in corFreq.Keys + exist.Keys + newExist.Keys
    ensures RaiseAll(exist, corFreq, newExist, order) == Merge(exist, corFreq, newExist)
  {
    forall c ensures (c in RaiseAll(exist, corFreq, newExist, order) <==> c in Merge(exist, corFreq, newExist))
                && (c in Merge(exist, corFreq, newExist) ==>
                      RaiseAll(exist, corFreq, newExist, order)[c] == Merge(exist, corFreq, newExist)[c])
    {
      RaiseAllAt(exist, corFreq, newExist, order, c);
    }
  }

  /** The triple `parse_rules(word, result, rs)` leaves behind. */
  function Parse(word: string, result: string, rs: RuleSet): (out: RuleSet)
    requires 5 <= |word| && 5 <= |result| && rs.WellFormed()
    ensures out.WellFormed()
  {
    var m := Marks(word, result, 5, Round(rs.correct, rs.incorrect, map[]));
    RuleSet(m.correct, m.incorrect, Merge(rs.exist, Tally(FixedLetters(m.correct)), m.newExist))
  }

  /** The mutable rule triple: two lists of five and a dictionary, updated in place. */
  class Rules {
    var correct: array<Option<char>>
    var incorrect: array<set<char>>
    var exist: map<char, nat>

    ghost predicate Valid()
      reads this
    {
      correct.Length == 5 && incorrect.Length == 5
    }

    ghost function Repr(): set<object>
      reads this
    {
      {this, correct, incorrect}
    }

    ghost function State(): RuleSet
      reads this, correct, incorrect
    {
      RuleSet(correct[..], incorrect[..], exist)
    }

    /** The `rules is None` branch: five unknown positions, five empty sets, no counts. */
    constructor ()
      ensures Valid() && fresh(correct) && fresh(incorrect)
      ensures State() == Empty
    {
      correct := new Option<char>[5](_ => None);
      incorrect := new set<char>[5](_ => {});
      exist := map[];
      new;
      assert correct[..] == Empty.correct;
      assert incorrect[..] == Empty.incorrect;
    }

    /** The loop over `lets`, raising `exists` in place to the largest of the three counts. */
    method RaiseCounts(corFreq: map<char, nat>, newExist: map<char, nat>)
      modifies this`exist
      ensures exist == Merge(old(exist), corFreq, newExist)
    {
      ghost var exist0 := exist;
      var counts := exist;
      var lets := corFreq.Keys + counts.Keys + newExist.Keys;
      ghost var all, order := lets, [];
      while lets != {}
        invariant lets <= all && NoDuplicates(order)
        invariant forall c :: c in order <==> c in all && c !in lets
        invariant counts == RaiseAll(exist0, corFreq, newExist, order)
        decreases |lets|
      {
        var c :| c in lets;
        var counter := Max3(Get(corFreq, c), Get(counts, c), Get(newExist, c));
        RaiseAllSnoc(exist0, corFreq, newExist, order, c);
        if counter > 0 {
          counts := counts[c := counter];
        }
        lets, order := lets - {c}, order + [c];
      }
      RaiseAllMerge(exist0, corFreq, newExist, order);
      exist := counts;
    }
  }

  /** The loop over the five marks of `parse_rules`, updating both arrays in place. */
  method ApplyMarks(word: string, result: string, correct: array<Option<char>>, incorrect: array<set<char>>)
    returns (newExist: map<char, nat>)
    requires 5 <= |word| && 5 <= |result| && correct.Length == 5 && incorrect.Length == 5
    modifies correct, incorrect
    ensures Round(correct[..], incorrect[..], newExist)
            == Marks(word, result, 5, Round(old(correct[..]), old(incorrect[..]), map[]))
  {
    newExist := map[];
    var i := 0;
    while i < 5
      invariant 0 <= i <= 5
      invariant Round(correct[..], incorrect[..], newExist)
                == Marks(word, result, i, Round(old(correct[..]), old(incorrect[..]), map[]))
    {
      var res, c := result[i], word[i];
      if res == '.' {
        ghost var cor, before := correct[..], incorrect[..];
        var j := 0;
        while j < 5
          invariant 0 <= j <= 5
          invariant correct[..] == cor
          invariant forall k :: 0 <= k < j ==>
                      incorrect[k] == if cor[k] != Some(c) then before[k] + {c} else before[k]
          invariant forall k :: j <= k < 5 ==> incorrect[k] == before[k]
        {
          if correct[j] != Some(c) {
            incorrect[j] := incorrect[j] + {c};
          }
          j := j + 1;
        }
      } else if res == 'c' {
        correct[i] := Some(c);
      } else if res == 'x' {
        incorrect[i] := incorrect[i] + {c};
        newExist := newExist[c := Get(newExist, c) + 1];
      }
      i := i + 1;
    }
  }

  /** `cor_freq`: how many positions are fixed to each letter. */
  method CountFixed(correct: array<Option<char>>) returns (corFreq: map<char, nat>)
    ensures corFreq == Tally(FixedLetters(correct[..]))
  {
    corFreq := map[];
    var k := 0;
    while k < correct.Length
      invariant 0 <= k <= correct.Length
      invariant corFreq == Tally(FixedLetters(correct[..k]))
    {
      ghost var upTo := correct[..k + 1];
      assert upTo[..|upTo| - 1] == correct[..k] && upTo[|upTo| - 1] == correct[k];
      if correct[k] != None {
        var c := correct[k].value;
        assert FixedLetters(upTo) == FixedLetters(correct[..k]) + [c];
        TallySnoc(FixedLetters(correct[..k]), c);
        corFreq := corFreq[c := Get(corFreq, c) + 1];
      } else {
        assert FixedLetters(upTo) == FixedLetters(correct[..k]) + [];
        assert FixedLetters(correct[..k]) + [] == FixedLetters(correct[..k]);
      }
      k := k + 1;
    }
    assert correct[..k] == correct[..];
  }

  /**
   * `parse_rules`: with no rules, start from a fresh empty triple; otherwise
   * update the given arrays and dictionary in place and return the same object.
   */
  method ParseRules(word: string, result: string, rules: Rules?) returns (r: Rules)
    requires 5 <= |word| && 5 <= |result|
    requires rules != null ==> rules.Valid()
    modifies if rules == null then {} else rules.Repr()
    ensures r.Valid()
    ensures rules != null ==> r == rules && r.correct == old(rules.correct) && r.incorrect == old(rules.incorrect)
    ensures rules == null ==> fresh(r.Repr())
    ensures r.State() == Parse(word, result, if rules == null then Empty else old(rules.State()))
  {
    if rules == null {
      r := new Rules();
    } else {
      r := rules;
    }
    ghost var start := r.State();
    var newExist := ApplyMarks(word, result, r.correct, r.incorrect);
    var corFreq := CountFixed(r.correct);
    r.RaiseCounts(corFreq, newExist);
  }

  /**
   * The fixed letter seen at position j while the mark at position i is
   * processed: the marks before i have already been applied.
   */
  function CorrectBefore(word: string, result: string, correct0: seq<Option<char>>, i: nat, j: nat): Option<char>
    requires 5 <= |word| && 5 <= |result| && |correct0| == 5 && j < 5
  {
    if j < i && result[j] == 'c' then Some(word[j]) else correct0[j]
  }

  /** The marks before position n forbid letter c at position j. */
  ghost predicate ForbiddenBy(word: string, result: string, correct0: seq<Option<char>>, n: nat, j: nat, c: char)
    requires n <= 5 <= |word| && 5 <= |result| && |correct0| == 5 && j < 5
  {
    exists i :: 0 <= i < n && word[i] == c &&
      ((result[i] == 'x' && i == j) || (result[i] == '.' && CorrectBefore(word, result, correct0, i, j) != Some(c)))
  }

  /** Number of 'x' marks on letter c among the first n positions: `new_exists[c]`. */
  function XCount(word: string, result: string, n: nat, c: char): nat
    requires n <= 5 <= |word| && 5 <= |result|
  {
    if n == 0 then 0
    else XCount(word, result, n - 1, c) + (if result[n - 1] == 'x' && word[n - 1] == c then 1 else 0)
  }

  /** Only a 'c' mark changes a fixed letter, and it fixes the guessed letter. */
  lemma {:induction false} MarksCorrect(word: string, result: string, n: nat, s0: Round, j: nat)
    requires n <= 5 <= |word| && 5 <= |result| && s0.WellFormed() && j < 5
    ensures Marks(word, result, n, s0).correct[j] == CorrectBefore(word, result, s0.correct, n, j)
  {
    if n > 0 {
      MarksCorrect(word, result, n - 1, s0, j);
    }
  }

  /** A letter is forbidden at j exactly when it was before or a mark forbade it. */
  lemma {:induction false} MarksIncorrect(word: string, result: string, n: nat, s0: Round, j: nat, c: char)
    requires n <= 5 <= |word| && 5 <= |result| && s0.WellFormed() && j < 5
    ensures c in Marks(word, result, n, s0).incorrect[j]
            <==> c in s0.incorrect[j] || ForbiddenBy(word, result, s0.correct, n, j, c)
  {
    if n > 0 {
      var prev := Marks(word, result, n - 1, s0);
      MarksIncorrect(word, result, n - 1, s0, j, c);
      MarksCorrect(word, result, n - 1, s0, j);
      var i := n - 1;
      if ForbiddenBy(word, result, s0.correct, n, j, c) && !ForbiddenBy(word, result, s0.correct, n - 1, j, c) {
        var i' :| 0 <= i' < n && word[i'] == c &&
          ((result[i'] == 'x' && i' == j) || (result[i'] == '.' && CorrectBefore(word, result, s0.correct, i', j) != Some(c)));
        assert i' == i;
      }
      if word[i] == c && ((result[i] == 'x' && i == j) || (result[i] == '.' && prev.correct[j] != Some(c))) {
        assert ForbiddenBy(word, result, s0.correct, n, j, c);
      }
    }
  }

  /** `new_exists[c]` counts the 'x' marks on c. */
  lemma {:induction false} MarksNewExist(word: string, result: string, n: nat, s0: Round, c: char)
    requires n <= 5 <= |word| && 5 <= |result| && s0.WellFormed() && s0.newExist == map[]
    ensures c in Marks(word, result, n, s0).newExist <==> XCount(word, result, n, c) > 0
    ensures Get(Marks(word, result, n, s0).newExist, c) == XCount(word, result, n, c)
  {
    if n > 0 {
      MarksNewExist(word, result, n - 1, s0, c);
    }
  }

  /** `cor_freq[c]` counts the positions fixed to c. */
  lemma {:induction false} FixedLettersCount(correct: seq<Option<char>>, c: char)
    ensures Count(FixedLetters(correct), c) == Count(correct, Some(c))
  {
    if correct != [] {
      var init := correct[..|correct| - 1];
      FixedLettersCount(init, c);
      var tail := match correct[|correct| - 1] case None => [] case Some(d) => [d];
      CountAppend(FixedLetters(init), tail, c);
    }
  }

  lemma {:induction false} CountAppend(a: seq<char>, b: seq<char>, c: char)
    ensures Count(a + b, c) == Count(a, c) + Count(b, c)
    decreases |b|
  {
    if b != [] {
      var b' := b[..|b| - 1];
      assert (a + b)[..|a + b| - 1] == a + b';
      CountAppend(a, b', c);
    } else {
      assert a + b == a;
    }
  }

  /** 'c' at position i fixes the guessed letter there; every other position keeps its fixed letter. */
  lemma ParseCorrect(word: string, result: string, rs: RuleSet, j: nat)
    requires 5 <= |word| && 5 <= |result| && rs.WellFormed() && j < 5
    ensures Parse(word, result, rs).correct[j] == if result[j] == 'c' then Some(word[j]) else rs.correct[j]
  {
    MarksCorrect(word, result, 5, Round(rs.correct, rs.incorrect, map[]), j);
  }

  /**
   * Letter c is forbidden at position j afterwards exactly when it was before, or an
   * 'x' on c sits at j, or a '.' on c came while position j was not fixed to c.
   */
  lemma ParseIncorrect(word: string, result: string, rs: RuleSet, j: nat, c: char)
    requires 5 <= |word| && 5 <= |result| && rs.WellFormed() && j < 5
    ensures c in Parse(word, result, rs).incorrect[j]
            <==> c in rs.incorrect[j] || ForbiddenBy(word, result, rs.correct, 5, j, c)
  {
    MarksIncorrect(word, result, 5, Round(rs.correct, rs.incorrect, map[]), j, c);
  }

  /** No forbidden set ever loses a letter. */
  lemma ParseKeepsForbidden(word: string, result: string, rs: RuleSet)
    requires 5 <= |word| && 5 <= |result| && rs.WellFormed()
    ensures forall j :: 0 <= j < 5 ==> rs.incorrect[j] <= Parse(word, result, rs).incorrect[j]
  {
    forall j, c | 0 <= j < 5 && c in rs.incorrect[j]
      ensures c in Parse(word, result, rs).incorrect[j]
    {
      ParseIncorrect(word, result, rs, j, c);
    }
  }

  /**
   * The new minimum count of c is the largest of: the positions fixed to c,
   * the prior minimum, and this round's 'x' marks on c. A letter gets an entry
   * when one of the three is positive; prior entries are kept.
   */
  lemma ParseExist(word: string, result: string, rs: RuleSet, c: char)
    requires 5 <= |word| && 5 <= |result| && rs.WellFormed()
    ensures var out := Parse(word, result, rs);
            var m := Max3(Count(out.correct, Some(c)), Get(rs.exist, c), XCount(word, result, 5, c));
            (c in out.exist <==> c in rs.exist || m > 0) && (c in out.exist ==> out.exist[c] == m)
  {
    var out := Parse(word, result, rs);
    var s := Marks(word, result, 5, Round(rs.correct, rs.incorrect, map[]));
    MarksNewExist(word, result, 5, Round(rs.correct, rs.incorrect, map[]), c);
    TallyCount(FixedLetters(s.correct), c);
    FixedLettersCount(s.correct, c);
    CountBounds(FixedLetters(s.correct), c);
  }

  /** Minimum counts never decrease and no letter loses its entry. */
  lemma ParseExistGrows(word: string, result: string, rs: RuleSet)
    requires 5 <= |word| && 5 <= |result| && rs.WellFormed()
    ensures forall c :: c in rs.exist ==>
              c in Parse(word, result, rs).exist && Parse(word, result, rs).exist[c] >= rs.exist[c]
  {
    forall c | c in rs.exist
      ensures c in Parse(word, result, rs).exist && Parse(word, result, rs).exist[c] >= rs.exist[c]
    {
      ParseExist(word, result, rs, c);
    }
  }

  /** Starting from counts that are all positive, every count stays positive. */
  lemma ParseExistPositive(word: string, result: string, rs: RuleSet)
    requires 5 <= |word| && 5 <= |result| && rs.WellFormed()
    requires forall c :: c in rs.exist ==> rs.exist[c] >= 1
    ensures forall c :: c in Parse(word, result, rs).exist ==> Parse(word, result, rs).exist[c] >= 1
  {
    forall c | c in Parse(word, result, rs).exist
      ensures Parse(word, result, rs).exist[c] >= 1
    {
      ParseExist(word, result, rs, c);
    }
  }
}

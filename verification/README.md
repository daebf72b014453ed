# Wordle solver constraint engine in Dafny

This project models the core of `wordle_solver.py`, an interactive Wordle helper.
After each guess the user types the guess and its result, one mark per letter:
'c' means the right letter in the right place, 'x' means the letter is in the word
but elsewhere, and '.' means the letter is absent.
The solver folds each guess and result into a rule triple `(correct, incorrect, exists)`.
It then keeps the candidate words the rules admit.
Finally it ranks the survivors by a letter-frequency score and suggests the best ones.

Modules:

- `Rules` (`rules.dfy`) covers the rule triple and `parse_rules`.
  - The class `Rules` holds `correct` and `incorrect` as arrays and `exists` as a map field.
    `exists` is a Dafny keyword, so that field is called `exist`.
  - `ParseRules` updates the arrays and the map in place, as the source does.
  - It is proved equal to the value-level function `Parse`.
    `Parse` folds `Step` over the five marks and then merges the minimum counts with `Merge`.
  - Lemmas about `Parse` state what each mark does.
- `Filter` (`filter.dfy`) covers `filter_words` and its inner `is_valid`.
  - They are proved against the predicate `Admits` and the order-keeping filter `Filter`.
  - Lemmas prove idempotence, narrowing under stronger rules, and the quirk of the '.' rule.
- `Frequencies` (`frequencies.dfy`) covers `letter_frequencies`, proved to tally each letter column.
- `Ranking` (`ranking.dfy`) covers `get_score` and `get_best_words`.
  - `StableSort` (`stable_sort.dfy`) is a stable descending insertion sort with its proofs.
    It stands in for Python's `list.sort(key=..., reverse=True)`.
- `Validation` (`validation.dfy`) covers `inp_valid` and `res_valid`.
- `Counting` (`counting.dfy`) holds dictionary counters as `map<char, nat>`, their link to occurrence counts, and their sums.
- `Wrappers` (`wrappers.dfy`) holds `Option`, which stands for Python's `None`.

## Model

| member | source | states |
|---|---|---|
| Rules.Rules.constructor | wordle_solver.py:72-75 | With no rules, the triple starts as five `None` positions, five empty forbidden sets and an empty `exists` map. |
| Rules.ParseRules | wordle_solver.py:71-104 | Creates a fresh triple when `rules` is None. Otherwise it updates the given arrays and map in place and returns the same object. Either way the new triple equals `Parse(word, result, old triple)`. |
| Rules.ApplyMarks | wordle_solver.py:80-91 | The loop over the five marks leaves both arrays and `new_exists` equal to folding `Step` over positions 0..4. '.' on c forbids c wherever the position is not fixed to c at that moment. 'c' fixes the letter. 'x' forbids the letter at its own position and counts it. Other characters change nothing. |
| Rules.CountFixed | wordle_solver.py:93-96 | `cor_freq` is the tally of the fixed letters. |
| Rules.Rules.RaiseCounts | wordle_solver.py:98-102 | The loop over `lets` does not depend on set order. It sets each letter whose largest count is positive to that maximum and keeps every other entry. |
| Rules.RaiseAllMerge | wordle_solver.py:98-102 | Visiting each letter of the union once, in any order, gives exactly `Merge`. |
| Rules.MarksCorrect | wordle_solver.py:80-88 | After the first n marks, position j holds the guessed letter if mark j (j < n) is 'c'; otherwise it holds its starting value. |
| Rules.MarksIncorrect | wordle_solver.py:80-90 | After the first n marks, c is forbidden at j iff one of three holds: it was forbidden before; an 'x' on c sits at j; or a '.' on c came while j was not fixed to c. |
| Rules.MarksNewExist | wordle_solver.py:89-91 | `new_exists[c]` is the number of 'x' marks on c, and the key is present iff that number is positive. |
| Rules.FixedLettersCount | wordle_solver.py:93-96 | The number of fixed letters equal to c is the number of positions fixed to c. |
| Rules.ParseCorrect | wordle_solver.py:80-88 | After `parse_rules`, `correct[j]` is the guessed letter if mark j is 'c', and otherwise is unchanged. |
| Rules.ParseIncorrect | wordle_solver.py:80-91 | After `parse_rules`, c is in `incorrect[j]` iff it was before, an 'x' on c is at j, or a '.' on c came while j was not yet fixed to c (both directions). |
| Rules.ParseKeepsForbidden | wordle_solver.py:83-90 | No forbidden set loses a letter. |
| Rules.ParseExist | wordle_solver.py:93-102 | The new `exists[c]` is the maximum of three counts: positions fixed to c, the prior `exists[c]`, and this round's 'x' marks on c. c has an entry iff it had one or that maximum is positive. |
| Rules.ParseExistGrows | wordle_solver.py:98-102 | No key of `exists` is lost and no value decreases. |
| Rules.ParseExistPositive | wordle_solver.py:99-102 | If every prior count is at least 1, every new count is at least 1. |
| Filter.IsValid | wordle_solver.py:108-121 | `is_valid` returns True iff the rules admit the word. Every fixed position must match, no letter may sit where it is forbidden, and each letter of `exists` must occur at least its count. It must also occur at all, even with count 0. |
| Filter.FilterWords | wordle_solver.py:123-128 | Returns exactly the admitted input words, in input order: a sub-list of the input, and an input word is kept iff it is admitted. |
| Filter.FilterMembers | wordle_solver.py:124-127 | Every kept word is a candidate, and a candidate is kept iff the rules admit it. |
| Filter.FilterSubseq | wordle_solver.py:124-127 | The result is a sub-list of the input, in the same order. |
| Filter.FilterAgain | wordle_solver.py:107-128 | Filtering an already filtered list with rules that admit no more words equals filtering once with those rules. |
| Filter.FilterIdempotent | wordle_solver.py:107-128 | Filtering twice with the same rules equals filtering once. |
| Filter.FilterNarrows | wordle_solver.py:107-128 | Pointwise stronger rules keep a sub-list of what weaker rules keep, and re-filtering the weaker result gives the same list. |
| Filter.ParseStronger | wordle_solver.py:80-102 | When its 'c' marks agree with the letters already fixed, a round yields stronger rules. |
| Filter.ParseNarrows | wordle_solver.py:71-128 | Such a round narrows the candidate list: filtering with the new rules equals re-filtering the previous result. |
| Filter.FixOverwritten | wordle_solver.py:87-88 | A 'c' mark replaces a different fixed letter, so without that agreement the new rules are not stronger. |
| Filter.DotBeforeCorrect | wordle_solver.py:83-88 | Take guess "xaxxa" with result "....c". The '.' on 'a' at position 1 forbids 'a' at position 4, which the later 'c' then fixes to 'a'. No five-letter word is admitted afterwards, not even "pizza". |
| Frequencies.LetterFrequencies | wordle_solver.py:16-21 | Table i is the tally of the letters at position i over all words. |
| Frequencies.FreqTableCounts | wordle_solver.py:16-21 | Table i holds c iff some word has c at position i. Its value is the number of such words. Its values sum to the number of words. |
| Frequencies.ColumnHas | wordle_solver.py:18-20 | Each word contributes its letter to every column. |
| Counting.TallyCount | wordle_solver.py:109-112 | A dictionary counter built by `get(c, 0) + 1` has key c iff c occurs, with value the number of occurrences. |
| Counting.TallySum | wordle_solver.py:18-20 | The values of such a counter sum to the length of what was counted. |
| Ranking.GetScore | wordle_solver.py:24-36 | The loop's positional sum, times the log-frequency weight, times the number of distinct letters. |
| Ranking.PositionalSumBounds | wordle_solver.py:27-28 | Against the table of the candidates themselves, the positional sum is at most 5 times the number of candidates. It is at least 5 when the word is a candidate. |
| Ranking.DistinctBounds | wordle_solver.py:34 | A word has between 1 and `len(word)` distinct letters. It has exactly `len(word)` iff no letter repeats. |
| Ranking.ScoreBounds | wordle_solver.py:24-36 | Take a candidate whose log weight w is not negative, scored against the candidates' own table. Its score lies between 5w and 25·n·w, where n is the number of candidates. |
| Ranking.ScoreAll | wordle_solver.py:40-43 | The first loop pairs every candidate, in order, with its score. |
| Ranking.SortWords | wordle_solver.py:44 | Sorting the (word, score) pairs by score and dropping the scores equals stably sorting the words by score. |
| Ranking.GetBestWords | wordle_solver.py:39-46 | Returns the first `min(k, len(words))` words of the stable descending sort by score, and none when k is not positive. |
| Ranking.BestWordsFrom | wordle_solver.py:45 | Every returned word comes from the input, copies included. |
| Ranking.BestWordsOrdered | wordle_solver.py:44-45 | The returned words are in non-increasing score order. |
| Ranking.BestWordsOmitted | wordle_solver.py:44-45 | No candidate with a copy left out scores higher than any returned word. |
| Ranking.BestWordsStable | wordle_solver.py:44-45 | For each score, the returned words with that score are the first input words with that score, in input order. |
| StableSort.SortDescCorrect | wordle_solver.py:44 | The sort is ordered by non-increasing key and is a permutation. For each key, it keeps the input order. |
| StableSort.PrefixOmitted | wordle_solver.py:45 | In a sorted list, an element with a copy outside the first m ranks no higher than each of the first m. |
| StableSort.PrefixWithKey | wordle_solver.py:45 | The first m elements with a given key are a prefix of all elements with that key. |
| Validation.InpValid | wordle_solver.py:49-55 | Accepts exactly "done" and five-letter strings of letters. |
| Validation.ResValid | wordle_solver.py:58-68 | Accepts exactly "done" and five-character strings over '.', 'x', 'c'. |
| Validation.IsAlpha | wordle_solver.py:55 | `isalpha`: non-empty and all letters. |
| Validation.AllMarks | wordle_solver.py:65-68 | The scan succeeds iff every character is a mark. |

## Left out

- `get_frequencies` (wordle_solver.py:5-13) reads a CSV file. The model takes the word list as a parameter.
  - Its words have exactly five letters (`AllFive`), which is the length filter at line 11.
  - `filter_words` and `letter_frequencies` require that length.
  - `get_score` and `get_best_words` require at least five letters, which is what they index.
- The `__main__` loop (wordle_solver.py:131-165) is not modelled: prompts, printing, lowercasing, and the default to the first suggestion.
- Ranking.GetScore: does not model `np.log(word_freq[word])` or floating point.
  - The log factor is an arbitrary parameter `logWeight: string -> real`, and scores are exact reals.
  - So rounding, `-inf` for a zero frequency, and the `KeyError` for a word missing from `word_freq` are not captured.
- Ranking.GetBestWords: Python sorts `scored_words` in place with Timsort. The model specifies the sort as a stable insertion sort on values (`SortDesc`). Only the result is modelled, not the in-place algorithm.
- Validation.IsAlpha: does not model non-ASCII letters. Python's `isalpha` accepts any Unicode letter; the model accepts only `a`-`z` and `A`-`Z`.
- Rules.RaiseCounts: the iteration order of the set `lets` is a nondeterministic choice. The result does not depend on it.
- Filter.ParseNarrows: narrowing is proved only for rounds whose 'c' marks agree with the letters already fixed (`FixesAgree`). The code lets a 'c' mark overwrite a fixed letter, and `Filter.FixOverwritten` shows that such a round is not stronger.
- No lemma claims that `correct[i]` is never in `incorrect[i]`; the code does not guarantee it (see `Filter.DotBeforeCorrect`).
- `Filter.IsValid` keeps the code's behaviour for a letter recorded with count 0: such a letter must still occur at least once.
  - `parse_rules` never records a count of 0, so this cannot arise from parsed rules.
- Some descriptions of this solver go beyond the code, and the model follows `wordle_solver.py`. The code has none of the following:
  - a refined rule for repeated letters;
  - a letter table weighted by corpus frequency, or a global letter table;
  - a lexicographic tie-break;
  - normalised scores;
  - an error for an empty candidate list (the code returns an empty list).

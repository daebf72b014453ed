/**
 * Validation of what the user types at the two prompts: a guess and the
 * per-letter result of that guess. Both accept the end-of-session word "done".
 */
module Validation {

  /** A letter as Python's `str.isalpha` sees it, restricted to ASCII. */
  predicate IsLetter(c: char) {
    'a' <= c <= 'z' || 'A' <= c <= 'Z'
  }

  /** A result mark: '.' absent, 'x' present elsewhere, 'c' correct. */
  predicate IsMark(c: char) {
    c == '.' || c == 'x' || c == 'c'
  }

  function AllLetters(s: string): (ok: bool)
    ensures ok <==> forall i :: 0 <= i < |s| ==> IsLetter(s[i])
  {
    if s == [] then true else IsLetter(s[0]) && AllLetters(s[1..])
  }

  /** Python's `s.isalpha()`: non-empty and made of letters only. */
  function IsAlpha(s: string): (ok: bool)
    ensures ok <==> |s| > 0 && forall i :: 0 <= i < |s| ==> IsLetter(s[i])
  {
    s != [] && AllLetters(s)
  }

  /** The scan over the result that returns False at the first character that is not a mark. */
  function AllMarks(s: string): (ok: bool)
    ensures ok <==> forall i :: 0 <= i < |s| ==> IsMark(s[i])
  {
    if s == [] then true
    else if !IsMark(s[0]) then false
    else AllMarks(s[1..])
  }

  /** `inp_valid`: "done", or five letters. */
  function InpValid(word: string): (ok: bool)
    ensures ok <==> word == "done" || (|word| == 5 && forall i :: 0 <= i < 5 ==> IsLetter(word[i]))
  {
    if word == "done" then true
    else if |word| != 5 then false
    else IsAlpha(word)
  }

  /** `res_valid`: "done", or five marks. */
  function ResValid(result: string): (ok: bool)
    ensures ok <==> result == "done" || (|result| == 5 && forall i :: 0 <= i < 5 ==> IsMark(result[i]))
  {
    if result == "done" then true
    else if |result| != 5 then false
    else AllMarks(result)
  }
}

/**
 * Letters and words of the Bulls and Cows game: ASCII lower-casing, the
 * isogram and lower-case properties that a guess is validated against, the
 * word list the game is built with, and the "last word of a given length"
 * selection that picks the hidden word from it.
 */
module Words {

  /** ASCII `tolower`: upper-case letters map to their lower-case letter, every other character to itself. */
  function ToLower(c: char): (l: char)
    ensures 'A' <= c <= 'Z' ==> 'a' <= l <= 'z' && l as int - c as int == 32
    ensures !('A' <= c <= 'Z') ==> l == c
  {
    if 'A' <= c <= 'Z' then (c as int + 32) as char else c
  }

  /**
   * ASCII `islower`: the character is one of 'a' .. 'z', that is, it is the
   * lower-case form of some upper-case letter, and lower-casing keeps it.
   */
  function IsLowerLetter(c: char): (lower: bool)
    ensures lower <==> exists u :: 'A' <= u <= 'Z' && ToLower(u) == c
    ensures lower ==> ToLower(c) == c
  {
    if 'a' <= c <= 'z' then
      assert ToLower((c as int - 32) as char) == c;
      true
    else
      false
  }

  /** No two positions of `s` hold the same letter once both are lower-cased. */
  ghost predicate Isogram(s: string) {
    forall i, j :: 0 <= i < j < |s| ==> ToLower(s[i]) != ToLower(s[j])
  }

  /** Every character of `s` is a lower-case letter. */
  ghost predicate AllLowercase(s: string) {
    forall i :: 0 <= i < |s| ==> IsLowerLetter(s[i])
  }

  /** No two positions of `s` hold the same character (case-sensitively). */
  ghost predicate Distinct(s: string) {
    forall i, j :: 0 <= i < j < |s| ==> s[i] != s[j]
  }

  /** An isogram repeats no character, since equal characters lower-case alike. */
  lemma IsogramIsDistinct(s: string)
    requires Isogram(s)
    ensures Distinct(s)
  {
  }

  /** Every word of length 0 or 1 is an isogram. */
  lemma ShortWordIsIsogram(s: string)
    requires |s| <= 1
    ensures Isogram(s)
  {
  }

  /** Two positions holding letters that agree after lower-casing make a word a non-isogram. */
  lemma RepeatedLetterIsNotIsogram(s: string, i: int, j: int)
    requires 0 <= i < |s| && 0 <= j < |s| && i != j
    requires ToLower(s[i]) == ToLower(s[j])
    ensures !Isogram(s)
  {
  }

  /** The word list the game is constructed with: one isogram of each length 3 .. 7. */
  const Dictionary: seq<string> := ["ape", "bowl", "sword", "planet", "monkeys"]

  /**
   * The hidden word after scanning `words` in order and taking every word of
   * length `n`: the last word of length `n`, or `current` when there is none.
   */
  function LastWithLength(words: seq<string>, n: int, current: string): (w: string)
    ensures (forall k :: 0 <= k < |words| ==> |words[k]| != n) ==> w == current
    ensures (exists k :: 0 <= k < |words| && |words[k]| == n) ==>
      exists k :: 0 <= k < |words| && words[k] == w && |w| == n &&
        forall m :: k < m < |words| ==> |words[m]| != n
    decreases |words|
  {
    if words == [] then current
    else if |words[|words| - 1]| == n then words[|words| - 1]
    else LastWithLength(words[..|words| - 1], n, current)
  }

  /** Every word of the game's word list is an isogram. */
  lemma DictionaryIsograms()
    ensures forall k :: 0 <= k < |Dictionary| ==> Isogram(Dictionary[k])
  {
  }

  /**
   * With the game's word list, a length in 3 .. 7 selects the one word of that
   * length; any other length leaves the current word in place.
   */
  lemma DictionarySelection(n: int, current: string)
    ensures 3 <= n <= 7 ==>
      LastWithLength(Dictionary, n, current) == Dictionary[n - 3] &&
      |LastWithLength(Dictionary, n, current)| == n
    ensures !(3 <= n <= 7) ==> LastWithLength(Dictionary, n, current) == current
  {
  }
}

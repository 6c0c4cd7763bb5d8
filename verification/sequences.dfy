/** What several modules say about sequences and texts. */
module Sequences {

  predicate Distinct<T(==)>(s: seq<T>) {
    forall i, j :: 0 <= i < j < |s| ==> s[i] != s[j]
  }

  /** The word occurs at this place. */
  predicate At(text: string, word: string, i: int) {
    0 <= i <= |text| - |word| && text[i..i + |word|] == word
  }

  predicate Contains(text: string, word: string) {
    exists i :: 0 <= i <= |text| && At(text, word, i)
  }
}

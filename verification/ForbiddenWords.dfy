// Strings over a small alphabet contain no word that needs a character from outside.

module ForbiddenWords {
  import opened Text

  /** A word has, at this position, a character from outside the alphabet. */
  predicate Foreign(word: string, alphabet: string, at: nat) { at < |word| && word[at] !in alphabet }

  predicate Over(s: string, alphabet: string) { forall i | 0 <= i < |s| :: s[i] in alphabet }

  lemma ForeignIsAbsent(s: string, word: string, alphabet: string, at: nat)
    requires Over(s, alphabet) && Foreign(word, alphabet, at)
    ensures !Contains(s, word)
  {
    forall i | 0 <= i <= |s| - |word| ensures !OccursAt(s, word, i) {
      assert s[i..i + |word|][at] == s[i + at];
    }
  }

  /** Two characters of a word that never follow each other keep the word out, too. */
  lemma PairIsAbsent(s: string, word: string)
    requires |word| >= 2 && forall i | 0 <= i < |s| - 1 && s[i] == word[0] :: s[i + 1] != word[1]
    ensures !Contains(s, word)
  {
    forall i | 0 <= i <= |s| - |word| ensures !OccursAt(s, word, i) {
      assert s[i..i + |word|][0] == s[i] && s[i..i + |word|][1] == s[i + 1];
    }
  }
}

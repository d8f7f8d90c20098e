/** `find_frequency`: how often `word` occurs among the words of the lower-cased sentence. */
module Frequency {

  import opened Seqs
  import opened RubyText

  /**
   * The sentence is lower-cased and split on whitespace; `word` itself is
   * compared as given, without lower-casing.
   */
  function FindFrequency(sentence: string, word: string): (n: nat)
    ensures n == multiset(Words(Downcase(sentence)))[word]
    ensures n <= |Words(Downcase(sentence))|
  {
    var words := Words(Downcase(sentence));
    CountIsMultiplicity(words, word);
    Count(words, word)
  }

  /**
   * Since `word` is not lower-cased, a word that is empty or holds an
   * upper-case letter or whitespace is never found.
   */
  lemma {:induction false} UnmatchableWordNeverCounted(sentence: string, word: string, i: nat)
    requires word == [] || (i < |word| && (IsUpper(word[i]) || IsSpace(word[i])))
    ensures FindFrequency(sentence, word) == 0
  {
    var lower := Downcase(sentence);
    var words := Words(lower);
    if word in words {
      var j :| 0 <= j < |words| && words[j] == word;
      if word != [] && IsUpper(word[i]) {
        WordCharsFrom(lower, j, i);
        assert false;
      }
    }
  }

  /** Lower-casing the sentence first does not change any frequency. */
  lemma FrequencyIgnoresCase(sentence: string, word: string)
    ensures FindFrequency(Downcase(sentence), word) == FindFrequency(sentence, word)
  {
    DowncaseIdempotent(sentence);
  }
}

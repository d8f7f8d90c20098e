/**
 * `palindrome?`: lower-case the sentence, delete every space character, build
 * its reversal one character at a time and compare.
 */
module Palindrome {

  import opened Seqs
  import opened RubyText

  /** `sentence.downcase.gsub(' ', '')`: only the space character is removed, not other whitespace. */
  function Normalize(sentence: string): (r: string)
    ensures ' ' !in r
    ensures IsSubseq(r, Downcase(sentence))
    ensures |r| == |sentence| - Count(Downcase(sentence), ' ')
  {
    WithoutIsSubseq(Downcase(sentence), ' ');
    Without(Downcase(sentence), ' ')
  }

  /** The normalised sentence reads the same backwards. */
  predicate Palindromic(sentence: string)
    ensures var s := Normalize(sentence);
      Palindromic(sentence) <==> forall j :: 0 <= j < |s| ==> s[j] == s[|s| - 1 - j]
  {
    ReverseFixedIffMirrored(Normalize(sentence));
    Normalize(sentence) == Reverse(Normalize(sentence))
  }

  method IsPalindrome(sentence: string) returns (result: bool)
    ensures result == Palindromic(sentence)
    ensures var s := Normalize(sentence);
      result <==> forall j :: 0 <= j < |s| ==> s[j] == s[|s| - 1 - j]
  {
    var s := Normalize(sentence);
    var reverse := "";
    var i := 1;
    // `sentence.length.times`, appending `sentence[-i]`, the i-th character from the end
    while i <= |s|
      invariant 1 <= i <= |s| + 1
      invariant |reverse| == i - 1
      invariant forall j :: 0 <= j < i - 1 ==> reverse[j] == s[|s| - 1 - j]
    {
      reverse := reverse + [s[|s| - i]];
      i := i + 1;
    }
    forall k | 0 <= k < |s|
      ensures reverse[k] == Reverse(s)[k]
    {
      ReverseAt(s, k);
    }
    assert reverse == Reverse(s);
    result := reverse == s;
  }

  lemma NormalizeAppend(a: string, b: string)
    ensures Normalize(a + b) == Normalize(a) + Normalize(b)
  {
    DowncaseAppend(a, b);
    WithoutAppend(Downcase(a), Downcase(b), ' ');
  }

  lemma NormalizeReverse(s: string)
    ensures Normalize(Reverse(s)) == Reverse(Normalize(s))
  {
    DowncaseReverse(s);
    WithoutReverse(Downcase(s), ' ');
  }

  /** A sentence is a palindrome exactly when its reversal is one. */
  lemma PalindromicReverse(s: string)
    ensures Palindromic(Reverse(s)) == Palindromic(s)
  {
    NormalizeReverse(s);
    ReverseInvolution(Normalize(s));
  }

  /** Any sentence followed by its own reversal is a palindrome. */
  lemma MirroredIsPalindromic(s: string)
    ensures Palindromic(s + Reverse(s))
  {
    var n := Normalize(s);
    NormalizeAppend(s, Reverse(s));
    NormalizeReverse(s);
    ReverseAppend(n, Reverse(n));
    ReverseInvolution(n);
  }
}

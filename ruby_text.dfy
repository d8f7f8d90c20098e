/**
 * The Ruby String operations the exercises rely on: `downcase` (on ASCII
 * letters), `split` with no argument or with `" "` (which Ruby treats alike:
 * split on runs of whitespace, ignoring leading and trailing whitespace), and
 * joining words with single spaces.
 */
module RubyText {

  import opened Seqs

  /** Ruby's whitespace for `split`: space, tab, newline, vertical tab, form feed, carriage return. */
  predicate IsSpace(c: char) {
    c == ' ' || '\t' <= c <= '\r'
  }

  predicate IsUpper(c: char) {
    'A' <= c <= 'Z'
  }

  predicate HasNoSpace(w: string) {
    forall i :: 0 <= i < |w| ==> !IsSpace(w[i])
  }

  function ToLower(c: char): (d: char)
    ensures !IsUpper(d)
  {
    if IsUpper(c) then (c as int + 32) as char else c
  }

  /** `String#downcase`: every upper-case ASCII letter replaced by its lower-case form. */
  function Downcase(s: string): (r: string)
    ensures |r| == |s|
    ensures forall i :: 0 <= i < |s| ==> r[i] == ToLower(s[i])
    ensures forall i :: 0 <= i < |r| ==> !IsUpper(r[i])
  {
    if s == [] then [] else [ToLower(s[0])] + Downcase(s[1..])
  }

  lemma DowncaseIdempotent(s: string)
    ensures Downcase(Downcase(s)) == Downcase(s)
  {
  }

  lemma DowncaseAppend(a: string, b: string)
    ensures Downcase(a + b) == Downcase(a) + Downcase(b)
  {
  }

  lemma DowncaseReverse(s: string)
    ensures Downcase(Reverse(s)) == Reverse(Downcase(s))
  {
    forall k | 0 <= k < |s|
      ensures Downcase(Reverse(s))[k] == Reverse(Downcase(s))[k]
    {
      ReverseAt(s, k);
      ReverseAt(Downcase(s), k);
    }
  }

  /** Length of the run of non-whitespace characters that starts `s`. */
  function WordLength(s: string): (k: nat)
    ensures k <= |s|
    ensures forall i :: 0 <= i < k ==> !IsSpace(s[i])
    ensures k < |s| ==> IsSpace(s[k])
  {
    if s == [] || IsSpace(s[0]) then 0 else 1 + WordLength(s[1..])
  }

  /** `String#split` in its whitespace mode: the maximal runs of non-whitespace characters, in order. */
  function Words(s: string): (ws: seq<string>)
    ensures forall i :: 0 <= i < |ws| ==> ws[i] != [] && HasNoSpace(ws[i])
    decreases |s|
  {
    if s == [] then []
    else if IsSpace(s[0]) then Words(s[1..])
    else
      var k := WordLength(s);
      [s[..k]] + Words(s[k..])
  }

  /** `Array#join(" ")` on words. */
  function Join(ws: seq<string>): string
  {
    if ws == [] then ""
    else if |ws| == 1 then ws[0]
    else ws[0] + " " + Join(ws[1..])
  }

  lemma WordLengthOfWord(w: string, t: string)
    requires w != [] && HasNoSpace(w)
    requires t == [] || IsSpace(t[0])
    ensures WordLength(w + t) == |w|
  {
    assert forall i :: 0 <= i < |w| ==> (w + t)[i] == w[i];
    assert t != [] ==> (w + t)[|w|] == t[0];
  }

  /** Every character of a word is a character of the split string. */
  lemma {:induction false} WordCharsFrom(s: string, i: nat, j: nat)
    requires i < |Words(s)| && j < |Words(s)[i]|
    ensures Words(s)[i][j] in s
    decreases |s|
  {
    if IsSpace(s[0]) {
      WordCharsFrom(s[1..], i, j);
    } else if i > 0 {
      var k := WordLength(s);
      WordCharsFrom(s[k..], i - 1, j);
    }
  }

  /** Splitting the words joined with single spaces gives back the words. */
  lemma {:induction false} WordsOfJoin(ws: seq<string>)
    requires forall i :: 0 <= i < |ws| ==> ws[i] != [] && HasNoSpace(ws[i])
    ensures Words(Join(ws)) == ws
  {
    if ws == [] {
    } else if |ws| == 1 {
      var w := ws[0];
      WordLengthOfWord(w, []);
      assert w + [] == w;
      assert w[..|w|] == w && w[|w|..] == [];
    } else {
      var w, rest := ws[0], Join(ws[1..]);
      var s := w + " " + rest;
      assert s == w + (" " + rest);
      WordLengthOfWord(w, " " + rest);
      assert s[..|w|] == w;
      assert s[|w|..] == " " + rest;
      assert (" " + rest)[1..] == rest;
      WordsOfJoin(ws[1..]);
    }
  }
}

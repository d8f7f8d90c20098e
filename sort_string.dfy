/**
 * `sort_string`: split a sentence into words, sort them by length and
 * concatenate the first three with single spaces.
 */
module WordSort {

  import opened Wrappers
  import opened RubyText

  /** The Ruby exceptions `b[0] << ' ' << b[1] << ' ' << b[2]` raises when words are missing. */
  datatype RubyError =
    | UndefinedMethodForNil      // `nil << ' '`: no words at all
    | NoImplicitConversionOfNil  // `str << nil`: one or two words

  predicate SortedByLength(ws: seq<string>) {
    forall i, j :: 0 <= i < j < |ws| ==> |ws[i]| <= |ws[j]|
  }

  /** Inserts `w` into words sorted by length, before the first word at least as long. */
  function InsertByLength(w: string, ws: seq<string>): (r: seq<string>)
    requires SortedByLength(ws)
    ensures SortedByLength(r)
    ensures multiset(r) == multiset(ws) + multiset{w}
  {
    if ws == [] || |w| <= |ws[0]| then [w] + ws
    else
      var rest := InsertByLength(w, ws[1..]);
      InsertBehindShorter(w, ws, rest);
      [ws[0]] + rest
  }

  lemma InsertBehindShorter(w: string, ws: seq<string>, rest: seq<string>)
    requires ws != [] && |ws[0]| < |w| && SortedByLength(ws) && SortedByLength(rest)
    requires multiset(rest) == multiset(ws[1..]) + multiset{w}
    ensures SortedByLength([ws[0]] + rest)
    ensures multiset([ws[0]] + rest) == multiset(ws) + multiset{w}
  {
    assert ws == [ws[0]] + ws[1..];
    forall k | 0 <= k < |rest|
      ensures |ws[0]| <= |rest[k]|
    {
      assert rest[k] in multiset(rest);
      if rest[k] != w {
        assert rest[k] in ws[1..];
      }
    }
  }

  /**
   * `Array#sort { |x, y| x.length <=> y.length }`, as a stable insertion
   * sort; Ruby's own sort may order words of equal length differently.
   */
  function SortByLength(ws: seq<string>): (r: seq<string>)
    ensures SortedByLength(r)
    ensures multiset(r) == multiset(ws)
  {
    if ws == [] then []
    else
      assert ws == [ws[0]] + ws[1..];
      InsertByLength(ws[0], SortByLength(ws[1..]))
  }

  /** Words already in order of length are left where they are. */
  lemma {:induction false} SortAlreadySorted(ws: seq<string>)
    requires SortedByLength(ws)
    ensures SortByLength(ws) == ws
  {
    if ws != [] {
      SortAlreadySorted(ws[1..]);
      assert [ws[0]] + ws[1..] == ws;
    }
  }

  /** `sort_string` as written: only the three shortest words make it into the result. */
  function SortString(s: string): (r: Result<string, RubyError>)
    ensures r.Ok? <==> |Words(s)| >= 3
    ensures r == Err(UndefinedMethodForNil) <==> Words(s) == []
  {
    SortedWordsAreWords(s);
    var b := SortByLength(Words(s));
    if |b| == 0 then Err(UndefinedMethodForNil)
    else if |b| < 3 then Err(NoImplicitConversionOfNil)
    else Ok(b[0] + " " + b[1] + " " + b[2])
  }

  lemma SortedWordsAreWords(s: string)
    ensures var b := SortByLength(Words(s));
      |b| == |Words(s)| &&
      forall i :: 0 <= i < |b| ==> b[i] != [] && HasNoSpace(b[i])
  {
    var ws, b := Words(s), SortByLength(Words(s));
    assert |multiset(b)| == |multiset(ws)|;
    forall i | 0 <= i < |b|
      ensures b[i] != [] && HasNoSpace(b[i])
    {
      assert b[i] in multiset(ws);
    }
  }

  /**
   * A result splits into three of the sentence's words, in order of length,
   * every other word is at least as long as the last of them, and the three
   * are joined by single spaces.
   */
  lemma SortStringShortestWords(s: string)
    ensures SortString(s).Ok? ==> SortString(s).value == Join(Words(SortString(s).value))
    ensures SortString(s).Ok? ==>
      var picked := Words(SortString(s).value);
      |picked| == 3 &&
      multiset(picked) <= multiset(Words(s)) &&
      |picked[0]| <= |picked[1]| <= |picked[2]| &&
      forall w :: w in multiset(Words(s)) - multiset(picked) ==> |w| >= |picked[2]|
  {
    var b := SortByLength(Words(s));
    SortedWordsAreWords(s);
    if |b| >= 3 {
      FirstThreeJoin(b);
      WordsOfJoin(b[..3]);
      SortedSplit(b, Words(s), 3);
    }
  }

  lemma FirstThreeJoin(b: seq<string>)
    requires |b| >= 3
    ensures Join(b[..3]) == b[0] + " " + b[1] + " " + b[2]
  {
    var top := b[..3];
    assert Join(top[2..]) == b[2];
    assert Join(top[1..]) == b[1] + " " + b[2];
  }

  /**
   * When `b` sorts `ws` by length, its first `n` words are some of the words
   * of `ws`, and the others are at least as long as the last of them.
   */
  lemma SortedSplit(b: seq<string>, ws: seq<string>, n: nat)
    requires SortedByLength(b) && multiset(b) == multiset(ws) && 0 < n <= |b|
    ensures multiset(b[..n]) <= multiset(ws)
    ensures forall w :: w in multiset(ws) - multiset(b[..n]) ==> |w| >= |b[n - 1]|
  {
    assert b == b[..n] + b[n..];
    assert multiset(ws) - multiset(b[..n]) == multiset(b[n..]);
    forall w | w in multiset(ws) - multiset(b[..n])
      ensures |w| >= |b[n - 1]|
    {
      assert w in b[n..];
    }
  }

  /** Sorting and rejoining every word, which is what the exercise asks for. */
  function SortWords(s: string): (r: string)
  {
    Join(SortByLength(Words(s)))
  }

  /** The corrected result splits into all the words of the sentence, sorted by length. */
  lemma SortWordsSortsAllWords(s: string)
    ensures SortedByLength(Words(SortWords(s)))
    ensures multiset(Words(SortWords(s))) == multiset(Words(s))
  {
    SortedWordsAreWords(s);
    WordsOfJoin(SortByLength(Words(s)));
  }

  lemma {:induction false} ExampleJoins(ws: seq<string>)
    requires ws == ["a", "bb", "ccc", "dddd"]
    ensures ws[0] + " " + ws[1] + " " + ws[2] == "a bb ccc"
    ensures Join(ws) == "a bb ccc dddd"
  {
    assert Join(ws[3..]) == "dddd";
    assert Join(ws[2..]) == "ccc dddd";
    assert Join(ws[1..]) == "bb ccc dddd";
  }

  /** The four words of the example sentence, already in order of length. */
  lemma {:induction false} ExampleWords()
    ensures Words("a bb ccc dddd") == ["a", "bb", "ccc", "dddd"]
    ensures SortByLength(["a", "bb", "ccc", "dddd"]) == ["a", "bb", "ccc", "dddd"]
  {
    var ws := ["a", "bb", "ccc", "dddd"];
    ExampleJoins(ws);
    assert forall i :: 0 <= i < |ws| ==> ws[i] != [] && HasNoSpace(ws[i]);
    WordsOfJoin(ws);
    SortAlreadySorted(ws);
  }

  /** With four words the written version drops the longest one; the corrected one keeps it. */
  lemma SortStringDropsFourthWord(s: string)
    requires s == "a bb ccc dddd"
    ensures SortString(s) == Ok("a bb ccc")
    ensures SortWords(s) == s
  {
    ExampleWords();
    var b := SortByLength(Words(s));
    assert SortString(s) == Ok(b[0] + " " + b[1] + " " + b[2]);
    ExampleJoins(b);
  }
}

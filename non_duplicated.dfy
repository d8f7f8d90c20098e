/**
 * `non_duplicated_values`: meant to keep the values that occur once, it walks
 * the caller's array by index with `each` while `delete_if` removes every
 * copy of a repeated value from that same array. Each deletion shifts the
 * next element into the current slot, which `each` then steps over, so a
 * repeated value right behind a deleted run survives.
 */
module NonDuplicated {

  import opened Seqs

  /** A Ruby Array object: a growable sequence that several names may share. */
  class RubyArray<T(==)> {
    var elems: seq<T>

    constructor (elems: seq<T>)
      ensures this.elems == elems
    {
      this.elems := elems;
    }

    /** `delete_if { |y| y == x }`: removes, in place, every element equal to `x`. */
    method DeleteIf(x: T)
      modifies this
      ensures elems == Without(old(elems), x)
    {
      elems := Without(elems, x);
    }
  }

  /**
   * What the loop leaves in the array when it resumes at index `i` with the
   * array holding `s`. It keeps some of the elements of `s`, in their
   * original order.
   */
  function Sweep<T(==)>(s: seq<T>, i: nat): (r: seq<T>)
    ensures IsSubseq(r, s)
    decreases |s| - i
  {
    if i >= |s| then
      SubseqRefl(s);
      s
    else if Count(s, s[i]) > 1 then
      var t := Without(s, s[i]);
      WithoutIsSubseq(s, s[i]);
      SubseqTrans(Sweep(t, i + 1), t, s);
      Sweep(t, i + 1)
    else
      Sweep(s, i + 1)
  }

  /**
   * `out_arr = values` makes both names the same object, so the method changes
   * the caller's array and returns it.
   */
  method NonDuplicatedValues<T(==)>(values: RubyArray<T>) returns (outArr: RubyArray<T>)
    modifies values
    ensures outArr == values
    ensures values.elems == Sweep(old(values.elems), 0)
  {
    outArr := values;
    var i := 0;
    while i < |values.elems|
      invariant outArr == values
      invariant Sweep(values.elems, i) == Sweep(old(values.elems), 0)
      decreases |values.elems| - i
    {
      var x := values.elems[i];
      var n := Count(values.elems, x);  // `values.select { |y| y == x }.length`
      if n > 1 {
        outArr.DeleteIf(x);
      }
      i := i + 1;
    }
  }

  /** Each value is either removed entirely or keeps all of its copies. */
  lemma {:induction false} SweepAllOrNothing<T>(s: seq<T>, i: nat, x: T)
    ensures Count(Sweep(s, i), x) == 0 || Count(Sweep(s, i), x) == Count(s, x)
    decreases |s| - i
  {
    if i < |s| {
      if Count(s, s[i]) > 1 {
        SweepAllOrNothing(Without(s, s[i]), i + 1, x);
        WithoutCount(s, s[i], x);
      } else {
        SweepAllOrNothing(s, i + 1, x);
      }
    }
  }

  /** A value that occurs exactly once in the input is still in the result. */
  lemma {:induction false} SweepKeepsUnique<T>(s: seq<T>, i: nat, x: T)
    requires Count(s, x) == 1
    ensures Count(Sweep(s, i), x) == 1
    decreases |s| - i
  {
    if i < |s| {
      if Count(s, s[i]) > 1 {
        WithoutCount(s, s[i], x);
        SweepKeepsUnique(Without(s, s[i]), i + 1, x);
      } else {
        SweepKeepsUnique(s, i + 1, x);
      }
    }
  }

  /** Every value of the result comes from the input. */
  lemma SweepMembers<T>(s: seq<T>, x: T)
    requires x in Sweep(s, 0)
    ensures x in s
  {
    SubseqMembers(Sweep(s, 0), s, x);
  }

  /** `[1, 1, 2, 2, 3, 3]` comes back as `[3, 3]`: the 3s are duplicated yet kept. */
  lemma PairsKeepLastPair()
    ensures Sweep([1, 1, 2, 2, 3, 3], 0) == [3, 3]
  {
    var s := [1, 1, 2, 2, 3, 3];
    assert Count(s, 1) == 2;
    assert Without(s, 1) == [2, 2, 3, 3];
    assert Count([2, 2, 3, 3], 2) == 2;
    assert Without([2, 2, 3, 3], 2) == [3, 3];
    assert Sweep([3, 3], 2) == [3, 3];
  }

  /** The elements of `t` whose value occurs exactly once in `s`, in order. */
  function KeepUnique<T(==)>(t: seq<T>, s: seq<T>): (r: seq<T>)
    ensures IsSubseq(r, t)
  {
    if t == [] then []
    else if Count(s, t[0]) == 1 then [t[0]] + KeepUnique(t[1..], s)
    else
      SubseqSkip(KeepUnique(t[1..], s), t);
      KeepUnique(t[1..], s)
  }

  /** The intended result: the values that occur exactly once, in input order. */
  function UniqueValues<T(==)>(s: seq<T>): (r: seq<T>)
    ensures IsSubseq(r, s)
  {
    KeepUnique(s, s)
  }

  lemma {:induction false} KeepUniqueMembers<T>(t: seq<T>, s: seq<T>, x: T)
    ensures x in KeepUnique(t, s) <==> x in t && Count(s, x) == 1
  {
    if t != [] {
      KeepUniqueMembers(t[1..], s, x);
      assert t == [t[0]] + t[1..];
    }
  }

  /** A value is in the intended result exactly when it occurs once in the input. */
  lemma UniqueValuesMembers<T>(s: seq<T>, x: T)
    ensures x in UniqueValues(s) <==> Count(s, x) == 1
  {
    KeepUniqueMembers(s, s, x);
  }

  /** On the same input the intended result is empty. */
  lemma PairsHaveNoUniqueValues()
    ensures UniqueValues([1, 1, 2, 2, 3, 3]) == []
  {
    var s := [1, 1, 2, 2, 3, 3];
    if UniqueValues(s) != [] {
      var x := UniqueValues(s)[0];
      UniqueValuesMembers(s, x);
      assert false;
    }
  }
}

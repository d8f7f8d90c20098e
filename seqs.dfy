/**
 * Sequence operations that stand for the Ruby Array library calls used by
 * the exercises: `count`, `select { |y| y == x }.length`, `delete_if { |y| y == x }`
 * and `reverse`, together with the subsequence order used to state what an
 * in-place deletion keeps.
 */
module Seqs {

  /** Number of occurrences of `x` in `s` (Ruby `Array#count(x)`). */
  function Count<T(==)>(s: seq<T>, x: T): (n: nat)
    ensures n <= |s|
    ensures n == 0 <==> x !in s
  {
    if s == [] then 0 else (if s[0] == x then 1 else 0) + Count(s[1..], x)
  }

  /** `Count` is the multiplicity of `x` in the multiset of `s`. */
  lemma {:induction false} CountIsMultiplicity<T>(s: seq<T>, x: T)
    ensures Count(s, x) == multiset(s)[x]
  {
    if s != [] {
      assert s == [s[0]] + s[1..];
      CountIsMultiplicity(s[1..], x);
    }
  }

  /** `s` with every element equal to `x` removed (Ruby `delete_if { |y| y == x }`). */
  function Without<T(==)>(s: seq<T>, x: T): (r: seq<T>)
    ensures x !in r
    ensures |r| == |s| - Count(s, x)
  {
    if s == [] then []
    else if s[0] == x then Without(s[1..], x)
    else [s[0]] + Without(s[1..], x)
  }

  /** Deleting `x` leaves the number of occurrences of every other value unchanged. */
  lemma {:induction false} WithoutCount<T>(s: seq<T>, x: T, y: T)
    ensures Count(Without(s, x), y) == if y == x then 0 else Count(s, y)
  {
    if s != [] {
      WithoutCount(s[1..], x, y);
      if s[0] != x {
        assert Without(s, x)[1..] == Without(s[1..], x);
      }
    }
  }

  lemma {:induction false} WithoutAppend<T>(a: seq<T>, b: seq<T>, x: T)
    ensures Without(a + b, x) == Without(a, x) + Without(b, x)
  {
    if a == [] {
      assert a + b == b;
    } else {
      assert (a + b)[1..] == a[1..] + b;
      WithoutAppend(a[1..], b, x);
    }
  }

  /** Deleting commutes with reversing. */
  lemma {:induction false} WithoutReverse<T>(s: seq<T>, x: T)
    ensures Without(Reverse(s), x) == Reverse(Without(s, x))
  {
    if s != [] {
      WithoutReverse(s[1..], x);
      WithoutAppend(Reverse(s[1..]), [s[0]], x);
      if s[0] != x {
        ReverseAppend([s[0]], Without(s[1..], x));
      }
    }
  }

  /** `t` can be obtained from `s` by deleting elements, keeping their order. */
  predicate IsSubseq<T(==)>(t: seq<T>, s: seq<T>)
    decreases |s|
  {
    if t == [] then true
    else if s == [] then false
    else if t[0] == s[0] then IsSubseq(t[1..], s[1..])
    else IsSubseq(t, s[1..])
  }

  lemma {:induction false} SubseqRefl<T>(s: seq<T>)
    ensures IsSubseq(s, s)
  {
    if s != [] {
      SubseqRefl(s[1..]);
    }
  }

  lemma {:induction false} WithoutIsSubseq<T>(s: seq<T>, x: T)
    ensures IsSubseq(Without(s, x), s)
  {
    if s != [] {
      WithoutIsSubseq(s[1..], x);
      if s[0] != x {
        assert Without(s, x)[1..] == Without(s[1..], x);
      } else {
        SubseqSkip(Without(s[1..], x), s);
      }
    }
  }

  /** A subsequence of the tail of `s` is a subsequence of `s`. */
  lemma {:induction false} SubseqSkip<T>(t: seq<T>, s: seq<T>)
    requires s != [] && IsSubseq(t, s[1..])
    ensures IsSubseq(t, s)
    decreases |s|, 0
  {
    if t != [] && t[0] == s[0] {
      SubseqDropHead(t, s[1..]);
    }
  }

  /** Dropping the first element of a subsequence keeps it a subsequence. */
  lemma {:induction false} SubseqDropHead<T>(t: seq<T>, s: seq<T>)
    requires t != [] && IsSubseq(t, s)
    ensures IsSubseq(t[1..], s)
    decreases |s|, 1
  {
    assert s != [];
    if t[0] == s[0] {
      SubseqSkip(t[1..], s);
    } else {
      SubseqDropHead(t, s[1..]);
      SubseqSkip(t[1..], s);
    }
  }

  lemma {:induction false} SubseqTrans<T>(a: seq<T>, b: seq<T>, c: seq<T>)
    requires IsSubseq(a, b) && IsSubseq(b, c)
    ensures IsSubseq(a, c)
    decreases |c|
  {
    if a != [] {
      assert b != [] && c != [];
      if b[0] == c[0] {
        if a[0] == b[0] {
          SubseqTrans(a[1..], b[1..], c[1..]);
        } else {
          SubseqTrans(a, b[1..], c[1..]);
          SubseqSkip(a, c);
        }
      } else {
        SubseqTrans(a, b, c[1..]);
        SubseqSkip(a, c);
      }
    }
  }

  /** Every element of a subsequence is an element of the sequence. */
  lemma {:induction false} SubseqMembers<T>(t: seq<T>, s: seq<T>, x: T)
    requires IsSubseq(t, s) && x in t
    ensures x in s
    decreases |s|
  {
    assert s != [];
    if t[0] == s[0] {
      if x != t[0] {
        assert x in t[1..];
        SubseqMembers(t[1..], s[1..], x);
      }
    } else {
      SubseqMembers(t, s[1..], x);
    }
  }

  /** The elements of `s` in reverse order. */
  function Reverse<T>(s: seq<T>): (r: seq<T>)
    ensures |r| == |s|
  {
    if s == [] then [] else Reverse(s[1..]) + [s[0]]
  }

  lemma {:induction false} ReverseAt<T>(s: seq<T>, k: nat)
    requires k < |s|
    ensures Reverse(s)[k] == s[|s| - 1 - k]
  {
    if k < |s| - 1 {
      ReverseAt(s[1..], k);
    }
  }

  /** A sequence equals its reversal exactly when each element matches its mirror image. */
  lemma ReverseFixedIffMirrored<T>(s: seq<T>)
    ensures s == Reverse(s) <==> forall j :: 0 <= j < |s| ==> s[j] == s[|s| - 1 - j]
  {
    forall k | 0 <= k < |s|
      ensures Reverse(s)[k] == s[|s| - 1 - k]
    {
      ReverseAt(s, k);
    }
  }

  lemma {:induction false} ReverseAppend<T>(a: seq<T>, b: seq<T>)
    ensures Reverse(a + b) == Reverse(b) + Reverse(a)
  {
    if a == [] {
      assert a + b == b;
    } else {
      assert (a + b)[1..] == a[1..] + b;
      ReverseAppend(a[1..], b);
    }
  }

  lemma {:induction false} ReverseInvolution<T>(s: seq<T>)
    ensures Reverse(Reverse(s)) == s
  {
    if s != [] {
      ReverseInvolution(s[1..]);
      ReverseAppend(Reverse(s[1..]), [s[0]]);
      assert Reverse([s[0]]) == [s[0]];
      assert s == [s[0]] + s[1..];
    }
  }
}

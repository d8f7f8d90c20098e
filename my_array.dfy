/**
 * `MyArray#sum(initial_value = 0)`: adds the elements of the wrapped array to
 * `initial_value` from left to right, or, when a block is given, adds what the
 * block returns for each element.
 */
module Summation {

  import opened Wrappers

  /** The sum of `s`, folded from the left as the Ruby loop does. */
  function SeqSum(s: seq<int>): int
  {
    if s == [] then 0 else SeqSum(s[..|s| - 1]) + s[|s| - 1]
  }

  /** The block applied to every element, in order. */
  function Apply(f: int -> int, s: seq<int>): (r: seq<int>)
    ensures |r| == |s|
    ensures forall i :: 0 <= i < |s| ==> r[i] == f(s[i])
  {
    if s == [] then [] else Apply(f, s[..|s| - 1]) + [f(s[|s| - 1])]
  }

  /** The sum splits over concatenation. */
  lemma {:induction false} SeqSumAppend(a: seq<int>, b: seq<int>)
    ensures SeqSum(a + b) == SeqSum(a) + SeqSum(b)
    decreases |b|
  {
    if b == [] {
      assert a + b == a;
    } else {
      assert (a + b)[..|a + b| - 1] == a + b[..|b| - 1];
      SeqSumAppend(a, b[..|b| - 1]);
    }
  }

  /** Folding from the right gives the same sum as folding from the left. */
  lemma SeqSumFromFront(s: seq<int>)
    requires s != []
    ensures SeqSum(s) == s[0] + SeqSum(s[1..])
  {
    assert s == [s[0]] + s[1..];
    SeqSumAppend([s[0]], s[1..]);
    assert [s[0]][..0] == [];
  }

  /** A block that returns its argument sums like no block at all. */
  lemma {:induction false} IdentityBlockSum(s: seq<int>)
    ensures SeqSum(Apply(x => x, s)) == SeqSum(s)
  {
    assert Apply(x => x, s) == s;
  }

  /** A block that scales every element scales the sum. */
  lemma {:induction false} ScaledBlockSum(s: seq<int>, c: int)
    ensures SeqSum(Apply(x => c * x, s)) == c * SeqSum(s)
  {
    if s != [] {
      var init := s[..|s| - 1];
      ScaledBlockSum(init, c);
      assert Apply(x => c * x, s)[..|s| - 1] == Apply(x => c * x, init);
    }
  }

  class MyArray {
    /** The `array` attribute (`array` is a Dafny keyword). */
    const elems: seq<int>

    constructor (elems: seq<int>)
      ensures this.elems == elems
    {
      this.elems := elems;
    }

    /** `block` is `Some(f)` when the caller passes a block `{ |i| f(i) }`. */
    method Sum(initialValue: int := 0, block: Option<int -> int> := None) returns (res: int)
      ensures block.None? ==> res == initialValue + SeqSum(elems)
      ensures block.Some? ==> res == initialValue + SeqSum(Apply(block.value, elems))
    {
      res := initialValue;
      if block.Some? {
        var f := block.value;
        for i := 0 to |elems|
          invariant res == initialValue + SeqSum(Apply(f, elems[..i]))
        {
          assert elems[..i + 1][..i] == elems[..i];
          res := res + f(elems[i]);
        }
      } else {
        for i := 0 to |elems|
          invariant res == initialValue + SeqSum(elems[..i])
        {
          assert elems[..i + 1][..i] == elems[..i];
          res := res + elems[i];
        }
      }
      assert elems[..|elems|] == elems;
    }
  }
}

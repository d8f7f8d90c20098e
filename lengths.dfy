/** `length_finder`: the length of every string of an array, in order. */
module Lengths {

  method LengthFinder(inputArray: seq<string>) returns (outArr: seq<nat>)
    ensures |outArr| == |inputArray|
    ensures forall i :: 0 <= i < |inputArray| ==> outArr[i] == |inputArray[i]|
  {
    outArr := [];
    for i := 0 to |inputArray|
      invariant |outArr| == i
      invariant forall k :: 0 <= k < i ==> outArr[k] == |inputArray[k]|
    {
      outArr := outArr + [|inputArray[i]|];
    }
  }
}

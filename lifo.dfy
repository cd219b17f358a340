/** The order in which a last-in-first-out container hands out its elements. Both work stacks
    of the runtime keep their top at the end of a sequence. */
module Lifo {
  /** The elements of `s` as successive pops take them, the last element first. */
  function PopOrder<T>(s: seq<T>): (r: seq<T>)
    ensures |r| == |s|
    ensures forall i :: 0 <= i < |s| ==> r[i] == s[|s| - 1 - i]
  {
    if s == [] then [] else [s[|s| - 1]] + PopOrder(s[..|s| - 1])
  }

  /** An element put under all others is handed out after all of them. */
  lemma {:induction false} BottomComesLast<T>(x: T, s: seq<T>)
    ensures PopOrder([x] + s) == PopOrder(s) + [x]
  {
    if s != [] {
      calc {
        PopOrder([x] + s);
        [s[|s| - 1]] + PopOrder(([x] + s)[..|s|]);
        { assert ([x] + s)[..|s|] == [x] + s[..|s| - 1]; }
        [s[|s| - 1]] + PopOrder([x] + s[..|s| - 1]);
        { BottomComesLast(x, s[..|s| - 1]); }
        [s[|s| - 1]] + (PopOrder(s[..|s| - 1]) + [x]);
      }
    }
  }
}

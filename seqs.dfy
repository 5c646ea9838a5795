/**
 * Sequence helpers shared by the model: joining a list of strings without a
 * separator (PHP's implode('', ...)) and positional reversal.
 */
module Seqs {

  /** Concatenates the pieces in order, with nothing in between. */
  function Flatten<T>(ss: seq<seq<T>>): seq<T>
  {
    if ss == [] then [] else ss[0] + Flatten(ss[1..])
  }

  /** Reverses the order of the elements (PHP's array_reverse). */
  function Reverse<T>(s: seq<T>): (r: seq<T>)
    ensures |r| == |s|
  {
    if s == [] then [] else Reverse(s[1..]) + [s[0]]
  }

  /** Element i of the reversal is element |s|-1-i of the original. */
  lemma {:induction false} ReverseAt<T>(s: seq<T>, i: nat)
    requires i < |s|
    ensures Reverse(s)[i] == s[|s| - 1 - i]
  {
    if i < |s| - 1 {
      ReverseAt(s[1..], i);
    }
  }

  /** Joining pieces that are each one element long keeps one element per piece, in place. */
  lemma {:induction false} FlattenUnits<T>(ss: seq<seq<T>>)
    requires forall i :: 0 <= i < |ss| ==> |ss[i]| == 1
    ensures |Flatten(ss)| == |ss|
    ensures forall i :: 0 <= i < |ss| ==> Flatten(ss)[i] == ss[i][0]
  {
    if ss != [] {
      FlattenUnits(ss[1..]);
    }
  }

  /** Pieces that hold one element each, the elements of w in reverse order, join to the reversal of w. */
  lemma {:induction false} FlattenReversedUnits<T>(ss: seq<seq<T>>, w: seq<T>)
    requires |ss| == |w|
    requires forall i :: 0 <= i < |ss| ==> ss[i] == [w[|w| - 1 - i]]
    ensures Flatten(ss) == Reverse(w)
  {
    FlattenUnits(ss);
    forall i | 0 <= i < |w|
      ensures Flatten(ss)[i] == Reverse(w)[i]
    {
      ReverseAt(w, i);
    }
  }

  /** A sequence of at least two elements is its first two elements followed by the rest. */
  lemma {:induction false} FrontTwo<T>(t: seq<T>)
    requires |t| >= 2
    ensures t == [t[0], t[1]] + t[2..]
  {
  }

  /**
   * One step of a loop that rewrites a sequence slot by slot: once slot i
   * holds its target value, the first i + 1 slots agree with the target and
   * the remaining slots still hold their original values.
   */
  lemma {:induction false} SlotStep<T>(cur: seq<T>, target: seq<T>, original: seq<T>, i: nat, x: T)
    requires |cur| == |target| == |original| && i < |cur|
    requires forall k :: 0 <= k < i ==> cur[k] == target[k]
    requires forall k :: i <= k < |cur| ==> cur[k] == original[k]
    requires x == target[i]
    ensures forall k :: 0 <= k < i + 1 ==> cur[i := x][k] == target[k]
    ensures forall k :: i + 1 <= k < |cur| ==> cur[i := x][k] == original[k]
  {
  }
}

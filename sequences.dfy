/** Facts about sequence concatenation shared by the modules. */
module Sequences {

  /** Concatenation is associative; stating it lets a proof regroup a
      concatenation without unfolding the parts. */
  lemma AppendAssoc<T>(x: seq<T>, y: seq<T>, z: seq<T>)
    ensures x + y + z == x + (y + z)
  {
  }

  /** The middle part of a three-part concatenation is found at its offset. */
  lemma SliceMiddle<T>(x: seq<T>, y: seq<T>, z: seq<T>)
    ensures (x + y + z)[|x| .. |x| + |y|] == y
  {
    var w := x + y + z;
    assert forall i :: 0 <= i < |y| ==> w[|x| .. |x| + |y|][i] == y[i];
  }
}

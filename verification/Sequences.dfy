/** Bytes, and the few facts about cutting sequences into parts that several components share. */
module Sequences {

  type byte = value: int | 0 <= value < 256

  /** The bytes of a stream that arrived in parts. */
  function Flatten<T>(parts: seq<seq<T>>): (whole: seq<T>) {
    if parts == [] then [] else parts[0] + Flatten(parts[1..])
  }

  lemma {:induction false} FlattenAppend<T>(left: seq<seq<T>>, right: seq<seq<T>>)
    ensures Flatten(left + right) == Flatten(left) + Flatten(right)
  {
    if left == [] {
      assert left + right == right;
    } else {
      assert (left + right)[0] == left[0] && (left + right)[1..] == left[1..] + right;
      FlattenAppend(left[1..], right);
    }
  }

  lemma FlattenSnoc<T>(parts: seq<seq<T>>, last: seq<T>)
    ensures Flatten(parts + [last]) == Flatten(parts) + last
  {
    FlattenAppend(parts, [last]);
    assert Flatten([last]) == last + Flatten<T>([]);
  }

  lemma Associative<T>(left: seq<T>, middle: seq<T>, right: seq<T>)
    ensures (left + middle) + right == left + (middle + right)
  {
  }
}

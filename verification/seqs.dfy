/**
 Sequence helpers shared by the text, chunking and tree modules: flattening a
 sequence of sequences, the way Python's `''.join(...)` or `list.extend` in a
 loop glue pieces together.
 */
module Seqs {

  /** The concatenation, in order, of all the sequences in `xss`. */
  function Flatten<T>(xss: seq<seq<T>>): seq<T>
  {
    if xss == [] then [] else xss[0] + Flatten(xss[1..])
  }

  /** Flattening distributes over concatenation. */
  lemma {:induction false} FlattenAppend<T>(a: seq<seq<T>>, b: seq<seq<T>>)
    ensures Flatten(a + b) == Flatten(a) + Flatten(b)
  {
    if a == [] {
      assert a + b == b;
    } else {
      assert (a + b)[1..] == a[1..] + b;
      FlattenAppend(a[1..], b);
    }
  }

  /** Flattening `k` pieces of length `size` gives `k * size` elements. */
  lemma {:induction false} FlattenUniformLength<T>(xss: seq<seq<T>>, size: nat)
    requires forall i :: 0 <= i < |xss| ==> |xss[i]| == size
    ensures |Flatten(xss)| == |xss| * size
  {
    if xss != [] {
      FlattenUniformLength(xss[1..], size);
    }
  }
}

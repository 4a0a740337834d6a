/**
 Fixed-size grouping of a sequence, as libextract's `chunks` generator does
 it: items are collected into a buffer and the buffer is emitted each time it
 reaches exactly `size` items. Nothing is emitted after the input runs out,
 so a trailing group shorter than `size` is dropped, and a `size` of zero or
 less never matches a non-empty buffer, so nothing is emitted at all.
 */
module Chunking {
  import opened Seqs

  /** The groups `chunks(xs, size)` yields, as one sequence. */
  function Chunks<T>(xs: seq<T>, size: int): (r: seq<seq<T>>)
    ensures size <= 0 ==> r == []
    ensures forall i :: 0 <= i < |r| ==> |r[i]| == size
    ensures Flatten(r) <= xs
    ensures size > 0 ==> |xs| - |Flatten(r)| < size
    decreases |xs|
  {
    if size <= 0 || |xs| < size then []
    else
      var rest := Chunks(xs[size..], size);
      assert xs == xs[..size] + xs[size..];
      [xs[..size]] + rest
  }

  /** The generator's loop, step by step: append each item to the buffer and
      emit the buffer whenever its length equals `size`. */
  method ChunksLoop<T>(xs: seq<T>, size: int) returns (out: seq<seq<T>>)
    ensures out == Chunks(xs, size)
  {
    out := [];
    var chunk: seq<T> := [];
    for k := 0 to |xs|
      invariant size <= 0 ==> out == []
      invariant size > 0 ==> |chunk| < size
      invariant forall i :: 0 <= i < |out| ==> |out[i]| == size
      invariant Flatten(out) + chunk == xs[..k]
    {
      chunk := chunk + [xs[k]];
      if |chunk| == size {
        FlattenAppend(out, [chunk]);
        out := out + [chunk];
        chunk := [];
      }
    }
    assert xs[..|xs|] == xs;
    ChunksUnique(xs, size, out);
  }

  /** `Chunks` is the only sequence of full-size groups that covers a prefix
      of `xs` leaving fewer than `size` items over. */
  lemma {:induction false} ChunksUnique<T>(xs: seq<T>, size: int, out: seq<seq<T>>)
    requires size <= 0 ==> out == []
    requires forall i :: 0 <= i < |out| ==> |out[i]| == size
    requires Flatten(out) <= xs
    requires size > 0 ==> |xs| - |Flatten(out)| < size
    ensures out == Chunks(xs, size)
    decreases |out|
  {
    if size > 0 && out != [] {
      assert Flatten(out) == out[0] + Flatten(out[1..]);
      assert xs[..size] == out[0];
      assert Flatten(out[1..]) <= xs[size..];
      ChunksUnique(xs[size..], size, out[1..]);
      assert out == [out[0]] + out[1..];
    }
  }

  /** There are `|xs| / size` groups (floor division), and together they are
      exactly the first `size * (|xs| / size)` items: the remainder is dropped. */
  lemma ChunksCount<T>(xs: seq<T>, size: int)
    requires size > 0
    ensures |Chunks(xs, size)| == |xs| / size
    ensures Flatten(Chunks(xs, size)) == xs[..size * (|xs| / size)]
  {
    var r := Chunks(xs, size);
    FlattenUniformLength(r, size);
    DivUnique(|xs|, size, |r|);
  }

  /** Group `i` is the slice of `xs` from `i * size` to `i * size + size`. */
  lemma {:induction false} ChunkAt<T>(xs: seq<T>, size: int, i: nat)
    requires size > 0
    requires i < |Chunks(xs, size)|
    ensures i * size + size <= |xs|
    ensures Chunks(xs, size)[i] == xs[i * size .. i * size + size]
    decreases i
  {
    if i > 0 {
      ChunkAt(xs[size..], size, i - 1);
      assert (i - 1) * size + size == i * size;
    }
  }

  /** The quotient is the only `q` with `q * d <= n < (q + 1) * d`. */
  lemma DivUnique(n: nat, d: int, q: nat)
    requires d > 0
    requires q * d <= n < q * d + d
    ensures q == n / d
  {
    var q' := n / d;
    assert q' * d <= n < q' * d + d;
    MulMonotone(q, q', d);
    MulMonotone(q', q, d);
  }

  /** Multiplying by a positive number preserves strict order, in whole steps. */
  lemma MulMonotone(a: int, b: int, d: int)
    requires d > 0
    ensures a < b ==> (a + 1) * d <= b * d
  {
    if a < b {
      assert (b - (a + 1)) * d >= 0;
    }
  }
}

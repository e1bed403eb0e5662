/** Sequence helpers shared by the array, frame and dataset models:
    row-major concatenation and its inverse, cutting into equal chunks. */
module Seqs {

  /** Every row has length `width`. */
  predicate Uniform<T>(xss: seq<seq<T>>, width: nat)
  {
    forall i :: 0 <= i < |xss| ==> |xss[i]| == width
  }

  /** Concatenation of the rows in order (LINQ's SelectMany over rows). */
  function Concat<T>(xss: seq<seq<T>>): seq<T>
  {
    if xss == [] then [] else xss[0] + Concat(xss[1..])
  }

  /** Cuts `s` into `n` consecutive chunks of `w` elements each. */
  function Chunks<T>(s: seq<T>, n: nat, w: nat): (r: seq<seq<T>>)
    requires |s| == n * w
    ensures |r| == n
    decreases n
  {
    if n == 0 then []
    else
      assert |s| == (n - 1) * w + w;
      [s[..w]] + Chunks(s[w..], n - 1, w)
  }

  /** Chunk i is at offset i*w and ends inside the sequence. */
  lemma {:induction false} SliceInBounds(i: nat, n: nat, w: nat)
    requires i < n
    ensures i * w + w <= n * w
    decreases n - i
  {
    MulStep(n - 1, w);
    if i + 1 < n {
      SliceInBounds(i, n - 1, w);
    }
  }

  lemma MulStep(a: nat, w: nat)
    ensures (a + 1) * w == a * w + w
  {
  }

  lemma {:induction false} ConcatLength<T>(xss: seq<seq<T>>, w: nat)
    requires Uniform(xss, w)
    ensures |Concat(xss)| == |xss| * w
  {
    if xss != [] {
      ConcatLength(xss[1..], w);
      assert |xss| * w == w + (|xss| - 1) * w;
    }
  }

  /** Row i of a uniform row list sits at [i*w, i*w+w) of its concatenation. */
  lemma {:induction false} ConcatRow<T>(xss: seq<seq<T>>, w: nat, i: nat)
    requires Uniform(xss, w) && i < |xss|
    ensures i * w + w <= |Concat(xss)|
    ensures Concat(xss)[i * w .. i * w + w] == xss[i]
  {
    ConcatLength(xss, w);
    SliceInBounds(i, |xss|, w);
    if i > 0 {
      ConcatRow(xss[1..], w, i - 1);
      assert i * w == w + (i - 1) * w;
      ConcatLength(xss[1..], w);
    }
  }

  /** Chunk i of `s` is the slice [i*w, i*w+w). */
  lemma {:induction false} ChunkAt<T>(s: seq<T>, n: nat, w: nat, i: nat)
    requires |s| == n * w && i < n
    ensures i * w + w <= |s|
    ensures Chunks(s, n, w)[i] == s[i * w .. i * w + w]
  {
    SliceInBounds(i, n, w);
    if i > 0 {
      assert |s| == (n - 1) * w + w;
      ChunkAt(s[w..], n - 1, w, i - 1);
      assert i * w == w + (i - 1) * w;
    }
  }

  lemma {:induction false} ChunksUniform<T>(s: seq<T>, n: nat, w: nat)
    requires |s| == n * w
    ensures Uniform(Chunks(s, n, w), w)
  {
    forall i | 0 <= i < n
      ensures |Chunks(s, n, w)[i]| == w
    {
      ChunkAt(s, n, w, i);
    }
  }

  /** Re-concatenating the chunks gives the sequence back. */
  lemma {:induction false} ConcatChunks<T>(s: seq<T>, n: nat, w: nat)
    requires |s| == n * w
    ensures Concat(Chunks(s, n, w)) == s
    decreases n
  {
    if n > 0 {
      assert |s| == (n - 1) * w + w;
      ConcatChunks(s[w..], n - 1, w);
    }
  }

  /** Chunking the concatenation of uniform rows gives the rows back. */
  lemma {:induction false} ChunksConcat<T>(xss: seq<seq<T>>, w: nat)
    requires Uniform(xss, w)
    ensures |Concat(xss)| == |xss| * w
    ensures Chunks(Concat(xss), |xss|, w) == xss
  {
    ConcatLength(xss, w);
    var r := Chunks(Concat(xss), |xss|, w);
    forall i | 0 <= i < |xss|
      ensures r[i] == xss[i]
    {
      ChunkAt(Concat(xss), |xss|, w, i);
      ConcatRow(xss, w, i);
    }
  }
}

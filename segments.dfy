/**
 * Index arithmetic of the sliding-window segmenter: which offsets
 * `range(0, len, slide)` visits, which of them leave room for a whole window,
 * and the chunk sequences the two variants of the segmenter produce.
 */
module Segments {

  function Min(a: int, b: int): (r: int) { if a <= b then a else b }

  /**
   * The slice `d[lo:hi]` of a Python list or numpy array for non-negative
   * bounds: both ends are clamped to the length, and a reversed or
   * out-of-range slice is empty.
   */
  function SliceClamped(d: seq<real>, lo: nat, hi: nat): (r: seq<real>)
    ensures |r| == if lo < hi && lo < |d| then Min(hi, |d|) - lo else 0
    ensures forall j :: 0 <= j < |r| ==> r[j] == d[lo + j]
  {
    if lo < hi && lo < |d| then d[lo..Min(hi, |d|)] else []
  }

  lemma MulMono(a: nat, b: nat, s: nat)
    requires a <= b
    ensures a * s <= b * s
  {
    assert b * s == a * s + (b - a) * s;
  }

  /** j fits under x / s exactly when j strides of s fit under x. */
  lemma DivBound(j: nat, x: nat, s: nat)
    requires s >= 1
    ensures j <= x / s <==> j * s <= x
  {
    var q := x / s;
    assert x == q * s + x % s;
    if j <= q {
      MulMono(j, q, s);
    } else {
      MulMono(q + 1, j, s);
      assert (q + 1) * s == q * s + s;
    }
  }

  /** The number of offsets 0, s, 2s, ... below len, i.e. the length of range(0, len, s). */
  function OffsetCount(len: nat, s: nat): (r: nat)
    requires s >= 1
  {
    (len + s - 1) / s
  }

  /** The number of offsets 0, s, 2s, ... at which a whole window of length w fits into len items. */
  function FullChunkCount(len: nat, w: nat, s: nat): (r: nat)
    requires s >= 1
  {
    if w > len then 0
    else if w == 0 then OffsetCount(len, s)
    else (len - w) / s + 1
  }

  /** OffsetCount counts exactly the offsets that range(0, len, s) yields. */
  lemma OffsetCountSpec(len: nat, s: nat, i: nat)
    requires s >= 1
    ensures i < OffsetCount(len, s) <==> i * s < len
  {
    DivBound(i + 1, len + s - 1, s);
    assert (i + 1) * s == i * s + s;
  }

  /**
   * FullChunkCount counts exactly the visited offsets whose window is whole:
   * offset i * s is below len and leaves room for w items.
   */
  lemma FullChunkCountSpec(len: nat, w: nat, s: nat, i: nat)
    requires s >= 1
    ensures i < FullChunkCount(len, w, s) <==> i * s < len && i * s + w <= len
  {
    if w > len {
    } else if w == 0 {
      OffsetCountSpec(len, s, i);
    } else {
      DivBound(i, len - w, s);
    }
  }

  lemma FullChunksFit(len: nat, w: nat, s: nat)
    requires s >= 1
    ensures forall i: nat :: i < FullChunkCount(len, w, s) ==> i * s + w <= len
  {
    forall i: nat | i < FullChunkCount(len, w, s)
      ensures i * s + w <= len
    {
      FullChunkCountSpec(len, w, s, i);
    }
  }

  lemma OffsetsInside(len: nat, s: nat)
    requires s >= 1
    ensures forall i: nat :: i < OffsetCount(len, s) ==> i * s < len
  {
    forall i: nat | i < OffsetCount(len, s)
      ensures i * s < len
    {
      OffsetCountSpec(len, s, i);
    }
  }

  /**
   * What the drop-partial segmenter returns: one chunk per offset with room
   * for a whole window, chunk i cut from offset i * s.
   */
  function DropChunks(d: seq<real>, w: nat, s: nat): (r: seq<seq<real>>)
    requires s >= 1
    ensures |r| == FullChunkCount(|d|, w, s)
    ensures forall i :: 0 <= i < |r| ==> |r[i]| == w
    ensures forall i :: 0 <= i < |r| ==> i * s + w <= |d| && r[i] == d[i * s..i * s + w]
  {
    FullChunksFit(|d|, w, s);
    seq(FullChunkCount(|d|, w, s), i requires 0 <= i < FullChunkCount(|d|, w, s) => d[i * s..i * s + w])
  }

  /** Every drop-partial chunk has the window's length and lies inside the data. */
  lemma DropChunksFit(d: seq<real>, w: nat, s: nat)
    requires s >= 1
    ensures forall n :: 0 <= n < |DropChunks(d, w, s)| ==> |DropChunks(d, w, s)[n]| == w && n * s + w <= |d|
  {
  }

  /**
   * What the keep-partial segmenter returns: one chunk per offset of
   * range(0, len, s), cut short at the end of the data.
   */
  function KeepChunks(d: seq<real>, w: nat, s: nat): (r: seq<seq<real>>)
    requires s >= 1
    ensures |r| == OffsetCount(|d|, s)
    ensures forall i :: 0 <= i < |r| ==> i * s < |d| && r[i] == d[i * s..Min(i * s + w, |d|)]
  {
    OffsetsInside(|d|, s);
    seq(OffsetCount(|d|, s), i requires 0 <= i < OffsetCount(|d|, s) => d[i * s..Min(i * s + w, |d|)])
  }

  /** The drop-partial chunks found among the first k visited offsets. */
  function DropChunksBelow(d: seq<real>, w: nat, s: nat, k: nat): (r: seq<seq<real>>)
    requires s >= 1
  {
    DropChunks(d, w, s)[..Min(k, FullChunkCount(|d|, w, s))]
  }

  /**
   * One step of the drop-partial segmenter: visiting offset k * s adds the
   * copy of d[k*s : k*s+w] exactly when that copy is whole; once the offsets
   * pass the end of the data, every chunk has been found.
   */
  lemma DropChunksStep(d: seq<real>, w: nat, s: nat, k: nat)
    requires s >= 1
    ensures k * s < |d| && |SliceClamped(d, k * s, k * s + w)| == w ==>
              DropChunksBelow(d, w, s, k + 1) == DropChunksBelow(d, w, s, k) + [SliceClamped(d, k * s, k * s + w)]
    ensures k * s < |d| && |SliceClamped(d, k * s, k * s + w)| != w ==>
              DropChunksBelow(d, w, s, k + 1) == DropChunksBelow(d, w, s, k)
    ensures k * s >= |d| ==> DropChunksBelow(d, w, s, k) == DropChunks(d, w, s)
  {
    var drop, f := DropChunks(d, w, s), FullChunkCount(|d|, w, s);
    FullChunkCountSpec(|d|, w, s, k);
    if k < f {
      assert drop[..k + 1] == drop[..k] + [drop[k]];
      assert SliceClamped(d, k * s, k * s + w) == drop[k];
    }
  }

  /** The keep-partial chunks of the first k visited offsets. */
  function KeepChunksBelow(d: seq<real>, w: nat, s: nat, k: nat): (r: seq<seq<real>>)
    requires s >= 1
  {
    KeepChunks(d, w, s)[..Min(k, OffsetCount(|d|, s))]
  }

  /**
   * One step of the keep-partial segmenter: visiting offset k * s adds the
   * copy of d[k*s : k*s+w], cut short or not; once the offsets pass the end
   * of the data, every chunk has been found.
   */
  lemma KeepChunksStep(d: seq<real>, w: nat, s: nat, k: nat)
    requires s >= 1
    ensures k * s < |d| ==>
              KeepChunksBelow(d, w, s, k + 1) == KeepChunksBelow(d, w, s, k) + [SliceClamped(d, k * s, k * s + w)]
    ensures k * s >= |d| ==> KeepChunksBelow(d, w, s, k) == KeepChunks(d, w, s)
  {
    var keep, c := KeepChunks(d, w, s), OffsetCount(|d|, s);
    OffsetCountSpec(|d|, s, k);
    if k < c {
      assert keep[..k + 1] == keep[..k] + [keep[k]];
      assert SliceClamped(d, k * s, k * s + w) == keep[k];
    }
  }

  /**
   * The drop-partial segmenter returns no chunk when the window is longer
   * than the data, and (len - w) / s + 1 chunks when a non-empty window fits.
   */
  lemma DropChunksCount(d: seq<real>, w: nat, s: nat)
    requires s >= 1
    ensures w > |d| ==> DropChunks(d, w, s) == []
    ensures 1 <= w <= |d| ==> |DropChunks(d, w, s)| == (|d| - w) / s + 1
  {
  }

  /**
   * For a non-empty window the whole chunks come first: among the visited
   * offsets, chunk n is whole exactly when it is one of the first
   * FullChunkCount.
   */
  lemma FullChunksComeFirst(len: nat, w: nat, s: nat)
    requires s >= 1 && w >= 1
    ensures FullChunkCount(len, w, s) <= OffsetCount(len, s)
    ensures forall n: nat :: n < OffsetCount(len, s) ==> (n < FullChunkCount(len, w, s) <==> n * s + w <= len)
  {
    var f := FullChunkCount(len, w, s);
    if f > 0 {
      FullChunkCountSpec(len, w, s, f - 1);
      OffsetCountSpec(len, s, f - 1);
    }
    forall n: nat | n < OffsetCount(len, s)
      ensures n < f <==> n * s + w <= len
    {
      FullChunkCountSpec(len, w, s, n);
      OffsetCountSpec(len, s, n);
    }
  }

  /**
   * The keep-partial chunks start with the drop-partial ones, and every
   * later keep-partial chunk is shorter than the window.
   */
  lemma KeepPrefixIsDrop(d: seq<real>, w: nat, s: nat)
    requires s >= 1 && w >= 1
    ensures |DropChunks(d, w, s)| <= |KeepChunks(d, w, s)|
    ensures KeepChunks(d, w, s)[..|DropChunks(d, w, s)|] == DropChunks(d, w, s)
    ensures forall n :: 0 <= n < |KeepChunks(d, w, s)| ==> (n < |DropChunks(d, w, s)| <==> n * s + w <= |d|)
    ensures forall n :: 0 <= n < |DropChunks(d, w, s)| ==> |KeepChunks(d, w, s)[n]| == w
    ensures forall n :: |DropChunks(d, w, s)| <= n < |KeepChunks(d, w, s)| ==> |KeepChunks(d, w, s)[n]| < w
  {
    var keep, drop := KeepChunks(d, w, s), DropChunks(d, w, s);
    FullChunksComeFirst(|d|, w, s);
    assert forall n :: 0 <= n < |drop| ==> keep[n] == drop[n];
  }

  /** The docstring example: sliding_chunker(range(6), 3, 2) == [[0, 1, 2], [2, 3, 4]]. */
  lemma DropChunksExample()
    ensures DropChunks([0.0, 1.0, 2.0, 3.0, 4.0, 5.0], 3, 2) == [[0.0, 1.0, 2.0], [2.0, 3.0, 4.0]]
  {
    var d := [0.0, 1.0, 2.0, 3.0, 4.0, 5.0];
    var r := DropChunks(d, 3, 2);
    assert |r| == 2;
    assert r[0] == d[0..3] == [0.0, 1.0, 2.0];
    assert r[1] == d[2..5] == [2.0, 3.0, 4.0];
  }

  /** The keep-partial docstring example over range(10) with window 3 and stride 2. */
  lemma KeepChunksExample()
    ensures KeepChunks([0.0, 1.0, 2.0, 3.0, 4.0, 5.0, 6.0, 7.0, 8.0, 9.0], 3, 2)
         == [[0.0, 1.0, 2.0], [2.0, 3.0, 4.0], [4.0, 5.0, 6.0], [6.0, 7.0, 8.0], [8.0, 9.0]]
  {
    var d := [0.0, 1.0, 2.0, 3.0, 4.0, 5.0, 6.0, 7.0, 8.0, 9.0];
    var r := KeepChunks(d, 3, 2);
    assert |r| == 5;
    assert r[0] == d[0..3] == [0.0, 1.0, 2.0];
    assert r[1] == d[2..5] == [2.0, 3.0, 4.0];
    assert r[2] == d[4..7] == [4.0, 5.0, 6.0];
    assert r[3] == d[6..9] == [6.0, 7.0, 8.0];
    assert r[4] == d[8..10] == [8.0, 9.0];
  }
}

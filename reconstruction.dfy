/**
 * Overlap-add: contribution m is added into a zero buffer at
 * [m * slide, m * slide + |contribution|). The reference definition is
 * pointwise: output sample i is the sum of the contributions that cover i.
 */
module Reconstruction {
  import opened Segments
  import opened Codebooks

  /** Contribution c placed at offset pos covers output index i. */
  predicate Covers(c: seq<real>, pos: nat, i: nat)
  {
    pos <= i < pos + |c|
  }

  /** What contribution c placed at pos adds to output index i. */
  function At(c: seq<real>, pos: nat, i: nat): (r: real)
  {
    if Covers(c, pos, i) then c[i - pos] else 0.0
  }

  /** The sum, at output index i, of the first n contributions, contribution m placed at m * slide. */
  function CoverSum(cs: seq<seq<real>>, slide: nat, i: nat, n: nat): (r: real)
    requires n <= |cs|
  {
    if n == 0 then 0.0
    else CoverSum(cs, slide, i, n - 1) + At(cs[n - 1], (n - 1) * slide, i)
  }

  /** The buffer of length len after every contribution has been added. */
  function OverlapAdd(len: nat, slide: nat, cs: seq<seq<real>>): (r: seq<real>)
    ensures |r| == len
  {
    seq(len, i requires 0 <= i < len => CoverSum(cs, slide, i, |cs|))
  }

  /** An index that no contribution covers keeps the buffer's initial zero. */
  lemma {:induction false} UncoveredIsZero(cs: seq<seq<real>>, slide: nat, i: nat, n: nat)
    requires n <= |cs|
    requires forall m :: 0 <= m < n ==> !Covers(cs[m], m * slide, i)
    ensures CoverSum(cs, slide, i, n) == 0.0
  {
    if n > 0 {
      UncoveredIsZero(cs, slide, i, n - 1);
    }
  }

  /** An index that exactly one contribution covers holds that contribution's sample at the relative index. */
  lemma {:induction false} SingleCover(cs: seq<seq<real>>, slide: nat, i: nat, n: nat, m: nat)
    requires m < n <= |cs|
    requires Covers(cs[m], m * slide, i)
    requires forall k :: 0 <= k < n && k != m ==> !Covers(cs[k], k * slide, i)
    ensures CoverSum(cs, slide, i, n) == cs[m][i - m * slide]
  {
    if n - 1 == m {
      UncoveredIsZero(cs, slide, i, m);
    } else {
      SingleCover(cs, slide, i, n - 1, m);
    }
  }

  /** The end of the last whole chunk the segmenter keeps (0 when it keeps none). */
  function LastChunkEnd(len: nat, w: nat, s: nat): (e: nat)
    requires s >= 1
    ensures e <= len
  {
    var f := FullChunkCount(len, w, s);
    FullChunksFit(len, w, s);
    if f == 0 then 0 else (f - 1) * s + w
  }

  /**
   * With one contribution of length w per whole chunk, every sample at or
   * after the end of the last whole chunk stays 0.
   */
  lemma TailIsZero(len: nat, w: nat, s: nat, cs: seq<seq<real>>, i: nat)
    requires s >= 1
    requires |cs| == FullChunkCount(len, w, s)
    requires forall m :: 0 <= m < |cs| ==> |cs[m]| == w
    requires LastChunkEnd(len, w, s) <= i < len
    ensures OverlapAdd(len, s, cs)[i] == 0.0
  {
    forall m | 0 <= m < |cs|
      ensures !Covers(cs[m], m * s, i)
    {
      MulMono(m, |cs| - 1, s);
    }
    UncoveredIsZero(cs, s, i, |cs|);
  }

  /**
   * With stride h and contributions of length 2 * h, the contribution placed
   * at k * h covers i = m * h + r (r < h) exactly when k is m - 1 or m.
   */
  lemma HalfOverlapCovers(c: seq<real>, h: nat, k: nat, m: nat, r: nat)
    requires |c| == 2 * h && r < h
    ensures Covers(c, k * h, m * h + r) <==> k == m || k + 1 == m
  {
    if k + 1 < m {
      MulMono(k + 2, m, h);
      assert (k + 2) * h == k * h + 2 * h;
    } else if k > m {
      MulMono(m + 1, k, h);
      assert (m + 1) * h == m * h + h;
    } else if k == m {
      assert m * h + r < m * h + 2 * h;
    } else {
      assert (k + 2) * h == k * h + 2 * h;
      assert k * h + 2 * h == m * h + h;
    }
  }

  /**
   * The first n contributions sum, at i = m * h + r, to those of the
   * contributions m - 1 and m that are among them.
   */
  lemma {:induction false} HalfOverlapSum(cs: seq<seq<real>>, h: nat, m: nat, r: nat, n: nat)
    requires r < h && n <= |cs|
    requires forall k :: 0 <= k < |cs| ==> |cs[k]| == 2 * h
    ensures CoverSum(cs, h, m * h + r, n) ==
              (if m < n then At(cs[m], m * h, m * h + r) else 0.0) +
              (if 1 <= m <= n then At(cs[m - 1], (m - 1) * h, m * h + r) else 0.0)
  {
    if n > 0 {
      HalfOverlapSum(cs, h, m, r, n - 1);
      HalfOverlapCovers(cs[n - 1], h, n - 1, m, r);
    }
  }

  /**
   * Half-overlap reconstruction (a window_len/2 stride on an even
   * window_len): output sample i = m * h + r, r < h, is covered by
   * contributions m and m - 1 when they exist and by no other, and it is
   * cs[m][r] + cs[m - 1][h + r].
   */
  lemma HalfOverlap(len: nat, h: nat, cs: seq<seq<real>>, m: nat, r: nat)
    requires r < h && m * h + r < len
    requires forall k :: 0 <= k < |cs| ==> |cs[k]| == 2 * h
    ensures forall k :: 0 <= k < |cs| ==> (Covers(cs[k], k * h, m * h + r) <==> k == m || k + 1 == m)
    ensures OverlapAdd(len, h, cs)[m * h + r] ==
              (if m < |cs| then cs[m][r] else 0.0) + (if 1 <= m <= |cs| then cs[m - 1][h + r] else 0.0)
  {
    forall k | 0 <= k < |cs|
      ensures Covers(cs[k], k * h, m * h + r) <==> k == m || k + 1 == m
    {
      HalfOverlapCovers(cs[k], h, k, m, r);
    }
    HalfOverlapSum(cs, h, m, r, |cs|);
    if m >= 1 {
      assert (m - 1) * h + h == m * h;
    }
  }

  /** A buffer that holds every contribution's sum at every index is the overlap-add. */
  lemma BufferIsOverlapAdd(b: seq<real>, slide: nat, cs: seq<seq<real>>)
    requires forall i :: 0 <= i < |b| ==> b[i] == CoverSum(cs, slide, i, |cs|)
    ensures b == OverlapAdd(|b|, slide, cs)
  {
  }

  /** `buf[pos:pos+len(v)] += v` on a numpy buffer that has room for v. */
  method AddInto(buf: array<real>, pos: nat, v: seq<real>)
    requires pos + |v| <= buf.Length
    modifies buf
    ensures forall i :: 0 <= i < buf.Length ==> buf[i] == old(buf[i]) + At(v, pos, i)
  {
    for j := 0 to |v|
      invariant forall i :: 0 <= i < buf.Length && !(pos <= i < pos + j) ==> buf[i] == old(buf[i])
      invariant forall i :: pos <= i < pos + j ==> buf[i] == old(buf[i]) + v[i - pos]
    {
      buf[pos + j] := buf[pos + j] + v[j];
    }
  }

  /**
   * One step of a reconstruction loop: adding contribution n at its offset
   * n * slide to a buffer holding the sums of the first n contributions
   * leaves it holding the sums of the first n + 1.
   */
  method AddContribution(buf: array<real>, pos: nat, v: seq<real>, ghost cs: seq<seq<real>>, ghost slide: nat, ghost n: nat)
    requires n < |cs| && v == cs[n] && pos == n * slide && pos + |v| <= buf.Length
    requires forall i :: 0 <= i < buf.Length ==> buf[i] == CoverSum(cs, slide, i, n)
    modifies buf
    ensures forall i :: 0 <= i < buf.Length ==> buf[i] == CoverSum(cs, slide, i, n + 1)
  {
    AddInto(buf, pos, v);
  }

  /**
   * The body of the rescaling reconstruction loops: match segment n and add
   * its rescaled centroid at pos = n * slide.
   */
  method AddScaledMatch(buffer: array<real>, cb: Codebook, norm: seq<real> -> real, window: seq<real>,
                        seg: seq<real>, pos: nat, ghost cs: seq<seq<real>>, ghost slide: nat, ghost n: nat)
    requires Fits(cb, |window|) && PositiveOn(norm, |window|) && |seg| == |window|
    requires n < |cs| && cs[n] == ScaledContribution(cb, norm, window, seg)
    requires pos == n * slide && pos + |window| <= buffer.Length
    requires forall i :: 0 <= i < buffer.Length ==> buffer[i] == CoverSum(cs, slide, i, n)
    modifies buffer
    ensures forall i :: 0 <= i < buffer.Length ==> buffer[i] == CoverSum(cs, slide, i, n + 1)
  {
    var nearestMatch := MatchScaled(cb, norm, window, seg);
    AddContribution(buffer, pos, nearestMatch, cs, slide, n);
  }
}

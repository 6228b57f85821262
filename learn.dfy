/**
 * learn.py: the keep-partial sliding_chunker, get_segments over a fixed
 * 481 offsets, and the reconstruction loop of main, which stops at the first
 * chunk that does not fit.
 */
module Learn {
  import opened Results
  import opened Segments
  import opened Codebooks
  import opened Reconstruction
  import Vectors

  /** WINDOW_LEN. */
  const WindowLen: nat := 32

  /** n_samples and step of get_segments. */
  const SampleCount: nat := 512
  const Step: nat := 2

  /** The number of segments get_segments cuts: the length of range(0, n_samples - WINDOW_LEN + 1). */
  const SegmentCount: nat := SampleCount - WindowLen + 1

  /** The shortest input for which every slice get_segments takes is whole: the last starts at 2 * 480. */
  const ShortestInput: nat := Step * (SegmentCount - 1) + WindowLen

  /**
   * sliding_chunker(data, window_len, slide_len): one copy of
   * data[pos:pos+window_len] for every pos in range(0, len(data), slide_len),
   * the trailing ones cut short by the end of the data.
   */
  method SlidingChunker(data: seq<real>, windowLen: nat, slideLen: int) returns (r: Result<seq<seq<real>>>)
    ensures r.Err? <==> slideLen == 0
    ensures r.Err? ==> r.error == ZeroStep
    ensures slideLen < 0 ==> r == Ok([])
    ensures slideLen > 0 ==> r == Ok(KeepChunks(data, windowLen, slideLen))
  {
    if slideLen == 0 {
      return Err(ZeroStep);
    }
    var chunks: seq<seq<real>> := [];
    if slideLen < 0 {
      // range(0, len, negative step) is empty
      return Ok(chunks);
    }
    var pos: nat := 0;
    ghost var k: nat := 0;
    while pos < |data|
      invariant pos == k * slideLen
      invariant chunks == KeepChunksBelow(data, windowLen, slideLen, k)
      decreases |data| - pos
    {
      KeepChunksStep(data, windowLen, slideLen, k);
      var chunk := SliceClamped(data, pos, pos + windowLen);
      chunks := chunks + [chunk];
      assert (k + 1) * slideLen == pos + slideLen;
      pos, k := pos + slideLen, k + 1;
    }
    KeepChunksStep(data, windowLen, slideLen, k);
    return Ok(chunks);
  }

  /**
   * get_segments(ekg_data, window): for sample_n in range(481) copies
   * ekg_data[2*sample_n : 2*sample_n+32], windows it and divides it by its
   * norm. A slice cut short by the end of the data cannot be multiplied in
   * place by the 32-sample window, and numpy raises.
   */
  method GetSegments(ekgData: seq<real>, window: seq<real>, norm: seq<real> -> real)
    returns (r: Result<seq<seq<real>>>)
    requires |window| == WindowLen && PositiveOn(norm, WindowLen)
    ensures r.Ok? <==> |ekgData| >= ShortestInput
    ensures r.Err? ==> r.error == ShapeMismatch
    ensures r.Ok? ==> |r.value| == SegmentCount
    ensures r.Ok? ==> forall k :: 0 <= k < SegmentCount ==>
              k * Step + WindowLen <= |ekgData| &&
              r.value[k] == NormalisedWindow(norm, window, ekgData[k * Step..k * Step + WindowLen])
  {
    var segments: seq<seq<real>> := [];
    for sampleN := 0 to SampleCount - WindowLen + 1
      invariant |segments| == sampleN
      invariant forall k :: 0 <= k < sampleN ==>
                  k * Step + WindowLen <= |ekgData| &&
                  segments[k] == NormalisedWindow(norm, window, ekgData[k * Step..k * Step + WindowLen])
    {
      var offset := sampleN * Step;
      var slice := SliceClamped(ekgData, offset, offset + WindowLen);
      if |slice| != WindowLen {
        return Err(ShapeMismatch);
      }
      assert slice == ekgData[offset..offset + WindowLen];
      var segment := Vectors.CopyOf(slice);
      Vectors.MultiplyBy(segment, window);
      var vectorLength := norm(segment[..]);
      Vectors.DivideBy(segment, vectorLength);
      segments := segments + [segment[..]];
    }
    assert (SegmentCount - 1) * Step + WindowLen <= |ekgData|;
    return Ok(segments);
  }

  /**
   * The reconstruction loop of main over the keep-partial chunks (lines
   * 69-86), with WINDOW_LEN passed in as windowLen: breaks at the first
   * chunk with pos + WINDOW_LEN > len(ekg_data), and otherwise adds the
   * rescaled match at pos = chunk_n * WINDOW_LEN / 2. The first fullCount
   * chunks are the ones that fit.
   */
  method AddMatchesUntilPartial(buffer: array<real>, cb: Codebook, norm: seq<real> -> real, window: seq<real>,
                                chunks: seq<seq<real>>, windowLen: nat, ghost fullCount: nat)
    requires |window| == windowLen && windowLen % 2 == 0 && Fits(cb, windowLen) && PositiveOn(norm, windowLen)
    requires fullCount <= |chunks|
    requires forall n :: 0 <= n < |chunks| ==> (n < fullCount <==> n * (windowLen / 2) + windowLen <= buffer.Length)
    requires forall n :: 0 <= n < fullCount ==> |chunks[n]| == windowLen
    requires forall i :: 0 <= i < buffer.Length ==> buffer[i] == 0.0
    modifies buffer
    ensures forall i :: 0 <= i < buffer.Length ==>
              buffer[i] == CoverSum(ScaledContributions(cb, norm, window, chunks[..fullCount]), windowLen / 2, i, fullCount)
  {
    ghost var whole := chunks[..fullCount];
    ghost var cs := ScaledContributions(cb, norm, window, whole);
    ghost var slide: nat := windowLen / 2;
    var chunkN := 0;
    while chunkN < |chunks|
      invariant chunkN <= fullCount
      invariant forall i :: 0 <= i < buffer.Length ==> buffer[i] == CoverSum(cs, slide, i, chunkN)
    {
      HalfProduct(chunkN, windowLen);
      var pos: nat := chunkN * windowLen / 2;
      if pos + windowLen > buffer.Length {
        break;
      }
      ScaledContributionsAt(cb, norm, window, whole, chunkN);
      AddScaledMatch(buffer, cb, norm, window, chunks[chunkN], pos, cs, slide, chunkN);
      chunkN := chunkN + 1;
    }
    assert chunkN == fullCount;
  }

  /** For an even w, n * w / 2 is n times w / 2. */
  lemma HalfProduct(n: nat, w: nat)
    requires w % 2 == 0
    ensures n * w / 2 == n * (w / 2) >= 0
  {
    var h := w / 2;
    assert n * w == 2 * (n * h);
  }

  /**
   * The reconstruction in main: a zero buffer of len(ekg_data), filled by
   * overlap-add of the rescaled matches of the whole 32-sample chunks at
   * stride 16.
   */
  method ReconstructEkg(ekgData: seq<real>, window: seq<real>, cb: Codebook, norm: seq<real> -> real)
    returns (reconstructed: seq<real>)
    requires |window| == WindowLen && Fits(cb, WindowLen) && PositiveOn(norm, WindowLen)
    ensures reconstructed == OverlapAdd(|ekgData|, WindowLen / 2,
                                        ScaledContributions(cb, norm, window, DropChunks(ekgData, WindowLen, WindowLen / 2)))
  {
    var buffer := new real[|ekgData|](_ => 0.0);
    var chunked := SlidingChunker(ekgData, WindowLen, WindowLen / 2);
    var chunks := chunked.value;
    ghost var full := DropChunks(ekgData, WindowLen, WindowLen / 2);
    KeepPrefixIsDrop(ekgData, WindowLen, WindowLen / 2);
    AddMatchesUntilPartial(buffer, cb, norm, window, chunks, WindowLen, |full|);
    BufferIsOverlapAdd(buffer[..], WindowLen / 2, ScaledContributions(cb, norm, window, full));
    reconstructed := buffer[..];
  }

  /**
   * The tail of the reconstruction in main: every sample at or after the
   * end of the last whole 32-sample chunk stays 0.
   */
  lemma ReconstructEkgTailIsZero(ekgData: seq<real>, window: seq<real>, cb: Codebook, norm: seq<real> -> real, i: nat)
    requires |window| == WindowLen && Fits(cb, WindowLen) && PositiveOn(norm, WindowLen)
    requires LastChunkEnd(|ekgData|, WindowLen, WindowLen / 2) <= i < |ekgData|
    ensures OverlapAdd(|ekgData|, WindowLen / 2,
                       ScaledContributions(cb, norm, window, DropChunks(ekgData, WindowLen, WindowLen / 2)))[i] == 0.0
  {
    var cs := ScaledContributions(cb, norm, window, DropChunks(ekgData, WindowLen, WindowLen / 2));
    TailIsZero(|ekgData|, WindowLen, WindowLen / 2, cs, i);
  }

  /**
   * On the 1000 samples main reads, 61 whole chunks contribute and the last
   * one ends at sample 992, so samples 992 to 999 of the reconstruction stay 0.
   */
  lemma MainInputChunks()
    ensures FullChunkCount(1000, WindowLen, WindowLen / 2) == 61
    ensures LastChunkEnd(1000, WindowLen, WindowLen / 2) == 992
  {
  }
}

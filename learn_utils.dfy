/**
 * learn_utils.py: reconstruct by overlap-add of the matched centroids,
 * unscaled. Its sliding_chunker is chunk_utils.py's, imported from ChunkUtils.
 */
module LearnUtils {
  import opened Results
  import opened Segments
  import opened Codebooks
  import opened Reconstruction
  import ChunkUtils

  /**
   * The loop of reconstruct (lines 59-67): for each segment in order, add
   * the centroid matched to it into the zero buffer at segment_n * slide_len.
   */
  method AddMatches(buffer: array<real>, cb: Codebook, window: seq<real>, segments: seq<seq<real>>, slideLen: nat)
    requires Fits(cb, |window|)
    requires forall n :: 0 <= n < |segments| ==> |segments[n]| == |window| && n * slideLen + |window| <= buffer.Length
    requires forall i :: 0 <= i < buffer.Length ==> buffer[i] == 0.0
    modifies buffer
    ensures forall i :: 0 <= i < buffer.Length ==>
              buffer[i] == CoverSum(PlainContributions(cb, window, segments), slideLen, i, |segments|)
  {
    ghost var cs := PlainContributions(cb, window, segments);
    var segmentN := 0;
    while segmentN < |segments|
      invariant segmentN <= |segments|
      invariant forall i :: 0 <= i < buffer.Length ==> buffer[i] == CoverSum(cs, slideLen, i, segmentN)
    {
      var nearestMatch := MatchPlain(cb, window, segments[segmentN]);
      MulMono(0, segmentN, slideLen);
      var pos: nat := segmentN * slideLen;
      AddContribution(buffer, pos, nearestMatch, cs, slideLen, segmentN);
      segmentN := segmentN + 1;
    }
  }

  /**
   * reconstruct(data, window, clusterer): re-chunks data with window length
   * len(window) and stride len(window)/2, windows each chunk, and adds the
   * centroid predicted for it into a zero buffer at segment_n * slide_len.
   * A window shorter than 2 makes the stride 0, and range() raises.
   */
  method Reconstruct(data: seq<real>, window: seq<real>, cb: Codebook) returns (r: Result<seq<real>>)
    requires Fits(cb, |window|)
    ensures r.Err? <==> |window| < 2
    ensures r.Err? ==> r.error == ZeroStep
    ensures r.Ok? ==> r.value == OverlapAdd(|data|, |window| / 2,
                                            PlainContributions(cb, window, DropChunks(data, |window|, |window| / 2)))
  {
    var windowLen := |window|;
    var slideLen := windowLen / 2;
    var chunked := ChunkUtils.SlidingChunker(data, windowLen, slideLen);
    if chunked.Err? {
      return Err(chunked.error);
    }
    var segments := chunked.value;
    DropChunksFit(data, windowLen, slideLen);
    var reconstructed := new real[|data|](_ => 0.0);
    AddMatches(reconstructed, cb, window, segments, slideLen);
    BufferIsOverlapAdd(reconstructed[..], slideLen, PlainContributions(cb, window, segments));
    return Ok(reconstructed[..]);
  }

  /**
   * The tail of reconstruct's output: every sample at or after the end of
   * the last whole chunk stays 0.
   */
  lemma ReconstructTailIsZero(data: seq<real>, window: seq<real>, cb: Codebook, i: nat)
    requires Fits(cb, |window|) && |window| >= 2
    requires LastChunkEnd(|data|, |window|, |window| / 2) <= i < |data|
    ensures OverlapAdd(|data|, |window| / 2, PlainContributions(cb, window, DropChunks(data, |window|, |window| / 2)))[i] == 0.0
  {
    var cs := PlainContributions(cb, window, DropChunks(data, |window|, |window| / 2));
    TailIsZero(|data|, |window|, |window| / 2, cs, i);
  }
}

/**
 * learn_influxdb.py: training segments normalised by their norm, and
 * reconstruct with a fixed chunk length of 16 and centroids rescaled by each
 * segment's norm. Its sliding_chunker is chunk_utils.py's, imported from ChunkUtils.
 */
module LearnInfluxdb {
  import opened Segments
  import opened Codebooks
  import opened Reconstruction
  import ChunkUtils
  import Vectors

  /** WINDOW_LEN: the chunk length reconstruct always uses. */
  const WindowLen: nat := 16

  /** The stride of the training segments. */
  const TrainingStep: nat := 2

  /**
   * get_windowed_segments(data, window): chunks data with window length
   * len(window) and stride 2, then windows and normalises each chunk in place.
   */
  method GetWindowedSegments(data: seq<real>, window: seq<real>, norm: seq<real> -> real)
    returns (windowedSegments: seq<seq<real>>)
    requires PositiveOn(norm, |window|)
    ensures windowedSegments == TrainingVectors(norm, window, DropChunks(data, |window|, TrainingStep))
  {
    var step := TrainingStep;
    windowedSegments := [];
    var chunked := ChunkUtils.SlidingChunker(data, |window|, step);
    var segments := chunked.value;
    ghost var vs := TrainingVectors(norm, window, segments);
    for n := 0 to |segments|
      invariant windowedSegments == vs[..n]
    {
      var segment := Vectors.CopyOf(segments[n]);
      Vectors.MultiplyBy(segment, window);
      var vectorLength := norm(segment[..]);
      Vectors.DivideBy(segment, vectorLength);
      windowedSegments := windowedSegments + [segment[..]];
    }
  }

  /**
   * The loop of reconstruct (lines 62-75): for each segment in order, add
   * its rescaled match into the zero buffer at segment_n * slide_len.
   */
  method AddMatches(buffer: array<real>, cb: Codebook, norm: seq<real> -> real, window: seq<real>,
                    segments: seq<seq<real>>, slideLen: nat)
    requires Fits(cb, |window|) && PositiveOn(norm, |window|)
    requires forall n :: 0 <= n < |segments| ==> |segments[n]| == |window| && n * slideLen + |window| <= buffer.Length
    requires forall i :: 0 <= i < buffer.Length ==> buffer[i] == 0.0
    modifies buffer
    ensures forall i :: 0 <= i < buffer.Length ==>
              buffer[i] == CoverSum(ScaledContributions(cb, norm, window, segments), slideLen, i, |segments|)
  {
    ghost var cs := ScaledContributions(cb, norm, window, segments);
    var segmentN := 0;
    while segmentN < |segments|
      invariant segmentN <= |segments|
      invariant forall i :: 0 <= i < buffer.Length ==> buffer[i] == CoverSum(cs, slideLen, i, segmentN)
    {
      MulMono(0, segmentN, slideLen);
      var pos: nat := segmentN * slideLen;
      ScaledContributionsAt(cb, norm, window, segments, segmentN);
      AddScaledMatch(buffer, cb, norm, window, segments[segmentN], pos, cs, slideLen, segmentN);
      segmentN := segmentN + 1;
    }
  }

  /**
   * reconstruct(data, window, clusterer): re-chunks data with the constant
   * chunk length WINDOW_LEN = 16 and stride 8, and adds each rescaled match
   * into a zero buffer at segment_n * 8.
   */
  method Reconstruct(data: seq<real>, window: seq<real>, cb: Codebook, norm: seq<real> -> real)
    returns (reconstructed: seq<real>)
    requires |window| == WindowLen
    requires Fits(cb, WindowLen) && PositiveOn(norm, WindowLen)
    ensures reconstructed == OverlapAdd(|data|, WindowLen / 2,
                                        ScaledContributions(cb, norm, window, DropChunks(data, WindowLen, WindowLen / 2)))
  {
    var slideLen := WindowLen / 2;
    var chunked := ChunkUtils.SlidingChunker(data, WindowLen, slideLen);
    var segments := chunked.value;
    DropChunksFit(data, WindowLen, slideLen);
    var buffer := new real[|data|](_ => 0.0);
    AddMatches(buffer, cb, norm, window, segments, slideLen);
    BufferIsOverlapAdd(buffer[..], slideLen, ScaledContributions(cb, norm, window, segments));
    reconstructed := buffer[..];
  }

  /**
   * get_windowed_segments returns (len(data) - len(window)) / 2 + 1
   * training vectors when the data holds at least one window, none
   * otherwise, and vector n, rescaled by its chunk's norm, is
   * data[2n : 2n + len(window)] windowed.
   */
  lemma WindowedSegmentsSpec(data: seq<real>, window: seq<real>, norm: seq<real> -> real)
    requires PositiveOn(norm, |window|)
    ensures var vs := TrainingVectors(norm, window, DropChunks(data, |window|, TrainingStep));
            && (|window| > |data| ==> vs == [])
            && (1 <= |window| <= |data| ==> |vs| == (|data| - |window|) / TrainingStep + 1)
            && forall n :: 0 <= n < |vs| ==>
                 n * TrainingStep + |window| <= |data| &&
                 Vectors.Scaled(vs[n], norm(Vectors.Windowed(data[n * TrainingStep..n * TrainingStep + |window|], window))) ==
                   Vectors.Windowed(data[n * TrainingStep..n * TrainingStep + |window|], window)
  {
    DropChunksCount(data, |window|, TrainingStep);
  }

  /**
   * The tail of reconstruct's output: every sample at or after the end of
   * the last whole 16-sample chunk stays 0.
   */
  lemma ReconstructTailIsZero(data: seq<real>, window: seq<real>, cb: Codebook, norm: seq<real> -> real, i: nat)
    requires |window| == WindowLen && Fits(cb, WindowLen) && PositiveOn(norm, WindowLen)
    requires LastChunkEnd(|data|, WindowLen, WindowLen / 2) <= i < |data|
    ensures OverlapAdd(|data|, WindowLen / 2,
                       ScaledContributions(cb, norm, window, DropChunks(data, WindowLen, WindowLen / 2)))[i] == 0.0
  {
    var cs := ScaledContributions(cb, norm, window, DropChunks(data, WindowLen, WindowLen / 2));
    TailIsZero(|data|, WindowLen, WindowLen / 2, cs, i);
  }
}

/** chunk_utils.py: the drop-partial sliding_chunker, shared verbatim by learn_utils.py and learn_influxdb.py. */
module ChunkUtils {
  import opened Results
  import opened Segments

  /**
   * sliding_chunker(data, window_len, slide_len): visits the offsets of
   * range(0, len(data), slide_len), copies data[pos:pos+window_len], and
   * skips every copy that is shorter than window_len.
   */
  method SlidingChunker(data: seq<real>, windowLen: nat, slideLen: int) returns (r: Result<seq<seq<real>>>)
    ensures r.Err? <==> slideLen == 0
    ensures r.Err? ==> r.error == ZeroStep
    ensures slideLen < 0 ==> r == Ok([])
    ensures slideLen > 0 ==> r == Ok(DropChunks(data, windowLen, slideLen))
  {
    if slideLen == 0 {
      return Err(ZeroStep);
    }
    var chunks: seq<seq<real>> := [];
    if slideLen < 0 {
      // range(0, len, negative step) is empty
      return Ok(chunks);
    }
    var pos: nat := 0;
    ghost var k: nat := 0;
    while pos < |data|
      invariant pos == k * slideLen
      invariant chunks == DropChunksBelow(data, windowLen, slideLen, k)
      decreases |data| - pos
    {
      DropChunksStep(data, windowLen, slideLen, k);
      var chunk := SliceClamped(data, pos, pos + windowLen);
      assert (k + 1) * slideLen == pos + slideLen;
      pos, k := pos + slideLen, k + 1;
      if |chunk| != windowLen {
        continue;
      }
      chunks := chunks + [chunk];
    }
    DropChunksStep(data, windowLen, slideLen, k);
    return Ok(chunks);
  }
}

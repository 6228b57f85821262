# Sliding-window segmentation and overlap-add reconstruction

This project models the signal-processing core that the EKG clustering
scripts share, and proves properties of that model in Dafny.

- **Segmentation: the drop-partial `sliding_chunker`.** It cuts a sequence
  into windows of `window_len` samples at stride `slide_len` and drops
  windows cut short by the end of the data. `chunk_utils.py`,
  `learn_utils.py` and `learn_influxdb.py` each carry a copy, and the three
  copies are identical.
- **Segmentation: the keep-partial `sliding_chunker` of `learn.py`.** It
  keeps the short trailing windows.
- **Training vectors.** `get_windowed_segments` (`learn_influxdb.py`) and
  `get_segments` (`learn.py`) window each segment with the window function
  and divide it by its norm.
- **Reconstruction.** This is `reconstruct` in `learn_utils.py` (plain
  centroids) and in `learn_influxdb.py` (centroids rescaled by the
  segment's norm), and the reconstruction loop in `main` of `learn.py`.
  Each allocates a zero buffer of `len(data)`, re-chunks the data at
  stride `window_len/2`, matches every whole chunk against the clusterer
  (`learn.py` stops at the first partial one), and adds the matched
  centroid in place at `segment_n * slide_len`.

The modules follow the scripts:

- `Segments` holds the index arithmetic and the reference definitions of
  what each segmenter returns (`DropChunks`, `KeepChunks`).
- `Vectors` holds the elementwise arithmetic and numpy's in-place updates,
  as array methods.
- `Codebooks` holds the clusterer as a centroid table plus an index
  oracle, and what each segment contributes to a reconstruction.
- `Reconstruction` holds the overlap-add definition.
  - `OverlapAdd`: output sample `i` is the sum of the contributions that
    cover `i`.
  - `AddInto`: the in-place buffer update.
- `ChunkUtils`, `LearnUtils`, `LearnInfluxdb` and `Learn` hold one
  imperative method per operation of the corresponding script. Each method
  is proved against the reference definitions.

The results used where the source raises are in `Results`. A zero stride
makes `range` raise `ValueError`, modelled as `ZeroStep`. A short slice
multiplied by the window makes numpy raise, modelled as `ShapeMismatch`.

## Model

| member | source | states |
|---|---|---|
| Segments.SliceClamped | chunk_utils.py:16 | a Python slice `data[lo:hi]` clamped to the data: its length is `min(hi, len) - lo`, or 0 when the slice is empty, and element j is `data[lo + j]` |
| Segments.OffsetCountSpec | chunk_utils.py:15 | offset `i * s` is one of `range(0, len, s)` exactly when `i < ceil(len / s)` |
| Segments.FullChunkCountSpec | chunk_utils.py:15-18 | index i is below the whole-chunk count exactly when offset `i * s` is visited and leaves room for `w` samples |
| Segments.DropChunks | chunk_utils.py:14-21 | the drop-partial result has one chunk per visited offset holding a whole window; every chunk has exactly `w` samples; chunk i lies inside the data and equals `data[i*s : i*s+w]`, so chunks come in increasing offset order |
| Segments.DropChunksFit | chunk_utils.py:16-19 | proof helper: restates the chunk-length and in-bounds clauses of `DropChunks` in the shape the loops use |
| Segments.DropChunksStep | chunk_utils.py:15-19 | visiting offset `k * s` appends the slice exactly when it is whole and appends nothing otherwise (shorter slices are skipped, never padded); once the offsets pass the end of the data, all chunks have been found |
| Segments.DropChunksCount | chunk_utils.py:15-19 | if `window_len > len(data)` the result is empty; if `1 <= window_len <= len(data)` it has `(len(data) - window_len) / slide_len + 1` chunks |
| Segments.KeepChunks | learn.py:46-50 | the keep-partial result has `ceil(len / s)` chunks; chunk i starts inside the data and equals `data[i*s : min(i*s+w, len)]` |
| Segments.KeepChunksStep | learn.py:47-49 | visiting offset `k * s` appends the (possibly short) slice; once the offsets pass the end of the data, all chunks have been found |
| Segments.FullChunksComeFirst | chunk_utils.py:15-18 | for a non-empty window, the visited offsets with room for a whole window come first: offset n holds one exactly when n is below the whole-chunk count |
| Segments.KeepPrefixIsDrop | learn.py:69-74 | the keep-partial chunks begin with exactly the drop-partial ones; chunk n has room for a whole window (`n*s + w <= len`) exactly when it is one of them; those have `w` samples and every later one is shorter |
| Segments.DropChunksExample | chunk_utils.py:11-12 | `sliding_chunker(range(6), 3, 2) == [[0,1,2],[2,3,4]]` |
| Segments.KeepChunksExample | learn.py:43-44 | `sliding_chunker(range(10), 3, 2)` is `[[0,1,2],[2,3,4],[4,5,6],[6,7,8],[8,9]]` |
| ChunkUtils.SlidingChunker | chunk_utils.py:4-21 | fails exactly when `slide_len == 0`, and then with `ZeroStep` (the `range` step error); returns no chunks for a negative stride; otherwise returns exactly `DropChunks(data, window_len, slide_len)` |
| Vectors.Windowed | learn_utils.py:62 | the windowed segment has the segment's length |
| Vectors.RescaleUndoesNormalise | learn_influxdb.py:66-72 | multiplying by the norm undoes dividing by it |
| Vectors.CopyOf | chunk_utils.py:16 | `np.copy`: a fresh array holding the values |
| Vectors.MultiplyBy | learn_utils.py:62 | `segment *= window` leaves the array holding the elementwise product of its old contents and the window |
| Vectors.ScaleBy | learn_influxdb.py:72 | `nearest_match *= vector_length` leaves every element multiplied by the factor |
| Vectors.DivideBy | learn_influxdb.py:49 | `segment /= vector_length` leaves every element divided by the norm |
| Codebooks.PlainContribution | learn_utils.py:62-64 | the centroid predicted for the windowed segment has the window's length |
| Codebooks.NormalisedWindow | learn_influxdb.py:45-49 | the normalised windowed segment has the window's length, and multiplied by the windowed segment's norm it gives back the windowed segment |
| Codebooks.ScaledContribution | learn_influxdb.py:65-72 | the rescaled centroid has the window's length |
| Codebooks.PlainContributions | learn_utils.py:59-64 | one contribution per segment, each of the window's length |
| Codebooks.TrainingVectors | learn_influxdb.py:44-50 | one training vector per segment, each of the window's length; vector n rescaled by its segment's norm is segment n windowed |
| Codebooks.ScaledContributions | learn_influxdb.py:62-72 | one rescaled contribution per segment, each of the window's length |
| Codebooks.ExactMatchReproduces | learn_influxdb.py:70-72 | when the predicted centroid equals the normalised windowed segment, rescaling it by the same norm gives back the windowed segment |
| Codebooks.MatchPlain | learn_utils.py:62-64 | windowing a copy and looking up the predicted centroid yields the plain contribution |
| Codebooks.MatchScaled | learn_influxdb.py:65-72 | windowing and normalising a copy, looking up the predicted centroid, and rescaling a copy of it yields the rescaled contribution |
| Reconstruction.OverlapAdd | learn_utils.py:58-69 | the reconstruction has exactly `len(data)` samples |
| Reconstruction.UncoveredIsZero | learn_utils.py:58-67 | a sample that no contribution covers keeps the buffer's initial 0 |
| Reconstruction.SingleCover | learn_utils.py:66-67 | a sample covered by exactly one contribution m holds that contribution's sample at relative index `i - m*slide` |
| Reconstruction.LastChunkEnd | learn_utils.py:57-58 | the end of the last whole chunk lies within the data |
| Reconstruction.TailIsZero | learn_utils.py:57-67 | with one window-length contribution per whole chunk, every sample at or after the end of the last whole chunk stays 0 |
| Reconstruction.HalfOverlapCovers | learn_influxdb.py:58-75 | at stride h with contributions of length 2h, the contribution at `k*h` covers sample `m*h + r` (r < h) exactly when k is m or m - 1 |
| Reconstruction.HalfOverlapSum | learn_influxdb.py:58-75 | at stride h with contributions of length 2h, the first n contributions sum at sample `m*h + r` to those of contributions m and m - 1 that are among them |
| Reconstruction.HalfOverlap | learn_influxdb.py:58-75 | at stride `window_len/2` on an even window, sample `m*h + r` is covered by contributions m and m - 1 (when they exist) and by no other, and equals `cs[m][r] + cs[m-1][h + r]` |
| Reconstruction.BufferIsOverlapAdd | learn_utils.py:58-69 | a buffer holding every sample's cover sum is the overlap-add |
| Reconstruction.AddInto | learn_utils.py:67 | `buf[pos:pos+len(v)] += v`: exactly the samples in `[pos, pos+len(v))` grow by v's corresponding sample, and the rest are unchanged |
| Reconstruction.AddContribution | learn_utils.py:66-67 | adding contribution n at `n*slide` extends every sample's sum from the first n contributions to the first n + 1 |
| Reconstruction.AddScaledMatch | learn_influxdb.py:65-75 | one step of a rescaling reconstruction loop: adds segment n's rescaled match at `n*slide` |
| LearnUtils.AddMatches | learn_utils.py:59-67 | after the loop, every sample of the zero buffer holds the sum of the plain contributions covering it, contribution n placed at `n*slide_len` |
| LearnUtils.Reconstruct | learn_utils.py:50-69 | fails exactly when `len(window) < 2` (stride `len(window)/2` is 0), and then with `ZeroStep`; otherwise the result is the overlap-add, over `len(data)` samples at stride `len(window)/2`, of the centroids matched to the whole chunks, chunk n placed at its own cut offset |
| LearnUtils.ReconstructTailIsZero | learn_utils.py:56-67 | in the plain reconstruction, every sample at or after the end of the last whole chunk (of length `len(window)`, stride `len(window)/2`) stays 0 |
| LearnInfluxdb.GetWindowedSegments | learn_influxdb.py:35-51 | the result is the training vectors of the stride-2, `len(window)`-long whole chunks of data, in order |
| LearnInfluxdb.WindowedSegmentsSpec | learn_influxdb.py:41-50 | there are `(len(data) - len(window)) / 2 + 1` training vectors when the data holds a window, none otherwise; vector n rescaled by its chunk's norm is `data[2n : 2n+len(window)]` windowed |
| LearnInfluxdb.AddMatches | learn_influxdb.py:62-75 | after the loop, every sample of the zero buffer holds the sum of the rescaled contributions covering it, contribution n placed at `n*slide_len` |
| LearnInfluxdb.Reconstruct | learn_influxdb.py:53-77 | the result is the overlap-add, over `len(data)` samples at stride 8, of the rescaled matches of the whole 16-sample chunks (chunk length `WINDOW_LEN`) |
| LearnInfluxdb.ReconstructTailIsZero | learn_influxdb.py:58-76 | in the rescaled reconstruction, every sample at or after the end of the last whole 16-sample chunk stays 0 |
| Learn.SlidingChunker | learn.py:38-50 | fails exactly when `slide_len == 0`, and then with `ZeroStep` (the `range` step error); returns no chunks for a negative stride; otherwise returns exactly `KeepChunks(data, window_len, slide_len)` |
| Learn.GetSegments | learn.py:16-36 | succeeds exactly when `len(ekg_data) >= 2*480 + 32 = 992`, and otherwise fails with a shape mismatch; on success it returns 481 segments, segment k being `ekg_data[2k : 2k+32]` windowed and normalised |
| Learn.HalfProduct | learn.py:72 | `chunk_n*WINDOW_LEN/2`, evaluated left to right, equals `chunk_n * (WINDOW_LEN/2)` for an even window length |
| Learn.AddMatchesUntilPartial | learn.py:69-86 | the loop stops at the first chunk with `pos + WINDOW_LEN > len(ekg_data)`, and every sample then holds the sum of the rescaled matches of exactly the whole chunks before it, chunk n placed at `n*16` |
| Learn.ReconstructEkg | learn.py:67-86 | the reconstruction is the overlap-add, over `len(ekg_data)` samples at stride 16, of the rescaled matches of the whole 32-sample chunks; no partial chunk contributes |
| Learn.ReconstructEkgTailIsZero | learn.py:67-86 | in the EKG reconstruction, every sample at or after the end of the last whole 32-sample chunk stays 0 |
| Learn.MainInputChunks | learn.py:55-72 | on the 1000 samples `main` keeps, 61 whole chunks contribute and the last ends at sample 992, so samples 992-999 stay 0 |

## Left out

- File reading and 16-bit sample decoding are file I/O and a library call. `trace.py` and `ekg_data.py` are not part of this model.
- The InfluxDB query and the main-script data extraction (`learn_influxdb.py:79-104`) talk to a network client.
- Plotting is UI. This covers `plot_chunks` (`chunk_utils.py:23-42`), `plot_waves` (`learn_utils.py:29-48`) and every `plt` call in the `main` functions.
- KMeans training and `predict` are foreign library code. The clusterer is a given centroid table plus an index oracle (`Codebook.nearest`). `Fits` requires every centroid to have the window's length and every prediction to index the table.
- The `sin²` window is transcendental floating point. The window is a given sequence.
- `np.linalg.norm` is a square root over floats. The norm is a given function, not computed.
- Floating point is not modelled: all samples are reals, arithmetic is exact, and there is no dtype.
- LearnInfluxdb.GetWindowedSegments: requires the norm to be positive on window-length vectors. A zero norm makes the source divide by zero and produce NaN, and that case is not modelled. With an empty window this also requires `norm([]) > 0`, which `np.linalg.norm` does not satisfy.
- LearnInfluxdb.Reconstruct: requires a positive norm, for the same reason. It also requires `len(window) == WINDOW_LEN`: with any other length numpy's in-place broadcast fails or broadcasts, and neither case is modelled.
- Learn.GetSegments: requires a positive norm and `len(window) == WINDOW_LEN`, for the same reasons.
- Learn.ReconstructEkg: requires a positive norm and `len(window) == WINDOW_LEN`, for the same reasons.
- Learn.AddMatchesUntilPartial: takes `WINDOW_LEN` as the parameter `windowLen` (even) instead of reading the module constant; `Learn.ReconstructEkg` passes the constant.
- LearnUtils.Reconstruct: requires every centroid to have the window's length. With other lengths the slice `+=` fails or broadcasts, and that is not modelled.
- Codebooks.PositiveOn: asks for a positive norm on every window-length vector, which no real norm meets at the zero vector. The results depend on the norm only at the windowed chunks the loops visit, so what is left out is exactly the case where a visited windowed chunk has norm 0 (the source then divides by zero).
- `/` in `window_len/2` (`learn_utils.py:56`), `WINDOW_LEN/2` (`learn_influxdb.py:58`, `learn.py:70,72`) is read as Python 2 integer division on non-negative operands. Under Python 3 these are floats, and `range` and slicing then raise `TypeError`; that reading is not modelled.
- `window_len` is a natural number. A negative window length is not modelled. `slide_len` is any integer: a negative stride gives an empty `range`, which is modelled.
- The data is a value (a sequence), so the input being left unchanged holds by construction. Each segment is copied into a fresh array before it is modified in place (`Vectors.CopyOf`).
- The three identical drop-partial `sliding_chunker`s (`chunk_utils.py:4-21`, `learn_utils.py:10-27`, `learn_influxdb.py:16-33`) are modelled once, as `ChunkUtils.SlidingChunker`, which `LearnUtils` and `LearnInfluxdb` call.
- The `main` script plumbing (the printed reconstruction error, the `[0:1000]` cut, the train/test split) is not modelled.

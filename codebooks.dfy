/**
 * The trained clusterer as the reconstruction sees it: a table of centroid
 * vectors (`cluster_centers_`) and an index oracle (`predict`), together with
 * an abstract vector norm. What a segment contributes to the reconstruction
 * is defined here once for the two variants of the scripts.
 */
module Codebooks {
  import opened Vectors

  /** Centroid table and the index that `predict` returns for a vector. */
  datatype Codebook = Codebook(centers: seq<seq<real>>, nearest: seq<real> -> nat)

  /** Every centroid has the window's length, and every prediction for such a vector indexes the table. */
  ghost predicate Fits(cb: Codebook, w: nat)
  {
    && (forall k :: 0 <= k < |cb.centers| ==> |cb.centers[k]| == w)
    && (forall v: seq<real> :: |v| == w ==> cb.nearest(v) < |cb.centers|)
  }

  /** The norm is positive on every vector of length w (so dividing by it is defined). */
  ghost predicate PositiveOn(norm: seq<real> -> real, w: nat)
  {
    forall v: seq<real> :: |v| == w ==> norm(v) > 0.0
  }

  /** The centroid matched to the windowed segment, unscaled. */
  function PlainContribution(cb: Codebook, window: seq<real>, seg: seq<real>): (r: seq<real>)
    requires Fits(cb, |window|) && |seg| == |window|
    ensures |r| == |window|
  {
    cb.centers[cb.nearest(Windowed(seg, window))]
  }

  /**
   * The segment windowed and then divided by the windowed segment's norm:
   * the training vector, and the vector whose match the reconstruction looks up.
   */
  function NormalisedWindow(norm: seq<real> -> real, window: seq<real>, seg: seq<real>): (r: seq<real>)
    requires PositiveOn(norm, |window|) && |seg| == |window|
    ensures |r| == |window|
    ensures Scaled(r, norm(Windowed(seg, window))) == Windowed(seg, window)
  {
    var x := Windowed(seg, window);
    RescaleUndoesNormalise(x, norm(x));
    Normalised(x, norm(x))
  }

  /** The centroid matched to the normalised windowed segment, rescaled by the windowed segment's norm. */
  function ScaledContribution(cb: Codebook, norm: seq<real> -> real, window: seq<real>, seg: seq<real>): (r: seq<real>)
    requires Fits(cb, |window|) && PositiveOn(norm, |window|) && |seg| == |window|
    ensures |r| == |window|
  {
    Scaled(cb.centers[cb.nearest(NormalisedWindow(norm, window, seg))], norm(Windowed(seg, window)))
  }

  /** One plain contribution per segment, in segment order. */
  function PlainContributions(cb: Codebook, window: seq<real>, segs: seq<seq<real>>): (r: seq<seq<real>>)
    requires Fits(cb, |window|)
    requires forall n :: 0 <= n < |segs| ==> |segs[n]| == |window|
    ensures |r| == |segs|
    ensures forall n :: 0 <= n < |r| ==> |r[n]| == |window|
  {
    seq(|segs|, n requires 0 <= n < |segs| => PlainContribution(cb, window, segs[n]))
  }

  /**
   * One training vector per segment, in segment order: rescaled by its
   * segment's norm, training vector n is segment n windowed.
   */
  function TrainingVectors(norm: seq<real> -> real, window: seq<real>, segs: seq<seq<real>>): (r: seq<seq<real>>)
    requires PositiveOn(norm, |window|)
    requires forall n :: 0 <= n < |segs| ==> |segs[n]| == |window|
    ensures |r| == |segs|
    ensures forall n :: 0 <= n < |r| ==> |r[n]| == |window|
    ensures forall n :: 0 <= n < |r| ==> Scaled(r[n], norm(Windowed(segs[n], window))) == Windowed(segs[n], window)
  {
    seq(|segs|, n requires 0 <= n < |segs| => NormalisedWindow(norm, window, segs[n]))
  }

  /** One rescaled contribution per segment, in segment order. */
  function ScaledContributions(cb: Codebook, norm: seq<real> -> real, window: seq<real>, segs: seq<seq<real>>)
    : (r: seq<seq<real>>)
    requires Fits(cb, |window|) && PositiveOn(norm, |window|)
    requires forall n :: 0 <= n < |segs| ==> |segs[n]| == |window|
    ensures |r| == |segs|
    ensures forall n :: 0 <= n < |r| ==> |r[n]| == |window|
  {
    seq(|segs|, n requires 0 <= n < |segs| => ScaledContribution(cb, norm, window, segs[n]))
  }

  /** Element n of the rescaled contributions is segment n's rescaled match. */
  lemma ScaledContributionsAt(cb: Codebook, norm: seq<real> -> real, window: seq<real>, segs: seq<seq<real>>, n: nat)
    requires Fits(cb, |window|) && PositiveOn(norm, |window|)
    requires forall m :: 0 <= m < |segs| ==> |segs[m]| == |window|
    requires n < |segs|
    ensures ScaledContributions(cb, norm, window, segs)[n] == ScaledContribution(cb, norm, window, segs[n])
  {
  }

  /**
   * Exact match: when the clusterer returns a centroid equal to the
   * normalised windowed segment, the rescaled contribution is the windowed
   * segment itself.
   */
  lemma ExactMatchReproduces(cb: Codebook, norm: seq<real> -> real, window: seq<real>, seg: seq<real>)
    requires Fits(cb, |window|) && PositiveOn(norm, |window|) && |seg| == |window|
    requires cb.centers[cb.nearest(NormalisedWindow(norm, window, seg))] == NormalisedWindow(norm, window, seg)
    ensures ScaledContribution(cb, norm, window, seg) == Windowed(seg, window)
  {
  }

  /**
   * Match one segment without rescaling (learn_utils.py): window a copy of
   * the segment in place and look up the centroid predicted for it.
   */
  method MatchPlain(cb: Codebook, window: seq<real>, seg: seq<real>) returns (nearestMatch: seq<real>)
    requires Fits(cb, |window|) && |seg| == |window|
    ensures nearestMatch == PlainContribution(cb, window, seg)
  {
    var segment := CopyOf(seg);
    MultiplyBy(segment, window);
    var nearestMatchIdx := cb.nearest(segment[..]);
    nearestMatch := cb.centers[nearestMatchIdx];
  }

  /**
   * Match one segment with rescaling (learn_influxdb.py, learn.py): window
   * and normalise a copy of the segment in place, look up the centroid
   * predicted for it, and rescale a copy of that centroid by the norm.
   */
  method MatchScaled(cb: Codebook, norm: seq<real> -> real, window: seq<real>, seg: seq<real>)
    returns (nearestMatch: seq<real>)
    requires Fits(cb, |window|) && PositiveOn(norm, |window|) && |seg| == |window|
    ensures nearestMatch == ScaledContribution(cb, norm, window, seg)
  {
    var segment := CopyOf(seg);
    MultiplyBy(segment, window);
    var vectorLength := norm(segment[..]);
    DivideBy(segment, vectorLength);
    var nearestMatchIdx := cb.nearest(segment[..]);
    var matched := CopyOf(cb.centers[nearestMatchIdx]);
    ScaleBy(matched, vectorLength);
    nearestMatch := matched[..];
  }
}

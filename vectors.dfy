/**
 * Elementwise arithmetic on segments: windowing, scaling and normalising by a
 * magnitude, as values and as the in-place numpy updates
 * (`segment *= window`, `segment /= length`, `match *= length`).
 */
module Vectors {

  /** The segment multiplied elementwise by the window. */
  function Windowed(v: seq<real>, window: seq<real>): (r: seq<real>)
    requires |v| == |window|
    ensures |r| == |v|
  {
    seq(|v|, i requires 0 <= i < |v| => v[i] * window[i])
  }

  /** Every element multiplied by f. */
  function Scaled(v: seq<real>, f: real): (r: seq<real>)
    ensures |r| == |v|
  {
    seq(|v|, i requires 0 <= i < |v| => v[i] * f)
  }

  /** Every element divided by the magnitude m. */
  function Normalised(v: seq<real>, m: real): (r: seq<real>)
    requires m != 0.0
    ensures |r| == |v|
  {
    seq(|v|, i requires 0 <= i < |v| => v[i] / m)
  }

  /** Rescaling by the magnitude undoes normalising by it. */
  lemma RescaleUndoesNormalise(v: seq<real>, m: real)
    requires m != 0.0
    ensures Scaled(Normalised(v, m), m) == v
  {
    forall i | 0 <= i < |v|
      ensures Scaled(Normalised(v, m), m)[i] == v[i]
    {
      assert v[i] / m * m == v[i];
    }
  }

  /** np.copy: a fresh array holding v. */
  method CopyOf(v: seq<real>) returns (a: array<real>)
    ensures fresh(a) && a[..] == v
  {
    a := new real[|v|](i requires 0 <= i < |v| => v[i]);
  }

  /** `a *= window` on a numpy array of the window's length. */
  method MultiplyBy(a: array<real>, window: seq<real>)
    requires a.Length == |window|
    modifies a
    ensures a[..] == Windowed(old(a[..]), window)
  {
    for i := 0 to a.Length
      invariant forall j :: 0 <= j < i ==> a[j] == old(a[j]) * window[j]
      invariant forall j :: i <= j < a.Length ==> a[j] == old(a[j])
    {
      a[i] := a[i] * window[i];
    }
    assert forall j :: 0 <= j < a.Length ==> a[..][j] == Windowed(old(a[..]), window)[j];
  }

  /** `a *= f` for a scalar f. */
  method ScaleBy(a: array<real>, f: real)
    modifies a
    ensures a[..] == Scaled(old(a[..]), f)
  {
    for i := 0 to a.Length
      invariant forall j :: 0 <= j < i ==> a[j] == old(a[j]) * f
      invariant forall j :: i <= j < a.Length ==> a[j] == old(a[j])
    {
      a[i] := a[i] * f;
    }
    assert forall j :: 0 <= j < a.Length ==> a[..][j] == Scaled(old(a[..]), f)[j];
  }

  /** `a /= m` for a non-zero scalar m. */
  method DivideBy(a: array<real>, m: real)
    requires m != 0.0
    modifies a
    ensures a[..] == Normalised(old(a[..]), m)
  {
    for i := 0 to a.Length
      invariant forall j :: 0 <= j < i ==> a[j] == old(a[j]) / m
      invariant forall j :: i <= j < a.Length ==> a[j] == old(a[j])
    {
      a[i] := a[i] / m;
    }
  }
}

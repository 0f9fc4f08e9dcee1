/** The 16-bit FIR filter of the echo canceller, with its circular history and with the
    doubled history that the DSP builds read as one contiguous stretch. */
module Fir {
  import opened Words

  // ---- Specification: the last taps samples, newest first ------------------------

  type Window = seq<int>

  function Silence(n: nat): (w: Window)
    ensures |w| == n && forall i :: 0 <= i < n ==> w[i] == 0
  {
    if n == 0 then [] else Silence(n - 1) + [0]
  }

  function Shift(w: Window, sample: int): (r: Window)
    requires w != []
    ensures |r| == |w|
  {
    [sample] + w[..|w| - 1]
  }

  /** Sum of c[i] * w[i] for i >= k. */
  function DotFrom(c: seq<int>, w: Window, k: nat): int
    requires |c| == |w|
    decreases |c| - k
  {
    if k >= |c| then 0 else DotFrom(c, w, k + 1) + c[k] * w[k]
  }

  /** y >> 15, returned as int16_t. */
  function Scaled(y: int): (r: int)
    ensures -32768 <= r <= 32767
  {
    Wrap16(y / 0x8000)
  }

  /** The filter's output: the accumulator is int32_t and the result int16_t. */
  function FirValue(c: seq<int>, w: Window): (r: int)
    requires |c| == |w|
    ensures -32768 <= r <= 32767
  {
    Scaled(Wrap32(DotFrom(c, w, 0)))
  }

  /** The window after a stream of samples since create or flush. */
  function WindowAfter(taps: nat, stream: seq<int>): (w: Window)
    requires taps > 0
    ensures |w| == taps
  {
    if stream == [] then Silence(taps) else Shift(WindowAfter(taps, stream[..|stream| - 1]), stream[|stream| - 1])
  }

  /** Entry i is the sample from i steps ago, zero before the stream began. */
  lemma {:induction false} WindowHoldsLastSamples(taps: nat, stream: seq<int>, i: nat)
    requires i < taps
    ensures WindowAfter(taps, stream)[i] == if i < |stream| then stream[|stream| - 1 - i] else 0
    decreases |stream|
  {
    if stream != [] {
      var init := stream[..|stream| - 1];
      assert WindowAfter(taps, stream) == Shift(WindowAfter(taps, init), stream[|stream| - 1]);
      hide WindowAfter, Silence;
      if i > 0 {
        WindowHoldsLastSamples(taps, init, i - 1);
      }
    }
  }

  /** The convolution sum: coefficients from k on against the stream, latest sample first. */
  function ConvolutionFrom(c: seq<int>, stream: seq<int>, k: nat): int
    decreases |c| - k
  {
    if k >= |c| then 0
    else ConvolutionFrom(c, stream, k + 1) + if k < |stream| then c[k] * stream[|stream| - 1 - k] else 0
  }

  /** For every stream the filter sums the convolution of the coefficients with it. */
  lemma {:induction false} DotIsConvolution(c: seq<int>, stream: seq<int>, k: nat)
    requires c != []
    ensures DotFrom(c, WindowAfter(|c|, stream), k) == ConvolutionFrom(c, stream, k)
    decreases |c| - k
  {
    if k < |c| {
      DotIsConvolution(c, stream, k + 1);
      WindowHoldsLastSamples(|c|, stream, k);
    }
  }

  /** While the sum is below 2^30 in magnitude, the filter's output is its floor in units of
      2^15. */
  lemma OutputIsConvolution(c: seq<int>, stream: seq<int>)
    requires c != [] && -0x4000_0000 <= ConvolutionFrom(c, stream, 0) < 0x4000_0000
    ensures var r := FirValue(c, WindowAfter(|c|, stream));
            32768 * r <= ConvolutionFrom(c, stream, 0) < 32768 * (r + 1)
  {
    DotIsConvolution(c, stream, 0);
  }

  lemma {:induction false} ZeroDot(c: seq<int>, w: Window, k: nat)
    requires |c| == |w| && forall i :: 0 <= i < |c| ==> c[i] == 0
    ensures DotFrom(c, w, k) == 0
    decreases |c| - k
  {
    if k < |c| {
      ZeroDot(c, w, k + 1);
      assert 0 * w[k] == 0;
    }
  }

  /** Without coefficients nothing comes out. */
  lemma ZeroTaps(c: seq<int>, w: Window)
    requires |c| == |w| && forall i :: 0 <= i < |c| ==> c[i] == 0
    ensures FirValue(c, w) == 0
  {
    ZeroDot(c, w, 0);
  }

  // ---- Circular histories --------------------------------------------------------

  /** Index k places after pos in a ring of n. */
  function At(n: nat, pos: nat, k: nat): (r: nat)
    requires pos < n && k <= n
    ensures r < n
  {
    if pos + k < n then pos + k else pos + k - n
  }

  function Back(n: nat, pos: nat): (r: nat)
    requires pos < n
    ensures r < n
  {
    if pos == 0 then n - 1 else pos - 1
  }

  /** The window read from the slot after the one to be written next. */
  ghost predicate Holds(history: seq<int>, pos: nat, w: Window) {
    && |history| == |w| && pos < |w|
    && forall i: nat :: i < |w| ==> w[i] == history[At(|w|, pos, i + 1)]
  }

  lemma HoldsAfterWrite(history: seq<int>, pos: nat, w: Window, sample: int)
    requires Holds(history, pos, w)
    ensures forall i: nat :: i < |w| ==> Shift(w, sample)[i] == history[pos := sample][At(|w|, pos, i)]
    ensures Holds(history[pos := sample], Back(|w|, pos), Shift(w, sample))
  {
    var n, w' := |w|, Shift(w, sample);
    forall i: nat | i < n ensures w'[i] == history[pos := sample][At(n, pos, i)] {
      if i > 0 {
        assert w'[i] == w[i - 1] == history[At(n, pos, i)];
      }
    }
    forall i: nat | i < n ensures At(n, Back(n, pos), i + 1) == At(n, pos, i) {}
  }

  lemma DotStep(c: seq<int>, w: Window, i: nat, y: int)
    requires |c| == |w| && i < |c| && y == Wrap32(DotFrom(c, w, i + 1))
    ensures Wrap32(y + c[i] * w[i]) == Wrap32(DotFrom(c, w, i))
  {
    Wrap32Add(DotFrom(c, w, i + 1), c[i] * w[i]);
  }

  /** The two loops of the portable form: the part of the window past the end of the
      array first, then the part before it. */
  method DotCircular(coeffs: array<int>, history: array<int>, pos: nat, ghost w: Window) returns (y: int)
    requires coeffs.Length == history.Length == |w| && pos < |w|
    requires forall i: nat :: i < |w| ==> w[i] == history[At(|w|, pos, i)]
    ensures y == Wrap32(DotFrom(coeffs[..], w, 0))
  {
    var taps, offset2 := coeffs.Length, pos;
    var offset1 := taps - offset2;
    y := 0;
    var i := taps - 1;
    while i >= offset1
      invariant offset1 - 1 <= i < taps
      invariant y == Wrap32(DotFrom(coeffs[..], w, i + 1))
    {
      assert w[i] == history[At(taps, pos, i)];
      DotStep(coeffs[..], w, i, y);
      y := Wrap32(y + coeffs[i] * history[i - offset1]);
      i := i - 1;
    }
    while i >= 0
      invariant -1 <= i < offset1
      invariant y == Wrap32(DotFrom(coeffs[..], w, i + 1))
    {
      assert w[i] == history[At(taps, pos, i)];
      DotStep(coeffs[..], w, i, y);
      y := Wrap32(y + coeffs[i] * history[i + offset2]);
      i := i - 1;
    }
  }

  /** The dot product of the DSP builds over one contiguous stretch. */
  method DotLinear(coeffs: array<int>, history: array<int>, pos: nat, ghost w: Window) returns (y: int)
    requires coeffs.Length == |w| && pos + |w| <= history.Length
    requires history[pos..pos + |w|] == w
    ensures y == Wrap32(DotFrom(coeffs[..], w, 0))
  {
    y := 0;
    var i := coeffs.Length - 1;
    while i >= 0
      invariant -1 <= i < coeffs.Length
      invariant y == Wrap32(DotFrom(coeffs[..], w, i + 1))
    {
      assert history[pos..pos + |w|][i] == history[pos + i];
      DotStep(coeffs[..], w, i, y);
      y := Wrap32(y + coeffs[i] * history[pos + i]);
      i := i - 1;
    }
  }

  class CircularFir {
    const taps: nat
    const history: array<int>
    var currPos: nat
    ghost var window: Window

    ghost predicate Valid()
      reads this, history
    {
      |window| == taps && Holds(history[..], currPos, window)
    }

    /** fir16_create. */
    constructor (taps: nat)
      requires taps > 0
      ensures Valid() && this.taps == taps && currPos == taps - 1 && window == Silence(taps) && fresh(history)
    {
      this.taps := taps;
      history := new int[taps](_ => 0);
      currPos := taps - 1;
      window := Silence(taps);
    }

    /** fir16_flush followed by the curr_pos assignment of oslec_flush. */
    method Flush()
      requires Valid()
      modifies this`currPos, this`window, history
      ensures Valid() && currPos == taps - 1 && window == Silence(taps)
    {
      forall i | 0 <= i < history.Length {
        history[i] := 0;
      }
      currPos := taps - 1;
      window := Silence(taps);
    }

    /** fir16, portable form: two runs over the circular history, from the last tap down. */
    method Filter(coeffs: array<int>, sample: int) returns (r: int)
      requires Valid() && coeffs.Length == taps && coeffs != history
      modifies this`currPos, this`window, history
      ensures Valid()
      ensures window == Shift(old(window), sample) && r == FirValue(coeffs[..], window)
      ensures currPos == Back(taps, old(currPos)) && history[..] == old(history[..])[old(currPos) := sample]
    {
      HoldsAfterWrite(history[..], currPos, window, sample);
      ghost var before, pos, w := history[..], currPos, Shift(window, sample);
      history[currPos] := sample;
      assert history[..] == before[pos := sample];
      assert forall i: nat :: i < taps ==> w[i] == history[At(taps, pos, i)];
      window := w;
      var y := DotCircular(coeffs, history, currPos, window);
      if currPos <= 0 {
        currPos := taps;
      }
      currPos := currPos - 1;
      assert currPos == Back(taps, pos);
      r := Scaled(y);
    }
  }

  ghost predicate Doubled(history: seq<int>, n: nat) {
    |history| == 2 * n && history[..n] == history[n..]
  }

  lemma DoubledAfterWrite(history: seq<int>, n: nat, pos: nat, w: Window, sample: int)
    requires Doubled(history, n) && |w| == n && Holds(history[..n], pos, w)
    ensures var h := history[pos := sample][pos + n := sample];
            && Doubled(h, n) && Holds(h[..n], Back(n, pos), Shift(w, sample))
            && h[pos..pos + n] == Shift(w, sample)
  {
    HoldsAfterWrite(history[..n], pos, w, sample);
    var h := history[pos := sample][pos + n := sample];
    assert h[..n] == history[..n][pos := sample];
    assert h[n..] == history[n..][pos := sample];
    forall i: nat | i < n ensures h[pos + i] == h[..n][At(n, pos, i)] {
      if pos + i >= n {
        assert h[n..][pos + i - n] == h[pos + i];
      }
    }
  }

  class LinearFir {
    const taps: nat
    const history: array<int>
    var currPos: nat
    ghost var window: Window

    /** Both halves of the doubled history are the circular history. */
    ghost predicate Valid()
      reads this, history
    {
      |window| == taps && Doubled(history[..], taps) && Holds(history[..taps], currPos, window)
    }

    constructor (taps: nat)
      requires taps > 0
      ensures Valid() && this.taps == taps && currPos == taps - 1 && window == Silence(taps) && fresh(history)
    {
      this.taps := taps;
      history := new int[2 * taps](_ => 0);
      currPos := taps - 1;
      window := Silence(taps);
    }

    /** fir16, DSP form: the sample is stored twice so that one straight dot product over
        history[curr_pos .. curr_pos + taps] replaces the two runs. */
    method Filter(coeffs: array<int>, sample: int) returns (r: int)
      requires Valid() && coeffs.Length == taps && coeffs != history
      modifies this`currPos, this`window, history
      ensures Valid()
      ensures window == Shift(old(window), sample) && r == FirValue(coeffs[..], window)
      ensures currPos == Back(taps, old(currPos))
      ensures history[old(currPos)..old(currPos) + taps] == window
    {
      DoubledAfterWrite(history[..], taps, currPos, window, sample);
      ghost var before, pos := history[..], currPos;
      history[currPos] := sample;
      history[currPos + taps] := sample;
      assert history[..] == before[pos := sample][pos + taps := sample];
      window := Shift(window, sample);
      var y := DotLinear(coeffs, history, currPos, window);
      if currPos <= 0 {
        currPos := taps;
      }
      currPos := currPos - 1;
      assert currPos == Back(taps, pos);
      r := Scaled(y);
    }
  }
}

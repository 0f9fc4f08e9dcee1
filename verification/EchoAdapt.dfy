/** lms_adapt_bg in both builds: the tap corrections over the circular history and over the
    doubled one. Both change the taps in place, and both compute AdaptAll. */
module EchoAdapt {
  import opened Words
  import opened Fir
  import opened EchoSpec

  /** shift > 0 scales up, otherwise down. */
  method FactorOf(clean: int, shift: int) returns (factor: int)
    ensures factor == Factor(clean, shift)
  {
    if shift > 0 {
      factor := Wrap32(clean * Pow2(shift % 32));
    } else {
      factor := clean / Pow2((0 - shift) % 32);
    }
  }

  /** Taps from k on are corrected, the others are as they were. */
  ghost predicate AdaptedFrom(taps: seq<int>, before: seq<int>, w: Window, factor: int, k: int)
    requires |taps| == |before| == |w|
  {
    forall i :: 0 <= i < |taps| ==> taps[i] == if i >= k then Adapted(before[i], w[i], factor) else before[i]
  }

  lemma AdaptedAll(taps: seq<int>, before: seq<int>, w: Window, factor: int)
    requires |taps| == |before| == |w| && AdaptedFrom(taps, before, w, factor, 0)
    ensures taps == AdaptAll(before, w, factor)
  {}

  /** The portable build: two loops from the last tap down, reading the circular history
      whose newest sample is at pos. */
  method AdaptCircular(taps: array<int>, history: array<int>, pos: nat, factor: int, ghost w: Window)
    requires taps != history && taps.Length == history.Length == |w| && pos < |w|
    requires forall i: nat :: i < |w| ==> w[i] == history[At(|w|, pos, i)]
    modifies taps
    ensures taps[..] == AdaptAll(old(taps[..]), w, factor)
  {
    ghost var before := taps[..];
    var offset2 := pos;
    var offset1 := taps.Length - offset2;
    var i := taps.Length - 1;
    while i >= offset1
      invariant offset1 - 1 <= i < taps.Length
      invariant AdaptedFrom(taps[..], before, w, factor, i + 1)
    {
      assert w[i] == history[At(|w|, pos, i)];
      taps[i] := Adapted(taps[i], history[i - offset1], factor);
      i := i - 1;
    }
    while i >= 0
      invariant -1 <= i < offset1
      invariant AdaptedFrom(taps[..], before, w, factor, i + 1)
    {
      assert w[i] == history[At(|w|, pos, i)];
      taps[i] := Adapted(taps[i], history[i + offset2], factor);
      i := i - 1;
    }
    AdaptedAll(taps[..], before, w, factor);
  }

  /** The DSP build: one loop upwards over the contiguous stretch from pos on. */
  method AdaptLinear(taps: array<int>, history: array<int>, pos: nat, factor: int, ghost w: Window)
    requires taps != history && taps.Length == |w| && pos + |w| <= history.Length
    requires history[pos..pos + |w|] == w
    modifies taps
    ensures taps[..] == AdaptAll(old(taps[..]), w, factor)
  {
    for i := 0 to taps.Length
      invariant forall j :: 0 <= j < i ==> taps[j] == Adapted(old(taps[j]), w[j], factor)
      invariant forall j :: i <= j < taps.Length ==> taps[j] == old(taps[j])
    {
      assert history[pos..pos + |w|][i] == history[pos + i];
      taps[i] := Adapted(taps[i], history[pos + i], factor);
    }
    AdaptedAll(taps[..], old(taps[..]), w, factor);
  }
}

/** The running power of the filter states over whole runs: how long it is right. */
module EchoPower {
  import opened Words
  import opened TopBit
  import opened Fir
  import opened EchoStages
  import opened EchoSpec
  import opened EchoRuns

  const PEAK: nat := 0x1000_0000   // the square of the loudest halved sample

  /** The loudest sample's share of the mean square. */
  function Share(k: nat): (q: nat) {
    if Pow2(k) > PEAK then 0 else PEAK / Pow2(k)
  }

  /** What a window of the loudest samples adds to Pstates beyond its drift. */
  function Headroom(taps: nat): nat
    requires taps > 0
  {
    taps * Share(FloorLog2(taps))
  }

  lemma PowersAround28()
    ensures Pow2(28) == PEAK && Pow2(29) == 2 * PEAK
  {
    Pow2Add(14, 14);
    assert Pow2(14) == 16384;
  }

  /** Up to 2^28 the share is exact, beyond it is nothing. */
  lemma ShareIs(k: nat)
    ensures k <= 28 ==> Share(k) * Pow2(k) == PEAK
    ensures k > 28 ==> Share(k) == 0 && Pow2(k) >= 2 * PEAK
  {
    PowersAround28();
    if k <= 28 {
      hide Pow2;
      Pow2Add(28 - k, k);
      Pow2Mono(k, 28);
      DivUnique(PEAK, Pow2(k), Pow2(28 - k));
    } else {
      Pow2Mono(29, k);
    }
  }

  /** Pstates is the mean square of the window plus at most one unit per sample, and so
      stays below the headroom plus the number of samples. */
  ghost predicate Kept(power: int, w: Window, n: nat, taps: nat)
    requires taps > 0
  {
    PowerTracks(power, FloorLog2(taps), w, n) && power <= Headroom(taps) + n
  }

  lemma Cancel(a: int, b: int, p: nat)
    requires p > 0 && a * p <= b * p
    ensures a <= b
  {
    NonNegativeFactor(b - a, p);
  }

  /** Up to 2^29 taps the mean square alone bounds the power. */
  lemma MeanSquareBounds(power: int, w: Window, n: nat, taps: nat)
    requires |w| == taps > 0 && Halved(w) && FloorLog2(taps) <= 28
    requires PowerTracks(power, FloorLog2(taps), w, n)
    ensures power <= Headroom(taps) + n
  {
    hide Share, FloorLog2, SumSquares;
    var p, q := Pow2(FloorLog2(taps)), Share(FloorLog2(taps));
    ShareIs(FloorLog2(taps));
    SumSquaresBound(w, 16384);
    TimesShare(taps, q, p);
    assert (taps * q + n) * p == taps * q * p + n * p;
    Cancel(power, taps * q + n, p);
  }

  lemma TimesShare(taps: nat, q: nat, p: nat)
    requires q * p == PEAK
    ensures taps * q * p == taps * PEAK
  {}

  /** With more taps than that no sample adds more than one unit. */
  lemma LongFilterStep(power: int, k: nat, w: Window, tx: int)
    requires w != [] && k > 28 && -16384 <= tx <= 16384
    ensures PowerSum(power, k, w, tx) <= power + 1
  {
    hide Pow2, Square;
    ShareIs(k);
    SquareBound(tx, 16384);
    BelowTwo(Square(tx) - Square(w[|w| - 1]) + Pow2(k), Pow2(k));
  }

  lemma BelowTwo(a: int, p: nat)
    requires p > 0 && a < 2 * p
    ensures a / p <= 1
  {
    FloorBounds(a, p);
    if a / p >= 2 {
      MulMono(2, a / p, p);
    }
  }

  lemma SumKept(power: int, w: Window, tx: int, n: nat, taps: nat)
    requires |w| == taps > 0 && Halved(w) && -16384 <= tx <= 16384 && Kept(power, w, n, taps)
    ensures PowerSum(power, FloorLog2(taps), w, tx) >= 0
    ensures Kept(PowerSum(power, FloorLog2(taps), w, tx), Shift(w, tx), n + 1, taps)
  {
    hide PowerTracks, PowerSum;
    var k := FloorLog2(taps);
    PowerStepTracks(power, k, w, tx, n);
    if k <= 28 {
      MeanSquareBounds(PowerSum(power, k, w, tx), Shift(w, tx), n + 1, taps);
    } else {
      LongFilterStep(power, k, w, tx);
    }
  }

  /** While the count is below the limit the next sample neither wraps nor clamps. */
  lemma PowerStepFits(power: int, w: Window, tx: int, n: nat, taps: nat)
    requires |w| == taps > 0 && Halved(w) && -16384 <= tx <= 16384
    requires Kept(power, w, n, taps) && n + 1 + Headroom(taps) <= INT32_MAX
    ensures 0 <= PowerSum(power, FloorLog2(taps), w, tx) <= INT32_MAX
    ensures Kept(PowerStep(power, FloorLog2(taps), w, tx), Shift(w, tx), n + 1, taps)
  {
    hide PowerTracks, PowerSum, Headroom;
    SumKept(power, w, tx, n, taps);
  }

  /** No flush separates states m and m + n, and m is where the object was created or
      flushed. */
  ghost predicate Since(calls: seq<Call>, m: nat, n: nat) {
    && m + n <= |calls| && (m == 0 || calls[m - 1].FlushCall?)
    && forall i :: m <= i < m + n ==> calls[i].Sample?
  }

  lemma StartsSilent(calls: seq<Call>, states: seq<Ec>, taps: nat, mode: Mode, m: nat)
    requires Started(calls, states, taps, mode) && Since(calls, m, 0)
    ensures states[m].window == Silence(taps) && states[m].power == 0
  {
    if m > 0 {
      hide Apply, FloorLog2;
      SizesStay(calls, states, taps, mode, m - 1);
      assert Follows(calls, states, m - 1);
      FlushClears(states[m - 1]);
    }
  }

  lemma {:induction false} PowerIsKept(calls: seq<Call>, states: seq<Ec>, taps: nat, mode: Mode, m: nat, n: nat)
    requires Started(calls, states, taps, mode) && Since(calls, m, n) && n + Headroom(taps) <= INT32_MAX
    ensures Kept(states[m + n].power, states[m + n].window, n, taps)
  {
    hide Apply, PowerStep, PowerSum, FloorLog2;
    if n == 0 {
      StartsSilent(calls, states, taps, mode, m);
      SilenceSquares(taps);
    } else {
      hide Kept, Headroom;
      var s, c := states[m + n - 1], calls[m + n - 1];
      PowerIsKept(calls, states, taps, mode, m, n - 1);
      SizesStay(calls, states, taps, mode, m + n - 1);
      assert Follows(calls, states, m + n - 1);
      SampleWindowAndPower(s, c);
      RunsAreGood(calls, states, taps, mode, m + n - 1);
      PowerStepFits(s.power, s.window, c.tx / 2, n - 1, taps);
    }
  }

  /** n updates after create or flush: Pstates is the mean square of the window plus at most
      one unit per sample. */
  lemma PowerIsTracked(calls: seq<Call>, states: seq<Ec>, taps: nat, mode: Mode, m: nat, n: nat)
    requires Started(calls, states, taps, mode) && Since(calls, m, n) && n + Headroom(taps) <= INT32_MAX
    ensures PowerTracks(states[m + n].power, FloorLog2(taps), states[m + n].window, n)
  {
    PowerIsKept(calls, states, taps, mode, m, n);
  }

  /** In those runs the clamp at zero never acts and the sum never leaves 32 bits. */
  lemma ClampNeverActs(calls: seq<Call>, states: seq<Ec>, taps: nat, mode: Mode, m: nat, n: nat)
    requires Started(calls, states, taps, mode) && Since(calls, m, n + 1) && n + 1 + Headroom(taps) <= INT32_MAX
    ensures var s := states[m + n]; 0 <= PowerSum(s.power, s.log2taps, s.window, calls[m + n].tx / 2) <= INT32_MAX
  {
    hide Apply, Kept, Headroom;
    var s, c := states[m + n], calls[m + n];
    PowerIsKept(calls, states, taps, mode, m, n);
    SizesStay(calls, states, taps, mode, m + n);
    RunsAreGood(calls, states, taps, mode, m + n);
    assert Follows(calls, states, m + n);
    PowerStepFits(s.power, s.window, c.tx / 2, n, taps);
  }

  lemma {:induction false} SilenceSquares(n: nat)
    ensures SumSquares(Silence(n)) == 0
  {
    if n > 0 {
      SilenceSquares(n - 1);
      assert Silence(n)[..n - 1] == Silence(n - 1);
    }
  }

  lemma SilentStep(power: int, k: nat, taps: nat)
    requires taps > 0 && 0 <= power <= INT32_MAX
    ensures PowerStep(power, k, Silence(taps), 0) == if power == INT32_MAX then 0 else power + 1
    ensures Shift(Silence(taps), 0) == Silence(taps)
  {
    assert Pow2(k) / Pow2(k) == 1;
  }

  /** The drift is real: on a silent line Pstates gains one unit per sample, until the
      2^31st sample wraps it and the clamp sets it to zero. */
  lemma {:induction false} SilenceDrifts(calls: seq<Call>, states: seq<Ec>, taps: nat, mode: Mode, m: nat, n: nat)
    requires Started(calls, states, taps, mode) && Since(calls, m, n) && n <= 0x8000_0000
    requires forall i :: m <= i < m + n ==> calls[i].tx / 2 == 0
    ensures states[m + n].window == Silence(taps)
    ensures states[m + n].power == if n <= INT32_MAX then n else 0
  {
    if n == 0 {
      StartsSilent(calls, states, taps, mode, m);
    } else {
      hide Apply, PowerStep, Shift, Create, FloorLog2;
      var s, c := states[m + n - 1], calls[m + n - 1];
      SilenceDrifts(calls, states, taps, mode, m, n - 1);
      assert Follows(calls, states, m + n - 1);
      SampleWindowAndPower(s, c);
      SilentStep(s.power, s.log2taps, taps);
    }
  }

  // ---- The limit is exact --------------------------------------------------------

  /** quiet silent samples, then the loudest there is. */
  function Burst(quiet: nat, loud: nat, mode: Mode): (calls: seq<Call>)
    ensures |calls| == quiet + loud
    ensures forall i :: 0 <= i < |calls| ==> calls[i] == Sample(if i < quiet then 0 else -32768, 0, mode)
  {
    seq(quiet + loud, i => Sample(if i < quiet then 0 else -32768, 0, mode))
  }

  /** The window after i loud samples. */
  ghost predicate Filled(w: Window, i: nat) {
    i <= |w| && forall j :: 0 <= j < |w| ==> w[j] == if j < i then -16384 else 0
  }

  lemma LoudStep(power: int, k: nat, w: Window, i: nat)
    requires Filled(w, i) && i < |w|
    ensures Filled(Shift(w, -16384), i + 1)
    ensures PowerSum(power, k, w, -16384) == power + Share(k) + 1
  {
    hide Pow2, Share;
    assert Square(-16384) == PEAK && Square(w[|w| - 1]) == 0;
    OneMore(k);
  }

  lemma OneMore(k: nat)
    ensures (PEAK + Pow2(k)) / Pow2(k) == Share(k) + 1
  {
    hide Pow2, Share;
    var p, q := Pow2(k), Share(k);
    ShareIs(k);
    assert (q + 1) * p == q * p + p;
    DivUnique(PEAK + p, p, q + 1);
  }

  /** What a loud sample adds: its share of the mean square, and the drift. */
  function Gained(taps: nat): nat
    requires taps > 0
  {
    Share(FloorLog2(taps)) + 1
  }

  lemma BurstStarts(calls: seq<Call>, states: seq<Ec>, taps: nat, mode: Mode, quiet: nat)
    requires calls == Burst(quiet, taps, mode) && Started(calls, states, taps, mode) && quiet <= INT32_MAX
    ensures Filled(states[quiet].window, 0) && states[quiet].power == quiet
  {
    hide Create;
    assert Since(calls, 0, quiet);
    SilenceDrifts(calls, states, taps, mode, 0, quiet);
  }

  /** While nothing overflows, every loud sample adds the same. */
  lemma {:induction false} BurstPower(calls: seq<Call>, states: seq<Ec>, taps: nat, mode: Mode, quiet: nat, i: nat)
    requires calls == Burst(quiet, taps, mode) && Started(calls, states, taps, mode) && i <= taps
    requires quiet + i * Gained(taps) <= INT32_MAX
    ensures Filled(states[quiet + i].window, i) && states[quiet + i].power == quiet + i * Gained(taps)
    decreases i, 0
  {
    hide Gained, FloorLog2, Create, Filled, Started, Wrap32, Burst;
    if i == 0 {
      BurstStarts(calls, states, taps, mode, quiet);
    } else {
      GainedPositive(taps);
      assert i * Gained(taps) == (i - 1) * Gained(taps) + Gained(taps);
      BurstStep(calls, states, taps, mode, quiet, i - 1);
      WrapInRange(quiet + i * Gained(taps));
    }
  }

  lemma WrapInRange(x: int)
    requires 0 <= x <= INT32_MAX
    ensures Wrap32(x) == x
  {}

  /** The next loud sample, up to the wrap. */
  lemma {:induction false} BurstStep(calls: seq<Call>, states: seq<Ec>, taps: nat, mode: Mode, quiet: nat, i: nat)
    requires calls == Burst(quiet, taps, mode) && Started(calls, states, taps, mode) && i < taps
    requires quiet + i * Gained(taps) <= INT32_MAX
    ensures var s, sum := states[quiet + i], quiet + (i + 1) * Gained(taps);
            && PowerSum(s.power, s.log2taps, s.window, -16384) == sum
            && Filled(states[quiet + i + 1].window, i + 1)
            && states[quiet + i + 1].power == (if Wrap32(sum) < 0 then 0 else Wrap32(sum))
    decreases i, 1
  {
    hide Apply, Create, FloorLog2, Shift, Filled, Wrap32;
    var s := states[quiet + i];
    BurstPower(calls, states, taps, mode, quiet, i);
    SizesStay(calls, states, taps, mode, quiet + i);
    assert Follows(calls, states, quiet + i);
    SampleWindowAndPower(s, calls[quiet + i]);
    LoudStep(s.power, s.log2taps, s.window, i);
    assert (i + 1) * Gained(taps) == i * Gained(taps) + Gained(taps);
  }

  lemma FilledSquares(w: Window)
    requires w != [] && Filled(w, |w|)
    ensures SumSquares(w) > 0
  {
    assert Square(w[|w| - 1]) == PEAK;
  }

  lemma HeadroomRoom(taps: nat)
    requires 0 < taps <= INT32_MAX
    ensures Headroom(taps) + taps <= INT32_MAX
    ensures taps * Gained(taps) == Headroom(taps) + taps
  {
    hide Pow2, Share;
    var p, q := Pow2(FloorLog2(taps)), Share(FloorLog2(taps));
    assert taps * (q + 1) == taps * q + taps;
    ShareIs(FloorLog2(taps));
    PowersAround28();
    if FloorLog2(taps) <= 28 {
      Pow2Mono(FloorLog2(taps), 28);
      TwicePower(FloorLog2(taps));
      MulMono(taps, 2 * p, q);
      assert 2 * p * q == 2 * (q * p);
    }
  }

  lemma TwicePower(k: nat)
    ensures Pow2(k + 1) == 2 * Pow2(k)
  {}

  /** A run whose last update overflows: one more than the limit allows. */
  lemma OverflowAt(taps: nat, mode: Mode) returns (calls: seq<Call>, states: seq<Ec>, n: nat)
    requires 0 < taps <= INT32_MAX
    ensures n > 0 && n + Headroom(taps) == INT32_MAX + 1
    ensures Started(calls, states, taps, mode) && Since(calls, 0, n)
    ensures !PowerTracks(states[n].power, FloorLog2(taps), states[n].window, n)
    ensures var s := states[n - 1]; PowerSum(s.power, s.log2taps, s.window, calls[n - 1].tx / 2) == INT32_MAX + 1
  {
    hide Headroom, Gained, Create, PowerSum, FloorLog2;
    HeadroomRoom(taps);
    n := INT32_MAX + 1 - Headroom(taps);
    var quiet := n - taps;
    calls := Burst(quiet, taps, mode);
    states := RunExists(calls, taps, mode);
    assert (taps - 1) * Gained(taps) + Gained(taps) == taps * Gained(taps);
    GainedPositive(taps);
    BurstStep(calls, states, taps, mode, quiet, taps - 1);
    SizesStay(calls, states, taps, mode, n);
    FilledSquares(states[n].window);
  }

  lemma GainedPositive(taps: nat)
    requires taps > 0
    ensures Gained(taps) >= 1
  {}

  /** In every run of that many updates since create or flush, Pstates is right. */
  ghost predicate AlwaysTracks(taps: nat, mode: Mode, n: nat)
    requires taps > 0
  {
    forall calls: seq<Call>, states: seq<Ec>, m: nat, j: nat ::
      Started(calls, states, taps, mode) && Since(calls, m, j) && j <= n ==>
        PowerTracks(states[m + j].power, FloorLog2(taps), states[m + j].window, j)
  }

  /** In every such run, no update leaves 32 bits or is clamped. */
  ghost predicate NeverClamps(taps: nat, mode: Mode, n: nat)
    requires taps > 0
  {
    forall calls: seq<Call>, states: seq<Ec>, m: nat, j: nat ::
      Started(calls, states, taps, mode) && Since(calls, m, j) && 0 < j <= n ==>
        var s := states[m + j - 1];
        s.window != [] && 0 <= PowerSum(s.power, s.log2taps, s.window, calls[m + j - 1].tx / 2) <= INT32_MAX
  }

  /** Both hold exactly as long as the headroom leaves room for one unit per update. */
  lemma PowerLimitIff(taps: nat, mode: Mode, n: nat)
    requires 0 < taps <= INT32_MAX
    ensures AlwaysTracks(taps, mode, n) <==> n + Headroom(taps) <= INT32_MAX
    ensures NeverClamps(taps, mode, n) <==> n + Headroom(taps) <= INT32_MAX
  {
    hide Headroom, PowerTracks, PowerSum, Create, FloorLog2;
    if n + Headroom(taps) <= INT32_MAX {
      forall calls: seq<Call>, states: seq<Ec>, m: nat, j: nat | Started(calls, states, taps, mode) && Since(calls, m, j) && j <= n
        ensures m + j < |states|
        ensures PowerTracks(states[m + j].power, FloorLog2(taps), states[m + j].window, j)
      {
        PowerIsTracked(calls, states, taps, mode, m, j);
      }
      forall calls: seq<Call>, states: seq<Ec>, m: nat, j: nat | Started(calls, states, taps, mode) && Since(calls, m, j) && 0 < j <= n
        ensures m + j < |states| == |calls| + 1 && Shaped(states[m + j - 1])
        ensures var s := states[m + j - 1];
                0 <= PowerSum(s.power, s.log2taps, s.window, calls[m + j - 1].tx / 2) <= INT32_MAX
      {
        ClampNeverActs(calls, states, taps, mode, m, j - 1);
      }
    } else {
      var calls, states, j := OverflowAt(taps, mode);
      assert j <= n && Since(calls, 0, j);
    }
  }
}

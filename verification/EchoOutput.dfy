/** What the echo canceller sends, and how its background filter learns. */
module EchoOutput {
  import opened Words
  import opened TopBit
  import opened Fir
  import opened EchoStages
  import opened EchoSpec
  import opened EchoRuns

  // ---- The parts of one update ---------------------------------------------------

  /** The receive filter's output is its accumulator in units of 2^15, within 14 bits. */
  lemma HighPassOutput(s: Ec, rx: int)
    ensures var (d, r) := HighPass(s, rx);
            if !s.mode.rxHpf then d == s.rxDc && r == rx
            else
              && d == DcStep(s.rxDc, rx)
              && (-16383 * 32768 <= d.x1 < 16384 * 32768 ==> 32768 * r <= d.x1 < 32768 * (r + 1))
              && (d.x1 >= 16384 * 32768 ==> r == 16383) && (d.x1 < -16383 * 32768 ==> r == -16383)
  {
    hide DcStep;
  }

  /** rx after the receive filter, and the window both filters see. */
  function Received(s: Ec, c: Call): int
    requires c.Sample?
  {
    HighPass(s.(mode := c.mode), c.rx / 2).1
  }

  function Seen(s: Ec, c: Call): (w: Window)
    requires Shaped(s) && c.Sample?
    ensures |w| == |s.fg| == |s.bg| == |s.window|
  {
    Shift(s.window, c.tx / 2)
  }

  /** What each filter leaves of the received sample. */
  function Residual(s: Ec, c: Call): int
    requires Shaped(s) && c.Sample?
  {
    Wrap16(Received(s, c) - FirValue(s.fg, Seen(s, c)))
  }

  function ResidualBg(s: Ec, c: Call): int
    requires Shaped(s) && c.Sample?
  {
    Received(s, c) - FirValue(s.bg, Seen(s, c))
  }

  /** Each level follows its own signal. */
  lemma UpdateLevels(s: Ec, c: Call)
    requires Shaped(s) && c.Sample?
    ensures var t := Apply(s, c);
            && t.mode == c.mode && t.window == Seen(s, c) && t.rxDc == HighPass(s.(mode := c.mode), c.rx / 2).0
            && t.ltx == LevelStep(s.ltx, Abs(c.tx / 2)) && t.lrx == LevelStep(s.lrx, Abs(Received(s, c)))
            && t.lclean == LevelStep(s.lclean, Abs(Residual(s, c)))
            && t.lcleanBg == LevelStep(s.lcleanBg, Abs(ResidualBg(s, c)))
  {
    hide HighPass, PowerStep, LevelStep, FirValue, AdaptAll, Factor, NlmsShift, Processed, Wrap16, Abs, Shift;
  }

  /** The background filter learns from its own residual, unless the hangover is running. */
  lemma UpdateAdapts(s: Ec, c: Call)
    requires Shaped(s) && c.Sample?
    ensures var t := Apply(s, c);
            t.bg == if s.dwell == 0
                    then AdaptAll(s.bg, Seen(s, c), Factor(ResidualBg(s, c), NlmsShift(t.power, s.log2taps)))
                    else s.bg
  {
    hide HighPass, PowerStep, LevelStep, FirValue, AdaptAll, Factor, NlmsShift, Processed, Wrap16, Abs, Shift;
  }

  /** The transfer condition: adaption on, no double talk for 600 updates, and a background
      level below 7/8 of the foreground's and 1/8 of the transmit level. */
  lemma MetIff(s: Ec, c: Call)
    requires Shaped(s) && c.Sample?
    ensures var t := Apply(s, c);
            Met(s, c) <==>
              c.mode.adapt && t.dwell == 0
              && 8 * t.lcleanBg.avg < 7 * t.lclean.avg && 8 * t.lcleanBg.avg < t.ltx.avg
  {
    hide HighPass, PowerStep, LevelStep, FirValue, AdaptAll, Factor, NlmsShift, Processed, Wrap16, Abs, Shift;
  }

  // ---- What goes out -------------------------------------------------------------

  /** The sample sent for a call. */
  function Out(s: Ec, c: Call): int
    requires Shaped(s) && c.Sample?
  {
    Update(s.(mode := c.mode), c.tx, c.rx).1
  }

  /** Disabled, the canceller passes the received sample, less its lowest bit. */
  lemma BypassOutput(s: Ec, c: Call)
    requires Shaped(s) && c.Sample? && Int16(c.rx) && c.mode.disable
    ensures !c.mode.rxHpf ==> Out(s, c) == c.rx / 2 * 2
    ensures c.mode.rxHpf ==> Out(s, c) == 2 * Received(s, c)
  {
    hide PowerStep, LevelStep, FirValue, AdaptAll, Factor, NlmsShift, Processed, Abs, Shift, DcStep;
  }

  /** Otherwise twice what is left of the received sample once the foreground filter's value
      is taken off, unless non-linear processing suppresses it: then the clipped residual, or
      nothing. */
  lemma ProcessedOutput(s: Ec, c: Call)
    requires Shaped(s) && c.Sample? && !c.mode.disable
    ensures var t, clean := Apply(s, c), Residual(s, c);
            && (!c.mode.nlp || 16 * t.lclean.avg >= t.ltx.avg ==> Out(s, c) == Wrap16(2 * clean))
            && (c.mode.nlp && 16 * t.lclean.avg < t.ltx.avg && !c.mode.cng ==>
                  if c.mode.clip then Out(s, c) == Wrap16(2 * Clipped(clean, s.noise.level)) else Out(s, c) == 0)
  {
    hide HighPass, PowerStep, LevelStep, FirValue, AdaptAll, Factor, NlmsShift, Abs, Shift, Comfort, Clipped;
  }

  /** Without processing, and where nothing leaves 16 bits: the received sample less its lowest
      bit, less twice the value of the foreground filter on the halved transmit samples. */
  lemma CleanOutput(s: Ec, c: Call)
    requires Shaped(s) && c.Sample? && !c.mode.disable && !c.mode.nlp && !c.mode.rxHpf
    ensures var y := FirValue(s.fg, Shift(s.window, c.tx / 2));
            && Out(s, c) == Wrap16(2 * Wrap16(c.rx / 2 - y))
            && (-16384 <= c.rx / 2 - y < 16384 ==> Out(s, c) == c.rx / 2 * 2 - 2 * y)
  {
    hide FirValue, Shift;
    ProcessedOutput(s, c);
  }

  /** With a foreground filter of zeros, as after create or flush, even samples pass unchanged. */
  lemma UntouchedOutput(s: Ec, c: Call)
    requires Shaped(s) && c.Sample? && !c.mode.disable && !c.mode.nlp && !c.mode.rxHpf
    requires Int16(c.rx) && c.rx % 2 == 0 && forall i :: 0 <= i < |s.fg| ==> s.fg[i] == 0
    ensures Out(s, c) == c.rx
  {
    hide FirValue, Shift;
    ZeroTaps(s.fg, Shift(s.window, c.tx / 2));
    CleanOutput(s, c);
  }

  /** The same for one update in the mode the canceller is in. */
  lemma OutputIs(s: Ec, tx: int, rx: int)
    requires Shaped(s)
    ensures var out := Update(s, tx, rx).1;
            && (s.mode.disable && !s.mode.rxHpf && Int16(rx) ==> out == rx / 2 * 2)
            && (!s.mode.disable && !s.mode.nlp && !s.mode.rxHpf ==>
                  out == Wrap16(2 * Wrap16(rx / 2 - FirValue(s.fg, Shift(s.window, tx / 2)))))
  {
    hide Update, FirValue, Shift, Wrap16;
    var c := Sample(tx, rx, s.mode);
    assert s.(mode := c.mode) == s;
    if s.mode.disable && Int16(rx) {
      BypassOutput(s, c);
    }
    if !s.mode.disable && !s.mode.nlp && !s.mode.rxHpf {
      CleanOutput(s, c);
    }
  }

  /** In a run: what goes out for the k-th call is what the foreground taps of the moment leave
      of it, given all that was transmitted since create or flush. */
  lemma RunOutput(calls: seq<Call>, states: seq<Ec>, taps: nat, mode: Mode, k: nat)
    requires Started(calls, states, taps, mode) && k < |calls| && calls[k].Sample?
    requires var m := calls[k].mode; !m.disable && !m.nlp && !m.rxHpf
    ensures |states[k].fg| == taps
    ensures var y := FirValue(states[k].fg, WindowAfter(taps, Transmitted(calls[..k]) + [calls[k].tx / 2]));
            Out(states[k], calls[k]) == Wrap16(2 * Wrap16(calls[k].rx / 2 - y))
  {
    hide Out, FirValue, WindowAfter, Transmitted, Create, FloorLog2;
    SizesStay(calls, states, taps, mode, k);
    WindowIsHistory(calls, states, taps, mode, k);
    WindowAfterSnoc(taps, Transmitted(calls[..k]), calls[k].tx / 2);
    CleanOutput(states[k], calls[k]);
  }

  // ---- The noise estimate and comfort noise --------------------------------------

  /** The estimate approaches a steady residual from one side and never passes it. */
  lemma NoiseApproaches(n: Noise, clean: int)
    requires n.level == (n.acc + 0x800) / 0x1000
    ensures var t := Estimated(n, clean);
            && t.level == (t.acc + 0x800) / 0x1000
            && (n.level < Abs(clean) ==> t.acc > n.acc && n.level <= t.level <= Abs(clean))
            && (n.level > Abs(clean) ==> t.acc < n.acc && Abs(clean) <= t.level <= n.level)
            && (n.level == Abs(clean) ==> t == n)
  {}

  /** It is made from quiet residuals that are not suppressed, and from no others. */
  lemma NoiseEstimate(s: Ec, c: Call)
    requires Shaped(s) && c.Sample?
    ensures var t := Apply(s, c);
            && (c.mode.nlp && 16 * t.lclean.avg >= t.ltx.avg && t.lclean.avg < 40 ==>
                  t.noise == Estimated(s.noise, Residual(s, c)))
            && (c.mode.nlp && 16 * t.lclean.avg >= t.ltx.avg && t.lclean.avg >= 40 ==> t.noise == s.noise)
            && (c.mode.nlp && 16 * t.lclean.avg < t.ltx.avg && !c.mode.cng ==> t.noise == s.noise)
            && (!c.mode.nlp ==> t.noise == s.noise)
  {
    hide HighPass, PowerStep, LevelStep, FirValue, AdaptAll, Factor, NlmsShift, Abs, Shift, Comfort, Clipped, Estimated;
  }

  /** The noise filter stays within 10923, so nothing wraps for levels up to 6143, and the noise
      is at most 16/3 of the level, rounded up. */
  lemma ComfortFits(n: Noise)
    requires -10923 <= n.cngFilter <= 10922
    ensures var (out, t) := Comfort(n);
            && (1664525 * n.cngRnd + 1013904223 - t.cngRnd) % 0x1_0000_0000 == 0
            && -10923 <= t.cngFilter <= 10922
            && 8 * t.cngFilter <= t.cngRnd % 65536 - 32768 + 5 * n.cngFilter < 8 * t.cngFilter + 8
            && (0 <= n.level <= 6143 ==>
                  2048 * out <= t.cngFilter * n.level < 2048 * out + 2048 && 3 * Abs(out) <= 16 * n.level + 6)
  {
    hide Wrap32, Wrap16;
    var rnd := Wrap32(1664525 * n.cngRnd + 1013904223);
    WrapsModulo(1664525 * n.cngRnd + 1013904223);
    var f := (rnd % 0x1_0000 - 32768 + 5 * n.cngFilter) / 8;
    if 0 <= n.level <= 6143 {
      ScaledNoise(f, n.level);
    }
  }

  /** The scaling of the filter's value by the level. */
  lemma ScaledNoise(f: int, level: nat)
    requires -10923 <= f <= 10922 && level <= 6143
    ensures INT32_MIN <= f * level * 8 <= INT32_MAX && INT32_MIN <= f * level <= INT32_MAX
    ensures var out := f * level * 8 / 0x4000;
            && -32768 <= out <= 32767 && 2048 * out <= f * level < 2048 * out + 2048 && 3 * Abs(out) <= 16 * level + 6
  {
    MulMono(Abs(f), 10923, level);
    AbsProduct(f, level);
    AbsOfNat(level);
    ScaledBy(f * level, level);
  }

  lemma ScaledBy(x: int, level: nat)
    requires Abs(x) <= 10923 * level && level <= 6143
    ensures INT32_MIN <= x * 8 <= INT32_MAX && INT32_MIN <= x <= INT32_MAX
    ensures var out := x * 8 / 0x4000;
            && -32768 <= out <= 32767 && 2048 * out <= x < 2048 * out + 2048 && 3 * Abs(out) <= 16 * level + 6
  {}

  // ---- Create and flush ----------------------------------------------------------

  ghost predicate AllZero(w: seq<int>) {
    forall i :: 0 <= i < |w| ==> w[i] == 0
  }

  /** A new canceller has heard nothing and knows nothing. */
  lemma CreateIsBlank(taps: nat, mode: Mode)
    requires taps > 0
    ensures var s := Create(taps, mode);
            && |s.window| == |s.fg| == |s.bg| == taps && AllZero(s.window) && AllZero(s.fg) && AllZero(s.bg)
            && Pow2(s.log2taps) <= taps < 2 * Pow2(s.log2taps) && s.mode == mode
            && s.ltx == s.lrx == s.lclean == s.lcleanBg == Level(0, 0) && s.rxDc == Dc(0, 0)
            && s.power == s.dwell == s.condMet == 0 && s.noise.level == s.noise.acc == 0 && s.noise.cngLevel == 1000
  {}

  /** A flush makes it so again, but for the mode, cond_met and the comfort noise. */
  lemma FlushIsBlank(s: Ec)
    ensures var t := Flush(s);
            && |t.window| == |t.fg| == |t.bg| == |s.window| && AllZero(t.window) && AllZero(t.fg) && AllZero(t.bg)
            && t.ltx == t.lrx == t.lclean == t.lcleanBg == Level(0, 0) && t.rxDc == Dc(0, 0)
            && t.power == t.dwell == 0 && t.noise == s.noise.(level := 0, acc := 0)
            && t.mode == s.mode && t.log2taps == s.log2taps && t.condMet == s.condMet
  {}

  // ---- How the background filter learns ------------------------------------------

  /** The correction of a tap is the product in units of 2^15, rounded to the nearest, while
      nothing leaves its type. */
  ghost predicate TapFits(tap: int, sample: int, factor: int) {
    && -0x4000_0000 <= sample * factor < 0x4000_0000 - 0x4000
    && -32768 <= tap + (sample * factor + 0x4000) / 0x8000 <= 32767
  }

  lemma AdaptedNear(tap: int, sample: int, factor: int)
    requires TapFits(tap, sample, factor)
    ensures Abs(32768 * (Adapted(tap, sample, factor) - tap) - sample * factor) <= 16384
  {}

  /** The residual times 2^shift, rounded down for negative shifts, and of the same sign. */
  lemma FactorIs(clean: int, shift: int)
    requires -32 < shift < 32
    ensures shift > 0 && INT32_MIN <= clean * Pow2(shift) <= INT32_MAX ==> Factor(clean, shift) == clean * Pow2(shift)
    ensures shift <= 0 ==> Factor(clean, shift) * Pow2(0 - shift) <= clean < Factor(clean, shift) * Pow2(0 - shift) + Pow2(0 - shift)
    ensures shift <= 0 ==> (clean >= 0 ==> Factor(clean, shift) >= 0) && (clean < 0 ==> Factor(clean, shift) < 0)
  {
    if shift > 0 {
      assert shift % 32 == shift;
    } else {
      FactorDown(clean, 0 - shift);
    }
  }

  lemma FactorDownIs(clean: int, n: nat)
    requires n < 32
    ensures Factor(clean, 0 - n) == clean / Pow2(n)
  {
    hide Pow2;
    assert (0 - (0 - n)) % 32 == n;
  }

  lemma FactorDown(clean: int, n: nat)
    requires n < 32
    ensures var q := Factor(clean, 0 - n);
            q * Pow2(n) <= clean < q * Pow2(n) + Pow2(n) && (clean >= 0 <==> q >= 0)
  {
    hide Pow2, Factor;
    FactorDownIs(clean, n);
    FloorBounds(clean, Pow2(n));
    FloorSign(clean, Pow2(n));
  }

  lemma FloorSign(a: int, p: nat)
    requires p > 0
    ensures a >= 0 <==> a / p >= 0
  {
    FloorBounds(a, p);
    var q := a / p;
    assert (q + 1) * p == q * p + p;
    if a >= 0 {
      PositiveFactor(q + 1, p);
    } else {
      assert (0 - q) * p == -(q * p);
      PositiveFactor(0 - q, p);
    }
  }

  lemma PositiveFactor(a: int, b: nat)
    requires b > 0 && a * b > 0
    ensures a > 0
  {}

  /** The shift stands for a division by four times the power of the window, to within a
      factor of two. */
  lemma ShiftIs(power: int, log2taps: nat) returns (l: nat)
    requires 0 <= power <= INT32_MAX
    ensures Pow2(l) <= 64 + power < Pow2(l + 1)
    ensures NlmsShift(power, log2taps) == 28 - l - log2taps
  {
    hide Pow2, FloorLog2;
    assert U32(64 + power) == 64 + power;
    l := FloorLog2(64 + power);
  }

  /** Sums over the window from k on. */
  function SquaresFrom(w: Window, k: nat): nat
    decreases |w| - k
  {
    if k >= |w| then 0 else SquaresFrom(w, k + 1) + Square(w[k])
  }

  function MagnitudesFrom(w: Window, k: nat): nat
    decreases |w| - k
  {
    if k >= |w| then 0 else MagnitudesFrom(w, k + 1) + Abs(w[k])
  }

  lemma {:induction false} SquaresSplit(w: Window, k: nat)
    requires k <= |w|
    ensures SumSquares(w[..k]) + SquaresFrom(w, k) == SumSquares(w)
    decreases |w| - k
  {
    if k == |w| {
      assert w[..k] == w;
    } else {
      SquaresSplit(w, k + 1);
      assert w[..k + 1][..k] == w[..k];
    }
  }

  lemma OneTap(old': int, new': int, sample: int, factor: int)
    requires Abs(32768 * (new' - old') - sample * factor) <= 16384
    ensures Abs(32768 * (new' * sample - old' * sample) - factor * Square(sample)) <= 16384 * Abs(sample)
  {
    var d := new' - old';
    var e := 32768 * d - sample * factor;
    ErrorTimes(d, sample, factor);
    Difference(new', old', sample);
    MulMono(Abs(e), 16384, Abs(sample));
    AbsProduct(e, sample);
  }

  lemma Difference(a: int, b: int, c: int)
    ensures (a - b) * c == a * c - b * c
  {}

  lemma ErrorTimes(d: int, sample: int, factor: int)
    ensures (32768 * d - sample * factor) * sample == 32768 * (d * sample) - factor * Square(sample)
  {
    Difference(32768 * d, sample * factor, sample);
    assert sample * factor * sample == factor * (sample * sample);
  }

  lemma AbsProduct(a: int, b: int)
    ensures Abs(a * b) == Abs(a) * Abs(b)
  {
    assert a >= 0 && b >= 0 ==> a * b >= 0;
    assert a < 0 && b < 0 ==> a * b == (0 - a) * (0 - b) >= 0;
    assert a >= 0 && b < 0 ==> a * b == -(a * (0 - b)) <= 0;
    assert a < 0 && b >= 0 ==> a * b == -((0 - a) * b) <= 0;
  }

  /** An adaption changes the sum the filter forms on the same window by the factor times its
      power, in units of 2^15, to within the rounding of the taps. */
  lemma {:induction false} AdaptMoves(taps: seq<int>, w: Window, factor: int, k: nat)
    requires |taps| == |w| && forall i :: 0 <= i < |taps| ==> TapFits(taps[i], w[i], factor)
    ensures Abs(32768 * (DotFrom(AdaptAll(taps, w, factor), w, k) - DotFrom(taps, w, k)) - factor * SquaresFrom(w, k))
            <= 16384 * MagnitudesFrom(w, k)
    decreases |w| - k
  {
    hide Adapted, AdaptAll, TapFits, Square, Abs;
    if k < |w| {
      AdaptMoves(taps, w, factor, k + 1);
      AdaptedNear(taps[k], w[k], factor);
      OneTap(taps[k], AdaptAll(taps, w, factor)[k], w[k], factor);
      AddParts(DotFrom(AdaptAll(taps, w, factor), w, k + 1), DotFrom(taps, w, k + 1), factor, SquaresFrom(w, k + 1),
               MagnitudesFrom(w, k + 1), AdaptAll(taps, w, factor)[k] * w[k], taps[k] * w[k], Square(w[k]), Abs(w[k]));
    } else {
      assert factor * 0 == 0;
      NoDistance();
    }
  }

  lemma NoDistance()
    ensures Abs(0) == 0
  {}

  lemma AddParts(a: int, b: int, factor: int, q: nat, m: nat, c: int, d: int, q': nat, m': nat)
    requires Abs(32768 * (a - b) - factor * q) <= 16384 * m
    requires Abs(32768 * (c - d) - factor * q') <= 16384 * m'
    ensures Abs(32768 * ((a + c) - (b + d)) - factor * (q + q')) <= 16384 * (m + m')
  {
    assert factor * (q + q') == factor * q + factor * q';
  }

  /** So, once the factor outweighs the rounding, the filter's sum moves towards the received
      sample: up if the filter had left too much, down if it had taken off too much. */
  lemma AdaptMovesTowards(taps: seq<int>, w: Window, factor: int)
    requires |taps| == |w| && forall i :: 0 <= i < |taps| ==> TapFits(taps[i], w[i], factor)
    ensures Abs(factor) * SquaresFrom(w, 0) > 16384 * MagnitudesFrom(w, 0) ==>
              && (factor > 0 ==> DotFrom(AdaptAll(taps, w, factor), w, 0) > DotFrom(taps, w, 0))
              && (factor < 0 ==> DotFrom(AdaptAll(taps, w, factor), w, 0) < DotFrom(taps, w, 0))
  {
    hide TapFits, DotFrom, AdaptAll, SquaresFrom, MagnitudesFrom;
    AdaptMoves(taps, w, factor, 0);
    if Abs(factor) * SquaresFrom(w, 0) > 16384 * MagnitudesFrom(w, 0) {
      SignOfChange(DotFrom(AdaptAll(taps, w, factor), w, 0) - DotFrom(taps, w, 0), factor, SquaresFrom(w, 0),
                   MagnitudesFrom(w, 0));
    }
  }

  lemma SignOfChange(d: int, factor: int, q: nat, m: nat)
    requires Abs(32768 * d - factor * q) <= 16384 * m < Abs(factor) * q
    ensures (factor > 0 ==> d > 0) && (factor < 0 ==> d < 0)
  {
    if factor < 0 {
      assert factor * q == -(Abs(factor) * q);
    }
  }

  lemma SquaresBelow(power: int, k: nat, w: Window, n: nat, l: nat)
    requires 0 <= power <= Pow2(l + 1) && PowerTracks(power, k, w, n)
    ensures SquaresFrom(w, 0) <= Pow2(l + 1 + k)
  {
    hide SumSquares, SquaresFrom, Pow2;
    assert w[..0] == [];
    NoSquares();
    SquaresSplit(w, 0);
    MulMono(power, Pow2(l + 1), Pow2(k));
    Pow2Add(l + 1, k);
  }

  /** And it goes at most half of the way: with the shift taken from a power that tracks the
      window, the change is at most half of the residual, in units of 2^30. */
  lemma AtMostHalf(clean: int, power: int, k: nat, w: Window, n: nat)
    requires 0 <= power <= INT32_MAX && PowerTracks(power, k, w, n)
    requires NlmsShift(power, k) > 0
    ensures Abs(clean * Pow2(NlmsShift(power, k))) * SquaresFrom(w, 0) <= 0x2000_0000 * Abs(clean)
  {
    hide Abs, SumSquares, SquaresFrom, Pow2, NlmsShift, FloorLog2;
    var l := ShiftIs(power, k);
    var p, q := Pow2(28 - l - k), SquaresFrom(w, 0);
    SquaresBelow(power, k, w, n, l);
    Pow2Add(28 - l - k, l + 1 + k);
    Pow29();
    AbsProduct(clean, p);
    AbsOfNat(p);
    MulMono(q, Pow2(l + 1 + k), p);
    assert Pow2(l + 1 + k) * p == Pow2(29) by {
      assert 28 - l - k + (l + 1 + k) == 29;
    }
    HalfWay(Abs(clean), p, q);
  }

  lemma NoSquares()
    ensures SumSquares([]) == 0
  {}

  lemma AbsOfNat(p: nat)
    ensures Abs(p) == p
  {}

  lemma Pow29()
    ensures Pow2(29) == 0x2000_0000
  {
    Pow2Add(14, 15);
    assert Pow2(14) == 16384 && Pow2(15) == 32768;
  }

  lemma HalfWay(c: nat, p: nat, q: nat)
    requires q * p <= 0x2000_0000
    ensures c * p * q <= 0x2000_0000 * c
  {
    MulMono(q * p, 0x2000_0000, c);
    assert c * p * q == q * p * c;
  }

  // ---- The hangover --------------------------------------------------------------

  /** Without further double talk the hangover counts down to 0 in exactly 600 updates. */
  lemma {:induction false} HangoverExact(calls: seq<Call>, states: seq<Ec>, m: nat, j: nat)
    requires Trace(calls, states) && m + j < |calls| && j <= 599
    requires forall i :: m <= i <= m + j ==> calls[i].Sample? && (Detects(calls[i], states[i + 1]) <==> i == m)
    ensures states[m + j + 1].dwell == 599 - j
  {
    hide Apply, Detects, Met, Flush;
    TraceStep(calls, states, m + j);
    if j > 0 {
      HangoverExact(calls, states, m, j - 1);
    }
  }

  /** Update m + 600 is the first to learn again. */
  lemma AdaptionResumes(calls: seq<Call>, states: seq<Ec>, m: nat)
    requires Trace(calls, states) && m + 600 < |calls| && calls[m + 600].Sample?
    requires forall i :: m <= i < m + 600 ==> calls[i].Sample? && (Detects(calls[i], states[i + 1]) <==> i == m)
    ensures var s, c, t := states[m + 600], calls[m + 600], states[m + 601];
            t.bg == AdaptAll(s.bg, Seen(s, c), Factor(ResidualBg(s, c), NlmsShift(t.power, s.log2taps)))
  {
    hide Apply, Detects, AdaptAll, Factor, NlmsShift, ResidualBg, Seen;
    HangoverExact(calls, states, m, 599);
    assert Follows(calls, states, m + 600);
    UpdateAdapts(states[m + 600], calls[m + 600]);
  }
}

/** What holds of every run of the echo canceller, for every pair of input streams. */
module EchoRuns {
  import opened Words
  import opened TopBit
  import opened Fir
  import opened EchoStages
  import opened EchoSpec

  // ---- Ranges --------------------------------------------------------------------

  ghost predicate Halved(w: Window) {
    forall i :: 0 <= i < |w| ==> -16384 <= w[i] <= 16384
  }

  ghost predicate TapsFit(taps: seq<int>) {
    forall i :: 0 <= i < |taps| ==> Int16(taps[i])
  }

  /** The background noise level never exceeds the loudest clean sample, nor does the level
      noise was last generated at (1000 before the first time). */
  ghost predicate NoiseWithin(n: Noise) {
    && 0 <= n.acc <= 0x1000 * 32768 + 0x7FF && n.level == (n.acc + 0x800) / 0x1000
    && 0 <= n.cngLevel <= 32768
    && INT32_MIN <= n.cngRnd <= INT32_MAX && -10923 <= n.cngFilter <= 10922
  }

  /** The DC filter's accumulator, the power and the taps fit, every level is within its
      signal's range, and the transfer counter is in 0..6. */
  ghost predicate Good(s: Ec) {
    && Shaped(s) && Halved(s.window)
    && DcBounded(s.rxDc, 16384)
    && LevelWithin(s.ltx, 16384) && LevelWithin(s.lrx, 16384)
    && LevelWithin(s.lclean, 32768) && LevelWithin(s.lcleanBg, 49152)
    && s.condMet <= 6 && 0 <= s.power <= INT32_MAX && s.dwell <= DTD_HANGOVER - 1
    && NoiseWithin(s.noise) && TapsFit(s.fg) && TapsFit(s.bg)
  }

  lemma HighPassRange(s: Ec, rx: int)
    requires DcBounded(s.rxDc, 16384) && -16384 <= rx <= 16384
    ensures DcBounded(HighPass(s, rx).0, 16384) && -16384 <= HighPass(s, rx).1 <= 16384
  {
    DcStepBounded(s.rxDc, rx, 16384);
  }

  lemma FilteredGood(s: Ec, tx: int, rx: int)
    requires Good(s) && -16384 <= tx <= 16384 && -16384 <= rx <= 16384
    ensures Good(Filtered(s, tx, rx).0)
  {
    HighPassRange(s, rx);
    var rx' := HighPass(s, rx).1;
    var window := Shift(s.window, tx);
    LevelStepWithin(s.ltx, Abs(tx), 16384);
    LevelStepWithin(s.lrx, Abs(rx'), 16384);
    LevelStepWithin(s.lclean, Abs(Wrap16(rx' - FirValue(s.fg, window))), 32768);
    LevelStepWithin(s.lcleanBg, Abs(rx' - FirValue(s.bg, window)), 49152);
  }

  lemma AdaptedFit(s: Ec, cleanBg: int)
    requires Shaped(s) && TapsFit(s.bg)
    ensures TapsFit(AdaptedBg(s, cleanBg).bg)
  {}

  lemma NoiseStays(n: Noise, clean: int)
    requires NoiseWithin(n) && Int16(clean)
    ensures NoiseWithin(Comfort(n).1) && NoiseWithin(Estimated(n, clean))
  {}

  lemma ControlGood(s: Ec, cleanBg: int, clean: int)
    requires Good(s) && Int16(clean)
    ensures var t := Transferred(Dwelled(AdaptedBg(s, cleanBg)));
            Good(t) && Good(t.(noise := Processed(t, clean).1))
  {
    hide TapsFit, AdaptAll, Factor, NlmsShift, Comfort, Estimated, Clipped, NoiseWithin;
    AdaptedFit(s, cleanBg);
    NoiseStays(s.noise, clean);
  }

  lemma ApplyGood(s: Ec, c: Call)
    requires Good(s) && Legal(c)
    ensures Good(Apply(s, c))
  {
    if c.Sample? {
      var s' := s.(mode := c.mode);
      FilteredGood(s', c.tx / 2, c.rx / 2);
      var (filtered, clean, cleanBg) := Filtered(s', c.tx / 2, c.rx / 2);
      ControlGood(filtered, cleanBg, clean);
    }
  }

  /** Every reachable state is Good: no quantity of the machine leaves its C type. */
  lemma {:induction false} RunsAreGood(calls: seq<Call>, states: seq<Ec>, taps: nat, mode: Mode, k: nat)
    requires Started(calls, states, taps, mode) && k < |states|
    ensures Good(states[k])
  {
    hide Apply, Filtered;
    if k > 0 {
      RunsAreGood(calls, states, taps, mode, k - 1);
      assert Follows(calls, states, k - 1);
      ApplyGood(states[k - 1], calls[k - 1]);
    }
  }

  /** While residual echo is suppressed without comfort noise, what goes out is the clean
      sample clamped to the background noise level, or silence. */
  lemma SuppressionClamps(s: Ec, clean: int)
    requires Good(s) && Int16(clean)
    requires s.mode.nlp && !s.mode.cng && 16 * s.lclean.avg < s.ltx.avg
    ensures var (out, noise) := Processed(s, clean);
            && noise == s.noise && 0 <= noise.level <= 32768
            && out == if !s.mode.clip then 0
                      else if Abs(clean) <= noise.level then clean
                      else if clean > 0 then noise.level else 0 - noise.level
  {}

  lemma AdaptByNothing(taps: seq<int>, w: Window)
    requires |taps| == |w| && TapsFit(taps)
    ensures AdaptAll(taps, w, 0) == taps
  {
    forall i | 0 <= i < |taps| ensures Adapted(taps[i], w[i], 0) == taps[i] {
      NoCorrection(taps[i], w[i]);
    }
  }

  lemma NoCorrection(tap: int, sample: int)
    requires Int16(tap)
    ensures Adapted(tap, sample, 0) == tap
  {
    assert sample * 0 == 0;
  }

  /** A background filter without residual error is left as it is, whatever the power. */
  lemma NoErrorNoAdaption(s: Ec)
    requires Good(s)
    ensures AdaptedBg(s, 0) == s
  {
    hide Adapted;
    var shift := NlmsShift(s.power, s.log2taps);
    assert Factor(0, shift) == 0 by {
      if shift > 0 { assert 0 * Pow2(shift % 32) == 0; } else { assert 0 / Pow2((0 - shift) % 32) == 0; }
    }
    AdaptByNothing(s.bg, s.window);
  }

  // ---- Every pair of input streams has a run --------------------------------------

  /** So the statements below are about every stream of legal calls. */
  lemma {:induction false} RunExists(calls: seq<Call>, taps: nat, mode: Mode) returns (states: seq<Ec>)
    requires taps > 0 && forall c :: c in calls ==> Legal(c)
    ensures Started(calls, states, taps, mode)
  {
    hide Apply, Create;
    if calls == [] {
      states := [Create(taps, mode)];
    } else {
      var n := |calls| - 1;
      var before := RunExists(calls[..n], taps, mode);
      states := before + [Apply(before[n], calls[n])];
      forall k: nat | k < |calls| ensures Follows(calls, states, k) {
        if k < n {
          assert Follows(calls[..n], before, k);
        } else {
          assert calls[n] in calls;
        }
      }
    }
  }

  // ---- Double talk freezes the filters -------------------------------------------

  /** The update c that ends in state t detects double talk: the levels it compares are the
      ones it leaves. */
  ghost predicate Detects(c: Call, t: Ec) {
    c.Sample? && DoubleTalk(t)
  }

  /** The levels after the first sample of a new canceller. */
  lemma FirstLevels(taps: nat, before: Mode, mode: Mode, tx: int, rx: int)
    requires taps > 0 && !mode.rxHpf
    ensures var t := Apply(Create(taps, before), Sample(tx, rx, mode));
            t.lrx.avg == (Abs(rx / 2) + 16) / 32 && t.ltx.avg == (Abs(tx / 2) + 16) / 32
  {
    hide FirValue, PowerStep, AdaptAll, Factor, NlmsShift, Silence, FloorLog2;
  }

  /** A run can begin with double talk: without the receive filter, the first sample counts
      as such exactly if it is loud, and louder than what is sent. */
  lemma DoubleTalkAtOnceIff(calls: seq<Call>, states: seq<Ec>, taps: nat, mode: Mode)
    requires Started(calls, states, taps, mode) && calls != [] && calls[0].Sample? && !calls[0].mode.rxHpf
    ensures var tx, rx := Abs(calls[0].tx / 2), Abs(calls[0].rx / 2);
            Detects(calls[0], states[1]) <==> rx >= 2064 && (rx + 16) / 32 > (tx + 16) / 32
  {
    hide Apply, Create;
    assert Follows(calls, states, 0);
    FirstLevels(taps, mode, calls[0].mode, calls[0].tx, calls[0].rx);
  }

  /** The transfer condition holds in the update that c makes. */
  ghost predicate Met(s: Ec, c: Call)
    requires Shaped(s)
  {
    c.Sample? &&
    var (filtered, _, cleanBg) := Filtered(s.(mode := c.mode), c.tx / 2, c.rx / 2);
    TransferDue(Dwelled(AdaptedBg(filtered, cleanBg)))
  }

  /** What one update does to the hangover, the counter and the two sets of taps. */
  lemma UpdateControl(s: Ec, c: Call)
    requires Shaped(s) && c.Sample?
    ensures var t := Apply(s, c);
            && t.dwell == (if Detects(c, t) then DTD_HANGOVER - 1 else if s.dwell > 0 then s.dwell - 1 else 0)
            && (s.dwell > 0 ==> t.bg == s.bg)
            && (Met(s, c) ==> t.dwell == 0)
            && t.condMet == (if !Met(s, c) then 0 else if s.condMet == 6 then 6 else s.condMet + 1)
            && t.fg == (if Met(s, c) && s.condMet == 6 then t.bg else s.fg)
  {
    hide HighPass, PowerStep, LevelStep, FirValue, AdaptAll, Factor, NlmsShift, Processed;
  }

  lemma TraceStep(calls: seq<Call>, states: seq<Ec>, k: nat)
    requires Trace(calls, states) && k < |calls|
    ensures var s, c, t := states[k], calls[k], states[k + 1];
            if c.FlushCall? then t == Flush(s)
            else
              && t.dwell == (if Detects(c, t) then DTD_HANGOVER - 1 else if s.dwell > 0 then s.dwell - 1 else 0)
              && (s.dwell > 0 ==> t.bg == s.bg)
              && (Met(s, c) ==> t.dwell == 0)
              && t.condMet == (if !Met(s, c) then 0 else if s.condMet == 6 then 6 else s.condMet + 1)
              && t.fg == (if Met(s, c) && s.condMet == 6 then t.bg else s.fg)
  {
    assert Follows(calls, states, k);
    if calls[k].Sample? {
      UpdateControl(states[k], calls[k]);
    }
  }

  lemma {:induction false} Hangover(calls: seq<Call>, states: seq<Ec>, m: nat, j: nat)
    requires Trace(calls, states) && m + j < |calls| && j <= 604
    requires forall i :: m <= i <= m + j ==> calls[i].Sample?
    requires Detects(calls[m], states[m + 1]) && states[m].condMet <= 6
    ensures states[m + j + 1].dwell >= DTD_HANGOVER - 1 - j
    ensures states[m + j + 1].condMet <= if j <= 598 then 0 else j - 598
  {
    hide Apply, Filtered;
    TraceStep(calls, states, m + j);
    if j > 0 {
      Hangover(calls, states, m, j - 1);
    }
  }

  /** After update m detects double talk the background filter stands still in updates
      m+1 to m+599 and the foreground filter in updates m to m+604. */
  lemma DoubleTalkFreezes(calls: seq<Call>, states: seq<Ec>, taps: nat, mode: Mode, m: nat, j: nat)
    requires Started(calls, states, taps, mode) && m + j < |calls| && j <= 604
    requires forall i :: m <= i <= m + j ==> calls[i].Sample?
    requires Detects(calls[m], states[m + 1])
    ensures 1 <= j <= 599 ==> states[m + j + 1].bg == states[m + j].bg
    ensures states[m + j + 1].fg == states[m + j].fg
  {
    hide Apply, Filtered;
    RunsAreGood(calls, states, taps, mode, m);
    TraceStep(calls, states, m + j);
    if j > 0 {
      Hangover(calls, states, m, j - 1);
    } else {
      assert states[m + 1].condMet == 0;
    }
  }

  // ---- Transfers -----------------------------------------------------------------

  /** Updates in a row, up to the k-th call, in which the condition held; a flush in
      between neither counts nor breaks the row, for oslec_flush leaves cond_met alone. */
  ghost function Streak(calls: seq<Call>, states: seq<Ec>, k: nat): nat
    requires Trace(calls, states) && k <= |calls|
  {
    if k == 0 then 0
    else if calls[k - 1].FlushCall? then Streak(calls, states, k - 1)
    else if Met(states[k - 1], calls[k - 1]) then Streak(calls, states, k - 1) + 1
    else 0
  }

  lemma {:induction false} CounterIsStreak(calls: seq<Call>, states: seq<Ec>, taps: nat, mode: Mode, k: nat)
    requires Started(calls, states, taps, mode) && k <= |calls|
    ensures states[k].condMet == if Streak(calls, states, k) < 6 then Streak(calls, states, k) else 6
  {
    hide Apply, Filtered;
    if k > 0 {
      CounterIsStreak(calls, states, taps, mode, k - 1);
      TraceStep(calls, states, k - 1);
    }
  }

  /** The k-th call leaves the background taps in the foreground filter if the condition
      has held for 7 updates in a row, and unless it has, leaves the foreground alone. */
  lemma TransferIffSevenInARow(calls: seq<Call>, states: seq<Ec>, taps: nat, mode: Mode, k: nat)
    requires Started(calls, states, taps, mode) && k < |calls| && calls[k].Sample?
    ensures Streak(calls, states, k + 1) >= 7 ==> states[k + 1].fg == states[k + 1].bg
    ensures Streak(calls, states, k + 1) < 7 ==> states[k + 1].fg == states[k].fg
  {
    hide Apply, Filtered;
    CounterIsStreak(calls, states, taps, mode, k);
    TraceStep(calls, states, k);
  }

  // ---- What one call does to window and power -------------------------------------

  lemma SampleWindowAndPower(s: Ec, c: Call)
    requires Shaped(s) && c.Sample?
    ensures var t := Apply(s, c);
            t.window == Shift(s.window, c.tx / 2) && t.log2taps == s.log2taps
            && t.power == PowerStep(s.power, s.log2taps, s.window, c.tx / 2)
  {}

  lemma FlushClears(s: Ec)
    requires Shaped(s)
    ensures var t := Apply(s, FlushCall);
            t.window == Silence(|s.window|) && t.power == 0 && t.log2taps == s.log2taps
  {}

  lemma {:induction false} SizesStay(calls: seq<Call>, states: seq<Ec>, taps: nat, mode: Mode, k: nat)
    requires Started(calls, states, taps, mode) && k < |states|
    ensures |states[k].window| == taps && states[k].log2taps == FloorLog2(taps)
  {
    if k > 0 {
      hide Apply, Shift, FloorLog2;
      var s, c := states[k - 1], calls[k - 1];
      SizesStay(calls, states, taps, mode, k - 1);
      assert Follows(calls, states, k - 1);
      if c.Sample? { SampleWindowAndPower(s, c); } else { FlushClears(s); }
    }
  }

  // ---- The window ----------------------------------------------------------------

  function Transmitted(calls: seq<Call>): seq<int> {
    if calls == [] then []
    else
      match calls[|calls| - 1]
      case Sample(tx, _, _) => Transmitted(calls[..|calls| - 1]) + [tx / 2]
      case FlushCall => []
  }

  lemma TransmittedStep(calls: seq<Call>, k: nat)
    requires 0 < k <= |calls|
    ensures Transmitted(calls[..k]) ==
            if calls[k - 1].Sample? then Transmitted(calls[..k - 1]) + [calls[k - 1].tx / 2] else []
  {
    assert calls[..k][..k - 1] == calls[..k - 1];
  }

  lemma WindowAfterSnoc(taps: nat, stream: seq<int>, sample: int)
    requires taps > 0
    ensures WindowAfter(taps, stream + [sample]) == Shift(WindowAfter(taps, stream), sample)
  {
    assert (stream + [sample])[..|stream|] == stream;
  }

  /** Both filters always see the last taps halved samples since create or flush. */
  lemma {:induction false} WindowIsHistory(calls: seq<Call>, states: seq<Ec>, taps: nat, mode: Mode, k: nat)
    requires Started(calls, states, taps, mode) && k <= |calls|
    ensures states[k].window == WindowAfter(taps, Transmitted(calls[..k]))
  {
    if k > 0 {
      hide Apply, Transmitted, WindowAfter, Shift, Create;
      var s, c := states[k - 1], calls[k - 1];
      WindowIsHistory(calls, states, taps, mode, k - 1);
      TransmittedStep(calls, k);
      assert Follows(calls, states, k - 1);
      if c.Sample? {
        SampleWindowAndPower(s, c);
        WindowAfterSnoc(taps, Transmitted(calls[..k - 1]), c.tx / 2);
      } else {
        FlushClears(s);
        SilenceIsStart(taps);
      }
    }
  }

  lemma SilenceIsStart(taps: nat)
    requires taps > 0
    ensures WindowAfter(taps, []) == Silence(taps)
  {}
}

/** The echo canceller object: two FIR filters over separate histories, two sets of taps
    and the scalar state, updated in place one sample at a time. */
module EchoCanceller {
  import opened Words
  import opened TopBit
  import opened Fir
  import opened EchoStages
  import opened EchoSpec
  import opened EchoAdapt
  import opened EchoOutput

  class OslecState {
    const taps: nat
    const log2taps: nat
    const fir: CircularFir      // fir_state
    const firBg: CircularFir    // fir_state_bg
    const fgTaps: array<int>    // fir_taps16[0]
    const bgTaps: array<int>    // fir_taps16[1]
    var mode: Mode
    var currPos: nat
    var rx1: int
    var rx2: int
    var tx1: int
    var tx2: int
    var power: int              // Pstates
    var ltx: Level
    var lrx: Level
    var lclean: Level
    var lcleanBg: Level
    var dwell: nat              // nonupdate_dwell
    var condMet: nat
    var noise: Noise

    /** The objects are separate and sized alike, and both filters have seen the same. */
    ghost predicate Paired()
      reads this, fir, firBg, fir.history, firBg.history
    {
      && taps > 0 && log2taps == FloorLog2(taps) && currPos < taps
      && fir.taps == firBg.taps == fgTaps.Length == bgTaps.Length == taps
      && fir != firBg && fir.history != firBg.history && fgTaps != bgTaps
      && {fir.history, firBg.history} !! {fgTaps, bgTaps}
      && fir.Valid() && firBg.Valid()
      && fir.currPos == firBg.currPos && fir.window == firBg.window
      && fir.history[..] == firBg.history[..]
    }

    /** At every call boundary the three positions agree. */
    ghost predicate Valid()
      reads this, fir, firBg, fir.history, firBg.history
    {
      Paired() && fir.currPos == currPos
    }

    /** Between the filters and the end of an update, both filters are one step ahead. */
    ghost predicate Ahead()
      reads this, fir, firBg, fir.history, firBg.history
    {
      Paired() && fir.currPos == Back(taps, currPos)
    }

    /** The abstract state. */
    ghost function Value(): Ec
      reads this, fir, fgTaps, bgTaps
    {
      Ec(mode, log2taps, fir.window, fgTaps[..], bgTaps[..], Dc(rx1, rx2), power, ltx, lrx, lclean, lcleanBg,
         dwell, condMet, noise)
    }

    /** oslec_create. */
    constructor (taps: nat, mode: Mode)
      requires taps > 0
      ensures Valid() && Value() == Create(taps, mode) && tx1 == tx2 == 0
      ensures fresh(fir) && fresh(firBg) && fresh(fir.history) && fresh(firBg.history) && fresh(fgTaps) && fresh(bgTaps)
    {
      this.taps, this.log2taps, this.currPos, this.mode := taps, FloorLog2(taps), taps - 1, mode;
      fir := new CircularFir(taps);
      firBg := new CircularFir(taps);
      fgTaps := new int[taps](_ => 0);
      bgTaps := new int[taps](_ => 0);
      rx1, rx2, tx1, tx2, power := 0, 0, 0, 0, 0;
      ltx, lrx, lclean, lcleanBg := Level(0, 0), Level(0, 0), Level(0, 0), Level(0, 0);
      dwell, condMet, noise := 0, 0, Noise(0, 0, 1000, 0, 0);
      new;
      assert fgTaps[..] == Silence(taps) && bgTaps[..] == Silence(taps);
      HistoriesAgree(fir.history[..], firBg.history[..], taps - 1, Silence(taps));
    }

    /** oslec_adaption_mode. */
    method SetMode(mode: Mode)
      requires Valid()
      modifies this`mode
      ensures Valid() && Value() == old(Value()).(mode := mode)
    {
      this.mode := mode;
    }

    /** oslec_hpf_tx. */
    method HighPassTx(tx: int) returns (r: int)
      modifies this`tx1, this`tx2
      ensures Dc(tx1, tx2) == if mode.txHpf then DcStep(old(Dc(tx1, tx2)), tx) else old(Dc(tx1, tx2))
      ensures r == if mode.txHpf then Limit(tx1 / 0x8000, 32767) else tx
      ensures mode.txHpf && -32767 * 32768 <= tx1 < 32768 * 32768 ==> 32768 * r <= tx1 < 32768 * (r + 1)
    {
      hide DcStep;
      r := tx;
      if mode.txHpf {
        tx1, tx2 := DcFilter(tx1, tx2, tx);
        r := tx1 / 0x8000;
        if r > 32767 {
          r := 32767;
        }
        if r < -32767 {
          r := -32767;
        }
      }
    }

    /** The receive DC filter of oslec_update. */
    method HighPassRx(rx: int) returns (r: int)
      requires Valid()
      modifies this`rx1, this`rx2
      ensures Valid() && Value() == old(Value()).(rxDc := HighPass(old(Value()), rx).0)
      ensures r == HighPass(old(Value()), rx).1
    {
      hide DcStep;
      r := rx;
      if mode.rxHpf {
        rx1, rx2 := DcFilter(rx1, rx2, rx);
        r := rx1 / 0x8000;
        if r > 16383 {
          r := 16383;
        }
        if r < -16383 {
          r := -16383;
        }
      }
    }

    /** Pstates: the sample about to be overwritten leaves, the new one enters. */
    method TrackPower(tx: int)
      requires Valid()
      modifies this`power
      ensures Valid() && Value() == old(Value()).(power := PowerStep(old(power), log2taps, fir.window, tx))
    {
      var oldest := fir.history[fir.currPos];
      assert fir.window[taps - 1] == fir.history[..][At(taps, fir.currPos, taps)];
      power := Wrap32(power + (tx * tx - oldest * oldest + Pow2(log2taps)) / Pow2(log2taps));
      if power < 0 {
        power := 0;
      }
    }

    /** The level trackers and both filters. */
    method FilterBoth(tx: int, rx: int) returns (clean: int, cleanBg: int)
      requires Valid()
      modifies this`ltx, this`lrx, this`lclean, this`lcleanBg
      modifies fir`currPos, fir`window, fir.history, firBg`currPos, firBg`window, firBg.history
      ensures Ahead()
      ensures var s, w := old(Value()), Shift(old(fir.window), tx);
              && clean == Wrap16(rx - FirValue(s.fg, w)) && cleanBg == rx - FirValue(s.bg, w)
              && Value() == s.(window := w, ltx := LevelStep(s.ltx, Abs(tx)), lrx := LevelStep(s.lrx, Abs(rx)),
                             lclean := LevelStep(s.lclean, Abs(clean)), lcleanBg := LevelStep(s.lcleanBg, Abs(cleanBg)))
    {
      hide LevelStep, FirValue, Shift, Abs, Wrap16, Fir.Holds;
      ltx := LevelStep(ltx, Abs(tx));
      lrx := LevelStep(lrx, Abs(rx));
      var echo := fir.Filter(fgTaps, tx);
      clean := Wrap16(rx - echo);
      lclean := LevelStep(lclean, Abs(clean));
      echo := firBg.Filter(bgTaps, tx);
      cleanBg := rx - echo;
      lcleanBg := LevelStep(lcleanBg, Abs(cleanBg));
    }

    /** Background adaption, unless the hangover is running. */
    method AdaptBackground(cleanBg: int)
      requires Ahead()
      modifies bgTaps
      ensures Ahead() && Value() == AdaptedBg(old(Value()), cleanBg)
    {
      if dwell == 0 {
        var shift := NlmsShift(power, log2taps);
        var factor := FactorOf(cleanBg, shift);
        NewestAt(firBg.history[..], currPos, firBg.window);
        AdaptCircular(bgTaps, firBg.history, currPos, factor, firBg.window);
      }
    }

    /** The double talk detector and its hangover. */
    method Detect()
      requires Ahead()
      modifies this`dwell
      ensures Ahead() && Value() == Dwelled(old(Value()))
    {
      if lrx.avg > MIN_POWER && lrx.avg > ltx.avg {
        dwell := DTD_HANGOVER;
      }
      if dwell > 0 {
        dwell := dwell - 1;
      }
    }

    /** The transfer logic. */
    method Transfer()
      requires Ahead()
      modifies this`condMet, fgTaps
      ensures Ahead() && Value() == Transferred(old(Value()))
    {
      if mode.adapt && dwell == 0 && 8 * lcleanBg.avg < 7 * lclean.avg && 8 * lcleanBg.avg < ltx.avg {
        if condMet == 6 {
          forall i | 0 <= i < taps {
            fgTaps[i] := bgTaps[i];
          }
          assert fgTaps[..] == bgTaps[..];
        } else {
          condMet := condMet + 1;
        }
      } else {
        condMet := 0;
      }
    }

    /** Comfort noise generation. */
    method MakeNoise() returns (nlp: int)
      modifies this`noise
      ensures (nlp, noise) == Comfort(old(noise))
    {
      hide Wrap16, Wrap32;
      var rnd := Wrap32(1664525 * noise.cngRnd + 1013904223);
      var filter := Wrap32(rnd % 0x1_0000 - 32768 + 5 * noise.cngFilter) / 8;
      nlp := Wrap16(Wrap32(Wrap32(filter * noise.level) * 8) / 0x4000);
      noise := noise.(cngLevel := noise.level, cngRnd := rnd, cngFilter := filter);
    }

    /** Clipping to the background noise level. */
    method Clip(clean: int) returns (nlp: int)
      ensures nlp == Clipped(clean, noise.level)
    {
      hide Wrap16;
      nlp := clean;
      if nlp > noise.level {
        nlp := Wrap16(noise.level);
      }
      if nlp < -noise.level {
        nlp := Wrap16(-noise.level);
      }
    }

    /** Non-linear processing. */
    method Process(clean: int) returns (nlp: int)
      requires Ahead()
      modifies this`noise
      ensures Ahead() && Value() == old(Value()).(noise := Processed(old(Value()), clean).1)
      ensures nlp == Processed(old(Value()), clean).0
    {
      hide Comfort, Clipped;
      nlp := clean;
      if mode.nlp {
        if 16 * lclean.avg < ltx.avg {
          if mode.cng {
            nlp := MakeNoise();
          } else if mode.clip {
            nlp := Clip(clean);
          } else {
            nlp := 0;
          }
        } else if lclean.avg < 40 {
          noise := noise.(acc := noise.acc + Abs(clean) - noise.level);
          noise := noise.(level := (noise.acc + 0x800) / 0x1000);
        }
      }
    }

    /** The first half of oslec_update, on halved inputs; rx' is rx after its DC filter. */
    method FilterSample(tx: int, rx: int) returns (rx': int, clean: int, cleanBg: int)
      requires Valid()
      modifies this, fir, fir.history, firBg, firBg.history
      ensures Ahead() && (Value(), clean, cleanBg) == Filtered(old(Value()), tx, rx)
      ensures rx' == HighPass(old(Value()), rx).1
      ensures mode == old(mode) && tx1 == old(tx1) && tx2 == old(tx2)
    {
      hide HighPass, PowerStep, FirValue, LevelStep;
      rx' := HighPassRx(rx);
      TrackPower(tx);
      clean, cleanBg := FilterBoth(tx, rx');
    }

    /** The second half: adaption, double talk, transfer and non-linear processing. */
    method ControlSample(clean: int, cleanBg: int) returns (nlp: int)
      requires Ahead()
      modifies this`dwell, this`condMet, this`noise, fgTaps, bgTaps
      ensures Ahead()
      ensures var t := Transferred(Dwelled(AdaptedBg(old(Value()), cleanBg)));
              Value() == t.(noise := Processed(t, clean).1) && nlp == Processed(t, clean).0
    {
      hide AdaptedBg, Dwelled, Transferred, Processed, Paired;
      AdaptBackground(cleanBg);
      Detect();
      Transfer();
      nlp := Process(clean);
    }

    /** The whole of oslec_update, against the abstract machine. */
    method UpdateSample(tx: int, rx: int) returns (out: int)
      requires Valid()
      modifies this, fir, fir.history, firBg, firBg.history, fgTaps, bgTaps
      ensures Valid()
      ensures Value() == EchoSpec.Update(old(Value()), tx, rx).0 && out == EchoSpec.Update(old(Value()), tx, rx).1
      ensures tx1 == old(tx1) && tx2 == old(tx2)
    {
      hide Filtered, HighPass, AdaptedBg, Dwelled, Transferred, Processed, Wrap16, FloorLog2, Fir.Holds;
      var rx', clean, cleanBg := FilterSample(tx / 2, rx / 2);
      var nlp := ControlSample(clean, cleanBg);
      if currPos <= 0 {
        currPos := taps;
      }
      currPos := currPos - 1;
      if mode.disable {
        nlp := rx';
      }
      out := Wrap16(nlp * 2);
    }

    /** oslec_update, and what goes out: disabled, the received sample less its lowest bit;
        without processing, that less twice the foreground filter's value. */
    method Update(tx: int, rx: int) returns (out: int)
      requires Valid()
      modifies this, fir, fir.history, firBg, firBg.history, fgTaps, bgTaps
      ensures Valid()
      ensures Value() == EchoSpec.Update(old(Value()), tx, rx).0 && out == EchoSpec.Update(old(Value()), tx, rx).1
      ensures old(mode).disable && !old(mode).rxHpf && Int16(rx) ==> out == rx / 2 * 2
      ensures !old(mode).disable && !old(mode).nlp && !old(mode).rxHpf ==>
                out == Wrap16(2 * Wrap16(rx / 2 - FirValue(old(fgTaps[..]), Shift(old(fir.window), tx / 2))))
      ensures tx1 == old(tx1) && tx2 == old(tx2)
    {
      hide EchoSpec.Update, FirValue, Shift, Wrap16, Fir.Holds;
      ghost var s := Value();
      out := UpdateSample(tx, rx);
      OutputIs(s, tx, rx);
    }

    /** The filters' part of oslec_flush. */
    method FlushFilters()
      requires Valid()
      modifies this`currPos, fir, fir.history, firBg, firBg.history, fgTaps, bgTaps
      ensures Valid()
      ensures var zeros := Silence(taps); Value() == old(Value()).(window := zeros, fg := zeros, bg := zeros)
    {
      hide Holds;
      fir.Flush();
      firBg.Flush();
      HistoriesAgree(fir.history[..], firBg.history[..], taps - 1, Silence(taps));
      Zero(fgTaps);
      Zero(bgTaps);
      currPos := taps - 1;
    }

    /** The levels, DC filters, hangover and power. */
    method FlushScalars()
      modifies this`ltx, this`lrx, this`lclean, this`lcleanBg, this`tx1, this`tx2, this`rx1, this`rx2
      modifies this`noise, this`dwell, this`power
      ensures ltx == lrx == lclean == lcleanBg == Level(0, 0)
      ensures tx1 == tx2 == rx1 == rx2 == power == 0 && dwell == 0
      ensures noise == old(noise).(level := 0, acc := 0)
    {
      ltx, lrx, lclean, lcleanBg := Level(0, 0), Level(0, 0), Level(0, 0), Level(0, 0);
      tx1, tx2, rx1, rx2 := 0, 0, 0, 0;
      noise := noise.(level := 0, acc := 0);
      dwell := 0;
      power := 0;
    }

    /** oslec_flush. */
    method Flush()
      requires Valid()
      modifies this, fir, fir.history, firBg, firBg.history, fgTaps, bgTaps
      ensures Valid() && Value() == EchoSpec.Flush(old(Value())) && tx1 == tx2 == 0
    {
      hide Holds, Silence;
      FlushFilters();
      FlushScalars();
    }
  }

  /** memset of an array of taps. */
  method Zero(a: array<int>)
    modifies a
    ensures a[..] == Silence(a.Length)
  {
    forall i | 0 <= i < a.Length {
      a[i] := 0;
    }
    assert a[..] == Silence(a.Length);
  }

  /** Two filters at the same position with the same window hold the same memory. */
  lemma HistoriesAgree(h: seq<int>, g: seq<int>, pos: nat, w: Window)
    requires Holds(h, pos, w) && Holds(g, pos, w)
    ensures h == g
  {
    forall p: nat | p < |w| ensures h[p] == g[p] {
      var i := if p > pos then p - pos - 1 else p + |w| - pos - 1;
      assert At(|w|, pos, i + 1) == p && w[i] == h[p] == g[p];
    }
  }

  /** After the background filter has moved on, the newest sample is where curr_pos of the
      canceller still points. */
  lemma NewestAt(history: seq<int>, pos: nat, w: Window)
    requires pos < |w| && Holds(history, Back(|w|, pos), w)
    ensures forall i: nat :: i < |w| ==> w[i] == history[At(|w|, pos, i)]
  {
    forall i: nat | i < |w| ensures At(|w|, Back(|w|, pos), i + 1) == At(|w|, pos, i) {}
  }
}

/** The echo canceller as a state machine over samples, and what holds of all its runs. */
module EchoSpec {
  import opened Words
  import opened TopBit
  import opened Fir
  import opened EchoStages

  const DTD_HANGOVER: nat := 600
  const MIN_POWER: nat := 64   // MIN_TX_POWER_FOR_ADAPTION and MIN_RX_POWER_FOR_ADAPTION

  /** The bits of adaption_mode. */
  datatype Mode = Mode(adapt: bool, nlp: bool, cng: bool, clip: bool, txHpf: bool, rxHpf: bool, disable: bool)

  /** Background noise estimate and comfort noise generator. */
  datatype Noise = Noise(level: int, acc: int, cngLevel: int, cngRnd: int, cngFilter: int)

  /** The window is that of both filters; fg and bg are fir_taps16[0] and [1]. */
  datatype Ec = Ec(
    mode: Mode, log2taps: nat, window: Window, fg: seq<int>, bg: seq<int>,
    rxDc: Dc, power: int, ltx: Level, lrx: Level, lclean: Level, lcleanBg: Level,
    dwell: nat, condMet: nat, noise: Noise)

  // ---- One background adaption ---------------------------------------------------

  /** clean << shift or clean >> -shift, as an int; shift counts are taken modulo 32. */
  function Factor(clean: int, shift: int): int {
    if shift > 0 then Wrap32(clean * Pow2(shift % 32)) else clean / Pow2((0 - shift) % 32)
  }

  /** The shift that stands for a division by the power of the filter states. */
  function NlmsShift(power: int, log2taps: nat): int {
    30 - 2 - (FloorLog2(U32(MIN_POWER + power)) + log2taps)
  }

  /** One tap: 32-bit product and rounding, 16-bit correction, 16-bit tap. */
  function Adapted(tap: int, sample: int, factor: int): int {
    Wrap16(tap + Wrap16(Wrap32(Wrap32(sample * factor) + 0x4000) / 0x8000))
  }

  /** Every tap i is corrected with the sample from i steps ago. */
  function AdaptAll(taps: seq<int>, w: Window, factor: int): (r: seq<int>)
    requires |taps| == |w|
    ensures |r| == |taps| && forall i :: 0 <= i < |r| ==> r[i] == Adapted(taps[i], w[i], factor)
  {
    if taps == [] then []
    else AdaptAll(taps[..|taps| - 1], w[..|w| - 1], factor) + [Adapted(taps[|taps| - 1], w[|w| - 1], factor)]
  }

  // ---- One update ----------------------------------------------------------------

  ghost predicate Shaped(s: Ec) {
    s.window != [] && |s.fg| == |s.bg| == |s.window|
  }

  function HighPass(s: Ec, rx: int): (Dc, int) {
    if s.mode.rxHpf then
      var d := DcStep(s.rxDc, rx);
      (d, Limit(d.x1 / 0x8000, 16383))
    else (s.rxDc, rx)
  }

  /** Up to the foreground and background filters and their level trackers. */
  function Filtered(s: Ec, tx: int, rx: int): (r: (Ec, int, int))
    requires Shaped(s)
    ensures Shaped(r.0)
  {
    var (rxDc, rx') := HighPass(s, rx);
    var window := Shift(s.window, tx);
    var clean := Wrap16(rx' - FirValue(s.fg, window));
    var cleanBg := rx' - FirValue(s.bg, window);
    (s.(rxDc := rxDc, window := window,
        power := PowerStep(s.power, s.log2taps, s.window, tx),
        ltx := LevelStep(s.ltx, Abs(tx)), lrx := LevelStep(s.lrx, Abs(rx')),
        lclean := LevelStep(s.lclean, Abs(clean)), lcleanBg := LevelStep(s.lcleanBg, Abs(cleanBg))),
     clean, cleanBg)
  }

  /** Background adaption, unless the hangover is running. */
  function AdaptedBg(s: Ec, cleanBg: int): (r: Ec)
    requires Shaped(s)
    ensures Shaped(r)
  {
    if s.dwell == 0
    then s.(bg := AdaptAll(s.bg, s.window, Factor(cleanBg, NlmsShift(s.power, s.log2taps))))
    else s
  }

  predicate DoubleTalk(s: Ec) {
    s.lrx.avg > MIN_POWER && s.lrx.avg > s.ltx.avg
  }

  function Dwelled(s: Ec): Ec {
    var dwell := if DoubleTalk(s) then DTD_HANGOVER else s.dwell;
    s.(dwell := if dwell > 0 then dwell - 1 else 0)
  }

  /** The transfer condition, on the levels and dwell of the running update. */
  predicate TransferDue(s: Ec) {
    s.mode.adapt && s.dwell == 0 && 8 * s.lcleanBg.avg < 7 * s.lclean.avg && 8 * s.lcleanBg.avg < s.ltx.avg
  }

  function Transferred(s: Ec): (r: Ec)
    requires Shaped(s)
    ensures Shaped(r)
  {
    if !TransferDue(s) then s.(condMet := 0)
    else if s.condMet == 6 then s.(fg := s.bg)
    else s.(condMet := s.condMet + 1)
  }

  /** Comfort noise. */
  function Comfort(n: Noise): (int, Noise) {
    var rnd := Wrap32(1664525 * n.cngRnd + 1013904223);
    var filter := Wrap32(rnd % 0x1_0000 - 32768 + 5 * n.cngFilter) / 8;
    (Wrap16(Wrap32(Wrap32(filter * n.level) * 8) / 0x4000), n.(cngLevel := n.level, cngRnd := rnd, cngFilter := filter))
  }

  function Clipped(clean: int, level: int): int {
    var high := if clean > level then Wrap16(level) else clean;
    if high < -level then Wrap16(-level) else high
  }

  /** The background noise estimate. */
  function Estimated(n: Noise, clean: int): Noise {
    var acc := n.acc + Abs(clean) - n.level;
    n.(acc := acc, level := (acc + 0x800) / 0x1000)
  }

  /** Non-linear processing: the sample to send and the noise state after it. */
  function Processed(s: Ec, clean: int): (int, Noise) {
    if !s.mode.nlp then (clean, s.noise)
    else if 16 * s.lclean.avg < s.ltx.avg then
      if s.mode.cng then Comfort(s.noise)
      else if s.mode.clip then (Clipped(clean, s.noise.level), s.noise)
      else (0, s.noise)
    else if s.lclean.avg < 40 then (clean, Estimated(s.noise, clean))
    else (clean, s.noise)
  }

  /** oslec_update: both inputs are halved on the way in and the output doubled. */
  function Update(s: Ec, tx: int, rx: int): (r: (Ec, int))
    requires Shaped(s)
    ensures Shaped(r.0)
  {
    var (filtered, clean, cleanBg) := Filtered(s, tx / 2, rx / 2);
    var t := Transferred(Dwelled(AdaptedBg(filtered, cleanBg)));
    var (nlp, noise) := Processed(t, clean);
    var out := if s.mode.disable then HighPass(s, rx / 2).1 else nlp;
    (t.(noise := noise), Wrap16(out * 2))
  }

  /** oslec_flush: cond_met and the comfort noise state survive it, the receive filter's
      own state and the taps do not. */
  function Flush(s: Ec): (r: Ec)
    ensures |r.window| == |s.window| == |r.fg| == |r.bg|
  {
    var zeros := Silence(|s.window|);
    s.(window := zeros, fg := zeros, bg := zeros, rxDc := Dc(0, 0), power := 0, ltx := Level(0, 0), lrx := Level(0, 0),
       lclean := Level(0, 0), lcleanBg := Level(0, 0), dwell := 0, noise := s.noise.(level := 0, acc := 0))
  }

  /** oslec_create. */
  function Create(taps: nat, mode: Mode): (r: Ec)
    requires taps > 0
    ensures Shaped(r)
  {
    var zeros := Silence(taps);
    Ec(mode, FloorLog2(taps), zeros, zeros, zeros, Dc(0, 0), 0, Level(0, 0), Level(0, 0), Level(0, 0), Level(0, 0),
       0, 0, Noise(0, 0, 1000, 0, 0))
  }

  // ---- Runs ----------------------------------------------------------------------

  /** A call of oslec_update or oslec_flush. The adaption mode may be set any number of times
      in between; mode is what the last setting left for this update. */
  datatype Call = Sample(tx: int, rx: int, mode: Mode) | FlushCall

  ghost predicate Int16(x: int) {
    -32768 <= x <= 32767
  }

  ghost predicate Legal(c: Call) {
    c.Sample? ==> Int16(c.tx) && Int16(c.rx)
  }

  function Apply(s: Ec, c: Call): (r: Ec)
    requires Shaped(s)
    ensures Shaped(r)
  {
    match c
    case Sample(tx, rx, mode) => Update(s.(mode := mode), tx, rx).0
    case FlushCall => Flush(s)
  }

  /** calls[k] is legal and leads from states[k] to states[k + 1]. */
  ghost predicate Follows(calls: seq<Call>, states: seq<Ec>, k: nat)
    requires |states| == |calls| + 1 && k < |calls|
  {
    Shaped(states[k]) && Legal(calls[k]) && states[k + 1] == Apply(states[k], calls[k])
  }

  /** states[k] is the state before calls[k]. */
  ghost predicate Trace(calls: seq<Call>, states: seq<Ec>) {
    && |states| == |calls| + 1
    && (forall k :: 0 <= k < |states| ==> Shaped(states[k]))
    && (forall k: nat :: k < |calls| ==> Follows(calls, states, k))
  }

  ghost predicate Started(calls: seq<Call>, states: seq<Ec>, taps: nat, mode: Mode) {
    taps > 0 && Trace(calls, states) && states[0] == Create(taps, mode)
  }
}

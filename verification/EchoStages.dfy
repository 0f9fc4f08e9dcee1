/** The recursive integer filters of the echo canceller: the DC blocking filters, the
    running power of the filter states and the level trackers. */
module EchoStages {
  import opened Words
  import opened Fir

  // ---- DC blocking filter --------------------------------------------------------

  /** rx_1 and rx_2, or tx_1 and tx_2. */
  datatype Dc = Dc(x1: int, x2: int)

  /** tmp = x << 15; tmp -= tmp >> 4. */
  function Gain(x: int): (r: int)
    ensures r == 30720 * x
  {
    x * 0x8000 - x * 0x8000 / 16
  }

  /** The right-hand side that is added to x1, before its last wrap: 32-bit operations
      from left to right. */
  function Increment(d: Dc, x: int): int {
    Wrap32(Wrap32(-(d.x1 / 8)) + Gain(x)) - d.x2
  }

  function DcStep(d: Dc, x: int): Dc {
    Dc(Wrap32(d.x1 + Wrap32(Increment(d, x))), Gain(x))
  }

  /** The statements on the accumulator, the same for rx and tx. */
  method DcFilter(x1: int, x2: int, x: int) returns (x1': int, x2': int)
    ensures Dc(x1', x2') == DcStep(Dc(x1, x2), x)
  {
    hide Wrap32;
    var tmp := x * 0x8000;
    tmp := tmp - tmp / 16;
    x1' := Wrap32(x1 + Wrap32(Wrap32(Wrap32(-(x1 / 8)) + tmp) - x2));
    x2' := tmp;
  }

  /** With inputs of magnitude at most m: x2 is a scaled input, and x1 stays near it. */
  ghost predicate DcBounded(d: Dc, m: int) {
    var X := 30720 * m;
    -X <= d.x2 <= X && -X <= d.x1 - d.x2 <= X + 7
  }

  /** Each step keeps the bounds, and wrapping never shows in the stored accumulator even
      where it does in the intermediate sum. */
  lemma DcStepBounded(d: Dc, x: int, m: int)
    requires DcBounded(d, m) && -m <= x <= m <= 32768
    ensures DcBounded(DcStep(d, x), m)
    ensures DcStep(d, x).x1 == d.x1 - d.x1 / 8 + Gain(x) - d.x2
    ensures -2 * (30720 * m) <= DcStep(d, x).x1 <= 2 * (30720 * m) + 7
  {
    hide Wrap32, Gain;
    var exact := d.x1 - d.x1 / 8 + Gain(x) - d.x2;
    assert -2 * (30720 * m) <= exact <= 2 * (30720 * m) + 7 <= INT32_MAX;
    Wrap32Add(-(d.x1 / 8) + Gain(x), -d.x2);
    Wrap32Add(-(d.x1 / 8), Gain(x));
    Wrap32Add(Increment(d, x), d.x1);
    Wrap32Add(-(d.x1 / 8) + Gain(x) - d.x2, d.x1);
  }

  function DcRun(d: Dc, xs: seq<int>): Dc {
    if xs == [] then d else DcStep(DcRun(d, xs[..|xs| - 1]), xs[|xs| - 1])
  }

  lemma {:induction false} DcRunBounded(xs: seq<int>, m: int)
    requires 0 <= m <= 32768 && forall i :: 0 <= i < |xs| ==> -m <= xs[i] <= m
    ensures DcBounded(DcRun(Dc(0, 0), xs), m)
  {
    if xs != [] {
      DcRunBounded(xs[..|xs| - 1], m);
      DcStepBounded(DcRun(Dc(0, 0), xs[..|xs| - 1]), xs[|xs| - 1], m);
    }
  }

  /** n + 1 further samples of the same value. */
  function Hold(d: Dc, x: int, n: nat): Dc {
    if n == 0 then DcStep(d, x) else DcStep(Hold(d, x, n - 1), x)
  }

  lemma HoldStart(d: Dc, x: int)
    requires DcBounded(d, 32768) && -32768 <= x <= 32768
    ensures DcBounded(DcStep(d, x), 32768) && DcStep(d, x).x2 == Gain(x)
  {
    DcStepBounded(d, x, 32768);
  }

  lemma HoldStep(d: Dc, x: int)
    requires DcBounded(d, 32768) && -32768 <= x <= 32768 && d.x2 == Gain(x)
    ensures var t := DcStep(d, x);
            && DcBounded(t, 32768) && t.x2 == Gain(x)
            && if 0 <= d.x1 <= 7 then t == d
               else if d.x1 > 7 then 0 < t.x1 < d.x1 else d.x1 < t.x1 <= 0
  {
    DcStepBounded(d, x, 32768);
  }

  /** A constant input dies away from one side: the accumulator loses at least one unit a
      sample until it rests in 0..7, from where the output is 0 for good. */
  lemma {:induction false} ConstantIsBlocked(d: Dc, x: int, n: nat)
    requires DcBounded(d, 32768) && -32768 <= x <= 32768
    ensures var a, b := Hold(d, x, 0).x1, Hold(d, x, n).x1;
            && DcBounded(Hold(d, x, n), 32768) && Hold(d, x, n).x2 == Gain(x)
            && (a > 7 ==> 0 < b <= a && (b <= 7 || b <= a - n))
            && (0 <= a <= 7 ==> b == a)
            && (a < 0 ==> a <= b <= 0 && (b == 0 || b >= a + n))
            && (n >= Abs(a) ==> 0 <= b <= 7 && b / 0x8000 == 0)
  {
    hide DcStep, DcBounded, Gain;
    if n == 0 {
      HoldStart(d, x);
    } else {
      ConstantIsBlocked(d, x, n - 1);
      HoldStep(Hold(d, x, n - 1), x);
    }
  }

  // ---- Overflow of the intermediate sum ------------------------------------------

  const FITS: int := 31068

  ghost predicate Within(xs: seq<int>, m: int) {
    forall i :: 0 <= i < |xs| ==> -m <= xs[i] <= m
  }

  lemma IncrementFits(d: Dc, x: int, m: int)
    requires DcBounded(d, m) && -m <= x <= m <= FITS
    ensures Increment(d, x) == -(d.x1 / 8) + Gain(x) - d.x2
    ensures INT32_MIN <= Increment(d, x) <= INT32_MAX
  {}

  /** With halved input, as on the receive side, not even the intermediate sum overflows. */
  lemma HalvedInputNeverOverflows(d: Dc, x: int)
    requires DcBounded(d, 16384) && -16384 <= x <= 16384
    ensures Increment(d, x) == -(d.x1 / 8) + Gain(x) - d.x2
    ensures INT32_MIN <= Increment(d, x) <= INT32_MAX
  {
    IncrementFits(d, x, 16384);
  }

  function Same(x: int, n: nat): (xs: seq<int>)
    ensures |xs| == n && forall i :: 0 <= i < n ==> xs[i] == x
  {
    if n == 0 then [] else Same(x, n - 1) + [x]
  }

  lemma {:induction false} DcRunSame(d: Dc, x: int, n: nat)
    ensures DcRun(d, Same(x, n + 1)) == Hold(d, x, n)
  {
    assert Same(x, n + 1)[..n] == Same(x, n);
    if n > 0 {
      DcRunSame(d, x, n - 1);
    }
  }

  /** From rest after a constant input, a jump to the other end of the range leaves the
      accumulator at twice that end; a jump back then adds two and a quarter ends. */
  lemma JumpBack(d: Dc, x: int)
    requires 0 <= d.x1 <= 7 && d.x2 == Gain(x) && x == FITS + 1
    ensures Increment(DcStep(d, -x), x) > INT32_MAX
  {
    DcStepBounded(d, -x, x);
  }

  lemma OverflowRun() returns (xs: seq<int>)
    ensures Within(xs, FITS + 1) && Increment(DcRun(Dc(0, 0), xs), FITS + 1) > INT32_MAX
  {
    hide DcStep, Increment;
    var x := FITS + 1;
    var n := Abs(Hold(Dc(0, 0), x, 0).x1);
    ConstantIsBlocked(Dc(0, 0), x, n);
    DcRunSame(Dc(0, 0), x, n);
    JumpBack(Hold(Dc(0, 0), x, n), x);
    xs := Same(x, n + 1) + [-x];
    assert xs[..n + 1] == Same(x, n + 1);
  }

  /** No run of samples of magnitude at most m takes the sum out of 32 bits. */
  ghost predicate NeverOverflows(m: int) {
    forall xs: seq<int>, x: int :: Within(xs, m) && -m <= x <= m ==>
      INT32_MIN <= Increment(DcRun(Dc(0, 0), xs), x) <= INT32_MAX
  }

  /** For samples up to full scale the threshold is exact. */
  lemma OverflowIff(m: int)
    requires 0 <= m <= 32768
    ensures NeverOverflows(m) <==> m <= FITS
  {
    hide Increment, DcStep;
    if m <= FITS {
      forall xs: seq<int>, x: int | Within(xs, m) && -m <= x <= m
        ensures INT32_MIN <= Increment(DcRun(Dc(0, 0), xs), x) <= INT32_MAX
      {
        DcRunBounded(xs, m);
        IncrementFits(DcRun(Dc(0, 0), xs), x, m);
      }
    } else {
      var xs := OverflowRun();
      assert Within(xs, m);
    }
  }

  /** At full scale three samples are enough. */
  lemma FullScaleOverflows()
    ensures var d := DcRun(Dc(0, 0), [32767, -32768]);
            Increment(d, 32767) > INT32_MAX
  {
    var xs := [32767, -32768];
    assert xs[..1] == [32767] && xs[..1][..0] == [];
    var d1, d2 := Dc(1006602240, 1006602240), Dc(-1132458240, -1006632960);
    assert DcStep(Dc(0, 0), 32767) == d1 == DcRun(Dc(0, 0), [32767]);
    assert DcStep(d1, -32768) == d2 == DcRun(Dc(0, 0), xs);
  }

  /** The output: the integer part of the accumulator, hard-limited. */
  function Limit(x: int, top: int): (r: int)
    requires top >= 0
    ensures -top <= r <= top
  {
    if x > top then top else if x < -top then -top else x
  }

  // ---- Power of the filter states ------------------------------------------------

  function SumSquares(w: Window): (r: nat) {
    if w == [] then 0 else SumSquares(w[..|w| - 1]) + Square(w[|w| - 1])
  }

  function Square(x: int): nat {
    x * x
  }

  lemma {:induction false} SumSquaresCons(x: int, w: Window)
    ensures SumSquares([x] + w) == Square(x) + SumSquares(w)
  {
    if w == [] {
      assert ([x] + w)[..0] == [];
    } else {
      SumSquaresCons(x, w[..|w| - 1]);
      assert ([x] + w)[..|w|] == [x] + w[..|w| - 1];
    }
  }

  lemma {:induction false} SumSquaresBound(w: Window, m: int)
    requires m >= 0 && forall i :: 0 <= i < |w| ==> -m <= w[i] <= m
    ensures SumSquares(w) <= |w| * (m * m)
  {
    if w != [] {
      SumSquaresBound(w[..|w| - 1], m);
      SquareBound(w[|w| - 1], m);
      assert |w| * (m * m) == (|w| - 1) * (m * m) + m * m;
    }
  }

  lemma SquareBound(x: int, m: int)
    requires 0 <= m && -m <= x <= m
    ensures Square(x) <= m * m
  {
    MulMono(Abs(x), m, Abs(x));
    MulMono(Abs(x), m, m);
    assert Square(x) == Abs(x) * Abs(x);
  }

  /** Pstates after the new sample replaces the oldest, before and after its clamp. */
  function PowerSum(power: int, k: nat, w: Window, tx: int): int
    requires w != []
  {
    power + (Square(tx) - Square(w[|w| - 1]) + Pow2(k)) / Pow2(k)
  }

  function PowerStep(power: int, k: nat, w: Window, tx: int): int
    requires w != []
  {
    var p := Wrap32(PowerSum(power, k, w, tx));
    if p < 0 then 0 else p
  }

  /** Pstates is the mean square rounded up, plus at most one unit for each of n samples. */
  ghost predicate PowerTracks(power: int, k: nat, w: Window, n: nat) {
    SumSquares(w) <= power * Pow2(k) <= SumSquares(w) + n * Pow2(k)
  }

  lemma FloorBounds(a: int, b: nat)
    requires b > 0
    ensures a - b < a / b * b <= a
  {
    assert a == a / b * b + a % b;
  }

  /** One sample: the sum before wrapping is never negative and gains at most one unit
      over the exact change, so until it leaves 32 bits neither wrap nor clamp acts. */
  lemma PowerStepTracks(power: int, k: nat, w: Window, tx: int, n: nat)
    requires w != [] && PowerTracks(power, k, w, n)
    ensures PowerTracks(PowerSum(power, k, w, tx), k, Shift(w, tx), n + 1)
    ensures PowerSum(power, k, w, tx) >= 0
    ensures PowerSum(power, k, w, tx) <= INT32_MAX ==> PowerStep(power, k, w, tx) == PowerSum(power, k, w, tx)
  {
    var p := Pow2(k);
    var init, last := w[..|w| - 1], w[|w| - 1];
    var change := Square(tx) - Square(last) + p;
    SumSquaresCons(tx, init);
    assert SumSquares(Shift(w, tx)) == SumSquares(w) - Square(last) + Square(tx);
    FloorBounds(change, p);
    var next := power + change / p;
    assert next * p == power * p + change / p * p;
    assert (n + 1) * p == n * p + p;
    NonNegativeFactor(next, p);
  }

  lemma NonNegativeFactor(a: int, b: nat)
    requires b > 0 && a * b >= 0
    ensures a >= 0
  {}

  // ---- Level trackers ------------------------------------------------------------

  /** An accumulator and the level read from it, e.g. Ltxacc and Ltx. */
  datatype Level = Level(acc: int, avg: int)

  function LevelStep(l: Level, magnitude: int): Level {
    var acc := l.acc + magnitude - l.avg;
    Level(acc, (acc + 16) / 32)
  }

  ghost predicate LevelWithin(l: Level, top: nat) {
    0 <= l.acc <= 32 * top + 15 && l.avg == (l.acc + 16) / 32
  }

  /** A tracker fed magnitudes of at most top stays between 0 and top. */
  lemma LevelStepWithin(l: Level, magnitude: nat, top: nat)
    requires LevelWithin(l, top) && magnitude <= top
    ensures LevelWithin(LevelStep(l, magnitude), top)
    ensures 0 <= LevelStep(l, magnitude).avg <= top
  {}

  function Steady(l: Level, magnitude: int, n: nat): Level {
    if n == 0 then l else LevelStep(Steady(l, magnitude, n - 1), magnitude)
  }

  /** Under a constant magnitude the level approaches it from one side, never passes it,
      and once there stays there. */
  lemma SteadyStep(l: Level, magnitude: int)
    requires l.avg == (l.acc + 16) / 32
    ensures var t := LevelStep(l, magnitude);
            && t.avg == (t.acc + 16) / 32
            && (l.avg < magnitude ==> l.acc < t.acc && l.avg <= t.avg <= magnitude)
            && (l.avg > magnitude ==> t.acc < l.acc && magnitude <= t.avg <= l.avg)
            && (l.avg == magnitude ==> t == l)
  {}

  /** The level reaches a constant magnitude exactly, after at most as many updates as the
      accumulator is away from 32 times it. */
  lemma {:induction false} SteadyReaches(l: Level, magnitude: int, n: nat)
    requires l.avg == (l.acc + 16) / 32
    ensures var t := Steady(l, magnitude, n);
            && t.avg == (t.acc + 16) / 32
            && (l.avg <= magnitude ==> l.avg <= t.avg <= magnitude && (t.avg == magnitude || t.acc >= l.acc + n))
            && (l.avg >= magnitude ==> magnitude <= t.avg <= l.avg && (t.avg == magnitude || t.acc <= l.acc - n))
            && (n >= Abs(32 * magnitude - l.acc) ==> t.avg == magnitude)
  {
    if n > 0 {
      SteadyReaches(l, magnitude, n - 1);
      SteadyStep(Steady(l, magnitude, n - 1), magnitude);
    }
  }
}

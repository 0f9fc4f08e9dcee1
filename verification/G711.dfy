/** The G.711 companders (ITU-T G.711, section 3): mu-law and A-law in both directions. */
module G711 {
  import opened Words
  import opened TopBit

  // ---- Exclusive or --------------------------------------------------------------

  function Xor(a: nat, b: nat): nat {
    if a == 0 && b == 0 then 0 else 2 * Xor(a / 2, b / 2) + (a + b) % 2
  }

  predicate IsBit(x: nat) {
    x == 0 || x == 1
  }

  lemma XorStep(a: nat, x: nat, b: nat, y: nat)
    requires IsBit(x) && IsBit(y)
    ensures Xor(2 * a + x, 2 * b + y) == 2 * Xor(a, b) + if x == y then 0 else 1
  {
    var v, m := 2 * a + x, 2 * b + y;
    assert v / 2 == a && m / 2 == b && (v + m) % 2 == (if x == y then 0 else 1);
    if v == 0 && m == 0 {
      assert Xor(0, 0) == 0;
    }
  }

  lemma {:induction false} XorTwice(v: nat, m: nat)
    ensures Xor(Xor(v, m), m) == v
  {
    if v != 0 || m != 0 {
      XorTwice(v / 2, m / 2);
      hide Xor;
      var x, y := v % 2, m % 2;
      XorStep(v / 2, x, m / 2, y);
      XorStep(Xor(v / 2, m / 2), if x == y then 0 else 1, m / 2, y);
    }
  }

  /** A bit above two n-bit words, set in one of them, is set in the result. */
  lemma {:induction false} XorAbove(v: nat, m: nat, n: nat)
    requires v < Pow2(n) && m < Pow2(n)
    ensures Xor(v, m) < Pow2(n)
    ensures Xor(v, m + Pow2(n)) == Xor(v, m) + Pow2(n)
    ensures Xor(v + Pow2(n), m) == Xor(v, m) + Pow2(n)
    decreases n
  {
    hide Xor;
    if n == 0 {
      XorBits();
      assert v == m == 0 && Pow2(n) == 1;
    } else {
      var p := Pow2(n - 1);
      assert Pow2(n) == 2 * p;
      XorAbove(v / 2, m / 2, n - 1);
      XorAboveStep(v, m, p);
    }
  }

  lemma XorBits()
    ensures Xor(0, 0) == 0 && Xor(0, 1) == 1 && Xor(1, 0) == 1
  {}

  lemma XorAboveStep(v: nat, m: nat, p: nat)
    requires var a, b := v / 2, m / 2; Xor(a, b) < p && Xor(a, b + p) == Xor(a, b) + p && Xor(a + p, b) == Xor(a, b) + p
    ensures Xor(v, m) < 2 * p
    ensures Xor(v, m + 2 * p) == Xor(v, m) + 2 * p
    ensures Xor(v + 2 * p, m) == Xor(v, m) + 2 * p
  {
    hide Xor;
    var a, x, b, y := v / 2, v % 2, m / 2, m % 2;
    assert v == 2 * a + x && m == 2 * b + y;
    XorStep(a, x, b, y);
    XorStep(a, x, b + p, y);
    XorStep(a + p, x, b, y);
    assert 2 * (b + p) + y == m + 2 * p && 2 * (a + p) + x == v + 2 * p;
  }

  /** Complementing an n-bit word. */
  lemma {:induction false} XorOnes(v: nat, n: nat)
    requires v < Pow2(n)
    ensures Xor(v, Pow2(n) - 1) == Pow2(n) - 1 - v
    decreases n
  {
    if n > 0 {
      XorOnes(v / 2, n - 1);
      XorStep(v / 2, v % 2, Pow2(n - 1) - 1, 1);
    }
  }

  // ---- Segments ------------------------------------------------------------------

  /** seg = top_bit(m | 0xFF) - 7. */
  function Segment(m: nat): int {
    FloorLog2(m / 256 * 256 + 255) - 7
  }

  lemma PowersUpTo15()
    ensures Pow2(7) == 128 && Pow2(8) == 256 && Pow2(9) == 512 && Pow2(10) == 1024 && Pow2(11) == 2048
    ensures Pow2(12) == 4096 && Pow2(13) == 8192 && Pow2(14) == 16384 && Pow2(15) == 32768
  {
    assert Pow2(7) == 128 && Pow2(11) == 2048;
  }

  /** Segments 0 to 7 double in width; beyond them the code saturates. */
  lemma SegmentCases(m: nat)
    ensures m < 256 ==> Segment(m) == 0
    ensures 256 <= m < 512 ==> Segment(m) == 1
    ensures 512 <= m < 1024 ==> Segment(m) == 2
    ensures 1024 <= m < 2048 ==> Segment(m) == 3
    ensures 2048 <= m < 4096 ==> Segment(m) == 4
    ensures 4096 <= m < 8192 ==> Segment(m) == 5
    ensures 8192 <= m < 16384 ==> Segment(m) == 6
    ensures 16384 <= m < 32768 ==> Segment(m) == 7
    ensures 32768 <= m ==> Segment(m) >= 8
  {
    hide Pow2, FloorLog2;
    var n := m / 256 * 256 + 255;
    PowersUpTo15();
    if m < 256 { FloorLog2Unique(n, 7); }
    else if m < 512 { FloorLog2Unique(n, 8); }
    else if m < 1024 { FloorLog2Unique(n, 9); }
    else if m < 2048 { FloorLog2Unique(n, 10); }
    else if m < 4096 { FloorLog2Unique(n, 11); }
    else if m < 8192 { FloorLog2Unique(n, 12); }
    else if m < 16384 { FloorLog2Unique(n, 13); }
    else if m < 32768 { FloorLog2Unique(n, 14); }
    else if FloorLog2(n) < 15 { Pow2Mono(FloorLog2(n) + 1, 15); }
  }

  /** The width of the interval a magnitude lies in, with the given width in segment 0. */
  function Step(m: nat, first: nat): (r: nat)
    requires first > 0
    ensures r > 0
  {
    if m < 256 then first else if m < 512 then 16 else if m < 1024 then 32 else if m < 2048 then 64
    else if m < 4096 then 128 else if m < 8192 then 256 else if m < 16384 then 512 else 1024
  }

  /** The middle of the interval, where the decoder puts every magnitude in it; the top
      interval takes whatever is larger. */
  function Middle(m: nat, first: nat): nat
    requires first in {8, 16}
  {
    var c := if m >= 32768 then 32767 else m;
    c / Step(c, first) * Step(c, first) + Step(c, first) / 2
  }

  /** Larger magnitudes never get smaller middles. */
  lemma MiddleMono(m: nat, k: nat, first: nat)
    requires first in {8, 16} && m <= k
    ensures Middle(m, first) <= Middle(k, first)
  {}

  /** The middle is at most half a step away, and beyond segment 0 a step is at most a
      sixteenth of the magnitude. */
  lemma MiddleNear(m: nat, first: nat)
    requires first in {8, 16} && m < 32768
    ensures 2 * Abs(m as int - Middle(m, first)) <= Step(m, first)
    ensures m >= 256 ==> 16 * Step(m, first) <= m
  {}

  lemma MiddleBottom()
    ensures Middle(132, 8) == 132 && Middle(0, 16) == 8
  {}

  lemma MiddleTop(m: nat, first: nat)
    requires first in {8, 16} && m >= 31744
    ensures Middle(m, first) == 32256
  {}

  lemma PowersUpTo8()
    ensures Pow2(0) == 1 && Pow2(1) == 2 && Pow2(2) == 4 && Pow2(3) == 8 && Pow2(4) == 16 && Pow2(5) == 32
    ensures Pow2(6) == 64 && Pow2(7) == 128 && Pow2(8) == 256
  {}

  /** The step of segment s, and that segment's place. */
  lemma StepOfSegment(m: nat, s: nat, first: nat)
    requires s <= 7 && first in {8, 16} && 128 * Pow2(s) <= m < 256 * Pow2(s) && (s == 0 ==> first == 8)
    ensures Step(m, first) == 8 * Pow2(s)
  {
    PowersUpTo8();
    if s == 0 {} else if s == 1 {} else if s == 2 {} else if s == 3 {}
    else if s == 4 {} else if s == 5 {} else if s == 6 {} else {}
  }

  lemma SegmentPlace(m: nat)
    requires 128 <= m < 32768
    ensures var s := Segment(m); 0 <= s <= 7 && 128 * Pow2(s) <= m < 256 * Pow2(s) && Pow2(s + 3) == 8 * Pow2(s)
  {
    SegmentCases(m);
    PowersUpTo8();
    assert Pow2(Segment(m) + 3) == 2 * Pow2(Segment(m) + 2) == 4 * Pow2(Segment(m) + 1);
  }

  /** In the upper half of a row of 32 intervals of width w = 8k. */
  lemma IntervalOf(m: nat, k: nat)
    requires k > 0 && 128 * k <= m < 256 * k
    ensures 16 <= m / (8 * k) < 32
    ensures (m / (8 * k) % 16 * 8 + 132) * k == m / (8 * k) * (8 * k) + 8 * k / 2
  {
    var w := 8 * k;
    var q := m / w;
    assert m == q * w + m % w;
    if q < 16 { MulMono(q + 1, 16, w); }
    if q >= 32 { MulMono(32, q, w); }
    assert (q + 1) * w == q * w + w;
    assert q % 16 == q - 16;
    assert (8 * (q - 16) + 132) * k == 8 * (q * k) + 4 * k;
    assert q * w == 8 * (q * k);
  }

  // ---- Mu-law --------------------------------------------------------------------

  const BIAS: nat := 0x84   // ULAW_BIAS

  predicate Int32(x: int) {
    INT32_MIN <= x <= INT32_MAX
  }

  function LinearToUlaw(linear: int): nat
    requires Int32(linear)
  {
    var biased := if linear < 0 then BIAS - linear else BIAS + linear;
    var mask := if linear < 0 then 0x7F else 0xFF;
    var seg := Segment(U32(biased));
    if seg >= 8 then Xor(0x7F, mask) else if seg < 0 then 0 else Xor(seg * 16 + biased / Pow2(seg + 3) % 16, mask)
  }

  /** Segment and interval of a code word to a biased magnitude. */
  function UlawExpand(v: nat): nat {
    UlawValue(v / 16 % 8, v % 16)
  }

  function UlawValue(seg: nat, interval: nat): nat {
    (interval * 8 + BIAS) * Pow2(seg)
  }

  function UlawToLinear(ulaw: byte): int {
    var c := 0xFF - ulaw;
    if c >= 128 then BIAS - UlawExpand(c) else UlawExpand(c) - BIAS
  }

  lemma CodeParts(s: nat, r: nat)
    requires s <= 7 && r < 16
    ensures (s * 16 + r) % 16 == r && (s * 16 + r) / 16 % 8 == s
    ensures (128 + s * 16 + r) % 16 == r && (128 + s * 16 + r) / 16 % 8 == s
  {
    DivUnique(s * 16 + r, 16, s);
    DivUnique(128 + s * 16 + r, 16, 8 + s);
  }

  lemma UlawExpandParts(s: nat, r: nat)
    requires s <= 7 && r < 16
    ensures UlawExpand(s * 16 + r) == UlawExpand(128 + s * 16 + r) == UlawValue(s, r)
  {
    hide UlawValue, AlawValue;
    CodeParts(s, r);
  }

  /** The code word before its sign and complement. */
  function UlawWord(biased: nat): (v: nat)
    requires biased >= BIAS
    ensures v < 128
  {
    SegmentCases(biased);
    if biased >= 32768 then 127 else Segment(biased) * 16 + biased / Pow2(Segment(biased) + 3) % 16
  }

  lemma UlawWordExpands(biased: nat)
    requires biased >= BIAS
    ensures UlawExpand(UlawWord(biased)) == UlawExpand(128 + UlawWord(biased)) == Middle(biased, 8)
  {
    if biased >= 32768 {
      MiddleTop(biased, 8);
      UlawExpandParts(7, 15);
      PowersUpTo8();
    } else {
      hide UlawExpand, Segment;
      SegmentPlace(biased);
      var s := Segment(biased);
      IntervalOf(biased, Pow2(s));
      StepOfSegment(biased, s, 8);
      UlawExpandParts(s, biased / Pow2(s + 3) % 16);
    }
  }

  lemma UlawEncodes(x: int)
    requires Int32(x)
    ensures LinearToUlaw(x) == if x < 0 then 127 - UlawWord(BIAS - x) else 255 - UlawWord(BIAS + x)
  {
    hide Segment, Xor;
    var biased := if x < 0 then BIAS - x else BIAS + x;
    SegmentCases(biased);
    PowersUpTo8();
    XorOnes(UlawWord(biased), 7);
    XorOnes(UlawWord(biased), 8);
  }

  /** Encoding then decoding puts every sample in the middle of its interval. */
  lemma UlawQuantises(x: int)
    requires Int32(x)
    ensures LinearToUlaw(x) < 256
    ensures UlawToLinear(LinearToUlaw(x)) == if x < 0 then BIAS - Middle(BIAS - x, 8) else Middle(BIAS + x, 8) - BIAS
  {
    hide LinearToUlaw, UlawWord, UlawExpand, Middle;
    UlawEncodes(x);
    UlawWordExpands(if x < 0 then BIAS - x else BIAS + x);
  }

  lemma UlawMonotone(x: int, y: int)
    requires Int32(x) && Int32(y) && x <= y
    ensures LinearToUlaw(x) < 256 && LinearToUlaw(y) < 256
    ensures UlawToLinear(LinearToUlaw(x)) <= UlawToLinear(LinearToUlaw(y))
  {
    hide LinearToUlaw, UlawToLinear, Middle;
    UlawQuantises(x);
    UlawQuantises(y);
    MiddleBottom();
    if y < 0 {
      MiddleMono(BIAS - y, BIAS - x, 8);
    } else if x >= 0 {
      MiddleMono(BIAS + x, BIAS + y, 8);
    } else {
      MiddleMono(BIAS, BIAS - x, 8);
      MiddleMono(BIAS, BIAS + y, 8);
    }
  }

  /** The error is at most a 32nd of the biased magnitude up to 32635; beyond, the result
      is the largest the code can say. */
  lemma UlawError(x: int)
    requires Int32(x)
    ensures LinearToUlaw(x) < 256
    ensures Abs(x) <= 32635 ==> 32 * Abs(UlawToLinear(LinearToUlaw(x)) - x) <= Abs(x) + 132
    ensures x > 32635 ==> UlawToLinear(LinearToUlaw(x)) == 32124
    ensures x < -32635 ==> UlawToLinear(LinearToUlaw(x)) == -32124
  {
    hide LinearToUlaw, UlawToLinear, Middle;
    UlawQuantises(x);
    MiddleTop(if Abs(x) > 32635 then BIAS + Abs(x) else 32768, 8);
    if Abs(x) <= 32635 {
      MiddleNear(BIAS + Abs(x), 8);
    }
  }

  /** The middle of interval r + 16 of width 8k is in that interval. */
  lemma MiddleInInterval(r: nat, k: nat)
    requires r < 16 && k > 0
    ensures var t := (r * 8 + 132) * k;
            128 * k <= t < 256 * k && t / (8 * k) == r + 16 && t / (8 * k) * (8 * k) + 8 * k / 2 == t
            && (k % 2 == 0 ==> (t - 8) / (8 * k) == r + 16)
            && (k % 2 == 0 ==> (t - 8) / (8 * k) * (8 * k) + 8 * k / 2 == t)
  {
    var t := (r * 8 + 132) * k;
    MulMono(132, r * 8 + 132, k);
    MulMono(r * 8 + 132, 252, k);
    assert t == (r + 16) * (8 * k) + 4 * k;
    DivUnique(t, 8 * k, r + 16);
    if k % 2 == 0 {
      DivUnique(t - 8, 8 * k, r + 16);
    }
  }

  lemma UlawExpandFixed(v: nat)
    requires v < 256
    ensures BIAS <= UlawExpand(v) < 32768 && Middle(UlawExpand(v), 8) == UlawExpand(v)
  {
    var s, r := v / 16 % 8, v % 16;
    MiddleInInterval(r, Pow2(s));
    Pow2Mono(s, 7);
    PowersUpTo8();
    MulMono(1, Pow2(s), r * 8 + 132);
    assert UlawExpand(v) == (r * 8 + 132) * Pow2(s);
    StepOfSegment(UlawExpand(v), s, 8);
  }

  /** Decoding, encoding and decoding again changes nothing. */
  lemma UlawStable(u: byte)
    ensures var x := UlawToLinear(u);
            Wrap16(x) == x && LinearToUlaw(x) < 256 && UlawToLinear(LinearToUlaw(x)) == x
  {
    hide LinearToUlaw, UlawExpand, Middle;
    UlawExpandFixed(0xFF - u);
    UlawQuantises(UlawToLinear(u));
  }

  lemma SegmentUnique(m: nat, s: nat)
    requires s <= 7 && 128 * Pow2(s) <= m < 256 * Pow2(s)
    ensures Segment(m) == s && Pow2(s + 3) == 8 * Pow2(s)
  {
    PowersUpTo8();
    SegmentCases(m);
    hide Segment;
    if s == 0 {} else if s == 1 {} else if s == 2 {} else if s == 3 {}
    else if s == 4 {} else if s == 5 {} else if s == 6 {} else {}
    assert Pow2(s + 3) == 2 * Pow2(s + 2) == 4 * Pow2(s + 1);
  }

  /** Each code word is the word of its own value. */
  lemma UlawWordOfExpand(v: nat)
    requires v < 256
    ensures BIAS <= UlawExpand(v) && UlawWord(UlawExpand(v)) == v % 128
  {
    hide Segment, Pow2, Middle;
    var s, r := v / 16 % 8, v % 16;
    UlawExpandFixed(v);
    MiddleInInterval(r, Pow2(s));
    assert UlawExpand(v) == (r * 8 + 132) * Pow2(s);
    SegmentUnique(UlawExpand(v), s);
    CodeSplit(v);
  }

  lemma CodeSplit(v: nat)
    requires v < 256
    ensures v % 128 == v / 16 % 8 * 16 + v % 16 && (v % 16 + 16) % 16 == v % 16
  {}

  /** Decoding and encoding again gives the code word back, except for the negative zero,
      which becomes the positive one. */
  lemma UlawFixed(u: byte)
    ensures var x := UlawToLinear(u); Wrap16(x) == x && LinearToUlaw(x) == if u == 0x7F then 0xFF else u
  {
    hide LinearToUlaw, UlawWord, UlawExpand, Middle;
    var c := 0xFF - u;
    UlawWordOfExpand(c);
    UlawWordOfExpand(0);
    UlawExpandZero();
    UlawExpandFixed(c);
    UlawEncodes(UlawToLinear(u));
  }

  lemma UlawExpandZero()
    ensures UlawExpand(0) == UlawExpand(128) == BIAS && UlawWord(BIAS) == 0
  {
    hide UlawWord, UlawExpand;
    UlawWordOfExpand(0);
    UlawExpandParts(0, 0);
  }

  // ---- A-law ---------------------------------------------------------------------

  function LinearToAlaw(linear: int): nat
    requires Int32(linear)
  {
    var mask := if linear >= 0 then 0xD5 else 0x55;
    var m := if linear >= 0 then linear else -linear - 8;
    var seg := Segment(U32(m));
    if seg >= 8 then if m >= 0 then Xor(0x7F, mask) else Xor(0x00, mask)
    else if seg < 0 then 0
    else Xor(seg * 16 + m / Pow2(if seg != 0 then seg + 3 else 4) % 16, mask)
  }

  function AlawExpand(v: nat): nat {
    AlawValue(v / 16 % 8, v % 16)
  }

  function AlawValue(seg: nat, interval: nat): nat {
    if seg != 0 then (interval * 16 + 0x108) * Pow2(seg - 1) else interval * 16 + 8
  }

  function AlawToLinear(alaw: byte): int {
    var a := Xor(alaw, 0x55);
    if a >= 128 then AlawExpand(a) else 0 - AlawExpand(a)
  }

  lemma AlawExpandParts(s: nat, r: nat)
    requires s <= 7 && r < 16
    ensures AlawExpand(s * 16 + r) == AlawExpand(128 + s * 16 + r) == AlawValue(s, r)
  {
    hide UlawValue, AlawValue;
    CodeParts(s, r);
  }

  /** The code word before its mask. */
  function AlawWord(m: nat): (v: nat)
    ensures v < 128
  {
    SegmentCases(m);
    var seg := Segment(m);
    if m >= 32768 then 127 else seg * 16 + m / Pow2(if seg != 0 then seg + 3 else 4) % 16
  }

  lemma AlawWordBelow(m: nat)
    requires m < 256
    ensures AlawWord(m) == 0 * 16 + m / 16 && m / 16 < 16
  {
    hide Segment;
    SegmentCases(m);
    PowersUpTo8();
  }

  lemma AlawLowestWord(m: nat)
    requires m < 256
    ensures AlawExpand(AlawWord(m)) == AlawExpand(128 + AlawWord(m)) == Middle(m, 16)
  {
    hide AlawExpand, Segment, AlawWord;
    AlawWordBelow(m);
    AlawExpandParts(0, m / 16);
  }

  lemma AlawHighestWord(m: nat)
    requires m >= 32768
    ensures AlawExpand(AlawWord(m)) == AlawExpand(128 + AlawWord(m)) == Middle(m, 16)
  {
    hide AlawExpand, Segment;
    MiddleTop(m, 16);
    AlawExpandParts(7, 15);
    PowersUpTo8();
  }

  lemma AlawWordExpands(m: nat)
    ensures AlawExpand(AlawWord(m)) == AlawExpand(128 + AlawWord(m)) == Middle(m, 16)
  {
    hide AlawExpand, AlawWord, Middle;
    if m >= 32768 {
      AlawHighestWord(m);
    } else if m < 256 {
      AlawLowestWord(m);
    } else {
      AlawUpperWord(m);
    }
  }

  /** The two laws put the intervals of the upper segments in the same places. */
  lemma AlawValueIsUlawValue(s: nat, r: nat)
    requires s > 0
    ensures AlawValue(s, r) == (r * 8 + 132) * Pow2(s)
  {
    MoveTwo(r * 8 + 132, Pow2(s - 1));
    assert r * 16 + 0x108 == 2 * (r * 8 + 132);
  }

  lemma MoveTwo(u: nat, p: nat)
    ensures 2 * u * p == u * (2 * p)
  {}

  lemma AlawUpperWord(m: nat)
    requires 256 <= m < 32768
    ensures AlawExpand(AlawWord(m)) == AlawExpand(128 + AlawWord(m)) == Middle(m, 16)
  {
    SegmentCases(m);
    hide AlawExpand, AlawValue, Segment, Pow2;
    SegmentPlace(m);
    var s := Segment(m);
    IntervalOf(m, Pow2(s));
    StepOfSegment(m, s, 16);
    AlawExpandParts(s, m / Pow2(s + 3) % 16);
    AlawValueIsUlawValue(s, m / Pow2(s + 3) % 16);
  }

  /** The mask goes on and comes off, and bit 7 of it is the sign. */
  lemma AlawMask(v: nat)
    requires v < 128
    ensures Xor(v, 0x55) < 256 && Xor(Xor(v, 0x55), 0x55) == v
    ensures Xor(v, 0xD5) < 256 && Xor(Xor(v, 0xD5), 0x55) == v + 128
  {
    hide Xor;
    PowersUpTo8();
    XorAbove(v, 0x55, 7);
    XorTwice(v, 0x55);
    XorAbove(Xor(v, 0x55), 0x55, 7);
  }

  /** The word an A-law encoder masks: samples -7 to -1 come out as magnitude 0. */
  function AlawWordOf(x: int): (v: nat)
    ensures v < 128
  {
    if x >= 0 then AlawWord(x) else if x > -8 then 0 else AlawWord(-x - 8)
  }

  lemma AlawEncodes(x: int)
    requires Int32(x)
    ensures LinearToAlaw(x) == Xor(AlawWordOf(x), if x >= 0 then 0xD5 else 0x55)
  {
    hide Segment, Xor, Pow2;
    var m := if x >= 0 then x else -x - 8;
    SegmentCases(U32(m));
    assert m < 0 ==> U32(m) >= 32768;
    assert m >= 0 ==> U32(m) == m;
  }

  /** Negative samples are shifted by 8 before and by nothing after, so -7 to -1 share the
      interval of -8. */
  lemma AlawQuantises(x: int)
    requires Int32(x)
    ensures LinearToAlaw(x) < 256
    ensures AlawToLinear(LinearToAlaw(x)) ==
            if x >= 0 then Middle(x, 16) else if x > -8 then -8 else 0 - Middle(-x - 8, 16)
  {
    hide LinearToAlaw, AlawWord, AlawExpand, Middle, Xor;
    AlawEncodes(x);
    AlawMask(AlawWordOf(x));
    if x >= 0 {
      AlawWordExpands(x);
    } else if x > -8 {
      AlawExpandParts(0, 0);
    } else {
      AlawWordExpands(-x - 8);
    }
  }

  lemma AlawMonotone(x: int, y: int)
    requires Int32(x) && Int32(y) && x <= y
    ensures LinearToAlaw(x) < 256 && LinearToAlaw(y) < 256
    ensures AlawToLinear(LinearToAlaw(x)) <= AlawToLinear(LinearToAlaw(y))
  {
    hide LinearToAlaw, AlawToLinear, Middle;
    AlawQuantises(x);
    AlawQuantises(y);
    MiddleBottom();
    if x >= 0 {
      MiddleMono(x, y, 16);
    } else {
      if y <= -8 { MiddleMono(-y - 8, -x - 8, 16); }
      if x <= -8 { MiddleMono(0, -x - 8, 16); }
      if y >= 0 { MiddleMono(0, y, 16); }
    }
  }

  /** The error is at most half the segment's step, and 8 more on the negative side;
      beyond 15 bits of magnitude the result is the largest the code can say. */
  lemma AlawError(x: int)
    requires Int32(x)
    ensures LinearToAlaw(x) < 256
    ensures 0 <= x < 32768 ==> 2 * Abs(AlawToLinear(LinearToAlaw(x)) - x) <= Step(x, 16)
    ensures -8 < x < 0 ==> AlawToLinear(LinearToAlaw(x)) == -8
    ensures -32776 < x <= -8 ==> 2 * Abs(AlawToLinear(LinearToAlaw(x)) - x) <= Step(-x - 8, 16) + 16
    ensures x >= 32768 ==> AlawToLinear(LinearToAlaw(x)) == 32256
    ensures x <= -32776 ==> AlawToLinear(LinearToAlaw(x)) == -32256
  {
    hide LinearToAlaw, AlawToLinear, Middle;
    AlawQuantises(x);
    if x >= 32768 {
      MiddleTop(x, 16);
    } else if x >= 0 {
      MiddleNear(x, 16);
    } else if x <= -32776 {
      MiddleTop(-x - 8, 16);
    } else if x <= -8 {
      MiddleNear(-x - 8, 16);
    }
  }

  lemma AlawValueFixed(s: nat, r: nat)
    requires 1 <= s <= 7 && r < 16
    ensures var t := AlawValue(s, r); 256 <= t - 8 < t < 32768 && Middle(t, 16) == t && Middle(t - 8, 16) == t
  {
    var k, t := Pow2(s), AlawValue(s, r);
    AlawValueIsUlawValue(s, r);
    MiddleInInterval(r, k);
    MulMono(132, r * 8 + 132, k);
    Pow2Mono(s, 7);
    Pow2Mono(1, s);
    PowersUpTo8();
    assert k % 2 == 0;
    assert 128 * k <= t - 8;
    StepOfSegment(t, s, 16);
    StepOfSegment(t - 8, s, 16);
  }

  lemma AlawExpandFixed(v: nat)
    requires v < 256
    ensures var t := AlawExpand(v); 8 <= t < 32768 && Middle(t, 16) == t && Middle(t - 8, 16) == t
  {
    if v / 16 % 8 > 0 {
      AlawValueFixed(v / 16 % 8, v % 16);
    }
  }

  lemma AlawStable(a: byte)
    ensures var x := AlawToLinear(a);
            Wrap16(x) == x && LinearToAlaw(x) < 256 && AlawToLinear(LinearToAlaw(x)) == x
  {
    hide LinearToAlaw, AlawExpand, Middle, Xor;
    XorByte(a);
    AlawExpandFixed(Xor(a, 0x55));
    AlawQuantises(AlawToLinear(a));
  }

  lemma AlawWordAbove(m: nat, s: nat, r: nat)
    requires 1 <= s <= 7 && r < 16 && 128 * Pow2(s) <= m < 256 * Pow2(s) && m / (8 * Pow2(s)) == r + 16
    ensures AlawWord(m) == s * 16 + r
  {
    hide Segment, Pow2;
    SegmentUnique(m, s);
    Pow2Mono(s, 7);
    PowersUpTo8();
    assert (r + 16) % 16 == r;
  }

  /** Each code word is the word of its own magnitude, before the shift by 8 and after. */
  lemma AlawWordOfExpand(v: nat)
    requires v < 256
    ensures AlawExpand(v) >= 8 && AlawWord(AlawExpand(v)) == AlawWord(AlawExpand(v) - 8) == v % 128
  {
    hide AlawWord, Pow2, Middle;
    var s, r := v / 16 % 8, v % 16;
    CodeSplit(v);
    if s == 0 {
      AlawWordBelow(r * 16 + 8);
      AlawWordBelow(r * 16);
    } else {
      var k, t := Pow2(s), AlawValue(s, r);
      AlawValueIsUlawValue(s, r);
      AlawRoom(s, r);
      MiddleInInterval(r, k);
      AlawWordAbove(t, s, r);
      AlawWordAbove(t - 8, s, r);
    }
  }

  lemma AlawRoom(s: nat, r: nat)
    requires 1 <= s <= 7
    ensures Pow2(s) % 2 == 0 && (r * 8 + 132) * Pow2(s) - 8 >= 128 * Pow2(s)
  {
    Pow2Mono(1, s);
    PowersUpTo8();
    MulMono(132, r * 8 + 132, Pow2(s));
  }

  /** Decoding and encoding again gives every code word back. */
  lemma AlawFixed(a: byte)
    ensures var x := AlawToLinear(a); Wrap16(x) == x && LinearToAlaw(x) == a
  {
    hide LinearToAlaw, AlawWord, AlawExpand, Middle, Xor;
    PowersUpTo8();
    XorByte(a);
    XorTwice(a, 0x55);
    var w := Xor(a, 0x55);
    AlawWordOfExpand(w);
    AlawExpandFixed(w);
    AlawEncodes(AlawToLinear(a));
    if w >= 128 {
      XorAbove(w - 128, 0x55, 7);
    }
  }

  lemma XorByte(a: byte)
    ensures Xor(a, 0x55) < 256
  {
    PowersUpTo8();
    XorAbove(a, 0x55, 8);
  }

  // ---- The code words ------------------------------------------------------------

  /** Bit by bit: set exactly where the two words differ. */
  lemma {:induction false} XorDiffers(a: nat, b: nat, p: nat)
    ensures p in BitsOf(Xor(a, b)) <==> (p in BitsOf(a)) != (p in BitsOf(b))
    decreases p
  {
    hide Xor, BitsOf;
    XorHalves(a, b);
    BitOf(a, p);
    BitOf(b, p);
    BitOf(Xor(a, b), p);
    if p > 0 {
      XorDiffers(a / 2, b / 2, p - 1);
    }
  }

  lemma XorHalves(a: nat, b: nat)
    ensures Xor(a, b) / 2 == Xor(a / 2, b / 2) && Xor(a, b) % 2 == (a + b) % 2
  {}

  lemma BitOf(n: nat, p: nat)
    ensures p in BitsOf(n) <==> if p == 0 then n % 2 == 1 else p - 1 in BitsOf(n / 2)
  {}

  /** A mu-law code word holds the segment and the interval of the biased magnitude, counted
      down from 255 for positive samples and from 127 for negative ones. */
  lemma UlawCode(x: int) returns (s: nat, r: nat)
    requires -32635 <= x <= 32635
    ensures s <= 7 && r < 16
    ensures (16 + r) * (8 * Pow2(s)) <= 132 + Abs(x) < (17 + r) * (8 * Pow2(s))
    ensures LinearToUlaw(x) == (if x < 0 then 127 else 255) - (16 * s + r)
  {
    hide LinearToUlaw, Segment, Pow2;
    var m := 132 + Abs(x);
    UlawEncodes(x);
    s, r := UpperInterval(m);
  }

  /** Segment and interval of a magnitude beyond the lowest 128. */
  lemma UpperInterval(m: nat) returns (s: nat, r: nat)
    requires 128 <= m < 32768
    ensures s <= 7 && r < 16 && Segment(m) == s && m / Pow2(s + 3) % 16 == r
    ensures (16 + r) * (8 * Pow2(s)) <= m < (17 + r) * (8 * Pow2(s))
  {
    hide Segment, Pow2;
    SegmentPlace(m);
    s := Segment(m);
    var w := 8 * Pow2(s);
    IntervalOf(m, Pow2(s));
    r := m / w - 16;
    QuotientBounds(m, w);
    assert m / w % 16 == r;
  }

  lemma QuotientBounds(m: nat, w: nat)
    requires w > 0
    ensures m / w * w <= m < (m / w + 1) * w
  {
    assert m == m / w * w + m % w && (m / w + 1) * w == m / w * w + w;
  }

  /** Beyond that the word is the last of its sign. */
  lemma UlawSaturates(x: int)
    requires Int32(x) && Abs(x) > 32635
    ensures LinearToUlaw(x) == if x > 0 then 0x80 else 0x00
  {
    hide LinearToUlaw;
    UlawEncodes(x);
  }

  /** An A-law code word is segment and interval of the magnitude with every other bit
      inverted, and bit 8 set for positive samples; negative ones are shifted by 8. */
  lemma AlawCode(x: int) returns (s: nat, r: nat)
    requires -32776 < x < 32768
    ensures s <= 7 && r < 16
    ensures var m := if x >= 0 then x else if x > -8 then 0 else -x - 8;
            if s == 0 then 16 * r <= m < 16 * r + 16 else (16 + r) * (8 * Pow2(s)) <= m < (17 + r) * (8 * Pow2(s))
    ensures LinearToAlaw(x) == Xor(16 * s + r, if x >= 0 then 0xD5 else 0x55)
  {
    hide LinearToAlaw, Segment, Pow2, Xor;
    var m: nat := if x >= 0 then x else if x > -8 then 0 else -x - 8;
    AlawEncodes(x);
    assert AlawWordOf(x) == AlawWord(m) by {
      AlawWordBelow(0);
    }
    if m < 256 {
      AlawWordBelow(m);
      s, r := 0, m / 16;
    } else {
      SegmentCases(m);
      s, r := UpperInterval(m);
    }
  }

  lemma AlawSaturates(x: int)
    requires Int32(x) && (x >= 32768 || x <= -32776)
    ensures LinearToAlaw(x) == if x > 0 then 0xAA else 0x2A
  {
    hide LinearToAlaw, Segment;
    AlawEncodes(x);
    assert Xor(127, 0xD5) == 0xAA && Xor(127, 0x55) == 0x2A by {
      Inverted();
    }
  }

  lemma Inverted()
    ensures Xor(127, 0xD5) == 0xAA && Xor(127, 0x55) == 0x2A
  {
    hide Xor;
    XorBits();
    XorStep(0, 1, 1, 1);
    XorStep(1, 1, 3, 0);
    XorStep(3, 1, 6, 1);
    XorStep(7, 1, 13, 0);
    XorStep(15, 1, 26, 1);
    XorStep(31, 1, 53, 0);
    XorStep(63, 1, 106, 1);
    XorStep(0, 1, 0, 1);
    XorStep(1, 1, 1, 0);
    XorStep(3, 1, 2, 1);
    XorStep(7, 1, 5, 0);
    XorStep(15, 1, 10, 1);
    XorStep(31, 1, 21, 0);
    XorStep(63, 1, 42, 1);
  }
}

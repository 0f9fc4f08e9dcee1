/** Machine words as the C sources use them: two's complement wrap-around,
    arithmetic shifts and powers of two. */
module Words {

  type byte = b: int | 0 <= b < 256

  const INT32_MAX := 0x7FFF_FFFF
  const INT32_MIN := -0x8000_0000

  /** Conversion to int16_t. */
  function Wrap16(x: int): (r: int)
    ensures -32768 <= r <= 32767
    ensures -32768 <= x <= 32767 ==> r == x
  {
    (x + 32768) % 65536 - 32768
  }

  /** Conversion to int32_t; every 32-bit operation that may leave the range goes through it. */
  function Wrap32(x: int): (r: int)
    ensures INT32_MIN <= r <= INT32_MAX
    ensures INT32_MIN <= x <= INT32_MAX ==> r == x
  {
    (x + 0x8000_0000) % 0x1_0000_0000 - 0x8000_0000
  }

  /** Reduction to uint32_t. */
  function U32(x: int): (r: nat)
    ensures r < 0x1_0000_0000
  {
    x % 0x1_0000_0000
  }

  function Abs(x: int): (r: nat)
    ensures r == x || r == -x
  {
    if x < 0 then -x else x
  }

  function Pow2(n: nat): (r: nat)
    ensures r >= 1
  {
    if n == 0 then 1 else 2 * Pow2(n - 1)
  }

  lemma {:induction false} Pow2Add(m: nat, n: nat)
    ensures Pow2(m + n) == Pow2(m) * Pow2(n)
  {
    if m > 0 {
      Pow2Add(m - 1, n);
      assert Pow2(m + n) == 2 * (Pow2(m - 1) * Pow2(n));
    }
  }

  lemma {:induction false} Pow2Mono(m: nat, n: nat)
    requires m <= n
    ensures Pow2(m) <= Pow2(n)
    decreases n
  {
    if m < n {
      Pow2Mono(m, n - 1);
    }
  }

  /** Wrapping is insensitive to multiples of the modulus, so wrapping each step of a
      sum gives the wrapped sum. */
  lemma Wrap32Add(a: int, b: int)
    ensures Wrap32(Wrap32(a) + b) == Wrap32(a + b)
  {
    var k := (a + 0x8000_0000) / 0x1_0000_0000;
    assert Wrap32(a) == a - k * 0x1_0000_0000;
    assert (a + b + 0x8000_0000 - k * 0x1_0000_0000) % 0x1_0000_0000 == (a + b + 0x8000_0000) % 0x1_0000_0000;
  }

  /** Conversions change a value by a multiple of the modulus only. */
  lemma WrapsModulo(x: int)
    ensures (x - Wrap16(x)) % 65536 == 0 && (x - Wrap32(x)) % 0x1_0000_0000 == 0 && (x - U32(x)) % 0x1_0000_0000 == 0
  {
    RestIsMultiple(x + 32768, 65536);
    RestIsMultiple(x + 0x8000_0000, 0x1_0000_0000);
    RestIsMultiple(x, 0x1_0000_0000);
  }

  lemma RestIsMultiple(y: int, m: nat)
    requires m in {65536, 0x1_0000_0000}
    ensures (y - y % m) % m == 0
  {
    assert y - y % m == m * (y / m);
  }

  lemma MulMono(a: nat, b: nat, c: nat)
    requires a <= b
    ensures a * c <= b * c
  {}

  lemma DivUnique(p: nat, w: nat, q: nat)
    requires w > 0 && q * w <= p < q * w + w
    ensures p / w == q && p % w == p - q * w
  {
    var d := p / w;
    assert p == d * w + p % w;
    assert (d + 1) * w == d * w + w && (q + 1) * w == q * w + w;
    MulMono(d + 1, if d < q then q else d + 1, w);
    MulMono(q + 1, if q < d then d else q + 1, w);
  }

  /** Counting modulo 2^32 commutes with addition, and distinguishes what it should. */
  lemma U32Add(a: int, b: int)
    ensures U32(U32(a) + b) == U32(a + b)
  {
    var k := a / 0x1_0000_0000;
    assert U32(a) == a - k * 0x1_0000_0000;
    assert (a + b - k * 0x1_0000_0000) % 0x1_0000_0000 == (a + b) % 0x1_0000_0000;
  }

  lemma U32Equal(a: int, b: int)
    ensures U32(a) == U32(b) <==> U32(a - b) == 0
  {
    U32Add(a, -b);
    U32Add(b, -b);
  }
}

/** The portable top_bit, which masks a word down to one bit while adding up its position.
    A word is represented by the set of positions of its one bits. */
module TopBit {
  import opened Words

  type Bits = set<nat>

  function BitsOf(n: nat): Bits {
    if n == 0 then {}
    else (if n % 2 == 1 then {0} else {}) + set p | p in BitsOf(n / 2) :: p + 1
  }

  /** Position of the highest set bit, -1 for zero. */
  function FloorLog2(n: nat): (r: int)
    ensures n == 0 <==> r == -1
    ensures n > 0 ==> r >= 0 && Pow2(r) <= n < Pow2(r + 1)
  {
    if n == 0 then -1 else if n == 1 then 0 else 1 + FloorLog2(n / 2)
  }

  lemma FloorLog2Unique(n: nat, r: nat)
    requires Pow2(r) <= n < Pow2(r + 1)
    ensures FloorLog2(n) == r
  {
    var f := FloorLog2(n);
    if f < r {
      Pow2Mono(f + 1, r);
    } else if r < f {
      Pow2Mono(r + 1, f);
    }
  }

  ghost predicate IsHighest(word: Bits, i: int) {
    if word == {} then i == -1 else i in word && forall p :: p in word ==> p <= i
  }

  lemma {:induction false} HighestBit(n: nat)
    ensures IsHighest(BitsOf(n), FloorLog2(n))
  {
    if n > 1 {
      HighestBit(n / 2);
      var f := FloorLog2(n / 2);
      assert f in BitsOf(n / 2) && f + 1 in BitsOf(n);
    } else if n == 1 {
      assert 0 in BitsOf(1);
    }
  }

  /** The highest position of a number's bits is the floor of its logarithm, and no other. */
  lemma HighestIsFloorLog2(n: nat, i: int)
    ensures IsHighest(BitsOf(n), i) <==> i == FloorLog2(n)
  {
    HighestBit(n);
  }

  /** word & mask, for the mask that keeps the upper w bits of every group of 2w bits:
      0xFFFF0000 for w = 16, 0xFF00FF00 for w = 8, down to 0xAAAAAAAA for w = 1. */
  function KeepUpper(word: Bits, w: nat): Bits
    requires w > 0
  {
    set p | p in word && p / w % 2 == 1
  }

  function Mul(k: nat, w: nat): nat {
    k * w
  }

  /** What is left of word lies in w bits, from a multiple i of w on, and includes the
      top bit. */
  ghost predicate Narrowed(word: Bits, bits: Bits, i: nat, w: nat)
    requires w > 0
  {
    && (exists k: nat :: i == Mul(k, w)) && bits != {} && bits <= word
    && (forall p :: p in bits ==> i <= p < i + w)
    && (forall p :: p in word && p !in bits ==> exists q :: q in bits && p < q)
  }

  lemma UpperHalf(p: nat, k: nat, w: nat)
    requires w > 0 && 2 * k * w <= p < 2 * k * w + 2 * w
    ensures p / w % 2 == 1 <==> 2 * k * w + w <= p
  {
    if p < 2 * k * w + w {
      DivUnique(p, w, 2 * k);
    } else {
      assert (2 * k + 1) * w == 2 * k * w + w;
      DivUnique(p, w, 2 * k + 1);
    }
  }

  /** One of the five tests: keep the upper half of the span if it is not empty. */
  method Narrow(ghost word: Bits, bits: Bits, i: nat, w: nat) returns (bits': Bits, i': nat)
    requires w in {1, 2, 4, 8, 16} && Narrowed(word, bits, i, 2 * w)
    ensures Narrowed(word, bits', i', w)
  {
    var upper := KeepUpper(bits, w);
    ghost var k: nat :| i == Mul(k, 2 * w);
    forall p | p in bits ensures p in upper <==> i + w <= p {
      UpperHalf(p, k, w);
    }
    assert i == Mul(2 * k, w) && i + w == Mul(2 * k + 1, w);
    if upper != {} {
      bits', i' := upper, i + w;
      ghost var u :| u in upper;
      forall p | p in word && p !in upper ensures exists q :: q in upper && p < q {
        assert p !in bits ==> exists q :: q in bits && p < q;
        assert u in upper && i + w <= u;
      }
    } else {
      bits', i' := bits, i;
    }
  }

  /** top_bit is floor(log2): five masks, each halving the span the bit can be in. */
  method TopBit(word: Bits) returns (i: int)
    requires forall p :: p in word ==> p < 32
    ensures IsHighest(word, i)
  {
    if word == {} {
      return -1;
    }
    var bits := word;
    assert 0 == Mul(0, 32);
    bits, i := Narrow(word, bits, 0, 16);
    bits, i := Narrow(word, bits, i, 8);
    bits, i := Narrow(word, bits, i, 4);
    bits, i := Narrow(word, bits, i, 2);
    bits, i := Narrow(word, bits, i, 1);
    assert i as nat in bits by {
      var p :| p in bits;
    }
  }
}

/** The map from library timeslots to hardware columns built when a span is initialised. */
module TdmMap {
  import opened Words
  import opened TopBit

  const MAX_CHANS: nat := 31  // SMG_HP_TDM_MAX_CHANS

  /** mask & (1 << i). */
  predicate Active(mask: nat, i: nat) {
    mask / Pow2(i) % 2 == 1
  }

  /** Number of active timeslots below i. */
  ghost function Rank(mask: nat, i: nat): (r: nat)
    requires i <= MAX_CHANS
    ensures r <= i
  {
    if i == 0 then 0 else Rank(mask, i - 1) + if Active(mask, i - 1) then 1 else 0
  }

  ghost predicate IsMap(mask: nat, hw: seq<int>, maxChans: nat) {
    && |hw| == MAX_CHANS && maxChans == Rank(mask, MAX_CHANS)
    && forall i: nat :: i < MAX_CHANS ==> hw[i] == if Active(mask, i) then Rank(mask, i) else -1
  }

  /** The channel loop of __sangoma_hptdm_api_span_init, after the E1 shift. */
  method MapTimeslots(activeCh: nat, e1: bool) returns (mask: nat, hw: seq<int>, maxChans: nat)
    ensures mask == if e1 then activeCh / 2 else activeCh
    ensures IsMap(mask, hw, maxChans)
  {
    mask := if e1 then activeCh / 2 else activeCh;
    var ch := 0;
    hw, maxChans := [], 0;
    for i := 0 to MAX_CHANS
      invariant |hw| == i && ch == maxChans == Rank(mask, i)
      invariant forall j: nat :: j < i ==> hw[j] == if Active(mask, j) then Rank(mask, j) else -1
    {
      if Active(mask, i) {
        hw := hw + [ch];
        ch := ch + 1;
        maxChans := maxChans + 1;
      } else {
        hw := hw + [-1];
      }
    }
  }

  lemma {:induction false} RankMono(mask: nat, i: nat, j: nat)
    requires i <= j <= MAX_CHANS
    ensures Rank(mask, i) <= Rank(mask, j)
    ensures i < j && Active(mask, i) ==> Rank(mask, i) < Rank(mask, j)
    decreases j
  {
    if i < j {
      RankMono(mask, i, j - 1);
    }
  }

  /** Every column below Rank(mask, n) belongs to a timeslot below n. */
  lemma {:induction false} RankOnto(mask: nat, n: nat, h: nat) returns (i: nat)
    requires n <= MAX_CHANS && h < Rank(mask, n)
    ensures i < n && Active(mask, i) && Rank(mask, i) == h
    decreases n
  {
    if Active(mask, n - 1) && Rank(mask, n - 1) == h {
      i := n - 1;
    } else {
      i := RankOnto(mask, n - 1, h);
    }
  }

  /** An order-preserving bijection from the mapped timeslots onto 0..maxChans-1. */
  ghost predicate Bijection(hw: seq<int>, maxChans: nat) {
    && |hw| == MAX_CHANS
    && (forall i :: 0 <= i < MAX_CHANS ==> -1 <= hw[i] < maxChans)
    && (forall i, j :: 0 <= i < j < MAX_CHANS && hw[i] >= 0 && hw[j] >= 0 ==> hw[i] < hw[j])
    && (forall h :: 0 <= h < maxChans ==> h in hw)
  }

  /** chan_no_hw maps exactly the active timeslots, onto 0..max_chans-1, in order. */
  lemma MapIsBijection(mask: nat, hw: seq<int>, maxChans: nat)
    requires IsMap(mask, hw, maxChans)
    ensures Bijection(hw, maxChans)
    ensures forall i :: 0 <= i < MAX_CHANS ==> (hw[i] >= 0 <==> Active(mask, i))
  {
    forall i | 0 <= i < MAX_CHANS ensures -1 <= hw[i] < maxChans {
      RankMono(mask, i, MAX_CHANS);
    }
    forall i, j | 0 <= i < j < MAX_CHANS && hw[i] >= 0 && hw[j] >= 0 ensures hw[i] < hw[j] {
      RankMono(mask, i, j);
    }
    forall h | 0 <= h < maxChans ensures h in hw {
      var i := RankOnto(mask, MAX_CHANS, h);
      assert hw[i] == h;
    }
  }

  // ---- The map in terms of the mask's bits ---------------------------------------

  lemma HalfFirst(m: nat, p: nat)
    requires p > 0
    ensures m / 2 / p == m / (2 * p)
  {
    var q := m / 2 / p;
    var r := m / 2 - q * p;
    assert 0 <= r < p && m / 2 == q * p + r;
    assert q * (2 * p) == 2 * (q * p);
    DivUnique(m, 2 * p, q);
  }

  /** A timeslot is active exactly if its bit is one of the mask's. */
  lemma {:induction false} ActiveIff(mask: nat, i: nat)
    ensures Active(mask, i) <==> i in BitsOf(mask)
    decreases i
  {
    if mask > 0 && i > 0 {
      ActiveIff(mask / 2, i - 1);
      HalfFirst(mask, Pow2(i - 1));
    } else if mask == 0 {
      assert 0 / Pow2(i) == 0;
    }
  }

  /** Timeslots below n whose bit is set. */
  ghost function SetBelow(mask: nat, n: nat): set<nat> {
    set j: nat | j < n && mask / Pow2(j) % 2 == 1
  }

  lemma {:induction false} RankCounts(mask: nat, n: nat)
    requires n <= MAX_CHANS
    ensures Rank(mask, n) == |SetBelow(mask, n)|
  {
    if n > 0 {
      RankCounts(mask, n - 1);
      assert SetBelow(mask, n) == SetBelow(mask, n - 1) + if mask / Pow2(n - 1) % 2 == 1 then {n - 1} else {};
    } else {
      assert SetBelow(mask, 0) == {};
    }
  }

  /** The mapped timeslots are those below 31 whose bit is set, each is mapped to the number of
      such timeslots below it, and the columns are as many as there are of them. */
  lemma MapCounts(mask: nat, hw: seq<int>, maxChans: nat)
    requires IsMap(mask, hw, maxChans)
    ensures |hw| == 31 && maxChans == |SetBelow(mask, 31)|
    ensures forall i: nat :: i < 31 ==> hw[i] == if mask / Pow2(i) % 2 == 1 then |SetBelow(mask, i)| else -1
  {
    RankCounts(mask, 31);
    forall i: nat | i < 31 ensures Rank(mask, i) == |SetBelow(mask, i)| {
      RankCounts(mask, i);
    }
  }

  /** On an E1 line timeslot i is bit i + 1 of what was configured. */
  lemma E1Shift(activeCh: nat, i: nat)
    ensures Active(activeCh / 2, i) <==> activeCh / Pow2(i + 1) % 2 == 1
  {
    HalfFirst(activeCh, Pow2(i));
  }

  lemma {:induction false} OneBit(k: nat)
    ensures BitsOf(Pow2(k)) == {k}
  {
    if k > 0 {
      OneBit(k - 1);
      assert Pow2(k) / 2 == Pow2(k - 1);
    }
  }

  /** A mask of one bit maps that timeslot to column 0 and no other. */
  lemma SingleTimeslot(k: nat, hw: seq<int>, maxChans: nat)
    requires k < 31 && IsMap(Pow2(k), hw, maxChans)
    ensures maxChans == 1 && forall i: nat :: i < 31 ==> hw[i] == if i == k then 0 else -1
  {
    OneBit(k);
    MapCounts(Pow2(k), hw, maxChans);
    forall i: nat ensures Pow2(k) / Pow2(i) % 2 == 1 <==> i == k {
      ActiveIff(Pow2(k), i);
    }
    assert SetBelow(Pow2(k), 31) == {k};
    assert SetBelow(Pow2(k), k) == {};
  }
}

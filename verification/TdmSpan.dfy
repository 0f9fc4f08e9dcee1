/** A span: 31 channels multiplexed into one transmit block and demultiplexed from one
    receive block. */
module TdmSpan {
  import opened Words
  import opened TdmChannel
  import opened TdmMap

  const IDLE: byte := 0xFF

  /** What the write event sees of one timeslot. */
  datatype Lane = Lane(open: bool, hw: int, bytes: seq<byte>)

  /** Bytes of the lane that fit in a block of n rows. */
  function Share(l: Lane, n: nat): (r: seq<byte>)
    ensures |r| == Min(n, |l.bytes|)
  {
    l.bytes[..Min(n, |l.bytes|)]
  }

  /** The block after one more lane. */
  function MuxNext(l: Lane, m: nat, n: nat, block: seq<byte>): (r: seq<byte>)
    ensures |r| == |block|
  {
    if l.open && 0 <= l.hw then Scatter(block, m, l.hw, Share(l, n)) else block
  }

  /** The block after all the lanes were scattered into it, in order. */
  function Mux(lanes: seq<Lane>, m: nat, n: nat, block: seq<byte>): (r: seq<byte>)
    ensures |r| == |block|
  {
    if lanes == [] then block
    else MuxNext(lanes[|lanes| - 1], m, n, Mux(lanes[..|lanes| - 1], m, n, block))
  }

  function Idle(size: nat): (r: seq<byte>)
    ensures |r| == size && forall i :: 0 <= i < size ==> r[i] == IDLE
  {
    if size == 0 then [] else Idle(size - 1) + [IDLE]
  }

  // ---- Interleaving and its inverse ----------------------------------------------

  lemma CellsDiffer(m: nat, x: nat, h: nat, y: nat, g: nat)
    requires h < m && g < m
    ensures m * x + h == m * y + g <==> x == y && h == g
  {
    if x < y {
      CellInside(m, y, x, h);
    } else if y < x {
      CellInside(m, x, y, g);
    }
  }

  /** Scatter writes its own column and no other. */
  lemma {:induction false} ScatterCell(block: seq<byte>, m: nat, h: nat, b: seq<byte>, x: nat, g: nat, n: nat)
    requires h < m && g < m && x < n && |b| <= n && m * n <= |block|
    ensures 0 <= m * x + g < |block|
    ensures Scatter(block, m, h, b)[m * x + g] == if g == h && x < |b| then b[x] else block[m * x + g]
    decreases |b|
  {
    CellInside(m, n, x, g);
    if b != [] {
      var y := |b| - 1;
      ScatterCell(block, m, h, b[..y], x, g, n);
      CellInside(m, n, y, h);
      CellsDiffer(m, x, g, y, h);
    }
  }

  /** No two open lanes share a column, and every open lane has one. */
  ghost predicate Separate(lanes: seq<Lane>, m: nat) {
    && (forall i :: 0 <= i < |lanes| && lanes[i].open ==> 0 <= lanes[i].hw < m)
    && (forall i, j :: 0 <= i < j < |lanes| && lanes[i].open && lanes[j].open ==> lanes[i].hw != lanes[j].hw)
  }

  /** Row x of column g: the open lane mapped to g has put its byte x there, if it had
      that many; otherwise the cell is what the block held before. */
  lemma {:induction false} MuxCell(lanes: seq<Lane>, m: nat, n: nat, block: seq<byte>, x: nat, g: nat)
    requires Separate(lanes, m) && g < m && x < n && m * n <= |block|
    ensures 0 <= m * x + g < |block|
    ensures forall i :: 0 <= i < |lanes| && lanes[i].open && lanes[i].hw == g ==>
              Mux(lanes, m, n, block)[m * x + g] == if x < |lanes[i].bytes| then lanes[i].bytes[x] else block[m * x + g]
    ensures (forall i :: 0 <= i < |lanes| && lanes[i].open ==> lanes[i].hw != g) ==>
              Mux(lanes, m, n, block)[m * x + g] == block[m * x + g]
    decreases |lanes|
  {
    CellInside(m, n, x, g);
    if lanes != [] {
      var init, l := lanes[..|lanes| - 1], lanes[|lanes| - 1];
      MuxCell(init, m, n, block, x, g);
      if l.open {
        ScatterCell(Mux(init, m, n, block), m, l.hw, Share(l, n), x, g, n);
        if l.hw == g {
          assert forall i :: 0 <= i < |init| && init[i].open ==> init[i].hw != g;
        }
      }
    }
  }

  /** What the far end receives on one lane in one block. */
  function Padded(l: Lane, n: nat): (r: seq<byte>)
    ensures |r| == n
  {
    Share(l, n) + Idle(n - |Share(l, n)|)
  }

  lemma ColumnsInside(m: nat, n: nat, g: nat, size: nat)
    requires g < m && m * n <= size
    ensures forall x: nat :: x < n ==> 0 <= m * x + g < size
  {
    forall x: nat | x < n ensures 0 <= m * x + g < size {
      CellInside(m, n, x, g);
    }
  }

  /** De-interleaving an interleaved block gives each open lane exactly its own bytes,
      padded with idle, and every other column is idle throughout. */
  lemma DemuxMux(lanes: seq<Lane>, m: nat, n: nat, size: nat, g: nat)
    requires Separate(lanes, m) && g < m && m * n <= size
    ensures forall x: nat :: x < n ==> 0 <= m * x + g < size
    ensures forall i :: 0 <= i < |lanes| && lanes[i].open && lanes[i].hw == g ==>
              Column(Mux(lanes, m, n, Idle(size)), m, g, n) == Padded(lanes[i], n)
    ensures (forall i :: 0 <= i < |lanes| && lanes[i].open ==> lanes[i].hw != g) ==>
              Column(Mux(lanes, m, n, Idle(size)), m, g, n) == Idle(n)
  {
    ColumnsInside(m, n, g, size);
    forall x: nat | x < n
      ensures forall i :: 0 <= i < |lanes| && lanes[i].open && lanes[i].hw == g ==>
                Column(Mux(lanes, m, n, Idle(size)), m, g, n)[x] == Padded(lanes[i], n)[x]
      ensures (forall i :: 0 <= i < |lanes| && lanes[i].open ==> lanes[i].hw != g) ==>
                Column(Mux(lanes, m, n, Idle(size)), m, g, n)[x] == Idle(n)[x]
    {
      MuxCell(lanes, m, n, Idle(size), x, g);
    }
  }

  method ClosedChannels() returns (chans: seq<Channel>)
    ensures |chans| == MAX_CHANS
    ensures forall i :: 0 <= i < |chans| ==> fresh(chans[i]) && fresh(chans[i].txIdx) && chans[i].Valid() && !chans[i].init
    ensures forall i, j :: 0 <= i < j < |chans| ==> chans[i] != chans[j] && chans[i].txIdx != chans[j].txIdx
  {
    chans := [];
    for i := 0 to MAX_CHANS
      invariant |chans| == i
      invariant forall j :: 0 <= j < i ==> fresh(chans[j]) && fresh(chans[j].txIdx) && chans[j].Valid() && !chans[j].init
      invariant forall j, k :: 0 <= j < k < i ==> chans[j] != chans[k] && chans[j].txIdx != chans[k].txIdx
    {
      var c := new Channel();
      chans := chans + [c];
    }
  }

  // ---- The span object -----------------------------------------------------------

  class Span {
    const chans: seq<Channel>
    const hw: seq<int>          // chan_idx[i].chan_no_hw
    const maxChans: nat
    const chunkSz: nat
    const txData: array<byte>   // payload part of tx_data
    var init: bool

    ghost function Rings(): set<object> {
      set i: nat | i < |chans| :: chans[i].txIdx
    }

    ghost predicate Shape() {
      && |chans| == MAX_CHANS && Bijection(hw, maxChans)
      && (forall i, j :: 0 <= i < j < MAX_CHANS ==> chans[i] != chans[j] && chans[i].txIdx != chans[j].txIdx)
    }

    /** The block fits the transmit buffer. Nothing in the source checks it. */
    ghost predicate Fits() {
      maxChans * chunkSz <= txData.Length
    }

    /** Only mapped timeslots are ever open: open_chan refuses the others. */
    ghost predicate Valid()
      reads this, chans, Rings()
    {
      && Shape()
      && forall i :: 0 <= i < MAX_CHANS ==> chans[i].Valid() && (chans[i].init ==> hw[i] >= 0)
    }

    /** Span initialisation. size is that of tx_data behind its header. */
    constructor (activeCh: nat, e1: bool, chunkSz: nat, size: nat)
      ensures Valid() && init && this.chunkSz == chunkSz && txData.Length == size
      ensures IsMap(if e1 then activeCh / 2 else activeCh, hw, maxChans)
      ensures |chans| == |hw| == 31
      ensures forall i: nat :: i < 31 ==> (hw[i] >= 0 <==> activeCh / Pow2(if e1 then i + 1 else i) % 2 == 1)
      ensures forall i :: 0 <= i < MAX_CHANS ==> !chans[i].init && fresh(chans[i]) && fresh(chans[i].txIdx)
    {
      var mask, columns, total := MapTimeslots(activeCh, e1);
      MapIsBijection(mask, columns, total);
      forall i: nat | i < 31 ensures Active(mask, i) <==> activeCh / Pow2(if e1 then i + 1 else i) % 2 == 1 {
        if e1 { E1Shift(activeCh, i); }
      }
      var slots := ClosedChannels();
      this.chans, this.hw, this.maxChans, this.chunkSz := slots, columns, total, chunkSz;
      this.txData := new byte[size];
      this.init := true;
    }

    ghost function LaneOf(i: nat): Lane
      requires i < |chans| && i < |hw|
      reads chans[i]
    {
      Lane(chans[i].init, hw[i], Flat(chans[i].queue))
    }

    /** The first k timeslots as the write event sees them. */
    ghost function Lanes(k: nat): (r: seq<Lane>)
      requires Shape() && k <= MAX_CHANS
      reads chans
      ensures |r| == k && forall i: nat :: i < k ==> r[i] == LaneOf(i)
    {
      if k == 0 then [] else Lanes(k - 1) + [LaneOf(k - 1)]
    }

    lemma LanesSeparate(k: nat)
      requires Valid() && k <= MAX_CHANS
      ensures Separate(Lanes(k), maxChans)
    {
      forall i | 0 <= i < k ensures Lanes(k)[i] == LaneOf(i) {}
    }

    /** One pass of the outer loop: if open, timeslot i puts its share in its column. */
    method SendLane(i: nat)
      requires Valid() && Fits() && i < MAX_CHANS
      modifies chans, Rings(), txData
      ensures Valid()
      ensures txData[..] == MuxNext(old(LaneOf(i)), maxChans, chunkSz, old(txData[..]))
      ensures forall j :: 0 <= j < MAX_CHANS ==>
                && chans[j].init == old(chans[j].init)
                && (j != i ==> chans[j].queue == old(chans[j].queue))
      ensures chans[i].queue == if chans[i].init then Drain(old(chans[i].queue), chunkSz) else old(chans[i].queue)
    {
      hide Apply;
      var chan := chans[i];
      if chan.init {
        chan.SendTo(txData, maxChans, hw[i], chunkSz);
      }
    }

    /** Filling the block: idle cells, then one column after another. */
    method FillBlock()
      requires Valid() && Fits()
      modifies chans, Rings(), txData
      ensures Valid()
      ensures txData[..] == Mux(old(Lanes(MAX_CHANS)), maxChans, chunkSz, Idle(txData.Length))
      ensures forall i :: 0 <= i < MAX_CHANS ==>
                && chans[i].init == old(chans[i].init)
                && chans[i].queue == if chans[i].init then Drain(old(chans[i].queue), chunkSz) else old(chans[i].queue)
    {
      hide Scatter, Share, Drain, Flat, Ring, Idle, MuxNext;
      ghost var lanes, block := Lanes(MAX_CHANS), Idle(txData.Length);
      SetIdle(txData);
      for i := 0 to MAX_CHANS
        invariant Valid()
        invariant txData[..] == Mux(lanes[..i], maxChans, chunkSz, block)
        invariant forall j :: 0 <= j < MAX_CHANS ==>
                    && chans[j].init == old(chans[j].init)
                    && chans[j].queue == if j < i && chans[j].init then Drain(old(chans[j].queue), chunkSz) else old(chans[j].queue)
      {
        MuxStep(lanes, i, maxChans, chunkSz, block);
        assert LaneOf(i) == lanes[i];
        SendLane(i);
      }
      assert lanes[..MAX_CHANS] == lanes;
    }

    /** The span write event. The block is the interleaving of the open channels over idle
        cells; each open channel loses exactly the bytes it contributed. The bytes are
        gone even when the driver then refuses the block. */
    method WriteEvent(written: int, again: bool) returns (err: int)
      requires Valid() && Fits()
      modifies chans, Rings(), txData
      ensures Valid()
      ensures txData[..] == Mux(old(Lanes(MAX_CHANS)), maxChans, chunkSz, Idle(txData.Length))
      ensures forall i :: 0 <= i < MAX_CHANS ==>
                && chans[i].init == old(chans[i].init)
                && chans[i].queue == if chans[i].init then Drain(old(chans[i].queue), chunkSz) else old(chans[i].queue)
      ensures err == if written >= maxChans * chunkSz || again then 0 else -1
    {
      FillBlock();
      if written < maxChans * chunkSz {
        err := if again then 0 else -1;
      } else {
        err := 0;
      }
    }

    /** What the far end de-interleaves for timeslot i from the block the write event
        sends: an open channel's own bytes padded with idle, a closed one's idle. */
    lemma BlockDelivers(i: nat)
      requires Valid() && Fits() && i < MAX_CHANS && hw[i] >= 0
      ensures IsColumn(if chans[i].init then Padded(LaneOf(i), chunkSz) else Idle(chunkSz),
                       Mux(Lanes(MAX_CHANS), maxChans, chunkSz, Idle(txData.Length)), maxChans, hw[i], chunkSz)
    {
      LanesSeparate(MAX_CHANS);
      var lanes := Lanes(MAX_CHANS);
      DemuxMux(lanes, maxChans, chunkSz, txData.Length, hw[i]);
      assert lanes[i] == LaneOf(i);
      forall j | 0 <= j < |lanes| && lanes[j].open && j != i ensures lanes[j].hw != hw[i] {
        assert lanes[j] == LaneOf(j);
      }
    }

    /** Cell by cell: row x of timeslot i's column is byte x of its queue, or 0xFF if it has no
        such byte or is closed. */
    lemma BlockCell(i: nat, x: nat)
      requires Valid() && Fits() && i < 31 && hw[i] >= 0 && x < chunkSz
      ensures 0 <= maxChans * x + hw[i] < txData.Length
      ensures Mux(Lanes(MAX_CHANS), maxChans, chunkSz, Idle(txData.Length))[maxChans * x + hw[i]]
           == if chans[i].init && x < |Flat(chans[i].queue)| then Flat(chans[i].queue)[x] else 0xFF
    {
      hide Mux, Flat, Ring;
      var lanes := Lanes(MAX_CHANS);
      LanesSeparate(MAX_CHANS);
      MuxCell(lanes, maxChans, chunkSz, Idle(txData.Length), x, hw[i]);
      assert lanes[i] == LaneOf(i);
      forall j | 0 <= j < |lanes| && lanes[j].open && j != i ensures lanes[j].hw != hw[i] {
        assert lanes[j] == LaneOf(j);
      }
    }

    /** open_chan: -1 for a span that is not initialised, a number out of range, a missing
        callback or an unmapped timeslot, 1 for a channel that is open already; otherwise the
        channel starts empty. */
    method Open(chanNo: nat, callback: bool) returns (code: int)
      requires Valid()
      modifies chans, Rings()
      ensures Valid()
      ensures code == if !init || chanNo >= MAX_CHANS || !callback || hw[chanNo] < 0 then -1
                      else if old(chans[chanNo].init) then 1 else 0
      ensures forall i :: 0 <= i < MAX_CHANS ==>
                if code == 0 && i == chanNo then chans[i].init && chans[i].registered && chans[i].queue == []
                else chans[i].init == old(chans[i].init) && chans[i].queue == old(chans[i].queue)
    {
      if !init {
        return -1;
      }
      if chanNo >= MAX_CHANS {
        return -1;
      }
      if !callback {
        return -1;
      }
      if hw[chanNo] < 0 {
        return -1;
      }
      if chans[chanNo].init {
        return 1;
      }
      chans[chanNo].Reset();
      code := 0;
    }

    /** The result push_rx_data returns: that of the last open channel below k. */
    ghost function LastResult(k: nat, results: seq<int>): int
      requires k <= |chans| && k <= |results|
      reads chans
    {
      if k == 0 then 0
      else if !chans[k - 1].init then LastResult(k - 1, results)
      else if chans[k - 1].registered then results[k - 1] else 1
    }

    /** It is that of the greatest open index i, */
    lemma {:induction false} LastResultIs(k: nat, i: nat, results: seq<int>)
      requires k <= |chans| && k <= |results| && i < k
      requires chans[i].init && forall j :: i < j < k ==> !chans[j].init
      ensures LastResult(k, results) == if chans[i].registered then results[i] else 1
    {
      if i + 1 < k {
        LastResultIs(k - 1, i, results);
      }
    }

    /** and 0 if there is none. */
    lemma {:induction false} NoResult(k: nat, results: seq<int>)
      requires k <= |chans| && k <= |results| && forall j :: 0 <= j < k ==> !chans[j].init
      ensures LastResult(k, results) == 0
    {
      if k > 0 {
        NoResult(k - 1, results);
      }
    }

    /** What one receive block does to timeslot i, given its callback's result. */
    twostate predicate Served(i: nat, rx: seq<byte>, result: int)
      requires i < |chans| && i < |hw|
      reads chans[i]
    {
      var c := chans[i];
      && c.queue == old(c.queue)
      && if old(c.init)
         then hw[i] >= 0 && IsColumn(c.rxChunk, rx, maxChans, hw[i], chunkSz)
              && c.init == (old(c.registered) && result == 0)
         else !c.init && c.rxChunk == old(c.rxChunk)
    }

    /** push_rx_data: results[i] stands for what channel i's callback returns. Each open
        channel is handed its own column; one whose callback fails or is missing closes. */
    method PushRx(rx: seq<byte>, results: seq<int>) returns (err: int)
      requires Valid() && |results| == MAX_CHANS && maxChans * chunkSz <= |rx|
      modifies chans
      ensures Valid()
      ensures err == old(LastResult(MAX_CHANS, results))
      ensures forall i: nat :: i < MAX_CHANS ==> Served(i, rx, results[i])
    {
      hide Column, Ring, NonEmptyChunks;
      err := 0;
      for i := 0 to MAX_CHANS
        invariant Valid()
        invariant err == old(LastResult(i, results))
        invariant forall j: nat :: j < i ==> Served(j, rx, results[j])
        invariant forall j: nat :: i <= j < MAX_CHANS ==> unchanged(chans[j])
      {
        var chan := chans[i];
        if chan.init {
          ColumnsInside(maxChans, chunkSz, hw[i], |rx|);
          err := chan.Receive(rx, maxChans, hw[i], chunkSz, results[i]);
        }
      }
    }
  }

  /** memset of the block. */
  method SetIdle(block: array<byte>)
    modifies block
    ensures block[..] == Idle(block.Length)
  {
    forall c | 0 <= c < block.Length {
      block[c] := IDLE;
    }
    assert block[..] == Idle(block.Length);
  }

  lemma MuxStep(lanes: seq<Lane>, i: nat, m: nat, n: nat, block: seq<byte>)
    requires i < |lanes|
    ensures Mux(lanes[..i + 1], m, n, block) == MuxNext(lanes[i], m, n, Mux(lanes[..i], m, n, block))
  {
    assert lanes[..i + 1][..i] == lanes[..i];
  }
}

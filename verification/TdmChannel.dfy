/** One channel of a span, driven from a single thread: push, open, close and the inner
    loop of the span write event, against a queue of the bytes still to be sent. */
module TdmChannel {
  import opened Words
  import opened TdmChunks

  // ---- The queue that specifies the ring -----------------------------------------

  /** Bytes still to be sent of each queued chunk, oldest first; none is empty. */
  type Queue = seq<seq<byte>>

  function Flat(q: Queue): seq<byte> {
    if q == [] then [] else q[0] + Flat(q[1..])
  }

  ghost predicate NonEmptyChunks(q: Queue) {
    forall k :: 0 <= k < |q| ==> q[k] != []
  }

  /** One pass of the drain loop: a byte leaves the oldest chunk. */
  function DropByte(q: Queue): Queue
    requires q != []
  {
    if |q[0]| <= 1 then q[1..] else [q[0][1..]] + q[1..]
  }

  /** The queue after the drain loop ran for at most n cells. */
  function Drain(q: Queue, n: nat): Queue
    decreases n
  {
    if n == 0 || q == [] then q else Drain(DropByte(q), n - 1)
  }

  function Min(a: nat, b: nat): nat {
    if a < b then a else b
  }

  lemma FlatDropByte(q: Queue)
    requires q != [] && q[0] != []
    ensures Flat(DropByte(q)) == Flat(q)[1..]
  {
    if |q[0]| > 1 {
      assert DropByte(q)[1..] == q[1..];
    }
  }

  lemma {:induction false} FlatSnoc(q: Queue, c: seq<byte>)
    ensures Flat(q + [c]) == Flat(q) + c
  {
    if q == [] {
      assert (q + [c])[1..] == [];
      assert Flat(q + [c]) == c + Flat([]);
    } else {
      FlatSnoc(q[1..], c);
      assert (q + [c])[1..] == q[1..] + [c];
      assert (q[0] + Flat(q[1..])) + c == q[0] + (Flat(q[1..]) + c);
    }
  }

  /** Draining n cells takes min(n, queued) bytes off the front, across chunk boundaries. */
  lemma {:induction false} DrainTakes(q: Queue, n: nat)
    requires NonEmptyChunks(q)
    ensures NonEmptyChunks(Drain(q, n))
    ensures Flat(Drain(q, n)) == Flat(q)[Min(n, |Flat(q)|)..]
    decreases n
  {
    if n == 0 || q == [] {
    } else {
      FlatDropByte(q);
      DrainTakes(DropByte(q), n - 1);
    }
  }

  /** The block with bytes b written to column h, one per row of m cells. */
  function Scatter(block: seq<byte>, m: nat, h: nat, b: seq<byte>): (r: seq<byte>)
    ensures |r| == |block|
  {
    if b == [] then block
    else
      var r := Scatter(block, m, h, b[..|b| - 1]);
      var cell := m * (|b| - 1) + h;
      if cell < |r| then r[cell := b[|b| - 1]] else r
  }

  /** Column h of a block with rows of m cells. */
  function Column(block: seq<byte>, m: nat, h: nat, n: nat): (r: seq<byte>)
    requires forall x: nat :: x < n ==> 0 <= m * x + h < |block|
    ensures |r| == n && forall x: nat :: x < n ==> r[x] == block[m * x + h]
  {
    if n == 0 then [] else Column(block, m, h, n - 1) + [block[m * (n - 1) + h]]
  }

  ghost predicate IsColumn(data: seq<byte>, block: seq<byte>, m: nat, h: nat, n: nat) {
    (forall x: nat :: x < n ==> 0 <= m * x + h < |block|) && data == Column(block, m, h, n)
  }

  // ---- Runs of pushes and writes -------------------------------------------------

  datatype Op = PushOp(data: seq<byte>) | WriteOp(n: nat)

  /** The queue, the payloads accepted and the bytes put in timeslots so far. */
  datatype History = History(q: Queue, accepted: seq<seq<byte>>, sent: seq<byte>)

  function Apply(h: History, op: Op): History
    requires NonEmptyChunks(h.q)
  {
    match op
    case PushOp(data) =>
      if |data| < MAX_CHAN_DATA && |h.q| < SLOTS
      then History(h.q + [Wire(data)], h.accepted + [data], h.sent) else h
    case WriteOp(n) =>
      History(Drain(h.q, n), h.accepted, h.sent + Flat(h.q)[..Min(n, |Flat(h.q)|)])
  }

  /** Every operation appends to what was accepted and sent before. */
  lemma ApplyAppends(h: History, op: Op)
    requires NonEmptyChunks(h.q)
    ensures var t := Apply(History(h.q, [], []), op);
            Apply(h, op) == History(t.q, h.accepted + t.accepted, h.sent + t.sent)
  {
    hide Drain, Flat, Wire, NonEmptyChunks;
  }

  lemma ApplyConserves(h: History, op: Op)
    requires NonEmptyChunks(h.q) && WireAll(h.accepted) == h.sent + Flat(h.q)
    ensures var t := Apply(h, op); NonEmptyChunks(t.q) && WireAll(t.accepted) == t.sent + Flat(t.q)
  {
    hide Drain, Flat, Wire, WireAll;
    match op
    case PushOp(data) =>
      FlatSnoc(h.q, Wire(data));
      WireAllSnoc(h.accepted, data);
      Assoc(h.sent, Flat(h.q), Wire(data));
    case WriteOp(n) =>
      DrainTakes(h.q, n);
      var k := Min(n, |Flat(h.q)|);
      assert Flat(h.q) == Flat(h.q)[..k] + Flat(h.q)[k..];
      Assoc(h.sent, Flat(h.q)[..k], Flat(h.q)[k..]);
  }

  ghost predicate Reaches(ops: seq<Op>, hs: seq<History>) {
    && |hs| == |ops| + 1 && hs[0] == History([], [], [])
    && forall i :: 0 <= i < |ops| ==> NonEmptyChunks(hs[i].q) && hs[i + 1] == Apply(hs[i], ops[i])
  }

  /** Over any run since the channel was opened, the bytes placed in timeslots followed
      by the bytes still queued are the wire form of the accepted pushes. */
  lemma {:induction false} RunConserves(ops: seq<Op>, hs: seq<History>, k: nat)
    requires Reaches(ops, hs) && k < |hs|
    ensures NonEmptyChunks(hs[k].q) && WireAll(hs[k].accepted) == hs[k].sent + Flat(hs[k].q)
  {
    if k > 0 {
      RunConserves(ops, hs, k - 1);
      ApplyConserves(hs[k - 1], ops[k - 1]);
    }
  }

  // ---- The ring of slots against the queue ---------------------------------------

  /** Slot k places after tx_idx_out. */
  function Spot(idxOut: nat, k: nat): (r: nat)
    ensures r < SLOTS
  {
    (idxOut + k) % SLOTS
  }

  lemma SpotsDiffer(idxOut: nat, j: nat, k: nat)
    requires j < SLOTS && k < SLOTS
    ensures Spot(idxOut, j) == Spot(idxOut, k) <==> j == k
  {}

  /** Slot c is queued with these bytes still to be sent. */
  ghost predicate Queued(c: Chunk, unsent: seq<byte>) {
    && c.init && |c.data| == MAX_CHAN_DATA && c.len < MAX_CHAN_DATA
    && if c.len == 0 then c.offset == 0 && c.data[0] == 0 && unsent == [0]
       else c.offset < c.len && unsent == c.data[c.offset..c.len]
  }

  /** The slots with init set are exactly the circular interval from tx_idx_out to
      tx_idx_in, and hold the queue in order. */
  ghost predicate Ring(slots: seq<Chunk>, idxIn: nat, idxOut: nat, q: Queue) {
    && |slots| == SLOTS && idxOut < SLOTS && |q| <= SLOTS
    && idxIn == Spot(idxOut, |q|)
    && (forall k: nat :: k < |q| ==> Queued(slots[Spot(idxOut, k)], q[k]))
    && (forall k: nat :: |q| <= k < SLOTS ==> !slots[Spot(idxOut, k)].init)
  }

  lemma RingNonEmptyChunks(slots: seq<Chunk>, idxIn: nat, idxOut: nat, q: Queue)
    requires Ring(slots, idxIn, idxOut, q)
    ensures NonEmptyChunks(q)
  {
    forall k | 0 <= k < |q| ensures q[k] != [] {
      assert Queued(slots[Spot(idxOut, k)], q[k]);
    }
  }

  lemma RingFull(slots: seq<Chunk>, idxIn: nat, idxOut: nat, q: Queue)
    requires Ring(slots, idxIn, idxOut, q)
    ensures slots[idxIn].init <==> |q| == SLOTS
    ensures slots[idxOut].init <==> q != []
  {
    assert idxOut == Spot(idxOut, 0);
    if q != [] {
      assert Queued(slots[Spot(idxOut, 0)], q[0]);
    }
  }

  lemma RingPush(slots: seq<Chunk>, idxIn: nat, idxOut: nat, q: Queue, data: seq<byte>, c: Chunk)
    requires Ring(slots, idxIn, idxOut, q) && |q| < SLOTS
    requires |data| < MAX_CHAN_DATA == |c.data| && c.init && c.len == |data| && c.offset == 0
    requires c.data[..|data|] == data && (data == [] ==> c.data[0] == 0)
    ensures Ring(slots[idxIn := c], Next(idxIn), idxOut, q + [Wire(data)])
  {
    forall k: nat | k < SLOTS && k != |q|
      ensures slots[idxIn := c][Spot(idxOut, k)] == slots[Spot(idxOut, k)]
    {
      SpotsDiffer(idxOut, k, |q|);
    }
    assert Queued(c, Wire(data));
  }

  lemma HeadByte(c: Chunk, unsent: seq<byte>)
    requires Queued(c, unsent)
    ensures c.offset < |c.data| && unsent != [] && c.data[c.offset] == unsent[0]
    ensures c.offset + 1 >= c.len <==> |unsent| == 1
    ensures |unsent| > 1 ==> Queued(c.(offset := c.offset + 1), unsent[1..])
  {}

  lemma RingAdvance(slots: seq<Chunk>, idxIn: nat, idxOut: nat, q: Queue, c: Chunk, rest: seq<byte>)
    requires Ring(slots, idxIn, idxOut, q) && q != [] && Queued(c, rest)
    ensures Ring(slots[idxOut := c], idxIn, idxOut, [rest] + q[1..])
  {
    assert idxOut == Spot(idxOut, 0);
    hide Queued, Spot;
    forall k: nat | 0 < k < SLOTS ensures Spot(idxOut, k) != idxOut {
      SpotsDiffer(idxOut, k, 0);
    }
  }

  /** One pass of the drain loop on the head slot: the byte it emits, and what is left. */
  lemma RingDrop(slots: seq<Chunk>, idxIn: nat, idxOut: nat, q: Queue)
    requires Ring(slots, idxIn, idxOut, q) && q != [] && q[0] != []
    ensures var c := slots[idxOut];
            && c.offset < |c.data| && c.data[c.offset] == q[0][0]
            && (c.offset + 1 >= c.len <==> |q[0]| == 1)
            && if c.offset + 1 >= c.len
               then Ring(slots[idxOut := c.(offset := c.offset + 1, init := false)], idxIn,
                         Next(idxOut), DropByte(q))
               else Ring(slots[idxOut := c.(offset := c.offset + 1)], idxIn, idxOut, DropByte(q))
  {
    var c := slots[idxOut];
    assert idxOut == Spot(idxOut, 0);
    HeadByte(c, q[0]);
    if c.offset + 1 >= c.len {
      RingRelease(slots, idxIn, idxOut, q, c.(offset := c.offset + 1, init := false));
    } else {
      RingAdvance(slots, idxIn, idxOut, q, c.(offset := c.offset + 1), q[0][1..]);
    }
  }

  function Next(i: nat): nat {
    if i + 1 >= SLOTS then 0 else i + 1
  }

  lemma SpotNext(idxOut: nat, k: nat)
    requires idxOut < SLOTS && k < SLOTS
    ensures Spot(Next(idxOut), k) == if k + 1 < SLOTS then Spot(idxOut, k + 1) else idxOut
  {}

  lemma RingRelease(slots: seq<Chunk>, idxIn: nat, idxOut: nat, q: Queue, c: Chunk)
    requires Ring(slots, idxIn, idxOut, q) && q != [] && !c.init
    ensures Ring(slots[idxOut := c], idxIn, Next(idxOut), q[1..])
  {
    hide Queued;
    var next, after := Next(idxOut), slots[idxOut := c];
    SpotNext(idxOut, |q| - 1);
    forall k: nat | k < |q| - 1 ensures Queued(after[Spot(next, k)], q[1..][k]) {
      SpotNext(idxOut, k);
      SpotsDiffer(idxOut, k + 1, 0);
    }
    forall k: nat | |q| - 1 <= k < SLOTS ensures !after[Spot(next, k)].init {
      SpotNext(idxOut, k);
    }
  }

  /** Free slots as chan->push counts them. */
  function FreeSlots(idxIn: nat, idxOut: nat): int {
    if idxIn >= idxOut then SLOTS - (idxIn - idxOut) else idxOut - idxIn
  }

  // ---- The channel ---------------------------------------------------------------

  class Channel {
    var init: bool
    var registered: bool       // chan_reg.p and chan_reg.rx_data are set
    var rxChunk: seq<byte>     // rx_chunk.data[..rx_chunk.len]
    const txIdx: array<Chunk>
    var txIdxIn: nat
    var txIdxOut: nat
    ghost var queue: Queue

    ghost predicate Valid()
      reads this, txIdx
      ensures Valid() ==> NonEmptyChunks(queue)
    {
      Ring(txIdx[..], txIdxIn, txIdxOut, queue) && (RingNonEmptyChunks(txIdx[..], txIdxIn, txIdxOut, queue); true)
    }

    constructor ()
      ensures Valid() && !init && !registered && queue == [] && fresh(txIdx)
    {
      init, registered, rxChunk := false, false, [];
      txIdx := new Chunk[SLOTS](_ => Blank());
      txIdxIn, txIdxOut, queue := 0, 0, [];
    }

    /** The memset and the assignments of open_chan. */
    method Reset()
      requires txIdx.Length == SLOTS
      modifies this, txIdx
      ensures Valid() && init && registered && queue == [] && rxChunk == []
    {
      forall i | 0 <= i < SLOTS {
        txIdx[i] := Blank();
      }
      txIdxIn, txIdxOut, queue, rxChunk := 0, 0, [], [];
      registered := true;
      init := true;
    }

    /** chan->push: -2 closed, -1 too large, 1 exactly when 16 chunks are queued, else 0.
        Called from one thread, the free_slots test never refuses. */
    method Push(data: seq<byte>) returns (r: int)
      requires Valid()
      modifies this`txIdxIn, this`queue, txIdx
      ensures Valid()
      ensures r == if !init then -2 else if |data| >= 1024 then -1 else if |old(queue)| == 16 then 1 else 0
      ensures queue == if r == 0 then old(queue) + [Wire(data)] else old(queue)
      ensures init ==> Apply(History(old(queue), [], []), PushOp(data))
                       == History(queue, if r == 0 then [data] else [], [])
      ensures old(FreeSlots(txIdxIn, txIdxOut)) > 0
    {
      if !init {
        return -2;
      }
      if |data| >= MAX_CHAN_DATA {
        return -1;
      }
      var freeSlots;
      if txIdxIn >= txIdxOut {
        freeSlots := SLOTS - (txIdxIn - txIdxOut);
      } else {
        freeSlots := txIdxOut - txIdxIn;
      }
      assert freeSlots == FreeSlots(txIdxIn, txIdxOut) > 0;
      if freeSlots == 0 {
        return 1;
      }
      RingFull(txIdx[..], txIdxIn, txIdxOut, queue);
      if txIdx[txIdxIn].init {
        return 1;
      }
      var c := Blank();
      c := c.(data := data + c.data[|data|..]);
      c := c.(len := |data|);
      c := c.(init := true);
      assert c.data[..|data|] == data;
      RingPush(txIdx[..], txIdxIn, txIdxOut, queue, data, c);
      ghost var slots := txIdx[..][txIdxIn := c];
      txIdx[txIdxIn] := c;
      assert txIdx[..] == slots;
      queue := queue + [Wire(data)];
      txIdxIn := txIdxIn + 1;
      if txIdxIn >= SLOTS {
        txIdxIn := 0;
      }
      r := 0;
    }

    /** One pass of the inner loop of the write event; more says that it did not break. */
    method SendByte(tx: array<byte>, cell: nat) returns (more: bool)
      requires Valid() && queue != [] && cell < tx.Length
      modifies this`txIdxOut, this`queue, txIdx, tx
      ensures Valid()
      ensures queue == DropByte(old(queue)) && more == (queue != [])
      ensures tx[..] == old(tx[..])[cell := old(queue)[0][0]]
    {
      hide Queued, Spot;
      RingDrop(txIdx[..], txIdxIn, txIdxOut, queue);
      ghost var slots, i, c := txIdx[..], txIdxOut, txIdx[txIdxOut];
      tx[cell] := txIdx[txIdxOut].data[txIdx[txIdxOut].offset];
      txIdx[txIdxOut] := txIdx[txIdxOut].(offset := txIdx[txIdxOut].offset + 1);
      assert txIdx[..] == slots[i := c.(offset := c.offset + 1)];
      queue := DropByte(queue);
      more := true;
      if txIdx[txIdxOut].offset >= txIdx[txIdxOut].len {
        txIdx[txIdxOut] := txIdx[txIdxOut].(init := false);
        assert txIdx[..] == slots[i := c.(offset := c.offset + 1, init := false)];
        txIdxOut := txIdxOut + 1;
        if txIdxOut >= SLOTS {
          txIdxOut := 0;
        }
        RingFull(txIdx[..], txIdxIn, txIdxOut, queue);
        more := txIdx[txIdxOut].init;
      }
    }

    /** The inner loop of the write event: at most n bytes of this channel go to column hw
        of the block, and exactly the bytes sent leave the ring. */
    method SendTo(tx: array<byte>, maxChans: nat, hw: nat, n: nat)
      requires Valid() && hw < maxChans && maxChans * n <= tx.Length
      modifies this`txIdxOut, this`queue, txIdx, tx
      ensures Valid()
      ensures queue == Drain(old(queue), n)
      ensures var sent := Flat(old(queue))[..Min(n, |Flat(old(queue))|)];
              && tx[..] == Scatter(old(tx[..]), maxChans, hw, sent)
              && Apply(History(old(queue), [], []), WriteOp(n)) == History(queue, [], sent)
    {
      hide Sent, Scatter, Drain, Flat, Queued, Spot;
      ghost var q0, block := queue, tx[..];
      SentEnds(block, tx[..], q0, queue, maxChans, hw, n, 0);
      RingFull(txIdx[..], txIdxIn, txIdxOut, queue);
      if !txIdx[txIdxOut].init {
        return;
      }
      var x, more := 0, true;
      while x < n && more
        invariant x <= n && more == (queue != []) && Valid()
        invariant Sent(block, tx[..], q0, queue, maxChans, hw, n, x)
      {
        CellInside(maxChans, n, x, hw);
        ghost var cell, sent, q := maxChans * x + hw, tx[..], queue;
        SentStep(block, sent, q0, q, maxChans, hw, n, x);
        more := SendByte(tx, maxChans * x + hw);
        assert tx[..] == sent[cell := q[0][0]];
        assert Sent(block, tx[..], q0, queue, maxChans, hw, n, x + 1);
        x := x + 1;
      }
      SentEnds(block, tx[..], q0, queue, maxChans, hw, n, x);
    }

    /** The body of push_rx_data for one open channel; result is its callback's. */
    method Receive(rx: seq<byte>, maxChans: nat, hw: nat, n: nat, result: int) returns (err: int)
      requires forall x: nat :: x < n ==> 0 <= maxChans * x + hw < |rx|
      modifies this`rxChunk, this`init, this`registered
      ensures IsColumn(rxChunk, rx, maxChans, hw, n)
      ensures err == if old(registered) then result else 1
      ensures if err != 0 then !init && !registered else init == old(init) && registered == old(registered)
    {
      rxChunk := [];
      for x := 0 to n
        invariant rxChunk == Column(rx, maxChans, hw, x)
        modifies this`rxChunk
      {
        rxChunk := rxChunk + [rx[maxChans * x + hw]];
      }
      if registered {
        err := result;
      } else {
        err := 1;
      }
      if err != 0 {
        init := false;
        registered := false;
      }
    }

    /** close_chan: what is queued stays in the ring until the channel is opened again. */
    method Close()
      modifies this`init, this`registered
      ensures !init && !registered
    {
      init := false;
      registered := false;
    }
  }

  /** After x passes of the inner loop. */
  ghost predicate Sent(block: seq<byte>, tx: seq<byte>, q0: Queue, q: Queue, m: nat, h: nat, n: nat, x: nat) {
    && x <= |Flat(q0)| && Flat(q) == Flat(q0)[x..]
    && x <= n && Drain(q, n - x) == Drain(q0, n)
    && tx == Scatter(block, m, h, Flat(q0)[..x])
  }

  lemma SentEnds(block: seq<byte>, tx: seq<byte>, q0: Queue, q: Queue, m: nat, h: nat, n: nat, x: nat)
    ensures x == 0 && tx == block && q == q0 ==> Sent(block, tx, q0, q, m, h, n, x)
    ensures Sent(block, tx, q0, q, m, h, n, x) && (x == n || q == []) ==>
              q == Drain(q0, n) && tx == Scatter(block, m, h, Flat(q0)[..Min(n, |Flat(q0)|)])
  {
    assert Flat(q0)[0..] == Flat(q0);
  }

  lemma ScatterSnoc(block: seq<byte>, m: nat, h: nat, b: seq<byte>, x: nat)
    requires x < |b| && m * x + h < |block|
    ensures Scatter(block, m, h, b[..x + 1]) == Scatter(block, m, h, b[..x])[m * x + h := b[x]]
  {
    assert b[..x + 1][..x] == b[..x];
  }

  lemma DropFront(q: Queue, bytes: seq<byte>, x: nat)
    requires q != [] && q[0] != [] && x <= |bytes| && Flat(q) == bytes[x..]
    ensures x < |bytes| && q[0][0] == bytes[x] && Flat(DropByte(q)) == bytes[x + 1..]
  {
    FlatDropByte(q);
    assert Flat(q)[0] == q[0][0];
  }

  lemma SentStep(block: seq<byte>, tx: seq<byte>, q0: Queue, q: Queue, m: nat, h: nat, n: nat, x: nat)
    requires Sent(block, tx, q0, q, m, h, n, x) && x < n && q != [] && q[0] != [] && m * x + h < |block|
    ensures |tx| == |block|
    ensures Sent(block, tx[m * x + h := q[0][0]], q0, DropByte(q), m, h, n, x + 1)
  {
    DropFront(q, Flat(q0), x);
    ScatterSnoc(block, m, h, Flat(q0), x);
  }

  lemma CellInside(m: nat, n: nat, x: nat, h: nat)
    requires x < n && h < m
    ensures 0 <= m * x + h < m * n
  {
    assert m * (x + 1) <= m * n;
    assert m * (x + 1) == m * x + m;
  }
}

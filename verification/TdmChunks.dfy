/** The chunk slot shared by the user thread and the span thread, and what a pushed
    payload looks like on the wire. */
module TdmChunks {
  import opened Words

  const SLOTS: nat := 16            // SMG_HP_TDM_CHUNK_IDX_SZ
  const MAX_CHAN_DATA: nat := 1024  // SMG_HP_MAX_CHAN_DATA

  datatype Chunk = Chunk(init: bool, len: nat, offset: nat, data: seq<byte>)

  function Zeros(n: nat): (r: seq<byte>)
    ensures |r| == n && forall i :: 0 <= i < n ==> r[i] == 0
  {
    if n == 0 then [] else Zeros(n - 1) + [0]
  }

  /** A slot after memset. */
  function Blank(): Chunk {
    Chunk(false, 0, 0, Zeros(MAX_CHAN_DATA))
  }

  /** Position in the ring of the j-th chunk accepted since the channel was opened. */
  function Pos(j: nat): (r: nat)
    ensures r < SLOTS
  {
    j % SLOTS
  }

  lemma PosInWindow(j: nat, k: nat)
    requires j <= k < j + SLOTS
    ensures Pos(j) == Pos(k) <==> j == k
  {}

  lemma PosSucc(j: nat)
    ensures Pos(j + 1) == if Pos(j) + 1 >= SLOTS then 0 else Pos(j) + 1
  {}

  /** The bytes the span thread emits for one accepted payload. The drain loop emits a
      byte before it compares offset with len, so an empty payload still costs one
      timeslot: the zero that memset left in data[0]. */
  function Wire(payload: seq<byte>): (r: seq<byte>)
    ensures |r| >= 1
  {
    if payload == [] then [0] else payload
  }

  function WireAll(payloads: seq<seq<byte>>): seq<byte> {
    if payloads == [] then [] else WireAll(payloads[..|payloads| - 1]) + Wire(payloads[|payloads| - 1])
  }

  function Flatten(payloads: seq<seq<byte>>): seq<byte> {
    if payloads == [] then [] else Flatten(payloads[..|payloads| - 1]) + payloads[|payloads| - 1]
  }

  /** The wire carries exactly the pushed bytes when, and only when, no push was empty. */
  lemma {:induction false} WireIsPayload(payloads: seq<seq<byte>>)
    ensures |WireAll(payloads)| >= |Flatten(payloads)|
    ensures WireAll(payloads) == Flatten(payloads) <==> [] !in payloads
  {
    if payloads != [] {
      var init, last := payloads[..|payloads| - 1], payloads[|payloads| - 1];
      WireIsPayload(init);
      assert payloads == init + [last];
      if last != [] && WireAll(payloads) == Flatten(payloads) {
        assert WireAll(payloads)[..|WireAll(init)|] == WireAll(init);
        assert Flatten(payloads)[..|Flatten(init)|] == Flatten(init);
      }
    }
  }

  lemma WireAllSnoc(payloads: seq<seq<byte>>, payload: seq<byte>)
    ensures WireAll(payloads + [payload]) == WireAll(payloads) + Wire(payload)
  {
    assert (payloads + [payload])[..|payloads|] == payloads;
  }

  lemma {:induction false} WireAllSplit(a: seq<seq<byte>>, b: seq<seq<byte>>)
    ensures WireAll(a + b) == WireAll(a) + WireAll(b)
    decreases |b|
  {
    if b == [] {
      assert a + b == a;
    } else {
      var init, last := b[..|b| - 1], b[|b| - 1];
      assert a + b == (a + init) + [last];
      WireAllSnoc(a + init, last);
      WireAllSplit(a, init);
      Assoc(WireAll(a), WireAll(init), Wire(last));
    }
  }

  lemma Assoc(x: seq<byte>, y: seq<byte>, z: seq<byte>)
    ensures (x + y) + z == x + (y + z)
  {}
}

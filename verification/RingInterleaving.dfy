/** The lock-free transmit ring of one open channel, as an interleaving of the user
    thread inside chan->push and the span thread inside the write event. Each step is
    one access to shared memory, under sequential consistency. No lock is modelled
    because the source takes none: the "Lock" comments guard nothing. */
module RingInterleaving {
  import opened Words
  import opened TdmChunks

  /** Program counter of the user thread; payload is what it is pushing. */
  datatype Pusher =
    | PIdle
    | PReadOut(payload: seq<byte>)
    | PRereadOut(payload: seq<byte>, out: nat)
    | PTestSlot(payload: seq<byte>)
    | PClear(payload: seq<byte>)
    | PZero(payload: seq<byte>, k: nat)
    | PCopy(payload: seq<byte>, k: nat)
    | PSetLen(payload: seq<byte>)
    | PSetInit(payload: seq<byte>)
    | PAdvance(payload: seq<byte>)
    | PWrap(payload: seq<byte>)

  /** Program counter of the span thread; x and n are the loop index and chunk size. */
  datatype Drainer =
    | DIdle
    | DTest(n: nat)
    | DFetch(x: nat, n: nat)
    | DBump(x: nat, n: nat)
    | DCompare(x: nat, n: nat)
    | DRelease(x: nat, n: nat)
    | DAdvance(x: nat, n: nat)
    | DWrap(x: nat, n: nat)
    | DNext(x: nat, n: nat)

  /** What chan->push returned: 0, -1, and the two ways of returning 1. */
  datatype Outcome = Accepted(payload: seq<byte>) | TooBig | NoFreeSlots | SlotBusy

  /** Shared memory and both program counters, then history: the returns of push, the
      payloads whose init flag was set, how many were released, the bytes emitted. */
  datatype State = State(
    slots: seq<Chunk>, idxIn: nat, idxOut: nat, p: Pusher, d: Drainer,
    log: seq<Outcome>, accepted: seq<seq<byte>>, released: nat, emitted: seq<byte>)

  datatype Action = Push(payload: seq<byte>) | StepUser | WriteEvent(n: nat) | StepSpan

  /** A channel just opened: memset to zero. */
  function Start(): State {
    State(seq(SLOTS, (_: nat) => Blank()), 0, 0, PIdle, DIdle, [], [], 0, [])
  }

  // Memory accesses. Out-of-range accesses have no effect here; Inv shows there are none.
  function Load(s: State, i: nat): Chunk {
    if i < |s.slots| then s.slots[i] else Blank()
  }

  function Store(s: State, i: nat, c: Chunk): State {
    if i < |s.slots| then s.(slots := s.slots[i := c]) else s
  }

  function ByteAt(data: seq<byte>, k: nat): byte {
    if k < |data| then data[k] else 0
  }

  function SetByte(data: seq<byte>, k: nat, b: byte): seq<byte> {
    if k < |data| then data[k := b] else data
  }

  predicate Filling(p: Pusher) {
    p.PClear? || p.PZero? || p.PCopy? || p.PSetLen?
  }

  /** One memory write of memset, memcpy or the len assignment, on the slot alone. */
  function Fill(c: Chunk, p: Pusher): (r: (Chunk, Pusher))
    requires Filling(p)
  {
    match p
    case PClear(b) => (c.(init := false, len := 0, offset := 0), PZero(b, 0))
    case PZero(b, k) =>
      if k < MAX_CHAN_DATA then (c.(data := SetByte(c.data, k, 0)), PZero(b, k + 1)) else (c, PCopy(b, 0))
    case PCopy(b, k) =>
      if k < |b| then (c.(data := SetByte(c.data, k, b[k])), PCopy(b, k + 1)) else (c, PSetLen(b))
    case PSetLen(b) => (c.(len := |b|), PSetInit(b))
  }

  function UserStep(s: State): State {
    match s.p
    case PIdle => s
    case PReadOut(b) => s.(p := PRereadOut(b, s.idxOut))
    case PRereadOut(b, out) =>
      var freeSlots: int := if s.idxIn >= out then SLOTS - (s.idxIn - s.idxOut) else s.idxOut - s.idxIn;
      if freeSlots == 0 then s.(p := PIdle, log := s.log + [NoFreeSlots]) else s.(p := PTestSlot(b))
    case PTestSlot(b) =>
      if Load(s, s.idxIn).init then s.(p := PIdle, log := s.log + [SlotBusy]) else s.(p := PClear(b))
    case PSetInit(b) =>
      Store(s, s.idxIn, Load(s, s.idxIn).(init := true)).(p := PAdvance(b), accepted := s.accepted + [b])
    case PAdvance(b) => s.(idxIn := s.idxIn + 1, p := PWrap(b))
    case PWrap(b) =>
      s.(idxIn := if s.idxIn >= SLOTS then 0 else s.idxIn, p := PIdle, log := s.log + [Accepted(b)])
    case _ =>
      var (c, p) := Fill(Load(s, s.idxIn), s.p);
      Store(s, s.idxIn, c).(p := p)
  }

  function NextCell(x: nat, n: nat): Drainer {
    if x + 1 < n then DFetch(x + 1, n) else DIdle
  }

  function SpanStep(s: State): State {
    match s.d
    case DIdle => s
    case DTest(n) => s.(d := if Load(s, s.idxOut).init && n > 0 then DFetch(0, n) else DIdle)
    case DFetch(x, n) =>
      var c := Load(s, s.idxOut);
      s.(emitted := s.emitted + [ByteAt(c.data, c.offset)], d := DBump(x, n))
    case DBump(x, n) =>
      var c := Load(s, s.idxOut);
      Store(s, s.idxOut, c.(offset := c.offset + 1)).(d := DCompare(x, n))
    case DCompare(x, n) =>
      var c := Load(s, s.idxOut);
      s.(d := if c.offset >= c.len then DRelease(x, n) else NextCell(x, n))
    case DRelease(x, n) =>
      Store(s, s.idxOut, Load(s, s.idxOut).(init := false)).(released := s.released + 1, d := DAdvance(x, n))
    case DAdvance(x, n) => s.(idxOut := s.idxOut + 1, d := DWrap(x, n))
    case DWrap(x, n) => s.(idxOut := if s.idxOut >= SLOTS then 0 else s.idxOut, d := DNext(x, n))
    case DNext(x, n) => s.(d := if Load(s, s.idxOut).init then NextCell(x, n) else DIdle)
  }

  function Step(s: State, a: Action): State {
    match a
    case Push(b) =>
      if s.p != PIdle then s
      else if |b| >= MAX_CHAN_DATA then s.(log := s.log + [TooBig])
      else s.(p := PReadOut(b))
    case StepUser => UserStep(s)
    case WriteEvent(n) => if s.d == DIdle then s.(d := DTest(n)) else s
    case StepSpan => SpanStep(s)
  }

  /** Every interleaving is a schedule; actions of a thread that is busy or idle stutter. */
  function Run(s: State, schedule: seq<Action>): State
    decreases |schedule|
  {
    if schedule == [] then s else Run(Step(s, schedule[0]), schedule[1..])
  }

  // ---- The invariant -------------------------------------------------------------
  // Each conjunct takes only the parts of the state it speaks of, so that a step which
  // leaves those parts alone keeps it by equality.

  ghost predicate Shape(slots: seq<Chunk>) {
    |slots| == SLOTS && forall i :: 0 <= i < SLOTS ==> |slots[i].data| == MAX_CHAN_DATA
  }

  /** Slot c holds the whole of payload b. */
  ghost predicate Holds(c: Chunk, b: seq<byte>) {
    && c.init && c.len == |b| < MAX_CHAN_DATA == |c.data|
    && c.data[..|b|] == b
    && (b == [] ==> c.data[0] == 0)
  }

  /** The init flags are set on exactly the window of accepted, unreleased chunks. */
  ghost predicate Window(slots: seq<Chunk>, accepted: seq<seq<byte>>, released: nat)
    requires Shape(slots)
  {
    && released <= |accepted| <= released + SLOTS
    && (forall j: nat :: released <= j < |accepted| ==> Holds(slots[Pos(j)], accepted[j]))
    && (forall j: nat :: released < j < |accepted| ==> slots[Pos(j)].offset == 0)
    && (forall j: nat :: |accepted| <= j < released + SLOTS ==> !slots[Pos(j)].init)
  }

  /** tx_idx_in, including the moments when it lags behind init and when it is 16. */
  ghost predicate InIndex(p: Pusher, idxIn: nat, n: nat) {
    if p.PAdvance? then n > 0 && idxIn == Pos(n - 1)
    else if p.PWrap? then n > 0 && idxIn == Pos(n - 1) + 1
    else idxIn == Pos(n)
  }

  /** tx_idx_out, likewise. */
  ghost predicate OutIndex(d: Drainer, idxOut: nat, released: nat) {
    if d.DAdvance? then released > 0 && idxOut == Pos(released - 1)
    else if d.DWrap? then released > 0 && idxOut == Pos(released - 1) + 1
    else idxOut == Pos(released)
  }

  ghost predicate Unset(c: Chunk, len: nat) {
    !c.init && c.len == len && c.offset == 0 && |c.data| == MAX_CHAN_DATA
  }

  /** c.data starts with the first k bytes of b; an empty b leaves the zero of memset. */
  ghost predicate Copied(c: Chunk, b: seq<byte>, k: nat) {
    && k <= |b| < MAX_CHAN_DATA == |c.data|
    && c.data[..k] == b[..k]
    && (b == [] ==> c.data[0] == 0)
  }

  /** What the user thread knows about the slot c that it is about to fill or filling. */
  ghost predicate UserOwns(c: Chunk, p: Pusher) {
    match p
    case PIdle => true
    case PReadOut(b) => |b| < MAX_CHAN_DATA
    case PRereadOut(b, _) => |b| < MAX_CHAN_DATA
    case PTestSlot(b) => |b| < MAX_CHAN_DATA
    case PClear(b) => |b| < MAX_CHAN_DATA && !c.init
    case PZero(b, k) =>
      && |b| < MAX_CHAN_DATA && k <= MAX_CHAN_DATA && Unset(c, 0)
      && forall i :: 0 <= i < k ==> c.data[i] == 0
    case PCopy(b, k) => Unset(c, 0) && Copied(c, b, k)
    case PSetLen(b) => Unset(c, 0) && Copied(c, b, |b|)
    case PSetInit(b) => Unset(c, |b|) && Copied(c, b, |b|)
    case PAdvance(_) => true
    case PWrap(_) => true
  }

  /** Bytes of the oldest unreleased chunk already emitted. */
  ghost function Progress(slots: seq<Chunk>, accepted: seq<seq<byte>>, released: nat, bump: bool): nat
    requires Shape(slots)
  {
    if released >= |accepted| then 0 else slots[Pos(released)].offset + if bump then 1 else 0
  }

  ghost predicate Draining(d: Drainer) {
    d.DFetch? || d.DBump? || d.DCompare? || d.DRelease?
  }

  /** How far the span thread can be into the head chunk of w wire bytes. */
  ghost predicate SpanOwns(d: Drainer, progress: nat, w: nat) {
    if d.DCompare? then 1 <= progress <= w
    else if d.DRelease? then progress == w
    else if d.DBump? then progress <= w
    else progress < w
  }

  ghost predicate SpanAt(d: Drainer, progress: nat, accepted: seq<seq<byte>>, released: nat) {
    && (Draining(d) ==> released < |accepted| && d.x < d.n)
    && (released < |accepted| ==> SpanOwns(d, progress, |Wire(accepted[released])|))
  }

  /** Released chunks whole, then part of the next. */
  ghost function Drained(accepted: seq<seq<byte>>, released: nat, progress: nat): seq<byte>
    requires released <= |accepted|
    requires released < |accepted| ==> progress <= |Wire(accepted[released])|
  {
    WireAll(accepted[..released]) + if released < |accepted| then Wire(accepted[released])[..progress] else []
  }

  /** The payloads of the pushes that returned 0. */
  ghost function ReturnedOk(log: seq<Outcome>): seq<seq<byte>> {
    if log == [] then []
    else
      var init := ReturnedOk(log[..|log| - 1]);
      match log[|log| - 1]
      case Accepted(b) => init + [b]
      case _ => init
  }

  /** Chunks in the ring are those whose push returned 0, plus one whose push is about to. */
  ghost predicate Logged(log: seq<Outcome>, accepted: seq<seq<byte>>, p: Pusher) {
    accepted == ReturnedOk(log) + if p.PAdvance? || p.PWrap? then [p.payload] else []
  }

  ghost predicate Inv(s: State) {
    && Shape(s.slots)
    && Window(s.slots, s.accepted, s.released)
    && InIndex(s.p, s.idxIn, |s.accepted|)
    && OutIndex(s.d, s.idxOut, s.released)
    && UserOwns(s.slots[Pos(|s.accepted|)], s.p)
    && var progress := Progress(s.slots, s.accepted, s.released, s.d.DBump?);
    && SpanAt(s.d, progress, s.accepted, s.released)
    && s.emitted == Drained(s.accepted, s.released, progress)
    && Logged(s.log, s.accepted, s.p)
  }

  lemma LogSnoc(log: seq<Outcome>, o: Outcome)
    ensures ReturnedOk(log + [o]) == ReturnedOk(log) + if o.Accepted? then [o.payload] else []
  {
    assert (log + [o])[..|log|] == log;
  }

  lemma StartInv()
    ensures Inv(Start())
  {}

  // ---- Steps of the user thread --------------------------------------------------

  /** A slot without init at tx_idx_in means the ring is not full. */
  lemma FreeSlot(slots: seq<Chunk>, accepted: seq<seq<byte>>, released: nat)
    requires Shape(slots) && Window(slots, accepted, released)
    ensures |accepted| < released + SLOTS <==> !slots[Pos(|accepted|)].init
  {
    if |accepted| == released + SLOTS {
      assert Holds(slots[Pos(released)], accepted[released]);
      assert Pos(|accepted|) == Pos(released);
    }
  }

  /** Filling the free slot disturbs nothing the span thread relies on. */
  lemma FillFrame(slots: seq<Chunk>, c: Chunk, accepted: seq<seq<byte>>, released: nat, bump: bool)
    requires Shape(slots) && Window(slots, accepted, released)
    requires |accepted| < released + SLOTS
    requires |c.data| == MAX_CHAN_DATA && !c.init
    ensures var t := slots[Pos(|accepted|) := c];
            Shape(t) && Window(t, accepted, released)
            && Progress(t, accepted, released, bump) == Progress(slots, accepted, released, bump)
  {
    var t := slots[Pos(|accepted|) := c];
    forall j: nat | released <= j < |accepted|
      ensures t[Pos(j)] == slots[Pos(j)]
    {
      PosInWindow(j, |accepted|);
    }
  }

  lemma FillOwns(c: Chunk, p: Pusher)
    requires Filling(p) && |c.data| == MAX_CHAN_DATA && UserOwns(c, p) && !c.init
    ensures var (c', p') := Fill(c, p); UserOwns(c', p') && !c'.init && |c'.data| == MAX_CHAN_DATA
  {
    if p.PCopy? && p.k < |p.payload| {
      var c' := Fill(c, p).0;
      assert c'.data[..p.k + 1] == c.data[..p.k] + [p.payload[p.k]];
    }
  }

  lemma UserFillInv(s: State)
    requires Inv(s) && Filling(s.p)
    ensures Inv(UserStep(s))
  {
    FreeSlot(s.slots, s.accepted, s.released);
    var i := Pos(|s.accepted|);
    FillOwns(s.slots[i], s.p);
    var (c, p) := Fill(s.slots[i], s.p);
    FillFrame(s.slots, c, s.accepted, s.released, s.d.DBump?);
    assert UserStep(s) == s.(slots := s.slots[i := c], p := p);
  }

  /** Setting init adds one chunk to the end of the window. */
  lemma PublishWindow(slots: seq<Chunk>, accepted: seq<seq<byte>>, released: nat, b: seq<byte>)
    requires Shape(slots) && Window(slots, accepted, released)
    requires UserOwns(slots[Pos(|accepted|)], PSetInit(b))
    ensures var t := slots[Pos(|accepted|) := slots[Pos(|accepted|)].(init := true)];
            && Shape(t) && Window(t, accepted + [b], released)
            && (released == |accepted| ==> t[Pos(released)].offset == 0)
            && (released < |accepted| ==> t[Pos(released)] == slots[Pos(released)])
  {
    FreeSlot(slots, accepted, released);
    var n := |accepted|;
    var t := slots[Pos(n) := slots[Pos(n)].(init := true)];
    forall j: nat | released <= j < released + SLOTS && j != n
      ensures t[Pos(j)] == slots[Pos(j)]
    {
      if j < n { PosInWindow(j, n); } else { PosInWindow(n, j); }
    }
    assert Holds(t[Pos(n)], b);
  }

  lemma UserPublishInv(s: State)
    requires Inv(s) && s.p.PSetInit?
    ensures Inv(UserStep(s))
  {
    hide Holds, Wire, WireAll, ReturnedOk;
    var b, i := s.p.payload, Pos(|s.accepted|);
    var slots := s.slots[i := s.slots[i].(init := true)];
    PublishWindow(s.slots, s.accepted, s.released, b);
    assert (s.accepted + [b])[..s.released] == s.accepted[..s.released];
    assert UserStep(s) == s.(slots := slots, p := PAdvance(b), accepted := s.accepted + [b]);
    assert Progress(slots, s.accepted + [b], s.released, s.d.DBump?)
        == Progress(s.slots, s.accepted, s.released, s.d.DBump?);
  }

  lemma UserWrapInv(s: State)
    requires Inv(s) && s.p.PWrap?
    ensures Inv(UserStep(s))
  {
    hide Window, SpanAt, Progress, Drained, ReturnedOk, Pos;
    LogSnoc(s.log, Accepted(s.p.payload));
    PosSucc(|s.accepted| - 1);
    assert UserStep(s) == s.(idxIn := Pos(|s.accepted|), p := PIdle, log := s.log + [Accepted(s.p.payload)]);
  }

  lemma UserRefusedInv(s: State, o: Outcome)
    requires Inv(s) && (s.p.PIdle? || s.p.PRereadOut? || s.p.PTestSlot?) && !o.Accepted?
    ensures Inv(s.(p := PIdle, log := s.log + [o]))
  {
    LogSnoc(s.log, o);
  }

  lemma UserReadInv(s: State, p: Pusher)
    requires Inv(s) && (s.p.PReadOut? || s.p.PRereadOut? || s.p.PTestSlot?)
    requires p.PRereadOut? || p.PTestSlot? || (p.PClear? && !s.slots[Pos(|s.accepted|)].init)
    requires p.payload == s.p.payload
    ensures Inv(s.(p := p))
  {}

  lemma UserAdvanceInv(s: State)
    requires Inv(s) && s.p.PAdvance?
    ensures Inv(UserStep(s))
  {
    hide Window, Holds, SpanAt, Progress, Drained, ReturnedOk;
  }

  lemma UserControlInv(s: State)
    requires Inv(s) && !Filling(s.p) && !s.p.PSetInit? && !s.p.PWrap?
    ensures Inv(UserStep(s))
  {
    if s.p.PRereadOut? { UserRefusedInv(s, NoFreeSlots); UserReadInv(s, PTestSlot(s.p.payload)); }
    else if s.p.PTestSlot? {
      UserRefusedInv(s, SlotBusy);
      if !s.slots[Pos(|s.accepted|)].init { UserReadInv(s, PClear(s.p.payload)); }
    }
    else if s.p.PReadOut? { UserReadInv(s, PRereadOut(s.p.payload, s.idxOut)); }
    else if s.p.PAdvance? { UserAdvanceInv(s); }
  }

  lemma UserStepInv(s: State)
    requires Inv(s)
    ensures Inv(UserStep(s))
  {
    if Filling(s.p) { UserFillInv(s); }
    else if s.p.PSetInit? { UserPublishInv(s); }
    else if s.p.PWrap? { UserWrapInv(s); }
    else { UserControlInv(s); }
  }

  // ---- Steps of the span thread --------------------------------------------------

  lemma HeadByte(c: Chunk, b: seq<byte>)
    requires Holds(c, b) && c.offset < |Wire(b)|
    ensures ByteAt(c.data, c.offset) == Wire(b)[c.offset]
    ensures Wire(b)[..c.offset] + [Wire(b)[c.offset]] == Wire(b)[..c.offset + 1]
  {
    if b != [] {
      assert c.data[c.offset] == c.data[..|b|][c.offset];
    }
  }

  lemma SpanFetchInv(s: State)
    requires Inv(s) && s.d.DFetch?
    ensures Inv(SpanStep(s))
  {
    HeadByte(s.slots[Pos(s.released)], s.accepted[s.released]);
    Assoc(WireAll(s.accepted[..s.released]), Wire(s.accepted[s.released])[..s.slots[Pos(s.released)].offset],
          [Wire(s.accepted[s.released])[s.slots[Pos(s.released)].offset]]);
  }

  /** Advancing the head's offset changes nothing else, and the user thread's slot is not
      the head while it is being filled. */
  lemma BumpWindow(slots: seq<Chunk>, accepted: seq<seq<byte>>, released: nat, offset: nat)
    requires Shape(slots) && Window(slots, accepted, released) && released < |accepted|
    ensures var t := slots[Pos(released) := slots[Pos(released)].(offset := offset)];
            && Shape(t) && Window(t, accepted, released)
            && (t[Pos(|accepted|)] == slots[Pos(|accepted|)] || slots[Pos(|accepted|)].init)
  {
    FreeSlot(slots, accepted, released);
    var t := slots[Pos(released) := slots[Pos(released)].(offset := offset)];
    forall j: nat | released < j < released + SLOTS
      ensures t[Pos(j)] == slots[Pos(j)]
    {
      PosInWindow(released, j);
    }
    assert Holds(slots[Pos(released)], accepted[released]);
    if |accepted| < released + SLOTS {
      PosInWindow(released, |accepted|);
    }
  }

  /** A full ring leaves the user thread no slot to be filling. */
  lemma OwnsIfFull(c: Chunk, c': Chunk, p: Pusher)
    requires UserOwns(c, p) && (c' == c || c.init)
    ensures UserOwns(c', p)
  {}

  lemma SpanBumpInv(s: State)
    requires Inv(s) && s.d.DBump?
    ensures Inv(SpanStep(s))
  {
    hide Holds, Wire, WireAll, ReturnedOk, UserOwns, Drained;
    var i := Pos(s.released);
    var c := s.slots[i];
    var slots := s.slots[i := c.(offset := c.offset + 1)];
    BumpWindow(s.slots, s.accepted, s.released, c.offset + 1);
    OwnsIfFull(s.slots[Pos(|s.accepted|)], slots[Pos(|s.accepted|)], s.p);
    assert Progress(slots, s.accepted, s.released, false) == Progress(s.slots, s.accepted, s.released, true);
    assert SpanStep(s) == s.(slots := slots, d := DCompare(s.d.x, s.d.n));
  }

  /** Clearing init hands the head's slot back and takes it out of the window. */
  lemma ReleaseWindow(slots: seq<Chunk>, accepted: seq<seq<byte>>, released: nat)
    requires Shape(slots) && Window(slots, accepted, released) && released < |accepted|
    ensures var t := slots[Pos(released) := slots[Pos(released)].(init := false)];
            && Shape(t) && Window(t, accepted, released + 1)
            && (t[Pos(|accepted|)] == slots[Pos(|accepted|)] || slots[Pos(|accepted|)].init)
            && (released + 1 < |accepted| ==> t[Pos(released + 1)].offset == 0)
  {
    assert Pos(released + SLOTS) == Pos(released);
    hide Holds, Pos;
    FreeSlot(slots, accepted, released);
    var t := slots[Pos(released) := slots[Pos(released)].(init := false)];
    forall j: nat | released < j < released + SLOTS
      ensures t[Pos(j)] == slots[Pos(j)]
    {
      PosInWindow(released, j);
    }
    if |accepted| < released + SLOTS {
      PosInWindow(released, |accepted|);
    }
  }

  lemma ReleaseDrained(accepted: seq<seq<byte>>, released: nat)
    requires released < |accepted|
    ensures Drained(accepted, released, |Wire(accepted[released])|) == Drained(accepted, released + 1, 0)
  {
    var w := Wire(accepted[released]);
    assert w[..|w|] == w;
    assert accepted[..released + 1] == accepted[..released] + [accepted[released]];
    WireAllSnoc(accepted[..released], accepted[released]);
  }

  lemma SpanReleaseInv(s: State)
    requires Inv(s) && s.d.DRelease?
    ensures Inv(SpanStep(s))
  {
    hide Holds, Wire, WireAll, ReturnedOk, UserOwns, Window;
    var i := Pos(s.released);
    var slots := s.slots[i := s.slots[i].(init := false)];
    ReleaseWindow(s.slots, s.accepted, s.released);
    OwnsIfFull(s.slots[Pos(|s.accepted|)], slots[Pos(|s.accepted|)], s.p);
    ReleaseDrained(s.accepted, s.released);
    assert Progress(slots, s.accepted, s.released + 1, false) == 0;
    assert SpanStep(s) == s.(slots := slots, released := s.released + 1, d := DAdvance(s.d.x, s.d.n));
  }

  lemma SpanWrapInv(s: State)
    requires Inv(s) && s.d.DWrap?
    ensures Inv(SpanStep(s))
  {
    PosSucc(s.released - 1);
  }

  lemma SpanTestInv(s: State)
    requires Inv(s) && (s.d.DTest? || s.d.DNext?)
    ensures Inv(SpanStep(s))
  {
    hide Holds, Wire, WireAll, ReturnedOk, UserOwns, Drained;
    FreeSlot(s.slots, s.accepted, s.released);
    if s.released == |s.accepted| { assert !s.slots[Pos(s.released)].init; }
  }

  lemma SpanCompareInv(s: State)
    requires Inv(s) && s.d.DCompare?
    ensures Inv(SpanStep(s))
  {
    assert Holds(s.slots[Pos(s.released)], s.accepted[s.released]);
  }

  lemma SpanStepInv(s: State)
    requires Inv(s)
    ensures Inv(SpanStep(s))
  {
    if s.d.DFetch? { SpanFetchInv(s); }
    else if s.d.DBump? { SpanBumpInv(s); }
    else if s.d.DRelease? { SpanReleaseInv(s); }
    else if s.d.DWrap? { SpanWrapInv(s); }
    else if s.d.DTest? || s.d.DNext? { SpanTestInv(s); }
    else if s.d.DCompare? { SpanCompareInv(s); }
  }

  lemma StepInv(s: State, a: Action)
    requires Inv(s)
    ensures Inv(Step(s, a))
  {
    match a
    case Push(b) => if s.p.PIdle? { UserRefusedInv(s, TooBig); }
    case StepUser => UserStepInv(s);
    case WriteEvent(_) =>
    case StepSpan => SpanStepInv(s);
  }

  lemma {:induction false} RunInv(s: State, schedule: seq<Action>)
    requires Inv(s)
    ensures Inv(Run(s, schedule))
    decreases |schedule|
  {
    if schedule != [] {
      StepInv(s, schedule[0]);
      RunInv(Step(s, schedule[0]), schedule[1..]);
    }
  }

  // ---- Main results --------------------------------------------------------------

  /** The bytes a slot will put on the wire, read from its memory. */
  ghost function SlotWire(c: Chunk): seq<byte> {
    if c.len == 0 then [ByteAt(c.data, 0)] else if c.len <= |c.data| then c.data[..c.len] else c.data
  }

  /** The memory of the ring from the oldest unreleased slot on. */
  ghost function Stored(slots: seq<Chunk>, lo: nat, hi: nat): seq<byte>
    requires Shape(slots)
    decreases hi
  {
    if hi <= lo then [] else Stored(slots, lo, hi - 1) + SlotWire(slots[Pos(hi - 1)])
  }

  lemma SlotWireHolds(c: Chunk, b: seq<byte>)
    requires Holds(c, b)
    ensures SlotWire(c) == Wire(b)
  {}

  /** The slots from position lo on hold these payloads. */
  ghost predicate HoldAll(slots: seq<Chunk>, lo: nat, payloads: seq<seq<byte>>)
    requires Shape(slots)
  {
    forall k: nat :: k < |payloads| ==> Holds(slots[Pos(lo + k)], payloads[k])
  }

  /** The wire form of the first n payloads. */
  function WireUpTo(payloads: seq<seq<byte>>, n: nat): seq<byte>
    requires n <= |payloads|
  {
    if n == 0 then [] else WireUpTo(payloads, n - 1) + Wire(payloads[n - 1])
  }

  lemma {:induction false} WireUpToIs(payloads: seq<seq<byte>>, n: nat)
    requires n <= |payloads|
    ensures WireUpTo(payloads, n) == WireAll(payloads[..n])
  {
    hide Wire;
    if n > 0 {
      WireUpToIs(payloads, n - 1);
      assert payloads[..n][..n - 1] == payloads[..n - 1];
    }
  }

  lemma StoredSteps(slots: seq<Chunk>, lo: nat, n: nat)
    requires Shape(slots)
    ensures Stored(slots, lo, lo) == []
    ensures n > 0 ==> Stored(slots, lo, lo + n) == Stored(slots, lo, lo + (n - 1)) + SlotWire(slots[Pos(lo + (n - 1))])
  {
    hide SlotWire, Pos;
    if n > 0 {
      assert lo + n - 1 == lo + (n - 1);
    }
  }

  lemma {:induction false} StoredUpTo(slots: seq<Chunk>, lo: nat, payloads: seq<seq<byte>>, n: nat)
    requires Shape(slots) && HoldAll(slots, lo, payloads) && n <= |payloads|
    ensures Stored(slots, lo, lo + n) == WireUpTo(payloads, n)
  {
    hide HoldAll, Stored, SlotWire, Wire, Pos;
    StoredSteps(slots, lo, n);
    if n > 0 {
      StoredUpTo(slots, lo, payloads, n - 1);
      HoldOne(slots, lo, payloads, n - 1);
    }
  }

  lemma HoldOne(slots: seq<Chunk>, lo: nat, payloads: seq<seq<byte>>, k: nat)
    requires Shape(slots) && HoldAll(slots, lo, payloads) && k < |payloads|
    ensures SlotWire(slots[Pos(lo + k)]) == Wire(payloads[k])
  {
    assert Holds(slots[Pos(lo + k)], payloads[k]);
    SlotWireHolds(slots[Pos(lo + k)], payloads[k]);
  }

  lemma StoredIsWire(slots: seq<Chunk>, lo: nat, payloads: seq<seq<byte>>)
    requires Shape(slots) && HoldAll(slots, lo, payloads)
    ensures Stored(slots, lo, lo + |payloads|) == WireAll(payloads)
  {
    hide HoldAll, WireAll;
    StoredUpTo(slots, lo, payloads, |payloads|);
    WireUpToIs(payloads, |payloads|);
    assert payloads[..|payloads|] == payloads;
  }

  lemma SplitAt(accepted: seq<seq<byte>>, k: nat)
    requires k < |accepted|
    ensures accepted == accepted[..k] + accepted[k..]
    ensures accepted[k..] == [accepted[k]] + accepted[k + 1..]
  {}

  lemma WireAllOne(b: seq<byte>)
    ensures WireAll([b]) == Wire(b)
  {
    assert [b][..0] == [];
  }

  lemma WireAllAround(accepted: seq<seq<byte>>, k: nat)
    requires k < |accepted|
    ensures WireAll(accepted[k..]) == Wire(accepted[k]) + WireAll(accepted[k + 1..])
    ensures WireAll(accepted) == WireAll(accepted[..k]) + WireAll(accepted[k..])
  {
    SplitAt(accepted, k);
    WireAllSplit(accepted[..k], accepted[k..]);
    WireAllSplit([accepted[k]], accepted[k + 1..]);
    WireAllOne(accepted[k]);
  }

  lemma DrainedSplit(accepted: seq<seq<byte>>, released: nat, progress: nat)
    requires released < |accepted| && progress <= |Wire(accepted[released])|
    ensures progress <= |WireAll(accepted[released..])|
    ensures Drained(accepted, released, progress) + WireAll(accepted[released..])[progress..] == WireAll(accepted)
  {
    WireAllAround(accepted, released);
    CutHead(WireAll(accepted[..released]), Wire(accepted[released]), WireAll(accepted[released + 1..]), progress);
  }

  lemma CutHead(x: seq<byte>, w: seq<byte>, rest: seq<byte>, k: nat)
    requires k <= |w|
    ensures (x + w[..k]) + (w + rest)[k..] == x + (w + rest)
  {
    assert w + rest == w[..k] + (w + rest)[k..];
    Assoc(x, w[..k], (w + rest)[k..]);
  }

  lemma MemoryCompletes(slots: seq<Chunk>, accepted: seq<seq<byte>>, released: nat, progress: nat)
    requires Shape(slots) && Window(slots, accepted, released)
    requires if released < |accepted| then progress <= |Wire(accepted[released])| else progress == 0
    ensures progress <= |Stored(slots, released, |accepted|)|
    ensures Drained(accepted, released, progress) + Stored(slots, released, |accepted|)[progress..] == WireAll(accepted)
  {
    var queued := accepted[released..];
    forall k: nat | k < |queued| ensures Holds(slots[Pos(released + k)], queued[k]) {
      assert queued[k] == accepted[released + k];
    }
    StoredIsWire(slots, released, queued);
    if released < |accepted| {
      DrainedSplit(accepted, released, progress);
    } else {
      assert accepted[..released] == accepted;
    }
  }

  lemma Conserved(s: State)
    requires Inv(s)
    ensures var progress := Progress(s.slots, s.accepted, s.released, s.d.DBump?);
            && progress <= |Stored(s.slots, s.released, |s.accepted|)|
            && s.emitted + Stored(s.slots, s.released, |s.accepted|)[progress..] == WireAll(s.accepted)
  {
    MemoryCompletes(s.slots, s.accepted, s.released, Progress(s.slots, s.accepted, s.released, s.d.DBump?));
  }

  /** In every interleaving, from opening the channel on: what was emitted, followed by
      what the ring's memory still holds, is the wire form of the pushes that returned 0
      (and of one that is about to), each once and in push order. */
  lemma FifoNoLoss(schedule: seq<Action>)
    ensures var s := Run(Start(), schedule);
            && Inv(s)
            && s.accepted == ReturnedOk(s.log) + (if s.p.PAdvance? || s.p.PWrap? then [s.p.payload] else [])
            && var progress := Progress(s.slots, s.accepted, s.released, s.d.DBump?);
            && progress <= |Stored(s.slots, s.released, |s.accepted|)|
            && s.emitted + Stored(s.slots, s.released, |s.accepted|)[progress..] == WireAll(s.accepted)
  {
    StartInv();
    RunInv(Start(), schedule);
    Conserved(Run(Start(), schedule));
  }

  ghost predicate Writing(p: Pusher) {
    Filling(p) || p.PSetInit?
  }

  lemma UserWritesFree(s: State, i: nat)
    requires Inv(s) && i < SLOTS
    ensures |UserStep(s).slots| == |s.slots| == SLOTS
    ensures UserStep(s).slots[i] != s.slots[i] ==> !s.slots[i].init
  {
    hide Window, SpanAt, Progress, Drained, ReturnedOk, Copied;
  }

  lemma WrittenFree(s: State)
    requires Inv(s) && Writing(s.p)
    ensures s.idxIn < |s.slots| && !s.slots[s.idxIn].init
  {}

  lemma HeadOwned(s: State)
    requires Inv(s) && Draining(s.d)
    ensures s.idxOut < |s.slots| && s.slots[s.idxOut].init && s.slots[s.idxOut].offset < MAX_CHAN_DATA
  {
    assert Holds(s.slots[Pos(s.released)], s.accepted[s.released]);
  }

  lemma SpanTouchesInit(s: State, i: nat)
    requires i < |s.slots|
    requires Draining(s.d) ==> s.idxOut < |s.slots| && s.slots[s.idxOut].init
    ensures |SpanStep(s).slots| == |s.slots|
    ensures SpanStep(s).slots[i] != s.slots[i] ==> s.slots[i].init
  {}

  /** Ownership passes only through init: at any reachable point the user thread writes
      no slot whose init is set, the span thread reads and writes the data of no slot
      whose init is clear, and the two are never in the same slot. */
  lemma OwnershipByInit(schedule: seq<Action>, i: nat)
    requires i < SLOTS
    ensures var s := Run(Start(), schedule);
            && |UserStep(s).slots| == |SpanStep(s).slots| == |s.slots| == SLOTS
            && (UserStep(s).slots[i] != s.slots[i] ==> !s.slots[i].init)
            && (SpanStep(s).slots[i] != s.slots[i] ==> s.slots[i].init)
            && (Writing(s.p) ==> s.idxIn < SLOTS && !s.slots[s.idxIn].init)
            && (Draining(s.d) ==> s.idxOut < SLOTS && s.slots[s.idxOut].init && s.slots[s.idxOut].offset < MAX_CHAN_DATA)
            && (Writing(s.p) && Draining(s.d) ==> s.idxIn != s.idxOut)
  {
    hide Inv, Run, UserStep, SpanStep;
    StartInv();
    RunInv(Start(), schedule);
    var s := Run(Start(), schedule);
    UserWritesFree(s, i);
    if Writing(s.p) { WrittenFree(s); }
    if Draining(s.d) { HeadOwned(s); }
    SpanTouchesInit(s, i);
  }

  lemma QueuedIfEqual(d: Drainer, idxOut: nat, released: nat, n: nat)
    requires OutIndex(d, idxOut, released) && released <= n <= released + SLOTS && idxOut == Pos(n)
    ensures n - released in {0, SLOTS - 1, SLOTS}
  {
    if d.DAdvance? {
      if n < released - 1 + SLOTS { PosInWindow(released - 1, n); }
    } else if !d.DWrap? && n < released + SLOTS {
      PosInWindow(released, n);
    }
  }

  /** A push leaves through the free_slots test exactly when tx_idx_out moved between
      the two reads and the second one equals tx_idx_in. The ring is then full, empty,
      or about to have its index advanced. */
  lemma NoFreeSlotsIff(s: State)
    requires Inv(s) && s.p.PRereadOut?
    ensures UserStep(s).log == s.log + [NoFreeSlots] <==> s.idxIn < s.p.out && s.idxOut == s.idxIn
    ensures UserStep(s).log == s.log + [NoFreeSlots] ==>
              s.p.out != s.idxOut && |s.accepted| - s.released in {0, 15, 16}
  {
    hide Holds, Wire, WireAll, ReturnedOk, Drained, UserOwns, SpanAt, Progress, Pos, OutIndex;
    assert s.idxIn == Pos(|s.accepted|) && s.released <= |s.accepted| <= s.released + SLOTS;
    hide Window, Shape;
    if s.idxOut == s.idxIn {
      QueuedIfEqual(s.d, s.idxOut, s.released, |s.accepted|);
    }
  }

  /** The init test refuses exactly when all 16 slots are taken. */
  lemma SlotBusyIffFull(s: State)
    requires Inv(s) && s.p.PTestSlot?
    ensures UserStep(s).log == s.log + [SlotBusy] <==> |s.accepted| - s.released == 16
  {
    FreeSlot(s.slots, s.accepted, s.released);
  }

  function UserSteps(k: nat): seq<Action> {
    if k == 0 then [] else [StepUser] + UserSteps(k - 1)
  }

  /** Steps the user thread still needs to return. */
  ghost function UserRank(p: Pusher): nat {
    match p
    case PIdle => 0
    case PWrap(_) => 1
    case PAdvance(_) => 2
    case PSetInit(_) => 3
    case PSetLen(_) => 4
    case PCopy(b, k) => 5 + if k <= |b| then |b| - k else 0
    case PZero(b, k) => 6 + |b| + if k <= MAX_CHAN_DATA then MAX_CHAN_DATA - k else 0
    case PClear(b) => 7 + |b| + MAX_CHAN_DATA
    case PTestSlot(b) => 8 + |b| + MAX_CHAN_DATA
    case PRereadOut(b, _) => 9 + |b| + MAX_CHAN_DATA
    case PReadOut(b) => 10 + |b| + MAX_CHAN_DATA
  }

  ghost predicate Committed(p: Pusher) {
    Writing(p) || p.PAdvance? || p.PWrap?
  }

  ghost predicate InLoop(p: Pusher) {
    (p.PZero? ==> p.k <= MAX_CHAN_DATA) && (p.PCopy? ==> p.k <= |p.payload|)
  }

  lemma OwnerInLoop(c: Chunk, p: Pusher)
    requires UserOwns(c, p)
    ensures InLoop(p)
  {}

  lemma CommittedStep(s: State)
    requires Committed(s.p) && InLoop(s.p)
    ensures var t := UserStep(s);
            && t.d == s.d && t.released == s.released && t.emitted == s.emitted && t.idxOut == s.idxOut
            && UserRank(t.p) == UserRank(s.p) - 1
            && (if s.p.PWrap? then t.p == PIdle && t.log == s.log + [Accepted(s.p.payload)]
                else Committed(t.p) && t.p.payload == s.p.payload && t.log == s.log)
            && t.accepted == s.accepted + (if s.p.PSetInit? then [s.p.payload] else [])
            && (Writing(t.p) <==> Writing(s.p) && !s.p.PSetInit?)
  {}

  lemma RunUser(s: State, k: nat)
    requires k > 0
    ensures Run(s, UserSteps(k)) == Run(UserStep(s), UserSteps(k - 1))
  {
    assert UserSteps(k)[1..] == UserSteps(k - 1);
  }

  lemma {:induction false} FinishWriting(s: State)
    requires Inv(s) && Committed(s.p)
    ensures var t := Run(s, UserSteps(UserRank(s.p)));
            && t.p == PIdle && t.log == s.log + [Accepted(s.p.payload)]
            && t.d == s.d && t.released == s.released && t.emitted == s.emitted && t.idxOut == s.idxOut
            && t.accepted == s.accepted + if Writing(s.p) then [s.p.payload] else []
    decreases UserRank(s.p)
  {
    UserStepInv(s);
    OwnerInLoop(s.slots[Pos(|s.accepted|)], s.p);
    CommittedStep(s);
    RunUser(s, UserRank(s.p));
    if !s.p.PWrap? {
      FinishWriting(UserStep(s));
    }
  }

  /** The three reads of a push, with the span thread standing still. */
  lemma ReadsAlone(s: State, b: seq<byte>)
    requires Inv(s) && s.p == PIdle && |b| < MAX_CHAN_DATA
    ensures var t := UserStep(UserStep(s.(p := PReadOut(b))));
            Inv(t) && t == s.(p := PTestSlot(b))
  {
    StepInv(s, Push(b));
    UserStepInv(s.(p := PReadOut(b)));
    UserStepInv(s.(p := PRereadOut(b, s.idxOut)));
  }

  /** The test of the slot, likewise. */
  lemma TestAlone(s: State)
    requires Inv(s) && s.p.PTestSlot?
    ensures Inv(UserStep(s))
    ensures UserStep(s) == if |s.accepted| - s.released < SLOTS then s.(p := PClear(s.p.payload))
                           else s.(p := PIdle, log := s.log + [SlotBusy])
  {
    UserStepInv(s);
    hide SpanAt, Progress, Drained, ReturnedOk, UserOwns;
    FreeSlot(s.slots, s.accepted, s.released);
  }

  /** A payload that does not leave room for 1024 bytes is refused at once. */
  lemma TooBigAtOnce(s: State, b: seq<byte>)
    requires s.p == PIdle
    ensures Step(s, Push(b)) == if |b| >= 1024 then s.(log := s.log + [TooBig]) else s.(p := PReadOut(b))
  {}

  /** A push that runs while the span thread stands still, wherever it stands, always
      returns, and it is refused exactly when 16 chunks are queued. */
  lemma PushAlone(s: State, b: seq<byte>) returns (k: nat)
    requires Inv(s) && s.p == PIdle && |b| < MAX_CHAN_DATA
    ensures var t := Run(s, [Push(b)] + UserSteps(k));
            && Inv(t) && t.p == PIdle
            && t.d == s.d && t.released == s.released && t.emitted == s.emitted && t.idxOut == s.idxOut
            && if |s.accepted| - s.released < 16
               then t.log == s.log + [Accepted(b)] && t.accepted == s.accepted + [b]
               else t.log == s.log + [SlotBusy] && t.accepted == s.accepted
  {
    var s1, s3 := s.(p := PReadOut(b)), s.(p := PTestSlot(b));
    assert Step(s, Push(b)) == s1;
    hide Inv, Step, UserStep, UserRank;
    ReadsAlone(s, b);
    TestAlone(s3);
    var s4 := UserStep(s3);
    if s4.p == PIdle {
      k := 3;
    } else {
      FinishWriting(s4);
      k := 3 + UserRank(s4.p);
    }
    RunInv(s, [Push(b)] + UserSteps(k));
    RunUser(s1, k);
    RunUser(UserStep(s1), k - 1);
    RunUser(s3, k - 2);
    assert ([Push(b)] + UserSteps(k))[1..] == UserSteps(k);
  }

  // ---- A write event that runs alone ---------------------------------------------

  function SpanSteps(k: nat): seq<Action> {
    if k == 0 then [] else [StepSpan] + SpanSteps(k - 1)
  }

  lemma RunSpan(s: State, k: nat)
    requires k > 0
    ensures Run(s, SpanSteps(k)) == Run(SpanStep(s), SpanSteps(k - 1))
  {
    assert SpanSteps(k)[1..] == SpanSteps(k - 1);
  }

  /** In the loop over the cells of one channel. */
  ghost predicate InEvent(d: Drainer) {
    !d.DIdle? && !d.DTest? && d.x < d.n
  }

  /** Bytes this write event has emitted. */
  ghost function Emitting(d: Drainer): nat
    requires InEvent(d)
  {
    if d.DFetch? then d.x else d.x + 1
  }

  /** Steps the span thread needs at most. */
  ghost function SpanRank(d: Drainer): nat
    requires InEvent(d)
  {
    7 * (d.n - d.x) - match d {
      case DFetch(_, _) => 0
      case DBump(_, _) => 1
      case DCompare(_, _) => 2
      case DRelease(_, _) => 3
      case DAdvance(_, _) => 4
      case DWrap(_, _) => 5
      case _ => 6
    }
  }

  /** What the ring's memory still has to put on the wire. */
  ghost function Remaining(s: State): seq<byte>
    requires Inv(s)
  {
    Conserved(s);
    Stored(s.slots, s.released, |s.accepted|)[Progress(s.slots, s.accepted, s.released, s.d.DBump?)..]
  }

  lemma NothingRemains(s: State)
    requires Inv(s) && s.released == |s.accepted|
    ensures Remaining(s) == []
  {
    hide Inv, Window, SpanAt;
    Conserved(s);
  }

  ghost predicate SameUser(s: State, t: State) {
    t.p == s.p && t.log == s.log && t.accepted == s.accepted && t.idxIn == s.idxIn
  }

  /** Each step emits a byte exactly if it is a fetch, and the loop is left when it has run
      for n cells or nothing is queued. */
  lemma SpanStepCounts(s: State)
    requires Inv(s) && InEvent(s.d)
    ensures var t := SpanStep(s);
            && SameUser(s, t)
            && if t.d == DIdle then
                 |t.emitted| == |s.emitted| && (Emitting(s.d) == s.d.n || t.released == |t.accepted|)
               else
                 && InEvent(t.d) && t.d.n == s.d.n && SpanRank(t.d) < SpanRank(s.d)
                 && |t.emitted| - |s.emitted| == Emitting(t.d) - Emitting(s.d)
  {
    if s.d.DNext? {
      NextIsHead(s);
    }
    assert s.released <= |s.accepted|;
    hide Inv, UserOwns, ReturnedOk, Drained, Wire, Holds, SpanAt, Window;
  }

  lemma NextIsHead(s: State)
    requires Inv(s) && (s.d.DNext? || s.d.DTest?)
    ensures s.idxOut < |s.slots| && (s.slots[s.idxOut].init <==> s.released < |s.accepted|)
  {
    FreeSlot(s.slots, s.accepted, s.released);
    if s.released < |s.accepted| {
      assert Holds(s.slots[Pos(s.released)], s.accepted[s.released]);
    }
  }

  /** From inside the loop to its end. */
  lemma {:induction false} FinishEvent(s: State) returns (k: nat)
    requires Inv(s) && InEvent(s.d)
    ensures k <= SpanRank(s.d)
    ensures var t := Run(s, SpanSteps(k));
            && Inv(t) && t.d == DIdle && SameUser(s, t)
            && |t.emitted| <= |s.emitted| + (s.d.n - Emitting(s.d))
            && (|t.emitted| == |s.emitted| + (s.d.n - Emitting(s.d)) || t.released == |t.accepted|)
    decreases SpanRank(s.d)
  {
    hide Inv, SpanStep;
    SpanStepInv(s);
    SpanStepCounts(s);
    var t := SpanStep(s);
    if t.d == DIdle {
      k := 1;
    } else {
      var rest := FinishEvent(t);
      k := rest + 1;
    }
    RunSpan(s, k);
  }

  /** Two states that have accepted the same have emitted prefixes of the same wire form. */
  lemma SameWire(s: State, t: State, n: nat)
    requires Inv(s) && Inv(t) && t.accepted == s.accepted && |t.emitted| >= |s.emitted|
    requires |t.emitted| <= |s.emitted| + n
    requires |t.emitted| == |s.emitted| + n || t.released == |t.accepted|
    ensures var k := if n < |Remaining(s)| then n else |Remaining(s)|;
            t.emitted == s.emitted + Remaining(s)[..k] && Remaining(t) == Remaining(s)[k..]
  {
    Conserved(s);
    Conserved(t);
    if t.released == |t.accepted| {
      NothingRemains(t);
    }
    SplitsAgree(s.emitted, Remaining(s), t.emitted, Remaining(t));
  }

  lemma SplitsAgree(a: seq<byte>, b: seq<byte>, c: seq<byte>, d: seq<byte>)
    requires a + b == c + d && |c| >= |a|
    ensures var k := |c| - |a|; k <= |b| && c == a + b[..k] && d == b[k..]
  {
    var k := |c| - |a|;
    assert (a + b)[..|c|] == c && (a + b)[|c|..] == d;
    assert (a + b)[..|c|] == a + b[..k];
    assert (a + b)[|c|..] == b[k..];
  }

  lemma FetchCounts(s: State)
    requires s.d.DFetch? && s.d.x == 0 < s.d.n
    ensures InEvent(s.d) && Emitting(s.d) == 0 && SpanRank(s.d) == 7 * s.d.n
  {}

  /** The test before the loop. */
  lemma StartEvent(s: State, n: nat)
    requires Inv(s) && s.d == DIdle
    ensures var t := SpanStep(s.(d := DTest(n)));
            && Inv(t) && SameUser(s, t) && t.emitted == s.emitted
            && if t.d == DIdle then n == 0 || t.released == |t.accepted| else t.d == DFetch(0, n) && n > 0
  {
    hide UserOwns, ReturnedOk, Drained, Wire, Holds, SpanAt;
    StepInv(s, WriteEvent(n));
    SpanStepInv(s.(d := DTest(n)));
    NextIsHead(s.(d := DTest(n)));
  }

  lemma {:induction false} EmittedGrows(s: State, schedule: seq<Action>)
    ensures |Run(s, schedule).emitted| >= |s.emitted|
    decreases |schedule|
  {
    if schedule != [] {
      EmittedGrows(Step(s, schedule[0]), schedule[1..]);
    }
  }

  /** A write event that runs while the user thread stands still, wherever it stands, always
      ends, and emits exactly the first min(n, queued) bytes. */
  lemma EventAlone(s: State, n: nat) returns (k: nat)
    requires Inv(s) && s.d == DIdle
    ensures k <= 7 * n + 1
    ensures var t := Run(s, [WriteEvent(n)] + SpanSteps(k));
            && Inv(t) && t.d == DIdle && SameUser(s, t)
            && var cells := if n < |Remaining(s)| then n else |Remaining(s)|;
            t.emitted == s.emitted + Remaining(s)[..cells] && Remaining(t) == Remaining(s)[cells..]
  {
    hide Inv, SpanStep, Remaining, Emitting, SpanRank;
    var s1 := s.(d := DTest(n));
    StartEvent(s, n);
    var s2 := SpanStep(s1);
    if s2.d == DIdle {
      k := 1;
      assert Run(s2, SpanSteps(0)) == s2;
    } else {
      FetchCounts(s2);
      var rest := FinishEvent(s2);
      k := rest + 1;
    }
    RunSpan(s1, k);
    assert ([WriteEvent(n)] + SpanSteps(k))[1..] == SpanSteps(k);
    assert Run(s, [WriteEvent(n)] + SpanSteps(k)) == Run(s1, SpanSteps(k));
    RunInv(s2, SpanSteps(k - 1));
    EmittedGrows(s2, SpanSteps(k - 1));
    SameWire(s, Run(s2, SpanSteps(k - 1)), n);
  }

  // ---- A refusal with an empty ring ----------------------------------------------

  lemma {:induction false} RunAppend(s: State, a: seq<Action>, b: seq<Action>)
    ensures Run(s, a + b) == Run(Run(s, a), b)
    decreases |a|
  {
    if a == [] {
      assert a + b == b;
    } else {
      assert (a + b)[1..] == a[1..] + b;
      RunAppend(Step(s, a[0]), a[1..], b);
    }
  }

  ghost predicate OneByteQueued(s: State) {
    && Inv(s) && s.p == PIdle && s.d == DIdle
    && |s.accepted| == s.released + 1 && |s.accepted[s.released]| == 1
  }

  /** The state in which the span thread has drained that byte and is about to wrap. */
  ghost function DrainedOne(s: State): State
    requires OneByteQueued(s)
  {
    var c := s.slots[s.idxOut];
    s.(slots := s.slots[s.idxOut := c.(offset := 1, init := false)], idxOut := s.idxOut + 1, d := DWrap(0, 1),
       released := s.released + 1, emitted := s.emitted + [ByteAt(c.data, 0)])
  }

  lemma DrainFetch(s: State)
    requires OneByteQueued(s)
    ensures s.idxOut < SLOTS && s.slots[s.idxOut].len == 1
    ensures var c := s.slots[s.idxOut];
            SpanStep(SpanStep(SpanStep(s.(d := DTest(1)))))
            == s.(slots := s.slots[s.idxOut := c.(offset := 1)], d := DCompare(0, 1),
                  emitted := s.emitted + [ByteAt(c.data, 0)])
  {
    var c := s.slots[s.idxOut];
    assert Holds(c, s.accepted[s.released]) && c.offset == 0;
  }

  lemma DrainFinish(s: State)
    requires s.idxOut < |s.slots| && s.d == DCompare(0, 1)
    requires s.slots[s.idxOut].offset >= s.slots[s.idxOut].len
    ensures SpanStep(SpanStep(SpanStep(s)))
            == s.(slots := s.slots[s.idxOut := s.slots[s.idxOut].(init := false)], idxOut := s.idxOut + 1,
                  d := DWrap(0, 1), released := s.released + 1)
  {}

  lemma DrainOne(s: State)
    requires OneByteQueued(s)
    ensures Run(s, [WriteEvent(1)] + SpanSteps(6)) == DrainedOne(s)
  {
    DrainFetch(s);
    var s1 := s.(d := DTest(1));
    assert ([WriteEvent(1)] + SpanSteps(6))[1..] == SpanSteps(6);
    RunSpan(s1, 6);
    RunSpan(SpanStep(s1), 5);
    var s4 := SpanStep(SpanStep(SpanStep(s1)));
    RunSpan(SpanStep(SpanStep(s1)), 4);
    DrainFinish(s4);
    RunSpan(s4, 3);
    RunSpan(SpanStep(s4), 2);
    RunSpan(SpanStep(SpanStep(s4)), 1);
    var c := s.slots[s.idxOut];
    assert s.slots[s.idxOut := c.(offset := 1)][s.idxOut := c.(offset := 1, init := false)]
        == s.slots[s.idxOut := c.(offset := 1, init := false)];
  }

  ghost predicate Quiet(s: State, n: nat) {
    Inv(s) && s.p == PIdle && s.d == DIdle && |s.accepted| == s.released == n
  }

  /** Push and drain a one-byte chunk, stopping the span thread before it wraps. */
  lemma PushAndDrain(s: State, n: nat) returns (schedule: seq<Action>)
    requires Quiet(s, n)
    ensures var t := Run(s, schedule);
            Inv(t) && t.p == PIdle && t.d == DWrap(0, 1) && |t.accepted| == t.released == n + 1
  {
    var k := PushAlone(s, [7]);
    var push := [Push([7])] + UserSteps(k);
    var t := Run(s, push);
    DrainOne(t);
    var drain := [WriteEvent(1)] + SpanSteps(6);
    RunInv(t, drain);
    RunAppend(s, push, drain);
    schedule := push + drain;
  }

  lemma WrapSteps(s: State)
    requires s.d == DWrap(0, 1)
    ensures Run(s, SpanSteps(2)) == s.(d := DIdle, idxOut := if s.idxOut >= SLOTS then 0 else s.idxOut)
  {
    RunSpan(s, 2);
    RunSpan(SpanStep(s), 1);
  }

  lemma WrapAndStop(s: State)
    requires Inv(s) && s.d == DWrap(0, 1)
    ensures var t := Run(s, SpanSteps(2));
            Inv(t) && t == s.(d := DIdle, idxOut := if s.idxOut >= SLOTS then 0 else s.idxOut)
  {
    RunInv(s, SpanSteps(2));
    WrapSteps(s);
  }

  lemma {:induction false} Rounds(n: nat) returns (schedule: seq<Action>)
    ensures Quiet(Run(Start(), schedule), n)
  {
    if n == 0 {
      StartInv();
      schedule := [];
    } else {
      var before := Rounds(n - 1);
      var s := Run(Start(), before);
      var round := PushAndDrain(s, n - 1);
      WrapAndStop(Run(s, round));
      RunAppend(s, round, SpanSteps(2));
      RunAppend(Start(), before, round + SpanSteps(2));
      schedule := before + (round + SpanSteps(2));
    }
  }

  lemma RaceOnWrap(s: State)
    requires Inv(s) && s.p == PIdle && s.d == DWrap(0, 1) && s.idxOut == SLOTS && s.idxIn == 0
    ensures Run(s, [Push([8]), StepUser, StepSpan, StepUser]) == s.(idxOut := 0, d := DNext(0, 1), log := s.log + [NoFreeSlots])
  {
    var race := [Push([8]), StepUser, StepSpan, StepUser];
    assert race[1..] == [StepUser, StepSpan, StepUser];
    assert race[1..][1..] == [StepSpan, StepUser];
    assert race[1..][1..][1..] == [StepUser];
  }

  /** Reading tx_idx_out twice lets a push return 1 although nothing is queued: the first
      read sees 16 just before the span thread wraps the index, the second sees 0. */
  lemma RefusedThoughEmpty() returns (schedule: seq<Action>)
    ensures var s := Run(Start(), schedule);
            && |s.accepted| == s.released && s.p == PIdle
            && |s.log| > 0 && s.log[|s.log| - 1] == NoFreeSlots
  {
    var before := Rounds(15);
    var s := Run(Start(), before);
    var round := PushAndDrain(s, 15);
    var race := [Push([8]), StepUser, StepSpan, StepUser];
    RaceOnWrap(Run(s, round));
    RunAppend(s, round, race);
    RunAppend(Start(), before, round + race);
    schedule := before + (round + race);
  }
}

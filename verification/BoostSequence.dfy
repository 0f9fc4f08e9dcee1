/** Sequence numbers of the boost signalling link between a production endpoint and a unit
    tester endpoint. The two builds count differently: production numbers events from 0 and
    counts before it compares, the tester numbers from 1 and compares before it counts. */
module BoostSequence {
  import opened Words
  import opened Wrappers

  datatype Role = Production | UnitTester

  /** txseq, rxseq and txwindow, all unsigned int. */
  datatype Endpoint = Endpoint(role: Role, txseq: nat, rxseq: nat, txwindow: nat)

  /** An event on the link; ack says that it is SYSTEM_RESTART_ACK. */
  datatype Event = Event(ack: bool, fseqno: nat, bseqno: nat)

  // ---- The two operations --------------------------------------------------------

  /** call_signal_connection_write: the endpoint after it, what it returned and what went
      out. inRange stands for the span and channel check, inReset for the reset flag of
      the server, and delivered for sendto having taken the whole event. */
  function WriteStep(e: Endpoint, ack: bool, inRange: bool, inReset: bool, delivered: bool): (Endpoint, int, Option<Event>) {
    if !inRange then (e, -1, None)
    else if inReset && !ack then (e, 0, None)
    else
      var txseq := if ack then 0 else U32(e.txseq + 1);
      var rxseq := if ack then 0 else e.rxseq;
      var fseqno := if ack then 0 else if e.role == UnitTester then txseq else e.txseq;
      if delivered
      then (e.(txseq := txseq, rxseq := rxseq), 0, Some(Event(ack, fseqno, rxseq)))
      else (e.(txseq := U32(txseq - 1), rxseq := rxseq), -1, None)
  }

  /** call_signal_connection_read of an event of valid length: the endpoint after it and
      whether a sequence error was reported. */
  function ReadStep(e: Endpoint, ev: Event): (Endpoint, bool) {
    var expected := if e.role == Production then U32(e.rxseq + 1) else e.rxseq;
    var rxseq :=
      if e.role == Production then ev.fseqno
      else if ev.ack then 0 else U32(ev.fseqno + 1);
    (e.(txwindow := U32(e.txseq - ev.bseqno), rxseq := rxseq), expected != ev.fseqno)
  }

  /** What a write answers, what goes out, and when nothing changes: an event is refused with
      -1 out of range and passed over with 0 in a reset unless it acknowledges a restart; it is
      attempted otherwise, and the answer says whether it got through. */
  lemma WriteAnswers(e: Endpoint, ack: bool, inRange: bool, inReset: bool, delivered: bool)
    ensures var (e', r, event) := WriteStep(e, ack, inRange, inReset, delivered);
            && (r == -1 <==> !inRange || (!(inReset && !ack) && !delivered))
            && (r == 0 || r == -1)
            && (event.Some? <==> inRange && (ack || !inReset) && delivered)
            && (event.Some? ==> event.value.ack == ack && event.value.bseqno == if ack then 0 else e.rxseq)
            && (!inRange || (inReset && !ack) ==> e' == e)
            && e'.role == e.role && e'.txwindow == e.txwindow
            && e'.rxseq == (if inRange && ack then 0 else e.rxseq)
  {}

  /** The numbers: a production endpoint sends the count of events before this one, a tester
      the count with this one, and both then count it. */
  lemma WriteNumbers(e: Endpoint)
    ensures var (e', _, event) := WriteStep(e, false, true, false, true);
            && event.Some?
            && (e.role == Production ==> event.value.fseqno == e.txseq && e'.txseq == U32(e.txseq + 1))
            && (e.role == UnitTester ==> event.value.fseqno == e'.txseq == U32(e.txseq + 1))
  {}

  class Connection {
    const role: Role
    var txseq: nat
    var rxseq: nat
    var txwindow: nat

    ghost predicate Valid()
      reads this
    {
      txseq < 0x1_0000_0000 && rxseq < 0x1_0000_0000
    }

    ghost function State(): Endpoint
      reads this
    {
      Endpoint(role, txseq, rxseq, txwindow)
    }

    constructor (role: Role)
      ensures Valid() && State() == Endpoint(role, 0, 0, 0)
    {
      this.role, txseq, rxseq, txwindow := role, 0, 0, 0;
    }

    /** The body of the write under its lock. */
    method Write(ack: bool, inRange: bool, inReset: bool, delivered: bool) returns (r: int, event: Option<Event>)
      requires Valid()
      modifies this
      ensures Valid() && (State(), r, event) == WriteStep(old(State()), ack, inRange, inReset, delivered)
      ensures r == if !inRange || (!(inReset && !ack) && !delivered) then -1 else 0
      ensures event.Some? <==> inRange && (ack || !inReset) && delivered
    {
      if !inRange {
        return -1, None;
      }
      if inReset && !ack {
        return 0, None;
      }
      var fseqno;
      if ack {
        txseq := 0;
        rxseq := 0;
        fseqno := 0;
      } else if role == UnitTester {
        txseq := U32(txseq + 1);
        fseqno := txseq;
      } else {
        fseqno := txseq;
        txseq := U32(txseq + 1);
      }
      event := Some(Event(ack, fseqno, rxseq));
      r := 0;
      if !delivered {
        txseq := U32(txseq - 1);
        event := None;
        r := -1;
      }
    }

    method Read(ev: Event) returns (mismatch: bool)
      requires Valid() && ev.fseqno < 0x1_0000_0000
      modifies this
      ensures Valid() && (State(), mismatch) == ReadStep(old(State()), ev)
    {
      txwindow := U32(txseq - ev.bseqno);
      if role == Production {
        rxseq := U32(rxseq + 1);
      }
      mismatch := false;
      if rxseq != ev.fseqno {
        mismatch := true;
        rxseq := ev.fseqno;
      }
      if role == UnitTester {
        if ev.ack {
          rxseq := 0;
        } else {
          rxseq := U32(rxseq + 1);
        }
      }
    }
  }

  // ---- Two endpoints and two links -----------------------------------------------

  /** An event in flight: its place among the events its sender got through, and how far
      the sender had got in the other direction when it wrote it. */
  datatype Msg = Msg(event: Event, index: nat, seen: nat)

  /** One direction. history: the fseqnos of the successful sends, the indices delivered,
      and the number of sequence errors reported by the reader. */
  datatype Link = Link(queue: seq<Msg>, numbers: seq<nat>, delivered: seq<nat>, errors: nat)

  datatype System = System(p: Endpoint, t: Endpoint, pt: Link, tp: Link)

  datatype Side = AtProduction | AtTester

  /** Send and SendFails are writes of ordinary events; Lose drops the k-th event in flight
      towards the named side; Priority is a priority event, which carries no number. */
  datatype Action =
    | Send(side: Side)
    | SendFails(side: Side)
    | Receive(side: Side)
    | Lose(side: Side, k: nat)
    | Priority(side: Side)

  /** One past the last event delivered: how far the reader has got. */
  function Reached(l: Link): nat {
    if l.delivered == [] then 0 else l.delivered[|l.delivered| - 1] + 1
  }

  function Sending(x: Endpoint, out: Link, back: Link, ok: bool): (Endpoint, Link) {
    var (x', _, event) := WriteStep(x, false, true, false, ok);
    match event
    case None => (x', out)
    case Some(ev) =>
      (x', out.(queue := out.queue + [Msg(ev, |out.numbers|, Reached(back))], numbers := out.numbers + [ev.fseqno]))
  }

  function Receiving(y: Endpoint, link: Link): (Endpoint, Link) {
    if link.queue == [] then (y, link)
    else
      var m := link.queue[0];
      var (y', error) := ReadStep(y, m.event);
      (y', link.(queue := link.queue[1..], delivered := link.delivered + [m.index],
                 errors := link.errors + if error then 1 else 0))
  }

  function Losing(link: Link, k: nat): Link {
    if k < |link.queue| then link.(queue := link.queue[..k] + link.queue[k + 1..]) else link
  }

  function Start(): System {
    var empty := Link([], [], [], 0);
    System(Endpoint(Production, 0, 0, 0), Endpoint(UnitTester, 0, 0, 0), empty, empty)
  }

  function Step(s: System, a: Action): System {
    match a
    case Send(AtProduction) => var (p, pt) := Sending(s.p, s.pt, s.tp, true); s.(p := p, pt := pt)
    case Send(AtTester) => var (t, tp) := Sending(s.t, s.tp, s.pt, true); s.(t := t, tp := tp)
    case SendFails(AtProduction) => var (p, pt) := Sending(s.p, s.pt, s.tp, false); s.(p := p, pt := pt)
    case SendFails(AtTester) => var (t, tp) := Sending(s.t, s.tp, s.pt, false); s.(t := t, tp := tp)
    case Receive(AtProduction) => var (p, tp) := Receiving(s.p, s.tp); s.(p := p, tp := tp)
    case Receive(AtTester) => var (t, pt) := Receiving(s.t, s.pt); s.(t := t, pt := pt)
    case Lose(AtProduction, k) => s.(tp := Losing(s.tp, k))
    case Lose(AtTester, k) => s.(pt := Losing(s.pt, k))
    case Priority(_) => s
  }

  function Run(s: System, actions: seq<Action>): System
    decreases |actions|
  {
    if actions == [] then s else Step(Run(s, actions[..|actions| - 1]), actions[|actions| - 1])
  }

  // ---- What every run keeps ------------------------------------------------------

  /** The number of the first event: 0 from production, 1 from the tester. */
  function First(r: Role): nat {
    if r == Production then 0 else 1
  }

  /** Deliveries that follow a gap which is not a multiple of 2^32. */
  function Gaps(delivered: seq<nat>): nat {
    if delivered == [] then 0
    else
      var before := delivered[..|delivered| - 1];
      var expected: int := if before == [] then 0 else before[|before| - 1] + 1;
      Gaps(before) + if U32(delivered[|delivered| - 1] - expected) != 0 then 1 else 0
  }

  ghost predicate InFlight(x: Role, link: Link, back: Link, i: nat)
    requires i < |link.queue|
  {
    var m := link.queue[i];
    && Reached(link) <= m.index < |link.numbers|
    && m.event == Event(false, U32(First(x) + m.index), U32(m.seen))
    && m.seen <= Reached(back)
  }

  /** The direction from x to y, with back the other direction. */
  ghost predicate LinkOk(x: Endpoint, y: Endpoint, link: Link, back: Link) {
    && x.role != y.role
    && x.txseq == U32(|link.numbers|)
    && y.rxseq == U32(Reached(link))
    && Reached(link) <= |link.numbers|
    && (forall i: nat :: i < |link.numbers| ==> link.numbers[i] == U32(First(x.role) + i))
    && (forall i: nat :: i < |link.queue| ==> InFlight(x.role, link, back, i))
    && (forall i, j :: 0 <= i < j < |link.queue| ==> link.queue[i].index < link.queue[j].index)
    && link.errors == Gaps(link.delivered)
  }

  ghost predicate Inv(s: System) {
    s.p.role == Production && LinkOk(s.p, s.t, s.pt, s.tp) && LinkOk(s.t, s.p, s.tp, s.pt)
  }

  /** Counting a send, and giving the number back when it fails. */
  lemma CountSend(n: nat)
    ensures U32(U32(n) + 1) == U32(n + 1)
    ensures U32(U32(U32(n) + 1) - 1) == U32(n)
  {
    U32Add(n, 1);
    U32Add(n + 1, -1);
  }

  lemma SendingKeeps(x: Endpoint, y: Endpoint, out: Link, back: Link, ok: bool)
    requires LinkOk(x, y, out, back) && LinkOk(y, x, back, out)
    ensures var (x', out') := Sending(x, out, back, ok);
            LinkOk(x', y, out', back) && LinkOk(y, x', back, out')
  {
    hide U32;
    CountSend(|out.numbers|);
    var (x', out') := Sending(x, out, back, ok);
    forall i: nat | i < |out.queue| ensures out.queue[i].index < |out.numbers| && InFlight(x.role, out', back, i) {
      assert InFlight(x.role, out, back, i);
    }
    if ok {
      assert InFlight(x.role, out', back, |out.queue|);
    }
    forall i: nat | i < |back.queue| ensures InFlight(y.role, back, out', i) {
      assert InFlight(y.role, back, out, i);
    }
  }

  lemma GapsSnoc(link: Link, index: nat)
    ensures Gaps(link.delivered + [index]) == Gaps(link.delivered) + if U32(index as int - Reached(link)) != 0 then 1 else 0
  {
    hide U32;
    assert (link.delivered + [index])[..|link.delivered|] == link.delivered;
  }

  /** A read reports an error exactly when events were lost just before the one it reads
      (and not a multiple of 2^32 of them), and is in step again afterwards. */
  lemma ReadReportsGap(x: Endpoint, y: Endpoint, link: Link, back: Link)
    requires LinkOk(x, y, link, back) && LinkOk(y, x, back, link) && link.queue != []
    ensures var m := link.queue[0];
            var (y', error) := ReadStep(y, m.event);
            && (error <==> U32(m.index as int - Reached(link)) != 0)
            && y'.rxseq == U32(m.index + 1)
            && y'.txwindow == U32(|back.numbers| as int - m.seen) && m.seen <= |back.numbers|
  {
    var m := link.queue[0];
    assert InFlight(x.role, link, back, 0);
    CountReadEvent(y.role, Reached(link), m.index);
    U32Window(|back.numbers|, m.seen);
  }

  lemma U32Window(a: int, b: int)
    ensures U32(U32(a) - U32(b)) == U32(a - b)
  {
    var u: int := U32(b);
    U32Add(a, -u);
    var k := b / 0x1_0000_0000;
    assert a - u == a - b + k * 0x1_0000_0000;
    assert (a - b + k * 0x1_0000_0000) % 0x1_0000_0000 == (a - b) % 0x1_0000_0000;
  }

  /** The reader's arithmetic: it compares what it reached with the index it is given. */
  lemma CountReadEvent(reader: Role, reached: nat, index: nat)
    ensures reader == Production ==>
              && (U32(U32(reached) + 1) != U32(1 + index) <==> U32(index as int - reached) != 0)
    ensures reader == UnitTester ==>
              && (U32(reached) != U32(index) <==> U32(index as int - reached) != 0)
              && U32(U32(index) + 1) == U32(index + 1)
  {
    U32Add(reached, 1);
    U32Add(index, 1);
    U32Equal(index, reached);
    U32Equal(index + 1, reached + 1);
  }

  lemma ReadKeepsRest(y: Endpoint, ev: Event)
    ensures var (y', _) := ReadStep(y, ev); y'.role == y.role && y'.txseq == y.txseq
  {}

  lemma ReceivingKeeps(x: Endpoint, y: Endpoint, link: Link, back: Link)
    requires LinkOk(x, y, link, back) && LinkOk(y, x, back, link)
    ensures var (y', link') := Receiving(y, link);
            LinkOk(x, y', link', back) && LinkOk(y', x, back, link')
  {
    if link.queue != [] {
      ReadReportsGap(x, y, link, back);
      ReadKeepsRest(y, link.queue[0].event);
      hide U32, Gaps, ReadStep, First;
      var (y', link') := Receiving(y, link);
      GapsSnoc(link, link.queue[0].index);
      assert InFlight(x.role, link, back, 0);
      forall i: nat | i < |link'.queue| ensures InFlight(x.role, link', back, i) {
        assert InFlight(x.role, link, back, i + 1);
      }
      forall i: nat | i < |back.queue| ensures InFlight(y.role, back, link', i) {
        assert InFlight(y.role, back, link, i);
      }
    }
  }

  lemma LosingKeeps(x: Endpoint, y: Endpoint, link: Link, back: Link, k: nat)
    requires LinkOk(x, y, link, back) && LinkOk(y, x, back, link)
    ensures LinkOk(x, y, Losing(link, k), back) && LinkOk(y, x, back, Losing(link, k))
  {
    var link' := Losing(link, k);
    forall i: nat | i < |link'.queue| ensures InFlight(x.role, link', back, i) {
      assert InFlight(x.role, link, back, if k < |link.queue| && i >= k then i + 1 else i);
    }
    forall i: nat | i < |back.queue| ensures InFlight(y.role, back, link', i) {
      assert InFlight(y.role, back, link, i);
    }
  }

  lemma StepKeeps(s: System, a: Action)
    requires Inv(s)
    ensures Inv(Step(s, a))
  {
    hide LinkOk;
    SendingKeeps(s.p, s.t, s.pt, s.tp, a.Send?);
    SendingKeeps(s.t, s.p, s.tp, s.pt, a.Send?);
    ReceivingKeeps(s.p, s.t, s.pt, s.tp);
    ReceivingKeeps(s.t, s.p, s.tp, s.pt);
    if a.Lose? {
      LosingKeeps(s.p, s.t, s.pt, s.tp, a.k);
      LosingKeeps(s.t, s.p, s.tp, s.pt, a.k);
    }
  }

  lemma {:induction false} RunKeeps(actions: seq<Action>)
    ensures Inv(Run(Start(), actions))
    decreases |actions|
  {
    if actions != [] {
      RunKeeps(actions[..|actions| - 1]);
      StepKeeps(Run(Start(), actions[..|actions| - 1]), actions[|actions| - 1]);
    }
  }

  /** With any failed sends, losses and priority events in between: successful sends carry
      consecutive numbers, and the reader reports one error per gap, no more and no less. */
  lemma OneErrorPerGap(actions: seq<Action>, i: nat)
    ensures var s := Run(Start(), actions);
            && (i < |s.pt.numbers| ==> s.pt.numbers[i] == U32(i))
            && (i < |s.tp.numbers| ==> s.tp.numbers[i] == U32(i + 1))
            && s.pt.errors == Gaps(s.pt.delivered) && s.tp.errors == Gaps(s.tp.delivered)
  {
    hide Run, U32, Gaps, InFlight, Reached;
    RunKeeps(actions);
  }

  // ---- Lossless links ------------------------------------------------------------

  /** Everything sent was delivered or is still in flight, in order. */
  ghost predicate Lossless(l: Link) {
    && (forall i: nat :: i < |l.delivered| ==> l.delivered[i] == i)
    && |l.numbers| == |l.delivered| + |l.queue|
    && (forall i: nat :: i < |l.queue| ==> l.queue[i].index == |l.delivered| + i)
  }

  lemma {:induction false} NoGaps(delivered: seq<nat>)
    requires forall i: nat :: i < |delivered| ==> delivered[i] == i
    ensures Gaps(delivered) == 0
  {
    if delivered != [] {
      NoGaps(delivered[..|delivered| - 1]);
    }
  }

  lemma {:induction false} RunLossless(actions: seq<Action>)
    requires forall a :: a in actions ==> !a.Lose?
    ensures var s := Run(Start(), actions); Lossless(s.pt) && Lossless(s.tp)
    decreases |actions|
  {
    if actions != [] {
      hide Lossless, Step;
      RunLossless(actions[..|actions| - 1]);
      assert actions[|actions| - 1] in actions;
      StepLossless(Run(Start(), actions[..|actions| - 1]), actions[|actions| - 1]);
    }
  }

  lemma StepLossless(s: System, a: Action)
    requires Lossless(s.pt) && Lossless(s.tp) && !a.Lose?
    ensures Lossless(Step(s, a).pt) && Lossless(Step(s, a).tp)
  {
    hide U32;
  }

  /** Over lossless FIFO links no sequence error is ever reported, rxseq is the count of
      events received and txseq the count sent, modulo 2^32. */
  lemma LosslessInStep(actions: seq<Action>)
    requires forall a :: a in actions ==> !a.Lose?
    ensures var s := Run(Start(), actions);
            && s.pt.errors == 0 && s.tp.errors == 0
            && s.t.rxseq == U32(|s.pt.delivered|) && s.p.rxseq == U32(|s.tp.delivered|)
            && s.p.txseq == U32(|s.pt.numbers|) && s.t.txseq == U32(|s.tp.numbers|)
  {
    var s := Run(Start(), actions);
    RunKeeps(actions);
    RunLossless(actions);
    NoGaps(s.pt.delivered);
    NoGaps(s.tp.delivered);
  }

  /** When the tester reads an event, txwindow becomes the number of events it has sent
      less the number production had received when it wrote that event; the difference is
      never negative. The same holds the other way round. */
  lemma WindowCountsUnseen(actions: seq<Action>)
    requires forall a :: a in actions ==> !a.Lose?
    ensures var s := Run(Start(), actions);
            && (s.pt.queue != [] ==>
                  var m := s.pt.queue[0];
                  m.seen <= |s.tp.delivered| <= |s.tp.numbers|
                  && ReadStep(s.t, m.event).0.txwindow == U32(|s.tp.numbers| as int - m.seen))
            && (s.tp.queue != [] ==>
                  var m := s.tp.queue[0];
                  m.seen <= |s.pt.delivered| <= |s.pt.numbers|
                  && ReadStep(s.p, m.event).0.txwindow == U32(|s.pt.numbers| as int - m.seen))
  {
    hide LinkOk, Lossless, ReadStep, Run;
    var s := Run(Start(), actions);
    RunKeeps(actions);
    RunLossless(actions);
    if s.pt.queue != [] { WindowAtRead(s.p, s.t, s.pt, s.tp); }
    if s.tp.queue != [] { WindowAtRead(s.t, s.p, s.tp, s.pt); }
  }

  lemma WindowAtRead(x: Endpoint, y: Endpoint, link: Link, back: Link)
    requires LinkOk(x, y, link, back) && LinkOk(y, x, back, link) && link.queue != [] && Lossless(back)
    ensures var m := link.queue[0];
            m.seen <= |back.delivered| <= |back.numbers|
            && ReadStep(y, m.event).0.txwindow == U32(|back.numbers| as int - m.seen)
  {
    ReadReportsGap(x, y, link, back);
    assert InFlight(x.role, link, back, 0);
  }

  // ---- Restart and failed sends --------------------------------------------------

  /** y will report no error on the next event x gets through. */
  ghost predicate InStep(x: Endpoint, y: Endpoint) {
    y.rxseq == x.txseq < 0x1_0000_0000
  }

  lemma InStepMeansNoError(x: Endpoint, y: Endpoint)
    requires x.role != y.role && x.txseq < 0x1_0000_0000
    ensures InStep(x, y) ==>
              var (x', _, event) := WriteStep(x, false, true, false, true);
              event.Some? && var (y', error) := ReadStep(y, event.value); !error && InStep(x', y')
  {}

  /** A restart acknowledgement that gets through puts its reader in step with its writer,
      whatever either had counted before; the read itself reports an error exactly when the
      reader did not expect number 0. */
  lemma RestartResynchronises(x: Endpoint, y: Endpoint)
    requires x.role != y.role && y.rxseq < 0x1_0000_0000
    ensures var (x', r, event) := WriteStep(x, true, true, false, true);
            && r == 0 && event.Some?
            && var (y', error) := ReadStep(y, event.value);
            && InStep(x', y')
            && (error <==> if y.role == Production then y.rxseq != 0xFFFF_FFFF else y.rxseq != 0)
  {}

  /** When the two ends acknowledge a restart to each other, both directions are in step,
      whatever the four counters were. */
  lemma RestartHandshake(x: Endpoint, y: Endpoint)
    requires x.role != y.role
    ensures var (x1, _, sent) := WriteStep(x, true, true, false, true);
            sent.Some? &&
            var (y1, _) := ReadStep(y, sent.value);
            var (y2, _, answer) := WriteStep(y1, true, true, false, true);
            answer.Some? &&
            var (x2, _) := ReadStep(x1, answer.value);
            InStep(x2, y2) && InStep(y2, x2)
  {}

  /** A failed send gives its number back, except for a restart acknowledgement, which
      leaves txseq at 2^32 - 1 because it is decremented after it was zeroed. */
  lemma FailedSendIffOrdinary(e: Endpoint, ack: bool)
    requires e.txseq < 0x1_0000_0000
    ensures var (e', r, event) := WriteStep(e, ack, true, false, false);
            && r == -1 && event == None
            && (e'.txseq == e.txseq <==> !ack || e.txseq == 0xFFFF_FFFF)
            && (ack ==> e'.txseq == 0xFFFF_FFFF)
  {}
}

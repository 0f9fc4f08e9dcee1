/** Restart acknowledgements on the boost signalling link, with events in flight: one direction
    between two endpoints, with anything at all happening in the other. */
module BoostRestart {
  import opened Words
  import opened Wrappers
  import opened BoostSequence

  /** The sender, the reader, the events in flight, and the number of sequence errors that
      were reported for ordinary events. */
  datatype Way = Way(x: Endpoint, y: Endpoint, q: seq<Event>, errors: nat)

  /** x writes; y reads; the k-th event in flight is lost; y writes in the other direction; x
      reads an event from there. */
  datatype Move =
    | Sends(ack: bool, delivered: bool)
    | Reads
    | Loses(k: nat)
    | Answers(ack: bool, delivered: bool)
    | Hears(event: Event)

  function Go(w: Way, m: Move): Way {
    match m
    case Sends(ack, delivered) =>
      var (x, _, event) := WriteStep(w.x, ack, true, false, delivered);
      w.(x := x, q := if event.Some? then w.q + [event.value] else w.q)
    case Reads =>
      if w.q == [] then w
      else
        var (y, error) := ReadStep(w.y, w.q[0]);
        w.(y := y, q := w.q[1..], errors := w.errors + if error && !w.q[0].ack then 1 else 0)
    case Loses(k) => if k < |w.q| then w.(q := w.q[..k] + w.q[k + 1..]) else w
    case Answers(ack, delivered) => w.(y := WriteStep(w.y, ack, true, false, delivered).0)
    case Hears(event) => w.(x := ReadStep(w.x, event).0)
  }

  function GoAll(w: Way, moves: seq<Move>): Way
    decreases |moves|
  {
    if moves == [] then w else Go(GoAll(w, moves[..|moves| - 1]), moves[|moves| - 1])
  }

  const WORD: nat := 0x1_0000_0000

  /** Opposite builds, counters that are unsigned int, and acknowledgements numbered 0. */
  ghost predicate Fine(w: Way) {
    && w.x.role != w.y.role && w.x.txseq < WORD && w.y.rxseq < WORD
    && forall i :: 0 <= i < |w.q| ==> w.q[i].fseqno < WORD && (w.q[i].ack ==> w.q[i].fseqno == 0)
  }

  // ---- When a direction is in step -----------------------------------------------

  /** rxseq of a reader after an event, whatever it was before. */
  function Next(reader: Role, ev: Event): nat {
    if reader == Production then ev.fseqno else if ev.ack then 0 else U32(ev.fseqno + 1)
  }

  /** rxseq of the reader once it has read what is in flight. */
  function Due(y: Endpoint, q: seq<Event>): nat {
    if q == [] then y.rxseq else Next(y.role, q[|q| - 1])
  }

  /** It will then be in step with the sender. */
  ghost predicate Settled(w: Way) {
    Due(w.y, w.q) == w.x.txseq
  }

  lemma GoFine(w: Way, m: Move)
    requires Fine(w)
    ensures Fine(Go(w, m))
  {}

  lemma Restored(n: nat)
    requires n < WORD
    ensures U32(U32(n + 1) - 1) == n
  {
    U32Add(n + 1, -1);
  }

  /** Which moves keep a direction in step, for each move: any event that gets through puts it
      in step; a failed acknowledgement does only if 2^32 - 1 was due; a loss matters only at
      the end of the queue; and an acknowledgement by the reader, which zeroes its rxseq, only
      if nothing is in flight and the sender has sent anything. */
  lemma SettledIff(w: Way, m: Move)
    requires Fine(w)
    ensures Settled(Go(w, m)) <==>
              match m {
                case Sends(ack, delivered) =>
                  delivered || (if ack then Due(w.y, w.q) == 0xFFFF_FFFF else Settled(w))
                case Reads => Settled(w)
                case Loses(k) => if k + 1 == |w.q| then Due(w.y, w.q[..k]) == w.x.txseq else Settled(w)
                case Answers(ack, _) => if ack && w.q == [] then w.x.txseq == 0 else Settled(w)
                case Hears(_) => Settled(w)
              }
  {
    hide U32;
    Restored(w.x.txseq);
    FailedAck();
    if m.Sends? && m.delivered {
      SentIsDue(w, m.ack);
    }
  }

  lemma FailedAck()
    ensures U32(0 - 1) == 0xFFFF_FFFF
  {}

  lemma SentIsDue(w: Way, ack: bool)
    requires Fine(w)
    ensures Settled(Go(w, Sends(ack, true)))
  {
    hide U32;
  }

  /** Moves after which a direction that was in step may be out of step. */
  predicate Disturbs(m: Move) {
    m.Loses? || (m.Sends? && m.ack && !m.delivered) || (m.Answers? && m.ack)
  }

  lemma {:induction false} GoAllFine(w: Way, moves: seq<Move>)
    requires Fine(w)
    ensures Fine(GoAll(w, moves))
    decreases |moves|
  {
    if moves != [] {
      GoAllFine(w, moves[..|moves| - 1]);
      GoFine(GoAll(w, moves[..|moves| - 1]), moves[|moves| - 1]);
    }
  }

  /** From any counters and with anything in flight: once an event has got through, ordinary
      or not, the direction is in step until a move disturbs it. */
  lemma {:induction false} Resynchronises(w: Way, moves: seq<Move>, i: nat)
    requires Fine(w) && i < |moves| && moves[i].Sends? && moves[i].delivered
    requires forall j :: i < j < |moves| ==> !Disturbs(moves[j])
    ensures Settled(GoAll(w, moves))
    decreases |moves|
  {
    hide Go, Settled, Fine;
    var n := |moves| - 1;
    GoAllFine(w, moves[..n]);
    SettledIff(GoAll(w, moves[..n]), moves[n]);
    if i < n {
      Resynchronises(w, moves[..n], i);
    }
  }

  // ---- Which events are reported -------------------------------------------------

  function AfterReading(y: Endpoint, q: seq<Event>): Endpoint
    decreases |q|
  {
    if q == [] then y else AfterReading(ReadStep(y, q[0]).0, q[1..])
  }

  lemma {:induction false} AfterReadingIsDue(y: Endpoint, q: seq<Event>)
    ensures AfterReading(y, q).rxseq == Due(y, q) && AfterReading(y, q).role == y.role
    decreases |q|
  {
    if q != [] {
      AfterReadingIsDue(ReadStep(y, q[0]).0, q[1..]);
    }
  }

  /** Reading q, with errors reported for its first k events and for acknowledgements only. */
  predicate Quiet(y: Endpoint, q: seq<Event>, k: nat)
    decreases |q|
  {
    q == [] ||
    (var (y', error) := ReadStep(y, q[0]);
     (error ==> k > 0 || q[0].ack) && Quiet(y', q[1..], if k > 0 then k - 1 else 0))
  }

  lemma {:induction false} AnyIsQuiet(y: Endpoint, q: seq<Event>, k: nat)
    requires k >= |q|
    ensures Quiet(y, q, k)
    decreases |q|
  {
    if q != [] {
      AnyIsQuiet(ReadStep(y, q[0]).0, q[1..], k - 1);
    }
  }

  lemma {:induction false} QuietSnoc(y: Endpoint, q: seq<Event>, k: nat, ev: Event)
    requires Quiet(y, q, k) && (ReadStep(AfterReading(y, q), ev).1 ==> ev.ack)
    ensures Quiet(y, q + [ev], k)
    decreases |q|
  {
    hide ReadStep;
    if q != [] {
      assert (q + [ev])[1..] == q[1..] + [ev];
      QuietSnoc(ReadStep(y, q[0]).0, q[1..], if k > 0 then k - 1 else 0, ev);
    }
  }

  /** Only the role and rxseq of the reader matter. */
  lemma {:induction false} QuietFor(y: Endpoint, y': Endpoint, q: seq<Event>, k: nat)
    requires y.role == y'.role && y.rxseq == y'.rxseq
    ensures Quiet(y, q, k) == Quiet(y', q, k)
    decreases |q|
  {
    if q != [] {
      QuietFor(ReadStep(y, q[0]).0, ReadStep(y', q[0]).0, q[1..], if k > 0 then k - 1 else 0);
    }
  }

  lemma NextInStep(w: Way, ack: bool)
    requires Fine(w) && Settled(w)
    ensures var event := WriteStep(w.x, ack, true, false, true).2;
            event.Some? && (ReadStep(AfterReading(w.y, w.q), event.value).1 ==> event.value.ack)
  {
    AfterReadingIsDue(w.y, w.q);
  }

  /** One undisturbing move: an event that is read while the first k are still to come counts
      against them. */
  lemma CalmMove(w: Way, m: Move, k: nat) returns (k': nat)
    requires Fine(w) && Settled(w) && Quiet(w.y, w.q, k) && !Disturbs(m)
    ensures var t := Go(w, m);
            Fine(t) && Settled(t) && Quiet(t.y, t.q, k') && t.errors + k' <= w.errors + k
  {
    hide ReadStep, Settled;
    GoFine(w, m);
    SettledIff(w, m);
    k' := k;
    match m
    case Sends(ack, delivered) =>
      if delivered {
        NextInStep(w, ack);
        QuietSnoc(w.y, w.q, k, WriteStep(w.x, ack, true, false, true).2.value);
      }
    case Reads =>
      if w.q != [] && k > 0 {
        k' := k - 1;
      }
    case Answers(_, _) =>
      QuietFor(w.y, Go(w, m).y, w.q, k);
    case Hears(_) =>
      HearsKeeps(w, m.event);
  }

  lemma HearsKeeps(w: Way, event: Event)
    ensures var t := Go(w, Hears(event)); t.y == w.y && t.q == w.q && t.errors == w.errors
  {}

  lemma {:induction false} CalmMoves(w: Way, moves: seq<Move>, k: nat) returns (k': nat)
    requires Fine(w) && Settled(w) && Quiet(w.y, w.q, k)
    requires forall j :: 0 <= j < |moves| ==> !Disturbs(moves[j])
    ensures var t := GoAll(w, moves);
            Fine(t) && Settled(t) && Quiet(t.y, t.q, k') && t.errors + k' <= w.errors + k
    decreases |moves|
  {
    hide Go, Fine, Settled, Quiet, Disturbs;
    if moves == [] {
      k' := k;
    } else {
      var n := |moves| - 1;
      var before := CalmMoves(w, moves[..n], k);
      k' := CalmMove(GoAll(w, moves[..n]), moves[n], before);
    }
  }

  /** In step, with nothing in flight, no ordinary event is reported until a move disturbs the
      direction, however many acknowledgements its sender sends. */
  lemma NoErrorsUndisturbed(w: Way, moves: seq<Move>)
    requires Fine(w) && Settled(w) && w.q == []
    requires forall j :: 0 <= j < |moves| ==> !Disturbs(moves[j])
    ensures GoAll(w, moves).errors == w.errors
  {
    var k := CalmMoves(w, moves, 0);
    ErrorsGrow(w, moves);
  }

  lemma {:induction false} ErrorsGrow(w: Way, moves: seq<Move>)
    ensures GoAll(w, moves).errors >= w.errors
    decreases |moves|
  {
    if moves != [] {
      ErrorsGrow(w, moves[..|moves| - 1]);
    }
  }

  /** An acknowledgement sent with any counters and events in flight: from then on, undisturbed,
      only the events that were ahead of it can be reported. */
  lemma RestartInFlight(w: Way, moves: seq<Move>)
    requires Fine(w)
    requires forall j :: 0 <= j < |moves| ==> !Disturbs(moves[j])
    ensures var t := GoAll(Go(w, Sends(true, true)), moves);
            Settled(t) && t.errors <= w.errors + |w.q|
  {
    hide ReadStep;
    var u := Go(w, Sends(true, true));
    GoFine(w, Sends(true, true));
    SentIsDue(w, true);
    AnyIsQuiet(w.y, w.q, |w.q|);
    QuietSnoc(w.y, w.q, |w.q|, WriteStep(w.x, true, true, false, true).2.value);
    var k := CalmMoves(u, moves, |w.q|);
  }
}

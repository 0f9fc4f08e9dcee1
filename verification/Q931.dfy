/** The Q.931 frame decoder: call reference, message type and the walk over the information
    elements. Masks are written as arithmetic on octets. */
module Q931 {
  import opened Words

  // ---- Character tables ----------------------------------------------------------

  const NUL := '\0'

  /** Row lo of the IA5 table, columns 2 to 7; columns 0 and 1 hold NUL. */
  function Ia5Row(lo: nat): (r: string)
    requires lo < 16
    ensures |r| == 6
  {
    match lo
    case 0 => " 0@P`p"
    case 1 => "!1AQaq"
    case 2 => "\"2BRbr"
    case 3 => "#3CScs"
    case 4 => "$4DTdt"
    case 5 => "%5EUeu"
    case 6 => "&6FVfv"
    case 7 => "'7GWgw"
    case 8 => "(8HXhx"
    case 9 => ")9IYiy"
    case 10 => "*:JZjz"
    case 11 => "+;K[k{"
    case 12 => ",<L\\l|"
    case 13 => "-=M]m}"
    case 14 => ".>N^n~"
    case _ => ['/', '?', 'O', '_', 'o', NUL]
  }

  /** ia5[b & 0x0F][(b & 0xF0) / 16]. With bit 8 set the column runs into the next row. */
  function Ia5(b: byte): char {
    var lo, hi := if b < 128 then b % 16 else b % 16 + 1, if b < 128 then b / 16 else b / 16 - 8;
    if lo < 16 && hi >= 2 then Ia5Row(lo)[hi - 2] else NUL
  }

  lemma Ia5IsAscii(b: byte)
    requires 0x20 <= b <= 0x7E
    ensures Ia5(b) == b as char
  {
    var lo, hi := b % 16, b / 16;
    assert b == 16 * hi + lo && 2 <= hi <= 7;
    if lo == 0 {} else if lo == 1 {} else if lo == 2 {} else if lo == 3 {}
    else if lo == 4 {} else if lo == 5 {} else if lo == 6 {} else if lo == 7 {}
    else if lo == 8 {} else if lo == 9 {} else if lo == 10 {} else if lo == 11 {}
    else if lo == 12 {} else if lo == 13 {} else if lo == 14 {} else {}
  }

  /** Control characters and the last one of the table have no character. */
  lemma Ia5Control(b: byte)
    requires b < 0x20 || b == 0x7F
    ensures Ia5(b) == NUL
  {}

  function HexDigit(d: nat): (c: char)
    requires d < 16
  {
    "0123456789ABCDEF"[d]
  }

  function HexValue(c: char): nat {
    if '0' <= c <= '9' then (c as int - '0' as int) as nat
    else if 'A' <= c <= 'F' then (c as int - 'A' as int + 10) as nat
    else 0
  }

  function Hex(octets: seq<byte>): (s: string)
    ensures |s| == 2 * |octets|
  {
    if octets == [] then ""
    else
      var last := octets[|octets| - 1];
      Hex(octets[..|octets| - 1]) + [HexDigit(last / 16), HexDigit(last % 16)]
  }

  /** The string reads back, two hexadecimal digits an octet, as these octets. */
  ghost predicate ReadsAs(s: string, octets: seq<byte>) {
    && |s| == 2 * |octets|
    && forall k :: 0 <= k < |octets| ==> 16 * HexValue(s[2 * k]) + HexValue(s[2 * k + 1]) == octets[k]
  }

  lemma HexValueOfDigit(d: nat)
    requires d < 16
    ensures HexValue(HexDigit(d)) == d
  {}

  lemma {:induction false} HexReadsBack(octets: seq<byte>)
    ensures ReadsAs(Hex(octets), octets)
  {
    hide HexValue, HexDigit;
    if octets != [] {
      HexReadsBack(octets[..|octets| - 1]);
      HexValueOfDigit(octets[|octets| - 1] / 16);
      HexValueOfDigit(octets[|octets| - 1] % 16);
    }
  }

  function MessageName(b: byte): string {
    match b
    case 1 => "ALERTING"
    case 2 => "CALL_PROCEEDING"
    case 3 => "PROGRESS"
    case 5 => "SETUP"
    case 7 => "CONNECT"
    case 13 => "SETUP_ACK"
    case 15 => "CONNECT_ACK"
    case 32 => "USER_INFO"
    case 33 => "SUSPEND_REJ"
    case 34 => "RESUME_REJ"
    case 37 => "SUSPEND"
    case 38 => "RESUME"
    case 45 => "SUSPEND_ACK"
    case 46 => "RESUME_ACK"
    case 69 => "DISCONNECT"
    case 70 => "RESTART"
    case 77 => "RELEASE"
    case 78 => "RELEASE_ACK"
    case 90 => "RELEASE_COMPL"
    case 96 => "SEGMENT"
    case 110 => "NOTIFY"
    case 117 => "STATUS_ENQUIRY"
    case 121 => "CONGEST_CNTRL"
    case 123 => "INFORMATION"
    case 125 => "STATUS"
    case _ => "UNKNOWN"
  }

  // ---- The element walk ----------------------------------------------------------

  /** What is reported; strings are without their terminating NUL. */
  datatype Event = Event(
    data: seq<byte>, callRef: string, msgType: string, chan: int, cause: int,
    callingCount: int, calling: string, screening: int, presentation: int,
    calledCount: int, called: string, rdnisCount: int, rdnis: string)

  /** A frame, and the octets that happen to follow it in memory. */
  datatype Frame = Frame(data: seq<byte>, beyond: nat -> byte) {
    function Octet(i: nat): byte {
      if i < |data| then data[i] else beyond(i)
    }

    function Octets(i: nat, n: nat): (r: seq<byte>)
      ensures |r| == n && forall k: nat :: k < n ==> r[k] == Octet(i + k)
    {
      if n == 0 then [] else Octets(i, n - 1) + [Octet(i + n - 1)]
    }
  }

  function Ascii(octets: seq<byte>): (s: string)
    ensures |s| == |octets|
  {
    if octets == [] then "" else Ascii(octets[..|octets| - 1]) + [Ia5(octets[|octets| - 1])]
  }

  /** Length-coded elements the decoder steps over. */
  predicate DontCare(id: byte) {
    id in {4, 16, 20, 30, 32, 39, 40, 41, 44, 52, 64, 66, 67, 68, 69, 70, 71, 74, 109, 113, 120, 121, 124, 125, 126, 127}
  }

  /** Digits announced by an element's length octet after its two descriptive octets. */
  function DigitCount(len: int): nat {
    if len >= 2 then len - 2 else 0
  }

  /** One pass of the switch on the octet at i: the index the loop continues at, and the
      event so far. */
  function Element(f: Frame, i: nat, ev: Event): (r: (nat, Event))
    ensures r.0 > i
  {
    var id: byte, len: int := f.Octet(i), f.Octet(i + 1);
    if DontCare(id) then (i + 2 + len, ev)
    else match id
      case 8 => (i + 3, ev.(cause := f.Octet(i + 3) % 128))
      case 24 =>
        var o := f.Octet(i + 4);
        (i + 4, ev.(chan := if o / 16 % 2 == 0 then o % 16 else -1))
      case 108 =>
        var n, o := DigitCount(len), f.Octet(i + 3);
        (i + 4 + n,
         ev.(callingCount := len - 2, calling := Ascii(f.Octets(i + 4, n)),
             screening := o / 32 % 4 * 32, presentation := o % 4))
      case 112 =>
        var n := DigitCount(len);
        (i + 3 + n, ev.(calledCount := len - 2, called := Ascii(f.Octets(i + 3, n))))
      case 116 =>
        var n := DigitCount(len);
        (i + 5 + n, ev.(rdnisCount := n, rdnis := Ascii(f.Octets(i + 5, n))))
      case _ => (i + 1, ev)
  }

  /** The loop over the rest of the frame; the index grows, so it ends on any input. */
  function Walk(f: Frame, i: nat, ev: Event): Event
    decreases |f.data| - i
  {
    if i >= |f.data| then ev else Walk(f, Element(f, i, ev).0, Element(f, i, ev).1)
  }

  const BLANK := Event([], "", "", 0, 0, 0, "", 0, 0, 0, "", 0, "")

  /** What a frame of valid length and protocol discriminator is reported as. */
  function Decode(f: Frame): Event {
    var len := f.Octet(5) % 16;
    Walk(f, 7 + len, BLANK.(data := f.data, callRef := Hex(f.Octets(6, len)), msgType := MessageName(f.Octet(6 + len))))
  }

  // ---- The event's arrays --------------------------------------------------------

  datatype Buffer = CallRefBuffer | MsgTypeBuffer | CallingBuffer | CalledBuffer | RdnisBuffer | DataBuffer

  /** Their lengths in stelephony_q931_event. */
  function Size(b: Buffer): nat {
    match b
    case CallRefBuffer => 6
    case MsgTypeBuffer => 25
    case CallingBuffer => 32
    case CalledBuffer => 32
    case RdnisBuffer => 81
    case DataBuffer => 8188
  }

  /** One element of one array. */
  type Cell = (Buffer, nat)

  /** The first n elements. */
  function CellsTo(b: Buffer, n: nat): (cells: set<Cell>)
    ensures forall c :: c in cells <==> c.0 == b && c.1 < n
  {
    if n == 0 then {} else CellsTo(b, n - 1) + {(b, n - 1)}
  }

  lemma CellsToNext(b: Buffer, n: nat)
    ensures CellsTo(b, 0) == {}
    ensures CellsTo(b, n) + {(b, n)} == CellsTo(b, n + 1)
  {}

  /** What one pass of the element loop writes: the digits of a number and their NUL. */
  function ElementCells(f: Frame, i: nat): set<Cell> {
    var id, n := f.Octet(i), DigitCount(f.Octet(i + 1));
    if id == 108 then CellsTo(CallingBuffer, n + 1)
    else if id == 112 then CellsTo(CalledBuffer, n + 1)
    else if id == 116 then CellsTo(RdnisBuffer, n + 1)
    else {}
  }

  function WalkCells(f: Frame, i: nat): set<Cell>
    decreases |f.data| - i
  {
    if i >= |f.data| then {} else ElementCells(f, i) + WalkCells(f, Element(f, i, BLANK).0)
  }

  /** Everything written for a frame, apart from the first element of each array, which is
      set to NUL beforehand. */
  function FrameCells(f: Frame): set<Cell> {
    var len := f.Octet(5) % 16;
    CellsTo(DataBuffer, |f.data|) + CellsTo(CallRefBuffer, 2 * len + 1)
    + CellsTo(MsgTypeBuffer, |MessageName(f.Octet(6 + len))| + 1) + WalkCells(f, 7 + len)
  }

  /** The length octet of a number leaves room for its NUL. */
  predicate ElementFits(f: Frame, i: nat) {
    var id, len := f.Octet(i), f.Octet(i + 1);
    (id in {108, 112} ==> len <= 33) && (id == 116 ==> len <= 82)
  }

  predicate NumbersFit(f: Frame, i: nat)
    decreases |f.data| - i
  {
    i >= |f.data| || (ElementFits(f, i) && NumbersFit(f, Element(f, i, BLANK).0))
  }

  ghost predicate AllInside(cells: set<Cell>) {
    forall c :: c in cells ==> c.1 < Size(c.0)
  }

  lemma CellsToInside(b: Buffer, n: nat)
    ensures AllInside(CellsTo(b, n)) <==> n <= Size(b)
  {
    if n > Size(b) {
      assert (b, Size(b)) in CellsTo(b, n);
    }
  }

  lemma InsideBoth(a: set<Cell>, b: set<Cell>)
    ensures AllInside(a + b) <==> AllInside(a) && AllInside(b)
  {
    if AllInside(a + b) {
      assert forall c :: c in a ==> c in a + b;
      assert forall c :: c in b ==> c in a + b;
    }
  }

  lemma ElementCellsInside(f: Frame, i: nat)
    ensures AllInside(ElementCells(f, i)) <==> ElementFits(f, i)
  {
    hide Frame.Octet;
    var n := DigitCount(f.Octet(i + 1));
    CellsToInside(CallingBuffer, n + 1);
    CellsToInside(CalledBuffer, n + 1);
    CellsToInside(RdnisBuffer, n + 1);
  }

  lemma {:induction false} WalkCellsInside(f: Frame, i: nat)
    ensures AllInside(WalkCells(f, i)) <==> NumbersFit(f, i)
    decreases |f.data| - i
  {
    if i < |f.data| {
      hide Element, ElementCells, ElementFits, AllInside, Frame.Octet;
      ElementCellsInside(f, i);
      WalkCellsInside(f, Element(f, i, BLANK).0);
      InsideBoth(ElementCells(f, i), WalkCells(f, Element(f, i, BLANK).0));
    }
  }

  lemma MessageNameFits(b: byte)
    ensures |MessageName(b)| < Size(MsgTypeBuffer)
  {}

  /** Every write for a frame stays in its array exactly if the frame has at most 8188 octets,
      its call reference at most two, and every number the walk comes to a length octet of at
      most 33, or 82 for a redirecting number. */
  lemma FrameFitsIff(f: Frame)
    ensures AllInside(FrameCells(f)) <==>
              |f.data| <= 8188 && f.Octet(5) % 16 <= 2 && NumbersFit(f, 7 + f.Octet(5) % 16)
  {
    hide MessageName, NumbersFit, WalkCells, AllInside, Frame.Octet, CellsTo;
    var len := f.Octet(5) % 16;
    var name := |MessageName(f.Octet(6 + len))| + 1;
    MessageNameFits(f.Octet(6 + len));
    CellsToInside(DataBuffer, |f.data|);
    CellsToInside(CallRefBuffer, 2 * len + 1);
    CellsToInside(MsgTypeBuffer, name);
    WalkCellsInside(f, 7 + len);
    InsideBoth(CellsTo(DataBuffer, |f.data|), CellsTo(CallRefBuffer, 2 * len + 1));
    InsideBoth(CellsTo(DataBuffer, |f.data|) + CellsTo(CallRefBuffer, 2 * len + 1), CellsTo(MsgTypeBuffer, name));
    InsideBoth(CellsTo(DataBuffer, |f.data|) + CellsTo(CallRefBuffer, 2 * len + 1) + CellsTo(MsgTypeBuffer, name),
               WalkCells(f, 7 + len));
  }

  lemma NextSame(f: Frame, i: nat, ev: Event)
    ensures Element(f, i, ev).0 == Element(f, i, BLANK).0
  {}

  // ---- The decoder ---------------------------------------------------------------

  datatype Status = Success | Disabled | InvalidState | InvalidInput

  class Decoder {
    var enabled: bool
    var callback: bool          // OnQ931Event is set
    var reported: seq<Event>    // what the callback was handed

    constructor ()
      ensures !enabled && !callback && reported == []
    {
      enabled, callback, reported := false, false, [];
    }

    /** The digit loops: n octets from c on, through the IA5 table, and a NUL. */
    method ReadDigits(f: Frame, c: nat, n: nat, ghost b: Buffer) returns (s: string, end: nat, ghost cells: set<Cell>)
      ensures s == Ascii(f.Octets(c, n)) && end == c + n && cells == CellsTo(b, n + 1)
    {
      hide CellsTo, Ia5, Frame.Octet;
      CellsToNext(b, n);
      s, end, cells := "", c, {};
      for j := 0 to n
        invariant end == c + j && s == Ascii(f.Octets(c, j)) && cells == CellsTo(b, j)
      {
        CellsToNext(b, j);
        cells := cells + {(b, j)};
        assert f.Octets(c, j + 1)[..j] == f.Octets(c, j);
        s := s + [Ia5(f.Octet(end))];
        end := end + 1;
      }
      cells := cells + {(b, n)};
    }

    /** One pass of the element loop, up to the increment in its header. */
    method ReadElement(f: Frame, start: nat, ev0: Event) returns (i: nat, ev: Event, ghost cells: set<Cell>)
      ensures (i + 1, ev) == Element(f, start, ev0) && cells == ElementCells(f, start)
    {
      hide Ascii, CellsTo, Frame.Octets, Frame.Octet;
      i, ev, cells := start, ev0, {};
      var id := f.Octet(i);
      if DontCare(id) {
        i := i + 1;
        var len := f.Octet(i);
        i := i + len;
      } else if id == 8 {
        var c := i + 3;
        ev := ev.(cause := f.Octet(c) % 128);
        i := c - 1;
      } else if id == 24 {
        var c := i + 1;
        c := c + 3;
        if f.Octet(c) / 16 % 2 * 16 == 0 {
          ev := ev.(chan := f.Octet(c) % 16);
        } else if f.Octet(c) / 16 % 2 * 16 == 1 {
        } else {
          ev := ev.(chan := -1);
        }
        i := c - 1;
      } else if id == 108 {
        var c := i + 1;
        var len: int := f.Octet(c);
        ev := ev.(callingCount := len - 2);
        c := c + 2;
        ev := ev.(screening := f.Octet(c) / 32 % 4 * 32, presentation := f.Octet(c) % 4);
        c := c + 1;
        var digits;
        digits, c, cells := ReadDigits(f, c, DigitCount(len), CallingBuffer);
        ev := ev.(calling := digits);
        i := c - 1;
      } else if id == 112 {
        var c := i + 1;
        var len: int := f.Octet(c);
        ev := ev.(calledCount := len - 2);
        c := c + 2;
        var digits;
        digits, c, cells := ReadDigits(f, c, DigitCount(len), CalledBuffer);
        ev := ev.(called := digits);
        i := c - 1;
      } else if id == 116 {
        var c := i + 1;
        var len: int := f.Octet(c);
        c := c + 1;
        if f.Octet(c) / 128 * 128 == 64 {
          c := c + 2;
        } else {
          c := c + 3;
        }
        var digits;
        digits, c, cells := ReadDigits(f, c, DigitCount(len), RdnisBuffer);
        ev := ev.(rdnis := digits, rdnisCount := |digits|);
        i := c - 1;
      }
    }

    /** The call reference as hexadecimal digits, and the index of the message type. */
    method ReadCallReference(f: Frame, len: nat) returns (s: string, c: nat, ghost cells: set<Cell>)
      ensures s == Hex(f.Octets(6, len)) && c == 6 + len && cells == CellsTo(CallRefBuffer, 2 * len + 1)
    {
      hide HexDigit, CellsTo, Frame.Octet;
      CellsToNext(CallRefBuffer, 2 * len);
      s, c, cells := "", 6, {};
      for k := 0 to len
        invariant c == 6 + k && s == Hex(f.Octets(6, k)) && cells == CellsTo(CallRefBuffer, 2 * k)
      {
        CellsToNext(CallRefBuffer, 2 * k);
        CellsToNext(CallRefBuffer, 2 * k + 1);
        cells := cells + {(CallRefBuffer, 2 * k)} + {(CallRefBuffer, 2 * k + 1)};
        assert f.Octets(6, k + 1)[..k] == f.Octets(6, k);
        s := s + [HexDigit(f.Octet(c) / 16), HexDigit(f.Octet(c) % 16)];
        c := c + 1;
      }
      cells := cells + {(CallRefBuffer, 2 * len)};
    }

    /** The element loop. */
    method ReadElements(f: Frame, start: nat, ev0: Event) returns (ev: Event, ghost cells: set<Cell>)
      ensures ev == Walk(f, start, ev0) && cells == WalkCells(f, start)
    {
      hide Element, ElementCells;
      ev, cells := ev0, {};
      var i := start;
      while i < |f.data|
        invariant Walk(f, i, ev) == Walk(f, start, ev0)
        invariant cells + WalkCells(f, i) == WalkCells(f, start)
        decreases |f.data| - i
      {
        NextSame(f, i, ev);
        ghost var more;
        i, ev, more := ReadElement(f, i, ev);
        cells := cells + more;
        i := i + 1;
      }
    }

    /** The copy of the whole frame. */
    method CopyData(f: Frame) returns (data: seq<byte>, ghost cells: set<Cell>)
      ensures data == f.data && cells == CellsTo(DataBuffer, |f.data|)
    {
      hide CellsTo;
      CellsToNext(DataBuffer, 0);
      data, cells := [], {};
      for i := 0 to |f.data|
        invariant data == f.data[..i] && cells == CellsTo(DataBuffer, i)
      {
        CellsToNext(DataBuffer, i);
        data := data + [f.data[i]];
        cells := cells + {(DataBuffer, i)};
      }
    }

    /** The event for a frame that is accepted. */
    method ReadFrame(f: Frame) returns (ev: Event, ghost cells: set<Cell>)
      ensures ev == Decode(f) && cells == FrameCells(f)
    {
      hide Element, Walk, WalkCells, CellsTo, Hex, MessageName, Frame.Octet, Frame.Octets;
      var data, copied := CopyData(f);
      var len := f.Octet(5) % 16;
      var callRef, c, hex := ReadCallReference(f, len);
      var name := MessageName(f.Octet(c));
      ev := BLANK.(data := data, callRef := callRef, msgType := name);
      ghost var digits;
      ev, digits := ReadElements(f, 7 + len, ev);
      cells := copied + hex + CellsTo(MsgTypeBuffer, |name| + 1) + digits;
    }

    /** Q931EventsDecoder::Input: one report for a frame it accepts, none otherwise. */
    method Input(f: Frame) returns (status: Status, ghost cells: set<Cell>)
      modifies this`reported
      ensures status == if !enabled then Disabled else if !callback then InvalidState
                        else if |f.data| < 5 || f.data[4] != 8 then InvalidInput else Success
      ensures reported == if status == Success then old(reported) + [Decode(f)] else old(reported)
      ensures cells == if status == Success then FrameCells(f) else {}
    {
      cells := {};
      if !enabled {
        return Disabled, {};
      }
      if !callback {
        return InvalidState, {};
      }
      if |f.data| < 5 || f.data[4] != 8 {
        return InvalidInput, {};
      }
      hide Decode, FrameCells;
      var ev;
      ev, cells := ReadFrame(f);
      reported := reported + [ev];
      status := Success;
    }
  }
}

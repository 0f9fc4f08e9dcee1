/** Frames as Q.931 sections 4.2 to 4.5 define them, and what the decoder makes of them. */
module Q931Frames {
  import opened Words
  import opened Q931

  // ---- Octets of a frame ---------------------------------------------------------

  function Characters(octets: seq<byte>): (s: string)
    ensures |s| == |octets| && forall k :: 0 <= k < |s| ==> s[k] == octets[k] as char
  {
    if octets == [] then "" else Characters(octets[..|octets| - 1]) + [octets[|octets| - 1] as char]
  }

  lemma {:induction false} AsciiIsCharacters(octets: seq<byte>)
    requires forall k :: 0 <= k < |octets| ==> 0x20 <= octets[k] <= 0x7E
    ensures Ascii(octets) == Characters(octets)
  {
    if octets != [] {
      AsciiIsCharacters(octets[..|octets| - 1]);
      Ia5IsAscii(octets[|octets| - 1]);
    }
  }

  lemma OctetsInside(pre: seq<byte>, mid: seq<byte>, rest: seq<byte>, beyond: nat -> byte, k: nat, n: nat)
    requires k + n <= |mid|
    ensures Frame(pre + mid + rest, beyond).Octets(|pre| + k, n) == mid[k..k + n]
    ensures k < |mid| ==> Frame(pre + mid + rest, beyond).Octet(|pre| + k) == mid[k]
  {}

  lemma Regroup(pre: seq<byte>, s: seq<byte>, k: nat, rest: seq<byte>)
    requires k <= |s|
    ensures (pre + s[..k]) + s[k..] + rest == pre + s + rest
  {}

  /** The walk from one octet on, given what the decoder makes of it. */
  lemma WalkOnce(f: Frame, i: nat, next: nat, ev: Event, ev': Event)
    requires i < |f.data| && Element(f, i, ev) == (next, ev') && ElementFits(f, i)
    ensures Leads(f, i, ev, next, ev')
  {
    NextSame(f, i, ev);
  }

  /** The walk from i comes to j with event ev', and on the way no write leaves its array. */
  ghost predicate Leads(f: Frame, i: nat, ev: Event, j: nat, ev': Event) {
    Walk(f, i, ev) == Walk(f, j, ev') && (NumbersFit(f, j) ==> NumbersFit(f, i))
  }

  lemma NoNumberFits(f: Frame, i: nat)
    requires f.Octet(i) !in {108, 112, 116}
    ensures ElementFits(f, i)
  {}

  lemma OneOctetLands(f: Frame, i: nat, ev: Event)
    requires f.Octet(i) >= 128
    ensures Element(f, i, ev) == (i + 1, ev)
  {}

  // ---- Cause and channel identification of any content ---------------------------

  /** Octets that the decoder passes over one at a time. */
  predicate Plain(o: byte) {
    !DontCare(o) && o !in {8, 24, 108, 112, 116}
  }

  lemma PlainLands(f: Frame, i: nat, ev: Event)
    ensures Plain(f.Octet(i)) ==> Element(f, i, ev) == (i + 1, ev) && ElementFits(f, i)
    ensures Element(f, i, ev).0 == i + 1 <==> Plain(f.Octet(i))
  {}

  /** How many octets the decoder takes for the element that s begins with; an element cut
      off before its length octet counts as longer than s. */
  function Width(s: seq<byte>): (w: nat)
    requires s != []
    ensures w > 0
  {
    var len: int := if |s| > 1 then s[1] else 0;
    if DontCare(s[0]) then 2 + len
    else match s[0]
      case 8 => 3
      case 24 => 4
      case 108 => 4 + DigitCount(len)
      case 112 => 3 + DigitCount(len)
      case 116 => 5 + DigitCount(len)
      case _ => 1
  }

  /** Read as elements, s ends where an element ends. */
  predicate Delimits(s: seq<byte>) {
    s == [] || (Width(s) <= |s| && Delimits(s[Width(s)..]))
  }

  /** Where the decoder goes on after the element at i, whatever it has reported so far. */
  function NextIndex(f: Frame, i: nat): (r: nat)
    ensures r > i
    ensures forall ev :: Element(f, i, ev).0 == r
  {
    Element(f, i, BLANK).0
  }

  /** The walk from i on comes by end. */
  ghost predicate Reaches(f: Frame, i: nat, end: nat)
    decreases end - i
  {
    i == end || (i < end && Reaches(f, NextIndex(f, i), end))
  }

  lemma WidthIsStep(pre: seq<byte>, s: seq<byte>, rest: seq<byte>, beyond: nat -> byte)
    requires s != []
    ensures var next, end := NextIndex(Frame(pre + s + rest, beyond), |pre|), |pre| + |s|;
            next == |pre| + Width(s) || (next > end && Width(s) > |s|)
  {
    hide Frame.Octet, Frame.Octets, DigitCount;
    OctetsInside(pre, s, rest, beyond, 0, 0);
    if |s| > 1 {
      OctetsInside(pre, s, rest, beyond, 1, 0);
    }
    var f := Frame(pre + s + rest, beyond);
    assert NextIndex(f, |pre|) == Element(f, |pre|, BLANK).0;
  }

  /** Whether the walk comes by the end of a stretch depends on that stretch alone. */
  lemma {:induction false} ReachesIff(pre: seq<byte>, s: seq<byte>, rest: seq<byte>, beyond: nat -> byte)
    ensures Reaches(Frame(pre + s + rest, beyond), |pre|, |pre| + |s|) <==> Delimits(s)
    decreases |s|
  {
    hide Width, NextIndex;
    if s != [] {
      WidthIsStep(pre, s, rest, beyond);
      if Width(s) <= |s| {
        var w := Width(s);
        Regroup(pre, s, w, rest);
        ReachesIff(pre + s[..w], s[w..], rest, beyond);
      }
    }
  }

  /** Octets of content that the decoder skips: one in a cause, two in a channel
      identification. */
  function Fixed(id: byte): nat {
    if id == 8 then 1 else 2
  }

  /** An element with its length octet. */
  function Coded(id: byte, content: seq<byte>): (r: seq<byte>)
    requires |content| < 256
    ensures |r| == 2 + |content|
  {
    [id, |content|] + content
  }

  /** After a cause the walk goes on at its second octet of content, after a channel
      identification at the third, whatever the length octet says. */
  lemma FixedOffset(pre: seq<byte>, id: byte, content: seq<byte>, rest: seq<byte>, beyond: nat -> byte, ev: Event)
    requires id in {8, 24} && |content| < 256
    ensures var f := Frame(pre + Coded(id, content) + rest, beyond);
            && NextIndex(f, |pre|) == Element(f, |pre|, ev).0 == |pre| + 2 + Fixed(id)
            && Element(f, |pre|, ev).1 ==
                 if id == 8 then ev.(cause := f.Octet(|pre| + 3) % 128)
                 else ev.(chan := ReportedChannel(f.Octet(|pre| + 4)))
  {
    hide Frame.Octet, Frame.Octets;
    OctetsInside(pre, Coded(id, content), rest, beyond, 0, 0);
    var f := Frame(pre + Coded(id, content) + rest, beyond);
    assert NextIndex(f, |pre|) == Element(f, |pre|, ev).0;
  }

  /** So the walk comes by the end of the element exactly when it is at least that long and
      the rest of its content, read as elements, ends where an element ends. */
  lemma LandsIff(pre: seq<byte>, id: byte, content: seq<byte>, rest: seq<byte>, beyond: nat -> byte)
    requires id in {8, 24} && |content| < 256
    ensures var mid := Coded(id, content);
            Reaches(Frame(pre + mid + rest, beyond), |pre|, |pre| + |mid|)
            <==> |content| >= Fixed(id) && Delimits(content[Fixed(id)..])
  {
    hide Delimits, NextIndex;
    var mid, k := Coded(id, content), 2 + Fixed(id);
    FixedOffset(pre, id, content, rest, beyond, BLANK);
    if |content| >= Fixed(id) {
      Regroup(pre, mid, k, rest);
      assert mid[k..] == content[Fixed(id)..];
      ReachesIff(pre + mid[..k], mid[k..], rest, beyond);
    }
  }

  /** A channel identification of one octet, as on a basic rate interface, is left one octet
      late on any input. */
  lemma BasicRateOvershoots(pre: seq<byte>, o3: byte, rest: seq<byte>, beyond: nat -> byte, ev: Event)
    ensures var mid := Coded(24, [o3]);
            var f := Frame(pre + mid + rest, beyond);
            Element(f, |pre|, ev).0 == |pre| + |mid| + 1 && !Reaches(f, |pre|, |pre| + |mid|)
  {
    FixedOffset(pre, 24, [o3], rest, beyond, ev);
    LandsIff(pre, 24, [o3], rest, beyond);
  }

  lemma HighOctetFirst(s: seq<byte>)
    requires s != [] && s[0] >= 128
    ensures Width(s) == 1 && (Delimits(s) <==> Delimits(s[1..]))
  {}

  lemma ChannelIdFirst(s: seq<byte>)
    requires s != [] && s[0] == 24
    ensures Width(s) == 4 && (|s| < 4 ==> !Delimits(s))
  {}

  /** Diagnostics that look like an element take the walk past the end of a cause. */
  lemma DiagnosticsOvershoot(pre: seq<byte>, rest: seq<byte>, beyond: nat -> byte)
    ensures var mid := Coded(8, [0x80, 0x90, 24]);
            !Reaches(Frame(pre + mid + rest, beyond), |pre|, |pre| + |mid|)
  {
    hide Width, Reaches;
    var content: seq<byte> := [0x80, 0x90, 24];
    LandsIff(pre, 8, content, rest, beyond);
    HighOctetFirst(content[1..]);
    ChannelIdFirst(content[1..][1..]);
  }

  /** Place of octet 4, the cause value: after octet 3, and 3a if octet 3 has bit 8 clear. */
  function CauseValueAt(content: seq<byte>): nat
    requires content != []
  {
    if content[0] >= 128 then 1 else 2
  }

  /** The cause reported is that of octet 4 exactly when there is no octet 3a, or octet 3a
      happens to hold the same value. */
  lemma CauseValueIff(pre: seq<byte>, content: seq<byte>, rest: seq<byte>, beyond: nat -> byte, ev: Event)
    requires 0 < |content| < 256 && CauseValueAt(content) < |content|
    ensures var r := Element(Frame(pre + Coded(8, content) + rest, beyond), |pre|, ev).1;
            r.cause == content[CauseValueAt(content)] % 128
            <==> content[0] >= 128 || content[1] % 128 == content[2] % 128
  {
    hide Frame.Octet, Frame.Octets;
    FixedOffset(pre, 8, content, rest, beyond, ev);
    OctetsInside(pre, Coded(8, content), rest, beyond, 3, 0);
  }

  /** With an octet 3a of 8, cause 16 (normal clearing) is reported as 8. */
  lemma RecommendationForCause(pre: seq<byte>, rest: seq<byte>, beyond: nat -> byte, ev: Event)
    ensures Element(Frame(pre + Coded(8, [0x00, 0x88, 0x90]) + rest, beyond), |pre|, ev).1.cause == 8
  {
    hide Frame.Octet, Frame.Octets;
    var content: seq<byte> := [0x00, 0x88, 0x90];
    FixedOffset(pre, 8, content, rest, beyond, ev);
    OctetsInside(pre, Coded(8, content), rest, beyond, 3, 0);
  }

  /** How many octets belong together: up to and including the first with bit 8 set. */
  function Extended(s: seq<byte>): nat {
    if s == [] then 0 else if s[0] >= 128 then 1 else 1 + Extended(s[1..])
  }

  /** Place of the channel number: the third octet of content, or further on by the interface
      identifier (octets 3.1) that octet 3 may announce. */
  function ChannelNumberAt(content: seq<byte>): nat
    requires content != []
  {
    if content[0] / 64 % 2 == 0 then 2 else 2 + Extended(content[1..])
  }

  /** With an interface identifier the octet read is not the channel number, and is reported
      for it only if it happens to hold the same value. */
  lemma ChannelNumberIff(pre: seq<byte>, content: seq<byte>, rest: seq<byte>, beyond: nat -> byte, ev: Event)
    requires 0 < |content| < 256 && ChannelNumberAt(content) < |content|
    ensures var r := Element(Frame(pre + Coded(24, content) + rest, beyond), |pre|, ev).1;
            var number := content[ChannelNumberAt(content)] % 128;
            && 2 <= ChannelNumberAt(content)
            && if content[0] / 64 % 2 == 0 then r.chan == number <==> number < 16
               else r.chan == number <==> content[2] / 16 % 2 == 0 && content[2] % 16 == number
  {
    hide Frame.Octet, Frame.Octets, Extended;
    FixedOffset(pre, 24, content, rest, beyond, ev);
    OctetsInside(pre, Coded(24, content), rest, beyond, 4, 0);
    ChannelIff(content[2]);
  }

  /** Channel 5 of interface 1 is reported as channel 3. */
  lemma InterfaceIdentified(pre: seq<byte>, rest: seq<byte>, beyond: nat -> byte, ev: Event)
    ensures var content: seq<byte> := [0xE9, 0x81, 0x83, 0x85];
            && ChannelNumberAt(content) == 3
            && Element(Frame(pre + Coded(24, content) + rest, beyond), |pre|, ev).1.chan == 3
  {
    hide Frame.Octet, Frame.Octets;
    var content: seq<byte> := [0xE9, 0x81, 0x83, 0x85];
    FixedOffset(pre, 24, content, rest, beyond, ev);
    OctetsInside(pre, Coded(24, content), rest, beyond, 4, 0);
    assert content[1..][0] == 0x81;
  }

  lemma NumberIndex(pre: seq<byte>, id: byte, content: seq<byte>, rest: seq<byte>, beyond: nat -> byte)
    requires id in {108, 112, 116} && |content| < 256
    ensures NextIndex(Frame(pre + Coded(id, content) + rest, beyond), |pre|)
         == |pre| + (if id == 108 then 4 else if id == 112 then 3 else 5) + DigitCount(|content|)
  {
    hide Ascii, Frame.Octet, Frame.Octets;
    OctetsInside(pre, Coded(id, content), rest, beyond, 0, 0);
    OctetsInside(pre, Coded(id, content), rest, beyond, 1, 0);
    var f := Frame(pre + Coded(id, content) + rest, beyond);
    assert NextIndex(f, |pre|) == Element(f, |pre|, BLANK).0;
  }

  /** An element left at its end, past it, or one octet before it. */
  lemma ReachesAfter(f: Frame, i: nat, end: nat)
    requires i < end <= NextIndex(f, i) + 1
    ensures Reaches(f, i, end) <==>
              NextIndex(f, i) == end || (NextIndex(f, i) == end - 1 && Plain(f.Octet(end - 1)))
  {
    var last: nat := end - 1;
    PlainLands(f, last, BLANK);
    assert NextIndex(f, last) == Element(f, last, BLANK).0;
    hide Element, Plain, Frame.Octet;
    assert Reaches(f, last, end) <==> NextIndex(f, last) == end;
    assert Reaches(f, i, end) <==> Reaches(f, NextIndex(f, i), end);
  }

  lemma LastOctet(pre: seq<byte>, id: byte, content: seq<byte>, rest: seq<byte>, beyond: nat -> byte)
    requires 0 < |content| < 256
    ensures Frame(pre + Coded(id, content) + rest, beyond).Octet(|pre| + 1 + |content|) == content[|content| - 1]
  {
    OctetsInside(pre, Coded(id, content), rest, beyond, 1 + |content|, 0);
  }

  lemma DigitCountIs(len: nat)
    ensures DigitCount(len) == if len >= 2 then len - 2 else 0
  {}

  /** Numbers of any content. The walk comes by the end of a calling number exactly when it
      has two octets; of a called number when it has one, or ends in a plain octet; of a
      redirecting number never. */
  lemma NumberLandsIff(pre: seq<byte>, id: byte, content: seq<byte>, rest: seq<byte>, beyond: nat -> byte)
    requires id in {108, 112, 116} && |content| < 256
    ensures Reaches(Frame(pre + Coded(id, content) + rest, beyond), |pre|, |pre| + 2 + |content|)
            <==> if id == 108 then |content| >= 2
                 else if id == 112 then |content| == 1 || (|content| >= 2 && Plain(content[|content| - 1]))
                 else false
  {
    hide Element, DigitCount, Coded, Frame.Octet, Frame.Octets, NextIndex, Plain, Reaches;
    NumberIndex(pre, id, content, rest, beyond);
    DigitCountIs(|content|);
    ReachesAfter(Frame(pre + Coded(id, content) + rest, beyond), |pre|, |pre| + 2 + |content|);
    if content != [] {
      LastOctet(pre, id, content, rest, beyond);
    }
  }

  /** What is reported for the octet that holds a channel number in its low seven bits. */
  function ReportedChannel(o: byte): int {
    if o / 16 % 2 == 0 then o % 16 else -1
  }

  /** That is the channel number exactly for channels below 16. */
  lemma ChannelIff(o: byte)
    ensures ReportedChannel(o) == o % 128 <==> o % 128 < 16
  {
    var n := if o >= 128 then o - 128 else o;
    var high, low := n / 16, n % 16;
    assert o % 128 == n == 16 * high + low && o % 16 == low;
    assert o / 16 == if o >= 128 then high + 8 else high;
    assert o / 16 % 2 == high % 2;
  }

  /** Channels 16 and 33 of a primary rate interface. */
  lemma ChannelsMisreported()
    ensures ReportedChannel(0x80 + 16) == -1 && ReportedChannel(0x80 + 33) == 1
  {}

  // ---- Well-formed frames --------------------------------------------------------

  /** Information elements: one octet with bit 8 set; an element that is stepped over; a
      cause; a channel identification of three octets, the last the channel number; a called
      party number; and a calling party number with octet 3a or without. */
  datatype Ie =
    | OneOctet(octet: byte)
    | Skipped(id: byte, content: seq<byte>)
    | Cause(causeContent: seq<byte>)
    | ChannelId(interfaceType: byte, channelType: byte, channel: byte)
    | CalledNumber(octet3: byte, digits: seq<byte>)
    | CallingNumber(octet3: byte, presentation: nat, screening: nat, digits: seq<byte>)
    | ShortCallingNumber(octet3: byte, digits: seq<byte>)

  /** callRef of at most two octets and numbers of at most 31 digits are what the event's
      buffers hold. */
  datatype Message = Message(address: seq<byte>, spare: nat, callRef: seq<byte>, msgType: byte, elements: seq<Ie>)

  const DIGIT_4: byte := 0x34

  ghost predicate Decimals(digits: seq<byte>) {
    forall k :: 0 <= k < |digits| ==> 0x30 <= digits[k] <= 0x39
  }

  ghost predicate Printable(digits: seq<byte>) {
    |digits| <= 31 && forall k :: 0 <= k < |digits| ==> 0x20 <= digits[k] <= 0x7E
  }

  ghost predicate AllPlain(s: seq<byte>) {
    forall k :: 0 <= k < |s| ==> Plain(s[k])
  }

  /** A channel number carries its extension bit; in a cause all octets after the first are
      plain, as they are without diagnostics, when octets 3a and 4 have bit 8 set. */
  ghost predicate WellFormedIe(e: Ie) {
    match e
    case OneOctet(o) => o >= 128
    case Skipped(id, content) => DontCare(id) && |content| < 256
    case Cause(content) => 2 <= |content| < 256 && AllPlain(content[1..])
    case ChannelId(_, _, channel) => channel >= 128
    case CalledNumber(_, digits) => 1 <= |digits| <= 31 && Decimals(digits)
    case CallingNumber(_, presentation, screening, digits) => presentation < 4 && screening < 4 && Printable(digits)
    case ShortCallingNumber(_, digits) => digits != [] && Printable(digits)
  }

  /** Called numbers that throw the walk out of step; CalledNumberIff says why. */
  predicate EndsInFour(e: Ie) {
    e.CalledNumber? && e.digits != [] && e.digits[|e.digits| - 1] == DIGIT_4
  }

  /** Such a number may only come last, where it does no harm. */
  ghost predicate WellFormedIes(es: seq<Ie>) {
    forall k :: 0 <= k < |es| ==> WellFormedIe(es[k]) && (EndsInFour(es[k]) ==> k == |es| - 1)
  }

  ghost predicate WellFormed(m: Message) {
    |m.address| == 4 && m.spare < 16 && |m.callRef| <= 2 && WellFormedIes(m.elements)
  }

  /** Octet 3a of a calling number: extension bit, presentation in bits 7 and 6, screening
      in bits 2 and 1. */
  function Octet3a(presentation: nat, screening: nat): (o: byte)
    requires presentation < 4 && screening < 4
  {
    128 + 32 * presentation + screening
  }

  ghost function IeOctets(e: Ie): (r: seq<byte>)
    requires WellFormedIe(e)
    ensures r != []
  {
    match e
    case OneOctet(o) => [o]
    case Skipped(id, content) => [id, |content|] + content
    case Cause(content) => Coded(8, content)
    case ChannelId(o3, o4, o5) => Coded(24, [o3, o4, o5])
    case CalledNumber(o3, digits) => [112, 1 + |digits|, o3] + digits
    case CallingNumber(o3, presentation, screening, digits) =>
      [108, 2 + |digits|, o3, Octet3a(presentation, screening)] + digits
    case ShortCallingNumber(o3, digits) => [108, 1 + |digits|, o3] + digits
  }

  ghost function AllOctets(es: seq<Ie>): seq<byte>
    requires WellFormedIes(es)
  {
    if es == [] then [] else IeOctets(es[0]) + AllOctets(es[1..])
  }

  ghost function Head(m: Message): (r: seq<byte>)
    requires WellFormed(m)
    ensures |r| == 7 + |m.callRef|
  {
    m.address + [8, 16 * m.spare + |m.callRef|] + m.callRef + [m.msgType]
  }

  ghost function Encode(m: Message): seq<byte>
    requires WellFormed(m)
  {
    Head(m) + AllOctets(m.elements)
  }

  function DropFirst(digits: seq<byte>): seq<byte> {
    if digits == [] then [] else digits[1..]
  }

  function DropLast(digits: seq<byte>): seq<byte> {
    if digits == [] then [] else digits[..|digits| - 1]
  }

  /** What an element changes in the event. A called number loses its last digit, because
      the decoder counts two descriptive octets where there is one; a calling number without
      octet 3a loses its first digit, which is taken for that octet; and with it, screening
      and presentation change places. */
  function Effect(e: Ie, ev: Event): Event {
    match e
    case OneOctet(_) => ev
    case Skipped(_, _) => ev
    case Cause(content) => ev.(cause := if |content| > 1 then content[1] % 128 else 0)
    case ChannelId(_, _, o5) => ev.(chan := ReportedChannel(o5))
    case CalledNumber(_, digits) =>
      ev.(calledCount := |DropLast(digits)|, called := Characters(DropLast(digits)))
    case CallingNumber(_, presentation, screening, digits) =>
      ev.(callingCount := |digits|, calling := Characters(digits),
          screening := 32 * presentation, presentation := screening)
    case ShortCallingNumber(_, digits) =>
      var first: byte := if digits == [] then 0 else digits[0];
      ev.(callingCount := |DropFirst(digits)|, calling := Characters(DropFirst(digits)),
          screening := first / 32 % 4 * 32, presentation := first % 4)
  }

  function Effects(es: seq<Ie>, ev: Event): Event {
    if es == [] then ev else Effects(es[1..], Effect(es[0], ev))
  }

  // ---- One element ---------------------------------------------------------------

  lemma WellFormedFits(pre: seq<byte>, e: Ie, rest: seq<byte>, beyond: nat -> byte)
    requires WellFormedIe(e)
    ensures ElementFits(Frame(pre + IeOctets(e) + rest, beyond), |pre|)
  {
    hide Frame.Octet, Frame.Octets;
    OctetsInside(pre, IeOctets(e), rest, beyond, 0, 0);
    if !e.OneOctet? {
      OctetsInside(pre, IeOctets(e), rest, beyond, 1, 0);
    }
  }

  lemma CallingNumberLands(pre: seq<byte>, e: Ie, rest: seq<byte>, beyond: nat -> byte, ev: Event)
    requires WellFormedIe(e) && e.CallingNumber?
    ensures Element(Frame(pre + IeOctets(e) + rest, beyond), |pre|, ev) == (|pre| + |IeOctets(e)|, Effect(e, ev))
  {
    hide Ascii, Characters, Frame.Octet, Frame.Octets;
    var mid, n := IeOctets(e), |e.digits|;
    OctetsInside(pre, mid, rest, beyond, 0, 0);
    OctetsInside(pre, mid, rest, beyond, 1, 0);
    OctetsInside(pre, mid, rest, beyond, 3, 0);
    OctetsInside(pre, mid, rest, beyond, 4, n);
    assert mid[4..4 + n] == e.digits;
    AsciiIsCharacters(e.digits);
    Octet3aParts(e.presentation, e.screening);
  }

  lemma Octet3aParts(presentation: nat, screening: nat)
    requires presentation < 4 && screening < 4
    ensures Octet3a(presentation, screening) / 32 % 4 == presentation && Octet3a(presentation, screening) % 4 == screening
  {}

  /** A calling number without octet 3a: the walk is in step exactly when it has a digit,
      and then the first digit is missing. */
  lemma ShortCallingNumberIff(pre: seq<byte>, o3: byte, digits: seq<byte>, rest: seq<byte>, beyond: nat -> byte, ev: Event)
    requires Printable(digits)
    ensures var mid := [108, 1 + |digits|, o3] + digits;
            var (next, ev') := Element(Frame(pre + mid + rest, beyond), |pre|, ev);
            && (next == |pre| + |mid| <==> digits != [])
            && ev'.calling == Characters(DropFirst(digits)) && ev'.callingCount == |digits| - 1
            && (ev'.calling == Characters(digits) <==> digits == [])
            && (digits != [] ==> ev' == Effect(ShortCallingNumber(o3, digits), ev))
  {
    hide Ascii, Characters, Frame.Octet, Frame.Octets;
    var mid, n := [108, 1 + |digits|, o3] + digits, |digits|;
    OctetsInside(pre, mid, rest, beyond, 0, 0);
    OctetsInside(pre, mid, rest, beyond, 1, 0);
    if digits != [] {
      OctetsInside(pre, mid, rest, beyond, 3, 0);
      OctetsInside(pre, mid, rest, beyond, 4, n - 1);
      assert mid[4..4 + (n - 1)] == digits[1..];
      AsciiIsCharacters(digits[1..]);
    } else {
      NoCharacters(Frame(pre + mid + rest, beyond), |pre| + 4);
    }
  }

  lemma NoCharacters(f: Frame, i: nat)
    ensures Ascii(f.Octets(i, 0)) == Characters([]) == ""
  {}

  lemma SingleLands(pre: seq<byte>, e: Ie, rest: seq<byte>, beyond: nat -> byte, ev: Event)
    requires WellFormedIe(e) && e.OneOctet?
    ensures Element(Frame(pre + IeOctets(e) + rest, beyond), |pre|, ev) == (|pre| + |IeOctets(e)|, Effect(e, ev))
  {
    hide Element, Frame.Octet, Frame.Octets;
    OctetsInside(pre, IeOctets(e), rest, beyond, 0, 0);
    OneOctetLands(Frame(pre + IeOctets(e) + rest, beyond), |pre|, ev);
  }

  lemma SkippedLands(pre: seq<byte>, e: Ie, rest: seq<byte>, beyond: nat -> byte, ev: Event)
    requires WellFormedIe(e) && e.Skipped?
    ensures Element(Frame(pre + IeOctets(e) + rest, beyond), |pre|, ev) == (|pre| + |IeOctets(e)|, Effect(e, ev))
  {
    hide Frame.Octet, Frame.Octets;
    OctetsInside(pre, IeOctets(e), rest, beyond, 0, 0);
    OctetsInside(pre, IeOctets(e), rest, beyond, 1, 0);
  }

  /** Cause and channel identification are left before their end, on octets that the walk
      then passes over one at a time. */
  lemma CauseOrChannelLands(pre: seq<byte>, e: Ie, rest: seq<byte>, beyond: nat -> byte, ev: Event)
    requires WellFormedIe(e) && (e.Cause? || e.ChannelId?)
    ensures var f, mid, k := Frame(pre + IeOctets(e) + rest, beyond), IeOctets(e), if e.Cause? then 3 else 4;
            Element(f, |pre|, ev) == (|pre| + k, Effect(e, ev)) && k <= |mid| && AllPlain(mid[k..])
  {
    hide Frame.Octet, Frame.Octets;
    if e.Cause? {
      FixedOffset(pre, 8, e.causeContent, rest, beyond, ev);
      OctetsInside(pre, IeOctets(e), rest, beyond, 3, 0);
      assert IeOctets(e)[3..] == e.causeContent[1..];
    } else {
      FixedOffset(pre, 24, [e.interfaceType, e.channelType, e.channel], rest, beyond, ev);
      OctetsInside(pre, IeOctets(e), rest, beyond, 4, 0);
    }
  }

  lemma {:induction false} WalkPlain(pre: seq<byte>, s: seq<byte>, rest: seq<byte>, beyond: nat -> byte, ev: Event)
    requires AllPlain(s)
    ensures var f := Frame(pre + s + rest, beyond); Leads(f, |pre|, ev, |pre| + |s|, ev)
    decreases |s|
  {
    if s != [] {
      hide Element, Plain, Walk, Frame.Octet, Frame.Octets;
      var f := Frame(pre + s + rest, beyond);
      OctetsInside(pre, s, rest, beyond, 0, 0);
      PlainLands(f, |pre|, ev);
      WalkOnce(f, |pre|, |pre| + 1, ev, ev);
      Regroup(pre, s, 1, rest);
      WalkPlain(pre + s[..1], s[1..], rest, beyond, ev);
    }
  }

  /** A called number is left at its last digit, with that digit missing. */
  lemma CalledNumberFallsShort(pre: seq<byte>, o3: byte, digits: seq<byte>, rest: seq<byte>, beyond: nat -> byte, ev: Event)
    requires 1 <= |digits| <= 31 && Decimals(digits)
    ensures var mid := [112, 1 + |digits|, o3] + digits;
            var f, last := Frame(pre + mid + rest, beyond), |pre| + |mid| - 1;
            Element(f, |pre|, ev) == (last, Effect(CalledNumber(o3, digits), ev)) && f.Octet(last) == digits[|digits| - 1]
  {
    hide Ascii, Characters, Frame.Octet, Frame.Octets;
    var mid, n := [112, 1 + |digits|, o3] + digits, |digits|;
    OctetsInside(pre, mid, rest, beyond, 0, 0);
    OctetsInside(pre, mid, rest, beyond, 1, 0);
    OctetsInside(pre, mid, rest, beyond, 2 + n, 0);
    OctetsInside(pre, mid, rest, beyond, 3, n - 1);
    assert mid[3..3 + (n - 1)] == digits[..n - 1];
    AsciiIsCharacters(digits[..n - 1]);
  }

  /** A redirecting number is left one octet late: the octet after it, whatever it is, has
      become its last digit. */
  lemma RedirectingNumberOvershoots(pre: seq<byte>, head: seq<byte>, digits: seq<byte>, rest: seq<byte>, beyond: nat -> byte, ev: Event)
    requires |head| == 3 && |digits| <= 252
    ensures var mid := [116, 3 + |digits|] + head + digits;
            var f, end := Frame(pre + mid + rest, beyond), |pre| + |mid|;
            Element(f, |pre|, ev) ==
              (end + 1, ev.(rdnisCount := |digits| + 1, rdnis := Ascii(digits) + [Ia5(f.Octet(end))]))
  {
    hide Ascii, Ia5, Frame.Octet, Frame.Octets;
    var mid, n := [116, 3 + |digits|] + head + digits, |digits|;
    OctetsInside(pre, mid, rest, beyond, 0, 0);
    OctetsInside(pre, mid, rest, beyond, 1, 0);
    OctetsInside(pre, mid, rest, beyond, 5, n);
    assert mid[5..5 + n] == digits;
    AsciiSnoc(Frame(pre + mid + rest, beyond), |pre| + 5, n);
  }

  lemma AsciiSnoc(f: Frame, i: nat, n: nat)
    ensures Ascii(f.Octets(i, n + 1)) == Ascii(f.Octets(i, n)) + [Ia5(f.Octet(i + n))]
  {
    assert f.Octets(i, n + 1)[..n] == f.Octets(i, n);
  }

  lemma DigitAsElement(f: Frame, i: nat, ev: Event)
    requires 0x30 <= f.Octet(i) <= 0x39
    ensures Element(f, i, ev) == (if f.Octet(i) == DIGIT_4 then i + 2 + f.Octet(i + 1) else i + 1, ev)
  {}

  /** After a called number of decimal digits the walk is back at the next element exactly
      when the last digit is not 4, which the decoder takes for a signal element. */
  lemma CalledNumberIff(pre: seq<byte>, o3: byte, digits: seq<byte>, rest: seq<byte>, beyond: nat -> byte, ev: Event)
    requires 1 <= |digits| <= 31 && Decimals(digits)
    ensures var mid := [112, 1 + |digits|, o3] + digits;
            var f := Frame(pre + mid + rest, beyond);
            var (last, ev') := Element(f, |pre|, ev);
            Element(f, last, ev').0 == |pre| + |mid| <==> digits[|digits| - 1] != DIGIT_4
  {
    hide Element, Effect;
    CalledNumberFallsShort(pre, o3, digits, rest, beyond, ev);
    var f := Frame(pre + ([112, 1 + |digits|, o3] + digits) + rest, beyond);
    DigitAsElement(f, |pre| + 2 + |digits|, Effect(CalledNumber(o3, digits), ev));
  }

  lemma WalkCauseOrChannel(pre: seq<byte>, e: Ie, rest: seq<byte>, beyond: nat -> byte, ev: Event)
    requires WellFormedIe(e) && (e.Cause? || e.ChannelId?)
    ensures var f := Frame(pre + IeOctets(e) + rest, beyond);
            Leads(f, |pre|, ev, |pre| + |IeOctets(e)|, Effect(e, ev))
  {
    hide Element, Effect, Walk, AllPlain;
    var f, mid, k := Frame(pre + IeOctets(e) + rest, beyond), IeOctets(e), if e.Cause? then 3 else 4;
    CauseOrChannelLands(pre, e, rest, beyond, ev);
    WellFormedFits(pre, e, rest, beyond);
    WalkOnce(f, |pre|, |pre| + k, ev, Effect(e, ev));
    Regroup(pre, mid, k, rest);
    WalkPlain(pre + mid[..k], mid[k..], rest, beyond, Effect(e, ev));
  }

  /** From its last digit on, the walk after a called number comes to the same. */
  lemma WalkLastDigit(f: Frame, last: nat, ev: Event)
    requires last < |f.data| && 0x30 <= f.Octet(last) <= 0x39
    requires f.Octet(last) == DIGIT_4 ==> last + 1 == |f.data|
    ensures Leads(f, last, ev, last + 1, ev)
  {
    hide Element;
    DigitAsElement(f, last, ev);
    NextSame(f, last, ev);
    NoNumberFits(f, last);
    var next := Element(f, last, BLANK).0;
    assert NumbersFit(f, last) <==> NumbersFit(f, next);
    assert Walk(f, last, ev) == Walk(f, next, ev);
    if f.Octet(last) == DIGIT_4 {
      assert NumbersFit(f, next) && Walk(f, next, ev) == ev == Walk(f, last + 1, ev);
    } else {
      assert next == last + 1;
    }
  }

  lemma WalkCalledNumber(pre: seq<byte>, e: Ie, rest: seq<byte>, beyond: nat -> byte, ev: Event)
    requires WellFormedIe(e) && e.CalledNumber? && (EndsInFour(e) ==> rest == [])
    ensures var f := Frame(pre + IeOctets(e) + rest, beyond);
            Leads(f, |pre|, ev, |pre| + |IeOctets(e)|, Effect(e, ev))
  {
    hide Element, Effect, Walk, Frame.Octet, Frame.Octets;
    var f, end := Frame(pre + IeOctets(e) + rest, beyond), |pre| + |IeOctets(e)|;
    CalledNumberFallsShort(pre, e.octet3, e.digits, rest, beyond, ev);
    WellFormedFits(pre, e, rest, beyond);
    WalkOnce(f, |pre|, end - 1, ev, Effect(e, ev));
    WalkLastDigit(f, end - 1, Effect(e, ev));
  }

  lemma ShortCallingNumberLands(pre: seq<byte>, e: Ie, rest: seq<byte>, beyond: nat -> byte, ev: Event)
    requires WellFormedIe(e) && e.ShortCallingNumber?
    ensures Element(Frame(pre + IeOctets(e) + rest, beyond), |pre|, ev) == (|pre| + |IeOctets(e)|, Effect(e, ev))
  {
    hide Element, Effect;
    ShortCallingNumberIff(pre, e.octet3, e.digits, rest, beyond, ev);
  }

  /** The walk passes from the start of each well-formed element to the start of the next. */
  lemma WalkElement(pre: seq<byte>, e: Ie, rest: seq<byte>, beyond: nat -> byte, ev: Event)
    requires WellFormedIe(e) && (EndsInFour(e) ==> rest == [])
    ensures var f := Frame(pre + IeOctets(e) + rest, beyond);
            Leads(f, |pre|, ev, |pre + IeOctets(e)|, Effect(e, ev))
  {
    hide IeOctets, Element, Effect, Walk, Frame.Octet, Frame.Octets;
    match e
    case CalledNumber(_, _) =>
      WalkCalledNumber(pre, e, rest, beyond, ev);
    case Cause(_) =>
      WalkCauseOrChannel(pre, e, rest, beyond, ev);
    case ChannelId(_, _, _) =>
      WalkCauseOrChannel(pre, e, rest, beyond, ev);
    case _ =>
      if e.OneOctet? { SingleLands(pre, e, rest, beyond, ev); }
      if e.Skipped? { SkippedLands(pre, e, rest, beyond, ev); }
      if e.CallingNumber? { CallingNumberLands(pre, e, rest, beyond, ev); }
      if e.ShortCallingNumber? { ShortCallingNumberLands(pre, e, rest, beyond, ev); }
      var f := Frame(pre + IeOctets(e) + rest, beyond);
      WellFormedFits(pre, e, rest, beyond);
      WalkOnce(f, |pre|, |pre| + |IeOctets(e)|, ev, Effect(e, ev));
  }

  // ---- Whole frames --------------------------------------------------------------

  lemma AllOctetsFirst(pre: seq<byte>, es: seq<Ie>)
    requires es != [] && WellFormedIes(es)
    ensures WellFormedIe(es[0]) && WellFormedIes(es[1..])
    ensures pre + AllOctets(es) == pre + IeOctets(es[0]) + AllOctets(es[1..])
    ensures EndsInFour(es[0]) ==> AllOctets(es[1..]) == []
  {
    hide IeOctets, WellFormedIe;
  }

  lemma {:induction false} WalkElements(pre: seq<byte>, es: seq<Ie>, beyond: nat -> byte, ev: Event)
    requires WellFormedIes(es)
    ensures var f := Frame(pre + AllOctets(es), beyond);
            Walk(f, |pre|, ev) == Effects(es, ev) && NumbersFit(f, |pre|)
    decreases |es|
  {
    if es != [] {
      hide Element, Effect, IeOctets, WellFormedIe, EndsInFour, Walk;
      AllOctetsFirst(pre, es);
      WalkElement(pre, es[0], AllOctets(es[1..]), beyond, ev);
      WalkElements(pre + IeOctets(es[0]), es[1..], beyond, Effect(es[0], ev));
    }
  }

  lemma HeadParts(m: Message)
    requires WellFormed(m)
    ensures var h, n := Head(m), |m.callRef|;
            h[4] == 8 && h[5] == 16 * m.spare + n && h[6 + n] == m.msgType && h[6..6 + n] == m.callRef
  {}

  lemma HeadOctets(m: Message, beyond: nat -> byte)
    requires WellFormed(m)
    ensures var f, n := Frame(Encode(m), beyond), |m.callRef|;
            && |f.data| >= 5 && f.data[4] == 8
            && f.Octet(5) % 16 == n && f.Octet(6 + n) == m.msgType && f.Octets(6, n) == m.callRef
  {
    hide Head, AllOctets, Frame.Octet, Frame.Octets;
    var h, rest, n := Head(m), AllOctets(m.elements), |m.callRef|;
    HeadParts(m);
    assert [] + h + rest == Encode(m);
    assert Encode(m)[4] == h[4];
    OctetsInside([], h, rest, beyond, 5, 0);
    OctetsInside([], h, rest, beyond, 6 + n, 0);
    OctetsInside([], h, rest, beyond, 6, n);
  }

  /** The event before the first element. */
  ghost function Begun(m: Message): Event
    requires WellFormed(m)
  {
    BLANK.(data := Encode(m), callRef := Hex(m.callRef), msgType := MessageName(m.msgType))
  }

  /** Every well-formed frame decodes to its own call reference and message type and, element
      by element, to the effects above, whatever follows it in memory. */
  lemma DecodeOfEncode(m: Message, beyond: nat -> byte)
    requires WellFormed(m)
    ensures var f := Frame(Encode(m), beyond);
            && |f.data| >= 5 && f.data[4] == 8
            && ReadsAs(Decode(f).callRef, m.callRef)
            && f.Octet(6 + f.Octet(5) % 16) == m.msgType && Decode(f).msgType == MessageName(m.msgType)
            && Decode(f) == Effects(m.elements, Begun(m))
  {
    hide Element, MessageName, Hex, ReadsAs, Effects, Head, AllOctets, NumbersFit, Frame.Octet, Frame.Octets;
    HeadOctets(m, beyond);
    WalkElements(Head(m), m.elements, beyond, Begun(m));
    HexReadsBack(m.callRef);
    EffectsKeep(m.elements, Begun(m));
  }

  /** And if it has at most 8188 octets, every write stays in its array. */
  lemma WellFormedInside(m: Message, beyond: nat -> byte)
    requires WellFormed(m) && |Encode(m)| <= 8188
    ensures AllInside(FrameCells(Frame(Encode(m), beyond)))
  {
    hide Element, MessageName, Head, AllOctets, NumbersFit, FrameCells, AllInside, Frame.Octet, Frame.Octets;
    HeadOctets(m, beyond);
    WalkElements(Head(m), m.elements, beyond, BLANK);
    FrameFitsIff(Frame(Encode(m), beyond));
  }

  lemma {:induction false} EffectsKeep(es: seq<Ie>, ev: Event)
    ensures var r := Effects(es, ev);
            && r.data == ev.data && r.callRef == ev.callRef && r.msgType == ev.msgType
            && r.rdnisCount == ev.rdnisCount && r.rdnis == ev.rdnis
    decreases |es|
  {
    if es != [] {
      EffectsKeep(es[1..], Effect(es[0], ev));
    }
  }

  predicate IsCalling(e: Ie) {
    e.CallingNumber? || e.ShortCallingNumber?
  }

  lemma {:induction false} NoCallingNumber(es: seq<Ie>, ev: Event)
    requires forall j :: 0 <= j < |es| ==> !IsCalling(es[j])
    ensures var r := Effects(es, ev);
            && r.callingCount == ev.callingCount && r.calling == ev.calling
            && r.screening == ev.screening && r.presentation == ev.presentation
    decreases |es|
  {
    if es != [] {
      NoCallingNumber(es[1..], Effect(es[0], ev));
    }
  }

  /** Of several calling numbers the last one is reported: digit for digit if it has octet
      3a, without its first digit otherwise. Screening and presentation change places, and
      screening keeps its weight of 32, so they agree with what was sent exactly when both
      are 0 and when both are equal, respectively. */
  lemma {:induction false} LastCallingNumberWins(es: seq<Ie>, k: nat, ev: Event)
    requires k < |es| && IsCalling(es[k])
    requires es[k].CallingNumber? ==> es[k].presentation < 4 && es[k].screening < 4
    requires forall j :: k < j < |es| ==> !IsCalling(es[j])
    ensures var r := Effects(es, ev);
            match es[k] {
              case CallingNumber(_, presentation, screening, digits) =>
                && r.callingCount == |digits| && r.calling == Characters(digits)
                && r.screening == 32 * presentation && r.presentation == screening
                && (r.screening == screening <==> presentation == 0 && screening == 0)
                && (r.presentation == presentation <==> presentation == screening)
              case _ =>
                var digits := es[k].digits;
                r.callingCount == |DropFirst(digits)| && r.calling == Characters(DropFirst(digits))
            }
    decreases |es|
  {
    if k > 0 {
      LastCallingNumberWins(es[1..], k - 1, Effect(es[0], ev));
    } else {
      NoCallingNumber(es[1..], Effect(es[0], ev));
    }
  }

  lemma {:induction false} NoChannelId(es: seq<Ie>, ev: Event)
    requires forall j :: 0 <= j < |es| ==> !es[j].ChannelId?
    ensures Effects(es, ev).chan == ev.chan
    decreases |es|
  {
    if es != [] {
      NoChannelId(es[1..], Effect(es[0], ev));
    }
  }

  /** Of several channel identifications the last one is reported, and rightly so exactly
      when its channel is below 16. */
  lemma {:induction false} LastChannelWins(es: seq<Ie>, k: nat, ev: Event)
    requires k < |es| && es[k].ChannelId?
    requires forall j :: k < j < |es| ==> !es[j].ChannelId?
    ensures Effects(es, ev).chan == ReportedChannel(es[k].channel)
    ensures Effects(es, ev).chan == es[k].channel % 128 <==> es[k].channel % 128 < 16
    decreases |es|
  {
    if k > 0 {
      LastChannelWins(es[1..], k - 1, Effect(es[0], ev));
    } else {
      NoChannelId(es[1..], Effect(es[0], ev));
      ChannelIff(es[k].channel);
    }
  }

  lemma {:induction false} NoCause(es: seq<Ie>, ev: Event)
    requires forall j :: 0 <= j < |es| ==> !es[j].Cause?
    ensures Effects(es, ev).cause == ev.cause
    decreases |es|
  {
    if es != [] {
      NoCause(es[1..], Effect(es[0], ev));
    }
  }

  /** Of several causes the last one is reported, and its octet 4 exactly when that is not
      preceded by an octet 3a of another value. */
  lemma {:induction false} LastCauseWins(es: seq<Ie>, k: nat, ev: Event)
    requires k < |es| && es[k].Cause? && WellFormedIe(es[k])
    requires forall j :: k < j < |es| ==> !es[j].Cause?
    ensures var r, content := Effects(es, ev).cause, es[k].causeContent;
            && r == content[1] % 128
            && (CauseValueAt(content) < |content| ==>
                  (r == content[CauseValueAt(content)] % 128 <==> content[0] >= 128 || content[1] % 128 == content[2] % 128))
    decreases |es|
  {
    if k > 0 {
      LastCauseWins(es[1..], k - 1, Effect(es[0], ev));
    } else {
      NoCause(es[1..], Effect(es[0], ev));
    }
  }

  // ---- What is reported, in literals ---------------------------------------------

  lemma {:induction false} WalkKeepsHead(f: Frame, i: nat, ev: Event)
    ensures var r := Walk(f, i, ev); r.msgType == ev.msgType && r.callRef == ev.callRef && r.data == ev.data
    decreases |f.data| - i
  {
    if i < |f.data| {
      ElementKeepsHead(f, i, ev);
      hide Element;
      WalkKeepsHead(f, Element(f, i, ev).0, Element(f, i, ev).1);
    }
  }

  lemma ElementKeepsHead(f: Frame, i: nat, ev: Event)
    ensures var r := Element(f, i, ev).1; r.msgType == ev.msgType && r.callRef == ev.callRef && r.data == ev.data
  {
    hide Ascii, Frame.Octet, Frame.Octets;
  }

  /** The message type of any frame: the octet after the call reference, by its name. */
  lemma ReportedType(f: Frame)
    ensures var o, t := f.Octet(6 + f.Octet(5) % 16), Decode(f).msgType;
            && (o == 1 ==> t == "ALERTING")
            && (o == 2 ==> t == "CALL_PROCEEDING")
            && (o == 3 ==> t == "PROGRESS")
            && (o == 5 ==> t == "SETUP")
            && (o == 7 ==> t == "CONNECT")
            && (o == 13 ==> t == "SETUP_ACK")
            && (o == 15 ==> t == "CONNECT_ACK")
            && (o == 32 ==> t == "USER_INFO")
            && (o == 33 ==> t == "SUSPEND_REJ")
            && (o == 34 ==> t == "RESUME_REJ")
            && (o == 37 ==> t == "SUSPEND")
            && (o == 38 ==> t == "RESUME")
            && (o == 45 ==> t == "SUSPEND_ACK")
            && (o == 46 ==> t == "RESUME_ACK")
            && (o == 69 ==> t == "DISCONNECT")
            && (o == 70 ==> t == "RESTART")
            && (o == 77 ==> t == "RELEASE")
            && (o == 78 ==> t == "RELEASE_ACK")
            && (o == 90 ==> t == "RELEASE_COMPL")
            && (o == 96 ==> t == "SEGMENT")
            && (o == 110 ==> t == "NOTIFY")
            && (o == 117 ==> t == "STATUS_ENQUIRY")
            && (o == 121 ==> t == "CONGEST_CNTRL")
            && (o == 123 ==> t == "INFORMATION")
            && (o == 125 ==> t == "STATUS")
            && (o !in {1, 2, 3, 5, 7, 13, 15, 32, 33, 34, 37, 38, 45, 46, 69, 70, 77, 78, 90, 96, 110, 117, 121, 123, 125} ==>
                  t == "UNKNOWN")
  {
    hide Walk, MessageName, Hex, Frame.Octet, Frame.Octets;
    var len := f.Octet(5) % 16;
    var o := f.Octet(6 + len);
    WalkKeepsHead(f, 7 + len, BLANK.(data := f.data, callRef := Hex(f.Octets(6, len)), msgType := MessageName(o)));
    NameOf(o);
  }

  lemma NameOf(o: byte)
    ensures var t := MessageName(o);
            && (o == 1 ==> t == "ALERTING")
            && (o == 2 ==> t == "CALL_PROCEEDING")
            && (o == 3 ==> t == "PROGRESS")
            && (o == 5 ==> t == "SETUP")
            && (o == 7 ==> t == "CONNECT")
            && (o == 13 ==> t == "SETUP_ACK")
            && (o == 15 ==> t == "CONNECT_ACK")
            && (o == 32 ==> t == "USER_INFO")
            && (o == 33 ==> t == "SUSPEND_REJ")
            && (o == 34 ==> t == "RESUME_REJ")
            && (o == 37 ==> t == "SUSPEND")
            && (o == 38 ==> t == "RESUME")
            && (o == 45 ==> t == "SUSPEND_ACK")
            && (o == 46 ==> t == "RESUME_ACK")
            && (o == 69 ==> t == "DISCONNECT")
            && (o == 70 ==> t == "RESTART")
            && (o == 77 ==> t == "RELEASE")
            && (o == 78 ==> t == "RELEASE_ACK")
            && (o == 90 ==> t == "RELEASE_COMPL")
            && (o == 96 ==> t == "SEGMENT")
            && (o == 110 ==> t == "NOTIFY")
            && (o == 117 ==> t == "STATUS_ENQUIRY")
            && (o == 121 ==> t == "CONGEST_CNTRL")
            && (o == 123 ==> t == "INFORMATION")
            && (o == 125 ==> t == "STATUS")
            && (o !in {1, 2, 3, 5, 7, 13, 15, 32, 33, 34, 37, 38, 45, 46, 69, 70, 77, 78, 90, 96, 110, 117, 121, 123, 125} ==>
                  t == "UNKNOWN")
  {}

  /** The message type a name stands for, 0 for "UNKNOWN". */
  function TypeOf(t: string): byte {
    match |t|
    case 5 => 5
    case 6 => if t[0] == 'R' then 38 else if t[0] == 'N' then 110 else 125
    case 7 =>
      if t[0] == 'C' then 7 else if t[0] == 'U' then 0
      else if t[0] == 'S' then if t[1] == 'U' then 37 else 96
      else if t[2] == 'S' then 70 else 77
    case 8 => if t[0] == 'A' then 1 else 3
    case 9 => if t[0] == 'S' then 13 else 32
    case 10 => if t[0] == 'D' then 69 else if t[7] == 'R' then 34 else 46
    case 11 =>
      if t[0] == 'C' then 15 else if t[0] == 'R' then 78 else if t[0] == 'I' then 123
      else if t[8] == 'R' then 33 else 45
    case 13 => if t[0] == 'R' then 90 else 121
    case 14 => 117
    case 15 => 2
    case _ => 0
  }

  /** No two named message types have the same name, or that of the unnamed ones. */
  lemma TypeOfName(o: byte)
    ensures TypeOf(MessageName(o)) ==
            if o in {1, 2, 3, 5, 7, 13, 15, 32, 33, 34, 37, 38, 45, 46, 69, 70, 77, 78, 90, 96, 110, 117, 121, 123, 125} then o else 0
  {}

  /** So the message type of a well-formed frame can be read back from the name reported. */
  lemma TypeOfEncode(m: Message, beyond: nat -> byte)
    requires WellFormed(m)
    ensures TypeOf(Decode(Frame(Encode(m), beyond)).msgType) ==
            if m.msgType in {1, 2, 3, 5, 7, 13, 15, 32, 33, 34, 37, 38, 45, 46, 69, 70, 77, 78, 90, 96, 110, 117, 121, 123, 125}
            then m.msgType else 0
    ensures m.msgType == 5 ==> Decode(Frame(Encode(m), beyond)).msgType == "SETUP"
    ensures m.msgType == 7 ==> Decode(Frame(Encode(m), beyond)).msgType == "CONNECT"
    ensures m.msgType == 69 ==> Decode(Frame(Encode(m), beyond)).msgType == "DISCONNECT"
    ensures m.msgType == 77 ==> Decode(Frame(Encode(m), beyond)).msgType == "RELEASE"
  {
    hide Decode, MessageName, TypeOf, Encode, Effects;
    DecodeOfEncode(m, beyond);
    ReportedType(Frame(Encode(m), beyond));
    TypeOfName(m.msgType);
  }

  /** Every octet that can begin an element, by number: elements that are stepped over by their
      length (bearer capability 4 to escape for extension 127), the five that are read, and
      octets that are passed over alone. */
  lemma ElementKinds(f: Frame, i: nat, ev: Event)
    ensures var o, (next, ev') := f.Octet(i), Element(f, i, ev);
            && (o in {4, 16, 20, 30, 32, 39, 40, 41, 44, 52, 64, 66, 67, 68, 69, 70, 71, 74, 109, 113, 120, 121, 124, 125, 126, 127}
                ==> next == i + 2 + f.Octet(i + 1) && ev' == ev)
            && (o in {8, 24, 108, 112, 116} ==> next >= i + 3)
            && (o in {4, 16, 20, 30, 32, 39, 40, 41, 44, 52, 64, 66, 67, 68, 69, 70, 71, 74, 109, 113, 120, 121, 124, 125, 126, 127}
                || o in {8, 24, 108, 112, 116} || (next == i + 1 && ev' == ev))
  {
    hide Ascii, Frame.Octets;
  }

  /** A frame without elements reports nothing else. */
  lemma NothingElse(m: Message, beyond: nat -> byte)
    requires WellFormed(m) && m.elements == []
    ensures var r := Decode(Frame(Encode(m), beyond));
            && r.chan == r.cause == r.screening == r.presentation == 0
            && r.callingCount == r.calledCount == r.rdnisCount == 0
            && r.calling == r.called == r.rdnis == ""
  {
    DecodeOfEncode(m, beyond);
  }

  lemma {:induction false} NoCalledNumber(es: seq<Ie>, ev: Event)
    requires forall j :: 0 <= j < |es| ==> !es[j].CalledNumber?
    ensures var r := Effects(es, ev); r.calledCount == ev.calledCount && r.called == ev.called
    decreases |es|
  {
    if es != [] {
      NoCalledNumber(es[1..], Effect(es[0], ev));
    }
  }

  /** Of several called numbers the last one is reported, without its last digit. */
  lemma {:induction false} LastCalledNumberWins(es: seq<Ie>, k: nat, ev: Event)
    requires k < |es| && es[k].CalledNumber? && es[k].digits != []
    requires forall j :: k < j < |es| ==> !es[j].CalledNumber?
    ensures var r, digits := Effects(es, ev), es[k].digits;
            && r.calledCount == |r.called| == |digits| - 1
            && forall i :: 0 <= i < |digits| - 1 ==> r.called[i] == digits[i] as char
    decreases |es|
  {
    if k > 0 {
      LastCalledNumberWins(es[1..], k - 1, Effect(es[0], ev));
    } else {
      NoCalledNumber(es[1..], Effect(es[0], ev));
    }
  }

  /** The call reference is written with upper-case digits. */
  lemma {:induction false} HexIsUpper(octets: seq<byte>)
    ensures forall k :: 0 <= k < |Hex(octets)| ==> '0' <= Hex(octets)[k] <= '9' || 'A' <= Hex(octets)[k] <= 'F'
  {
    if octets != [] {
      HexIsUpper(octets[..|octets| - 1]);
      UpperDigit(octets[|octets| - 1] / 16);
      UpperDigit(octets[|octets| - 1] % 16);
      hide HexDigit;
    }
  }

  lemma UpperDigit(d: nat)
    requires d < 16
    ensures HexDigit(d) == if d < 10 then ('0' as int + d) as char else ('A' as int + d - 10) as char
  {}
}

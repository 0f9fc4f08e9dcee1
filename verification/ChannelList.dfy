/** Channel lists such as 1-4.7-15: the printer that turns a timeslot bitmap into one and the
    parser that reads it back. A mask is the set of positions of its one bits; bitmaps have
    positions below 32, the unsigned long the parser returns has positions below 64. */
module ChannelList {
  import opened Words
  import opened Wrappers

  type Mask = set<nat>

  function Positions(lo: nat, hi: nat): (m: Mask)
    ensures forall k: nat :: k in m <==> lo <= k < hi
    decreases hi
  {
    if hi <= lo then {} else Positions(lo, hi - 1) + {hi - 1}
  }

  /** All 32 bits set. */
  const FULL: Mask := Positions(0, 32)

  // ---- Decimal numbers -----------------------------------------------------------

  predicate IsDigit(c: char) {
    '0' <= c <= '9'
  }

  function DigitValue(c: char): nat
    requires IsDigit(c)
  {
    (c as int - '0' as int) as nat
  }

  function Digit(d: nat): (c: char)
    requires d < 10
    ensures IsDigit(c) && DigitValue(c) == d
  {
    ('0' as int + d) as char
  }

  predicate AllDigits(s: string) {
    forall i :: 0 <= i < |s| ==> IsDigit(s[i])
  }

  /** printf %d of a channel number. */
  function Decimal(n: nat): (s: string)
    ensures s != [] && AllDigits(s)
    ensures n < 100 ==> |s| <= 2
  {
    if n < 10 then [Digit(n)] else Decimal(n / 10) + [Digit(n % 10)]
  }

  function ValueOf(s: string): nat
    requires AllDigits(s)
  {
    if s == [] then 0 else 10 * ValueOf(s[..|s| - 1]) + DigitValue(s[|s| - 1])
  }

  lemma {:induction false} ValueOfDecimal(n: nat)
    ensures ValueOf(Decimal(n)) == n
  {
    if n >= 10 {
      ValueOfDecimal(n / 10);
      assert Decimal(n)[..|Decimal(n)| - 1] == Decimal(n / 10);
    } else {
      assert Decimal(n)[..0] == [];
    }
  }

  /** Length of the run of digits s begins with. */
  function DigitRun(s: string): (n: nat)
    ensures n <= |s| && AllDigits(s[..n])
    ensures n < |s| ==> !IsDigit(s[n])
  {
    if s == [] || !IsDigit(s[0]) then 0
    else
      assert s[..1 + DigitRun(s[1..])] == [s[0]] + s[1..][..DigitRun(s[1..])];
      1 + DigitRun(s[1..])
  }

  /** strtoul saturates at ULONG_MAX; the assignment to channel keeps the low 32 bits. */
  function ToChannel(value: nat): int {
    Wrap32(if value > 0xFFFF_FFFF_FFFF_FFFF then 0xFFFF_FFFF_FFFF_FFFF else value)
  }

  // ---- The parser ----------------------------------------------------------------

  /** 1 << (channel - 1) widened from int to unsigned long: the shift count is taken modulo
      32, and bit 31 is the sign, which widening copies upwards. */
  function BitsOf(channel: int): Mask {
    var b := (channel - 1) % 32;
    if b == 31 then Positions(31, 64) else {b}
  }

  function RangeBits(start: int, stop: int): Mask
    decreases stop - start
  {
    if start > stop then {} else RangeBits(start, stop - 1) + BitsOf(stop)
  }

  /** channel_flag as two booleans, and the variables of parse_active_channel; endless says
      that the parser is stuck in a range loop. */
  datatype Parser = Parser(single: bool, range: bool, channel: int, start: int, mask: Mask, endless: bool)

  /** get_active_channels. */
  function Active(p: Parser): Mask {
    if !p.single && !p.range then {}
    else if p.range then RangeBits(p.start, p.channel)
    else BitsOf(p.channel)
  }

  /** The counter of a range loop, an int from start on, passes stop. */
  ghost predicate LoopEnds(start: int, stop: int) {
    exists k: nat :: Passed(start, stop, k)
  }

  ghost predicate Passed(start: int, stop: int, k: nat) {
    Wrap32(start + k) > stop
  }

  /** It does so for every stop but the largest int. */
  lemma LoopEndsIff(start: int, stop: int)
    requires INT32_MIN <= start <= INT32_MAX && INT32_MIN <= stop <= INT32_MAX
    ensures LoopEnds(start, stop) <==> stop < INT32_MAX
  {
    if stop < INT32_MAX {
      assert Passed(start, stop, INT32_MAX - start);
    }
  }

  predicate Endless(range: bool, stop: int) {
    range && stop >= INT32_MAX
  }

  /** None stands for a call that does not return. */
  method GetActiveChannels(single: bool, range: bool, start: int, stop: int) returns (r: Option<Mask>)
    ensures r == if Endless(range, stop) then None else Some(Active(Parser(single, range, stop, start, {}, false)))
  {
    var mask: Mask := {};
    if !single && !range {
      return Some(mask);
    }
    if range {
      if stop >= INT32_MAX {
        return None;
      }
      var i := start;
      while i <= stop
        invariant start <= i && (i <= stop + 1 || i == start)
        invariant mask == RangeBits(start, i - 1)
      {
        mask := mask + BitsOf(i);
        i := i + 1;
      }
      assert i > stop + 1 ==> RangeBits(start, i - 1) == RangeBits(start, stop) == {};
    } else {
      mask := BitsOf(stop);
    }
    r := Some(mask);
  }

  function Separate(p: Parser): Parser {
    p.(mask := p.mask + Active(p), endless := p.endless || Endless(p.range, p.channel), single := false, range := false)
  }

  function Dash(p: Parser): Parser {
    p.(range := true, start := p.channel)
  }

  function Number(p: Parser, value: nat): Parser {
    p.(channel := ToChannel(value), single := true)
  }

  /** The character loop. */
  function Scan(s: string, p: Parser): Parser
    decreases |s|
  {
    if s == [] then p
    else if IsDigit(s[0]) then
      var n := DigitRun(s);
      Scan(s[n..], Number(p, ValueOf(s[..n])))
    else if s[0] == '-' then Scan(s[1..], Dash(p))
    else Scan(s[1..], Separate(p))
  }

  const FRESH := Parser(false, false, 0, 0, {}, false)

  function Result(p: Parser): Option<Mask> {
    if p.endless then None else Some(p.mask)
  }

  function Parse(s: string): Option<Mask> {
    if s == "ALL" then Some(FULL) else Result(Separate(Scan(s, FRESH)))
  }

  lemma {:induction false} StuckForGood(s: string, p: Parser)
    requires p.endless
    ensures Scan(s, p).endless
    decreases |s|
  {
    hide Active, Endless;
    if s != [] {
      if IsDigit(s[0]) {
        StuckForGood(s[DigitRun(s)..], Number(p, ValueOf(s[..DigitRun(s)])));
      } else {
        StuckForGood(s[1..], if s[0] == '-' then Dash(p) else Separate(p));
      }
    }
  }

  /** strtoul from position i on, which holds a digit. */
  method Strtoul(s: string, i: nat) returns (value: nat, end: nat)
    requires i < |s| && IsDigit(s[i])
    ensures i < end <= |s| && end - i == DigitRun(s[i..])
    ensures AllDigits(s[i..end]) && value == ValueOf(s[i..end])
  {
    value, end := 0, i;
    while end < |s| && IsDigit(s[end])
      invariant i <= end <= |s| && AllDigits(s[i..end])
      invariant value == ValueOf(s[i..end])
    {
      assert s[i..end + 1] == s[i..end] + [s[end]];
      assert s[i..end + 1][..end - i] == s[i..end];
      value := 10 * value + DigitValue(s[end]);
      end := end + 1;
    }
    assert s[i..][..end - i] == s[i..end];
    RunEnds(s[i..], end - i);
  }

  lemma {:induction false} RunEnds(s: string, n: nat)
    requires n <= |s| && AllDigits(s[..n]) && (n < |s| ==> !IsDigit(s[n]))
    ensures DigitRun(s) == n
  {
    if n > 0 {
      assert IsDigit(s[..n][0]);
      assert s[1..][..n - 1] == s[..n][1..];
      RunEnds(s[1..], n - 1);
    }
  }

  lemma ScanStep(s: string, p: Parser)
    requires s != []
    ensures Scan(s, p) ==
            if IsDigit(s[0]) then Scan(s[DigitRun(s)..], Number(p, ValueOf(s[..DigitRun(s)])))
            else Scan(s[1..], if s[0] == '-' then Dash(p) else Separate(p))
  {}

  /** None stands for a call that does not return. */
  method ParseActiveChannel(val: string) returns (r: Option<Mask>)
    ensures r == Parse(val)
  {
    if val == "ALL" {
      return Some(FULL);
    }
    hide Scan, Active, Endless, ToChannel, DigitRun, ValueOf, BitsOf, RangeBits;
    var single, range, channel, start, ptr := false, false, 0, 0, 0;
    var tmp: Mask := {};
    assert val[0..] == val;
    while ptr < |val|
      invariant ptr <= |val|
      invariant Scan(val[ptr..], Parser(single, range, channel, start, tmp, false)) == Scan(val, FRESH)
    {
      ghost var rest, p := val[ptr..], Parser(single, range, channel, start, tmp, false);
      ScanStep(rest, p);
      if IsDigit(val[ptr]) {
        var value, end := Strtoul(val, ptr);
        assert rest[end - ptr..] == val[end..] && rest[..end - ptr] == val[ptr..end];
        channel, ptr := ToChannel(value), end;
        single := true;
      } else {
        assert rest[1..] == val[ptr + 1..];
        if val[ptr] == '-' {
          range := true;
          start := channel;
        } else {
          var more := GetActiveChannels(single, range, start, channel);
          if more.None? {
            StuckForGood(rest[1..], Separate(p));
            return None;
          }
          SameActive(p, {});
          tmp := tmp + more.value;
          single, range := false, false;
        }
        ptr := ptr + 1;
      }
    }
    ghost var p := Parser(single, range, channel, start, tmp, false);
    assert val[ptr..] == [];
    NothingLeft(p);
    SameActive(p, {});
    if single || range {
      var more := GetActiveChannels(single, range, start, channel);
      if more.None? {
        return None;
      }
      tmp := tmp + more.value;
    } else {
      NoneActive(p);
      assert tmp + Active(p) == tmp;
    }
    r := Some(tmp);
  }

  lemma SameActive(p: Parser, mask: Mask)
    ensures Active(p.(mask := mask)) == Active(p)
  {}

  lemma NoneActive(p: Parser)
    requires !p.single && !p.range
    ensures Active(p) == {}
  {}

  // ---- Lists of ranges -----------------------------------------------------------

  datatype Item = One(channel: nat) | Span(first: nat, last: nat)

  function Text(i: Item): (s: string)
    ensures s != [] && IsDigit(s[0]) && IsDigit(s[|s| - 1])
  {
    match i
    case One(c) => Decimal(c)
    case Span(a, b) => Decimal(a) + "-" + Decimal(b)
  }

  function JoinBy(items: seq<Item>, sep: char): string {
    if items == [] then ""
    else if |items| == 1 then Text(items[0])
    else JoinBy(items[..|items| - 1], sep) + [sep] + Text(items[|items| - 1])
  }

  function Join(items: seq<Item>): string {
    JoinBy(items, '.')
  }

  function Meaning(i: Item): Mask {
    match i
    case One(c) => BitsOf(ToChannel(c))
    case Span(a, b) => RangeBits(ToChannel(a), ToChannel(b))
  }

  function Union(items: seq<Item>): Mask {
    if items == [] then {} else Union(items[..|items| - 1]) + Meaning(items[|items| - 1])
  }

  /** A range that ends at the largest int, on which the parser does not return. */
  predicate EndsAtMax(i: Item) {
    i.Span? && ToChannel(i.last) == INT32_MAX
  }

  ghost predicate AnyEndsAtMax(items: seq<Item>) {
    exists i :: i in items && EndsAtMax(i)
  }

  lemma {:induction false} RunOfPrefix(a: string, b: string)
    requires a != [] && AllDigits(a) && (b == [] || !IsDigit(b[0]))
    ensures DigitRun(a + b) == |a| && (a + b)[..|a|] == a && (a + b)[|a|..] == b
  {
    assert (a + b)[..|a|] == a;
    RunEnds(a + b, |a|);
  }

  lemma ScanNumber(n: nat, rest: string, p: Parser)
    requires rest == [] || !IsDigit(rest[0])
    ensures Scan(Decimal(n) + rest, p) == Scan(rest, Number(p, n))
  {
    RunOfPrefix(Decimal(n), rest);
    ValueOfDecimal(n);
    assert (Decimal(n) + rest)[0] == Decimal(n)[0];
  }

  /** The parser's variables after the text of one item. */
  function AfterItem(i: Item, p: Parser): Parser {
    match i
    case One(c) => Number(p, c)
    case Span(a, b) => Number(Dash(Number(p, a)), b)
  }

  lemma ScanItem(i: Item, rest: string, p: Parser)
    requires rest == [] || !IsDigit(rest[0])
    ensures Scan(Text(i) + rest, p) == Scan(rest, AfterItem(i, p))
  {
    match i
    case One(c) => ScanNumber(c, rest, p);
    case Span(a, b) =>
      var tail := "-" + (Decimal(b) + rest);
      assert Text(i) + rest == Decimal(a) + tail;
      ScanNumber(a, tail, p);
      assert tail[1..] == Decimal(b) + rest;
      ScanNumber(b, rest, Dash(Number(p, a)));
  }

  lemma ItemMeaning(i: Item, p: Parser)
    requires !p.single && !p.range
    ensures var q := Separate(AfterItem(i, p));
            q.mask == p.mask + Meaning(i) && (q.endless <==> p.endless || EndsAtMax(i))
  {
    hide Wrap32;
  }

  /** The parser after the text of a whole list, wherever it stands in the string. */
  ghost predicate Scanned(items: seq<Item>, sep: char, rest: string, p: Parser) {
    && Scan(JoinBy(items, sep) + rest, FRESH) == Scan(rest, p)
    && Separate(p).mask == Union(items) && (Separate(p).endless <==> AnyEndsAtMax(items))
  }

  lemma ListSnoc(items: seq<Item>, i: Item)
    ensures Union(items + [i]) == Union(items) + Meaning(i)
    ensures AnyEndsAtMax(items + [i]) <==> AnyEndsAtMax(items) || EndsAtMax(i)
  {
    hide EndsAtMax, Meaning;
    var all := items + [i];
    assert all[..|items|] == items;
    if AnyEndsAtMax(items) {
      var j :| j in items && EndsAtMax(j);
      assert j in all;
    }
    if EndsAtMax(i) {
      assert i in all;
    }
  }

  lemma {:induction false} ScanJoin(items: seq<Item>, sep: char, rest: string) returns (p: Parser)
    requires items != [] && !IsDigit(sep) && sep != '-'
    requires rest == [] || !IsDigit(rest[0])
    ensures Scanned(items, sep, rest, p)
  {
    hide Scan, ToChannel, DigitRun, ValueOf, EndsAtMax, Meaning, AfterItem, Active, Endless, Text;
    var init, last := items[..|items| - 1], items[|items| - 1];
    assert items == init + [last];
    ListSnoc(init, last);
    if init == [] {
      assert Union(init) == {} && !AnyEndsAtMax(init);
      ScanItem(last, rest, FRESH);
      ItemMeaning(last, FRESH);
      p := AfterItem(last, FRESH);
    } else {
      var tail := [sep] + (Text(last) + rest);
      assert JoinBy(items, sep) + rest == JoinBy(init, sep) + tail;
      var q := ScanJoin(init, sep, tail);
      assert tail[1..] == Text(last) + rest;
      ScanStep(tail, q);
      assert Scan(tail, q) == Scan(Text(last) + rest, Separate(q));
      ScanItem(last, rest, Separate(q));
      ItemMeaning(last, Separate(q));
      p := AfterItem(last, Separate(q));
    }
  }

  /** A list of channels and ranges separated by any character other than digits and dashes, of
      any length, in any order, with any overlaps and numbers of any size: the parser returns
      exactly if no range ends at the largest int, and then returns the union of what the items
      mean. */
  lemma ParseSeparated(items: seq<Item>, sep: char)
    requires !IsDigit(sep) && sep != '-'
    ensures Parse(JoinBy(items, sep)) == if AnyEndsAtMax(items) then None else Some(Union(items))
  {
    hide Scan, ToChannel, EndsAtMax, Active;
    if items == [] {
      NothingToParse();
    } else {
      var p := ScanJoin(items, sep, "");
      assert JoinBy(items, sep) + "" == JoinBy(items, sep);
      NothingLeft(p);
      JoinStartsWithDigit(items, sep);
    }
  }

  lemma ParseIsUnion(items: seq<Item>)
    ensures Parse(Join(items)) == if AnyEndsAtMax(items) then None else Some(Union(items))
  {
    ParseSeparated(items, '.');
  }

  lemma NothingLeft(p: Parser)
    ensures Scan("", p) == p
  {}

  lemma NothingToParse()
    ensures Parse("") == Some({})
  {
    assert Separate(FRESH).mask == {};
  }

  lemma {:induction false} JoinStartsWithDigit(items: seq<Item>, sep: char)
    requires items != []
    ensures JoinBy(items, sep) != [] && IsDigit(JoinBy(items, sep)[0])
  {
    if |items| > 1 {
      JoinStartsWithDigit(items[..|items| - 1], sep);
    }
  }

  // ---- Dashes out of place -------------------------------------------------------

  lemma ScanDash(rest: string, p: Parser)
    ensures Scan("-" + rest, p) == Scan(rest, Dash(p))
  {
    assert ("-" + rest)[1..] == rest;
  }

  lemma ScanLast(n: nat, p: Parser)
    ensures Scan(Decimal(n), p) == Number(p, n)
  {
    ScanNumber(n, "", p);
    assert Decimal(n) + "" == Decimal(n);
    NothingLeft(Number(p, n));
  }

  /** A string that leaves the parser in a range from start to stop. */
  lemma ParsesToRange(s: string, start: int, stop: int)
    requires s != [] && s[0] != 'A' && stop < INT32_MAX
    requires var p := Scan(s, FRESH); p.range && p.start == start && p.channel == stop && p.mask == {} && !p.endless
    ensures Parse(s) == Some(RangeBits(start, stop))
  {
    hide Scan, RangeBits;
    assert s != "ALL";
    assert {} + RangeBits(start, stop) == RangeBits(start, stop);
  }

  /** Of several dashes the last one makes the range. */
  lemma DashChain(a: nat, b: nat, c: nat)
    requires a < INT32_MAX && b < INT32_MAX && c < INT32_MAX
    ensures Parse(Decimal(a) + ("-" + (Decimal(b) + ("-" + Decimal(c))))) == Some(RangeBits(b, c))
  {
    hide Scan, Parse, Decimal, RangeBits, ToChannel;
    IntChannel(b);
    IntChannel(c);
    var one := Number(FRESH, a);
    ScanNumber(a, "-" + (Decimal(b) + ("-" + Decimal(c))), FRESH);
    ScanDash(Decimal(b) + ("-" + Decimal(c)), one);
    ScanNumber(b, "-" + Decimal(c), Dash(one));
    ScanDash(Decimal(c), Number(Dash(one), b));
    ScanLast(c, Dash(Number(Dash(one), b)));
    NotAll(a);
    ParsesToRange(Decimal(a) + ("-" + (Decimal(b) + ("-" + Decimal(c)))), b, c);
  }

  /** A leading dash makes the range start at 0. */
  lemma LeadingDash(c: nat)
    requires c < INT32_MAX
    ensures Parse("-" + Decimal(c)) == Some(RangeBits(0, c))
  {
    hide Scan, Parse, Decimal, RangeBits, ToChannel;
    IntChannel(c);
    ScanDash(Decimal(c), FRESH);
    ScanLast(c, Dash(FRESH));
    ParsesToRange("-" + Decimal(c), 0, c);
  }

  /** A trailing one makes a range of one channel. */
  lemma TrailingDash(a: nat)
    requires a < INT32_MAX
    ensures Parse(Decimal(a) + "-") == Some(RangeBits(a, a))
  {
    hide Scan, Parse, Decimal, RangeBits, ToChannel;
    IntChannel(a);
    ScanNumber(a, "-", FRESH);
    assert "-" + "" == "-";
    ScanDash("", Number(FRESH, a));
    NothingLeft(Dash(Number(FRESH, a)));
    NotAll(a);
    ParsesToRange(Decimal(a) + "-", a, a);
  }

  lemma IntChannel(n: nat)
    requires n <= INT32_MAX
    ensures ToChannel(n) == n
  {}

  lemma NotAll(n: nat)
    ensures Decimal(n) != [] && Decimal(n)[0] != 'A'
  {
    assert IsDigit(Decimal(n)[0]);
  }

  // ---- The printer ---------------------------------------------------------------

  /** Ranges finished within the first bits of a bitmap, and the first channel of the range
      still open, or -1. */
  datatype Progress = Progress(items: seq<Item>, start: int)

  function ItemOf(start: nat, stop: nat): Item {
    if start == stop then One(start) else Span(start, stop)
  }

  /** One pass of the printing loop. */
  function Advance(bitmap: Mask, i: nat, before: Progress): Progress {
    var start := if before.start < 0 && i in bitmap then i + 1 else before.start;
    if start < 0 then before
    else if i !in bitmap then Progress(before.items + [ItemOf(start, i)], -1)
    else if i == 31 then Progress(before.items + [ItemOf(start, 32)], -1)
    else Progress(before.items, start)
  }

  function Collect(bitmap: Mask, n: nat): Progress {
    if n == 0 then Progress([], -1) else Advance(bitmap, n - 1, Collect(bitmap, n - 1))
  }

  lemma CollectNext(bitmap: Mask, i: nat)
    ensures Collect(bitmap, 0) == Progress([], -1)
    ensures Collect(bitmap, i + 1) == Advance(bitmap, i, Collect(bitmap, i))
  {}

  function Print(bitmap: Mask): string {
    if bitmap == FULL then "ALL" else Join(Collect(bitmap, 32).items)
  }

  method TimeslotBitmapToString(bitmap: Mask) returns (s: string)
    requires bitmap <= FULL
    ensures s == Print(bitmap)
  {
    if bitmap == FULL {
      return "ALL";
    }
    hide Decimal, Join, JoinBy, Collect;
    CollectNext(bitmap, 0);
    var rangeCounter, startChannel, stopChannel := 0, -1, -1;
    s := "";
    assert Join([]) == "" by { JoinNone(); }
    for i := 0 to 32
      invariant stopChannel == -1 && startChannel == Collect(bitmap, i).start
      invariant s == Join(Collect(bitmap, i).items) && rangeCounter == |Collect(bitmap, i).items|
    {
      CollectNext(bitmap, i);
      ghost var items := Collect(bitmap, i).items;
      if startChannel < 0 {
        if i in bitmap {
          startChannel := i + 1;
        }
      }
      if startChannel >= 0 {
        if i !in bitmap {
          stopChannel := i;
        } else if i == 31 {
          stopChannel := 32;
        }
      }
      if startChannel >= 0 && stopChannel >= 0 {
        JoinSnoc(items, ItemOf(startChannel, stopChannel));
        if rangeCounter != 0 {
          s := s + ".";
        }
        if startChannel == stopChannel {
          s := s + Decimal(startChannel);
        } else {
          s := s + (Decimal(startChannel) + "-" + Decimal(stopChannel));
        }
        startChannel, stopChannel := -1, -1;
        rangeCounter := rangeCounter + 1;
      }
    }
  }

  lemma JoinNone()
    ensures Join([]) == ""
  {}

  lemma JoinSnoc(items: seq<Item>, i: Item)
    ensures Join(items + [i]) == if items == [] then Text(i) else Join(items) + "." + Text(i)
  {
    assert (items + [i])[..|items|] == items;
  }

  /** The bitmap positions an item stands for. */
  function Slots(i: Item): Mask {
    match i
    case One(c) => if c == 0 then {} else {c - 1}
    case Span(a, b) => if a == 0 then {} else Positions(a - 1, b)
  }

  function AllSlots(items: seq<Item>): Mask {
    if items == [] then {} else AllSlots(items[..|items| - 1]) + Slots(items[|items| - 1])
  }

  ghost predicate InSpan(i: Item) {
    match i
    case One(c) => 1 <= c <= 32
    case Span(a, b) => 1 <= a < b <= 32
  }

  /** The first channel of the open range is set, and so is every one after it. */
  lemma {:induction false} OpenRange(bitmap: Mask, n: nat)
    requires n <= 32
    ensures var start := Collect(bitmap, n).start;
            start == -1 || (1 <= start <= n < 32 && forall k: nat :: start - 1 <= k < n ==> k in bitmap)
  {
    if n > 0 {
      OpenRange(bitmap, n - 1);
    }
  }

  /** Finished ranges lie within 1..32, and there are at most half as many as bits. */
  lemma {:induction false} RangesInSpan(bitmap: Mask, n: nat)
    requires n <= 32
    ensures var r := Collect(bitmap, n);
            && (forall i :: i in r.items ==> InSpan(i))
            && 2 * |r.items| <= if r.start >= 1 then r.start - 1 else if n == 32 then 32 else n
  {
    if n > 0 {
      RangesInSpan(bitmap, n - 1);
      OpenRange(bitmap, n - 1);
    }
  }

  lemma AllSlotsSnoc(items: seq<Item>, i: Item)
    ensures AllSlots(items + [i]) == AllSlots(items) + Slots(i)
  {
    assert (items + [i])[..|items|] == items;
  }

  /** The positions the printer has accounted for. */
  ghost function Covered(r: Progress, n: nat): Mask {
    AllSlots(r.items) + if r.start >= 1 then Positions(r.start - 1, n) else {}
  }

  lemma SlotsOfItem(start: nat, stop: nat)
    requires 1 <= start <= stop
    ensures Slots(ItemOf(start, stop)) == Positions(start - 1, stop)
  {}

  /** Finished ranges and the open one are exactly the bitmap so far. */
  lemma {:induction false} CollectCovers(bitmap: Mask, n: nat)
    requires n <= 32
    ensures forall k: nat :: k in Covered(Collect(bitmap, n), n) <==> k in bitmap && k < n
  {
    if n > 0 {
      CollectCovers(bitmap, n - 1);
      OpenRange(bitmap, n - 1);
      CoversStep(bitmap, n - 1, Collect(bitmap, n - 1), Collect(bitmap, n));
    }
  }

  lemma CoversStep(bitmap: Mask, i: nat, before: Progress, r: Progress)
    requires i < 32 && before == Collect(bitmap, i) && r == Collect(bitmap, i + 1)
    requires before.start == -1 || 1 <= before.start <= i
    requires forall k: nat :: k in Covered(before, i) <==> k in bitmap && k < i
    ensures forall k: nat :: k in Covered(r, i + 1) <==> k in bitmap && k < i + 1
  {
    var start := if before.start < 0 && i in bitmap then i + 1 else before.start;
    if start >= 0 && (i !in bitmap || i == 31) {
      var stop := if i !in bitmap then i else 32;
      AllSlotsSnoc(before.items, ItemOf(start, stop));
      SlotsOfItem(start, stop);
    }
  }

  function First(i: Item): nat {
    match i
    case One(c) => c
    case Span(a, _) => a
  }

  function Last(i: Item): nat {
    match i
    case One(c) => c
    case Span(_, b) => b
  }

  /** Channels first to last are set, and none could be added at either end. */
  ghost predicate Maximal(bitmap: Mask, i: Item) {
    && 1 <= First(i) <= Last(i) <= 32
    && (forall k: nat :: First(i) - 1 <= k < Last(i) ==> k in bitmap)
    && (First(i) >= 2 ==> First(i) - 2 !in bitmap)
    && (Last(i) < 32 ==> Last(i) !in bitmap)
  }

  /** In ascending order, with a clear channel between neighbours. */
  ghost predicate Ascending(items: seq<Item>) {
    forall j, k :: 0 <= j < k < |items| ==> Last(items[j]) + 1 < First(items[k])
  }

  /** Between the finished ranges and position n lies a clear channel, or the open range. */
  ghost predicate Apart(bitmap: Mask, r: Progress, n: nat) {
    if r.start == -1 then
      n < 32 ==> (n > 0 ==> n - 1 !in bitmap) && forall i :: 0 <= i < |r.items| ==> Last(r.items[i]) < n
    else
      && r.start >= 1 && (r.start >= 2 ==> r.start - 2 !in bitmap)
      && forall i :: 0 <= i < |r.items| ==> Last(r.items[i]) + 1 < r.start
  }

  ghost predicate MaximalSoFar(bitmap: Mask, r: Progress, n: nat) {
    && (forall i :: 0 <= i < |r.items| ==> Maximal(bitmap, r.items[i]))
    && Ascending(r.items) && Apart(bitmap, r, n)
  }

  lemma FirstLast(start: nat, stop: nat)
    ensures First(ItemOf(start, stop)) == start && Last(ItemOf(start, stop)) == stop
  {}

  /** Closing the range that began at channel start. */
  lemma CloseRange(bitmap: Mask, items: seq<Item>, start: nat, stop: nat)
    requires 1 <= start <= stop <= 32 && (forall k: nat :: start - 1 <= k < stop ==> k in bitmap)
    requires (start >= 2 ==> start - 2 !in bitmap) && (stop < 32 ==> stop !in bitmap)
    requires (forall i :: 0 <= i < |items| ==> Maximal(bitmap, items[i]) && Last(items[i]) + 1 < start)
    requires Ascending(items)
    ensures var all := items + [ItemOf(start, stop)];
            Ascending(all) && forall i :: 0 <= i < |all| ==> Maximal(bitmap, all[i]) && Last(all[i]) <= stop
  {
    hide ItemOf, First, Last;
    FirstLast(start, stop);
  }

  lemma AdvanceMaximal(bitmap: Mask, i: nat, r: Progress)
    requires i < 32 && MaximalSoFar(bitmap, r, i)
    requires r.start == -1 || (1 <= r.start <= i && forall k: nat :: r.start - 1 <= k < i ==> k in bitmap)
    ensures MaximalSoFar(bitmap, Advance(bitmap, i, r), i + 1)
  {
    hide ItemOf, First, Last, Maximal, Ascending;
    var start := if r.start < 0 && i in bitmap then i + 1 else r.start;
    if start >= 0 && (i !in bitmap || i == 31) {
      CloseRange(bitmap, r.items, start, if i !in bitmap then i else 32);
    }
  }

  lemma {:induction false} CollectMaximal(bitmap: Mask, n: nat)
    requires n <= 32
    ensures MaximalSoFar(bitmap, Collect(bitmap, n), n)
  {
    if n > 0 {
      hide Advance, MaximalSoFar;
      CollectMaximal(bitmap, n - 1);
      OpenRange(bitmap, n - 1);
      AdvanceMaximal(bitmap, n - 1, Collect(bitmap, n - 1));
    }
  }

  /** The ranges printed are the maximal ones, in ascending order. */
  lemma RangesAreMaximal(bitmap: Mask)
    ensures var items := Collect(bitmap, 32).items;
            Ascending(items) && forall i :: 0 <= i < |items| ==> Maximal(bitmap, items[i])
  {
    CollectMaximal(bitmap, 32);
  }

  // ---- Reading back what was printed ---------------------------------------------

  /** Widening to unsigned long copies bit 31 upwards. */
  function Widened(m: Mask): Mask {
    if 31 in m then m + Positions(32, 64) else m
  }

  lemma {:induction false} RangeBitsAre(start: nat, stop: nat)
    requires 1 <= start && stop <= 32
    ensures RangeBits(start, stop) == if start <= stop then Widened(Positions(start - 1, stop)) else {}
    decreases stop
  {
    if start <= stop {
      RangeBitsAre(start, stop - 1);
    }
  }

  lemma MeaningIsWidened(i: Item)
    requires InSpan(i)
    ensures Meaning(i) == Widened(Slots(i))
  {
    hide ToChannel, RangeBits, Positions;
    match i
    case One(c) =>
      SmallChannel(c);
    case Span(a, b) =>
      SmallChannel(a);
      SmallChannel(b);
      RangeBitsAre(a, b);
  }

  lemma SmallChannel(c: nat)
    requires c <= 32
    ensures ToChannel(c) == c
  {}

  lemma {:induction false} UnionIsWidened(items: seq<Item>)
    requires forall i :: i in items ==> InSpan(i)
    ensures Union(items) == Widened(AllSlots(items))
  {
    hide Meaning, Slots;
    if items != [] {
      var init, last := items[..|items| - 1], items[|items| - 1];
      UnionIsWidened(init);
      assert last in items;
      MeaningIsWidened(last);
    }
  }

  lemma ParseOfPrint(bitmap: Mask)
    requires bitmap <= FULL
    ensures Parse(Print(bitmap)) == Some(if bitmap == FULL then FULL else Widened(bitmap))
  {
    if bitmap != FULL {
      var r := Collect(bitmap, 32);
      RangesInSpan(bitmap, 32);
      OpenRange(bitmap, 32);
      CollectCovers(bitmap, 32);
      assert AllSlots(r.items) == bitmap by {
        assert Covered(r, 32) == AllSlots(r.items);
      }
      ParseIsUnion(r.items);
      UnionIsWidened(r.items);
    }
  }

  /** Parsing a printed bitmap gives it back exactly when channel 32 is clear or all
      channels are set; otherwise the low 32 bits are right and the high 32 are set. */
  lemma RoundTripIff(bitmap: Mask)
    requires bitmap <= FULL
    ensures Parse(Print(bitmap)) == Some(bitmap) <==> 31 !in bitmap || bitmap == FULL
    ensures Parse(Print(bitmap)).Some? && Parse(Print(bitmap)).value * FULL == bitmap
  {
    hide Parse, Print, Positions;
    ParseOfPrint(bitmap);
    assert 40 in Positions(32, 64) && 40 !in FULL;
  }

  lemma {:induction false} JoinLength(items: seq<Item>)
    requires forall i :: i in items ==> InSpan(i)
    ensures |Join(items)| <= 6 * |items|
  {
    if items != [] {
      JoinLength(items[..|items| - 1]);
      assert items[|items| - 1] in items;
    }
  }

  /** The static buffer of 256 characters never truncates. */
  lemma PrintedFits(bitmap: Mask)
    requires bitmap <= FULL
    ensures |Print(bitmap)| <= 96 < 256
  {
    RangesInSpan(bitmap, 32);
    OpenRange(bitmap, 32);
    JoinLength(Collect(bitmap, 32).items);
  }

  // ---- Numbers and bits, in literals ---------------------------------------------

  /** Channels 1 to 31 are one bit each, channel 32 is bit 31 copied upwards, and the rest
      repeat every 32. */
  lemma BitsOfChannel(c: int)
    ensures BitsOf(c + 32) == BitsOf(c)
    ensures 1 <= c <= 31 ==> BitsOf(c) == {c - 1}
    ensures c == 32 ==> forall k: nat :: k in BitsOf(c) <==> 31 <= k < 64
  {}

  /** A range is the union of its channels. */
  lemma {:induction false} RangeIsUnion(start: int, stop: int, k: nat)
    ensures k in RangeBits(start, stop) <==> exists c :: start <= c <= stop && k in BitsOf(c)
    decreases stop - start
  {
    if start <= stop {
      hide BitsOf;
      RangeIsUnion(start, stop - 1, k);
      if k in BitsOf(stop) {
        assert start <= stop <= stop && k in BitsOf(stop);
      }
    }
  }

  /** Numbers an int can hold are themselves; larger ones lose their upper bits, and from 2^64
      on they all read as the largest unsigned long, that is, as -1. */
  lemma ChannelOfNumber(value: nat)
    ensures value <= 2147483647 ==> ToChannel(value) == value
    ensures value < 0x1_0000_0000_0000_0000 ==> (value - ToChannel(value)) % 0x1_0000_0000 == 0
    ensures value >= 0x1_0000_0000_0000_0000 ==> ToChannel(value) == -1
  {
    WrapsModulo(value);
  }

  lemma AllChannels()
    ensures Parse("ALL") == Some(FULL) && Print(FULL) == "ALL"
    ensures forall k: nat :: k in FULL <==> k < 32
  {}

  /** Channel numbers are printed in decimal, without leading zeros. */
  lemma DecimalDigits(n: nat)
    requires n < 100
    ensures n < 10 ==> Decimal(n) == [('0' as int + n) as char]
    ensures n >= 10 ==> Decimal(n) == [('0' as int + n / 10) as char, ('0' as int + n % 10) as char]
  {}

  /** For example: channels 1 to 4, 7 and 15. */
  lemma Example()
    ensures Join([Span(1, 4), One(7), One(15)]) == "1-4.7.15"
    ensures Parse("1-4.7.15") == Some({0, 1, 2, 3, 6, 14})
  {
    hide Join, Parse, Union, AnyEndsAtMax;
    ExampleText();
    ExampleMask();
    ParseIsUnion([Span(1, 4), One(7), One(15)]);
  }

  lemma ExampleText()
    ensures Join([Span(1, 4), One(7), One(15)]) == "1-4.7.15"
  {
    hide Decimal;
    DecimalDigits(1);
    DecimalDigits(4);
    DecimalDigits(7);
    DecimalDigits(15);
    var one, two := [Span(1, 4)], [Span(1, 4), One(7)];
    assert Join(one) == "1-4";
    hide Join, JoinBy;
    JoinSnoc(one, One(7));
    JoinSnoc(two, One(15));
    assert one + [One(7)] == two && two + [One(15)] == [Span(1, 4), One(7), One(15)];
  }

  lemma ExampleMask()
    ensures Union([Span(1, 4), One(7), One(15)]) == {0, 1, 2, 3, 6, 14}
    ensures !AnyEndsAtMax([Span(1, 4), One(7), One(15)])
  {
    hide Union, AnyEndsAtMax, BitsOf, RangeBits, ToChannel;
    var one, two := [Span(1, 4)], [Span(1, 4), One(7)];
    assert [] + one == one && one + [One(7)] == two && two + [One(15)] == [Span(1, 4), One(7), One(15)];
    NoItems();
    ListSnoc([], Span(1, 4));
    ListSnoc(one, One(7));
    ListSnoc(two, One(15));
    SmallChannels();
    OneToFour();
    assert {0, 1, 2, 3} + {6} + {14} == {0, 1, 2, 3, 6, 14};
  }

  lemma NoItems()
    ensures Union([]) == {} && !AnyEndsAtMax([])
  {}

  lemma SmallChannels()
    ensures ToChannel(1) == 1 && ToChannel(4) == 4 && ToChannel(7) == 7 && ToChannel(15) == 15
    ensures BitsOf(7) == {6} && BitsOf(15) == {14}
  {}

  lemma OneToFour()
    ensures RangeBits(1, 4) == {0, 1, 2, 3}
  {
    RangeBitsAre(1, 4);
  }
}

/**
  MQTT 3.1.1 framing as the firmware and the TLS server read it: the Remaining Length
  field (section 2.2.3), the PUBLISH packet (section 3.3) and the PUBACK packet (section 3.4).

  A reader looks at a stream of bytes and says `Short` when the bytes end before the packet does,
  `Bad` when the packet is refused, and otherwise what it read and the bytes it left unread.
 */
module Framing {
  import opened Bytes

  datatype Read<+T> = Got(value: T, rest: Stream) | Short | Bad

  datatype Header = Header(kind: byte, remaining: nat)

  datatype RawPacket = RawPacket(kind: byte, body: Stream)

  datatype Publication = Publication(topic: Stream, id: uint16, payload: Stream)

  const MAX_REMAINING: int := 268_435_455
  const PUBLISH_QOS1: byte := 0x32

  /** The same outcome with more bytes behind it. */
  function Extend<T>(r: Read<T>, more: Stream): Read<T> {
    match r
    case Got(value, rest) => Got(value, rest + more)
    case _ => r
  }

  // ----- Remaining Length

  /** Base-128 digits, low digit first, with the continuation bit; the loop stops after `room` digits. */
  function Digits(value: nat, room: nat): (s: Stream)
    requires room >= 1
    ensures 1 <= |s| <= room
  {
    if value < 128 then [value]
    else if room == 1 then [128 + value % 128]
    else [128 + value % 128] + Digits(value / 128, room - 1)
  }

  function EncodeRemaining(value: uint32): (s: Stream)
    ensures 1 <= |s| <= 4
  {
    Digits(value, 4)
  }

  datatype EncodeResult = Encoded(bytes: Stream) | OutOfRange

  /** The host's encoder loops without a digit limit, behind a range check. */
  function EncodeRemainingLength(value: int): EncodeResult {
    if 0 <= value <= MAX_REMAINING then Encoded(AllDigits(value)) else OutOfRange
  }

  function AllDigits(value: nat): Stream {
    if value < 128 then [value] else [128 + value % 128] + AllDigits(value / 128)
  }

  /** What the digits mean: the value the readers accumulate from at most `room` digits. */
  function ReadDigits(s: Stream, room: nat): Read<nat> {
    if room == 0 then Bad
    else if s == [] then Short
    else if s[0] < 128 then Got(s[0], s[1..])
    else
      match ReadDigits(s[1..], room - 1)
      case Got(high, rest) => Got(s[0] - 128 + 128 * high, rest)
      case Short => Short
      case Bad => Bad
  }

  function Power128(n: nat): nat {
    if n == 0 then 1 else 128 * Power128(n - 1)
  }

  lemma {:induction false} DigitsDecode(value: nat, room: nat, rest: Stream)
    requires room >= 1
    ensures ReadDigits(Digits(value, room) + rest, room)
         == if value < Power128(room) then Got(value, rest) else Bad
  {
    hide Power128, Digits, ReadDigits;
    var s := Digits(value, room) + rest;
    PowerPositive(room - 1);
    PowerStep(room - 1);
    DigitsFirst(value, room);
    ReadFirst(s, room);
    assert s[0] == Digits(value, room)[0] && s[1..] == Digits(value, room)[1..] + rest;
    if value < 128 {
      assert [] + rest == rest;
    } else if room > 1 {
      DigitsDecode(value / 128, room - 1, rest);
      HighDigits(value, Power128(room - 1));
    }
  }

  lemma DigitsFirst(value: nat, room: nat)
    requires room >= 1
    ensures Digits(value, room)[0] == if value < 128 then value else 128 + value % 128
    ensures Digits(value, room)[1..] == if value < 128 || room == 1 then [] else Digits(value / 128, room - 1)
  {}

  lemma ReadFirst(s: Stream, room: nat)
    requires s != [] && room >= 1
    ensures s[0] < 128 ==> ReadDigits(s, room) == Got(s[0], s[1..])
    ensures s[0] >= 128 ==>
      var r := ReadDigits(s[1..], room - 1);
      ReadDigits(s, room) == if r.Got? then Got(s[0] - 128 + 128 * r.value, r.rest) else r
    ensures room == 1 && s[0] >= 128 ==> ReadDigits(s, room) == Bad
  {}

  lemma PowerStep(n: nat)
    ensures Power128(0) == 1 && Power128(n + 1) == 128 * Power128(n)
  {}

  lemma HighDigits(value: nat, bound: nat)
    ensures value < 128 * bound <==> value / 128 < bound
  {
  }

  lemma PowerPositive(n: nat)
    ensures Power128(n) >= 1
  {
  }

  lemma Power128Of4()
    ensures Power128(1) == 128 && Power128(2) == 16384 && Power128(3) == 2097152
    ensures Power128(4) == MAX_REMAINING + 1
  {
    assert Power128(0) == 1;
    assert Power128(1) == 128 * Power128(0);
    assert Power128(2) == 128 * Power128(1);
    assert Power128(3) == 128 * Power128(2);
  }

  /**
    A reader gets the length back, and not a byte more, exactly when it fits in four digits;
    a longer one is emitted with the continuation bit still set and refused by every reader.
   */
  lemma RemainingRoundTrip(value: uint32, rest: Stream)
    ensures ReadDigits(EncodeRemaining(value) + rest, 4)
         == if value <= MAX_REMAINING then Got(value, rest) else Bad
  {
    DigitsDecode(value, 4, rest);
    Power128Of4();
  }

  /** No digit string a reader accepts for a value is shorter than the one that is emitted. */
  lemma {:induction false} DigitsShortest(s: Stream, room: nat)
    requires ReadDigits(s, room).Got?
    ensures |Digits(ReadDigits(s, room).value, room)| <= |s| - |ReadDigits(s, room).rest|
  {
    if s[0] >= 128 {
      DigitsShortest(s[1..], room - 1);
      var high := ReadDigits(s[1..], room - 1).value;
      assert (s[0] - 128 + 128 * high) / 128 == high;
      if room == 1 { assert false; }
    }
  }

  lemma RemainingShortest(s: Stream)
    requires ReadDigits(s, 4).Got?
    ensures ReadDigits(s, 4).value <= MAX_REMAINING
    ensures |EncodeRemaining(ReadDigits(s, 4).value)| <= |s| - |ReadDigits(s, 4).rest|
  {
    DigitsBounded(s, 4);
    Power128Of4();
    DigitsShortest(s, 4);
  }

  lemma {:induction false} DigitsBounded(s: Stream, room: nat)
    requires ReadDigits(s, room).Got?
    ensures ReadDigits(s, room).value < Power128(room)
  {
    PowerPositive(room - 1);
    if s[0] >= 128 { DigitsBounded(s[1..], room - 1); }
  }

  /** The host and the C encoders emit the same bytes for every length the host accepts. */
  lemma HostEncodesTheSame(value: int)
    requires 0 <= value <= MAX_REMAINING
    ensures EncodeRemainingLength(value) == Encoded(EncodeRemaining(value))
  {
    Power128Of4();
    UnlimitedDigits(value, 4);
  }

  lemma {:induction false} UnlimitedDigits(value: nat, room: nat)
    requires room >= 1 && value < Power128(room)
    ensures AllDigits(value) == Digits(value, room)
  {
    if value >= 128 {
      assert Power128(room) == 128 * Power128(room - 1);
      if room == 1 { assert false; }
      UnlimitedDigits(value / 128, room - 1);
    }
  }

  lemma {:induction false} DigitsStable(s: Stream, more: Stream, room: nat)
    requires !ReadDigits(s, room).Short?
    ensures ReadDigits(s + more, room) == Extend(ReadDigits(s, room), more)
  {
    if room > 0 {
      assert (s + more)[1..] == s[1..] + more;
      if s[0] >= 128 { DigitsStable(s[1..], more, room - 1); }
    }
  }

  // ----- packet readers

  function ReadHeader(s: Stream): Read<Header> {
    if s == [] then Short else
    match ReadDigits(s[1..], 4)
    case Got(remaining, rest) => Got(Header(s[0], remaining), rest)
    case Short => Short
    case Bad => Bad
  }

  /** The server's reader: a whole packet, whatever it is. */
  function ReadPacket(s: Stream): Read<RawPacket> {
    match ReadHeader(s)
    case Got(header, rest) =>
      if |rest| < header.remaining then Short
      else Got(RawPacket(header.kind, rest[..header.remaining]), rest[header.remaining..])
    case Short => Short
    case Bad => Bad
  }

  /** The server's PUBLISH parser; `capacity` is the size of its topic buffer. */
  function ParsePublish(packet: RawPacket, capacity: nat): Read<Publication> {
    var body := packet.body;
    if packet.kind / 16 != 3 || |body| < 2 then Bad else
    var topicSize := FromBig16(body);
    var offset := 2 + topicSize;
    if topicSize + 1 > capacity || offset > |body| then Bad
    else ParseBehindTopic(packet.kind, body[2..offset], body[offset..])
  }

  /** Identifier, unless the quality of service is 0, and payload. */
  function ParseBehindTopic(kind: byte, topic: Stream, s: Stream): (r: Read<Publication>)
    ensures r.Got? ==> r.rest == []
  {
    if (kind / 2) % 4 == 0 then Got(Publication(topic, 0, s), [])
    else if |s| < 2 then Bad
    else Got(Publication(topic, FromBig16(s), s[2..]), [])
  }

  function ServerReadPublish(s: Stream, capacity: nat): Read<Publication> {
    match ReadPacket(s)
    case Got(packet, rest) => Behind(ParsePublish(packet, capacity), rest)
    case Short => Short
    case Bad => Bad
  }

  /** What was parsed out of a packet, with the stream behind the packet. */
  function Behind(parsed: Read<Publication>, rest: Stream): Read<Publication> {
    if parsed.Got? then Got(parsed.value, rest) else Bad
  }

  /** The device's reader, which takes topic, identifier and payload off the stream one after the other. */
  function DeviceReadPublish(s: Stream, capacity: nat): Read<Publication> {
    match ReadHeader(s)
    case Short => Short
    case Bad => Bad
    case Got(header, afterHeader) => ReadTopic(header, afterHeader, capacity)
  }

  function ReadTopic(header: Header, s: Stream, capacity: nat): Read<Publication> {
    if header.kind / 16 != 3 then Bad
    else if |s| < 2 then Short
    else
      var topicSize := FromBig16(s);
      if topicSize + 1 > capacity then Bad
      else if |s| < 2 + topicSize then Short
      else ReadId(header.kind, header.remaining - (2 + topicSize), s[2..2 + topicSize], s[2 + topicSize..])
  }

  function ReadId(kind: byte, remaining: int, topic: Stream, s: Stream): Read<Publication> {
    if (kind / 2) % 4 == 0 then ReadPayload(topic, 0, remaining, s)
    else if |s| < 2 then Short
    else ReadPayload(topic, FromBig16(s), remaining - 2, s[2..])
  }

  function ReadPayload(topic: Stream, id: uint16, size: int, s: Stream): Read<Publication> {
    if size < 0 then Bad
    else if |s| < size then Short
    else Got(Publication(topic, id, s[..size]), s[size..])
  }

  /** A PUBACK, told apart from everything else; both sides then compare the identifier. */
  function ReadPuback(s: Stream): Read<uint16> {
    match ReadHeader(s)
    case Got(header, rest) =>
      if header.kind != 0x40 || header.remaining != 2 then Bad
      else if |rest| < 2 then Short
      else Got(FromBig16(rest), rest[2..])
    case Short => Short
    case Bad => Bad
  }

  // ----- stability: more bytes never change what a reader already decided

  lemma HeaderStable(s: Stream, more: Stream)
    requires !ReadHeader(s).Short?
    ensures ReadHeader(s + more) == Extend(ReadHeader(s), more)
  {
    assert (s + more)[1..] == s[1..] + more;
    DigitsStable(s[1..], more, 4);
  }

  lemma PacketStable(s: Stream, more: Stream)
    requires !ReadPacket(s).Short?
    ensures ReadPacket(s + more) == Extend(ReadPacket(s), more)
  {
    HeaderStable(s, more);
    if ReadHeader(s).Got? {
      var header, rest := ReadHeader(s).value, ReadHeader(s).rest;
      assert (rest + more)[..header.remaining] == rest[..header.remaining];
      assert (rest + more)[header.remaining..] == rest[header.remaining..] + more;
    }
  }

  lemma PubackStable(s: Stream, more: Stream)
    requires !ReadPuback(s).Short?
    ensures ReadPuback(s + more) == Extend(ReadPuback(s), more)
  {
    HeaderStable(s, more);
    if ReadHeader(s).Got? && |ReadHeader(s).rest| >= 2 {
      assert (ReadHeader(s).rest + more)[2..] == ReadHeader(s).rest[2..] + more;
    }
  }

  lemma ServerPublishStable(s: Stream, more: Stream, capacity: nat)
    requires !ServerReadPublish(s, capacity).Short?
    ensures ServerReadPublish(s + more, capacity) == Extend(ServerReadPublish(s, capacity), more)
  {
    PacketStable(s, more);
  }

  lemma DevicePublishStable(s: Stream, more: Stream, capacity: nat)
    requires !DeviceReadPublish(s, capacity).Short?
    ensures DeviceReadPublish(s + more, capacity) == Extend(DeviceReadPublish(s, capacity), more)
  {
    HeaderStable(s, more);
    if ReadHeader(s).Got? {
      TopicStable(ReadHeader(s).value, ReadHeader(s).rest, more, capacity);
    }
  }

  lemma TopicStable(header: Header, s: Stream, more: Stream, capacity: nat)
    requires !ReadTopic(header, s, capacity).Short?
    ensures ReadTopic(header, s + more, capacity) == Extend(ReadTopic(header, s, capacity), more)
  {
    if header.kind / 16 == 3 {
      assert FromBig16(s + more) == FromBig16(s);
      var end := 2 + FromBig16(s);
      if end <= |s| {
        assert (s + more)[2..end] == s[2..end];
        assert (s + more)[end..] == s[end..] + more;
        if end <= capacity + 1 {
          IdStable(header.kind, header.remaining - end, s[2..end], s[end..], more);
        }
      }
    }
  }

  lemma IdStable(kind: byte, remaining: int, topic: Stream, s: Stream, more: Stream)
    requires !ReadId(kind, remaining, topic, s).Short?
    ensures ReadId(kind, remaining, topic, s + more) == Extend(ReadId(kind, remaining, topic, s), more)
  {
    if (kind / 2) % 4 == 0 {
      PayloadStable(topic, 0, remaining, s, more);
    } else {
      assert (s + more)[2..] == s[2..] + more;
      PayloadStable(topic, FromBig16(s), remaining - 2, s[2..], more);
    }
  }

  lemma PayloadStable(topic: Stream, id: uint16, size: int, s: Stream, more: Stream)
    requires !ReadPayload(topic, id, size, s).Short?
    ensures ReadPayload(topic, id, size, s + more) == Extend(ReadPayload(topic, id, size, s), more)
  {
    if 0 <= size <= |s| {
      assert (s + more)[..size] == s[..size];
      assert (s + more)[size..] == s[size..] + more;
    }
  }

  // ----- the two readers agree

  /** The whole-packet reader behind the fixed header. */
  function ReadBody(header: Header, s: Stream, capacity: nat): Read<Publication> {
    if header.remaining > |s| then Short
    else Behind(ParsePublish(RawPacket(header.kind, s[..header.remaining]), capacity), s[header.remaining..])
  }

  lemma TopicSizeOfBody(s: Stream, n: nat)
    requires 2 <= n <= |s|
    ensures FromBig16(s[..n]) == FromBig16(s)
  {}

  lemma SlicesOfBody(s: Stream, n: nat, end: nat)
    requires 2 <= end <= n <= |s|
    ensures s[..n][2..end] == s[2..end]
    ensures s[..n][end..] == s[end..][..n - end]
    ensures s[end..][n - end..] == s[n..]
  {}

  lemma ReadIdGot(kind: byte, remaining: int, topic: Stream, s: Stream, publication: Publication, rest: Stream)
    ensures ReadId(kind, remaining, topic, s) == Got(publication, rest)
       <==> && 0 <= remaining <= |s| && rest == s[remaining..]
            && ParseBehindTopic(kind, topic, s[..remaining]) == Got(publication, [])
  {
    if 2 <= remaining <= |s| { PayloadSlices(s, remaining); }
  }

  lemma PayloadSlices(s: Stream, remaining: nat)
    requires 2 <= remaining <= |s|
    ensures FromBig16(s[..remaining]) == FromBig16(s)
    ensures s[2..][..remaining - 2] == s[..remaining][2..]
    ensures s[2..][remaining - 2..] == s[remaining..]
  {}

  lemma BodiesAgree(header: Header, s: Stream, capacity: nat, publication: Publication, rest: Stream)
    ensures ReadTopic(header, s, capacity) == Got(publication, rest)
       <==> ReadBody(header, s, capacity) == Got(publication, rest)
  {
    hide ReadId, ParseBehindTopic, FromBig16;
    var n := header.remaining;
    if header.kind / 16 == 3 && |s| >= 2 {
      var end := 2 + FromBig16(s);
      if end <= |s| && end <= capacity + 1 {
        ReadIdGot(header.kind, n - end, s[2..end], s[end..], publication, rest);
        if end <= n <= |s| { SlicesOfBody(s, n, end); }
      }
      if 2 <= n <= |s| { TopicSizeOfBody(s, n); }
    }
  }

  /** The two readers, written independently, accept the same packets and read the same out of them. */
  lemma ReadersAgree(s: Stream, capacity: nat, publication: Publication, rest: Stream)
    ensures DeviceReadPublish(s, capacity) == Got(publication, rest)
       <==> ServerReadPublish(s, capacity) == Got(publication, rest)
  {
    if ReadHeader(s).Got? {
      BodiesAgree(ReadHeader(s).value, ReadHeader(s).rest, capacity, publication, rest);
    }
  }
}

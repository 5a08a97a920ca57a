/**
  The loops below the framing: length digits and headers written into buffers by offset, and the
  device's readers over a TLS stream that hands out bytes in pieces of any size.
 */
module TlsIo {
  import opened Bytes
  import opened Framing
  import opened Packets
  import Payload

  /** `encode_remaining`: fills `output` and returns how many digits it used. */
  method WriteRemaining(value: uint32, output: array<byte>) returns (count: nat)
    requires output.Length == 4
    modifies output
    ensures count <= 4 && output[..count] == EncodeRemaining(value)
  {
    count := 0;
    var left := value;
    while true
      invariant count < 4 && left >= 0
      invariant output[..count] + Digits(left, 4 - count) == EncodeRemaining(value)
      decreases 4 - count
    {
      ghost var before := output[..count];
      ghost var digits := Digits(left, 4 - count);
      var digit := left % 128;
      left := left / 128;
      if left != 0 {
        digit := digit + 128;
      }
      output[count] := digit;
      count := count + 1;
      assert output[..count] == before + [digit];
      if !(left != 0 && count < 4) {
        assert digits == [digit];
        break;
      }
      assert digits == [digit] + Digits(left, 4 - count);
      assert output[..count] + Digits(left, 4 - count) == before + digits;
    }
  }

  /** Copies `data` into the buffer and returns the offset behind it, as the header builders do. */
  method Put(header: array<byte>, offset: nat, data: Stream) returns (next: nat)
    requires offset + |data| <= header.Length
    modifies header
    ensures next == offset + |data|
    ensures header[..next] == old(header[..offset]) + data
  {
    for i := 0 to |data|
      invariant header[..offset + i] == old(header[..offset]) + data[..i]
    {
      header[offset + i] := data[i];
    }
    assert data[..|data|] == data;
    next := offset + |data|;
  }

  method PutVariableHeader(header: array<byte>, offset: nat, topic: Stream, packetId: uint16) returns (next: nat)
    requires offset + 4 + |topic| <= header.Length
    modifies header
    ensures next == offset + 4 + |topic|
    ensures header[..next] == old(header[..offset]) + VariableHeader(topic, packetId)
  {
    ghost var before := header[..offset];
    next := Put(header, offset, [(|topic| / 256) % 256, |topic| % 256]);
    next := Put(header, next, topic);
    next := Put(header, next, [packetId / 256, packetId % 256]);
    assert Big16(packetId) == [packetId / 256, packetId % 256];
    assert before + (Big16(|topic|) + topic + Big16(packetId)) == ((before + Big16(|topic|)) + topic) + Big16(packetId);
  }

  /** The header built by `publish_memory` and `publish_pattern` (64 bytes) and `publish` (128 bytes). */
  method BuildPublishHeader(header: array<byte>, topic: Stream, packetId: uint16, payloadSize: uint32)
    returns (offset: nat)
    requires header.Length >= 9 + |topic|
    modifies header
    ensures offset <= header.Length
    ensures header[..offset] == PublishHeader(topic, packetId, payloadSize)
    ensures offset >= 1 && AsksForPuback(header[0])
  {
    hide EncodeRemaining, VariableHeader;
    var remaining := new byte[4](_ => 0);
    var remSize := WriteRemaining((2 + |topic| + 2 + payloadSize) % TWO_TO_THE_32, remaining);
    var digits := remaining[..remSize];
    assert header[..0] == [];
    offset := Put(header, 0, [PUBLISH_QOS1]);
    offset := Put(header, offset, digits);
    offset := PutVariableHeader(header, offset, topic, packetId);
    assert [] + [PUBLISH_QOS1] == [PUBLISH_QOS1];
  }

  datatype HeaderResult = HeaderOk(header: Header) | IoError | Invalid

  datatype PublishResult = Published(publication: Publication, integrity: bool) | ReadFailed

  /** A TLS connection on its receiving side: the bytes still to be handed out. */
  class TlsStream {
    var incoming: Stream

    /** A read has run into the deadline or a TLS error. */
    ghost var broken: bool

    /** `wolfSSL_read`: some of the next bytes, at most `size`, none when it would block, or an error. */
    method Read(size: nat) returns (data: Stream, error: bool)
      modifies this`incoming
      ensures |data| <= size && data + incoming == old(incoming)
      ensures error ==> data == []
    {
      error := *;
      var count: nat :| count <= size && count <= |incoming|;
      if error { count := 0; }
      data := incoming[..count];
      incoming := incoming[count..];
    }

    /** `tls_read_exact`: `patience` stands for the clock; running out of it is the timeout. */
    method ReadExact(size: nat, patience: nat) returns (data: Stream, ok: bool)
      modifies this
      ensures data + incoming == old(incoming)
      ensures ok <==> |data| == size
      ensures ok ==> size <= |old(incoming)| && data == old(incoming)[..size] && incoming == old(incoming)[size..]
      ensures broken == (old(broken) || !ok)
    {
      data := [];
      var clock := 0;
      while |data| < size && clock < patience
        invariant |data| <= size && broken == old(broken)
        invariant data + incoming == old(incoming)
      {
        var piece, error := Read(size - |data|);
        if error {
          broken := true;
          return data, false;
        }
        data := data + piece;
        clock := clock + 1;
      }
      ok := |data| == size;
      broken := broken || !ok;
    }

    /** `read_packet_header`: up to four digits, each with its own exact read. */
    method ReadPacketHeader(patience: nat) returns (r: HeaderResult)
      modifies this
      ensures r.HeaderOk? ==> Framing.ReadHeader(old(incoming)) == Got(r.header, incoming)
      ensures r.Invalid? ==> Framing.ReadHeader(old(incoming)) == Bad
      ensures broken == (old(broken) || r.IoError?)
    {
      hide ReadDigits, Power128;
      var kind, ok := ReadExact(1, patience);
      if !ok { return IoError; }
      PowerStep(0);
      assert old(incoming)[1..] == incoming;
      ghost var digits := incoming;
      var remaining, multiplier := 0, 1;
      for i := 0 to 4
        invariant multiplier == Power128(i) && remaining >= 0 && broken == old(broken)
        invariant ReadDigits(digits, 4) == Scaled(ReadDigits(incoming, 4 - i), multiplier, remaining)
      {
        ghost var s := incoming;
        var digit, ok := ReadExact(1, patience);
        if !ok { return IoError; }
        var value: int := digit[0] % 128;
        assert s[0] == digit[0] && s[1..] == incoming;
        DigitStep(s, 4 - i, multiplier, remaining);
        PowerStep(i);
        remaining := remaining + value * multiplier;
        if digit[0] < 128 {
          return HeaderOk(Header(kind[0], remaining));
        }
        multiplier := multiplier * 128;
      }
      NoRoom(incoming);
      return Invalid;
    }

    /** `wait_puback`. */
    method WaitPuback(packetId: uint16, patience: nat) returns (ok: bool)
      modifies this
      ensures ok ==> ReadPuback(old(incoming)) == Got(packetId, incoming)
      ensures !ok && !broken ==>
                !ReadPuback(old(incoming)).Short? && forall rest :: ReadPuback(old(incoming)) != Got(packetId, rest)
    {
      var header := ReadPacketHeader(patience);
      if !header.HeaderOk? || header.header.kind != 0x40 || header.header.remaining != 2 {
        return false;
      }
      ghost var afterHeader := incoming;
      var body, read := ReadExact(2, patience);
      if !read { return false; }
      assert incoming == afterHeader[2..];
      assert FromBig16(afterHeader) == FromBig16(body);
      ok := FromBig16(body) == packetId;
    }

    /**
      `read_publish`: when it succeeds it has read exactly what the packet says, however the bytes
      were cut up, and its integrity flag is the comparison with the expected pattern. It fails only
      at the deadline, at a TLS error or on bytes that are no packet for it.
     */
    method ReadPublish(topicCapacity: nat, expectedSize: uint32, expectedSeed: uint32, patience: nat)
      returns (r: PublishResult)
      modifies this
      ensures r.Published? ==>
        && DeviceReadPublish(old(incoming), topicCapacity) == Got(r.publication, incoming)
        && (r.integrity <==>
              expectedSize == 0 || r.publication.payload == Payload.Pattern(expectedSeed, 0, expectedSize))
      ensures r.ReadFailed? && !broken ==> DeviceReadPublish(old(incoming), topicCapacity) == Bad
    {
      var header := ReadPacketHeader(patience);
      if !header.HeaderOk? || header.header.kind / 16 != 3 { return ReadFailed; }
      RemainingShortest(old(incoming)[1..]);
      r := ReadTopicOnwards(header.header, topicCapacity, expectedSize, expectedSeed, patience);
    }

    /** `read_publish` behind the fixed header. */
    method ReadTopicOnwards(
      header: Header, topicCapacity: nat, expectedSize: uint32, expectedSeed: uint32, patience: nat)
      returns (r: PublishResult)
      requires header.kind / 16 == 3 && header.remaining <= MAX_REMAINING
      modifies this
      ensures r.Published? ==>
        && ReadTopic(header, old(incoming), topicCapacity) == Got(r.publication, incoming)
        && (r.integrity <==>
              expectedSize == 0 || r.publication.payload == Payload.Pattern(expectedSeed, 0, expectedSize))
      ensures r.ReadFailed? && !broken ==> ReadTopic(header, old(incoming), topicCapacity) == Bad
      ensures old(broken) ==> broken
    {
      hide ReadId;
      ghost var s := incoming;
      var prefix, ok := ReadExact(2, patience);
      if !ok { return ReadFailed; }
      var topicSize := FromBig16(prefix);
      assert FromBig16(s) == topicSize;
      if topicSize + 1 > topicCapacity { return ReadFailed; }
      var topic;
      topic, ok := ReadExact(topicSize, patience);
      if !ok { return ReadFailed; }
      assert s[2..][topicSize..] == s[2 + topicSize..];
      assert s[2..][..topicSize] == s[2..2 + topicSize];
      r := ReadIdAndPayload(header, topic, expectedSize, expectedSeed, patience);
    }

    /** `read_publish` from the packet identifier on. */
    method ReadIdAndPayload(header: Header, topic: Stream, expectedSize: uint32, expectedSeed: uint32, patience: nat)
      returns (r: PublishResult)
      requires header.remaining <= MAX_REMAINING
      modifies this
      ensures r.Published? ==>
        && ReadId(header.kind, header.remaining - (2 + |topic|), topic, old(incoming)) == Got(r.publication, incoming)
        && (r.integrity <==>
              expectedSize == 0 || r.publication.payload == Payload.Pattern(expectedSeed, 0, expectedSize))
      ensures r.ReadFailed? && !broken ==>
        ReadId(header.kind, header.remaining - (2 + |topic|), topic, old(incoming)) == Bad
      ensures old(broken) ==> broken
    {
      var consumed, id := 2 + |topic|, 0;
      if (header.kind / 2) % 4 != 0 {
        var prefix, ok := ReadExact(2, patience);
        if !ok { return ReadFailed; }
        id := FromBig16(prefix);
        consumed := consumed + 2;
      }
      if header.remaining < consumed { return ReadFailed; }
      var payload, ok := ReadExact(header.remaining - consumed, patience);
      if !ok { return ReadFailed; }
      var integrity := Payload.CheckIntegrity(payload, expectedSize, expectedSeed);
      r := Published(Publication(topic, id, payload), integrity);
    }
  }

  /** The reader's running total: what is still to come, scaled and added to what was read. */
  ghost function Scaled(r: Read<nat>, multiplier: nat, total: nat): Read<nat> {
    match r
    case Got(value, rest) => Got(total + value * multiplier, rest)
    case _ => r
  }

  lemma NoRoom(s: Stream)
    ensures ReadDigits(s, 0) == Bad
  {}

  lemma DigitStep(s: Stream, room: nat, multiplier: nat, total: nat)
    requires room >= 1 && s != []
    ensures Scaled(ReadDigits(s, room), multiplier, total)
         == var value: int := s[0] % 128;
            if s[0] < 128 then Got(total + value * multiplier, s[1..])
            else Scaled(ReadDigits(s[1..], room - 1), multiplier * 128, total + value * multiplier)
  {
    var value: int := s[0] % 128;
    if s[0] >= 128 && ReadDigits(s[1..], room - 1).Got? {
      var high := ReadDigits(s[1..], room - 1).value;
      Distribute(value, high, multiplier);
    }
  }

  lemma Distribute(value: int, high: int, multiplier: int)
    ensures (value + 128 * high) * multiplier == value * multiplier + high * (multiplier * 128)
  {
  }
}

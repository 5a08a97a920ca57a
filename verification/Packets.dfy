/** The packets the programs write, and what the readers make of them: MQTT PUBLISH and PUBACK. */
module Packets {
  import opened Bytes
  import opened Framing

  /** Topic length, topic and identifier: the variable header of a QoS 1 PUBLISH. */
  function VariableHeader(topic: Stream, id: uint16): Stream {
    Big16(|topic|) + topic + Big16(id)
  }

  /** The header `publish_memory`, `publish_pattern` and the server's `publish` send; sizes wrap at 32 bits. */
  function PublishHeader(topic: Stream, id: uint16, payloadSize: nat): Stream {
    [PUBLISH_QOS1] + EncodeRemaining((2 + |topic| + 2 + payloadSize) % TWO_TO_THE_32) + VariableHeader(topic, id)
  }

  function EncodePublish(topic: Stream, id: uint16, payload: Stream): Stream {
    PublishHeader(topic, id, |payload|) + payload
  }

  function EncodePuback(id: uint16): Stream {
    [0x40, 0x02] + Big16(id)
  }

  predicate Fits(topic: Stream, payloadSize: nat) {
    4 + |topic| + payloadSize <= MAX_REMAINING
  }

  /** The fixed header in front of any bytes is read as its kind and its length, or refused. */
  lemma FixedHeader(kind: byte, remaining: uint32, rest: Stream)
    ensures ReadHeader([kind] + EncodeRemaining(remaining) + rest)
         == if remaining <= MAX_REMAINING then Got(Header(kind, remaining), rest) else Bad
  {
    var s := [kind] + EncodeRemaining(remaining) + rest;
    assert s[1..] == EncodeRemaining(remaining) + rest;
    RemainingRoundTrip(remaining, rest);
  }

  /** The first byte of a PUBLISH that is no duplicate, asks for one acknowledgement and is not retained. */
  ghost predicate AsksForPuback(b: byte) {
    b / 16 == 3 && (b / 8) % 2 == 0 && (b / 2) % 4 == 1 && b % 2 == 0
  }

  /** Section 3.3.1 of MQTT 3.1.1: packet type, DUP, QoS and RETAIN of whatever is published. */
  lemma PublishAsksForPuback(topic: Stream, id: uint16, payload: Stream)
    ensures AsksForPuback(EncodePublish(topic, id, payload)[0])
    ensures AsksForPuback(PublishHeader(topic, id, |payload|)[0])
  {
    hide EncodeRemaining, VariableHeader;
  }

  /** A reader that meets a packet of any quality of service: identifier and payload as section 3.3.2 has them. */
  lemma AnyQosIsRead(flags: byte, topic: Stream, id: uint16, payload: Stream, rest: Stream, capacity: nat)
    requires flags < 16 && |topic| < TWO_TO_THE_16 && |topic| + 1 <= capacity
    requires Fits(topic, |payload|)
    ensures var acknowledged := (flags / 2) % 4 != 0;
            var body := Big16(|topic|) + topic + (if acknowledged then Big16(id) else []) + payload;
            DeviceReadPublish([48 + flags] + EncodeRemaining(|body|) + body + rest, capacity)
              == Got(Publication(topic, if acknowledged then id else 0, payload), rest)
  {
    hide EncodeRemaining, ReadHeader, ReadTopic, ReadId, Big16;
    var acknowledged := (flags / 2) % 4 != 0;
    var between := if acknowledged then Big16(id) else [];
    var body := Big16(|topic|) + topic + between + payload;
    FixedHeader(48 + flags, |body|, body + rest);
    assert [48 + flags] + EncodeRemaining(|body|) + body + rest
        == [48 + flags] + EncodeRemaining(|body|) + (body + rest);
    assert body + rest == Big16(|topic|) + topic + (between + payload + rest);
    TopicIsRead(Header(48 + flags, |body|), topic, between + payload + rest, capacity);
    TailIsRead(48 + flags, topic, id, payload, rest);
  }

  lemma TopicIsRead(header: Header, topic: Stream, after: Stream, capacity: nat)
    requires header.kind / 16 == 3 && |topic| < TWO_TO_THE_16 && |topic| + 1 <= capacity
    ensures ReadTopic(header, Big16(|topic|) + topic + after, capacity)
         == ReadId(header.kind, header.remaining - (2 + |topic|), topic, after)
  {
    var s := Big16(|topic|) + topic + after;
    assert FromBig16(s) == FromBig16(Big16(|topic|));
    assert s[2..2 + |topic|] == topic && s[2 + |topic|..] == after;
  }

  lemma TailIsRead(kind: byte, topic: Stream, id: uint16, payload: Stream, rest: Stream)
    ensures var acknowledged := (kind / 2) % 4 != 0;
            var tail := (if acknowledged then Big16(id) else []) + payload;
            ReadId(kind, |tail|, topic, tail + rest)
              == Got(Publication(topic, if acknowledged then id else 0, payload), rest)
  {
    if (kind / 2) % 4 != 0 {
      var s := Big16(id) + payload + rest;
      assert FromBig16(s) == FromBig16(Big16(id)) && s[2..] == payload + rest;
    } else {
      assert [] + payload == payload;
    }
    PayloadRoundTrip(topic, if (kind / 2) % 4 != 0 then id else 0, payload, rest, |payload|);
  }

  lemma PubackRoundTrip(id: uint16, rest: Stream)
    ensures ReadPuback(EncodePuback(id) + rest) == Got(id, rest)
  {
    FixedHeader(0x40, 2, Big16(id) + rest);
    assert EncodeRemaining(2) == [2];
    assert EncodePuback(id) + rest == [0x40] + EncodeRemaining(2) + (Big16(id) + rest);
    assert (Big16(id) + rest)[2..] == rest;
  }

  /**
    The device reads back the topic, the identifier and the payload that were published and leaves
    what follows untouched, exactly when the packet fits MQTT's Remaining Length.
   */
  lemma PublishRoundTrip(topic: Stream, id: uint16, payload: Stream, rest: Stream, capacity: nat)
    requires |topic| < TWO_TO_THE_16 && |topic| + 1 <= capacity
    ensures DeviceReadPublish(EncodePublish(topic, id, payload) + rest, capacity)
              == Got(Publication(topic, id, payload), rest)
       <==> Fits(topic, |payload|)
  {
    hide DeviceReadPublish, EncodePublish, PublishHeader;
    var full := 2 + |topic| + 2 + |payload|;
    EmittedIsRead(topic, id, payload, rest, capacity, full % TWO_TO_THE_32);
    if full % TWO_TO_THE_32 <= MAX_REMAINING {
      PayloadRoundTrip(topic, id, payload, rest, full % TWO_TO_THE_32 - (4 + |topic|));
    }
  }

  /** A packet that does not fit is refused, as long as its length does not wrap. */
  lemma PublishRefused(topic: Stream, id: uint16, payload: Stream, rest: Stream, capacity: nat)
    requires |topic| < TWO_TO_THE_16 && |topic| + 1 <= capacity
    requires !Fits(topic, |payload|) && 4 + |topic| + |payload| < TWO_TO_THE_32
    ensures DeviceReadPublish(EncodePublish(topic, id, payload) + rest, capacity) == Bad
  {
    hide DeviceReadPublish, EncodePublish, PublishHeader;
    EmittedIsRead(topic, id, payload, rest, capacity, 2 + |topic| + 2 + |payload|);
  }

  /** What the device does with an emitted packet, in terms of the length that was emitted. */
  lemma EmittedIsRead(topic: Stream, id: uint16, payload: Stream, rest: Stream, capacity: nat, remaining: uint32)
    requires |topic| < TWO_TO_THE_16 && |topic| + 1 <= capacity
    requires remaining == (2 + |topic| + 2 + |payload|) % TWO_TO_THE_32
    ensures DeviceReadPublish(EncodePublish(topic, id, payload) + rest, capacity)
         == if remaining > MAX_REMAINING then Bad
            else ReadPayload(topic, id, remaining - (4 + |topic|), payload + rest)
  {
    hide EncodeRemaining, VariableHeader, ReadHeader, ReadTopic, ReadPayload;
    var after := VariableHeader(topic, id) + (payload + rest);
    var s := EncodePublish(topic, id, payload) + rest;
    assert s == [PUBLISH_QOS1] + EncodeRemaining(remaining) + after;
    FixedHeader(PUBLISH_QOS1, remaining, after);
    if remaining <= MAX_REMAINING {
      BodyRoundTrip(Header(PUBLISH_QOS1, remaining), topic, id, payload + rest, capacity);
    }
  }

  lemma PayloadRoundTrip(topic: Stream, id: uint16, payload: Stream, rest: Stream, size: int)
    ensures ReadPayload(topic, id, size, payload + rest) == Got(Publication(topic, id, payload), rest)
       <==> size == |payload|
  {
    if size == |payload| {
      assert (payload + rest)[..size] == payload;
      assert (payload + rest)[size..] == rest;
    }
  }

  lemma BodyRoundTrip(header: Header, topic: Stream, id: uint16, after: Stream, capacity: nat)
    requires header.kind == PUBLISH_QOS1 && |topic| < TWO_TO_THE_16 && |topic| + 1 <= capacity
    ensures ReadTopic(header, VariableHeader(topic, id) + after, capacity)
         == ReadPayload(topic, id, header.remaining - (4 + |topic|), after)
  {
    var s := VariableHeader(topic, id) + after;
    var t := Big16(id) + after;
    assert s == Big16(|topic|) + topic + t;
    assert FromBig16(s) == FromBig16(Big16(|topic|));
    assert s[2..2 + |topic|] == topic;
    assert s[2 + |topic|..] == t;
    assert FromBig16(t) == FromBig16(Big16(id));
    assert t[2..] == after;
  }

  /** The server reads it back as well. */
  lemma ServerPublishRoundTrip(topic: Stream, id: uint16, payload: Stream, rest: Stream, capacity: nat)
    requires |topic| < TWO_TO_THE_16 && |topic| + 1 <= capacity
    ensures ServerReadPublish(EncodePublish(topic, id, payload) + rest, capacity)
              == Got(Publication(topic, id, payload), rest)
       <==> Fits(topic, |payload|)
  {
    PublishRoundTrip(topic, id, payload, rest, capacity);
    ReadersAgree(EncodePublish(topic, id, payload) + rest, capacity, Publication(topic, id, payload), rest);
  }

  /** The host's header builder emits the header the two C programs emit, whenever it emits one. */
  function MqttPublishHeader(topic: Stream, id: uint16, payloadSize: nat): EncodeResult
    requires |topic| < TWO_TO_THE_16
  {
    var variable := Big16(|topic|) + topic + Big16(id);
    match EncodeRemainingLength(|variable| + payloadSize)
    case OutOfRange => OutOfRange
    case Encoded(digits) => Encoded([PUBLISH_QOS1] + digits + variable)
  }

  lemma HostHeaderIsTheSame(topic: Stream, id: uint16, payloadSize: nat)
    requires |topic| < TWO_TO_THE_16
    ensures MqttPublishHeader(topic, id, payloadSize)
         == if Fits(topic, payloadSize) then Encoded(PublishHeader(topic, id, payloadSize)) else OutOfRange
    ensures Fits(topic, payloadSize) ==> AsksForPuback(MqttPublishHeader(topic, id, payloadSize).bytes[0])
  {
    var remaining := 4 + |topic| + payloadSize;
    if Fits(topic, payloadSize) {
      HostEncodesTheSame(remaining);
      assert remaining % TWO_TO_THE_32 == remaining;
    }
  }
}

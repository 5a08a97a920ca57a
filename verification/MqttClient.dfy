/**
  The transfer controller's MQTT client: one socket carries acknowledgements and publications, so
  whatever arrives while the client waits for something else is kept for later.
 */
module MqttClient {
  import opened Bytes
  import opened Framing
  import Packets
  import Server
  import Payload

  datatype Message = Message(topic: Stream, payload: Stream, id: uint16)

  datatype Outgoing =
    | Subscribe(id: uint16, topics: seq<Stream>)
    | Publish(id: uint16, topic: Stream, payload: Stream)
    | Puback(id: uint16)

  /** What a wait ends with: the acknowledgement of a subscription or of a publication. */
  datatype Reply = SubscribeReply(id: uint16) | PublishReply(id: uint16) {
    predicate IsAnsweredBy(p: RawPacket) {
      match this
      case SubscribeReply(id) => p.kind == 0x90 && Slice(p.body, 0, 2) == Big16(id)
      case PublishReply(id) => p.kind == 0x40 && p.body == Big16(id)
    }
  }

  /** What the server and the broker's clients write answers the wait for it, and no other. */
  lemma RepliesAnswer(id: uint16, waited: uint16, rest: Stream)
    ensures var suback := ReadPacket(Server.EncodeSuback(id) + rest);
            && suback.Got? && suback.rest == rest
            && (SubscribeReply(waited).IsAnsweredBy(suback.value) <==> waited == id)
            && !PublishReply(waited).IsAnsweredBy(suback.value)
    ensures var puback := ReadPacket(Packets.EncodePuback(id) + rest);
            && puback.Got? && puback.rest == rest
            && (PublishReply(waited).IsAnsweredBy(puback.value) <==> waited == id)
            && !SubscribeReply(waited).IsAnsweredBy(puback.value)
  {
    hide Reply.IsAnsweredBy;
    ShortPacket(0x90, Big16(id) + [1, 1], rest);
    ShortPacket(0x40, Big16(id), rest);
    assert Server.EncodeSuback(id) + rest == [0x90, 4] + (Big16(id) + [1, 1]) + rest;
    assert Packets.EncodePuback(id) + rest == [0x40, 2] + Big16(id) + rest;
    SubackAnswers(id, waited);
    PubackAnswers(id, waited);
  }

  lemma ShortPacket(kind: byte, body: Stream, rest: Stream)
    requires |body| < 128
    ensures ReadPacket([kind, |body|] + body + rest) == Got(RawPacket(kind, body), rest)
  {
    var s := [kind, |body|] + body + rest;
    assert s[1..] == [|body|] + (body + rest) && s[1..][1..] == body + rest;
    assert (body + rest)[..|body|] == body && (body + rest)[|body|..] == rest;
  }

  lemma SubackAnswers(id: uint16, waited: uint16)
    ensures var p := RawPacket(0x90, Big16(id) + [1, 1]);
            && (SubscribeReply(waited).IsAnsweredBy(p) <==> waited == id) && !PublishReply(waited).IsAnsweredBy(p)
  {
    assert Slice(Big16(id) + [1, 1], 0, 2) == Big16(id);
    assert FromBig16(Big16(waited)) == waited && FromBig16(Big16(id)) == id;
  }

  lemma PubackAnswers(id: uint16, waited: uint16)
    ensures var p := RawPacket(0x40, Big16(id));
            && (PublishReply(waited).IsAnsweredBy(p) <==> waited == id) && !SubscribeReply(waited).IsAnsweredBy(p)
  {
    assert FromBig16(Big16(waited)) == waited && FromBig16(Big16(id)) == id;
  }

  datatype Outcome<T> = Done(value: T) | Closed | Malformed

  // ----- reading a publication

  /** A slice as the host language cuts it: what is not there is left out. */
  function Slice(s: Stream, from: nat, to: nat): Stream {
    if from >= |s| then [] else if to <= from then [] else if to >= |s| then s[from..] else s[from..to]
  }

  /** Bytes read as a big-endian number: none are zero, and one is itself. */
  function Number(s: Stream): uint16
    requires |s| <= 2
  {
    if |s| == 2 then FromBig16(s) else if |s| == 1 then s[0] else 0
  }

  function IsPublication(p: RawPacket): bool {
    p.kind / 16 == 3
  }

  function IsAcknowledged(p: RawPacket): bool {
    (p.kind / 2) % 4 != 0
  }

  function MessageOf(p: RawPacket): Message {
    var offset := 2 + Number(Slice(p.body, 0, 2));
    var topic := Slice(p.body, 2, offset);
    if IsAcknowledged(p)
    then Message(topic, Slice(p.body, offset + 2, |p.body|), Number(Slice(p.body, offset, offset + 2)))
    else Message(topic, Slice(p.body, offset, |p.body|), 0)
  }

  /** On a complete publication the client reads what the server reads. */
  lemma MessageIsPublication(p: RawPacket, capacity: nat)
    ensures ParsePublish(p, capacity).Got? ==>
              IsPublication(p) &&
              var publication := ParsePublish(p, capacity).value;
              MessageOf(p) == Message(publication.topic, publication.payload, publication.id)
  {
  }

  /** The part of a publication before its payload, and the payload's size by the packet's own account. */
  datatype Front = Front(topic: Stream, id: uint16, size: int)

  function ReadFront(s: Stream): Read<Front> {
    match ReadHeader(s)
    case Short => Short
    case Bad => Bad
    case Got(header, body) =>
      if header.kind / 16 != 3 then Bad
      else if |body| < 2 || |body| < 2 + FromBig16(body) then Short
      else
        var n := 2 + FromBig16(body);
        var topic := body[2..n];
        if (header.kind / 2) % 4 == 0 then Got(Front(topic, 0, header.remaining - n), body[n..])
        else if |body| < n + 2 then Short
        else Got(Front(topic, FromBig16(body[n..]), header.remaining - n - 2), body[n + 2..])
  }

  /** No topic of 16 bits of length is too long. */
  const ANY_TOPIC: nat := TWO_TO_THE_16

  /** Front and payload are what the whole packet says. */
  lemma FrontIsPacket(s: Stream)
    requires ReadFront(s).Got? && 0 <= ReadFront(s).value.size <= |ReadFront(s).rest|
    ensures var front, rest := ReadFront(s).value, ReadFront(s).rest;
            && ReadPacket(s).Got? && ReadPacket(s).rest == rest[front.size..]
            && IsPublication(ReadPacket(s).value)
            && MessageOf(ReadPacket(s).value) == Message(front.topic, rest[..front.size], front.id)
            && (!IsAcknowledged(ReadPacket(s).value) ==> front.id == 0)
  {
    var front, rest := ReadFront(s).value, ReadFront(s).rest;
    FrontIsPublication(s);
    ReadersAgree(s, ANY_TOPIC, Publication(front.topic, front.id, rest[..front.size]), rest[front.size..]);
    hide ReadFront, MessageOf;
    MessageIsPublication(ReadPacket(s).value, ANY_TOPIC);
    WithoutIdentifier(ReadPacket(s).value);
  }

  /** The client reads what the board would read, and packets shorter than their own front. */
  lemma FrontIff(s: Stream)
    ensures DeviceReadPublish(s, ANY_TOPIC).Got? <==>
              ReadFront(s).Got? && 0 <= ReadFront(s).value.size <= |ReadFront(s).rest|
    ensures ReadFront(s).Bad? ==> DeviceReadPublish(s, ANY_TOPIC).Bad?
  {
    hide ReadHeader;
  }

  lemma FrontIsPublication(s: Stream)
    requires ReadFront(s).Got? && 0 <= ReadFront(s).value.size <= |ReadFront(s).rest|
    ensures var front, rest := ReadFront(s).value, ReadFront(s).rest;
            DeviceReadPublish(s, ANY_TOPIC)
              == Got(Publication(front.topic, front.id, rest[..front.size]), rest[front.size..])
  {
    hide ReadHeader;
  }

  lemma WithoutIdentifier(p: RawPacket)
    ensures !IsAcknowledged(p) ==> MessageOf(p).id == 0
  {}

  /** What is left of a publication that ends in its topic or in its identifier. */
  lemma TruncatedPublications(a: byte, b: byte)
    ensures MessageOf(RawPacket(0x32, [])) == Message([], [], 0)
    ensures MessageOf(RawPacket(0x32, [0, 5, a, b])) == Message([a, b], [], 0)
    ensures MessageOf(RawPacket(0x32, [0, 1, a, b])) == Message([a], [], b)
  {}

  // ----- what has arrived

  function Arrived(seen: seq<RawPacket>): seq<Message> {
    if seen == [] then [] else
    var last := seen[|seen| - 1];
    Arrived(seen[..|seen| - 1]) + if IsPublication(last) then [MessageOf(last)] else []
  }

  /** The identifiers of the publications that are to be acknowledged. */
  function Owed(seen: seq<RawPacket>): seq<uint16> {
    if seen == [] then [] else
    var last := seen[|seen| - 1];
    Owed(seen[..|seen| - 1]) + if IsPublication(last) && IsAcknowledged(last) then [MessageOf(last).id] else []
  }

  function Acknowledged(sent: seq<Outgoing>): seq<uint16> {
    if sent == [] then [] else
    Acknowledged(sent[..|sent| - 1]) + if sent[|sent| - 1].Puback? then [sent[|sent| - 1].id] else []
  }

  /** The payloads on a topic, in order. */
  function On(messages: seq<Message>, topic: Stream): seq<Stream> {
    if messages == [] then [] else
    var last := messages[|messages| - 1];
    On(messages[..|messages| - 1], topic) + if last.topic == topic then [last.payload] else []
  }

  /** Reading packets from `wire` gives `seen` and leaves `rest`. */
  ghost predicate Parses(wire: Stream, seen: seq<RawPacket>, rest: Stream) {
    if seen == [] then wire == rest
    else exists before ::
      Parses(wire, seen[..|seen| - 1], before) && ReadPacket(before) == Got(seen[|seen| - 1], rest)
  }

  lemma {:induction false} OnAppend(a: seq<Message>, b: seq<Message>, topic: Stream)
    ensures On(a + b, topic) == On(a, topic) + On(b, topic)
  {
    if b == [] {
      assert a + b == a;
    } else {
      assert (a + b)[..|a + b| - 1] == a + b[..|b| - 1];
      OnAppend(a, b[..|b| - 1], topic);
    }
  }

  lemma OnOne(m: Message, topic: Stream)
    ensures On([m], topic) == if m.topic == topic then [m.payload] else []
  {
    assert [m][..0] == [];
  }

  lemma {:induction false} OnNone(messages: seq<Message>, topic: Stream)
    requires forall i :: 0 <= i < |messages| ==> messages[i].topic != topic
    ensures On(messages, topic) == []
  {
    if messages != [] { OnNone(messages[..|messages| - 1], topic); }
  }

  /** Taking the first message on its topic out of the queue takes it off the front of that topic, and no other. */
  lemma TakeFirst(inbox: seq<Message>, i: nat, topic: Stream)
    requires i < |inbox| && forall j :: 0 <= j < i ==> inbox[j].topic != inbox[i].topic
    ensures On(inbox, topic)
         == (if topic == inbox[i].topic then [inbox[i].payload] else []) + On(inbox[..i] + inbox[i + 1..], topic)
  {
    hide On;
    var before, m, after := inbox[..i], inbox[i], inbox[i + 1..];
    assert inbox == (before + [m]) + after;
    OnAppend(before + [m], after, topic);
    OnAppend(before, [m], topic);
    OnOne(m, topic);
    OnAppend(before, after, topic);
    if topic == m.topic {
      OnNone(before, topic);
      assert ([] + [m.payload]) + On(after, topic) == [m.payload] + ([] + On(after, topic));
    } else {
      assert On(before, topic) + [] == On(before, topic);
    }
  }

  lemma PacketTakesBytes(s: Stream)
    ensures ReadPacket(s).Got? ==> |ReadPacket(s).rest| < |s|
  {
    if ReadPacket(s).Got? { HeaderTakesBytes(s); }
  }

  lemma HeaderTakesBytes(s: Stream)
    requires ReadHeader(s).Got?
    ensures |ReadHeader(s).rest| < |s|
  {
    DigitsTakeBytes(s[1..], 4);
  }

  lemma {:induction false} DigitsTakeBytes(s: Stream, room: nat)
    requires ReadDigits(s, room).Got?
    ensures |ReadDigits(s, room).rest| < |s|
  {
    if s[0] >= 128 { DigitsTakeBytes(s[1..], room - 1); }
  }

  /** The packets seen decide what is left of the stream. */
  lemma {:induction false} ParsesOnce(wire: Stream, seen: seq<RawPacket>, a: Stream, b: Stream)
    requires Parses(wire, seen, a) && Parses(wire, seen, b)
    ensures a == b
  {
    hide ReadPacket;
    if seen != [] {
      var last := |seen| - 1;
      var before :| Parses(wire, seen[..last], before) && ReadPacket(before) == Got(seen[last], a);
      var before' :| Parses(wire, seen[..last], before') && ReadPacket(before') == Got(seen[last], b);
      ParsesOnce(wire, seen[..last], before, before');
    }
  }

  lemma ParsesMore(wire: Stream, seen: seq<RawPacket>, before: Stream, p: RawPacket, rest: Stream)
    requires Parses(wire, seen, before) && ReadPacket(before) == Got(p, rest)
    ensures Parses(wire, seen + [p], rest)
  {
    assert (seen + [p])[..|seen|] == seen;
  }

  // ----- the client's books

  /** For each topic: what was returned and what is queued are together what arrived, and each debt is paid once. */
  ghost predicate Balanced(returned: seq<Message>, inbox: seq<Message>, sent: seq<Outgoing>, seen: seq<RawPacket>) {
    && (forall topic :: On(returned, topic) + On(inbox, topic) == On(Arrived(seen), topic))
    && Acknowledged(sent) == Owed(seen)
  }

  lemma StoreKeeps(returned: seq<Message>, inbox: seq<Message>, sent: seq<Outgoing>, seen: seq<RawPacket>, p: RawPacket)
    requires Balanced(returned, inbox, sent, seen)
    ensures Balanced(returned,
              if IsPublication(p) then inbox + [MessageOf(p)] else inbox,
              if IsPublication(p) && IsAcknowledged(p) then sent + [Puback(MessageOf(p).id)] else sent,
              seen + [p])
  {
    hide MessageOf, On;
    assert (seen + [p])[..|seen|] == seen;
    assert (sent + [Puback(MessageOf(p).id)])[..|sent|] == sent;
    forall topic
      ensures On(inbox + [MessageOf(p)], topic) == On(inbox, topic) + On([MessageOf(p)], topic)
      ensures On(Arrived(seen) + [MessageOf(p)], topic) == On(Arrived(seen), topic) + On([MessageOf(p)], topic)
    {
      OnAppend(inbox, [MessageOf(p)], topic);
      OnAppend(Arrived(seen), [MessageOf(p)], topic);
    }
    if !IsPublication(p) { assert Arrived(seen + [p]) == Arrived(seen) && Owed(seen + [p]) == Owed(seen); }
    assert IsPublication(p) ==> Arrived(seen + [p]) == Arrived(seen) + [MessageOf(p)];
    if IsPublication(p) {
      forall topic
        ensures On(returned, topic) + On(inbox + [MessageOf(p)], topic) == On(Arrived(seen + [p]), topic)
      {
        var more := On([MessageOf(p)], topic);
        assert On(returned, topic) + (On(inbox, topic) + more) == (On(returned, topic) + On(inbox, topic)) + more;
      }
    }
  }

  lemma TakeKeeps(returned: seq<Message>, inbox: seq<Message>, sent: seq<Outgoing>, seen: seq<RawPacket>, i: nat)
    requires Balanced(returned, inbox, sent, seen)
    requires i < |inbox| && forall j :: 0 <= j < i ==> inbox[j].topic != inbox[i].topic
    ensures Balanced(returned + [inbox[i]], inbox[..i] + inbox[i + 1..], sent, seen)
  {
    hide On;
    var m, rest := inbox[i], inbox[..i] + inbox[i + 1..];
    forall topic
      ensures On(returned + [m], topic) + On(rest, topic) == On(Arrived(seen), topic)
    {
      TakeFirst(inbox, i, topic);
      OnAppend(returned, [m], topic);
      OnOne(m, topic);
      var taken := if topic == m.topic then [m.payload] else [];
      assert (On(returned, topic) + taken) + On(rest, topic) == On(returned, topic) + (taken + On(rest, topic));
    }
  }

  lemma SendKeeps(returned: seq<Message>, inbox: seq<Message>, sent: seq<Outgoing>, seen: seq<RawPacket>, o: Outgoing)
    requires Balanced(returned, inbox, sent, seen) && !o.Puback?
    ensures Balanced(returned, inbox, sent + [o], seen)
  {
    assert (sent + [o])[..|sent|] == sent;
  }

  /** What has been returned on a topic is the beginning of what arrived on it. */
  lemma ReturnedInOrder(
    returned: seq<Message>, inbox: seq<Message>, sent: seq<Outgoing>, seen: seq<RawPacket>, topic: Stream)
    requires Balanced(returned, inbox, sent, seen)
    ensures On(returned, topic) <= On(Arrived(seen), topic)
    ensures |On(Arrived(seen), topic)| == |On(returned, topic)| + |On(inbox, topic)|
  {
    hide On;
    assert On(returned, topic) + On(inbox, topic) == On(Arrived(seen), topic);
  }

  // ----- a publication returned past the queue

  /** The acknowledgement of `wait_pattern_publish`, which goes by the identifier. */
  function AcknowledgedById(m: Message): seq<Outgoing> {
    if m.id != 0 then [Puback(m.id)] else []
  }

  /** Nothing else is queued on the topic, and no identifier is 0 where one is sent. */
  ghost predicate CanPass(inbox: seq<Message>, p: RawPacket) {
    && (forall payload <- On(inbox, MessageOf(p).topic) :: payload == MessageOf(p).payload)
    && !(IsAcknowledged(p) && MessageOf(p).id == 0)
  }

  lemma {:induction false} Commutes(x: Stream, queue: seq<Stream>)
    ensures [x] + queue == queue + [x] <==> forall y <- queue :: y == x
  {
    if [x] + queue == queue + [x] {
      forall i | 0 <= i < |queue|
        ensures queue[i] == x
      {
        AllTheSame(x, queue, i);
      }
    }
    if forall y <- queue :: y == x {
      assert forall i :: 0 <= i < |queue| ==> queue[i] in queue;
      assert forall i :: 0 <= i <= |queue| ==> ([x] + queue)[i] == x && (queue + [x])[i] == x;
    }
  }

  lemma {:induction false} AllTheSame(x: Stream, queue: seq<Stream>, i: nat)
    requires [x] + queue == queue + [x] && i < |queue|
    ensures queue[i] == x
  {
    assert (queue + [x])[i] == ([x] + queue)[i];
    if i > 0 { AllTheSame(x, queue, i - 1); }
  }

  /** Returning a packet past the queue keeps the books exactly if it could not be told from being queued first. */
  lemma PassKeepsIff(
    returned: seq<Message>, inbox: seq<Message>, sent: seq<Outgoing>, seen: seq<RawPacket>, p: RawPacket)
    requires Balanced(returned, inbox, sent, seen) && IsPublication(p)
    ensures var m := MessageOf(p);
            Balanced(returned + [m], inbox, sent + AcknowledgedById(m), seen + [p]) <==> CanPass(inbox, p)
  {
    hide MessageOf, On;
    var m := MessageOf(p);
    assert (seen + [p])[..|seen|] == seen;
    assert forall id :: (sent + [Puback(id)])[..|sent|] == sent;
    assert sent + [] == sent;
    WithoutIdentifier(p);
    forall topic
      ensures On(returned + [m], topic) + On(inbox, topic) == On(Arrived(seen + [p]), topic)
         <==> topic != m.topic || forall payload <- On(inbox, topic) :: payload == m.payload
    {
      PassOnTopic(returned, inbox, sent, seen, p, topic);
    }
    assert Owed(seen + [p]) == Owed(seen) + if IsAcknowledged(p) then [m.id] else [];
    assert Acknowledged(sent + AcknowledgedById(m)) == Acknowledged(sent) + if m.id != 0 then [m.id] else [];
    var owed := Owed(seen);
    assert |owed + [m.id]| != |owed + []|;
  }

  lemma Swapped(before: seq<Stream>, x: seq<Stream>, queue: seq<Stream>)
    ensures (before + x) + queue == (before + queue) + x <==> x + queue == queue + x
  {
    assert ((before + x) + queue)[|before|..] == x + queue;
    assert ((before + queue) + x)[|before|..] == queue + x;
    assert (before + x) + queue == before + (x + queue);
    assert (before + queue) + x == before + (queue + x);
  }

  lemma PassOnTopic(
    returned: seq<Message>, inbox: seq<Message>, sent: seq<Outgoing>, seen: seq<RawPacket>, p: RawPacket, topic: Stream)
    requires Balanced(returned, inbox, sent, seen) && IsPublication(p)
    ensures var m := MessageOf(p);
            On(returned + [m], topic) + On(inbox, topic) == On(Arrived(seen + [p]), topic) <==>
              topic != m.topic || forall payload <- On(inbox, topic) :: payload == m.payload
  {
    var m, before, queue := MessageOf(p), On(returned, topic), On(inbox, topic);
    var x := if topic == m.topic then [m.payload] else [];
    PassedBooks(returned, inbox, sent, seen, p, topic);
    hide MessageOf, On;
    Swapped(before, x, queue);
    assert [] + queue == queue + [];
    Commutes(m.payload, queue);
  }

  lemma PassedBooks(
    returned: seq<Message>, inbox: seq<Message>, sent: seq<Outgoing>, seen: seq<RawPacket>, p: RawPacket, topic: Stream)
    requires Balanced(returned, inbox, sent, seen) && IsPublication(p)
    ensures var m := MessageOf(p);
            var x := if topic == m.topic then [m.payload] else [];
            && On(returned + [m], topic) == On(returned, topic) + x
            && On(Arrived(seen + [p]), topic) == (On(returned, topic) + On(inbox, topic)) + x
  {
    hide MessageOf, On;
    var m := MessageOf(p);
    assert (seen + [p])[..|seen|] == seen;
    OnAppend(returned, [m], topic);
    OnAppend(Arrived(seen), [m], topic);
    OnOne(m, topic);
  }

  /**
    It is the next publication of its topic exactly if none is queued there or the first queued
    payload is the same.
   */
  lemma PassIsNextIff(
    returned: seq<Message>, inbox: seq<Message>, sent: seq<Outgoing>, seen: seq<RawPacket>, p: RawPacket)
    requires Balanced(returned, inbox, sent, seen) && IsPublication(p)
    ensures var m := MessageOf(p);
            var queue := On(inbox, m.topic);
            On(returned + [m], m.topic) <= On(Arrived(seen + [p]), m.topic) <==> queue == [] || queue[0] == m.payload
  {
    var m := MessageOf(p);
    PassedBooks(returned, inbox, sent, seen, p, m.topic);
    hide MessageOf, On;
    var before, queue := On(returned, m.topic), On(inbox, m.topic);
    var whole := (before + queue) + [m.payload];
    assert whole[..|before|] == before;
    assert (before + [m.payload])[|before|] == m.payload;
    assert before + [m.payload] <= whole <==> whole[|before|] == m.payload;
  }

  // ----- the client

  class Client {
    var packetId: uint16
    var inbox: seq<Message>
    var incoming: Stream
    var sent: seq<Outgoing>
    ghost const wire: Stream
    ghost var seen: seq<RawPacket>
    ghost var returned: seq<Message>

    ghost predicate Valid()
      reads this
    {
      && 1 <= packetId
      && Parses(wire, seen, incoming)
      && Balanced(returned, inbox, sent, seen)
      && forall i :: 0 <= i < |sent| && !sent[i].Puback? ==> 1 <= sent[i].id
    }

    /** `wire` is everything that will arrive. */
    constructor (wire: Stream)
      ensures Valid() && this.wire == wire && packetId == 1 && inbox == [] && sent == [] && seen == [] && returned == []
    {
      packetId, inbox, incoming, sent := 1, [], wire, [];
      this.wire, seen, returned := wire, [], [];
    }

    method NextId() returns (value: uint16)
      requires Valid()
      modifies this`packetId
      ensures Valid() && value == old(packetId) && value != 0
      ensures packetId == value % 65535 + 1
    {
      value := packetId;
      packetId := if value == 65535 then 1 else value + 1;
    }

    method ReadNext() returns (r: Outcome<RawPacket>)
      requires Valid()
      modifies this`incoming
      ensures r.Done? ==> ReadPacket(old(incoming)) == Got(r.value, incoming) && |incoming| < |old(incoming)|
      ensures !r.Done? ==> incoming == old(incoming)
      ensures r.Closed? ==> ReadPacket(incoming).Short?
      ensures r.Malformed? ==> ReadPacket(incoming).Bad?
    {
      hide ReadPacket;
      PacketTakesBytes(incoming);
      match ReadPacket(incoming)
      case Got(p, rest) =>
        incoming := rest;
        r := Done(p);
      case Short => r := Closed;
      case Bad => r := Malformed;
    }

    /** Queues a publication and acknowledges it; anything else is dropped. */
    method StorePublish(p: RawPacket)
      requires 1 <= packetId && Parses(wire, seen + [p], incoming) && Balanced(returned, inbox, sent, seen)
      requires forall i :: 0 <= i < |sent| && !sent[i].Puback? ==> 1 <= sent[i].id
      modifies this`inbox, this`sent, this`seen
      ensures Valid() && seen == old(seen) + [p]
      ensures inbox == old(inbox) + if IsPublication(p) then [MessageOf(p)] else []
      ensures sent == old(sent) + if IsPublication(p) && IsAcknowledged(p) then [Puback(MessageOf(p).id)] else []
    {
      hide Balanced, Parses, MessageOf;
      StoreKeeps(returned, inbox, sent, seen, p);
      seen := seen + [p];
      if IsPublication(p) {
        var m := MessageOf(p);
        if IsAcknowledged(p) { sent := sent + [Puback(m.id)]; }
        inbox := inbox + [m];
      }
    }

    /** Reads on, keeping publications, until the reply that is waited for. */
    method WaitFor(reply: Reply) returns (r: Outcome<()>)
      requires Valid()
      modifies this`inbox, this`sent, this`seen, this`incoming
      ensures Valid()
      ensures old(seen) <= seen && old(inbox) <= inbox && old(sent) <= sent
      ensures r.Done? ==> |seen| > |old(seen)| && reply.IsAnsweredBy(seen[|seen| - 1])
      ensures forall i :: |old(seen)| <= i < |seen| - (if r.Done? then 1 else 0) ==> !reply.IsAnsweredBy(seen[i])
      ensures forall i :: |old(sent)| <= i < |sent| ==> sent[i].Puback?
      ensures (r.Closed? ==> ReadPacket(incoming).Short?) && (r.Malformed? ==> ReadPacket(incoming).Bad?)
    {
      hide Balanced, Parses, MessageOf, ReadPacket;
      while true
        invariant Valid()
        invariant old(seen) <= seen && old(inbox) <= inbox && old(sent) <= sent
        invariant forall i :: |old(seen)| <= i < |seen| ==> !reply.IsAnsweredBy(seen[i])
        invariant forall i :: |old(sent)| <= i < |sent| ==> sent[i].Puback?
        decreases |incoming|
      {
        ghost var before := incoming;
        var p := ReadNext();
        if !p.Done? { return if p.Closed? then Closed else Malformed; }
        ParsesMore(wire, seen, before, p.value, incoming);
        if reply.IsAnsweredBy(p.value) {
          StoreKeeps(returned, inbox, sent, seen, p.value);
          seen := seen + [p.value];
          return Done(());
        }
        StorePublish(p.value);
      }
    }

    method SubscribeTo(topics: seq<Stream>) returns (r: Outcome<()>)
      requires Valid()
      modifies this`packetId, this`inbox, this`sent, this`seen, this`incoming
      ensures Valid() && old(inbox) <= inbox
      ensures old(sent) + [Subscribe(old(packetId), topics)] <= sent
      ensures (r.Closed? ==> ReadPacket(incoming).Short?) && (r.Malformed? ==> ReadPacket(incoming).Bad?)
      ensures r.Done? ==> |seen| > |old(seen)| && SubscribeReply(old(packetId)).IsAnsweredBy(seen[|seen| - 1])
    {
      hide Balanced, Parses;
      var id := NextId();
      SendKeeps(returned, inbox, sent, seen, Subscribe(id, topics));
      sent := sent + [Subscribe(id, topics)];
      r := WaitFor(SubscribeReply(id));
    }

    method PublishTo(topic: Stream, payload: Stream) returns (r: Outcome<()>)
      requires Valid()
      modifies this`packetId, this`inbox, this`sent, this`seen, this`incoming
      ensures Valid() && old(inbox) <= inbox
      ensures old(sent) + [Publish(old(packetId), topic, payload)] <= sent
      ensures (r.Closed? ==> ReadPacket(incoming).Short?) && (r.Malformed? ==> ReadPacket(incoming).Bad?)
      ensures r.Done? ==> |seen| > |old(seen)| && PublishReply(old(packetId)).IsAnsweredBy(seen[|seen| - 1])
    {
      hide Balanced, Parses;
      var id := NextId();
      SendKeeps(returned, inbox, sent, seen, Publish(id, topic, payload));
      sent := sent + [Publish(id, topic, payload)];
      r := WaitFor(PublishReply(id));
    }

    /** The next publication on a topic: the oldest queued one, or else the first that arrives. */
    method WaitPublish(topic: Stream) returns (r: Outcome<Stream>)
      requires Valid()
      modifies this`inbox, this`sent, this`seen, this`incoming, this`returned
      ensures Valid() && old(seen) <= seen
      ensures r.Done? ==> On(returned, topic) == On(old(returned), topic) + [r.value]
      ensures r.Done? ==> On(returned, topic) <= On(Arrived(seen), topic)
      ensures forall other :: other != topic || !r.Done? ==> On(returned, other) == On(old(returned), other)
      ensures r.Done? && On(old(inbox), topic) != [] ==> seen == old(seen)
      ensures !r.Done? ==> On(inbox, topic) == []
      ensures forall i :: |old(sent)| <= i < |sent| ==> sent[i].Puback?
      ensures (r.Closed? ==> ReadPacket(incoming).Short?) && (r.Malformed? ==> ReadPacket(incoming).Bad?)
    {
      hide Balanced, Parses, MessageOf, ReadPacket, On;
      while true
        invariant Valid() && old(seen) <= seen && returned == old(returned)
        invariant seen == old(seen) ==> inbox == old(inbox)
        invariant seen != old(seen) ==> On(old(inbox), topic) == []
        invariant |old(sent)| <= |sent| && forall i :: |old(sent)| <= i < |sent| ==> sent[i].Puback?
        decreases |incoming|
      {
        var index := 0;
        while index < |inbox| && inbox[index].topic != topic
          invariant 0 <= index <= |inbox|
          invariant forall j :: 0 <= j < index ==> inbox[j].topic != topic
        {
          index := index + 1;
        }
        if index < |inbox| {
          var m := inbox[index];
          TakeKeeps(returned, inbox, sent, seen, index);
          OneReturned(returned, m);
          returned := returned + [m];
          inbox := inbox[..index] + inbox[index + 1..];
          ReturnedInOrder(returned, inbox, sent, seen, topic);
          return Done(m.payload);
        }
        OnNone(inbox, topic);
        ghost var before := incoming;
        var p := ReadNext();
        if !p.Done? { return if p.Closed? then Closed else Malformed; }
        ParsesMore(wire, seen, before, p.value, incoming);
        StorePublish(p.value);
      }
    }

    /**
      `wait_pattern_publish`: the next packet, checked against the pattern chunk by chunk while it is
      read. It does not look into the queue. A packet whose front is longer than the packet is
      returned as one that does not match, and the stream is then out of step.
     */
    method WaitPatternPublish(topic: Stream, seed: int, size: nat) returns (r: Outcome<Checked>)
      requires Valid()
      modifies this`sent, this`seen, this`incoming, this`returned
      ensures var front := ReadFront(old(incoming));
              && (r.Done? <==> front.Got? && front.value.size <= |front.rest|)
              && (r.Malformed? <==> front.Bad?)
      ensures !r.Done? ==>
        Valid() && incoming == old(incoming) && sent == old(sent) && seen == old(seen) && returned == old(returned)
      ensures r.Done? && ReadFront(old(incoming)).value.size < 0 ==>
        && r.value == Checked([], false) && seen == old(seen) && returned == old(returned)
        && incoming == ReadFront(old(incoming)).rest && !Valid()
      ensures r.Done? && ReadFront(old(incoming)).value.size >= 0 ==>
        var p := ReadPacket(old(incoming));
        && p.Got? && IsPublication(p.value) && incoming == p.rest
        && var m := MessageOf(p.value);
        var queue := On(inbox, m.topic);
        && r.value == Checked(m.payload, m.topic == topic && m.payload == Payload.Pattern(seed, 0, size))
        && seen == old(seen) + [p.value] && returned == old(returned) + [m]
        && sent == old(sent) + AcknowledgedById(m)
        && (Valid() <==> CanPass(inbox, p.value))
        && (On(returned, m.topic) <= On(Arrived(seen), m.topic) <==> queue == [] || queue[0] == m.payload)
    {
      hide Balanced, Parses, MessageOf, ReadPacket, ReadFront, On, Arrived, Payload.Pattern,
        IsPublication, CanPass, AcknowledgedById;
      var front := ReadFront(incoming);
      if !front.Got? { return if front.Short? then Closed else Malformed; }
      var Front(actualTopic, id, payloadSize) := front.value;
      var checked := CheckPayload(front.rest, payloadSize, seed);
      if !checked.Done? { return Closed; }
      var payload := checked.value.payload;
      var valid := actualTopic == topic && payloadSize == size && checked.value.valid;
      var rest := front.rest[|payload|..];
      if payloadSize >= 0 {
        FrontIsPacket(incoming);
        SamePattern(payload, seed, size);
        ghost var p := ReadPacket(incoming).value;
        PassKeepsIff(returned, inbox, sent, seen, p);
        PassIsNextIff(returned, inbox, sent, seen, p);
        ParsesMore(wire, seen, incoming, p, rest);
        seen, returned := seen + [p], returned + [MessageOf(p)];
      }
      OutOfStep(wire, old(seen), old(incoming), rest);
      incoming := rest;
      if id != 0 { sent := sent + [Puback(id)]; }
      ByIdentifier(old(sent), Message(actualTopic, payload, id));
      r := Done(Checked(payload, valid));
    }
  }

  /** The payload, of which the caller gets the digest, and whether it is the one expected. */
  datatype Checked = Checked(payload: Stream, valid: bool)

  /** The front alone takes bytes off the stream, so the packets seen before do not lead there. */
  lemma OutOfStep(wire: Stream, seen: seq<RawPacket>, s: Stream, rest: Stream)
    requires Parses(wire, seen, s)
    ensures ReadFront(s).Got? && rest == ReadFront(s).rest ==> !Parses(wire, seen, rest)
  {
    if ReadFront(s).Got? && Parses(wire, seen, ReadFront(s).rest) {
      HeaderTakesBytes(s);
      ParsesOnce(wire, seen, s, ReadFront(s).rest);
      assert false;
    }
  }

  /** The chunk loop of `wait_pattern_publish`. */
  method CheckPayload(s: Stream, size: int, seed: int) returns (r: Outcome<Checked>)
    ensures !r.Malformed? && (r.Done? <==> size <= |s|)
    ensures r.Done? ==>
      var payload := if size < 0 then [] else s[..size];
      r.value == Checked(payload, payload == Payload.Pattern(seed, 0, |payload|))
  {
    hide Payload.Pattern, Payload.PayloadSlice;
    EmptyPattern(seed);
    var valid, offset, payload, rest := true, 0, [], s;
    while offset < size
      invariant offset == |payload| <= |s| && payload == s[..offset] && rest == s[offset..]
      invariant offset <= size || (offset == 0 && size < 0)
      invariant valid <==> payload == Payload.Pattern(seed, 0, |payload|)
    {
      var count := if size - offset < 1024 then size - offset else 1024;
      if |rest| < count { return Closed; }
      var chunk := rest[..count];
      PatternGrows(payload, chunk, seed);
      Payload.SliceIsPattern(seed, offset, count);
      valid := valid && Payload.Slice(chunk) == Payload.PayloadSlice(seed, offset, count);
      payload, rest := payload + chunk, rest[count..];
      offset := offset + count;
    }
    r := Done(Checked(payload, valid));
  }

  lemma ByIdentifier(sent: seq<Outgoing>, m: Message)
    ensures sent + AcknowledgedById(m) == if m.id != 0 then sent + [Puback(m.id)] else sent
  {}

  lemma EmptyPattern(seed: int)
    ensures Payload.Pattern(seed, 0, 0) == []
  {}

  lemma SamePattern(payload: Stream, seed: int, size: nat)
    ensures payload == Payload.Pattern(seed, 0, size)
       <==> |payload| == size && payload == Payload.Pattern(seed, 0, |payload|)
  {}

  /** More chunks extend the pattern if they are the pattern. */
  lemma PatternGrows(payload: Stream, chunk: Stream, seed: int)
    ensures payload + chunk == Payload.Pattern(seed, 0, |payload| + |chunk|)
       <==> payload == Payload.Pattern(seed, 0, |payload|) && chunk == Payload.Pattern(seed, |payload|, |chunk|)
  {
    hide Payload.PayloadByte;
    var n, whole := |payload|, Payload.Pattern(seed, 0, |payload| + |chunk|);
    assert (payload + chunk)[..n] == payload && (payload + chunk)[n..] == chunk;
    assert whole[..n] == Payload.Pattern(seed, 0, n);
    assert whole[n..] == Payload.Pattern(seed, n, |chunk|);
    assert whole == whole[..n] + whole[n..];
  }

  lemma OneReturned(returned: seq<Message>, m: Message)
    ensures forall topic ::
              On(returned + [m], topic) == On(returned, topic) + if m.topic == topic then [m.payload] else []
  {
    hide On;
    forall topic
      ensures On(returned + [m], topic) == On(returned, topic) + if m.topic == topic then [m.payload] else []
    {
      OnAppend(returned, [m], topic);
      OnOne(m, topic);
    }
  }
}

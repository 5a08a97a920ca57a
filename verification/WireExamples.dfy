/**
  Bytes of real messages, written out. Writers and readers agree by the round trips; these say what
  is on the wire between them, number by number.
 */
module WireExamples {
  import opened Bytes
  import opened Framing
  import opened Packets
  import opened Text
  import Device
  import Payload
  import Server
  import Uplink

  /** Topics are announced by two bytes of length, high byte first, and asked for at quality of service 1. */
  lemma SubscribeBytes()
    ensures Device.EncodeSubscribe(258)
         == [0x82, 31, 1, 2, 0, 13] + Ascii("bench/control") + [1, 0, 10] + Ascii("bench/down") + [1]
  {
    hide Ascii;
    assert EncodeRemaining(31) == [31];
  }

  lemma AcknowledgementBytes()
    ensures Server.EncodeSuback(258) == [0x90, 4, 1, 2, 1, 1]
    ensures EncodePuback(258) == [0x40, 2, 1, 2]
  {}

  lemma PublishBytes()
    ensures EncodePublish(Ascii("bench/up"), 258, Ascii("READY"))
         == [0x32, 17, 0, 8] + Ascii("bench/up") + [1, 2] + Ascii("READY")
  {}

  /** Sizes of 128 and more take a second digit of Remaining Length: 65550 are 14, 0 and 4. */
  lemma LongHeaderBytes()
    ensures EncodeRemaining(127) == [127]
    ensures EncodeRemaining(65550) == [142, 128, 4]
    ensures EncodeRemaining(268_435_455) == [255, 255, 255, 127]
  {
    assert Digits(4, 2) == [4];
    assert Digits(512, 3) == [128, 4];
    assert Digits(127, 1) == [127];
    assert Digits(16383, 2) == [255, 127];
    assert Digits(2097151, 3) == [255, 255, 127];
  }

  lemma BeginBytes()
    ensures FormatBegin(4096) == Ascii("BEGIN 4096")
  {
    hide Decimal;
    Numbers();
  }

  lemma CommandBytes(hash: Stream)
    ensures FormatCommand(Command(Ascii("DOWN"), 7, 1024, 65535, hash)) == Ascii("DOWN 7 1024 65535 ") + hash
  {
    hide Decimal;
    Numbers();
  }

  lemma AckBytes(hash: Stream)
    ensures FormatAck(Ascii("ACK_UP"), 12, 1, hash) == Ascii("ACK_UP 12 1 ") + hash
  {
    hide Decimal;
    Numbers();
  }

  lemma Numbers()
    ensures Decimal(1) == Ascii("1") && Decimal(7) == Ascii("7") && Decimal(12) == Ascii("12")
    ensures Decimal(1024) == Ascii("1024") && Decimal(4096) == Ascii("4096") && Decimal(65535) == Ascii("65535")
  {}

  /** The byte behind a page is one page's step further: 1234 + 300 * 31 + 17 is 55 more than a multiple of 256. */
  lemma PatternBytes()
    ensures Payload.Pattern(1234, 0, 3) == [210, 241, 16]
    ensures Payload.Pattern(1234, 300, 1) == [55]
    ensures Payload.Pattern(1234, 65536 + 300, 1) == [55]
  {}

  /** Lengths and identifiers on the BLE side have their low byte first. */
  lemma SduBytes(payload: Stream)
    requires |payload| == 300
    ensures Uplink.EncodeSdu(payload) == [44, 1] + payload
    ensures Uplink.Frames(Ascii("AB"), 9, 258)
         == [Ascii("BCTL1") + [1, 2, 1] + Ascii("A"), Ascii("BCTL1") + [2, 2, 1] + Ascii("B")]
  {
    var message := Ascii("AB");
    assert message[0..1] == Ascii("A") && message[1..2] == Ascii("B");
    FrameBytes(1, Ascii("A"));
    FrameBytes(2, Ascii("B"));
    assert Uplink.FramesFrom(message, 1, 1, 258) == [Uplink.Frame(2, 258, Ascii("B"))];
  }

  lemma FrameBytes(flags: byte, piece: Stream)
    ensures Uplink.Frame(flags, 258, piece) == Ascii("BCTL1") + [flags, 2, 1] + piece
  {}
}

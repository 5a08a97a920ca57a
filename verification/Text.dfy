/**
  The text messages of the transfer session: what `snprintf` writes on one side and what
  `sscanf` and `strcmp` make of it on the other.
 */
module Text {
  import opened Bytes

  datatype Option<+T> = None | Some(value: T)

  datatype Command = Command(direction: Stream, order: nat, size: nat, seed: nat, hash: Stream)

  datatype Ack = Ack(order: nat, valid: nat, hash: Stream)

  function Ascii(s: string): (r: Stream)
    requires forall i :: 0 <= i < |s| ==> s[i] as int < 128
    ensures |r| == |s|
  {
    seq<byte>(|s|, i requires 0 <= i < |s| => s[i] as int)
  }

  // ----- scanning

  predicate IsSpace(b: byte) {
    b == 32 || 9 <= b <= 13
  }

  predicate IsDigit(b: byte) {
    48 <= b <= 57
  }

  /** The bytes in front of the terminating NUL a reader puts behind the buffer. */
  function CString(s: Stream): Stream {
    if s == [] || s[0] == 0 then [] else [s[0]] + CString(s[1..])
  }

  function SkipSpace(s: Stream): Stream {
    if s != [] && IsSpace(s[0]) then SkipSpace(s[1..]) else s
  }

  function ScanDigits(s: Stream, total: nat): (nat, Stream) {
    if s != [] && IsDigit(s[0]) then ScanDigits(s[1..], total * 10 + (s[0] - 48)) else (total, s)
  }

  /** `%u`. */
  function ScanUnsigned(s: Stream): Option<(nat, Stream)> {
    var t := SkipSpace(s);
    if t == [] || !IsDigit(t[0]) then None else Some(ScanDigits(t, 0))
  }

  function Word(s: Stream, max: nat): (Stream, Stream) {
    if s == [] || max == 0 || IsSpace(s[0]) then ([], s)
    else
      var (word, rest) := Word(s[1..], max - 1);
      ([s[0]] + word, rest)
  }

  /** `%<max>s`. */
  function ScanWord(s: Stream, max: nat): Option<(Stream, Stream)> {
    var (word, rest) := Word(SkipSpace(s), max);
    if word == [] then None else Some((word, rest))
  }

  /** `sscanf(text, "BEGIN %u", …) == 1`. */
  function ParseBegin(text: Stream): Option<nat> {
    var s, tag := CString(text), Ascii("BEGIN");
    if !(tag <= s) then None else
    match ScanUnsigned(s[|tag|..])
    case Some((n, _)) => Some(n)
    case None => None
  }

  /** Three unsigned numbers and a word of at most 64 bytes. */
  function ScanTail(s: Stream): Option<(nat, nat, nat, Stream)> {
    match ScanUnsigned(s)
    case None => None
    case Some((a, s1)) =>
      match ScanUnsigned(s1)
      case None => None
      case Some((b, s2)) =>
        match ScanUnsigned(s2)
        case None => None
        case Some((c, s3)) =>
          match ScanWord(s3, 64)
          case None => None
          case Some((w, _)) => Some((a, b, c, w))
  }

  /** `sscanf(text, "%7s %u %u %u %64s", …) == 5`. */
  function ParseCommand(text: Stream): Option<Command> {
    match ScanWord(CString(text), 7)
    case None => None
    case Some((direction, rest)) =>
      match ScanTail(rest)
      case None => None
      case Some((order, size, seed, hash)) => Some(Command(direction, order, size, seed, hash))
  }

  /** `sscanf(text, "ACK_UP %u %u %64s", …) == 3`. */
  function ParseAckUp(text: Stream): Option<Ack> {
    var s, tag := CString(text), Ascii("ACK_UP");
    if !(tag <= s) then None else
    match ScanUnsigned(s[|tag|..])
    case None => None
    case Some((order, s1)) =>
      match ScanUnsigned(s1)
      case None => None
      case Some((valid, s2)) =>
        match ScanWord(s2, 64)
        case None => None
        case Some((hash, _)) => Some(Ack(order, valid, hash))
  }

  /** White space is what `isspace` says in the C locale: tab to carriage return, and blank. */
  lemma SpaceIsSkipped(b: byte, s: Stream)
    ensures SkipSpace([b] + s) == if b in {9, 10, 11, 12, 13, 32} then SkipSpace(s) else [b] + s
    ensures SkipSpace([]) == []
  {
    assert ([b] + s)[1..] == s;
  }

  /** A number goes on with each of the ten digits and ends before any other byte. */
  lemma DigitIsScanned(b: byte, s: Stream, total: nat)
    ensures ScanDigits([b] + s, total)
         == if b in {48, 49, 50, 51, 52, 53, 54, 55, 56, 57} then ScanDigits(s, 10 * total + (b - 48))
            else (total, [b] + s)
    ensures ScanDigits([], total) == (total, [])
  {
    assert ([b] + s)[1..] == s;
  }

  // ----- formatting

  function Decimal(n: nat): (s: Stream)
    ensures s != []
  {
    if n < 10 then [48 + n] else Decimal(n / 10) + [48 + n % 10]
  }

  const SPACE: Stream := [32]

  function FormatBegin(count: nat): Stream {
    Ascii("BEGIN") + (SPACE + Decimal(count))
  }

  function FormatCommand(c: Command): Stream {
    c.direction + FormatTail(c.order, c.size, c.seed, c.hash)
  }

  function FormatTail(a: nat, b: nat, c: nat, w: Stream): Stream {
    SPACE + Decimal(a) + (SPACE + Decimal(b) + (SPACE + Decimal(c) + (SPACE + w)))
  }

  function FormatAck(tag: Stream, order: nat, valid: nat, hash: Stream): Stream {
    tag + (SPACE + Decimal(order) + (SPACE + Decimal(valid) + (SPACE + hash)))
  }

  // ----- what is written is what is scanned

  /** Bytes a `%s` conversion takes as they are. */
  predicate IsWord(s: Stream) {
    s != [] && forall i :: 0 <= i < |s| ==> s[i] != 0 && !IsSpace(s[i])
  }

  /** A SHA-256 digest in lowercase hexadecimal. */
  predicate IsDigest(s: Stream) {
    |s| == 64 && forall i :: 0 <= i < 64 ==> IsDigit(s[i]) || 97 <= s[i] <= 102
  }

  predicate NoNul(s: Stream) {
    forall i :: 0 <= i < |s| ==> s[i] != 0
  }

  lemma {:induction false} CStringOfText(s: Stream)
    requires NoNul(s)
    ensures CString(s) == s
  {
    if s != [] { CStringOfText(s[1..]); }
  }

  lemma {:induction false} DecimalDigits(n: nat)
    ensures forall i :: 0 <= i < |Decimal(n)| ==> IsDigit(Decimal(n)[i])
  {
    if n >= 10 { DecimalDigits(n / 10); }
  }

  lemma {:induction false} ScanDecimal(n: nat, t: Stream)
    ensures ScanDigits(Decimal(n) + t, 0) == ScanDigits(t, n)
  {
    if n < 10 {
      assert (Decimal(n) + t)[1..] == t;
    } else {
      var d: Stream := [48 + n % 10];
      assert Decimal(n) + t == Decimal(n / 10) + (d + t);
      ScanDecimal(n / 10, d + t);
      assert (d + t)[1..] == t;
      assert (n / 10) * 10 + n % 10 == n;
    }
  }

  /** A space, a number and then anything that is not a digit. */
  lemma UnsignedRoundTrip(n: nat, t: Stream)
    requires t == [] || !IsDigit(t[0])
    ensures ScanUnsigned(SPACE + Decimal(n) + t) == Some((n, t))
  {
    var s := SPACE + Decimal(n) + t;
    var u := Decimal(n) + t;
    assert s[1..] == u;
    DecimalDigits(n);
    assert SkipSpace(s) == SkipSpace(u) == u;
    ScanDecimal(n, t);
  }

  lemma {:induction false} WordRoundTrip(w: Stream, t: Stream, max: nat)
    requires forall i :: 0 <= i < |w| ==> !IsSpace(w[i])
    requires |w| <= max && (t == [] || IsSpace(t[0]))
    ensures Word(w + t, max) == (w, t)
  {
    if w == [] {
      assert w + t == t;
    } else {
      assert (w + t)[1..] == w[1..] + t;
      WordRoundTrip(w[1..], t, max - 1);
      assert [w[0]] + w[1..] == w;
    }
  }

  /** The last word of a message, behind its space. */
  lemma LastWord(w: Stream)
    requires IsWord(w) && |w| <= 64
    ensures ScanWord(SPACE + w, 64) == Some((w, []))
  {
    assert (SPACE + w)[1..] == w;
    assert SkipSpace(w) == w;
    WordRoundTrip(w, [], 64);
    assert w + [] == w;
  }

  lemma TailRoundTrip(a: nat, b: nat, c: nat, w: Stream)
    requires IsWord(w) && |w| <= 64
    ensures ScanTail(FormatTail(a, b, c, w)) == Some((a, b, c, w))
  {
    UnsignedRoundTrip(a, SPACE + Decimal(b) + (SPACE + Decimal(c) + (SPACE + w)));
    UnsignedRoundTrip(b, SPACE + Decimal(c) + (SPACE + w));
    UnsignedRoundTrip(c, SPACE + w);
    LastWord(w);
  }

  lemma TailNoNul(a: nat, b: nat, c: nat, w: Stream)
    requires NoNul(w)
    ensures NoNul(FormatTail(a, b, c, w))
  {
    DecimalDigits(a);
    DecimalDigits(b);
    DecimalDigits(c);
  }

  lemma BeginRoundTrip(count: nat)
    ensures ParseBegin(FormatBegin(count)) == Some(count)
  {
    var s, tag := FormatBegin(count), Ascii("BEGIN");
    DecimalDigits(count);
    CStringOfText(s);
    assert s[|tag|..] == SPACE + Decimal(count) + [];
    UnsignedRoundTrip(count, []);
  }

  lemma CommandRoundTrip(c: Command)
    requires IsWord(c.direction) && |c.direction| <= 7 && IsWord(c.hash) && |c.hash| <= 64
    ensures ParseCommand(FormatCommand(c)) == Some(c)
  {
    var tail := FormatTail(c.order, c.size, c.seed, c.hash);
    TailNoNul(c.order, c.size, c.seed, c.hash);
    CStringOfText(FormatCommand(c));
    assert SkipSpace(c.direction + tail) == c.direction + tail;
    WordRoundTrip(c.direction, tail, 7);
    TailRoundTrip(c.order, c.size, c.seed, c.hash);
  }

  lemma AckNoNul(tag: Stream, order: nat, valid: nat, hash: Stream)
    requires NoNul(tag) && NoNul(hash)
    ensures NoNul(FormatAck(tag, order, valid, hash))
  {
    DecimalDigits(order);
    DecimalDigits(valid);
  }

  lemma AckUpRoundTrip(order: nat, valid: nat, hash: Stream)
    requires IsWord(hash) && |hash| <= 64
    ensures ParseAckUp(FormatAck(Ascii("ACK_UP"), order, valid, hash)) == Some(Ack(order, valid, hash))
  {
    var tag := Ascii("ACK_UP");
    var s := FormatAck(tag, order, valid, hash);
    AckNoNul(tag, order, valid, hash);
    CStringOfText(s);
    var rest := SPACE + Decimal(valid) + (SPACE + hash);
    assert s[|tag|..] == SPACE + Decimal(order) + rest;
    UnsignedRoundTrip(order, rest);
    UnsignedRoundTrip(valid, SPACE + hash);
    LastWord(hash);
  }

  /** The longest command and acknowledgement stay well inside the 192-byte control buffers. */
  lemma {:induction false} DecimalLength(n: nat, digits: nat)
    requires digits >= 1 && n < Power10(digits)
    ensures |Decimal(n)| <= digits
  {
    if n >= 10 {
      if digits == 1 { assert false; }
      DecimalLength(n / 10, digits - 1);
    }
  }

  function Power10(n: nat): nat {
    if n == 0 then 1 else 10 * Power10(n - 1)
  }

  lemma Uint32Digits(n: uint32)
    ensures |Decimal(n)| <= 10
  {
    assert Power10(2) == 10 * Power10(1) == 10 * (10 * Power10(0));
    assert Power10(4) == 10 * Power10(3) == 10 * (10 * Power10(2));
    assert Power10(6) == 10 * Power10(5) == 10 * (10 * Power10(4));
    assert Power10(8) == 10 * Power10(7) == 10 * (10 * Power10(6));
    assert Power10(10) == 10 * Power10(9) == 10 * (10 * Power10(8));
    DecimalLength(n, 10);
  }
}

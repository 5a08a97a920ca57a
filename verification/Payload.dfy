/**
  The deterministic transfer payload: one byte as a formula of seed and offset, the fast
  generator that cuts slices out of a 64 KiB period, and the wrapping 32-bit form the two
  C programs use.
 */
module Payload {
  import opened Bytes

  const PAYLOAD_PERIOD_SIZE: int := 65536

  datatype SliceResult = Slice(data: Stream) | ValueError

  // ----- the per-byte definition

  function PayloadByte(seed: int, offset: nat): byte {
    (seed + offset * 31 + (offset / 256) * 17) % 256
  }

  /** What `size` bytes of the payload from `offset` on are, byte by byte. */
  function Pattern(seed: int, offset: nat, size: nat): Stream {
    seq<byte>(size, i requires 0 <= i => PayloadByte(seed, offset + i))
  }

  /** `pattern_byte` of the firmware and of the TLS server: every operation wraps at 32 bits. */
  function PatternByte(seed: uint32, offset: uint32): byte {
    var scaled := offset * 31 % TWO_TO_THE_32;
    var paged := (offset / 256) * 17 % TWO_TO_THE_32;
    (((seed + scaled) % TWO_TO_THE_32 + paged) % TWO_TO_THE_32) % 256
  }

  lemma PatternByteIsPayloadByte(seed: uint32, offset: uint32)
    ensures PatternByte(seed, offset) == PayloadByte(seed, offset)
  {
    var a, b := offset * 31, (offset / 256) * 17;
    var first := (seed + a % TWO_TO_THE_32) % TWO_TO_THE_32;
    WrapKeepsLowByte(a, seed);
    WrapKeepsLowByte(b, first);
    AddKeepsResidue(first, seed + a, b);
  }

  /** Wrapping at 32 bits before or after an addition does not change the low byte. */
  lemma WrapKeepsLowByte(x: nat, y: nat)
    ensures (y + x % TWO_TO_THE_32) % TWO_TO_THE_32 % 256 == (y + x) % 256
  {
  }

  lemma AddKeepsResidue(x: int, y: int, b: int)
    requires x % 256 == y % 256
    ensures (x + b) % 256 == (y + b) % 256
  {
  }

  // ----- the period

  function BasePeriod(): (s: Stream)
    ensures |s| == PAYLOAD_PERIOD_SIZE
  {
    seq<byte>(PAYLOAD_PERIOD_SIZE, offset requires 0 <= offset => PayloadByte(0, offset))
  }

  /** The base period with every byte shifted by the low byte of the seed. */
  function Period(seedLowByte: byte): (s: Stream)
    ensures |s| == PAYLOAD_PERIOD_SIZE
  {
    seq<byte>(PAYLOAD_PERIOD_SIZE, i requires 0 <= i < PAYLOAD_PERIOD_SIZE => (BasePeriod()[i] + seedLowByte) % 256)
  }

  function Repeat(s: Stream, times: nat): (r: Stream)
    ensures |r| == times * |s|
  {
    if times == 0 then [] else Repeat(s, times - 1) + s
  }

  function PayloadSlice(seed: int, offset: int, size: int): SliceResult {
    if offset < 0 || size < 0 then ValueError else
    var period := Period(seed % 256);
    var start := offset % PAYLOAD_PERIOD_SIZE;
    var first := if size < PAYLOAD_PERIOD_SIZE - start then size else PAYLOAD_PERIOD_SIZE - start;
    var remaining := size - first;
    Slice(period[start..start + first]
          + Repeat(period, remaining / PAYLOAD_PERIOD_SIZE)
          + period[..remaining % PAYLOAD_PERIOD_SIZE])
  }

  ghost predicate IsPeriod(seed: int, p: nat) {
    forall offset: nat :: PayloadByte(seed, offset + p) == PayloadByte(seed, offset)
  }

  lemma PeriodAt(seed: int, i: nat)
    requires i < PAYLOAD_PERIOD_SIZE
    ensures Period(seed % 256)[i] == PayloadByte(seed, i)
  {
    assert Period(seed % 256)[i] == (BasePeriod()[i] + seed % 256) % 256;
    assert BasePeriod()[i] == PayloadByte(0, i);
    SumOfResidues(i * 31 + (i / 256) * 17, seed);
  }

  lemma SumOfResidues(a: int, b: int)
    ensures ((0 + a) % 256 + b % 256) % 256 == (b + a) % 256
  {
  }

  lemma {:induction false} Periodic(seed: int, offset: nat, times: nat)
    ensures PayloadByte(seed, offset + times * PAYLOAD_PERIOD_SIZE) == PayloadByte(seed, offset)
  {
    if times > 0 {
      var o := offset + (times - 1) * PAYLOAD_PERIOD_SIZE;
      assert (o + PAYLOAD_PERIOD_SIZE) / 256 == o / 256 + 256;
      assert PayloadByte(seed, o + PAYLOAD_PERIOD_SIZE) == PayloadByte(seed, o);
      Periodic(seed, offset, times - 1);
    }
  }

  lemma RepeatAt(s: Stream, times: nat, i: nat)
    requires s != [] && i < times * |s|
    ensures Repeat(s, times)[i] == s[i % |s|]
  {
    var before := (times - 1) * |s|;
    if i < before {
      RepeatAt(s, times - 1, i);
    } else {
      var rest := i - before;
      assert i == rest + (times - 1) * |s|;
      ModShift(rest, times - 1, |s|);
    }
  }

  lemma ModShift(r: nat, q: nat, d: nat)
    requires r < d
    ensures (r + q * d) % d == r && (r + q * d) / d == q
  {
    var n := r + q * d;
    assert n == (n / d) * d + n % d;
    var k := n / d - q;
    assert k * d == r - n % d;
  }

  /** The fast generator is the per-byte definition, for every non-negative offset and size. */
  lemma SliceIsPattern(seed: int, offset: nat, size: nat)
    ensures PayloadSlice(seed, offset, size) == Slice(Pattern(seed, offset, size))
  {
    hide PayloadByte, Period, Repeat;
    var p := PAYLOAD_PERIOD_SIZE;
    var period := Period(seed % 256);
    var start := offset % p;
    var first := if size < p - start then size else p - start;
    var remaining := size - first;
    var copies := remaining / p;
    var data := PayloadSlice(seed, offset, size).data;
    assert |data| == first + copies * p + remaining % p == size;
    forall i | 0 <= i < size
      ensures data[i] == PayloadByte(seed, offset + i)
    {
      if i < first {
        PeriodAt(seed, start + i);
        Periodic(seed, start + i, offset / p);
      } else {
        var j := i - first;
        var turns := offset / p + 1;
        assert offset + i == j + turns * p;
        Periodic(seed, j, turns);
        if j < copies * p {
          RepeatAt(period, copies, j);
        } else {
          assert j / p == copies;
        }
        PeriodAt(seed, j % p);
        Periodic(seed, j % p, j / p);
        assert data[i] == period[j % p];
      }
    }
    assert data == Pattern(seed, offset, size);
  }

  /** Adjacent slices concatenate. */
  lemma AdjacentSlices(seed: int, offset: nat, a: nat, b: nat)
    ensures PayloadSlice(seed, offset, a).Slice? && PayloadSlice(seed, offset + a, b).Slice?
    ensures PayloadSlice(seed, offset, a + b)
         == Slice(PayloadSlice(seed, offset, a).data + PayloadSlice(seed, offset + a, b).data)
  {
    hide PayloadSlice, PayloadByte;
    SliceIsPattern(seed, offset, a);
    SliceIsPattern(seed, offset + a, b);
    SliceIsPattern(seed, offset, a + b);
    assert Pattern(seed, offset, a + b) == Pattern(seed, offset, a) + Pattern(seed, offset + a, b);
  }

  lemma LowByte(x: int, k: int)
    ensures (x + 256 * k) % 256 == x % 256
  {}

  lemma Apart(a: int, b: int) returns (k: int)
    requires a % 256 == b % 256
    ensures a == b + 256 * k
  {
    k := a / 256 - b / 256;
  }

  lemma ByteAt(seed: int, high: nat, low: nat)
    requires low < 256
    ensures PayloadByte(seed, 256 * high + low) == (seed + low * 31 + high * 17) % 256
  {
    var offset := 256 * high + low;
    assert offset / 256 == high;
    assert seed + offset * 31 + high * 17 == (seed + low * 31 + high * 17) + 256 * (high * 31);
    LowByte(seed + low * 31 + high * 17, high * 31);
  }

  /** Offset 0 and the offset that carries into the next page together pin a period down. */
  lemma TwoOffsetsDecide(seed: int, high: nat, low: nat)
    requires low < 256
    requires PayloadByte(seed, 256 * high + low) == PayloadByte(seed, 0)
    requires low > 0 ==> PayloadByte(seed, 256 * (high + 1)) == PayloadByte(seed, 256 - low)
    ensures low == 0 && high % 256 == 0
  {
    hide PayloadByte;
    ByteAt(seed, high, low);
    ByteAt(seed, 0, 0);
    var k := Apart(seed + low * 31 + high * 17, seed);
    if low > 0 {
      ByteAt(seed, high + 1, 0);
      ByteAt(seed, 0, 256 - low);
      var j := Apart(seed + (high + 1) * 17, seed + (256 - low) * 31);
      assert 256 * (k - j) == 31 * 256 - 17;
      NotAMultiple(k - j);
    } else {
      SeventeenIsOdd(high, k);
    }
  }

  lemma NotAMultiple(k: int)
    ensures 256 * k != 31 * 256 - 17
  {}

  lemma SeventeenIsOdd(high: nat, k: int)
    requires high * 17 == 256 * k
    ensures high % 256 == 0
  {
    assert high == 256 * (k * 241 - high * 16);
    LowByte(0, k * 241 - high * 16);
  }

  /** The periods are the multiples of 65536, so 65536 is the smallest positive one. */
  lemma PeriodsAreMultiples(seed: int, p: nat)
    ensures IsPeriod(seed, p) <==> p % PAYLOAD_PERIOD_SIZE == 0
  {
    hide PayloadByte;
    if p % PAYLOAD_PERIOD_SIZE == 0 {
      forall offset: nat
        ensures PayloadByte(seed, offset + p) == PayloadByte(seed, offset)
      {
        Periodic(seed, offset, p / PAYLOAD_PERIOD_SIZE);
      }
    }
    if IsPeriod(seed, p) {
      var high, low := p / 256, p % 256;
      assert PayloadByte(seed, 0 + p) == PayloadByte(seed, 0);
      assert PayloadByte(seed, 256 - low + p) == PayloadByte(seed, 256 - low);
      assert p == 256 * high + low && 256 - low + p == 256 * (high + 1);
      TwoOffsetsDecide(seed, high, low);
    }
  }

  /** What `_payload_sha256` feeds to the digest is the payload the transfer carries. */
  lemma DigestedIsPattern(seed: int, size: nat)
    ensures Repeat(Period(seed % 256), size / PAYLOAD_PERIOD_SIZE)
          + Period(seed % 256)[..size % PAYLOAD_PERIOD_SIZE] == Pattern(seed, 0, size)
  {
    hide PayloadByte, Period, Repeat;
    var p, period := PAYLOAD_PERIOD_SIZE, Period(seed % 256);
    var data := Repeat(period, size / p) + period[..size % p];
    forall i | 0 <= i < size
      ensures data[i] == PayloadByte(seed, i)
    {
      if i < (size / p) * p { RepeatAt(period, size / p, i); }
      PeriodAt(seed, i % p);
      Periodic(seed, i % p, i / p);
      assert data[i] == period[i % p];
    }
  }

  // ----- the C programs

  /** `make_payload`: the buffer the server sends or compares against. */
  method MakePayload(seed: uint32, size: uint32) returns (payload: array<byte>)
    ensures fresh(payload) && payload[..] == Pattern(seed, 0, size)
  {
    payload := new byte[size](_ => 0);
    for i := 0 to size
      invariant payload[..i] == Pattern(seed, 0, i)
    {
      PatternByteIsPayloadByte(seed, i);
      payload[i] := PatternByte(seed, i);
    }
    assert payload[..] == payload[..size];
  }

  const MQTT_TX_CHUNK: int := 16 * 1024

  /** The chunk loop of `publish_pattern`: what it writes to TLS is the whole payload. */
  method StreamPattern(seed: uint32, size: uint32) returns (written: Stream)
    ensures written == Pattern(seed, 0, size)
  {
    var chunk := new byte[MQTT_TX_CHUNK](_ => 0);
    var sent := 0;
    written := [];
    while sent < size
      invariant sent <= size
      invariant written == Pattern(seed, 0, sent)
    {
      var count := if size - sent < MQTT_TX_CHUNK then size - sent else MQTT_TX_CHUNK;
      for i := 0 to count
        invariant chunk[..i] == Pattern(seed, sent, i)
      {
        PatternByteIsPayloadByte(seed, sent + i);
        chunk[i] := PatternByte(seed, sent + i);
      }
      assert Pattern(seed, 0, sent + count) == Pattern(seed, 0, sent) + Pattern(seed, sent, count);
      written := written + chunk[..count];
      sent := sent + count;
    }
  }

  const MQTT_RX_CHUNK: int := 512

  /**
    The receive loop of `read_publish`: the integrity flag is true exactly when the payload is the
    expected pattern, and an expected size of zero switches the check off.
   */
  method CheckIntegrity(payload: Stream, expectedSize: uint32, expectedSeed: uint32) returns (integrity: bool)
    requires |payload| < TWO_TO_THE_32
    ensures integrity <==> expectedSize == 0 || payload == Pattern(expectedSeed, 0, expectedSize)
  {
    var valid := true;
    var received := 0;
    while received < |payload|
      invariant received <= |payload|
      invariant valid <==> expectedSize == 0 || payload[..received] == Pattern(expectedSeed, 0, received)
    {
      var count := if |payload| - received < MQTT_RX_CHUNK then |payload| - received else MQTT_RX_CHUNK;
      var chunk := payload[received..received + count];
      if expectedSize != 0 {
        for i := 0 to count
          invariant valid <==> payload[..received + i] == Pattern(expectedSeed, 0, received + i)
        {
          PatternByteIsPayloadByte(expectedSeed, received + i);
          ExtendMatch(payload, expectedSeed, received + i);
          valid := valid && chunk[i] == PatternByte(expectedSeed, received + i);
        }
      }
      received := received + count;
    }
    assert payload[..|payload|] == payload;
    integrity := valid && (expectedSize == 0 || |payload| == expectedSize);
  }

  lemma ExtendMatch(payload: Stream, seed: int, n: nat)
    requires n < |payload|
    ensures payload[..n + 1] == Pattern(seed, 0, n + 1)
       <==> payload[..n] == Pattern(seed, 0, n) && payload[n] == PayloadByte(seed, n)
  {
    assert payload[..n + 1] == payload[..n] + [payload[n]];
    assert Pattern(seed, 0, n + 1) == Pattern(seed, 0, n) + [PayloadByte(seed, n)];
  }
}

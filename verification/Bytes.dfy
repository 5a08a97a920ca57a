/** Bytes and byte streams, the values every wire format of the benchmark is made of. */
module Bytes {

  type byte = b: int | 0 <= b < 256

  type Stream = seq<byte>

  const TWO_TO_THE_16: int := 0x1_0000
  const TWO_TO_THE_32: int := 0x1_0000_0000

  /** A C `uint16_t`. */
  type uint16 = n: int | 0 <= n < TWO_TO_THE_16

  /** A C `unsigned int` or `uint32_t`. */
  type uint32 = n: int | 0 <= n < TWO_TO_THE_32

  /** Big-endian 16-bit encoding, as MQTT writes lengths and packet identifiers. */
  function Big16(n: nat): (s: Stream)
    ensures |s| == 2
    ensures n < TWO_TO_THE_16 ==> FromBig16(s) == n && s[0] == n / 256
  {
    [(n / 256) % 256, n % 256]
  }

  function FromBig16(s: Stream): nat
    requires |s| >= 2
  {
    (s[0] as int) * 256 + s[1] as int
  }

  /** The pieces of a list, one after the other. */
  function Concat(pieces: seq<Stream>): Stream {
    if pieces == [] then [] else pieces[0] + Concat(pieces[1..])
  }

  lemma {:induction false} ConcatAppend(a: seq<Stream>, b: seq<Stream>)
    ensures Concat(a + b) == Concat(a) + Concat(b)
  {
    if a == [] {
      assert a + b == b;
    } else {
      assert (a + b)[1..] == a[1..] + b;
      ConcatAppend(a[1..], b);
    }
  }

  lemma ConcatOne(s: Stream)
    ensures Concat([s]) == s
  {
    assert [s][1..] == [];
  }
}

/** Byte strings and the fixed-width integer encodings the wire formats use. */
module Bytes {

  type Byte = b: int | 0 <= b < 256

  const TWO32 := 0x1_0000_0000

  datatype Option<+T> = None | Some(value: T)

  /** Four bytes, most significant first (encoding/binary.BigEndian). */
  function BigEndian32(n: nat): (b: seq<Byte>)
    requires n < TWO32
    ensures |b| == 4 && FromBigEndian32(b) == n
  {
    var q1 := n / 256;
    var q2 := q1 / 256;
    [q2 / 256, q2 % 256, q1 % 256, n % 256]
  }

  function FromBigEndian32(b: seq<Byte>): (n: nat)
    requires |b| == 4
    ensures n < TWO32
  {
    var b0: int, b1: int, b2: int, b3: int := b[0], b[1], b[2], b[3];
    ((b0 * 256 + b1) * 256 + b2) * 256 + b3
  }

  lemma BigEndian32Canonical(b: seq<Byte>)
    requires |b| == 4
    ensures BigEndian32(FromBigEndian32(b)) == b
  {
    var n := FromBigEndian32(b);
    var b0: int, b1: int, b2: int, b3: int := b[0], b[1], b[2], b[3];
    assert n / 256 == (b0 * 256 + b1) * 256 + b2;
    assert n / 256 / 256 == b0 * 256 + b1;
  }

  /** Four bytes, least significant first (encoding/binary.LittleEndian). */
  function LittleEndian32(n: nat): (b: seq<Byte>)
    requires n < TWO32
    ensures |b| == 4 && FromLittleEndian32(b) == n
  {
    var q1 := n / 256;
    var q2 := q1 / 256;
    [n % 256, q1 % 256, q2 % 256, q2 / 256]
  }

  function FromLittleEndian32(b: seq<Byte>): (n: nat)
    requires |b| == 4
    ensures n < TWO32
  {
    var b0: int, b1: int, b2: int, b3: int := b[0], b[1], b[2], b[3];
    ((b3 * 256 + b2) * 256 + b1) * 256 + b0
  }

  lemma Quotients(n: nat)
    ensures n / 256 / 256 == n / 0x1_0000 && n / 256 / 256 / 256 == n / 0x100_0000
  {
  }

  /** What the bytes are. */
  lemma BigEndian32Bytes(n: nat)
    requires n < TWO32
    ensures BigEndian32(n) == [n / 0x100_0000, n / 0x1_0000 % 256, n / 256 % 256, n % 256]
  {
    Quotients(n);
  }

  lemma LittleEndian32Bytes(n: nat)
    requires n < TWO32
    ensures LittleEndian32(n) == [n % 256, n / 256 % 256, n / 0x1_0000 % 256, n / 0x100_0000]
  {
    Quotients(n);
  }

  /** Every four bytes are the encoding of the number they decode to. */
  lemma LittleEndian32Canonical(b: seq<Byte>)
    requires |b| == 4
    ensures LittleEndian32(FromLittleEndian32(b)) == b
  {
    var n := FromLittleEndian32(b);
    var b0: int, b1: int, b2: int, b3: int := b[0], b[1], b[2], b[3];
    assert n / 256 == (b3 * 256 + b2) * 256 + b1;
    assert n / 256 / 256 == b3 * 256 + b2;
  }
}

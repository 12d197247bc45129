/** Bytes and the integers stored in them. */
module Bytes {

  type byte = x: int | 0 <= x < 256
  type u16 = x: int | 0 <= x < 0x1_0000
  type u32 = x: int | 0 <= x < 0x1_0000_0000

  /** The four bytes of a 32-bit word in memory. */
  type Word = s: seq<byte> | |s| == 4 witness [0, 0, 0, 0]

  /** The byte order of the machine. */
  datatype ByteOrder = LittleEndian | BigEndian

  /** The number with these base-256 digits, lowest first. */
  function Number(d0: int, d1: int, d2: int, d3: int): int {
    d0 + 0x100 * (d1 + 0x100 * (d2 + 0x100 * d3))
  }

  /** A 16-bit field in network byte order; only the low 16 bits of `n` fit. */
  function Net16(n: nat): seq<byte> {
    [n / 0x100 % 0x100, n % 0x100]
  }

  function FromNet16(s: seq<byte>): int
    requires |s| == 2
  {
    Number(s[1], s[0], 0, 0)
  }

  lemma Net16RoundTrip(n: nat)
    ensures FromNet16(Net16(n)) == n % 0x1_0000
  {
  }

  function Load16(b: seq<byte>, order: ByteOrder): u16
    requires |b| == 2
  {
    if order.LittleEndian? then Number(b[0], b[1], 0, 0) else Number(b[1], b[0], 0, 0)
  }

  function Store16(n: u16, order: ByteOrder): (b: seq<byte>)
    ensures |b| == 2 && Load16(b, order) == n
  {
    if order.LittleEndian? then [n % 0x100, n / 0x100] else [n / 0x100, n % 0x100]
  }

  function Load32(b: Word, order: ByteOrder): u32 {
    if order.LittleEndian? then Number(b[0], b[1], b[2], b[3]) else Number(b[3], b[2], b[1], b[0])
  }

  /** The digits of `n` in base 256, lowest first. */
  function Digits(n: u32): (d: Word)
    ensures Number(d[0], d[1], d[2], d[3]) == n
  {
    var n1 := n / 0x100;
    var n2 := n1 / 0x100;
    var n3 := n2 / 0x100;
    [n % 0x100, n1 % 0x100, n2 % 0x100, n3]
  }

  function Store32(n: u32, order: ByteOrder): Word {
    var d := Digits(n);
    if order.LittleEndian? then d else [d[3], d[2], d[1], d[0]]
  }

  lemma LoadStore32(n: u32, order: ByteOrder)
    ensures Load32(Store32(n, order), order) == n
  {
  }

  lemma LowDigit(d: int, q: int, e: int, r: int)
    requires 0 <= d < 0x100 && 0 <= e < 0x100 && d + 0x100 * q == e + 0x100 * r
    ensures d == e && q == r
  {
  }

  lemma DigitsUnique(d: Word, e: Word)
    requires Number(d[0], d[1], d[2], d[3]) == Number(e[0], e[1], e[2], e[3])
    ensures d == e
  {
    LowDigit(d[0], Number(d[1], d[2], d[3], 0), e[0], Number(e[1], e[2], e[3], 0));
    LowDigit(d[1], Number(d[2], d[3], 0, 0), e[1], Number(e[2], e[3], 0, 0));
    LowDigit(d[2], d[3], e[2], e[3]);
  }

  lemma StoreLoad32(b: Word, order: ByteOrder)
    ensures Store32(Load32(b, order), order) == b
  {
    DigitsUnique(Digits(Load32(b, order)), if order.LittleEndian? then b else [b[3], b[2], b[1], b[0]]);
  }
}

/** Packet memory as the two programs see it: everything from the packet start to the packet end. */
module Packet {
  import opened Bytes

  const ETH_LEN := 14

  /** `b` with `src` written over it from `off` on. */
  function Splice(b: seq<byte>, off: nat, src: seq<byte>): (r: seq<byte>)
    requires off + |src| <= |b|
    ensures |r| == |b|
    ensures forall i | 0 <= i < |b| :: r[i] == if off <= i < off + |src| then src[i - off] else b[i]
  {
    b[..off] + src + b[off + |src|..]
  }

  /** Writing right after a finished part extends it. */
  lemma SpliceExtends(done: seq<byte>, b: seq<byte>, src: seq<byte>)
    requires |done| + |src| <= |b|
    ensures Splice(done + b[|done|..], |done|, src) == done + src + b[|done| + |src|..]
  {
  }

  function Zeros(n: nat): seq<byte> {
    seq(n, _ => 0)
  }

  /** A packet with `delta` bytes of room opened between its Ethernet header and the rest. */
  function Opened(p: seq<byte>, delta: nat): seq<byte>
    requires |p| >= ETH_LEN
  {
    p[..ETH_LEN] + Zeros(delta) + p[ETH_LEN..]
  }

  /**
   * The memory between data and data_end. Offsets count from data and are never negative, so an access
   * that satisfies its precondition stays inside the packet.
   */
  class PacketBuffer {
    var buf: array<byte>
    var head: nat

    ghost predicate Valid()
      reads this
    {
      head <= buf.Length
    }

    constructor (bytes: seq<byte>)
      ensures Valid() && Bytes() == bytes && fresh(buf)
    {
      head := 0;
      buf := new byte[|bytes|](i requires 0 <= i < |bytes| => bytes[i]);
    }

    function Len(): nat
      requires Valid()
      reads this
    {
      buf.Length - head
    }

    function Bytes(): seq<byte>
      requires Valid()
      reads this, buf
    {
      buf[head..]
    }

    method Load(off: nat) returns (b: byte)
      requires Valid() && off < Len()
      ensures b == Bytes()[off]
    {
      b := buf[head + off];
    }

    method Slice(off: nat, n: nat) returns (s: seq<byte>)
      requires Valid() && off + n <= Len()
      ensures s == Bytes()[off..off + n]
    {
      s := buf[head + off..head + off + n];
    }

    method Copy(off: nat, src: seq<byte>)
      requires Valid() && off + |src| <= Len()
      modifies buf
      ensures Bytes() == Splice(old(Bytes()), off, src)
    {
      for i := 0 to |src|
        invariant forall j | 0 <= j < buf.Length ::
                    buf[j] == if head + off <= j < head + off + i then src[j - head - off] else old(buf[j])
      {
        buf[head + off + i] := src[i];
      }
    }

    /** Moves the packet start forward; at least an Ethernet header must remain. */
    method AdjustHead(delta: nat) returns (ok: bool)
      requires Valid()
      modifies this`head
      ensures Valid()
      ensures ok <==> delta + ETH_LEN <= old(Len())
      ensures Bytes() == if ok then old(Bytes())[delta..] else old(Bytes())
    {
      ok := delta + ETH_LEN <= buf.Length - head;
      if ok {
        head := head + delta;
      }
    }

    /** Opens zeroed room behind the Ethernet header, if the kernel grants it. */
    method AdjustRoom(delta: nat, granted: bool) returns (ok: bool)
      requires Valid() && Len() >= ETH_LEN
      modifies this
      ensures Valid() && (buf == old(buf) || fresh(buf))
      ensures ok == granted
      ensures Bytes() == if ok then Opened(old(Bytes()), delta) else old(Bytes())
    {
      ok := granted;
      if ok {
        var wider := Opened(buf[head..], delta);
        buf, head := new byte[|wider|](i requires 0 <= i < |wider| => wider[i]), 0;
      }
    }
  }
}

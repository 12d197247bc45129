/** The layout of the SCION headers, and the hop field MAC over an arbitrary MAC function. */
module ScionMac {
  import opened Bytes
  import opened Packet
  import opened Wrappers

  const MAC_LEN := 6
  const SCION_LEN := 12
  const ADDR_LEN := 24

  /**
   * Sizes and positions in the SCION path: the path meta header and the position of its two counts, the info
   * field, the hop field and the position of the MAC in it.
   */
  datatype Layout = Layout(meta: nat, numHf: nat, numInf: nat, inf: nat, hf: nat, mac: nat) {
    /** The info field is no longer than the part of the hop field before its MAC. */
    predicate Valid() {
      0 < numHf < meta && 0 < numInf < meta && numHf != numInf && meta <= 256 && 0 < inf <= mac && mac + MAC_LEN <= hf
    }
  }

  /** The layout a C compiler gives the structs of the program. */
  const C_LAYOUT := Layout(7, 5, 6, 8, 16, 8)

  type ScionLayout = g: Layout | g.Valid() witness C_LAYOUT

  type Mac = s: seq<byte> | |s| == MAC_LEN witness [0, 0, 0, 0, 0, 0]

  /** Key, info field and the hop field without its MAC, to a MAC or to a crypto failure. */
  type MacFunction = (seq<byte>, seq<byte>, seq<byte>) -> Option<Mac>

  /** The MAC of the source, which is still a stub. */
  const STUB: MacFunction := (_, _, _) => Some([0, 0, 0, 0, 0, 0])

  function MetaOffset(scionOff: nat): nat {
    scionOff + SCION_LEN + ADDR_LEN
  }

  function InfoOffset(g: ScionLayout, scionOff: nat): nat {
    MetaOffset(scionOff) + g.meta
  }

  function HopOffset(g: ScionLayout, scionOff: nat, numInf: nat, hop: nat): (r: nat)
    ensures r >= InfoOffset(g, scionOff)
  {
    AtLeast(numInf, g.inf);
    AtLeast(hop, g.hf);
    InfoOffset(g, scionOff) + numInf * g.inf + hop * g.hf
  }

  function PathHeaderLen(g: ScionLayout, numInf: nat, numHf: nat): (r: nat)
    ensures r >= g.meta
  {
    AtLeast(numInf, g.inf);
    AtLeast(numHf, g.hf);
    g.meta + numInf * g.inf + numHf * g.hf
  }

  /** The part of a hop field that its MAC protects. */
  function Signed(g: ScionLayout, hop: seq<byte>): seq<byte>
    requires |hop| == g.hf
  {
    hop[..g.mac] + hop[g.mac + MAC_LEN..]
  }

  /** Whether the hop field at `hopOff` carries its own MAC. */
  predicate MacValid(p: seq<byte>, g: ScionLayout, key: seq<byte>, infOff: nat, hopOff: nat, mac: MacFunction)
    requires infOff + g.inf <= |p| && hopOff + g.hf <= |p|
  {
    mac(key, p[infOff..infOff + g.inf], Signed(g, p[hopOff..hopOff + g.hf]))
    == Some(p[hopOff + g.mac..hopOff + g.mac + MAC_LEN])
  }

  /** The packet with the hop field's MAC computed into it. */
  function Stamped(p: seq<byte>, g: ScionLayout, key: seq<byte>, infOff: nat, hopOff: nat, mac: MacFunction)
    : Option<seq<byte>>
    requires infOff + g.inf <= |p| && hopOff + g.hf <= |p|
  {
    match mac(key, p[infOff..infOff + g.inf], Signed(g, p[hopOff..hopOff + g.hf]))
    case None => None
    case Some(m) => Some(Splice(p, hopOff + g.mac, m))
  }

  method CalculateScionMac(pkt: PacketBuffer, g: ScionLayout, key: seq<byte>, infOff: nat, hopOff: nat,
                           mac: MacFunction)
    returns (r: Option<Mac>)
    requires pkt.Valid() && infOff + g.inf <= pkt.Len() && hopOff + g.hf <= pkt.Len()
    ensures r == mac(key, pkt.Bytes()[infOff..infOff + g.inf], Signed(g, pkt.Bytes()[hopOff..hopOff + g.hf]))
  {
    var info := pkt.Slice(infOff, g.inf);
    var hop := pkt.Slice(hopOff, g.hf);
    r := mac(key, info, Signed(g, hop));
  }

  /** Computes the MAC into a buffer of its own and compares it with the packet's, byte by byte. */
  method VerifyScionMac(pkt: PacketBuffer, g: ScionLayout, key: seq<byte>, infOff: nat, hopOff: nat, mac: MacFunction)
    returns (valid: bool)
    requires pkt.Valid() && infOff + g.inf <= pkt.Len() && hopOff + g.hf <= pkt.Len()
    ensures valid <==> MacValid(pkt.Bytes(), g, key, infOff, hopOff, mac)
  {
    var computed := CalculateScionMac(pkt, g, key, infOff, hopOff, mac);
    if computed.None? {
      return false;
    }
    var i := 0;
    while i < MAC_LEN
      invariant 0 <= i <= MAC_LEN
      invariant forall j | 0 <= j < i :: computed.value[j] == pkt.Bytes()[hopOff + g.mac + j]
    {
      var b := pkt.Load(hopOff + g.mac + i);
      if computed.value[i] != b {
        assert computed.value[i] != pkt.Bytes()[hopOff + g.mac..hopOff + g.mac + MAC_LEN][i];
        return false;
      }
      i := i + 1;
    }
    assert computed.value == pkt.Bytes()[hopOff + g.mac..hopOff + g.mac + MAC_LEN];
    valid := true;
  }

  /**
   * Stamp, then verify: whatever the MAC function, a stamped hop field verifies under the same key, and the
   * stamp changes only its six bytes, provided the info field ends before them.
   */
  lemma StampVerifies(p: seq<byte>, g: ScionLayout, key: seq<byte>, infOff: nat, hopOff: nat, mac: MacFunction)
    requires hopOff + g.hf <= |p| && infOff + g.inf <= hopOff + g.mac
    requires Stamped(p, g, key, infOff, hopOff, mac).Some?
    ensures var q := Stamped(p, g, key, infOff, hopOff, mac).value;
            && |q| == |p|
            && MacValid(q, g, key, infOff, hopOff, mac)
            && forall i | 0 <= i < |p| && !(hopOff + g.mac <= i < hopOff + g.mac + MAC_LEN) :: q[i] == p[i]
  {
    var q := Stamped(p, g, key, infOff, hopOff, mac).value;
    assert q[infOff..infOff + g.inf] == p[infOff..infOff + g.inf];
    assert Signed(g, q[hopOff..hopOff + g.hf]) == Signed(g, p[hopOff..hopOff + g.hf]);
    assert mac(key, p[infOff..infOff + g.inf], Signed(g, p[hopOff..hopOff + g.hf]))
        == Some(q[hopOff + g.mac..hopOff + g.mac + MAC_LEN]);
  }

  lemma AtLeast(n: nat, size: nat)
    ensures n * size >= 0
    ensures n >= 1 ==> n * size >= size
  {
    if n >= 1 {
      assert n * size == (n - 1) * size + size;
    }
  }
}

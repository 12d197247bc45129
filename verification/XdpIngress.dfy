/** The ingress program: recognises SCION traffic, verifies the hop field and strips the encapsulation. */
module XdpIngress {
  import opened Bytes
  import opened Packet
  import opened ScionMac
  import opened Wrappers

  const IPV4_LEN := 20
  const UDP_LEN := 8
  const EXT_LEN := 8
  const ETH_P_IP: seq<byte> := [0x08, 0x00]
  const PROTO_UDP := 17
  const SCION_PORT: seq<byte> := [0x75, 0x59]

  datatype Reason =
    | ShortScion | ShortMeta | ShortHop | ShortEncap | ShortInfo | NoKey | BadMac
    | AdjustFailed | NoEthernet | ShortInner

  datatype Verdict = Pass | Drop(why: Reason)

  /** What the headers say: not SCION, broken SCION, or SCION with its encapsulation length and field positions. */
  datatype Parsed = NotScion | Broken(why: Reason) | Scion(encap: nat, infOff: nat, hopOff: nat)

  /** The outer IP header's length field, in bytes. */
  function HeaderLen(p: seq<byte>): nat
    requires |p| > ETH_LEN
  {
    p[ETH_LEN] % 16 * 4
  }

  /** Where the SCION header starts, if the packet is IPv4 over UDP to the SCION port. */
  function ScionStart(p: seq<byte>): Option<nat> {
    if |p| < ETH_LEN + IPV4_LEN + UDP_LEN || p[12..14] != ETH_P_IP || p[23] != PROTO_UDP then None
    else
      var udp := ETH_LEN + HeaderLen(p);
      if udp + UDP_LEN > |p| || p[udp + 2..udp + 4] != SCION_PORT then None
      else Some(udp + UDP_LEN)
  }

  function Parse(p: seq<byte>, g: ScionLayout): Parsed {
    match ScionStart(p)
    case None => NotScion
    case Some(scion) =>
      var meta := MetaOffset(scion);
      if scion + SCION_LEN > |p| then Broken(ShortScion)
      else if meta + g.meta > |p| then Broken(ShortMeta)
      else
        var numHf, numInf := p[meta + g.numHf], p[meta + g.numInf];
        var hop := HopOffset(g, scion, numInf, p[meta] / 4);
        var encap := HeaderLen(p) + UDP_LEN + SCION_LEN + ADDR_LEN + PathHeaderLen(g, numInf, numHf) + EXT_LEN;
        if hop + g.hf > |p| then Broken(ShortHop)
        else if ETH_LEN + encap > |p| then Broken(ShortEncap)
        else if InfoOffset(g, scion) + g.inf > |p| then Broken(ShortInfo)
        else Scion(encap, InfoOffset(g, scion), hop)
  }

  /** The Ethernet header that is put in front of the inner packet. */
  function InnerEthernet(p: seq<byte>): seq<byte>
    requires |p| >= ETH_LEN
  {
    p[..12] + ETH_P_IP
  }

  /** The whole program. `key` is the MAC key under id 0 of the program's own map, if there is one. */
  function Ingress(p: seq<byte>, g: ScionLayout, key: Option<seq<byte>>, mac: MacFunction): (Verdict, seq<byte>) {
    match Parse(p, g)
    case NotScion => (Pass, p)
    case Broken(why) => (Drop(why), p)
    case Scion(encap, infOff, hopOff) =>
      if key.None? then (Drop(NoKey), p)
      else if !MacValid(p, g, key.value, infOff, hopOff, mac) then (Drop(BadMac), p)
      else Decapsulated(p, encap)
  }

  method ParsePathMeta(pkt: PacketBuffer, g: ScionLayout, scionOff: nat) returns (meta: Option<nat>)
    requires pkt.Valid()
    ensures meta == if MetaOffset(scionOff) + g.meta <= pkt.Len() then Some(MetaOffset(scionOff)) else None
  {
    var off := scionOff + SCION_LEN + ADDR_LEN;
    meta := if off + g.meta > pkt.Len() then None else Some(off);
  }

  method GetCurrentHopField(pkt: PacketBuffer, g: ScionLayout, scionOff: nat, meta: nat) returns (hop: Option<nat>)
    requires pkt.Valid() && meta == MetaOffset(scionOff) && meta + g.meta <= pkt.Len()
    ensures var off := HopOffset(g, scionOff, pkt.Bytes()[meta + g.numInf], pkt.Bytes()[meta] / 4);
            hop == if off + g.hf <= pkt.Len() then Some(off) else None
  {
    var numInf := pkt.Load(meta + g.numInf);
    var cur := pkt.Load(meta);
    var off := HopOffset(g, scionOff, numInf, cur / 4);
    hop := if off + g.hf > pkt.Len() then None else Some(off);
  }

  /** The program's filters, up to where the SCION header starts. */
  method FindScion(pkt: PacketBuffer) returns (scion: Option<nat>)
    requires pkt.Valid()
    ensures scion == ScionStart(pkt.Bytes())
  {
    if pkt.Len() < ETH_LEN + IPV4_LEN + UDP_LEN {
      return None;
    }
    var proto := pkt.Slice(12, 2);
    if proto != ETH_P_IP {
      return None;
    }
    var protocol := pkt.Load(23);
    if protocol != PROTO_UDP {
      return None;
    }
    var ihl := pkt.Load(ETH_LEN);
    var udpOff := ETH_LEN + ihl % 16 * 4;
    if udpOff + UDP_LEN > pkt.Len() {
      return None;
    }
    var dest := pkt.Slice(udpOff + 2, 2);
    if dest != SCION_PORT {
      return None;
    }
    scion := Some(udpOff + UDP_LEN);
  }

  /** The program's bounds checks and its computation of the encapsulation length. */
  method ReadHeaders(pkt: PacketBuffer, g: ScionLayout) returns (r: Parsed)
    requires pkt.Valid()
    ensures r == Parse(pkt.Bytes(), g)
  {
    var scion := FindScion(pkt);
    if scion.None? {
      return NotScion;
    }
    var scionOff := scion.value;
    if scionOff + SCION_LEN > pkt.Len() {
      return Broken(ShortScion);
    }
    var meta := ParsePathMeta(pkt, g, scionOff);
    if meta.None? {
      return Broken(ShortMeta);
    }
    var hop := GetCurrentHopField(pkt, g, scionOff, meta.value);
    if hop.None? {
      return Broken(ShortHop);
    }
    var ihl := pkt.Load(ETH_LEN);
    var numInf := pkt.Load(meta.value + g.numInf);
    var numHf := pkt.Load(meta.value + g.numHf);
    var encap := ihl % 16 * 4 + UDP_LEN + SCION_LEN + ADDR_LEN + PathHeaderLen(g, numInf, numHf) + EXT_LEN;
    if ETH_LEN + encap > pkt.Len() {
      return Broken(ShortEncap);
    }
    var info := InfoOffset(g, scionOff);
    if info + g.inf > pkt.Len() {
      return Broken(ShortInfo);
    }
    r := Scion(encap, info, hop.value);
  }

  /** The program over packet memory; every access it makes is inside the packet. */
  method Run(pkt: PacketBuffer, g: ScionLayout, key: Option<seq<byte>>, mac: MacFunction) returns (verdict: Verdict)
    requires pkt.Valid()
    modifies pkt`head, pkt.buf
    ensures pkt.Valid()
    ensures (verdict, pkt.Bytes()) == Ingress(old(pkt.Bytes()), g, key, mac)
  {
    ParseFits(pkt.Bytes(), g);
    var parsed := ReadHeaders(pkt, g);
    if parsed.NotScion? {
      return Pass;
    }
    if parsed.Broken? {
      return Drop(parsed.why);
    }
    if key.None? {
      return Drop(NoKey);
    }
    var valid := VerifyScionMac(pkt, g, key.value, parsed.infOff, parsed.hopOff, mac);
    if !valid {
      return Drop(BadMac);
    }
    verdict := Decapsulate(pkt, parsed.encap);
  }

  /** The decapsulated packet, or how far the program gets. */
  function Decapsulated(p: seq<byte>, encap: nat): (Verdict, seq<byte>)
    requires |p| >= ETH_LEN
  {
    if encap + ETH_LEN > |p| then (Drop(AdjustFailed), p)
    else
      var moved := p[encap..];
      if |moved| < ETH_LEN then (Drop(NoEthernet), moved)
      else
        var inner := Splice(moved, 0, InnerEthernet(p));
        if |inner| < ETH_LEN + IPV4_LEN then (Drop(ShortInner), inner) else (Pass, inner)
  }

  method Decapsulate(pkt: PacketBuffer, encap: nat) returns (verdict: Verdict)
    requires pkt.Valid() && pkt.Len() >= ETH_LEN
    modifies pkt`head, pkt.buf
    ensures pkt.Valid()
    ensures (verdict, pkt.Bytes()) == Decapsulated(old(pkt.Bytes()), encap)
  {
    var origEth := pkt.Slice(0, 12);
    origEth := origEth + ETH_P_IP;
    var adjusted := pkt.AdjustHead(encap);
    if !adjusted {
      return Drop(AdjustFailed);
    }
    if pkt.Len() < ETH_LEN {
      return Drop(NoEthernet);
    }
    pkt.Copy(0, origEth);
    if ETH_LEN + IPV4_LEN > pkt.Len() {
      return Drop(ShortInner);
    }
    return Pass;
  }

  /** What the checks establish before the MAC is verified and the packet touched. */
  lemma ParseFits(p: seq<byte>, g: ScionLayout)
    ensures var s := Parse(p, g);
            s.Scion? ==>
              && s.infOff + g.inf <= |p| && s.hopOff + g.hf <= |p|
              && UDP_LEN + SCION_LEN + ADDR_LEN + g.meta + EXT_LEN <= s.encap <= |p| - ETH_LEN
  {
  }

  /** The encapsulation length and the positions of the fields, from the packet's own counts. */
  lemma ParsedEncap(p: seq<byte>, g: ScionLayout)
    requires Parse(p, g).Scion?
    ensures ScionStart(p).Some? && MetaOffset(ScionStart(p).value) + g.meta <= |p|
    ensures var meta := MetaOffset(ScionStart(p).value);
            && Parse(p, g).infOff == meta + g.meta
            && Parse(p, g).hopOff == HopOffset(g, ScionStart(p).value, p[meta + g.numInf], p[meta] / 4)
    ensures var meta := MetaOffset(ScionStart(p).value);
            Parse(p, g).encap == HeaderLen(p) + UDP_LEN + SCION_LEN + ADDR_LEN
                                 + PathHeaderLen(g, p[meta + g.numInf], p[meta + g.numHf]) + EXT_LEN
  {
  }

  /** The bound checked before the packet is touched makes the two exits after the head adjustment unreachable. */
  lemma LateExitsUnreachable(p: seq<byte>, g: ScionLayout, key: Option<seq<byte>>, mac: MacFunction)
    ensures Ingress(p, g, key, mac).0 != Drop(AdjustFailed) && Ingress(p, g, key, mac).0 != Drop(NoEthernet)
  {
    ParseFits(p, g);
  }

  /**
   * Exactly what is passed: a packet that is not SCION, untouched; or one whose current hop field verifies and
   * that keeps 34 bytes without its encapsulation, as its old MAC addresses, an IPv4 type and the bytes behind
   * the encapsulation.
   */
  lemma PassedIff(p: seq<byte>, g: ScionLayout, key: Option<seq<byte>>, mac: MacFunction, q: seq<byte>)
    ensures var s := Parse(p, g);
            Ingress(p, g, key, mac) == (Pass, q) <==>
              || (s.NotScion? && q == p)
              || (&& s.Scion? && key.Some? && MacValid(p, g, key.value, s.infOff, s.hopOff, mac)
                  && |p| - s.encap >= ETH_LEN + IPV4_LEN
                  && q == p[..12] + ETH_P_IP + p[ETH_LEN + s.encap..])
  {
    var s := Parse(p, g);
    ParseFits(p, g);
    if s.Scion? {
      DecapsulatedBytes(p, s.encap);
    }
  }

  lemma DecapsulatedBytes(p: seq<byte>, encap: nat)
    requires encap + ETH_LEN <= |p|
    ensures Decapsulated(p, encap).1 == InnerEthernet(p) + p[ETH_LEN + encap..]
    ensures Decapsulated(p, encap).0 == if |p| - encap >= ETH_LEN + IPV4_LEN then Pass else Drop(ShortInner)
  {
    var moved := p[encap..];
    SpliceFront(moved, InnerEthernet(p));
    assert moved[ETH_LEN..] == p[ETH_LEN + encap..];
  }

  lemma SpliceFront(b: seq<byte>, src: seq<byte>)
    requires |src| <= |b|
    ensures Splice(b, 0, src) == src + b[|src|..]
  {
  }

  /** Without a key nothing is ever decapsulated. */
  lemma NoKeyNoDecapsulation(p: seq<byte>, g: ScionLayout, key: Option<seq<byte>>, mac: MacFunction)
    requires key.None?
    ensures Ingress(p, g, key, mac).1 == p
    ensures Ingress(p, g, key, mac).0 == Pass <==> ScionStart(p).None?
  {
  }
}

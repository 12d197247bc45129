/** The egress program: finds the pod's path and writes the outer headers and the SCION headers before its packet. */
module TcEgress {
  import opened BpfMaps
  import opened Bytes
  import opened Packet
  import opened ScionMac
  import opened Wrappers
  import opened XdpIngress

  datatype TcVerdict = TcOk | TcShot

  /** The SCION common and address headers and the end-to-end extension, prepared by the control plane. */
  datatype ControlHeaders = ControlHeaders(common: seq<byte>, addr: seq<byte>, ext: seq<byte>) {
    predicate Sized() {
      |common| == SCION_LEN && |addr| == ADDR_LEN && |ext| == EXT_LEN
    }
  }

  type Control = c: ControlHeaders | c.Sized()
    witness ControlHeaders(seq(12, _ => 0), seq(24, _ => 0), seq(8, _ => 0))

  const OUTER_SCION := ETH_LEN + IPV4_LEN + UDP_LEN
  const MAX_PATH_LEN := 256

  /** An entry whose path length the program accepts. */
  type ShortEntry = e: Entry | e.pathLen <= MAX_PATH_LEN
    witness PathEntry([0, 0, 0, 0], seq(6, _ => 0), 0, seq(256, _ => 0), seq(16, _ => 0))

  function EncapLen(e: ShortEntry): nat {
    IPV4_LEN + UDP_LEN + SCION_LEN + ADDR_LEN + e.pathLen + EXT_LEN
  }

  /** The outer IPv4 header up to its source address; the checksum stays zero. */
  function IpHead(totalLen: nat): seq<byte> {
    [0x45, 0] + Net16(totalLen) + [0, 0, 0, 0, 64, PROTO_UDP, 0, 0]
  }

  function UdpHeader(len: nat): seq<byte> {
    SCION_PORT + SCION_PORT + Net16(len) + [0, 0]
  }

  /** Everything written from the outer UDP header to the end of the encapsulation. */
  function ScionPart(e: ShortEntry, ctl: Control, udpLen: nat): (r: seq<byte>)
    ensures |r| == UDP_LEN + SCION_LEN + ADDR_LEN + e.pathLen + EXT_LEN
  {
    UdpHeader(udpLen) + ctl.common + ctl.addr + e.hopFields[..e.pathLen] + ctl.ext
  }

  /** The Ethernet header of `b`, redirected to the next hop. */
  function EthernetHeader(b: seq<byte>, e: ShortEntry): (r: seq<byte>)
    requires |b| >= ETH_LEN
    ensures |r| == ETH_LEN
  {
    e.nextHopMAC + b[6..12] + ETH_P_IP
  }

  /** The outer IPv4 header over `b`, whose source address is left as it is. */
  function IpHeader(b: seq<byte>, e: ShortEntry): (r: seq<byte>)
    requires |b| >= ETH_LEN + IPV4_LEN
    ensures |r| == IPV4_LEN
  {
    IpHead(|b| - ETH_LEN) + b[26..30] + e.nextHopIP
  }

  /** The packet `b` with all headers written and the hop field's MAC still as the control plane left it. */
  function Unstamped(b: seq<byte>, e: ShortEntry, ctl: Control): (r: seq<byte>)
    requires |b| >= ETH_LEN + EncapLen(e)
    ensures |r| == |b|
  {
    EthernetHeader(b, e) + IpHeader(b, e) + ScionPart(e, ctl, |b| - ETH_LEN - IPV4_LEN) + b[ETH_LEN + EncapLen(e)..]
  }

  /** The number of info fields, where the path meta header in the packet has it. */
  function InfoCount(u: seq<byte>, g: ScionLayout): byte
    requires MetaOffset(OUTER_SCION) + g.meta <= |u|
  {
    u[MetaOffset(OUTER_SCION) + g.numInf]
  }

  /** The packet with the first hop field's MAC computed, if the fields are inside it and the computation succeeds. */
  function Signed0(u: seq<byte>, e: ShortEntry, g: ScionLayout, mac: MacFunction): Option<seq<byte>> {
    if MetaOffset(OUTER_SCION) + g.meta > |u| then None
    else
      var info, hop := InfoOffset(g, OUTER_SCION), HopOffset(g, OUTER_SCION, InfoCount(u, g), 0);
      if info + g.inf > |u| || hop + g.hf > |u| then None
      else Stamped(u, g, e.macKey, info, hop, mac)
  }

  function Headers(b: seq<byte>, e: ShortEntry, ctl: Control, g: ScionLayout, mac: MacFunction): Option<seq<byte>> {
    if |b| < ETH_LEN + EncapLen(e) then None else Signed0(Unstamped(b, e, ctl), e, g, mac)
  }

  /** The source address of an IPv4 packet whose headers are all there. */
  function PodAddress(p: seq<byte>): Option<Word> {
    if |p| < ETH_LEN || p[12..14] != ETH_P_IP || |p| < ETH_LEN + IPV4_LEN || ETH_LEN + HeaderLen(p) > |p| then None
    else Some(p[26..30])
  }

  /** The whole program; a packet that is shot has no contents any more. */
  function Egress(p: seq<byte>, m: Maps, order: ByteOrder, ctl: Control, g: ScionLayout, mac: MacFunction,
                  granted: bool)
    : Option<seq<byte>>
    requires Readable(m)
  {
    match PodAddress(p)
    case None => Some(p)
    case Some(source) =>
      match Select(m, source, order)
      case None => Some(p)
      case Some(e) =>
        if e.pathLen > MAX_PATH_LEN || !granted then None
        else Headers(Opened(p, EncapLen(e)), e, ctl, g, mac)
  }

  method ParseEth(pkt: PacketBuffer, off: nat) returns (ok: bool, off': nat)
    requires pkt.Valid()
    ensures off' == off + ETH_LEN && (ok <==> off' <= pkt.Len())
  {
    off' := off + ETH_LEN;
    ok := off' <= pkt.Len();
  }

  method ParseIpv4(pkt: PacketBuffer, off: nat) returns (ok: bool, off': nat)
    requires pkt.Valid()
    ensures ok <==> off + IPV4_LEN <= pkt.Len() && off + pkt.Bytes()[off] % 16 * 4 <= pkt.Len()
    ensures ok ==> off' == off + pkt.Bytes()[off] % 16 * 4
  {
    ok, off' := false, off;
    if off + IPV4_LEN <= pkt.Len() {
      var ihl := pkt.Load(off);
      off' := off + ihl % 16 * 4;
      ok := off' <= pkt.Len();
    }
  }

  /** Writes `src` right after what has been written, and extends that. */
  method Emit(pkt: PacketBuffer, ghost b: seq<byte>, ghost done: seq<byte>, off: nat, src: seq<byte>)
    requires pkt.Valid() && |done| == off && off + |src| <= |b|
    requires pkt.Bytes() == done + b[off..]
    modifies pkt.buf
    ensures pkt.Bytes() == done + src + b[off + |src|..]
  {
    SpliceExtends(done, b, src);
    pkt.Copy(off, src);
  }

  method WriteEthernet(pkt: PacketBuffer, e: ShortEntry)
    requires pkt.Valid() && pkt.Len() >= ETH_LEN
    modifies pkt.buf
    ensures pkt.Bytes() == EthernetHeader(old(pkt.Bytes()), e) + old(pkt.Bytes())[ETH_LEN..]
  {
    ghost var b := pkt.Bytes();
    assert b == [] + b[0..];
    Emit(pkt, b, [], 0, e.nextHopMAC);
    ghost var done := e.nextHopMAC + b[6..12];
    KeepSource(b, e.nextHopMAC);
    Emit(pkt, b, done, 12, ETH_P_IP);
  }

  lemma KeepSource(b: seq<byte>, dest: seq<byte>)
    requires |b| >= ETH_LEN
    ensures [] + dest + b[6..] == dest + b[6..12] + b[12..]
  {
    assert b[6..] == b[6..12] + b[12..];
  }

  method WriteIp(pkt: PacketBuffer, ghost b: seq<byte>, ghost done: seq<byte>, e: ShortEntry)
    requires pkt.Valid() && |b| >= ETH_LEN + IPV4_LEN && |done| == ETH_LEN && pkt.Bytes() == done + b[ETH_LEN..]
    modifies pkt.buf
    ensures pkt.Bytes() == done + IpHeader(b, e) + b[ETH_LEN + IPV4_LEN..]
  {
    Emit(pkt, b, done, ETH_LEN, IpHead(pkt.Len() - ETH_LEN));
    ghost var now := done + IpHead(|b| - ETH_LEN) + b[26..30];
    assert done + IpHead(|b| - ETH_LEN) + b[26..] == now + b[30..];
    Emit(pkt, b, now, 30, e.nextHopIP);
    assert now + e.nextHopIP == done + IpHeader(b, e);
  }

  /** Writes the UDP header and makes the intended copy of the headers the control plane has prepared. */
  method WriteUdpAndScion(pkt: PacketBuffer, ghost b: seq<byte>, ghost done: seq<byte>, e: ShortEntry, ctl: Control)
    requires pkt.Valid() && |done| == ETH_LEN + IPV4_LEN && |b| >= ETH_LEN + EncapLen(e)
    requires pkt.Bytes() == done + b[ETH_LEN + IPV4_LEN..]
    modifies pkt.buf
    ensures pkt.Bytes() == done + ScionPart(e, ctl, |b| - ETH_LEN - IPV4_LEN) + b[ETH_LEN + EncapLen(e)..]
  {
    ghost var udp := UdpHeader(|b| - ETH_LEN - IPV4_LEN);
    Emit(pkt, b, done, ETH_LEN + IPV4_LEN, UdpHeader(pkt.Len() - ETH_LEN - IPV4_LEN));
    Emit(pkt, b, done + udp, OUTER_SCION, ctl.common);
    Emit(pkt, b, done + udp + ctl.common, OUTER_SCION + SCION_LEN, ctl.addr);
    Emit(pkt, b, done + udp + ctl.common + ctl.addr, MetaOffset(OUTER_SCION), e.hopFields[..e.pathLen]);
    ghost var path := e.hopFields[..e.pathLen];
    Emit(pkt, b, done + udp + ctl.common + ctl.addr + path, MetaOffset(OUTER_SCION) + e.pathLen, ctl.ext);
    assert done + udp + ctl.common + ctl.addr + path + ctl.ext == done + (udp + ctl.common + ctl.addr + path + ctl.ext);
  }

  method StampFirstHop(pkt: PacketBuffer, e: ShortEntry, g: ScionLayout, mac: MacFunction) returns (ok: bool)
    requires pkt.Valid()
    modifies pkt.buf
    ensures ok <==> Signed0(old(pkt.Bytes()), e, g, mac).Some?
    ensures pkt.Bytes() == if ok then Signed0(old(pkt.Bytes()), e, g, mac).value else old(pkt.Bytes())
  {
    var meta := MetaOffset(OUTER_SCION);
    if meta + g.meta > pkt.Len() {
      return false;
    }
    var numInf := pkt.Load(meta + g.numInf);
    var info, hop := InfoOffset(g, OUTER_SCION), HopOffset(g, OUTER_SCION, numInf, 0);
    if info + g.inf > pkt.Len() || hop + g.hf > pkt.Len() {
      return false;
    }
    ok := Stamp(pkt, g, e.macKey, info, hop, mac);
  }

  /** Computes the hop field's MAC and writes it into the hop field. */
  method Stamp(pkt: PacketBuffer, g: ScionLayout, key: seq<byte>, infOff: nat, hopOff: nat, mac: MacFunction)
    returns (ok: bool)
    requires pkt.Valid() && infOff + g.inf <= pkt.Len() && hopOff + g.hf <= pkt.Len()
    modifies pkt.buf
    ensures ok <==> Stamped(old(pkt.Bytes()), g, key, infOff, hopOff, mac).Some?
    ensures pkt.Bytes() == if ok then Stamped(old(pkt.Bytes()), g, key, infOff, hopOff, mac).value else old(pkt.Bytes())
  {
    var m := CalculateScionMac(pkt, g, key, infOff, hopOff, mac);
    if m.None? {
      return false;
    }
    pkt.Copy(hopOff + g.mac, m.value);
    ok := true;
  }

  method WriteUnstamped(pkt: PacketBuffer, e: ShortEntry, ctl: Control)
    requires pkt.Valid() && pkt.Len() >= ETH_LEN + EncapLen(e)
    modifies pkt.buf
    ensures pkt.Bytes() == Unstamped(old(pkt.Bytes()), e, ctl)
  {
    ghost var b := pkt.Bytes();
    WriteEthernet(pkt, e);
    WriteIp(pkt, b, EthernetHeader(b, e), e);
    WriteUdpAndScion(pkt, b, EthernetHeader(b, e) + IpHeader(b, e), e, ctl);
  }

  method WriteScionHeaders(pkt: PacketBuffer, e: ShortEntry, ctl: Control, g: ScionLayout, mac: MacFunction)
    returns (ok: bool)
    requires pkt.Valid()
    modifies pkt.buf
    ensures ok <==> Headers(old(pkt.Bytes()), e, ctl, g, mac).Some?
    ensures ok ==> pkt.Bytes() == Headers(old(pkt.Bytes()), e, ctl, g, mac).value
  {
    if pkt.Len() < ETH_LEN + EncapLen(e) {
      return false;
    }
    WriteUnstamped(pkt, e, ctl);
    ok := StampFirstHop(pkt, e, g, mac);
  }

  /** The source address of the packet, once its Ethernet and IPv4 headers have been passed. */
  method ParseSource(pkt: PacketBuffer) returns (source: Option<Word>)
    requires pkt.Valid()
    ensures source == PodAddress(pkt.Bytes())
  {
    var ok, off := ParseEth(pkt, 0);
    if !ok {
      return None;
    }
    var proto := pkt.Slice(12, 2);
    if proto != ETH_P_IP {
      return None;
    }
    ok, off := ParseIpv4(pkt, off);
    if !ok {
      return None;
    }
    var address := pkt.Slice(26, 4);
    source := Some(address);
  }

  /** Makes room in front of the packet and writes all the headers into it. */
  method Encapsulate(pkt: PacketBuffer, e: ShortEntry, ctl: Control, g: ScionLayout, mac: MacFunction, granted: bool)
    returns (ok: bool)
    requires pkt.Valid() && pkt.Len() >= ETH_LEN
    modifies pkt, pkt.buf
    ensures pkt.Valid()
    ensures var r := if granted then Headers(Opened(old(pkt.Bytes()), EncapLen(e)), e, ctl, g, mac) else None;
            ok == r.Some? && (ok ==> pkt.Bytes() == r.value)
  {
    ok := pkt.AdjustRoom(EncapLen(e), granted);
    if ok {
      ok := WriteScionHeaders(pkt, e, ctl, g, mac);
    }
  }

  method Run(pkt: PacketBuffer, m: Maps, order: ByteOrder, ctl: Control, g: ScionLayout, mac: MacFunction,
             granted: bool)
    returns (verdict: TcVerdict)
    requires pkt.Valid() && Readable(m)
    modifies pkt, pkt.buf
    ensures pkt.Valid()
    ensures var r := Egress(old(pkt.Bytes()), m, order, ctl, g, mac, granted);
            verdict == (if r.Some? then TcOk else TcShot) && (r.Some? ==> pkt.Bytes() == r.value)
  {
    var source := ParseSource(pkt);
    if source.None? || source.value !in m.pods {
      return TcOk;
    }
    var id := m.pods[source.value];
    if id !in m.paths {
      return TcOk;
    }
    var path := CView(m.paths[id], order);
    if path.pathLen > MAX_PATH_LEN {
      return TcShot;
    }
    var ok := Encapsulate(pkt, path, ctl, g, mac, granted);
    verdict := if ok then TcOk else TcShot;
  }
}

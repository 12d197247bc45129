/**
 * What the two programs do, in terms of bytes at fixed offsets and of the packet's own counts: Ethernet, IPv4
 * (section 3.1 of RFC 791), UDP (RFC 768) and the SCION headers as the C structs lay them out.
 */
module Wire {
  import opened BpfMaps
  import opened Bytes
  import opened Packet
  import opened ScionMac
  import TcEgress
  import opened Wrappers
  import opened XdpIngress

  /** A 16-bit field in network byte order. */
  function Be16(p: seq<byte>, i: nat): nat
    requires i + 2 <= |p|
  {
    var hi: nat, lo: nat := p[i], p[i + 1];
    256 * hi + lo
  }

  // What ingress passes.

  /** IPv4 over UDP to port 30041, with both headers inside the packet. */
  predicate IsScion(p: seq<byte>) {
    && |p| >= 42 && Be16(p, 12) == 0x0800 && p[23] == 17
    && ScionAt(p) <= |p| && Be16(p, ScionAt(p) - 6) == 30041
  }

  /** Where the SCION header starts: behind 14 Ethernet bytes, the IPv4 header and 8 UDP bytes. */
  function ScionAt(p: seq<byte>): nat
    requires |p| >= 42
  {
    14 + p[14] % 16 * 4 + 8
  }

  lemma ScionStartIff(p: seq<byte>)
    ensures ScionStart(p) == if IsScion(p) then Some(ScionAt(p)) else None
  {
    if |p| >= 42 && ScionAt(p) <= |p| {
      var udp := ScionAt(p) - 8;
      assert p[udp + 2..udp + 4] == [p[udp + 2], p[udp + 3]];
      assert p[12..14] == [p[12], p[13]];
      SixteenBits(p[12], p[13], 0x08, 0x00);
      SixteenBits(p[udp + 2], p[udp + 3], 0x75, 0x59);
    }
  }

  lemma SixteenBits(hi: nat, lo: nat, hi': nat, lo': nat)
    requires hi < 256 && lo < 256 && hi' < 256 && lo' < 256
    ensures 256 * hi + lo == 256 * hi' + lo' <==> hi == hi' && lo == lo'
  {
  }

  /**
   * The hop fields of a path lie one behind another: the first right behind the info fields, each `g.hf` bytes
   * after the one before, and the path header ends where one more would start.
   */
  lemma HopFieldsTile(g: ScionLayout, scionOff: nat, numInf: nat, numHf: nat, hop: nat)
    ensures HopOffset(g, scionOff, numInf, 0) == scionOff + 36 + g.meta + numInf * g.inf
    ensures HopOffset(g, scionOff, numInf, hop + 1) == HopOffset(g, scionOff, numInf, hop) + g.hf
    ensures HopOffset(g, scionOff, numInf, numHf) == scionOff + 36 + PathHeaderLen(g, numInf, numHf)
  {
  }

  /** Where the path meta header, the info fields and the `n`th hop field start, and where the encapsulation ends. */
  function MetaAt(p: seq<byte>): nat
    requires |p| >= 42
  {
    ScionAt(p) + 36
  }

  function HopAt(p: seq<byte>, g: ScionLayout, n: nat): (r: nat)
    requires |p| >= 42 && MetaAt(p) + g.meta <= |p|
    ensures r >= MetaAt(p) + g.meta
  {
    AtLeast(p[MetaAt(p) + g.numInf], g.inf);
    AtLeast(n, g.hf);
    MetaAt(p) + g.meta + p[MetaAt(p) + g.numInf] * g.inf + n * g.hf
  }

  function InnerAt(p: seq<byte>, g: ScionLayout): nat
    requires |p| >= 42 && MetaAt(p) + g.meta <= |p|
  {
    HopAt(p, g, p[MetaAt(p) + g.numHf]) + 8
  }

  /** The hop field at `hop` carries the MAC of the first info field and of its own other bytes. */
  predicate Authentic(p: seq<byte>, g: ScionLayout, key: seq<byte>, hop: nat, mac: MacFunction)
    requires |p| >= 42 && hop + g.hf <= |p| && MetaAt(p) + g.meta + g.inf <= |p|
  {
    var info := MetaAt(p) + g.meta;
    mac(key, p[info..info + g.inf], p[hop..hop + g.mac] + p[hop + g.mac + 6..hop + g.hf])
    == Some(p[hop + g.mac..hop + g.mac + 6])
  }

  /** A SCION packet whose current hop field is authentic, and behind whose headers an IPv4 header fits. */
  predicate Accepted(p: seq<byte>, g: ScionLayout, key: Option<seq<byte>>, mac: MacFunction) {
    && IsScion(p) && key.Some?
    && MetaAt(p) + g.meta + g.inf <= |p|
    && var hop := HopAt(p, g, p[MetaAt(p)] / 4);
    && hop + g.hf <= |p| && InnerAt(p, g) + 20 <= |p|
    && Authentic(p, g, key.value, hop, mac)
  }

  /**
   * Exactly what ingress passes, from the packet's own counts: what is not SCION, untouched; and an accepted
   * packet, as its MAC addresses, the IPv4 type and what lies behind the headers. It drops everything else.
   */
  lemma PassedExactly(p: seq<byte>, g: ScionLayout, key: Option<seq<byte>>, mac: MacFunction, q: seq<byte>)
    ensures Ingress(p, g, key, mac) == (Pass, q)
        <==> if IsScion(p)
             then Accepted(p, g, key, mac) && q == p[..12] + [0x08, 0x00] + p[InnerAt(p, g)..]
             else q == p
  {
    ScionStartIff(p);
    PassedIff(p, g, key, mac, q);
    if IsScion(p) {
      ScionStartsSo(p, g);
      if MetaAt(p) + g.meta + g.inf <= |p| {
        ParsedAs(p, g);
        AuthenticIff(p, g, HopAt(p, g, p[MetaAt(p)] / 4), mac);
      }
    }
  }

  lemma AuthenticIff(p: seq<byte>, g: ScionLayout, hop: nat, mac: MacFunction)
    requires |p| >= 42 && MetaAt(p) + g.meta + g.inf <= |p|
    ensures hop + g.hf <= |p| ==>
              forall key :: Authentic(p, g, key, hop, mac) <==> MacValid(p, g, key, MetaAt(p) + g.meta, hop, mac)
  {
    if hop + g.hf <= |p| {
      var h := p[hop..hop + g.hf];
      assert h[..g.mac] == p[hop..hop + g.mac] && h[g.mac + 6..] == p[hop + g.mac + 6..hop + g.hf];
    }
  }

  lemma ScionStartsSo(p: seq<byte>, g: ScionLayout)
    requires ScionStart(p).Some?
    ensures !Parse(p, g).NotScion?
    ensures Parse(p, g).Scion? ==> MetaOffset(ScionStart(p).value) + g.meta + g.inf <= |p|
  {
  }

  /** The headers parse exactly if the current hop field and the encapsulation end inside the packet. */
  lemma ParsedAs(p: seq<byte>, g: ScionLayout)
    requires IsScion(p) && MetaAt(p) + g.meta + g.inf <= |p|
    ensures var hop := HopAt(p, g, p[MetaAt(p)] / 4);
            && (Parse(p, g).Scion? <==> hop + g.hf <= |p| && InnerAt(p, g) <= |p|)
            && (Parse(p, g).Scion? ==> Parse(p, g) == Scion(InnerAt(p, g) - 14, MetaAt(p) + g.meta, hop))
  {
    ScionStartIff(p);
    var numInf, numHf := p[MetaAt(p) + g.numInf], p[MetaAt(p) + g.numHf];
    AtLeast(numInf, g.inf);
    AtLeast(numHf, g.hf);
    AtLeast(p[MetaAt(p)] / 4, g.hf);
  }

  /**
   * On the program's own layout and MAC, a packet with two hop fields of which the second is the current one and
   * carries a wrong MAC is dropped as it is, whatever the first one carries.
   */
  lemma BadSecondHopIsDropped(p: seq<byte>, key: seq<byte>)
    requires |p| >= 133 && IsScion(p) && p[14] == 0x45
    requires p[78] == 4 && p[83] == 2 && p[84] == 1
    requires p[117..123] != [0, 0, 0, 0, 0, 0]
    ensures Ingress(p, C_LAYOUT, Some(key), STUB) == (Drop(BadMac), p)
  {
    var g := C_LAYOUT;
    assert ScionAt(p) == 42 && MetaAt(p) == 78;
    assert HopAt(p, g, 0) == 93 && HopAt(p, g, 1) == 109 && InnerAt(p, g) == 133;
    ParsedAs(p, g);
    AuthenticIff(p, g, 109, STUB);
  }

  /** Such a packet, whose first hop field carries the right MAC: byte 117 starts the second one's. */
  const SECOND_HOP_SPOOFED: seq<byte> :=
    seq(153, i => if i == 12 then 0x08 else if i == 14 then 0x45 else if i == 23 then 17
                  else if i == 36 then 0x75 else if i == 37 then 0x59
                  else if i == 78 then 4 else if i == 83 then 2 else if i == 84 then 1
                  else if i == 117 then 1 else 0)

  /** It is dropped; with the first hop field the current one it would be passed. */
  lemma SpoofedExample(key: seq<byte>)
    ensures var p := SECOND_HOP_SPOOFED;
            && Ingress(p, C_LAYOUT, Some(key), STUB) == (Drop(BadMac), p)
            && Ingress(p[78 := 0], C_LAYOUT, Some(key), STUB).0 == Pass
  {
    var p, g := SECOND_HOP_SPOOFED, C_LAYOUT;
    assert p[117..123][0] == 1;
    BadSecondHopIsDropped(p, key);
    var first := p[78 := 0];
    assert ScionAt(first) == 42 && MetaAt(first) == 78 && HopAt(first, g, 0) == 93 && InnerAt(first, g) == 133;
    assert first[101..107] == [0, 0, 0, 0, 0, 0];
    PassedExactly(first, g, Some(key), STUB, first[..12] + [0x08, 0x00] + first[133..]);
  }

  // What egress sends.

  /** IPv4, with its whole header inside the packet. */
  predicate IsIpv4(p: seq<byte>) {
    |p| >= 34 && Be16(p, 12) == 0x0800 && 14 + p[14] % 16 * 4 <= |p|
  }

  /**
   * What is not IPv4, comes from no known pod or has no path leaves as it came. Where there is a path, it must be
   * no longer than 256 bytes and the kernel must grant the room, or the packet is shot.
   */
  lemma EgressExits(p: seq<byte>, m: Maps, order: ByteOrder, ctl: TcEgress.Control, g: ScionLayout, mac: MacFunction,
                    granted: bool)
    requires Readable(m)
    ensures TcEgress.PodAddress(p) == if IsIpv4(p) then Some([p[26], p[27], p[28], p[29]]) else None
    ensures !IsIpv4(p) ==> TcEgress.Egress(p, m, order, ctl, g, mac, granted) == Some(p)
    ensures IsIpv4(p) ==>
              var path := Select(m, [p[26], p[27], p[28], p[29]], order);
              && (path.None? ==> TcEgress.Egress(p, m, order, ctl, g, mac, granted) == Some(p))
              && (path.Some? && (path.value.pathLen > 256 || !granted) ==>
                    TcEgress.Egress(p, m, order, ctl, g, mac, granted) == None)
  {
    if |p| >= 34 {
      assert p[26..30] == [p[26], p[27], p[28], p[29]] && p[12..14] == [p[12], p[13]];
      SixteenBits(p[12], p[13], 0x08, 0x00);
    }
  }

  /** The Ethernet header: to the next hop, from where the pod's packet came, carrying IPv4. */
  predicate EthernetOnTheWire(q: seq<byte>, p: seq<byte>, e: TcEgress.ShortEntry)
    requires |q| >= 78 && |p| >= 34
  {
    && (forall i | 0 <= i < 6 :: q[i] == e.nextHopMAC[i])
    && (forall i | 6 <= i < 12 :: q[i] == p[i])
    && Be16(q, 12) == 0x0800
  }

  /**
   * The IPv4 header: version 4, five words, no service type, the length of all that follows, no identification,
   * flags or fragment, time to live 64, protocol UDP, checksum and source unset, destination the next hop.
   */
  predicate Ipv4OnTheWire(q: seq<byte>, e: TcEgress.ShortEntry)
    requires |q| >= 78
  {
    && q[14] / 16 == 4 && q[14] % 16 == 5 && q[15] == 0 && Be16(q, 16) == (|q| - 14) % 65536
    && Be16(q, 18) == 0 && Be16(q, 20) == 0 && q[22] == 64 && q[23] == 17 && Be16(q, 24) == 0
    && (forall i | 26 <= i < 30 :: q[i] == 0)
    && (forall i | 30 <= i < 34 :: q[i] == e.nextHopIP[i - 30])
  }

  /** The UDP header: from and to port 30041, the length of itself and all that follows, no checksum. */
  predicate UdpOnTheWire(q: seq<byte>)
    requires |q| >= 78
  {
    Be16(q, 34) == 30041 && Be16(q, 36) == 30041 && Be16(q, 38) == (|q| - 34) % 65536 && Be16(q, 40) == 0
  }

  /** The SCION common and address headers, as the control plane has prepared them. */
  predicate ScionOnTheWire(q: seq<byte>, ctl: TcEgress.Control)
    requires |q| >= 78
  {
    && (forall i | 42 <= i < 54 :: q[i] == ctl.common[i - 42])
    && (forall i | 54 <= i < 78 :: q[i] == ctl.addr[i - 54])
  }

  /** Behind them the path, the extension and the original from its IP header on, six bytes from `stamp` on apart. */
  predicate RestOnTheWire(q: seq<byte>, p: seq<byte>, e: TcEgress.ShortEntry, ctl: TcEgress.Control, stamp: nat)
    requires |q| == |p| + 72 + e.pathLen && |p| >= 34
  {
    var (ext, inner) := (78 + e.pathLen, 86 + e.pathLen);
    && (forall i | 78 <= i < ext && !(stamp <= i < stamp + 6) :: q[i] == e.hopFields[i - 78])
    && (forall i | ext <= i < inner && !(stamp <= i < stamp + 6) :: q[i] == ctl.ext[i - ext])
    && (forall i | inner <= i < |q| && !(stamp <= i < stamp + 6) :: q[i] == p[i - inner + 14])
  }

  predicate OnTheWire(q: seq<byte>, p: seq<byte>, e: TcEgress.ShortEntry, ctl: TcEgress.Control, stamp: nat) {
    && |p| >= 34 && |q| == |p| + 72 + e.pathLen
    && EthernetOnTheWire(q, p, e) && Ipv4OnTheWire(q, e) && UdpOnTheWire(q) && ScionOnTheWire(q, ctl)
    && RestOnTheWire(q, p, e, ctl, stamp)
  }

  /** `part` stands in `u` from `off` on. */
  predicate Stands(u: seq<byte>, off: nat, part: seq<byte>) {
    off + |part| <= |u| && forall i | off <= i < off + |part| :: u[i] == part[i - off]
  }

  lemma StandsInside(u: seq<byte>, off: nat, whole: seq<byte>, before: seq<byte>, part: seq<byte>, behind: seq<byte>)
    requires Stands(u, off, whole) && whole == before + part + behind
    ensures Stands(u, off + |before|, part)
  {
    forall i | off + |before| <= i < off + |before| + |part|
      ensures u[i] == part[i - (off + |before|)]
    {
      assert u[i] == whole[i - off];
    }
  }

  lemma Net16Value(n: nat)
    ensures 256 * (n / 256 % 256) + n % 256 == n % 65536
  {
  }

  lemma EthernetWritten(u: seq<byte>, p: seq<byte>, b: seq<byte>, e: TcEgress.ShortEntry)
    requires |u| >= 78 && |p| >= 34 && |b| >= 14 && b[6..12] == p[6..12]
    requires Stands(u, 0, TcEgress.EthernetHeader(b, e))
    ensures EthernetOnTheWire(u, p, e)
  {
    var eth := TcEgress.EthernetHeader(b, e);
    StandsInside(u, 0, eth, [], e.nextHopMAC, b[6..12] + ETH_P_IP);
    StandsInside(u, 0, eth, e.nextHopMAC, b[6..12], ETH_P_IP);
    StandsInside(u, 0, eth, e.nextHopMAC + b[6..12], ETH_P_IP, []);
    assert u[12] == ETH_P_IP[0] && u[13] == ETH_P_IP[1];
    forall j | 6 <= j < 12
      ensures u[j] == p[j]
    {
      assert u[j] == b[6..12][j - 6] == p[6..12][j - 6];
    }
  }

  lemma Ipv4Written(u: seq<byte>, b: seq<byte>, e: TcEgress.ShortEntry)
    requires |u| == |b| >= 78 && b[26..30] == [0, 0, 0, 0]
    requires Stands(u, 14, TcEgress.IpHeader(b, e))
    ensures Ipv4OnTheWire(u, e)
  {
    var ip, head := TcEgress.IpHeader(b, e), TcEgress.IpHead(|b| - 14);
    StandsInside(u, 14, ip, [], head, b[26..30] + e.nextHopIP);
    StandsInside(u, 14, ip, head, b[26..30], e.nextHopIP);
    StandsInside(u, 14, ip, head + b[26..30], e.nextHopIP, []);
    assert head == [0x45, 0, (|b| - 14) / 256 % 256, (|b| - 14) % 256, 0, 0, 0, 0, 64, 17, 0, 0];
    assert u[14] == head[0] && u[15] == head[1] && u[16] == head[2] && u[17] == head[3] && u[18] == head[4];
    assert u[19] == head[5] && u[20] == head[6] && u[21] == head[7] && u[22] == head[8] && u[23] == head[9];
    assert u[24] == head[10] && u[25] == head[11];
    Net16Value(|b| - 14);
  }

  lemma UdpWritten(u: seq<byte>, len: nat)
    requires |u| >= 78 && len == |u| - 34 && Stands(u, 34, TcEgress.UdpHeader(len))
    ensures UdpOnTheWire(u)
  {
    var udp := TcEgress.UdpHeader(len);
    assert udp == [0x75, 0x59, 0x75, 0x59, len / 256 % 256, len % 256, 0, 0];
    assert u[34] == udp[0] && u[35] == udp[1] && u[36] == udp[2] && u[37] == udp[3];
    assert u[38] == udp[4] && u[39] == udp[5] && u[40] == udp[6] && u[41] == udp[7];
    Net16Value(len);
  }

  /** The headers as egress writes them, before the hop field is stamped. */
  lemma UnstampedOnTheWire(p: seq<byte>, e: TcEgress.ShortEntry, ctl: TcEgress.Control, stamp: nat)
    requires |p| >= 34
    ensures OnTheWire(TcEgress.Unstamped(Opened(p, TcEgress.EncapLen(e)), e, ctl), p, e, ctl, stamp)
  {
    var b := Opened(p, TcEgress.EncapLen(e));
    var u := TcEgress.Unstamped(b, e, ctl);
    assert |b| == |p| + 72 + e.pathLen;
    assert b[6..12] == p[6..12] && b[26..30] == [0, 0, 0, 0];
    PartsStand(b, u, e, ctl);
    EthernetWritten(u, p, b, e);
    Ipv4Written(u, b, e);
    ScionWritten(u, e, ctl, |b| - 34);
    TailWritten(u, p, e, b);
    RestWritten(u, p, e, ctl, stamp);
  }

  lemma PartsStand(b: seq<byte>, u: seq<byte>, e: TcEgress.ShortEntry, ctl: TcEgress.Control)
    requires |b| >= 14 + TcEgress.EncapLen(e) && u == TcEgress.Unstamped(b, e, ctl)
    ensures |u| == |b| && Stands(u, 0, TcEgress.EthernetHeader(b, e)) && Stands(u, 14, TcEgress.IpHeader(b, e))
    ensures Stands(u, 34, TcEgress.ScionPart(e, ctl, |b| - 34))
    ensures u[14 + TcEgress.EncapLen(e)..] == b[14 + TcEgress.EncapLen(e)..]
  {
    var eth, ip := TcEgress.EthernetHeader(b, e), TcEgress.IpHeader(b, e);
    var sc, rest := TcEgress.ScionPart(e, ctl, |b| - 34), b[14 + TcEgress.EncapLen(e)..];
    assert Stands(u, 0, u);
    assert u == [] + eth + (ip + sc + rest);
    StandsInside(u, 0, u, [], eth, ip + sc + rest);
    assert u == eth + ip + (sc + rest);
    StandsInside(u, 0, u, eth, ip, sc + rest);
    StandsInside(u, 0, u, eth + ip, sc, rest);
  }

  lemma RestWritten(u: seq<byte>, p: seq<byte>, e: TcEgress.ShortEntry, ctl: TcEgress.Control, stamp: nat)
    requires |p| >= 34 && |u| == |p| + 72 + e.pathLen
    requires Stands(u, 78, e.hopFields[..e.pathLen]) && Stands(u, 78 + e.pathLen, ctl.ext)
    requires forall i | 86 + e.pathLen <= i < |u| :: u[i] == p[i - e.pathLen - 72]
    ensures RestOnTheWire(u, p, e, ctl, stamp)
  {
    forall i | 78 <= i < 78 + e.pathLen
      ensures u[i] == e.hopFields[i - 78]
    {
      assert u[i] == e.hopFields[..e.pathLen][i - 78];
    }
  }

  /** A packet that differs only in the stamped bytes has all the same fields, if these lie behind the meta header. */
  lemma StampedOnTheWire(u: seq<byte>, q: seq<byte>, p: seq<byte>, e: TcEgress.ShortEntry, ctl: TcEgress.Control,
                         stamp: nat)
    requires OnTheWire(u, p, e, ctl, stamp) && |q| == |u| && stamp >= 78
    requires forall i | 0 <= i < |u| && !(stamp <= i < stamp + 6) :: q[i] == u[i]
    ensures OnTheWire(q, p, e, ctl, stamp)
  {
    assert forall i | 0 <= i < 78 :: q[i] == u[i];
    SameHeaders(u, q, p, e, ctl);
    SameRest(u, q, p, e, ctl, stamp);
  }

  lemma SameHeaders(u: seq<byte>, q: seq<byte>, p: seq<byte>, e: TcEgress.ShortEntry, ctl: TcEgress.Control)
    requires |p| >= 34 && |q| == |u| >= 78 && forall i | 0 <= i < 78 :: q[i] == u[i]
    requires EthernetOnTheWire(u, p, e) && Ipv4OnTheWire(u, e) && UdpOnTheWire(u) && ScionOnTheWire(u, ctl)
    ensures EthernetOnTheWire(q, p, e) && Ipv4OnTheWire(q, e) && UdpOnTheWire(q) && ScionOnTheWire(q, ctl)
  {
  }

  lemma SameRest(u: seq<byte>, q: seq<byte>, p: seq<byte>, e: TcEgress.ShortEntry, ctl: TcEgress.Control, stamp: nat)
    requires |q| == |u| == |p| + 72 + e.pathLen && |p| >= 34 && RestOnTheWire(u, p, e, ctl, stamp)
    requires forall i | 0 <= i < |u| && !(stamp <= i < stamp + 6) :: q[i] == u[i]
    ensures RestOnTheWire(q, p, e, ctl, stamp)
  {
  }

  lemma ScionWritten(u: seq<byte>, e: TcEgress.ShortEntry, ctl: TcEgress.Control, len: nat)
    requires |u| >= 86 + e.pathLen && len == |u| - 34 && Stands(u, 34, TcEgress.ScionPart(e, ctl, len))
    ensures UdpOnTheWire(u) && ScionOnTheWire(u, ctl)
    ensures Stands(u, 78, e.hopFields[..e.pathLen]) && Stands(u, 78 + e.pathLen, ctl.ext)
  {
    var sc, udp, path := TcEgress.ScionPart(e, ctl, len), TcEgress.UdpHeader(len), e.hopFields[..e.pathLen];
    assert sc == [] + udp + (ctl.common + ctl.addr + path + ctl.ext);
    StandsInside(u, 34, sc, [], udp, ctl.common + ctl.addr + path + ctl.ext);
    assert sc == udp + ctl.common + (ctl.addr + path + ctl.ext);
    StandsInside(u, 34, sc, udp, ctl.common, ctl.addr + path + ctl.ext);
    assert sc == (udp + ctl.common) + ctl.addr + (path + ctl.ext);
    StandsInside(u, 34, sc, udp + ctl.common, ctl.addr, path + ctl.ext);
    StandsInside(u, 34, sc, udp + ctl.common + ctl.addr, path, ctl.ext);
    assert sc == (udp + ctl.common + ctl.addr + path) + ctl.ext + [];
    StandsInside(u, 34, sc, udp + ctl.common + ctl.addr + path, ctl.ext, []);
    UdpWritten(u, len);
  }

  lemma TailWritten(u: seq<byte>, p: seq<byte>, e: TcEgress.ShortEntry, b: seq<byte>)
    requires |p| >= 34 && |u| == |p| + 72 + e.pathLen && b == Opened(p, 72 + e.pathLen)
    requires u[86 + e.pathLen..] == b[86 + e.pathLen..]
    ensures forall i | 86 + e.pathLen <= i < |u| :: u[i] == p[i - e.pathLen - 72]
  {
    forall i | 86 + e.pathLen <= i < |u|
      ensures u[i] == p[i - e.pathLen - 72]
    {
      assert u[i] == u[86 + e.pathLen..][i - 86 - e.pathLen] == b[86 + e.pathLen..][i - 86 - e.pathLen] == b[i];
    }
  }
}

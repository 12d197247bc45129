/** Egress and ingress together: each computes the encapsulation length on its own, and they must agree. */
module RoundTrip {
  import opened BpfMaps
  import opened Bytes
  import opened Packet
  import opened ScionMac
  import TcEgress
  import Wire
  import opened Wrappers
  import opened XdpIngress

  const META := MetaOffset(TcEgress.OUTER_SCION)

  /** The length stored with a path is the length its own path meta header announces. */
  predicate Consistent(e: Entry, g: ScionLayout) {
    e.pathLen == PathHeaderLen(g, e.hopFields[g.numInf], e.hopFields[g.numHf])
  }

  /** The pod's packet, readdressed to the next hop and otherwise unchanged. */
  function Redirected(p: seq<byte>, e: Entry): seq<byte>
    requires |p| >= ETH_LEN
  {
    e.nextHopMAC + p[6..12] + ETH_P_IP + p[ETH_LEN..]
  }

  /** The program encapsulates `p` with the path `e`. */
  ghost predicate Encapsulates(p: seq<byte>, e: Entry, m: Maps, order: ByteOrder) {
    && Readable(m)
    && TcEgress.PodAddress(p).Some? && Select(m, TcEgress.PodAddress(p).value, order) == Some(e)
    && e.pathLen <= 256
  }

  // What egress writes.

  /** The encapsulated packet before its hop field is stamped. */
  function Built(p: seq<byte>, e: TcEgress.ShortEntry, ctl: TcEgress.Control): seq<byte>
    requires |p| >= ETH_LEN + IPV4_LEN
  {
    TcEgress.Unstamped(Opened(p, TcEgress.EncapLen(e)), e, ctl)
  }

  /** How the encapsulated form `u` of `p` is addressed, and what its outer headers say. */
  ghost predicate Outside(u: seq<byte>, p: seq<byte>, e: TcEgress.ShortEntry) {
    && |p| >= ETH_LEN + IPV4_LEN && |u| == |p| + TcEgress.EncapLen(e)
    && u[..ETH_LEN] == e.nextHopMAC + p[6..12] + ETH_P_IP
    && u[ETH_LEN] == 0x45 && u[23] == PROTO_UDP && u[30..34] == e.nextHopIP && u[36..38] == SCION_PORT
    && u[16..18] == Net16(|u| - ETH_LEN) && u[38..40] == Net16(|u| - ETH_LEN - IPV4_LEN)
  }

  lemma BuiltFields(p: seq<byte>, e: TcEgress.ShortEntry, ctl: TcEgress.Control)
    requires |p| >= ETH_LEN + IPV4_LEN
    ensures Outside(Built(p, e, ctl), p, e)
    ensures Built(p, e, ctl)[META..META + e.pathLen] == e.hopFields[..e.pathLen]
    ensures Built(p, e, ctl)[ETH_LEN + TcEgress.EncapLen(e)..] == p[ETH_LEN..]
  {
    var u := Built(p, e, ctl);
    Wire.UnstampedOnTheWire(p, e, ctl, |u|);
    OutsideOf(u, p, e, ctl);
    assert u[META..META + e.pathLen] == e.hopFields[..e.pathLen];
    assert u[ETH_LEN + TcEgress.EncapLen(e)..] == p[ETH_LEN..];
  }

  lemma OutsideOf(u: seq<byte>, p: seq<byte>, e: TcEgress.ShortEntry, ctl: TcEgress.Control)
    requires Wire.OnTheWire(u, p, e, ctl, |u|)
    ensures Outside(u, p, e)
  {
    assert u[12..14] == [u[12], u[13]] && u[36..38] == [u[36], u[37]];
    Wire.SixteenBits(u[12], u[13], 0x08, 0x00);
    Wire.SixteenBits(u[36], u[37], 0x75, 0x59);
    assert u[..ETH_LEN] == u[..6] + u[6..12] + u[12..14];
    assert u[..6] == e.nextHopMAC && u[6..12] == p[6..12] && u[30..34] == e.nextHopIP;
    LengthBytes(u, 16, |u| - ETH_LEN);
    LengthBytes(u, 38, |u| - ETH_LEN - IPV4_LEN);
  }

  lemma LengthBytes(u: seq<byte>, at: nat, n: nat)
    requires at + 2 <= |u| && Wire.Be16(u, at) == n % 65536
    ensures u[at..at + 2] == Net16(n)
  {
    Wire.Net16Value(n);
    Wire.SixteenBits(u[at], u[at + 1], n / 256 % 256, n % 256);
  }

  lemma EgressStampsBuilt(p: seq<byte>, e: TcEgress.ShortEntry, m: Maps, order: ByteOrder, ctl: TcEgress.Control,
                          g: ScionLayout, mac: MacFunction)
    requires Encapsulates(p, e, m, order)
    ensures |p| >= ETH_LEN + IPV4_LEN
    ensures TcEgress.Egress(p, m, order, ctl, g, mac, true) == TcEgress.Signed0(Built(p, e, ctl), e, g, mac)
  {
  }

  /** Where the first hop field of an encapsulated packet lies. */
  function FirstHop(q: seq<byte>, g: ScionLayout): nat
    requires |q| >= META + g.meta
  {
    HopOffset(g, TcEgress.OUTER_SCION, q[META + g.numInf], 0)
  }

  /**
   * An encapsulated packet as it arrives: the headers, the path's meta header, a first hop field that verifies, and
   * behind the encapsulation the original IP bytes, but for those the stamped MAC lies on.
   */
  ghost predicate Wrapped(q: seq<byte>, p: seq<byte>, e: TcEgress.ShortEntry, g: ScionLayout, mac: MacFunction) {
    && Outside(q, p, e) && |q| >= META + g.meta
    && MetaKept(q, e, g)
    && META + g.meta + g.inf <= |q| && FirstHop(q, g) + g.hf <= |q|
    && MacValid(q, g, e.macKey, META + g.meta, FirstHop(q, g), mac)
    && TailKept(q, p, FirstHop(q, g) + g.mac)
  }

  /** Behind the encapsulation the packet is the original, six bytes from `stamp` on apart. */
  ghost predicate TailKept(q: seq<byte>, p: seq<byte>, stamp: nat)
    requires |q| >= |p|
  {
    forall i | |q| - |p| + ETH_LEN <= i < |q| && !(stamp <= i < stamp + MAC_LEN) :: q[i] == p[i - (|q| - |p|)]
  }

  /** The stamped MAC ends inside the encapsulation, or the IP bytes it lies on are as they were. */
  predicate StampSpares(q: seq<byte>, p: seq<byte>, g: ScionLayout)
    requires |q| >= |p| && |q| >= META + g.meta
  {
    var stamp := FirstHop(q, g) + g.mac;
    forall i | stamp <= i < stamp + MAC_LEN && |q| - |p| + ETH_LEN <= i < |q| :: q[i] == p[i - (|q| - |p|)]
  }

  /** As far as the stored path reaches, the packet has the stored meta header. */
  ghost predicate MetaKept(q: seq<byte>, e: TcEgress.ShortEntry, g: ScionLayout)
    requires |q| >= META + g.meta
  {
    forall i | 0 <= i < g.meta && i < e.pathLen :: q[META + i] == e.hopFields[i]
  }

  lemma StampingWraps(u: seq<byte>, p: seq<byte>, e: TcEgress.ShortEntry, g: ScionLayout, mac: MacFunction)
    requires Outside(u, p, e)
    requires u[META..META + e.pathLen] == e.hopFields[..e.pathLen]
    requires u[ETH_LEN + TcEgress.EncapLen(e)..] == p[ETH_LEN..]
    requires TcEgress.Signed0(u, e, g, mac).Some?
    ensures Wrapped(TcEgress.Signed0(u, e, g, mac).value, p, e, g, mac)
  {
    var q, info, hop := TcEgress.Signed0(u, e, g, mac).value, META + g.meta, FirstHop(u, g);
    StampInside(u, q, e, g, mac);
    SamePrefix(u, q, info, p, e);
    MetaBytes(u, q, e, g);
    TailBytes(u, q, p, hop + g.mac);
  }

  /** The stamp verifies, and changes only its six bytes, which lie behind the meta header. */
  lemma StampInside(u: seq<byte>, q: seq<byte>, e: TcEgress.ShortEntry, g: ScionLayout, mac: MacFunction)
    requires TcEgress.Signed0(u, e, g, mac) == Some(q)
    ensures |q| == |u| >= META + g.meta + g.inf && FirstHop(q, g) == FirstHop(u, g) && FirstHop(u, g) + g.hf <= |q|
    ensures MacValid(q, g, e.macKey, META + g.meta, FirstHop(q, g), mac)
    ensures forall i | 0 <= i < |u| && !(FirstHop(u, g) + g.mac <= i < FirstHop(u, g) + g.mac + MAC_LEN) :: q[i] == u[i]
  {
    var info, hop := META + g.meta, FirstHop(u, g);
    AtLeast(u[META + g.numInf], g.inf);
    assert hop == info + u[META + g.numInf] * g.inf;
    StampVerifies(u, g, e.macKey, info, hop, mac);
  }

  lemma MetaBytes(u: seq<byte>, q: seq<byte>, e: TcEgress.ShortEntry, g: ScionLayout)
    requires META + g.meta <= |u| == |q| && META + e.pathLen <= |u|
    requires u[META..META + e.pathLen] == e.hopFields[..e.pathLen]
    requires forall i | 0 <= i < META + g.meta :: q[i] == u[i]
    ensures MetaKept(q, e, g)
  {
    forall i | 0 <= i < g.meta && i < e.pathLen
      ensures q[META + i] == e.hopFields[i]
    {
      assert u[META + i] == u[META..META + e.pathLen][i];
    }
  }

  lemma TailBytes(u: seq<byte>, q: seq<byte>, p: seq<byte>, stamp: nat)
    requires |u| == |q| >= |p| >= ETH_LEN && u[|u| - |p| + ETH_LEN..] == p[ETH_LEN..]
    requires forall i | 0 <= i < |u| && !(stamp <= i < stamp + MAC_LEN) :: q[i] == u[i]
    ensures TailKept(q, p, stamp)
  {
    var from := |u| - |p| + ETH_LEN;
    forall i | from <= i < |q| && !(stamp <= i < stamp + MAC_LEN)
      ensures q[i] == p[i - (|q| - |p|)]
    {
      assert u[i] == u[from..][i - from] == p[ETH_LEN..][i - from];
    }
  }

  lemma SamePrefix(u: seq<byte>, q: seq<byte>, n: nat, p: seq<byte>, e: TcEgress.ShortEntry)
    requires Outside(u, p, e) && |q| == |u| && META <= n <= |u|
    requires forall i | 0 <= i < n :: q[i] == u[i]
    ensures Outside(q, p, e)
  {
    assert q[..ETH_LEN] == u[..ETH_LEN] && q[30..34] == u[30..34] && q[36..38] == u[36..38];
    assert q[16..18] == u[16..18] && q[38..40] == u[38..40];
  }

  lemma EgressWraps(p: seq<byte>, q: seq<byte>, e: Entry, m: Maps, order: ByteOrder,
                    ctl: TcEgress.Control, g: ScionLayout, mac: MacFunction)
    requires Encapsulates(p, e, m, order) && TcEgress.Egress(p, m, order, ctl, g, mac, true) == Some(q)
    ensures Wrapped(q, p, e, g, mac)
    ensures Wire.OnTheWire(q, p, e, ctl, FirstHop(q, g) + g.mac)
  {
    EgressStampsBuilt(p, e, m, order, ctl, g, mac);
    BuiltFields(p, e, ctl);
    StampingWraps(Built(p, e, ctl), p, e, g, mac);
    SignedOnTheWire(p, q, e, ctl, g, mac);
  }

  lemma SignedOnTheWire(p: seq<byte>, q: seq<byte>, e: TcEgress.ShortEntry, ctl: TcEgress.Control, g: ScionLayout,
                        mac: MacFunction)
    requires |p| >= ETH_LEN + IPV4_LEN && TcEgress.Signed0(Built(p, e, ctl), e, g, mac) == Some(q)
    ensures |q| >= META + g.meta && Wire.OnTheWire(q, p, e, ctl, FirstHop(q, g) + g.mac)
  {
    var u := Built(p, e, ctl);
    StampInside(u, q, e, g, mac);
    Wire.UnstampedOnTheWire(p, e, ctl, FirstHop(q, g) + g.mac);
    Wire.StampedOnTheWire(u, q, p, e, ctl, FirstHop(q, g) + g.mac);
  }

  // What ingress makes of it.

  /** Ingress recognises the packet and finds its headers where egress put them. */
  lemma IngressFinds(q: seq<byte>, p: seq<byte>, e: TcEgress.ShortEntry)
    requires Outside(q, p, e)
    ensures ScionStart(q) == Some(TcEgress.OUTER_SCION) && HeaderLen(q) == IPV4_LEN
  {
    assert q[12..14] == q[..ETH_LEN][12..14];
  }

  /** Where ingress looks for the current hop field of an encapsulated packet. */
  function CurrentHop(q: seq<byte>, g: ScionLayout): nat
    requires |q| >= META + g.meta
  {
    HopOffset(g, TcEgress.OUTER_SCION, q[META + g.numInf], q[META] / 4)
  }

  /** Ingress has a key, and under it the current hop field verifies. */
  predicate Verifies(q: seq<byte>, g: ScionLayout, key: Option<seq<byte>>, mac: MacFunction)
    requires |q| >= META + g.meta + g.inf
  {
    && key.Some? && CurrentHop(q, g) + g.hf <= |q|
    && MacValid(q, g, key.value, META + g.meta, CurrentHop(q, g), mac)
  }

  lemma MetaCounts(q: seq<byte>, p: seq<byte>, e: TcEgress.ShortEntry, g: ScionLayout, mac: MacFunction)
    requires Wrapped(q, p, e, g, mac) && g.meta <= e.pathLen
    ensures q[META] == e.hopFields[0]
    ensures q[META + g.numInf] == e.hopFields[g.numInf] && q[META + g.numHf] == e.hopFields[g.numHf]
  {
    assert q[META + 0] == e.hopFields[0];
  }

  /** With a consistent path ingress accepts the headers, if the current hop field lies inside the packet. */
  lemma ConsistentParses(q: seq<byte>, p: seq<byte>, e: TcEgress.ShortEntry, g: ScionLayout, mac: MacFunction)
    requires Wrapped(q, p, e, g, mac) && Consistent(e, g) && CurrentHop(q, g) + g.hf <= |q|
    ensures Parse(q, g) == Scion(TcEgress.EncapLen(e), META + g.meta, CurrentHop(q, g))
  {
    MetaCounts(q, p, e, g, mac);
    IngressFinds(q, p, e);
  }

  /** What ingress passes is the readdressed original exactly if nothing of that was stamped over. */
  lemma Decapsulates(q: seq<byte>, p: seq<byte>, e: TcEgress.ShortEntry, g: ScionLayout, mac: MacFunction)
    requires Wrapped(q, p, e, g, mac)
    ensures Inner(q, TcEgress.EncapLen(e)) == Redirected(p, e) <==> StampSpares(q, p, g)
  {
    var from, inner := ETH_LEN + TcEgress.EncapLen(e), Inner(q, TcEgress.EncapLen(e));
    assert q[..12] == q[..ETH_LEN][..12] == e.nextHopMAC + p[6..12];
    SameBehind(q, p, from, FirstHop(q, g) + g.mac);
    assert inner[ETH_LEN..] == q[from..] && Redirected(p, e)[ETH_LEN..] == p[ETH_LEN..];
  }

  lemma SameBehind(q: seq<byte>, p: seq<byte>, from: nat, stamp: nat)
    requires |q| >= |p| >= ETH_LEN && from == |q| - |p| + ETH_LEN && TailKept(q, p, stamp)
    ensures q[from..] == p[ETH_LEN..]
        <==> forall i | stamp <= i < stamp + MAC_LEN && from <= i < |q| :: q[i] == p[i - (|q| - |p|)]
  {
    if q[from..] == p[ETH_LEN..] {
      forall i | from <= i < |q|
        ensures q[i] == p[i - (|q| - |p|)]
      {
        assert q[i] == q[from..][i - from] == p[ETH_LEN..][i - from];
      }
    }
  }

  /** What is in front of the inner packet and what is behind the encapsulation, put together. */
  function Inner(q: seq<byte>, encap: nat): seq<byte>
    requires ETH_LEN + encap <= |q|
  {
    q[..12] + ETH_P_IP + q[ETH_LEN + encap..]
  }

  lemma ParsedIsPassed(q: seq<byte>, g: ScionLayout, encap: nat, key: Option<seq<byte>>, mac: MacFunction)
    requires |q| >= META + g.meta + g.inf && |q| >= ETH_LEN + IPV4_LEN + encap && Verifies(q, g, key, mac)
    requires Parse(q, g) == Scion(encap, META + g.meta, CurrentHop(q, g))
    ensures Ingress(q, g, key, mac) == (Pass, Inner(q, encap))
  {
    PassedIff(q, g, key, mac, Inner(q, encap));
  }

  lemma PassedIsParsed(q: seq<byte>, g: ScionLayout, key: Option<seq<byte>>, mac: MacFunction, out: seq<byte>)
    requires ScionStart(q) == Some(TcEgress.OUTER_SCION) && HeaderLen(q) == IPV4_LEN
    requires Ingress(q, g, key, mac) == (Pass, out)
    ensures |q| >= META + g.meta + g.inf && Verifies(q, g, key, mac)
    ensures var encap := IPV4_LEN + UDP_LEN + SCION_LEN + ADDR_LEN
                         + PathHeaderLen(g, q[META + g.numInf], q[META + g.numHf]) + EXT_LEN;
            ETH_LEN + encap <= |q| && out == Inner(q, encap)
  {
    PassedIff(q, g, key, mac, out);
    ScionStartsSo(q, g);
    ParsedEncap(q, g);
    ParseFits(q, g);
  }

  lemma ScionStartsSo(q: seq<byte>, g: ScionLayout)
    requires ScionStart(q).Some?
    ensures !Parse(q, g).NotScion?
  {
  }

  /** A path whose announced length is the stored one is consistent. */
  lemma AnnouncedIsConsistent(q: seq<byte>, p: seq<byte>, e: TcEgress.ShortEntry, g: ScionLayout, mac: MacFunction)
    requires Wrapped(q, p, e, g, mac)
    requires e.pathLen == PathHeaderLen(g, q[META + g.numInf], q[META + g.numHf])
    ensures Consistent(e, g)
  {
    MetaCounts(q, p, e, g, mac);
  }

  lemma DecapsulatedIsConsistent(q: seq<byte>, p: seq<byte>, e: TcEgress.ShortEntry, g: ScionLayout,
                                 key: Option<seq<byte>>, mac: MacFunction)
    requires Wrapped(q, p, e, g, mac)
    requires Ingress(q, g, key, mac) == (Pass, Redirected(p, e))
    ensures Consistent(e, g) && Verifies(q, g, key, mac)
    ensures Inner(q, TcEgress.EncapLen(e)) == Redirected(p, e)
  {
    IngressFinds(q, p, e);
    PassedIsParsed(q, g, key, mac, Redirected(p, e));
    SameLength(q, p, e, g);
    AnnouncedIsConsistent(q, p, e, g, mac);
  }

  lemma SameLength(q: seq<byte>, p: seq<byte>, e: TcEgress.ShortEntry, g: ScionLayout)
    requires Outside(q, p, e) && |q| >= META + g.meta
    requires var encap := IPV4_LEN + UDP_LEN + SCION_LEN + ADDR_LEN
                          + PathHeaderLen(g, q[META + g.numInf], q[META + g.numHf]) + EXT_LEN;
             ETH_LEN + encap <= |q| && Redirected(p, e) == Inner(q, encap)
    ensures e.pathLen == PathHeaderLen(g, q[META + g.numInf], q[META + g.numHf])
  {
    assert |Redirected(p, e)| == |p|;
  }

  /**
   * Ingress undoes egress, exactly: for every pod packet, path entry, control-plane header, layout, MAC function and
   * content of ingress's own map, ingress turns the encapsulated packet back into the readdressed original if and
   * only if the stored path length is the one the path announces, the current hop field verifies under ingress's
   * key, and the MAC that egress stamped does not lie on the original.
   */
  lemma IngressUndoesEgress(p: seq<byte>, q: seq<byte>, e: Entry, m: Maps, order: ByteOrder,
                            ctl: TcEgress.Control, g: ScionLayout, key: Option<seq<byte>>, mac: MacFunction)
    requires Encapsulates(p, e, m, order) && TcEgress.Egress(p, m, order, ctl, g, mac, true) == Some(q)
    ensures |q| >= META + g.meta + g.inf && |q| >= |p|
    ensures Ingress(q, g, key, mac) == (Pass, Redirected(p, e))
        <==> Consistent(e, g) && Verifies(q, g, key, mac) && StampSpares(q, p, g)
  {
    EgressWraps(p, q, e, m, order, ctl, g, mac);
    Decapsulates(q, p, e, g, mac);
    if Consistent(e, g) && Verifies(q, g, key, mac) {
      ConsistentParses(q, p, e, g, mac);
      ParsedIsPassed(q, g, TcEgress.EncapLen(e), key, mac);
    } else if Ingress(q, g, key, mac) == (Pass, Redirected(p, e)) {
      DecapsulatedIsConsistent(q, p, e, g, key, mac);
    }
  }

  /** The first hop field lies inside the path, if there is one. */
  lemma FirstHopFits(g: ScionLayout, numInf: nat, numHf: nat)
    requires numHf >= 1
    ensures HopOffset(g, TcEgress.OUTER_SCION, numInf, 0) + g.hf <= META + PathHeaderLen(g, numInf, numHf)
  {
    AtLeast(numInf, g.inf);
    AtLeast(numHf, g.hf);
  }

  /** Whether ingress's key makes no difference to the MAC: it is the entry's own, or the MAC ignores it. */
  ghost predicate SameMac(key: seq<byte>, key': seq<byte>, mac: MacFunction) {
    forall info, hop :: mac(key, info, hop) == mac(key', info, hop)
  }

  /**
   * When the path's current hop field is its first, that hop field exists, and ingress's key is as good as the
   * entry's, as any key is for the MAC of the source, only the stored length matters.
   */
  lemma LengthDecides(p: seq<byte>, q: seq<byte>, e: Entry, m: Maps, order: ByteOrder,
                      ctl: TcEgress.Control, g: ScionLayout, key: seq<byte>, mac: MacFunction)
    requires Encapsulates(p, e, m, order) && TcEgress.Egress(p, m, order, ctl, g, mac, true) == Some(q)
    requires e.hopFields[0] / 4 == 0 && e.hopFields[g.numHf] >= 1 && SameMac(key, e.macKey, mac)
    ensures Ingress(q, g, Some(key), mac) == (Pass, Redirected(p, e)) <==> Consistent(e, g)
  {
    IngressUndoesEgress(p, q, e, m, order, ctl, g, Some(key), mac);
    if Consistent(e, g) {
      EgressWraps(p, q, e, m, order, ctl, g, mac);
      FirstHopVerifies(q, p, e, g, key, mac);
    }
  }

  lemma FirstHopVerifies(q: seq<byte>, p: seq<byte>, e: TcEgress.ShortEntry, g: ScionLayout, key: seq<byte>,
                         mac: MacFunction)
    requires Wrapped(q, p, e, g, mac) && Consistent(e, g) && SameMac(key, e.macKey, mac)
    requires e.hopFields[0] / 4 == 0 && e.hopFields[g.numHf] >= 1
    ensures Verifies(q, g, Some(key), mac) && StampSpares(q, p, g)
  {
    MetaCounts(q, p, e, g, mac);
    FirstHopFits(g, e.hopFields[g.numInf], e.hopFields[g.numHf]);
    assert CurrentHop(q, g) == FirstHop(q, g);
  }

  /**
   * A path without hop fields, on the program's own layout and MAC: the entry is consistent and the MAC verifies,
   * yet the stamp has overwritten the first bytes of the inner IP header, and ingress passes the wrong packet.
   */
  lemma NoHopFieldCorrupts(p: seq<byte>, q: seq<byte>, e: TcEgress.ShortEntry, m: Maps, order: ByteOrder,
                           ctl: TcEgress.Control, key: seq<byte>)
    requires Encapsulates(p, e, m, order) && TcEgress.Egress(p, m, order, ctl, C_LAYOUT, STUB, true) == Some(q)
    requires e.pathLen == 7 && e.hopFields[0] == e.hopFields[5] == e.hopFields[6] == 0 && p[ETH_LEN] != 0
    ensures Consistent(e, C_LAYOUT)
    ensures Ingress(q, C_LAYOUT, Some(key), STUB).0 == Pass
    ensures Ingress(q, C_LAYOUT, Some(key), STUB).1 != Redirected(p, e)
  {
    var g := C_LAYOUT;
    EgressWraps(p, q, e, m, order, ctl, g, STUB);
    MetaCounts(q, p, e, g, STUB);
    assert CurrentHop(q, g) == FirstHop(q, g) == 85;
    assert q[93..99] == [0, 0, 0, 0, 0, 0];
    assert q[93] == q[93..99][0] == 0;
    assert |q| - |p| + ETH_LEN == 93;
    assert !StampSpares(q, p, g);
    ConsistentParses(q, p, e, g, STUB);
    ParsedIsPassed(q, g, TcEgress.EncapLen(e), Some(key), STUB);
    IngressUndoesEgress(p, q, e, m, order, ctl, g, Some(key), STUB);
  }

  /**
   * Which packets of a consistent path are sent, if the kernel grants room and the MAC computation does not fail:
   * those that are long enough for a first hop field behind the info fields, and so all if the path has one.
   */
  lemma ConsistentPathsAreSent(p: seq<byte>, e: Entry, m: Maps, order: ByteOrder, ctl: TcEgress.Control,
                               g: ScionLayout, mac: MacFunction)
    requires Encapsulates(p, e, m, order) && Consistent(e, g)
    requires forall key, info, hop :: mac(key, info, hop).Some?
    ensures var hop := HopOffset(g, TcEgress.OUTER_SCION, e.hopFields[g.numInf], 0);
            && (TcEgress.Egress(p, m, order, ctl, g, mac, true).Some? <==> hop + g.hf <= |p| + TcEgress.EncapLen(e))
            && (e.hopFields[g.numHf] >= 1 ==> hop + g.hf <= |p| + TcEgress.EncapLen(e))
  {
    EgressStampsBuilt(p, e, m, order, ctl, g, mac);
    BuiltFields(p, e, ctl);
    SignedIff(Built(p, e, ctl), p, e, g, mac);
    if e.hopFields[g.numHf] >= 1 {
      FirstHopFits(g, e.hopFields[g.numInf], e.hopFields[g.numHf]);
    }
  }

  lemma SignedIff(u: seq<byte>, p: seq<byte>, e: TcEgress.ShortEntry, g: ScionLayout, mac: MacFunction)
    requires Outside(u, p, e) && u[META..META + e.pathLen] == e.hopFields[..e.pathLen] && g.meta <= e.pathLen
    requires forall key, info, hop :: mac(key, info, hop).Some?
    ensures TcEgress.Signed0(u, e, g, mac).Some?
        <==> HopOffset(g, TcEgress.OUTER_SCION, e.hopFields[g.numInf], 0) + g.hf <= |u|
  {
    assert u[META + g.numInf] == u[META..META + e.pathLen][g.numInf];
  }

  /** A path entry that announces one hop field but whose stored length is zero. */
  const UNANNOUNCED: TcEgress.ShortEntry :=
    PathEntry([10, 0, 0, 1], seq(6, _ => 0), 0, seq(256, i => if i == 5 then 1 else 0), seq(16, _ => 0))

  const SOME_CONTROL: TcEgress.Control := TcEgress.ControlHeaders(seq(12, _ => 0), seq(24, _ => 0), seq(8, _ => 0))

  /** A bare IPv4 header from 10.0.0.9. */
  const SOME_PACKET: seq<byte> := seq(12, _ => 0) + ETH_P_IP + [0x45] + seq(11, _ => 0) + [10, 0, 0, 9] + seq(4, _ => 0)

  /** Maps that make egress encapsulate any packet that starts like this with a given path. */
  lemma ExampleMaps(p: seq<byte>, e: TcEgress.ShortEntry) returns (m: Maps)
    requires |p| >= ETH_LEN + IPV4_LEN && p[..ETH_LEN + IPV4_LEN] == SOME_PACKET
    ensures Encapsulates(p, e, m, LittleEndian)
  {
    m := Maps(map[[10, 0, 0, 9] := [1, 0, 0, 0]], map[[1, 0, 0, 0] := Marshal(e, LittleEndian)], map[]);
    CViewOfMarshal(e, LittleEndian);
    ExampleAddress(p);
  }

  /** Egress sends any such packet along that path, whatever its length. */
  lemma ExampleIsSent(p: seq<byte>) returns (m: Maps, q: seq<byte>)
    requires |p| >= ETH_LEN + IPV4_LEN && p[..ETH_LEN + IPV4_LEN] == SOME_PACKET
    ensures Encapsulates(p, UNANNOUNCED, m, LittleEndian)
    ensures TcEgress.Egress(p, m, LittleEndian, SOME_CONTROL, C_LAYOUT, STUB, true) == Some(q)
  {
    var e := UNANNOUNCED;
    m := ExampleMaps(p, e);
    EgressStampsBuilt(p, e, m, LittleEndian, SOME_CONTROL, C_LAYOUT, STUB);
    var u := Built(p, e, SOME_CONTROL);
    Wire.UnstampedOnTheWire(p, e, SOME_CONTROL, |u|);
    assert u[84] == SOME_CONTROL.ext[6] == 0;
    q := TcEgress.Signed0(u, e, C_LAYOUT, STUB).value;
  }

  /** A path entry of a meta header that announces no fields at all. */
  const NO_FIELDS: TcEgress.ShortEntry :=
    PathEntry([10, 0, 0, 1], seq(6, _ => 0), 7, seq(256, _ => 0), seq(16, _ => 0))

  /** A concrete packet that comes back with its first IP bytes overwritten. */
  lemma CorruptedExample() returns (m: Maps, q: seq<byte>)
    ensures Encapsulates(SOME_PACKET, NO_FIELDS, m, LittleEndian) && Consistent(NO_FIELDS, C_LAYOUT)
    ensures TcEgress.Egress(SOME_PACKET, m, LittleEndian, SOME_CONTROL, C_LAYOUT, STUB, true) == Some(q)
    ensures Ingress(q, C_LAYOUT, Some(NO_FIELDS.macKey), STUB).0 == Pass
    ensures Ingress(q, C_LAYOUT, Some(NO_FIELDS.macKey), STUB).1 != Redirected(SOME_PACKET, NO_FIELDS)
  {
    assert SOME_PACKET[..ETH_LEN + IPV4_LEN] == SOME_PACKET;
    m := ExampleMaps(SOME_PACKET, NO_FIELDS);
    ConsistentPathsAreSent(SOME_PACKET, NO_FIELDS, m, LittleEndian, SOME_CONTROL, C_LAYOUT, STUB);
    q := TcEgress.Egress(SOME_PACKET, m, LittleEndian, SOME_CONTROL, C_LAYOUT, STUB, true).value;
    NoHopFieldCorrupts(SOME_PACKET, q, NO_FIELDS, m, LittleEndian, SOME_CONTROL, NO_FIELDS.macKey);
  }

  lemma ExampleAddress(p: seq<byte>)
    requires |p| >= ETH_LEN + IPV4_LEN && p[..ETH_LEN + IPV4_LEN] == SOME_PACKET
    ensures TcEgress.PodAddress(p) == Some([10, 0, 0, 9])
  {
    assert SOME_PACKET == seq(12, _ => 0) + (ETH_P_IP + [0x45] + seq(11, _ => 0) + [10, 0, 0, 9] + seq(4, _ => 0));
    assert SOME_PACKET == (seq(12, _ => 0) + ETH_P_IP + [0x45] + seq(11, _ => 0)) + ([10, 0, 0, 9] + seq(4, _ => 0));
    assert SOME_PACKET[12..14] == ETH_P_IP && SOME_PACKET[14] == 0x45 && SOME_PACKET[26..30] == [10, 0, 0, 9];
    assert p[12..14] == p[..34][12..14] && p[14] == p[..34][14] && p[26..30] == p[..34][26..30];
  }

  /** A concrete packet that egress sends and ingress does not give back, though the key and the MAC are right. */
  lemma UnannouncedPathIsLost() returns (m: Maps, q: seq<byte>)
    ensures Encapsulates(SOME_PACKET, UNANNOUNCED, m, LittleEndian)
    ensures TcEgress.Egress(SOME_PACKET, m, LittleEndian, SOME_CONTROL, C_LAYOUT, STUB, true) == Some(q)
    ensures Ingress(q, C_LAYOUT, Some(UNANNOUNCED.macKey), STUB) != (Pass, Redirected(SOME_PACKET, UNANNOUNCED))
  {
    assert SOME_PACKET[..ETH_LEN + IPV4_LEN] == SOME_PACKET;
    m, q := ExampleIsSent(SOME_PACKET);
    var key := Some(UNANNOUNCED.macKey);
    IngressUndoesEgress(SOME_PACKET, q, UNANNOUNCED, m, LittleEndian, SOME_CONTROL, C_LAYOUT, key, STUB);
  }

  // Lengths.

  /**
   * Whatever is encapsulated grows by at most 328 bytes. The two length fields of the outer headers are the true
   * lengths modulo 2^16; they, and the inner length computed back from them, are right exactly when the
   * original IP bytes and the encapsulation together fit in 65535 bytes.
   */
  lemma LengthsAreRightIff(p: seq<byte>, q: seq<byte>, e: Entry, m: Maps, order: ByteOrder,
                           ctl: TcEgress.Control, g: ScionLayout, mac: MacFunction)
    requires Encapsulates(p, e, m, order) && TcEgress.Egress(p, m, order, ctl, g, mac, true) == Some(q)
    ensures |q| == |p| + TcEgress.EncapLen(e) <= |p| + 72 + 256
    ensures var inner, total, udp := |p| - ETH_LEN, FromNet16(q[16..18]), FromNet16(q[38..40]);
            var fits := inner + TcEgress.EncapLen(e) <= 0xFFFF;
            && total == (|q| - ETH_LEN) % 0x1_0000 && udp == (|q| - ETH_LEN - IPV4_LEN) % 0x1_0000
            && (total == |q| - ETH_LEN <==> fits)
            && (fits ==> udp == total - 20 && udp - (TcEgress.EncapLen(e) - IPV4_LEN) == inner)
  {
    EgressWraps(p, q, e, m, order, ctl, g, mac);
    LengthFields(q, p, e);
  }

  lemma LengthFields(q: seq<byte>, p: seq<byte>, e: TcEgress.ShortEntry)
    requires Outside(q, p, e)
    ensures var inner, total, udp := |p| - ETH_LEN, FromNet16(q[16..18]), FromNet16(q[38..40]);
            var fits := inner + TcEgress.EncapLen(e) <= 0xFFFF;
            && |q| == |p| + TcEgress.EncapLen(e) <= |p| + 72 + 256
            && total == (|q| - ETH_LEN) % 0x1_0000 && udp == (|q| - ETH_LEN - IPV4_LEN) % 0x1_0000
            && (total == |q| - ETH_LEN <==> fits)
            && (fits ==> udp == total - 20 && udp - (TcEgress.EncapLen(e) - IPV4_LEN) == inner)
  {
    Net16RoundTrip(|q| - ETH_LEN);
    Net16RoundTrip(|q| - ETH_LEN - IPV4_LEN);
  }

  /** Packets of 65570 bytes are sent with the outer length 92, although 65628 bytes follow their Ethernet header. */
  lemma LengthWraps(p: seq<byte>) returns (m: Maps, q: seq<byte>)
    requires |p| == 65570 && p[..ETH_LEN + IPV4_LEN] == SOME_PACKET
    ensures Encapsulates(p, UNANNOUNCED, m, LittleEndian)
    ensures TcEgress.Egress(p, m, LittleEndian, SOME_CONTROL, C_LAYOUT, STUB, true) == Some(q)
    ensures |q| - ETH_LEN == 65628 && FromNet16(q[16..18]) == 92
  {
    m, q := ExampleIsSent(p);
    WrappedLength(p, q, UNANNOUNCED, m);
  }

  lemma WrappedLength(p: seq<byte>, q: seq<byte>, e: Entry, m: Maps)
    requires |p| == 65570 && e.pathLen == 0 && Encapsulates(p, e, m, LittleEndian)
    requires TcEgress.Egress(p, m, LittleEndian, SOME_CONTROL, C_LAYOUT, STUB, true) == Some(q)
    ensures |q| - ETH_LEN == 65628 && FromNet16(q[16..18]) == 92
  {
    LengthsAreRightIff(p, q, e, m, LittleEndian, SOME_CONTROL, C_LAYOUT, STUB);
  }

  // The two programs' maps.

  /** The key the ingress program finds under id 0 of its own map, whose values all have the size of an entry. */
  function IngressKey(m: Entries, order: ByteOrder): Option<seq<byte>> {
    var id := Store32(0, order);
    if id in m && |m[id]| == 284 then Some(CView(m[id], order).macKey) else None
  }

  /**
   * The loader writes only the egress program's maps. So as long as nothing else does, ingress decapsulates
   * nothing: it passes exactly what is not SCION and drops the rest, both unchanged.
   */
  lemma LoaderAloneNeverDecapsulates(ops: seq<Op>, order: ByteOrder, p: seq<byte>, g: ScionLayout, mac: MacFunction)
    ensures var key := IngressKey(RunOps(NO_ENTRIES, ops, order).xdpPaths, order);
            && Ingress(p, g, key, mac).1 == p
            && (Ingress(p, g, key, mac).0 == Pass <==> ScionStart(p).None?)
  {
    LoaderLeavesIngressNoKey(ops, order);
    NoKeyNoDecapsulation(p, g, None, mac);
  }

  lemma LoaderLeavesIngressNoKey(ops: seq<Op>, order: ByteOrder)
    ensures IngressKey(RunOps(NO_ENTRIES, ops, order).xdpPaths, order) == None
  {
    RunRepresents(ops, order);
  }
}

/** The kernel maps: how the loader encodes what it stores and what the packet programs read back. */
module BpfMaps {
  import opened Bytes
  import opened Wrappers

  const MAX_PODS := 10000
  const MAX_PATHS := 1024
  const MAX_HOP_BYTES := 256

  datatype MapError = NotIPv4 | MapFull | KeyNotExist

  // Keys.

  /** The IPv4 form of an address: four bytes, or sixteen that embed an IPv4 address in IPv6. */
  function To4(ip: seq<byte>): Option<Word> {
    if |ip| == 4 then Some(ip)
    else if |ip| == 16 && (forall i | 0 <= i < 10 :: ip[i] == 0) && ip[10] == 255 && ip[11] == 255 then Some(ip[12..])
    else None
  }

  function IPToKey(ip: seq<byte>, order: ByteOrder): Result<u32, MapError> {
    match To4(ip) case None => Err(NotIPv4) case Some(ip4) => Ok(Load32(ip4, order))
  }

  method IPFromKey(key: u32, order: ByteOrder) returns (ip: array<byte>)
    ensures ip[..] == Store32(key, order)
  {
    ip := new byte[4](_ => 0);
    var d := Digits(key);
    if order.LittleEndian? {
      ip[0], ip[1], ip[2], ip[3] := d[0], d[1], d[2], d[3];
    } else {
      ip[0], ip[1], ip[2], ip[3] := d[3], d[2], d[1], d[0];
    }
  }

  /** Which byte strings are IPv4 addresses: four bytes, or those behind ten zero bytes and two of ones. */
  lemma To4Iff(ip: seq<byte>, a: Word)
    ensures To4(ip) == Some(a) <==> ip == a || ip == [0, 0, 0, 0, 0, 0, 0, 0, 0, 0, 255, 255] + a
  {
    var embedded := [0, 0, 0, 0, 0, 0, 0, 0, 0, 0, 255, 255] + a;
    assert embedded[12..] == a;
    if To4(ip) == Some(a) && |ip| == 16 {
      assert ip == ip[..12] + ip[12..];
      assert ip[..12] == [0, 0, 0, 0, 0, 0, 0, 0, 0, 0, 255, 255];
    }
  }

  /** The key and the address determine each other, under either byte order. */
  lemma KeysInvert(ip: Word, key: u32, order: ByteOrder)
    ensures IPToKey(ip, order).Ok? && Store32(IPToKey(ip, order).value, order) == ip
    ensures IPToKey(Store32(key, order), order) == Ok(key)
    ensures Store32(0x04030201, LittleEndian) == [1, 2, 3, 4] && Store32(0x01020304, BigEndian) == [1, 2, 3, 4]
  {
    StoreLoad32(ip, order);
    LoadStore32(key, order);
  }

  /** Both written forms of an IPv4 address give one key, and its bytes in memory are the address on the wire. */
  lemma KeyBytesAreTheAddress(ip: Word, order: ByteOrder)
    ensures var embedded := [0, 0, 0, 0, 0, 0, 0, 0, 0, 0, 255, 255] + ip;
            && IPToKey(embedded, order) == IPToKey(ip, order)
            && Store32(IPToKey(embedded, order).value, order) == ip
  {
    var embedded := [0, 0, 0, 0, 0, 0, 0, 0, 0, 0, 255, 255] + ip;
    assert embedded[12..] == ip;
    StoreLoad32(ip, order);
  }

  // Path entries.

  datatype PathEntry = PathEntry(
    nextHopIP: seq<byte>,
    nextHopMAC: seq<byte>,
    pathLen: u16,
    hopFields: seq<byte>,
    macKey: seq<byte>)
  {
    predicate Sized() {
      |nextHopIP| == 4 && |nextHopMAC| == 6 && |hopFields| == MAX_HOP_BYTES && |macKey| == 16
    }
  }

  type Entry = e: PathEntry | e.Sized()
    witness PathEntry([0, 0, 0, 0], seq(6, _ => 0), 0, seq(256, _ => 0), seq(16, _ => 0))

  /** The bytes the loader stores for an entry: the Go struct's fields in order, without padding. */
  function Marshal(e: Entry, order: ByteOrder): (b: seq<byte>)
    ensures |b| == 284
  {
    e.nextHopIP + e.nextHopMAC + Store16(e.pathLen, order) + e.hopFields + e.macKey
  }

  /** The entry the packet programs see in those bytes, at the offsets of the C struct. */
  function CView(b: seq<byte>, order: ByteOrder): Entry
    requires |b| == 284
  {
    PathEntry(b[0..4], b[4..10], Load16(b[10..12], order), b[12..268], b[268..284])
  }

  /** The stored bytes have each field where the C struct has it, and reading them there gives the entry back. */
  lemma CViewOfMarshal(e: Entry, order: ByteOrder)
    ensures CView(Marshal(e, order), order) == e
    ensures var b := Marshal(e, order);
            && b[0..4] == e.nextHopIP && b[4..10] == e.nextHopMAC && Load16(b[10..12], order) == e.pathLen
            && b[12..268] == e.hopFields && b[268..284] == e.macKey
  {
    var b, head := Marshal(e, order), e.nextHopIP + e.nextHopMAC + Store16(e.pathLen, order);
    assert |head| == 12 && b == head + (e.hopFields + e.macKey) && b == (head + e.hopFields) + e.macKey;
    assert b[0..4] == e.nextHopIP && b[4..10] == e.nextHopMAC && b[10..12] == Store16(e.pathLen, order);
    assert b[12..268] == e.hopFields && b[268..284] == e.macKey;
  }

  // Maps.

  /** The contents of a hash map, byte strings both ways. */
  type Entries = map<seq<byte>, seq<byte>>

  function Insert(m: Entries, capacity: nat, key: seq<byte>, value: seq<byte>): Result<Entries, MapError> {
    if key !in m && |m| >= capacity then Err(MapFull) else Ok(m[key := value])
  }

  function Remove(m: Entries, key: seq<byte>): Result<Entries, MapError> {
    if key !in m then Err(KeyNotExist) else Ok(m - {key})
  }

  class HashMap {
    const capacity: nat
    var entries: Entries

    ghost predicate Valid()
      reads this
    {
      |entries| <= capacity
    }

    constructor (capacity: nat)
      ensures Valid() && entries == map[] && this.capacity == capacity
    {
      this.capacity, entries := capacity, map[];
    }

    method Put(key: seq<byte>, value: seq<byte>) returns (r: Result<(), MapError>)
      requires Valid()
      modifies this
      ensures Valid()
      ensures match Insert(old(entries), capacity, key, value)
              case Err(e) => r == Err(e) && entries == old(entries)
              case Ok(m) => r == Ok(()) && entries == m
    {
      if key !in entries && |entries| >= capacity {
        return Err(MapFull);
      }
      if key in entries {
        assert entries[key := value].Keys == entries.Keys;
      }
      entries := entries[key := value];
      r := Ok(());
    }

    method Delete(key: seq<byte>) returns (r: Result<(), MapError>)
      requires Valid()
      modifies this
      ensures Valid()
      ensures match Remove(old(entries), key)
              case Err(e) => r == Err(e) && entries == old(entries)
              case Ok(m) => r == Ok(()) && entries == m
    {
      if key !in entries {
        return Err(KeyNotExist);
      }
      entries := entries - {key};
      r := Ok(());
    }
  }

  /** What both programs' maps hold. The two programs are loaded with maps of their own. */
  datatype Maps = Maps(pods: Entries, paths: Entries, xdpPaths: Entries)

  const NO_ENTRIES := Maps(map[], map[], map[])

  datatype Op =
    | UpdatePodPolicy(ip: seq<byte>, id: u32)
    | DeletePodPolicy(ip: seq<byte>)
    | UpdateScionPath(id: u32, entry: Entry)
    | DeleteScionPath(id: u32)

  /** One loader call on the maps. */
  function Do(m: Maps, op: Op, order: ByteOrder): Result<Maps, MapError> {
    match op
    case UpdatePodPolicy(ip, id) =>
      (match IPToKey(ip, order)
       case Err(e) => Err(e)
       case Ok(key) =>
         match Insert(m.pods, MAX_PODS, Store32(key, order), Store32(id, order))
         case Err(e) => Err(e)
         case Ok(pods) => Ok(m.(pods := pods)))
    case DeletePodPolicy(ip) =>
      (match IPToKey(ip, order)
       case Err(e) => Err(e)
       case Ok(key) =>
         match Remove(m.pods, Store32(key, order))
         case Err(e) => Err(e)
         case Ok(pods) => Ok(m.(pods := pods)))
    case UpdateScionPath(id, entry) =>
      (match Insert(m.paths, MAX_PATHS, Store32(id, order), Marshal(entry, order))
       case Err(e) => Err(e)
       case Ok(paths) => Ok(m.(paths := paths)))
    case DeleteScionPath(id) =>
      (match Remove(m.paths, Store32(id, order))
       case Err(e) => Err(e)
       case Ok(paths) => Ok(m.(paths := paths)))
  }

  class Loader {
    const order: ByteOrder
    const tcPods: HashMap
    const tcPaths: HashMap
    const xdpPaths: HashMap

    constructor (order: ByteOrder)
      ensures Valid() && Contents() == NO_ENTRIES && this.order == order
      ensures fresh(tcPods) && fresh(tcPaths) && fresh(xdpPaths)
    {
      this.order := order;
      tcPods := new HashMap(MAX_PODS);
      tcPaths := new HashMap(MAX_PATHS);
      xdpPaths := new HashMap(MAX_PATHS);
    }

    ghost predicate Valid()
      reads tcPods, tcPaths, xdpPaths
    {
      && tcPods != tcPaths && tcPods != xdpPaths && tcPaths != xdpPaths
      && tcPods.Valid() && tcPods.capacity == MAX_PODS
      && tcPaths.Valid() && tcPaths.capacity == MAX_PATHS
      && xdpPaths.Valid() && xdpPaths.capacity == MAX_PATHS
    }

    function Contents(): Maps
      reads tcPods, tcPaths, xdpPaths
    {
      Maps(tcPods.entries, tcPaths.entries, xdpPaths.entries)
    }

    method UpdatePodPolicy(ip: seq<byte>, id: u32) returns (r: Result<(), MapError>)
      requires Valid()
      modifies tcPods
      ensures Valid() && Outcome(Do(old(Contents()), Op.UpdatePodPolicy(ip, id), order), old(Contents()), Contents(), r)
    {
      var key := IPToKey(ip, order);
      if key.Err? {
        return Err(key.error);
      }
      r := tcPods.Put(Store32(key.value, order), Store32(id, order));
    }

    method DeletePodPolicy(ip: seq<byte>) returns (r: Result<(), MapError>)
      requires Valid()
      modifies tcPods
      ensures Valid() && Outcome(Do(old(Contents()), Op.DeletePodPolicy(ip), order), old(Contents()), Contents(), r)
    {
      var key := IPToKey(ip, order);
      if key.Err? {
        return Err(key.error);
      }
      r := tcPods.Delete(Store32(key.value, order));
    }

    method UpdateScionPath(id: u32, entry: Entry) returns (r: Result<(), MapError>)
      requires Valid()
      modifies tcPaths
      ensures Valid()
      ensures Outcome(Do(old(Contents()), Op.UpdateScionPath(id, entry), order), old(Contents()), Contents(), r)
    {
      r := tcPaths.Put(Store32(id, order), Marshal(entry, order));
    }

    method DeleteScionPath(id: u32) returns (r: Result<(), MapError>)
      requires Valid()
      modifies tcPaths
      ensures Valid() && Outcome(Do(old(Contents()), Op.DeleteScionPath(id), order), old(Contents()), Contents(), r)
    {
      r := tcPaths.Delete(Store32(id, order));
    }
  }

  /** A call that succeeds leaves the new maps; one that fails returns its error and changes nothing. */
  predicate Outcome(spec: Result<Maps, MapError>, before: Maps, after: Maps, r: Result<(), MapError>) {
    match spec
    case Ok(m) => r == Ok(()) && after == m
    case Err(e) => r == Err(e) && after == before
  }

  /** Every stored path has the size of an entry. */
  predicate Readable(m: Maps) {
    forall k | k in m.paths :: |m.paths[k]| == 284
  }

  /** The path the egress program selects for a source address: the stored id is itself the second key. */
  function Select(m: Maps, source: Word, order: ByteOrder): Option<Entry>
    requires Readable(m)
  {
    if source in m.pods && m.pods[source] in m.paths then Some(CView(m.paths[m.pods[source]], order)) else None
  }

  // Runs of loader calls, against a table from addresses to ids and from ids to entries.

  datatype Table = Table(pods: map<Word, u32>, paths: map<u32, Entry>)

  const EMPTY := Table(map[], map[])

  function After(m: Maps, op: Op, order: ByteOrder): Maps {
    match Do(m, op, order) case Ok(m') => m' case Err(_) => m
  }

  function RunOps(m: Maps, ops: seq<Op>, order: ByteOrder): Maps {
    if ops == [] then m else After(RunOps(m, ops[..|ops| - 1], order), ops[|ops| - 1], order)
  }

  /** The calls of the run that succeeded, in order. */
  function Succeeded(m: Maps, ops: seq<Op>, order: ByteOrder): seq<Op> {
    if ops == [] then []
    else
      var init, last := ops[..|ops| - 1], ops[|ops| - 1];
      Succeeded(m, init, order) + if Do(RunOps(m, init, order), last, order).Ok? then [last] else []
  }

  function Note(t: Table, op: Op): Table {
    match op
    case UpdatePodPolicy(ip, id) => if To4(ip).Some? then t.(pods := t.pods[To4(ip).value := id]) else t
    case DeletePodPolicy(ip) => if To4(ip).Some? then t.(pods := t.pods - {To4(ip).value}) else t
    case UpdateScionPath(id, entry) => t.(paths := t.paths[id := entry])
    case DeleteScionPath(id) => t.(paths := t.paths - {id})
  }

  function Replay(t: Table, ops: seq<Op>): Table {
    if ops == [] then t else Note(Replay(t, ops[..|ops| - 1]), ops[|ops| - 1])
  }

  function Find(t: Table, source: Word): Option<Entry> {
    if source in t.pods && t.pods[source] in t.paths then Some(t.paths[t.pods[source]]) else None
  }

  ghost predicate HoldsPods(m: Entries, pods: map<Word, u32>, order: ByteOrder) {
    && |m| <= MAX_PODS
    && (forall a: Word :: a in m <==> a in pods)
    && (forall a: Word | a in pods :: m[a] == Store32(pods[a], order))
  }

  ghost predicate HoldsIds(m: Entries, paths: map<u32, Entry>, order: ByteOrder) {
    && |m| <= MAX_PATHS
    && (forall k | k in m :: |k| == 4 && |m[k]| == 284)
    && (forall id: u32 :: Store32(id, order) in m <==> id in paths)
  }

  ghost predicate HoldsPaths(m: Entries, paths: map<u32, Entry>, order: ByteOrder) {
    && HoldsIds(m, paths, order)
    && (forall id: u32 | id in paths :: CView(m[Store32(id, order)], order) == paths[id])
  }

  /** The maps hold exactly the table, encoded, within their capacities; the ingress program's map holds nothing. */
  ghost predicate Represents(m: Maps, t: Table, order: ByteOrder) {
    HoldsPods(m.pods, t.pods, order) && HoldsPaths(m.paths, t.paths, order) && m.xdpPaths == map[]
  }

  lemma InsertSize(m: Entries, capacity: nat, key: seq<byte>, value: seq<byte>)
    requires |m| <= capacity && Insert(m, capacity, key, value).Ok?
    ensures |Insert(m, capacity, key, value).value| <= capacity
  {
    if key in m {
      assert m[key := value].Keys == m.Keys;
    }
  }

  lemma InsertPod(m: Entries, pods: map<Word, u32>, a: Word, id: u32, order: ByteOrder)
    requires HoldsPods(m, pods, order) && Insert(m, MAX_PODS, a, Store32(id, order)).Ok?
    ensures HoldsPods(m[a := Store32(id, order)], pods[a := id], order)
  {
    InsertSize(m, MAX_PODS, a, Store32(id, order));
  }

  lemma InsertId(m: Entries, paths: map<u32, Entry>, id: u32, bytes: seq<byte>, e: Entry, order: ByteOrder)
    requires HoldsIds(m, paths, order) && |bytes| == 284 && Insert(m, MAX_PATHS, Store32(id, order), bytes).Ok?
    ensures HoldsIds(m[Store32(id, order) := bytes], paths[id := e], order)
  {
    InsertSize(m, MAX_PATHS, Store32(id, order), bytes);
    StoreInjective(id, order);
  }

  lemma InsertPath(m: Entries, paths: map<u32, Entry>, id: u32, bytes: seq<byte>, e: Entry, order: ByteOrder)
    requires HoldsPaths(m, paths, order) && |bytes| == 284 && Insert(m, MAX_PATHS, Store32(id, order), bytes).Ok?
    requires e == CView(bytes, order)
    ensures HoldsPaths(m[Store32(id, order) := bytes], paths[id := e], order)
  {
    InsertId(m, paths, id, bytes, e, order);
    StoreInjective(id, order);
    forall other: u32 | other in paths && other != id
      ensures m[Store32(id, order) := bytes][Store32(other, order)] == m[Store32(other, order)]
    {
    }
  }

  lemma RemovePath(m: Entries, paths: map<u32, Entry>, id: u32, order: ByteOrder)
    requires HoldsPaths(m, paths, order) && Store32(id, order) in m
    ensures HoldsPaths(m - {Store32(id, order)}, paths - {id}, order)
  {
    StoreInjective(id, order);
  }

  lemma DoRepresents(m: Maps, t: Table, op: Op, order: ByteOrder)
    requires Represents(m, t, order) && Do(m, op, order).Ok?
    ensures Represents(Do(m, op, order).value, Note(t, op), order)
  {
    if op.UpdatePodPolicy? || op.DeletePodPolicy? {
      PodRepresents(m, t, op, order);
    } else {
      PathRepresents(m, t, op, order);
    }
  }

  lemma PodRepresents(m: Maps, t: Table, op: Op, order: ByteOrder)
    requires Represents(m, t, order) && Do(m, op, order).Ok? && (op.UpdatePodPolicy? || op.DeletePodPolicy?)
    ensures Represents(Do(m, op, order).value, Note(t, op), order)
  {
    StoreLoad32(To4(op.ip).value, order);
    if op.UpdatePodPolicy? {
      InsertPod(m.pods, t.pods, To4(op.ip).value, op.id, order);
    }
  }

  lemma PathRepresents(m: Maps, t: Table, op: Op, order: ByteOrder)
    requires Represents(m, t, order) && Do(m, op, order).Ok? && (op.UpdateScionPath? || op.DeleteScionPath?)
    ensures Represents(Do(m, op, order).value, Note(t, op), order)
  {
    if op.UpdateScionPath? {
      CViewOfMarshal(op.entry, order);
      InsertPath(m.paths, t.paths, op.id, Marshal(op.entry, order), op.entry, order);
    } else {
      RemovePath(m.paths, t.paths, op.id, order);
    }
  }

  lemma StoreInjective(id: u32, order: ByteOrder)
    ensures forall other: u32 :: Store32(other, order) == Store32(id, order) <==> other == id
  {
    LoadStore32(id, order);
    forall other: u32
      ensures Store32(other, order) == Store32(id, order) <==> other == id
    {
      LoadStore32(other, order);
    }
  }

  lemma {:induction false} RunRepresents(ops: seq<Op>, order: ByteOrder)
    ensures var m := NO_ENTRIES;
            Represents(RunOps(m, ops, order), Replay(EMPTY, Succeeded(m, ops, order)), order)
  {
    if ops != [] {
      var m, init, last := NO_ENTRIES, ops[..|ops| - 1], ops[|ops| - 1];
      RunRepresents(init, order);
      var before, ok := RunOps(m, init, order), Succeeded(m, init, order);
      if Do(before, last, order).Ok? {
        DoRepresents(before, Replay(EMPTY, ok), last, order);
        assert (ok + [last])[..|ok|] == ok;
        assert Replay(EMPTY, ok + [last]) == Note(Replay(EMPTY, ok), last);
      } else {
        assert Succeeded(m, ops, order) == ok;
      }
    }
  }

  lemma SelectFinds(m: Maps, t: Table, source: Word, order: ByteOrder)
    requires Represents(m, t, order)
    ensures Select(m, source, order) == Find(t, source)
  {
    if source in t.pods {
      var id := t.pods[source];
      StoreInjective(id, order);
    }
  }

  /**
   * After any sequence of loader calls, including those a full map rejects, the egress program selects for a
   * source address exactly the entry that replaying the successful calls assigns to it.
   */
  lemma EgressFollowsTheLoader(ops: seq<Op>, source: Word, order: ByteOrder)
    ensures var m := NO_ENTRIES;
            && Represents(RunOps(m, ops, order), Replay(EMPTY, Succeeded(m, ops, order)), order)
            && Select(RunOps(m, ops, order), source, order) == Find(Replay(EMPTY, Succeeded(m, ops, order)), source)
  {
    RunRepresents(ops, order);
    SelectFinds(RunOps(NO_ENTRIES, ops, order), Replay(EMPTY, Succeeded(NO_ENTRIES, ops, order)), source, order);
  }

  /** Which calls fail: addresses that are not IPv4, new keys for a full map, and deletions of absent keys. */
  lemma CallFailsIff(m: Maps, t: Table, op: Op, order: ByteOrder)
    requires Represents(m, t, order)
    ensures Do(m, op, order).Err? <==>
            match op
            case UpdatePodPolicy(ip, _) => To4(ip).None? || (To4(ip).value !in t.pods && |m.pods| == 10000)
            case DeletePodPolicy(ip) => To4(ip).None? || To4(ip).value !in t.pods
            case UpdateScionPath(id, _) => id !in t.paths && |m.paths| == 1024
            case DeleteScionPath(id) => id !in t.paths
  {
    match op
    case UpdatePodPolicy(ip, _) =>
      if To4(ip).Some? {
        StoreLoad32(To4(ip).value, order);
      }
    case DeletePodPolicy(ip) =>
      if To4(ip).Some? {
        StoreLoad32(To4(ip).value, order);
      }
    case UpdateScionPath(id, _) => StoreInjective(id, order);
    case DeleteScionPath(id) => StoreInjective(id, order);
  }

  lemma HotSwapOn(m: Maps, t: Table, id: u32, entry: Entry, source: Word, order: ByteOrder)
    requires Represents(m, t, order) && Do(m, UpdateScionPath(id, entry), order).Ok?
    ensures var m' := Do(m, UpdateScionPath(id, entry), order).value;
            && Readable(m) && Readable(m')
            && Select(m', source, order) ==
               if source in t.pods && t.pods[source] == id then Some(entry) else Select(m, source, order)
  {
    SelectAfter(m, t, UpdateScionPath(id, entry), source, order);
    SelectFinds(m, t, source, order);
  }

  lemma SelectAfter(m: Maps, t: Table, op: Op, source: Word, order: ByteOrder)
    requires Represents(m, t, order) && Do(m, op, order).Ok?
    ensures var m' := Do(m, op, order).value; Readable(m') && Select(m', source, order) == Find(Note(t, op), source)
  {
    DoRepresents(m, t, op, order);
    SelectFinds(Do(m, op, order).value, Note(t, op), source, order);
  }

  /** After any run, replacing the path of one id changes the choice for exactly the pods on that id. */
  lemma HotSwap(ops: seq<Op>, id: u32, entry: Entry, source: Word, order: ByteOrder)
    ensures var m, t := RunOps(NO_ENTRIES, ops, order), Replay(EMPTY, Succeeded(NO_ENTRIES, ops, order));
            Do(m, UpdateScionPath(id, entry), order).Ok? ==>
              var m' := Do(m, UpdateScionPath(id, entry), order).value;
              && Readable(m) && Readable(m')
              && Select(m', source, order) ==
                 if source in t.pods && t.pods[source] == id then Some(entry) else Select(m, source, order)
  {
    var m, t := RunOps(NO_ENTRIES, ops, order), Replay(EMPTY, Succeeded(NO_ENTRIES, ops, order));
    RunRepresents(ops, order);
    if Do(m, UpdateScionPath(id, entry), order).Ok? {
      HotSwapOn(m, t, id, entry, source, order);
    }
  }
}

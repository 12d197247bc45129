/** What an uninterrupted pass does to the computed paths: a last-writer overlay of the ready peers. */
module LastWriter {
  import opened Objects
  import opened Ownership
  import opened Pass
  import opened Wrappers

  // The store without the versions it hands out.

  function Bare(p: ComputedPath): ComputedPath {
    p.(resourceVersion := 0)
  }

  function Bared(paths: map<Key, ComputedPath>): map<Key, ComputedPath> {
    map k | k in paths :: Bare(paths[k])
  }

  /** Everything stored but the versions: specs, owners, finalizers, conditions and generations. */
  function Plain(c: Cluster): Cluster {
    Cluster(0, map k | k in c.policies :: c.policies[k].(resourceVersion := 0), c.peers, Bared(c.paths), c.foreign)
  }

  /** The path service's answers for the first `n` peers. */
  function Answers(peers: seq<Peer>, preference: string, w: World, n: nat): seq<Fetch>
    requires n <= |peers|
  {
    seq(n, i requires 0 <= i < n => w.fetch(i, peers[i].remoteAS, preference))
  }

  /** The spec each path key should carry: that of the last ready peer with its name. */
  function Wanted(key: Key, peers: seq<Peer>, results: seq<Fetch>): map<Key, PathSpec>
    requires |results| <= |peers|
  {
    if results == [] then map[]
    else
      var n := |results| - 1;
      var before := Wanted(key, peers, results[..n]);
      if results[n].Ready? then before[PathKey(key, peers[n]) := SpecFor(key, peers[n], results[n])] else before
  }

  /** `paths` with every wanted spec stamped in; everything else is left as it was. */
  function Overlay(paths: map<Key, ComputedPath>, ref: OwnerRef, want: map<Key, PathSpec>): map<Key, ComputedPath> {
    map k | k in paths.Keys + want.Keys :: if k in want then Stamp(PathAt(paths, k), ref, want[k]) else paths[k]
  }

  lemma {:induction false} WantedAppend(key: Key, peers: seq<Peer>, results: seq<Fetch>, f: Fetch)
    requires |results| < |peers|
    ensures Wanted(key, peers, results + [f]) ==
            var k := PathKey(key, peers[|results|]);
            if f.Ready? then Wanted(key, peers, results)[k := SpecFor(key, peers[|results|], f)]
            else Wanted(key, peers, results)
  {
    assert (results + [f])[..|results|] == results;
  }

  /** The key under which a policy stores its path to a peer. */
  predicate IsPathOf(k: Key, key: Key, peer: Peer) {
    k.namespace == key.namespace && k.name == key.name + "-to-" + peer.name
  }

  /** The spec names the policy and has the peer's CIDR and what the path service answered for the peer. */
  predicate IsSpecOf(spec: PathSpec, key: Key, peer: Peer, found: Fetch)
    requires found.Ready?
  {
    && spec.policyRef == key.name && spec.destinationCidr == peer.podCIDR
    && spec.nextHopIP == found.nextHopIP && spec.hopFields == found.hopFields
  }

  /** The value at a key comes from the last ready peer whose path it is. */
  lemma {:induction false} WantedFromLastReady(key: Key, peers: seq<Peer>, results: seq<Fetch>, k: Key) returns (i: nat)
    requires |results| <= |peers| && k in Wanted(key, peers, results)
    ensures i < |results| && results[i].Ready? && PathKey(key, peers[i]) == k
    ensures Wanted(key, peers, results)[k] == SpecFor(key, peers[i], results[i])
    ensures IsPathOf(k, key, peers[i]) && IsSpecOf(Wanted(key, peers, results)[k], key, peers[i], results[i])
    ensures forall j | i < j < |results| && results[j].Ready? :: PathKey(key, peers[j]) != k
  {
    var n := |results| - 1;
    if results[n].Ready? && PathKey(key, peers[n]) == k {
      i := n;
    } else {
      i := WantedFromLastReady(key, peers, results[..n], k);
    }
  }

  lemma {:induction false} ReadyIsWanted(key: Key, peers: seq<Peer>, results: seq<Fetch>, i: nat)
    requires i < |results| <= |peers| && results[i].Ready?
    ensures PathKey(key, peers[i]) in Wanted(key, peers, results)
  {
    if i < |results| - 1 {
      ReadyIsWanted(key, peers, results[..|results| - 1], i);
    }
  }

  lemma StampAgain(p: ComputedPath, ref: OwnerRef, s: PathSpec, t: PathSpec)
    ensures Stamp(Stamp(p, ref, s), ref, t) == Stamp(p, ref, t)
  {
    UpsertIdempotent(p.owners, ref);
  }

  /** A later overlay of at least the same keys erases an earlier one. */
  lemma OverlayAbsorbs(paths: map<Key, ComputedPath>, ref: OwnerRef, first: map<Key, PathSpec>,
                       then_: map<Key, PathSpec>)
    requires first.Keys <= then_.Keys
    ensures Overlay(Overlay(paths, ref, first), ref, then_) == Overlay(paths, ref, then_)
  {
    forall k | k in first {
      StampAgain(PathAt(paths, k), ref, first[k], then_[k]);
    }
  }

  /** One more stamp on an overlay is the overlay of one more wanted spec. */
  lemma OverlayOneMore(paths: map<Key, ComputedPath>, ref: OwnerRef, want: map<Key, PathSpec>, k: Key, s: PathSpec)
    ensures var o := Overlay(paths, ref, want);
            o[k := Stamp(PathAt(o, k), ref, s)] == Overlay(paths, ref, want[k := s])
  {
    if k in want {
      StampAgain(PathAt(paths, k), ref, want[k], s);
    }
  }

  lemma OverlayAdoptable(paths: map<Key, ComputedPath>, ref: OwnerRef, want: map<Key, PathSpec>, k: Key)
    requires ref.controller && Adoptable(PathAt(paths, k).owners, ref)
    ensures Adoptable(PathAt(Overlay(paths, ref, want), k).owners, ref)
  {
    UpsertControls(PathAt(paths, k).owners, ref);
  }

  /** From the first store to the second only paths under these keys were written. */
  ghost predicate OnlyUnder(c: Cluster, c': Cluster, ks: set<Key>) {
    && c' == c.(revision := c'.revision, paths := c'.paths) && c.revision <= c'.revision
    && forall k | k !in ks :: (k in c.paths <==> k in c'.paths) && (k in c.paths ==> c'.paths[k] == c.paths[k])
  }

  /** An iteration that does not fail stamps its peer's path if the peer is ready, and changes nothing otherwise. */
  lemma PeerStepStamps(c: Cluster, key: Key, copy: Policy, i: nat, peer: Peer, w: World)
    requires PeerStep(c, key, copy, i, peer, w).Ok?
    ensures var (c', f) := PeerStep(c, key, copy, i, peer, w).value;
            var k := PathKey(key, peer);
            && copy.preference.Some? && f == w.fetch(i, peer.remoteAS, copy.preference.value) && !f.FetchFailed?
            && OnlyUnder(c, c', if f.Ready? then {k} else {})
            && Bared(c'.paths) ==
               var before := Bared(c.paths);
               if f.Ready? then before[k := Stamp(PathAt(before, k), ControllerRef(key, copy), SpecFor(key, peer, f))]
               else before
  {
  }

  /** Whether and why an iteration fails does not depend on versions. */
  lemma VersionsDoNotMatter(c: Cluster, d: Cluster, key: Key, copy: Policy, i: nat, peer: Peer, w: World)
    requires Bared(c.paths) == Bared(d.paths)
    ensures var s, t := PeerStep(c, key, copy, i, peer, w), PeerStep(d, key, copy, i, peer, w);
            (s.Ok? <==> t.Ok?) && (s.Err? ==> s.error == t.error)
  {
    var k := PathKey(key, peer);
    assert k in c.paths <==> k in Bared(c.paths);
    assert k in d.paths <==> k in Bared(d.paths);
    if k in c.paths {
      assert Bare(c.paths[k]) == Bared(c.paths)[k] == Bare(d.paths[k]);
    }
  }

  /** On an overlay, that is the overlay of one more result. */
  lemma OverlayOfOneMore(paths: map<Key, ComputedPath>, ref: OwnerRef, key: Key, peers: seq<Peer>, results: seq<Fetch>,
                         f: Fetch)
    requires |results| < |peers|
    ensures var o, k := Overlay(paths, ref, Wanted(key, peers, results)), PathKey(key, peers[|results|]);
            Overlay(paths, ref, Wanted(key, peers, results + [f]))
            == if f.Ready? then o[k := Stamp(PathAt(o, k), ref, SpecFor(key, peers[|results|], f))] else o
  {
    WantedAppend(key, peers, results, f);
    if f.Ready? {
      var peer := peers[|results|];
      OverlayOneMore(paths, ref, Wanted(key, peers, results), PathKey(key, peer), SpecFor(key, peer, f));
    }
  }

  /** The results known when the loop stands before position `n`; without a preference it never gets past the first. */
  function Known(peers: seq<Peer>, copy: Policy, w: World, n: nat): seq<Fetch>
    requires n <= |peers|
  {
    if copy.preference.Some? then Answers(peers, copy.preference.value, w, n) else []
  }

  /** What the loop has made of `c`, but for versions, when it stands before position `n`. */
  function Before(c: Cluster, key: Key, copy: Policy, peers: seq<Peer>, w: World, n: nat): Cluster
    requires n <= |peers|
  {
    Plain(c).(paths := Overlay(Bared(c.paths), ControllerRef(key, copy), Wanted(key, peers, Known(peers, copy, w, n))))
  }

  /** The store in which the loop stands before position `n`: only the paths of ready peers have been written. */
  ghost predicate Leads(c: Cluster, key: Key, copy: Policy, peers: seq<Peer>, w: World, n: nat, s: Cluster)
    requires n <= |peers|
  {
    && Plain(s) == Before(c, key, copy, peers, w, n)
    && OnlyUnder(c, s, Wanted(key, peers, Known(peers, copy, w, n)).Keys)
  }

  /** How the loop over `peers` ends when it gets to `done` and position `n` is the first that fails, if any. */
  predicate LoopEnds(done: Cluster, key: Key, copy: Policy, peers: seq<Peer>, w: World, n: nat, end: (Cluster, Outcome))
    requires n <= |peers|
  {
    if n < |peers| then
      end.0 == done && PeerStep(done, key, copy, n, peers[n], w) == Err(end.1)
    else if !AllReady(Known(peers, copy, w, n)) then
      end == (done, RequeueAfter(REQUEUE_SECONDS))
    else
      (end.0, Ended(end.1)) == Write(done, key, Reported(copy, |peers|), w.fails(UpdateStatus))
  }

  /** Whether the iteration at position `m` succeeds. */
  predicate Passes(c: Cluster, key: Key, copy: Policy, peers: seq<Peer>, w: World, m: nat)
    requires m < |peers|
  {
    PeerStep(Before(c, key, copy, peers, w, m), key, copy, m, peers[m], w).Ok?
  }

  /** Position `n` is the first whose iteration fails, or the end of the list. */
  ghost predicate Stops(c: Cluster, key: Key, copy: Policy, peers: seq<Peer>, w: World, n: nat) {
    && n <= |peers|
    && (forall m | 0 <= m < n :: Passes(c, key, copy, peers, w, m))
    && (n < |peers| ==> !Passes(c, key, copy, peers, w, n))
  }

  /**
   * The loop refines the last-writer fold. It stops at the first position `n` whose iteration fails, having
   * done exactly what the ready peers before `n` ask for; when none fails it requeues or reports.
   */
  lemma LoopRefinesLastWriter(c: Cluster, key: Key, copy: Policy, peers: seq<Peer>, w: World)
    returns (n: nat, done: Cluster)
    ensures Stops(c, key, copy, peers, w, n)
    ensures Leads(c, key, copy, peers, w, n, done)
    ensures LoopEnds(done, key, copy, peers, w, n, RunFrom(c, key, Loop(Round(copy, peers, [])), w))
  {
    assert Known(peers, copy, w, 0) == [];
    NothingYet(c, key, copy, peers, w);
    n, done := LoopFrom(c, key, copy, peers, w, 0, c);
  }

  lemma NothingYet(c: Cluster, key: Key, copy: Policy, peers: seq<Peer>, w: World)
    ensures Leads(c, key, copy, peers, w, 0, c)
  {
    assert Known(peers, copy, w, 0) == [];
    assert Overlay(Bared(c.paths), ControllerRef(key, copy), map[]) == Bared(c.paths);
  }

  /** A successful iteration leads on to the next position. */
  lemma LoopStep(c: Cluster, key: Key, copy: Policy, peers: seq<Peer>, w: World, i: nat, s: Cluster)
    requires i < |peers| && |Known(peers, copy, w, i)| == i
    requires Leads(c, key, copy, peers, w, i, s) && PeerStep(s, key, copy, i, peers[i], w).Ok?
    ensures var (s', f) := PeerStep(s, key, copy, i, peers[i], w).value;
            && Known(peers, copy, w, i + 1) == Known(peers, copy, w, i) + [f]
            && Leads(c, key, copy, peers, w, i + 1, s')
  {
    var (s', f) := PeerStep(s, key, copy, i, peers[i], w).value;
    var results := Known(peers, copy, w, i);
    PeerStepStamps(s, key, copy, i, peers[i], w);
    assert Known(peers, copy, w, i + 1) == results + [f];
    OverlayOfOneMore(Bared(c.paths), ControllerRef(key, copy), key, peers, results, f);
    WantedAppend(key, peers, results, f);
    assert Bared(s.paths) == Plain(s).paths;
    assert Plain(s') == Plain(s).(paths := Bared(s'.paths));
  }

  lemma {:induction false} LoopFrom(c: Cluster, key: Key, copy: Policy, peers: seq<Peer>, w: World, i: nat, s: Cluster)
    returns (n: nat, done: Cluster)
    requires i <= |peers| && |Known(peers, copy, w, i)| == i && Leads(c, key, copy, peers, w, i, s)
    requires forall m | 0 <= m < i :: Passes(c, key, copy, peers, w, m)
    ensures Stops(c, key, copy, peers, w, n)
    ensures Leads(c, key, copy, peers, w, n, done)
    ensures LoopEnds(done, key, copy, peers, w, n,
              RunFrom(s, key, Loop(Round(copy, peers, Known(peers, copy, w, i))), w))
    decreases |peers| - i
  {
    var r := Round(copy, peers, Known(peers, copy, w, i));
    n, done := i, s;
    if i < |peers| {
      Iterate(s, key, r, w);
      assert Bared(s.paths) == Plain(s).paths;
      BaredTwice(s, Before(c, key, copy, peers, w, i));
      VersionsDoNotMatter(s, Before(c, key, copy, peers, w, i), key, copy, i, peers[i], w);
      if Passes(c, key, copy, peers, w, i) {
        LoopStep(c, key, copy, peers, w, i, s);
        n, done := LoopFrom(c, key, copy, peers, w, i + 1, PeerStep(s, key, copy, i, peers[i], w).value.0);
      }
    } else {
      LastStep(s, key, Loop(r), w);
    }
  }

  lemma BaredTwice(s: Cluster, p: Cluster)
    requires Plain(s) == p
    ensures Bared(p.paths) == Bared(s.paths)
  {
  }

  /** A pass that is due to work through the peers is its loop over the peers listed now. */
  lemma RunIsLoop(c: Cluster, key: Key, w: World)
    requires Loops(c, key, w)
    ensures Run(c, key, w) == RunFrom(c, key, Loop(Round(c.policies[key], c.peers, [])), w)
  {
    assert RunFrom(c, key, Got(c.policies[key]), w) == RunFrom(c, key, Loop(Round(c.policies[key], c.peers, [])), w);
  }

  /** A pass for `key` that reads a live policy and the list of peers. */
  predicate Loops(c: Cluster, key: Key, w: World) {
    key in c.policies && Live(c.policies[key]) && !w.fails(GetPolicy) && !w.fails(ListPeers)
  }

  /** Controlled by the policy, with exactly this spec. */
  predicate Carries(c: Cluster, k: Key, ref: OwnerRef, spec: PathSpec) {
    k in c.paths && ControllerOf(c.paths[k].owners) == Some(ref) && c.paths[k].spec == spec
  }

  /** No path is gone, and only those of ready peers before position `n` may have changed. */
  ghost predicate KeepsGood(c: Cluster, s: Cluster, key: Key, results: seq<Fetch>)
    requires |results| <= |c.peers|
  {
    forall k | k in c.paths ::
      && k in s.paths
      && (s.paths[k] == c.paths[k]
          || exists i :: 0 <= i < |results| && results[i].Ready? && PathKey(key, c.peers[i]) == k)
  }

  /** No later ready peer has the same path. */
  predicate IsLast(key: Key, peers: seq<Peer>, results: seq<Fetch>, i: nat)
    requires i < |results| <= |peers|
  {
    forall j | i < j < |results| && results[j].Ready? :: PathKey(key, peers[j]) != PathKey(key, peers[i])
  }

  /** Each ready peer has its path, with the spec of the last ready peer of that path. */
  ghost predicate ServesReady(c: Cluster, s: Cluster, key: Key, ref: OwnerRef, results: seq<Fetch>)
    requires |results| <= |c.peers|
  {
    forall i | 0 <= i < |results| && results[i].Ready? && IsLast(key, c.peers, results, i) ::
      var k := Key(key.namespace, key.name + "-to-" + c.peers[i].name);
      && k in s.paths && ControllerOf(s.paths[k].owners) == Some(ref)
      && IsSpecOf(s.paths[k].spec, key, c.peers[i], results[i])
  }

  /**
   * Last known good: no pass removes a computed path, and the only ones it writes are those of peers it found
   * ready before it stopped. A peer that is not ready costs nobody anything: each ready peer before the stop,
   * whatever came before it, has its path.
   */
  lemma LastKnownGood(c: Cluster, key: Key, w: World, n: nat)
    requires Loops(c, key, w) && Stops(c, key, c.policies[key], c.peers, w, n)
    ensures var (s, results) := (Run(c, key, w).0, Known(c.peers, c.policies[key], w, n));
            && |results| == n && KeepsGood(c, s, key, results)
            && ServesReady(c, s, key, ControllerRef(key, c.policies[key]), results)
  {
    var copy, s := c.policies[key], Run(c, key, w).0;
    RunIsLoop(c, key, w);
    var n', done := LoopRefinesLastWriter(c, key, copy, c.peers, w);
    StopsOnce(c, key, copy, c.peers, w, n, n');
    KnownLength(c, key, copy, c.peers, w, n);
    assert s.paths == done.paths;
    GoodKept(c, key, w, n, done);
    ReadyServed(c, key, w, n, done);
  }

  lemma GoodKept(c: Cluster, key: Key, w: World, n: nat, done: Cluster)
    requires key in c.policies && n <= |c.peers| && Leads(c, key, c.policies[key], c.peers, w, n, done)
    ensures KeepsGood(c, done, key, Known(c.peers, c.policies[key], w, n))
  {
    var results := Known(c.peers, c.policies[key], w, n);
    forall k | k in c.paths && k in Wanted(key, c.peers, results)
      ensures k in done.paths
      ensures exists i :: 0 <= i < |results| && results[i].Ready? && PathKey(key, c.peers[i]) == k
    {
      var i := WantedFromLastReady(key, c.peers, results, k);
      assert k in Plain(done).paths;
    }
  }

  lemma ReadyServed(c: Cluster, key: Key, w: World, n: nat, done: Cluster)
    requires key in c.policies && Stops(c, key, c.policies[key], c.peers, w, n)
    requires Leads(c, key, c.policies[key], c.peers, w, n, done)
    ensures ServesReady(c, done, key, ControllerRef(key, c.policies[key]), Known(c.peers, c.policies[key], w, n))
  {
    var ref, results := ControllerRef(key, c.policies[key]), Known(c.peers, c.policies[key], w, n);
    forall i | 0 <= i < |results| && results[i].Ready? && IsLast(key, c.peers, results, i)
      ensures Carries(done, PathKey(key, c.peers[i]), ref, SpecFor(key, c.peers[i], results[i]))
    {
      ReadyIsWanted(key, c.peers, results, i);
      var l := WantedFromLastReady(key, c.peers, results, PathKey(key, c.peers[i]));
      WantedLands(c, key, w, n, done, PathKey(key, c.peers[i]));
    }
  }

  lemma StopsOnce(c: Cluster, key: Key, copy: Policy, peers: seq<Peer>, w: World, n: nat, n': nat)
    requires Stops(c, key, copy, peers, w, n) && Stops(c, key, copy, peers, w, n')
    ensures n == n'
  {
  }

  /** Without a preference the loop stops at its first peer, so what is known is always one answer per peer passed. */
  lemma KnownLength(c: Cluster, key: Key, copy: Policy, peers: seq<Peer>, w: World, n: nat)
    requires Stops(c, key, copy, peers, w, n)
    ensures |Known(peers, copy, w, n)| == n
  {
    assert n > 0 ==> Passes(c, key, copy, peers, w, 0);
  }

  lemma WantedLands(c: Cluster, key: Key, w: World, n: nat, done: Cluster, k: Key)
    requires key in c.policies && Stops(c, key, c.policies[key], c.peers, w, n)
    requires Leads(c, key, c.policies[key], c.peers, w, n, done)
    requires k in Wanted(key, c.peers, Known(c.peers, c.policies[key], w, n))
    ensures var want := Wanted(key, c.peers, Known(c.peers, c.policies[key], w, n));
            Carries(done, k, ControllerRef(key, c.policies[key]), want[k])
  {
    var copy := c.policies[key];
    var ref, want := ControllerRef(key, copy), Wanted(key, c.peers, Known(c.peers, copy, w, n));
    var before := PathAt(Bared(c.paths), k);
    assert Plain(done).paths[k] == Stamp(before, ref, want[k]);
    WantedAdoptable(c, key, copy, c.peers, w, n, k);
    UpsertControls(before.owners, ref);
  }

  /** A path is only stamped if its owners allowed it from the start. */
  lemma {:induction false} WantedAdoptable(c: Cluster, key: Key, copy: Policy, peers: seq<Peer>, w: World, n: nat,
                                           k: Key)
    requires n <= |peers| && forall m | 0 <= m < n :: Passes(c, key, copy, peers, w, m)
    requires k in Wanted(key, peers, Known(peers, copy, w, n))
    ensures Adoptable(PathAt(Bared(c.paths), k).owners, ControllerRef(key, copy))
  {
    var before := Known(peers, copy, w, n - 1);
    assert Passes(c, key, copy, peers, w, n - 1);
    if k in Wanted(key, peers, before) {
      WantedAdoptable(c, key, copy, peers, w, n - 1, k);
    } else {
      var f := w.fetch(n - 1, peers[n - 1].remoteAS, copy.preference.value);
      assert Known(peers, copy, w, n) == before + [f];
      WantedAppend(key, peers, before, f);
      assert PathAt(Before(c, key, copy, peers, w, n - 1).paths, k) == PathAt(Bared(c.paths), k);
    }
  }

  /** A pass that never reaches its loop does not touch the computed paths. */
  lemma IdlePass(c: Cluster, key: Key, w: World)
    requires !Loops(c, key, w)
    ensures Run(c, key, w).0.paths == c.paths
  {
    if key in c.policies && !w.fails(GetPolicy) {
      LastStep(c, key, Got(c.policies[key]), w);
    }
  }

  /** The preference is optional in the API, yet a pass that reaches a peer without one panics, and only then. */
  lemma PanicsIff(c: Cluster, key: Key, w: World)
    ensures Run(c, key, w).1 == Panicked <==>
            Loops(c, key, w) && c.peers != [] && c.policies[key].preference.None?
  {
    if key in c.policies && !w.fails(GetPolicy) {
      LastStep(c, key, Got(c.policies[key]), w);
      if Loops(c, key, w) {
        RunIsLoop(c, key, w);
        var n, done := LoopRefinesLastWriter(c, key, c.policies[key], c.peers, w);
      }
    }
  }

  /** A policy without a preference and one peer: the pass panics before it asks for anything. */
  lemma PanicExample(peer: Peer, w: World)
    requires !w.fails(GetPolicy) && !w.fails(ListPeers)
    ensures var p := Policy(1, 1, 1, [FINALIZER], false, LabelSelector(map[], []), None, []);
            var c := Cluster(1, map[Key("default", "p") := p], [peer], map[], {});
            Run(c, Key("default", "p"), w) == (c, Panicked)
  {
    var p := Policy(1, 1, 1, [FINALIZER], false, LabelSelector(map[], []), None, []);
    var key := Key("default", "p");
    var c := Cluster(1, map[key := p], [peer], map[], {});
    assert p.finalizers[0] == FINALIZER;
    RunIsLoop(c, key, w);
    Iterate(c, key, Round(p, [peer], []), w);
  }
}

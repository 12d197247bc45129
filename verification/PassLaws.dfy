/** Laws of whole passes: fixed points, resumption after a crash, order of the peers, clashes and deletion. */
module PassLaws {
  import opened LastWriter
  import opened Objects
  import opened Ownership
  import opened Pass
  import PathNames
  import opened Wrappers

  ghost predicate Calm(w: World) {
    forall call :: !w.fails(call)
  }

  /** The path service answers for every listed peer, be it with "not ready yet". */
  predicate Answered(peers: seq<Peer>, preference: string, w: World) {
    forall i | 0 <= i < |peers| :: !w.fetch(i, peers[i].remoteAS, preference).FetchFailed?
  }

  /** No path the policy would write is controlled by anything else. */
  predicate Unclashed(c: Cluster, key: Key)
    requires key in c.policies
  {
    forall p | p in c.peers :: Adoptable(PathAt(c.paths, PathKey(key, p)).owners, ControllerRef(key, c.policies[key]))
  }

  /** Nothing stands in the way of a pass for a policy that is not being deleted. */
  ghost predicate Smooth(c: Cluster, key: Key, w: World) {
    && key in c.policies && !c.policies[key].deleting
    && c.policies[key].preference.Some?
    && Calm(w) && Answered(c.peers, c.policies[key].preference.value, w)
    && Unclashed(c, key)
  }

  /** The path service's answers for every listed peer. */
  function Everything(c: Cluster, key: Key, w: World): seq<Fetch>
    requires key in c.policies && c.policies[key].preference.Some?
  {
    Answers(c.peers, c.policies[key].preference.value, w, |c.peers|)
  }

  // What passes leave of a cluster, versions apart: wanted specs stamped in, and perhaps the status reported.

  function StampedWith(c: Cluster, key: Key, want: map<Key, PathSpec>): Cluster
    requires key in c.policies
  {
    c.(paths := Overlay(c.paths, ControllerRef(key, c.policies[key]), want))
  }

  function Report(c: Cluster, key: Key): Cluster
    requires key in c.policies
  {
    c.(policies := c.policies[key := Reported(c.policies[key], |c.peers|)])
  }

  function Marked(c: Cluster, key: Key, want: map<Key, PathSpec>, reported: bool): Cluster
    requires key in c.policies
  {
    var s := StampedWith(c, key, want);
    if reported then Report(s, key) else s
  }

  /** What a smooth pass leaves behind. */
  function Settled(c: Cluster, key: Key, results: seq<Fetch>): Cluster
    requires key in c.policies && |results| <= |c.peers|
  {
    Marked(c, key, Wanted(key, c.peers, results), AllReady(results))
  }

  lemma SmoothIteration(c: Cluster, key: Key, w: World, m: nat)
    requires Smooth(c, key, w) && m < |c.peers|
    ensures Passes(c, key, c.policies[key], c.peers, w, m)
  {
    var copy, peer := c.policies[key], c.peers[m];
    var ref, want := ControllerRef(key, copy), Wanted(key, c.peers, Known(c.peers, copy, w, m));
    OwnersBared(c.paths, PathKey(key, peer));
    OverlayAdoptable(Bared(c.paths), ref, want, PathKey(key, peer));
    assert !w.fails(GetPath(m)) && !w.fails(WritePath(m));
  }

  lemma OwnersBared(paths: map<Key, ComputedPath>, k: Key)
    ensures PathAt(Bared(paths), k).owners == PathAt(paths, k).owners
  {
  }

  /** Reporting the status of a policy that is still as it was read cannot fail but by refusal. */
  lemma ReportSucceeds(c: Cluster, key: Key)
    requires key in c.policies && !c.policies[key].deleting
    ensures var (s, ph) := Write(c, key, Reported(c.policies[key], |c.peers|), false);
            && ph == Ended(Done) && Plain(s) == Report(Plain(c), key)
            && (s == c <==> Reported(c.policies[key], |c.peers|) == c.policies[key])
  {
    var (s, _) := Write(c, key, Reported(c.policies[key], |c.peers|), false);
    assert s.paths == c.paths && s.peers == c.peers && s.foreign == c.foreign;
    assert Plain(s).policies == Report(Plain(c), key).policies;
  }

  lemma SmoothPass(c: Cluster, key: Key, w: World)
    requires Smooth(c, key, w) && Live(c.policies[key])
    ensures var results := Everything(c, key, w);
            && Plain(Run(c, key, w).0) == Settled(Plain(c), key, results)
            && Run(c, key, w).1 == if AllReady(results) then Done else RequeueAfter(REQUEUE_SECONDS)
  {
    var copy := c.policies[key];
    assert !w.fails(GetPolicy) && !w.fails(ListPeers) && !w.fails(UpdateStatus);
    RunIsLoop(c, key, w);
    var n, done := LoopRefinesLastWriter(c, key, copy, c.peers, w);
    if n < |c.peers| {
      SmoothIteration(c, key, w, n);
    }
    ReportSucceeds(done, key);
  }

  // How a pass ends.

  /**
   * Before its loop a pass ends in one of these ways. A failed call leaves the store alone and is reported; for a
   * missing policy, or a deleted one without the finalizer, there is nothing to do.
   */
  lemma EarlyExits(c: Cluster, key: Key, w: World)
    ensures w.fails(GetPolicy) ==> Run(c, key, w) == (c, Failed(ApiError))
    ensures !w.fails(GetPolicy) && key !in c.policies ==> Run(c, key, w) == (c, Done)
    ensures !w.fails(GetPolicy) && key in c.policies ==>
              var p := c.policies[key];
              var finalized := "cilion.io/policy-finalizer" in p.finalizers;
              && (p.deleting && !finalized ==> Run(c, key, w) == (c, Done))
              && (!p.deleting && finalized && w.fails(ListPeers) ==> Run(c, key, w) == (c, Failed(ApiError)))
              && (p.deleting == finalized && w.fails(UpdatePolicy) ==> Run(c, key, w) == (c, Failed(ApiError)))
              && (!p.deleting && !finalized && !w.fails(UpdatePolicy) ==> Run(c, key, w) == (Adopted(c, key), Done))
              && (p.deleting && finalized && !w.fails(UpdatePolicy) ==>
                    Run(c, key, w).1 == Done && Releases(c, Run(c, key, w).0, key))
  {
    if !w.fails(GetPolicy) && key in c.policies {
      var p := c.policies[key];
      LastStep(c, key, Got(p), w);
      if p.deleting && FINALIZER in p.finalizers {
        WithoutEmpty(p.finalizers, FINALIZER);
        assert FINALIZER !in Without(p.finalizers, FINALIZER);
      }
    }
  }

  /** The cluster in which a pass has added the finalizer behind the others. */
  function Adopted(c: Cluster, key: Key): Cluster
    requires key in c.policies
  {
    var (p, v) := (c.policies[key], c.revision + 1);
    var next := p.(finalizers := p.finalizers + ["cilion.io/policy-finalizer"], resourceVersion := v);
    c.(revision := v, policies := c.policies[key := next])
  }

  /** The finalizer is gone from the policy, and with it the policy if there is no other. */
  predicate Releases(c: Cluster, s: Cluster, key: Key)
    requires key in c.policies
  {
    var (p, f, v) := (c.policies[key], "cilion.io/policy-finalizer", c.revision + 1);
    var held := p.(finalizers := Without(p.finalizers, f), resourceVersion := v);
    s == c.(revision := v, policies := if forall x | x in p.finalizers :: x == f then c.policies - {key}
                                       else c.policies[key := held])
  }

  /**
   * In its loop a pass ends at the first position that fails, for the reason there is, or at the end: asking to
   * be run again in ten seconds if a peer was not ready, else by reporting.
   */
  lemma LoopExits(c: Cluster, key: Key, w: World, n: nat)
    requires Loops(c, key, w) && Stops(c, key, c.policies[key], c.peers, w, n)
    ensures n < |c.peers| && c.policies[key].preference.None? ==> Run(c, key, w).1 == Panicked
    ensures n < |c.peers| && c.policies[key].preference.Some? ==>
              var (peer, ref) := (c.peers[n], ControllerRef(key, c.policies[key]));
              var f := w.fetch(n, peer.remoteAS, c.policies[key].preference.value);
              && !f.NotReady?
              && Run(c, key, w).1 == Failed(
                   if f.FetchFailed? then FetchError
                   else if w.fails(GetPath(n)) then ApiError
                   else if !Adoptable(PathAt(c.paths, PathKey(key, peer)).owners, ref) then AlreadyOwned
                   else ApiError)
    ensures n == |c.peers| ==>
              var results := Known(c.peers, c.policies[key], w, n);
              Run(c, key, w).1 ==
                if exists i :: 0 <= i < |results| && !results[i].Ready? then RequeueAfter(10)
                else if w.fails(UpdateStatus) then Failed(ApiError) else Done
  {
    var copy := c.policies[key];
    RunIsLoop(c, key, w);
    var n', done := LoopRefinesLastWriter(c, key, copy, c.peers, w);
    StopsOnce(c, key, copy, c.peers, w, n, n');
    if n < |c.peers| && copy.preference.Some? {
      AdoptableThroughout(c, key, w, n, done);
    }
  }

  /** The pass's own writes do not change whether a path may be adopted. */
  lemma AdoptableThroughout(c: Cluster, key: Key, w: World, n: nat, done: Cluster)
    requires key in c.policies && Stops(c, key, c.policies[key], c.peers, w, n) && n < |c.peers|
    requires Leads(c, key, c.policies[key], c.peers, w, n, done)
    ensures var (k, ref) := (PathKey(key, c.peers[n]), ControllerRef(key, c.policies[key]));
            Adoptable(PathAt(done.paths, k).owners, ref) <==> Adoptable(PathAt(c.paths, k).owners, ref)
  {
    var copy := c.policies[key];
    var k, ref := PathKey(key, c.peers[n]), ControllerRef(key, copy);
    var want := Wanted(key, c.peers, Known(c.peers, copy, w, n));
    OwnersBared(c.paths, k);
    OwnersBared(done.paths, k);
    assert Plain(done).paths == Overlay(Bared(c.paths), ref, want);
    if k in want {
      WantedAdoptable(c, key, copy, c.peers, w, n, k);
      OverlayAdoptable(Bared(c.paths), ref, want, k);
    }
  }

  // Idempotence.

  lemma {:induction false} SetConditionAgain(cs: seq<Condition>, n: Condition)
    ensures SetCondition(SetCondition(cs, n), n) == SetCondition(cs, n)
  {
    if cs != [] && cs[0].kind != n.kind {
      SetConditionAgain(cs[1..], n);
      assert ([cs[0]] + SetCondition(cs[1..], n))[1..] == SetCondition(cs[1..], n);
    } else {
      assert SetCondition(cs, n)[0] == n;
    }
  }

  /** Reporting is idempotent. */
  lemma ReportedAgain(p: Policy, destinations: nat)
    ensures Reported(Reported(p, destinations), destinations) == Reported(p, destinations)
  {
    SetConditionAgain(p.conditions, ReadyCondition(p.generation, destinations));
  }

  /** A pass over what earlier ones have marked, covering at least as much, gives what it gives from the start. */
  lemma SettleMarked(c: Cluster, key: Key, want: map<Key, PathSpec>, reported: bool, results: seq<Fetch>)
    requires key in c.policies && |results| <= |c.peers|
    requires want.Keys <= Wanted(key, c.peers, results).Keys && (reported ==> AllReady(results))
    ensures Settled(Marked(c, key, want, reported), key, results) == Settled(c, key, results)
  {
    OverlayAbsorbs(c.paths, ControllerRef(key, c.policies[key]), want, Wanted(key, c.peers, results));
    ReportedAgain(c.policies[key], |c.peers|);
  }

  /** Versions and marks do not stand in the way of a pass. */
  lemma SmoothMarked(c: Cluster, key: Key, w: World, want: map<Key, PathSpec>, reported: bool, s: Cluster)
    requires Smooth(c, key, w) && Plain(s) == Marked(Plain(c), key, want, reported)
    ensures Smooth(s, key, w) && s.peers == c.peers && Everything(s, key, w) == Everything(c, key, w)
    ensures Live(c.policies[key]) <==> Live(s.policies[key])
  {
    var ref := ControllerRef(key, c.policies[key]);
    assert key in Plain(s).policies;
    assert s.policies[key].(resourceVersion := 0) == Plain(s).policies[key];
    forall p | p in c.peers
      ensures Adoptable(PathAt(s.paths, PathKey(key, p)).owners, ref)
    {
      OwnersBared(c.paths, PathKey(key, p));
      OwnersBared(s.paths, PathKey(key, p));
      OverlayAdoptable(Bared(c.paths), ref, want, PathKey(key, p));
    }
  }

  /** A pass over a settled cluster changes nothing but versions, even when peer names repeat. */
  lemma SettledIsFixed(c: Cluster, key: Key, w: World)
    requires Smooth(c, key, w) && Live(c.policies[key])
    ensures var s := Run(c, key, w).0;
            && Smooth(s, key, w) && Live(s.policies[key]) && Plain(Run(s, key, w).0) == Plain(s)
            && s.peers == c.peers && Everything(s, key, w) == Everything(c, key, w)
  {
    var results, s := Everything(c, key, w), Run(c, key, w).0;
    var want := Wanted(key, c.peers, results);
    SmoothPass(c, key, w);
    SmoothMarked(c, key, w, want, AllReady(results), s);
    SmoothPass(s, key, w);
    SettleMarked(Plain(c), key, want, AllReady(results), results);
  }

  /** The cluster after `n` passes. */
  function Again(c: Cluster, key: Key, w: World, n: nat): Cluster {
    if n == 0 then c else Run(Again(c, key, w, n - 1), key, w).0
  }

  lemma {:induction false} AgainFromFirst(c: Cluster, key: Key, w: World, n: nat)
    ensures Again(c, key, w, n + 1) == Again(Run(c, key, w).0, key, w, n)
  {
    if n > 0 {
      AgainFromFirst(c, key, w, n - 1);
    } else {
      assert Again(c, key, w, 0) == c;
    }
  }

  lemma {:induction false} SettledForEver(c: Cluster, key: Key, w: World, n: nat)
    requires Smooth(c, key, w) && Live(c.policies[key])
    ensures var s := Again(c, key, w, n);
            && Smooth(s, key, w) && Live(s.policies[key])
            && s.peers == c.peers && Everything(s, key, w) == Everything(c, key, w)
            && (n > 0 ==> Plain(s) == Plain(Run(c, key, w).0))
  {
    if n > 0 {
      SettledForEver(c, key, w, n - 1);
      SettledIsFixed(Again(c, key, w, n - 1), key, w);
      if n > 1 {
        SettledForEver(c, key, w, n - 2);
        SettledIsFixed(Again(c, key, w, n - 2), key, w);
      } else {
        assert Again(c, key, w, 0) == c;
      }
    }
  }

  /**
   * Convergence: from any policy that is not being deleted, at most two passes without errors reach a state in
   * which any number of further passes change no owner, spec, finalizer or condition; one suffices once the
   * finalizer is there.
   */
  lemma TwoPassesConverge(c: Cluster, key: Key, w: World, n: nat)
    requires Smooth(c, key, w)
    ensures n >= 2 ==> Plain(Again(c, key, w, n)) == Plain(Again(c, key, w, 2)) && Smooth(Again(c, key, w, n), key, w)
    ensures n >= 1 && Live(c.policies[key]) ==> Plain(Again(c, key, w, n)) == Plain(Again(c, key, w, 1))
    ensures !Live(c.policies[key]) ==> Again(c, key, w, 1) == Adopted(c, key)
  {
    assert Again(c, key, w, 1) == Run(Again(c, key, w, 0), key, w).0 == Run(c, key, w).0;
    if Live(c.policies[key]) {
      SettledForEver(c, key, w, n);
      SettledForEver(c, key, w, 2);
    } else {
      FirstPassAdopts(c, key, w);
      if n >= 2 {
        AgainFromFirst(c, key, w, n - 1);
        AgainFromFirst(c, key, w, 1);
        SettledForEver(Adopted(c, key), key, w, n - 1);
        SettledForEver(Adopted(c, key), key, w, 1);
      }
    }
  }

  lemma FirstPassAdopts(c: Cluster, key: Key, w: World)
    requires Smooth(c, key, w) && !Live(c.policies[key])
    ensures Run(c, key, w).0 == Adopted(c, key)
    ensures Smooth(Adopted(c, key), key, w) && Live(Adopted(c, key).policies[key])
  {
    assert !w.fails(GetPolicy) && !w.fails(UpdatePolicy);
    LastStep(c, key, Got(c.policies[key]), w);
    assert FINALIZER in Adopted(c, key).policies[key].finalizers;
  }

  // Passes that write nothing.

  /** The path of the peer at this position is already as the answer for it would make it. */
  predicate InPlace(c: Cluster, key: Key, results: seq<Fetch>, i: nat)
    requires key in c.policies && i < |results| <= |c.peers| && results[i].Ready?
  {
    var (k, ref) := (PathKey(key, c.peers[i]), ControllerRef(key, c.policies[key]));
    k in c.paths && Stamp(c.paths[k], ref, SpecFor(key, c.peers[i], results[i])) == c.paths[k]
  }

  lemma {:induction false} RevisionGrows(c: Cluster, key: Key, ph: Phase, w: World)
    ensures c.revision <= RunFrom(c, key, ph, w).0.revision
    decreases Stage(ph), PeersLeft(ph), CallsLeft(ph)
  {
    if !ph.Ended? {
      var (c', ph') := StepPass(c, key, ph, w);
      RevisionGrows(c', key, ph', w);
    }
  }

  /** Whether the rest of the loop, from position `i` on, issues a write. */
  lemma {:induction false} QuietFrom(c: Cluster, key: Key, w: World, i: nat)
    requires Smooth(c, key, w) && i <= |c.peers|
    ensures var results := Everything(c, key, w);
            RunFrom(c, key, Loop(Round(c.policies[key], c.peers, results[..i])), w).0 == c
            <==> && (forall j | i <= j < |results| && results[j].Ready? :: InPlace(c, key, results, j))
                 && (AllReady(results) ==> Reported(c.policies[key], |c.peers|) == c.policies[key])
    decreases |c.peers| - i
  {
    var results := Everything(c, key, w);
    if i < |c.peers| {
      var c' := QuietIteration(c, key, w, i);
      if c' == c {
        QuietFrom(c, key, w, i + 1);
      } else {
        RevisionGrows(c', key, Loop(Round(c.policies[key], c.peers, results[..i + 1])), w);
      }
    } else {
      QuietEnd(c, key, w);
    }
  }

  lemma QuietIteration(c: Cluster, key: Key, w: World, i: nat) returns (c': Cluster)
    requires Smooth(c, key, w) && i < |c.peers|
    ensures var (copy, results) := (c.policies[key], Everything(c, key, w));
            && RunFrom(c, key, Loop(Round(copy, c.peers, results[..i])), w)
               == RunFrom(c', key, Loop(Round(copy, c.peers, results[..i + 1])), w)
            && (c' == c <==> !results[i].Ready? || InPlace(c, key, results, i))
            && (c' != c ==> c.revision < c'.revision)
  {
    var copy, results := c.policies[key], Everything(c, key, w);
    Iterate(c, key, Round(copy, c.peers, results[..i]), w);
    assert Adoptable(PathAt(c.paths, PathKey(key, c.peers[i])).owners, ControllerRef(key, copy)) by {
      assert c.peers[i] in c.peers;
    }
    assert !w.fails(GetPath(i)) && !w.fails(WritePath(i));
    c' := PeerStep(c, key, copy, i, c.peers[i], w).value.0;
    assert results[..i] + [results[i]] == results[..i + 1];
  }

  lemma QuietEnd(c: Cluster, key: Key, w: World)
    requires Smooth(c, key, w)
    ensures var results := Everything(c, key, w);
            RunFrom(c, key, Loop(Round(c.policies[key], c.peers, results[..|c.peers|])), w).0 == c
            <==> (AllReady(results) ==> Reported(c.policies[key], |c.peers|) == c.policies[key])
  {
    var results := Everything(c, key, w);
    assert results[..|c.peers|] == results;
    assert !w.fails(UpdateStatus);
    LastStep(c, key, Loop(Round(c.policies[key], c.peers, results)), w);
    ReportSucceeds(c, key);
  }

  /** Ready peers of one name want one and the same spec. */
  predicate Agree(key: Key, peers: seq<Peer>, results: seq<Fetch>)
    requires |results| == |peers|
  {
    forall i, j | 0 <= i < j < |peers| && results[i].Ready? && results[j].Ready? && peers[i].name == peers[j].name ::
      SpecFor(key, peers[i], results[i]) == SpecFor(key, peers[j], results[j])
  }

  lemma AgreeIff(key: Key, peers: seq<Peer>, results: seq<Fetch>)
    requires |results| == |peers|
    ensures Agree(key, peers, results)
        <==> forall i | 0 <= i < |peers| && results[i].Ready? ::
               && PathKey(key, peers[i]) in Wanted(key, peers, results)
               && SpecFor(key, peers[i], results[i]) == Wanted(key, peers, results)[PathKey(key, peers[i])]
  {
    forall i | 0 <= i < |peers| && results[i].Ready?
      ensures PathKey(key, peers[i]) in Wanted(key, peers, results)
      ensures Agree(key, peers, results) ==>
                SpecFor(key, peers[i], results[i]) == Wanted(key, peers, results)[PathKey(key, peers[i])]
    {
      ReadyIsWanted(key, peers, results, i);
      var l := WantedFromLastReady(key, peers, results, PathKey(key, peers[i]));
      PathNames.PeerNameInjective(key.name, peers[i].name, peers[l].name);
    }
  }

  /** In a settled cluster a path is in place for exactly the answers that want what the last of its name wants. */
  lemma SettledInPlace(c: Cluster, key: Key, w: World, i: nat)
    requires Smooth(c, key, w) && Live(c.policies[key]) && i < |c.peers| && Everything(c, key, w)[i].Ready?
    ensures var (s, results) := (Run(c, key, w).0, Everything(c, key, w));
            && key in s.policies && s.peers == c.peers
            && PathKey(key, c.peers[i]) in Wanted(key, c.peers, results)
            && (InPlace(s, key, results, i)
                <==> SpecFor(key, c.peers[i], results[i]) == Wanted(key, c.peers, results)[PathKey(key, c.peers[i])])
  {
    var s, results, k := Run(c, key, w).0, Everything(c, key, w), PathKey(key, c.peers[i]);
    SmoothPass(c, key, w);
    SmoothMarked(c, key, w, Wanted(key, c.peers, results), AllReady(results), s);
    ReadyIsWanted(key, c.peers, results, i);
    SettledPath(c, s, key, results, k);
    UpsertIdempotent(PathAt(c.paths, k).owners, ControllerRef(key, c.policies[key]));
  }

  lemma SettledPath(c: Cluster, s: Cluster, key: Key, results: seq<Fetch>, k: Key)
    requires key in c.policies && |results| <= |c.peers| && k in Wanted(key, c.peers, results)
    requires Plain(s) == Settled(Plain(c), key, results)
    ensures key in s.policies && ControllerRef(key, s.policies[key]) == ControllerRef(key, c.policies[key])
    ensures k in s.paths && s.paths[k].spec == Wanted(key, c.peers, results)[k]
    ensures s.paths[k].owners == Upsert(PathAt(c.paths, k).owners, ControllerRef(key, c.policies[key]))
  {
    assert key in Plain(s).policies && Plain(s).policies[key] == s.policies[key].(resourceVersion := 0);
    assert k in Plain(s).paths;
    assert Bare(s.paths[k]) == Plain(s).paths[k];
    OwnersBared(c.paths, k);
  }

  lemma SettledReport(c: Cluster, key: Key, w: World)
    requires Smooth(c, key, w) && Live(c.policies[key]) && AllReady(Everything(c, key, w))
    ensures var s := Run(c, key, w).0;
            key in s.policies && Reported(s.policies[key], |c.peers|) == s.policies[key]
  {
    var s, results := Run(c, key, w).0, Everything(c, key, w);
    SmoothPass(c, key, w);
    SmoothMarked(c, key, w, Wanted(key, c.peers, results), true, s);
    ReportedAgain(c.policies[key], |c.peers|);
    assert Plain(s).policies[key] == s.policies[key].(resourceVersion := 0);
  }

  lemma QuietAfterPass(c: Cluster, key: Key, w: World)
    requires Smooth(c, key, w) && Live(c.policies[key])
    ensures var s := Run(c, key, w).0;
            Run(s, key, w).0 == s <==> Agree(key, c.peers, Everything(c, key, w))
  {
    var s, results := Run(c, key, w).0, Everything(c, key, w);
    SmoothPass(c, key, w);
    SmoothMarked(c, key, w, Wanted(key, c.peers, results), AllReady(results), s);
    RunIsLoop(s, key, w);
    assert results[..0] == [];
    QuietFrom(s, key, w, 0);
    AgreeIff(key, c.peers, results);
    if AllReady(results) {
      SettledReport(c, key, w);
    }
    forall i | 0 <= i < |results| && results[i].Ready?
      ensures PathKey(key, c.peers[i]) in Wanted(key, c.peers, results)
      ensures InPlace(s, key, results, i)
          <==> SpecFor(key, c.peers[i], results[i]) == Wanted(key, c.peers, results)[PathKey(key, c.peers[i])]
    {
      SettledInPlace(c, key, w, i);
    }
  }

  /**
   * After one smooth pass every further one writes nothing at all, so that no version changes, exactly when ready
   * peers of one name want the same spec. Otherwise every further pass writes paths again.
   */
  lemma QuietIff(c: Cluster, key: Key, w: World, n: nat)
    requires Smooth(c, key, w) && Live(c.policies[key]) && n >= 1
    ensures Again(c, key, w, n + 1) == Again(c, key, w, n) <==> Agree(key, c.peers, Everything(c, key, w))
  {
    SettledForEver(c, key, w, n - 1);
    QuietAfterPass(Again(c, key, w, n - 1), key, w);
  }

  const EXAMPLE_KEY := Key("default", "p")
  const EXAMPLE_POLICY := Policy(1, 1, 1, [FINALIZER], false, LabelSelector(map[], []), Some("latency"), [])
  const TWO_OF_A_NAME := [Peer("a", "x", "1-1", "10.1.0.0/16"), Peer("b", "x", "1-1", "10.2.0.0/16")]
  const ALL_WELL := World(_ => false, (_, _, _) => Ready([], "192.0.2.1"))

  /** Two clusters' peers of one name: every pass writes their path, for ever, and changes no content. */
  lemma RewrittenForEver(n: nat)
    requires n >= 1
    ensures var c := Cluster(1, map[EXAMPLE_KEY := EXAMPLE_POLICY], TWO_OF_A_NAME, map[], {});
            var (s, s') := (Again(c, EXAMPLE_KEY, ALL_WELL, n), Again(c, EXAMPLE_KEY, ALL_WELL, n + 1));
            s' != s && Plain(s') == Plain(s)
  {
    var c := Cluster(1, map[EXAMPLE_KEY := EXAMPLE_POLICY], TWO_OF_A_NAME, map[], {});
    TwoOfAName(c);
    QuietIff(c, EXAMPLE_KEY, ALL_WELL, n);
    SettledForEver(c, EXAMPLE_KEY, ALL_WELL, n);
    SettledForEver(c, EXAMPLE_KEY, ALL_WELL, n + 1);
  }

  lemma TwoOfAName(c: Cluster)
    requires c == Cluster(1, map[EXAMPLE_KEY := EXAMPLE_POLICY], TWO_OF_A_NAME, map[], {})
    ensures Smooth(c, EXAMPLE_KEY, ALL_WELL) && Live(c.policies[EXAMPLE_KEY])
    ensures !Agree(EXAMPLE_KEY, c.peers, Everything(c, EXAMPLE_KEY, ALL_WELL))
  {
    var results := Everything(c, EXAMPLE_KEY, ALL_WELL);
    assert FINALIZER in EXAMPLE_POLICY.finalizers;
    assert TWO_OF_A_NAME[0].podCIDR[3] != TWO_OF_A_NAME[1].podCIDR[3];
    assert SpecFor(EXAMPLE_KEY, c.peers[0], results[0]) != SpecFor(EXAMPLE_KEY, c.peers[1], results[1]);
  }

  // Resumption.

  /** `n` steps of a pass. */
  function Steps(c: Cluster, key: Key, w: World, n: nat): (Cluster, Phase) {
    if n == 0 then (c, Begin)
    else var (s, ph) := Steps(c, key, w, n - 1); StepPass(s, key, ph, w)
  }

  /** Passes for one policy, each broken off after some number of steps. */
  function Broken(c: Cluster, key: Key, breaks: seq<(World, nat)>): Cluster {
    if breaks == [] then c
    else
      var (w, n) := breaks[|breaks| - 1];
      Steps(Broken(c, key, breaks[..|breaks| - 1]), key, w, n).0
  }

  function PathKeys(key: Key, peers: seq<Peer>): set<Key> {
    set p | p in peers :: PathKey(key, p)
  }

  /** What broken passes may have done to `c`: `want` is stamped in, and the status perhaps reported. */
  ghost predicate Partly(c: Cluster, key: Key, want: map<Key, PathSpec>, reported: bool, s: Cluster)
    requires key in c.policies
  {
    want.Keys <= PathKeys(key, c.peers) && Plain(s) == Marked(Plain(c), key, want, reported)
  }

  /** A pass over such a store holds what is stored. */
  ghost predicate Holds(key: Key, s: Cluster, ph: Phase) {
    key in s.policies &&
    match ph
    case Begin => true
    case Got(copy) => copy == s.policies[key]
    case Loop(r) => r.copy == s.policies[key] && r.peers == s.peers
    case Reading(r, _) => r.copy == s.policies[key] && r.peers == s.peers
    case Writing(r, _, read) =>
      r.copy == s.policies[key] && r.peers == s.peers && read == ReadPath(s, PathKey(key, r.peers[|r.results|]))
    case Ended(_) => true
  }

  lemma PartlyStores(c: Cluster, key: Key, want: map<Key, PathSpec>, reported: bool, s: Cluster)
    requires key in c.policies && Partly(c, key, want, reported, s)
    ensures key in s.policies && s.peers == c.peers
    ensures ControllerRef(key, s.policies[key]) == ControllerRef(key, c.policies[key])
    ensures Live(s.policies[key]) <==> Live(c.policies[key])
  {
    assert key in Plain(s).policies && Plain(s).policies[key] == s.policies[key].(resourceVersion := 0);
  }

  /** A path write stamps one more wanted spec. */
  lemma WriteMarks(c: Cluster, key: Key, want: map<Key, PathSpec>, reported: bool, s: Cluster, k: Key, spec: PathSpec)
    requires key in c.policies && Partly(c, key, want, reported, s) && k in PathKeys(key, c.peers)
    ensures Partly(c, key, want[k := spec], reported,
              StorePath(s, k, Stamp(PathAt(s.paths, k), ControllerRef(key, c.policies[key]), spec)))
  {
    var ref := ControllerRef(key, c.policies[key]);
    var s' := StorePath(s, k, Stamp(PathAt(s.paths, k), ref, spec));
    var o := Overlay(Bared(c.paths), ref, want);
    assert Plain(s).paths == o == Bared(s.paths);
    OverlayOneMore(Bared(c.paths), ref, want, k, spec);
    assert Bared(s'.paths) == o[k := Stamp(PathAt(o, k), ref, spec)];
    assert Plain(s') == Plain(s).(paths := Bared(s'.paths));
  }

  lemma ReportMarks(c: Cluster, key: Key, want: map<Key, PathSpec>, reported: bool, s: Cluster)
    requires key in c.policies && Partly(c, key, want, reported, s)
    requires key in s.policies && Live(s.policies[key]) && s.peers == c.peers
    ensures Partly(c, key, want, true, Write(s, key, Reported(s.policies[key], |s.peers|), false).0)
  {
    ReportSucceeds(s, key);
    ReportedAgain(c.policies[key], |c.peers|);
    assert Plain(s).peers == c.peers;
  }

  lemma StepMarks(c: Cluster, key: Key, want: map<Key, PathSpec>, reported: bool, s: Cluster, ph: Phase, w: World)
    returns (want': map<Key, PathSpec>, reported': bool)
    requires key in c.policies && Live(c.policies[key]) && Partly(c, key, want, reported, s) && Holds(key, s, ph)
    ensures var (s', ph') := StepPass(s, key, ph, w);
            Partly(c, key, want', reported', s') && Holds(key, s', ph')
  {
    want', reported' := want, reported;
    PartlyStores(c, key, want, reported, s);
    if ph.Writing? {
      want' := WriteStepMarks(c, key, want, reported, s, ph, w);
    } else {
      OtherStepHolds(s, key, ph, w);
      if StepPass(s, key, ph, w).0 != s {
        reported' := true;
        ReportMarks(c, key, want, reported, s);
      }
    }
  }

  lemma OtherStepHolds(s: Cluster, key: Key, ph: Phase, w: World)
    requires Holds(key, s, ph) && Live(s.policies[key]) && !ph.Writing?
    ensures var (s', ph') := StepPass(s, key, ph, w);
            && Holds(key, s', ph')
            && (s' == s || s' == Write(s, key, Reported(s.policies[key], |s.peers|), false).0)
  {
  }

  lemma WriteStepMarks(c: Cluster, key: Key, want: map<Key, PathSpec>, reported: bool, s: Cluster, ph: Phase, w: World)
    returns (want': map<Key, PathSpec>)
    requires key in c.policies && Live(c.policies[key]) && Partly(c, key, want, reported, s)
    requires ph.Writing? && Holds(key, s, ph)
    ensures var (s', ph') := StepPass(s, key, ph, w);
            Partly(c, key, want', reported, s') && Holds(key, s', ph')
  {
    want' := want;
    PartlyStores(c, key, want, reported, s);
    if !w.fails(WritePath(|ph.round.results|)) {
      var peer := ph.round.peers[|ph.round.results|];
      assert peer in c.peers;
      want' := want[PathKey(key, peer) := SpecFor(key, peer, ph.found)];
      WriteMarks(c, key, want, reported, s, PathKey(key, peer), SpecFor(key, peer, ph.found));
      assert OrBlank(ph.read) == PathAt(s.paths, PathKey(key, peer));
    }
  }

  lemma {:induction false} StepsMark(c: Cluster, key: Key, want: map<Key, PathSpec>, reported: bool, s: Cluster,
                                     w: World, n: nat)
    returns (want': map<Key, PathSpec>, reported': bool)
    requires key in c.policies && Live(c.policies[key]) && Partly(c, key, want, reported, s)
    ensures var (s', ph') := Steps(s, key, w, n);
            Partly(c, key, want', reported', s') && Holds(key, s', ph')
  {
    if n == 0 {
      want', reported' := want, reported;
      PartlyStores(c, key, want, reported, s);
    } else {
      want', reported' := StepsMark(c, key, want, reported, s, w, n - 1);
      var (s', ph') := Steps(s, key, w, n - 1);
      want', reported' := StepMarks(c, key, want', reported', s', ph', w);
    }
  }

  lemma {:induction false} BreaksMark(c: Cluster, key: Key, breaks: seq<(World, nat)>)
    returns (want: map<Key, PathSpec>, reported: bool)
    requires key in c.policies && Live(c.policies[key])
    ensures Partly(c, key, want, reported, Broken(c, key, breaks))
  {
    if breaks == [] {
      want, reported := map[], false;
      assert Overlay(Bared(c.paths), ControllerRef(key, c.policies[key]), map[]) == Bared(c.paths);
    } else {
      var init := breaks[..|breaks| - 1];
      var (w, n) := breaks[|breaks| - 1];
      want, reported := BreaksMark(c, key, init);
      want, reported := StepsMark(c, key, want, reported, Broken(c, key, init), w, n);
    }
  }

  /**
   * Crash and resume: break off any number of passes, each after any number of its steps, whatever failed on
   * the way. One complete pass in which every peer is ready is then still possible, and ends exactly as if the
   * broken passes had never run, versions apart.
   */
  lemma CrashResume(c: Cluster, key: Key, breaks: seq<(World, nat)>, w: World)
    requires Smooth(c, key, w) && Live(c.policies[key]) && AllReady(Everything(c, key, w))
    ensures var s := Broken(c, key, breaks);
            && Smooth(s, key, w)
            && Plain(Run(s, key, w).0) == Plain(Run(c, key, w).0) && Run(s, key, w).1 == Run(c, key, w).1
  {
    var s, all := Broken(c, key, breaks), Everything(c, key, w);
    var want, reported := BreaksMark(c, key, breaks);
    forall k | k in want
      ensures k in Wanted(key, c.peers, all)
    {
      var p :| p in c.peers && PathKey(key, p) == k;
      var i :| 0 <= i < |c.peers| && c.peers[i] == p;
      ReadyIsWanted(key, c.peers, all, i);
    }
    SmoothMarked(c, key, w, want, reported, s);
    SmoothPass(c, key, w);
    SmoothPass(s, key, w);
    SettleMarked(Plain(c), key, want, reported, all);
  }

  // The order of the peers.

  /** The path service's answer does not depend on when it is asked. */
  ghost predicate Steady(w: World) {
    forall i, j, remoteAS, preference :: w.fetch(i, remoteAS, preference) == w.fetch(j, remoteAS, preference)
  }

  lemma WantedInAnyOrder(key: Key, preference: string, peers: seq<Peer>, others: seq<Peer>, w: World)
    requires Steady(w) && multiset(peers) == multiset(others)
    requires forall p, q | p in peers && q in peers && p.name == q.name :: p == q
    ensures var a, b := Answers(peers, preference, w, |peers|), Answers(others, preference, w, |others|);
            Wanted(key, peers, a) == Wanted(key, others, b) && (AllReady(a) <==> AllReady(b))
  {
    SameElements(peers, others);
    var a, b := Answers(peers, preference, w, |peers|), Answers(others, preference, w, |others|);
    WantedWithin(key, preference, peers, others, w);
    WantedWithin(key, preference, others, peers, w);
    forall k | k in Wanted(key, peers, a)
      ensures Wanted(key, peers, a)[k] == Wanted(key, others, b)[k]
    {
      SameWish(key, preference, peers, others, w, k);
    }
  }

  lemma SameWish(key: Key, preference: string, peers: seq<Peer>, others: seq<Peer>, w: World, k: Key)
    requires Steady(w) && forall p :: p in peers <==> p in others
    requires forall p, q | p in peers && q in peers && p.name == q.name :: p == q
    requires k in Wanted(key, peers, Answers(peers, preference, w, |peers|))
    requires k in Wanted(key, others, Answers(others, preference, w, |others|))
    ensures Wanted(key, peers, Answers(peers, preference, w, |peers|))[k]
         == Wanted(key, others, Answers(others, preference, w, |others|))[k]
  {
    var i := WantedFromLastReady(key, peers, Answers(peers, preference, w, |peers|), k);
    var j := WantedFromLastReady(key, others, Answers(others, preference, w, |others|), k);
    PathNames.PeerNameInjective(key.name, peers[i].name, others[j].name);
    assert others[j] in others && peers[i] in peers;
    assert w.fetch(i, peers[i].remoteAS, preference) == w.fetch(j, others[j].remoteAS, preference);
  }

  lemma SameElements(peers: seq<Peer>, others: seq<Peer>)
    requires multiset(peers) == multiset(others)
    ensures forall p :: p in peers <==> p in others
    ensures |peers| == |others|
  {
    assert forall p :: p in peers <==> p in multiset(peers);
    assert forall p :: p in others <==> p in multiset(others);
    assert |multiset(peers)| == |peers| && |multiset(others)| == |others|;
  }

  lemma WantedWithin(key: Key, preference: string, peers: seq<Peer>, others: seq<Peer>, w: World)
    requires Steady(w) && forall p | p in peers :: p in others
    ensures var a, b := Answers(peers, preference, w, |peers|), Answers(others, preference, w, |others|);
            Wanted(key, peers, a).Keys <= Wanted(key, others, b).Keys && (AllReady(b) ==> AllReady(a))
  {
    var a, b := Answers(peers, preference, w, |peers|), Answers(others, preference, w, |others|);
    forall i | 0 <= i < |a|
      ensures exists j :: 0 <= j < |b| && others[j] == peers[i] && b[j] == a[i]
    {
      assert peers[i] in peers;
      var j :| 0 <= j < |others| && others[j] == peers[i];
      assert w.fetch(i, peers[i].remoteAS, preference) == w.fetch(j, peers[i].remoteAS, preference);
    }
    forall k | k in Wanted(key, peers, a)
      ensures k in Wanted(key, others, b)
    {
      var i := WantedFromLastReady(key, peers, a, k);
      var j :| 0 <= j < |b| && others[j] == peers[i] && b[j] == a[i];
      ReadyIsWanted(key, others, b, j);
    }
  }

  lemma SmoothInAnyOrder(c: Cluster, key: Key, others: seq<Peer>, w: World)
    requires Smooth(c, key, w) && Steady(w) && multiset(c.peers) == multiset(others)
    ensures Smooth(c.(peers := others), key, w)
  {
    var preference := c.policies[key].preference.value;
    SameElements(c.peers, others);
    forall i | 0 <= i < |others|
      ensures !w.fetch(i, others[i].remoteAS, preference).FetchFailed?
    {
      assert others[i] in others;
      var j :| 0 <= j < |c.peers| && c.peers[j] == others[i];
      assert w.fetch(i, others[i].remoteAS, preference) == w.fetch(j, others[i].remoteAS, preference);
    }
  }

  lemma SettledInAnyOrder(c: Cluster, key: Key, others: seq<Peer>, a: seq<Fetch>, b: seq<Fetch>)
    requires key in c.policies && |a| <= |c.peers| == |others| && |b| <= |others|
    requires Wanted(key, c.peers, a) == Wanted(key, others, b) && (AllReady(a) <==> AllReady(b))
    ensures Settled(c.(peers := others), key, b) == Settled(c, key, a).(peers := others)
  {
  }

  /**
   * When peers of one name are one peer, the order in which they are listed affects neither what is stored,
   * versions apart, nor whether the pass asks to be run again.
   */
  lemma OrderOfPeersIrrelevant(c: Cluster, key: Key, others: seq<Peer>, w: World)
    requires Smooth(c, key, w) && Steady(w) && Live(c.policies[key])
    requires multiset(c.peers) == multiset(others)
    requires forall p, q | p in c.peers && q in c.peers && p.name == q.name :: p == q
    ensures var (s, t) := (Run(c, key, w), Run(c.(peers := others), key, w));
            Plain(t.0) == Plain(s.0).(peers := others) && t.1 == s.1
  {
    var d, preference := c.(peers := others), c.policies[key].preference.value;
    SmoothInAnyOrder(c, key, others, w);
    SameElements(c.peers, others);
    WantedInAnyOrder(key, preference, c.peers, others, w);
    SettledInAnyOrder(Plain(c), key, others, Everything(c, key, w), Everything(d, key, w));
    SmoothPass(c, key, w);
    SmoothPass(d, key, w);
    assert Plain(d) == Plain(c).(peers := others);
  }

  // Clashes.

  /**
   * When the path of the peer at position `m` is controlled by something else, the pass fails there at the
   * latest and that path stays as it is, while the writes for the ready peers before it are kept.
   */
  lemma ClashFailsThePass(c: Cluster, key: Key, w: World, m: nat)
    requires Loops(c, key, w) && c.policies[key].preference.Some? && m < |c.peers|
    requires w.fetch(m, c.peers[m].remoteAS, c.policies[key].preference.value).Ready?
    requires !Adoptable(PathAt(c.paths, PathKey(key, c.peers[m])).owners, ControllerRef(key, c.policies[key]))
    ensures exists n: nat :: n <= m && Leads(c, key, c.policies[key], c.peers, w, n, Run(c, key, w).0)
    ensures Run(c, key, w).1.Failed?
    ensures (forall n | 0 <= n < m :: Passes(c, key, c.policies[key], c.peers, w, n)) ==>
              && Leads(c, key, c.policies[key], c.peers, w, m, Run(c, key, w).0)
              && (!w.fails(GetPath(m)) ==> Run(c, key, w).1 == Failed(AlreadyOwned))
    ensures var k := PathKey(key, c.peers[m]); k in Run(c, key, w).0.paths && Run(c, key, w).0.paths[k] == c.paths[k]
  {
    var copy := c.policies[key];
    RunIsLoop(c, key, w);
    var n, done := LoopRefinesLastWriter(c, key, copy, c.peers, w);
    if n > m {
      ClashUntouched(c, key, w, m, m);
      PassedUnclashed(c, key, w, m, m);
    } else {
      PeerStepFails(done, key, copy, n, c.peers[n], w);
      ClashUntouched(c, key, w, m, n);
      assert PathKey(key, c.peers[m]) in c.paths;
      if n == m {
        ClashBlocks(c, key, w, m, m, done);
      }
    }
  }

  lemma PeerStepFails(c: Cluster, key: Key, copy: Policy, i: nat, peer: Peer, w: World)
    requires PeerStep(c, key, copy, i, peer, w).Err? && copy.preference.Some?
    ensures PeerStep(c, key, copy, i, peer, w).error.Failed?
  {
  }

  /** As long as every iteration passes, a clashing path is not among the wanted ones. */
  lemma {:induction false} ClashUntouched(c: Cluster, key: Key, w: World, m: nat, n: nat)
    requires key in c.policies && c.policies[key].preference.Some? && m < |c.peers| && n <= |c.peers|
    requires !Adoptable(PathAt(c.paths, PathKey(key, c.peers[m])).owners, ControllerRef(key, c.policies[key]))
    requires forall i | 0 <= i < n :: Passes(c, key, c.policies[key], c.peers, w, i)
    ensures PathKey(key, c.peers[m]) !in Wanted(key, c.peers, Known(c.peers, c.policies[key], w, n))
  {
    var copy := c.policies[key];
    if n > 0 {
      assert Passes(c, key, copy, c.peers, w, n - 1);
      ClashUntouched(c, key, w, m, n - 1);
      var before := Known(c.peers, copy, w, n - 1);
      var f := w.fetch(n - 1, c.peers[n - 1].remoteAS, copy.preference.value);
      assert Known(c.peers, copy, w, n) == before + [f];
      WantedAppend(key, c.peers, before, f);
      PassedUnclashed(c, key, w, m, n - 1);
    }
  }

  lemma PassedUnclashed(c: Cluster, key: Key, w: World, m: nat, n: nat)
    requires key in c.policies && c.policies[key].preference.Some? && m < |c.peers| && n < |c.peers|
    requires !Adoptable(PathAt(c.paths, PathKey(key, c.peers[m])).owners, ControllerRef(key, c.policies[key]))
    requires PathKey(key, c.peers[m]) !in Wanted(key, c.peers, Known(c.peers, c.policies[key], w, n))
    requires Passes(c, key, c.policies[key], c.peers, w, n)
    ensures w.fetch(n, c.peers[n].remoteAS, c.policies[key].preference.value).Ready? ==>
              PathKey(key, c.peers[n]) != PathKey(key, c.peers[m])
  {
    var k := PathKey(key, c.peers[m]);
    OwnersBared(c.paths, k);
    assert PathAt(Before(c, key, c.policies[key], c.peers, w, n).paths, k) == PathAt(Bared(c.paths), k);
  }

  lemma ClashBlocks(c: Cluster, key: Key, w: World, m: nat, n: nat, s: Cluster)
    requires key in c.policies && c.policies[key].preference.Some? && m < |c.peers| && n < |c.peers|
    requires !Adoptable(PathAt(c.paths, PathKey(key, c.peers[m])).owners, ControllerRef(key, c.policies[key]))
    requires PathKey(key, c.peers[n]) == PathKey(key, c.peers[m])
    requires w.fetch(n, c.peers[n].remoteAS, c.policies[key].preference.value).Ready?
    requires PathKey(key, c.peers[m]) !in Wanted(key, c.peers, Known(c.peers, c.policies[key], w, n))
    requires Bared(s.paths) == Before(c, key, c.policies[key], c.peers, w, n).paths
    ensures PeerStep(s, key, c.policies[key], n, c.peers[n], w).Err?
    ensures !w.fails(GetPath(n)) ==> PeerStep(s, key, c.policies[key], n, c.peers[n], w) == Err(Failed(AlreadyOwned))
  {
    var k := PathKey(key, c.peers[n]);
    OwnersBared(c.paths, k);
    OwnersBared(s.paths, k);
    assert PathAt(Before(c, key, c.policies[key], c.peers, w, n).paths, k) == PathAt(Bared(c.paths), k);
  }

  // Deletion.

  /** Whether the policy with this key and UID owns this computed path of its namespace. */
  ghost predicate OwnsAt(c: Cluster, key: Key, uid: nat, k: Key) {
    k in c.paths && k.namespace == key.namespace && exists o :: o in c.paths[k].owners && OwnedBy(o, key, uid)
  }

  ghost predicate OwnsSome(c: Cluster, key: Key, uid: nat) {
    exists k :: OwnsAt(c, key, uid, k)
  }

  predicate OwnedBy(o: OwnerRef, key: Key, uid: nat) {
    IsPolicyRef(o) && o.name == key.name && o.uid == uid
  }

  /** The controller's finalizer is there, and no other. */
  predicate LastFinalizer(p: Policy) {
    FINALIZER in p.finalizers && forall f | f in p.finalizers :: f == FINALIZER
  }

  /**
   * A successful pass for a policy being deleted, followed by garbage collection, leaves no path owned by it
   * exactly when the pass took the policy's last finalizer away (or it owned none). No later pass for it does anything.
   */
  lemma DeletionDrains(c: Cluster, key: Key, w: World, later: World)
    requires key in c.policies && c.policies[key].deleting && Run(c, key, w).1 == Done
    ensures var p := c.policies[key];
            var s := Run(c, key, w).0;
            var g := CollectGarbage(s, s.paths.Keys);
            && (!OwnsSome(g, key, p.uid) <==> LastFinalizer(p) || !OwnsSome(c, key, p.uid))
            && Run(g, key, later).0 == g
  {
    var p := c.policies[key];
    var uid, left := p.uid, Without(p.finalizers, FINALIZER);
    LastStep(c, key, Got(p), w);
    assert FINALIZER !in left;
    var s := Run(c, key, w).0;
    assert FINALIZER !in p.finalizers ==> s == c;
    assert PutPolicy(c, key, p.(finalizers := left)).Ok?;
    var g := CollectGarbage(s, s.paths.Keys);
    if key in g.policies && !later.fails(GetPolicy) {
      LastStep(g, key, Got(g.policies[key]), later);
    }
    assert s.paths == c.paths;
    assert forall k :: OwnsAt(s, key, uid, k) <==> OwnsAt(c, key, uid, k);
    WithoutEmpty(p.finalizers, FINALIZER);
    if LastFinalizer(p) {
      DrainedOf(s, key, uid);
    } else if OwnsSome(c, key, uid) {
      StillOwned(s, key, uid);
    } else {
      NothingNewOwned(s, key, uid);
    }
  }

  /** A policy that a second finalizer holds back keeps its paths: the pass succeeds and nothing is collected. */
  lemma HeldBack()
    ensures var p := EXAMPLE_POLICY.(deleting := true, finalizers := [FINALIZER, "other"]);
            var k := Key("default", "p-to-x");
            var path := ComputedPath(1, [ControllerRef(EXAMPLE_KEY, p)], PathSpec("p", "10.1.0.0/16", "192.0.2.1", []));
            var c := Cluster(1, map[EXAMPLE_KEY := p], [], map[k := path], {});
            var s := Run(c, EXAMPLE_KEY, ALL_WELL).0;
            Run(c, EXAMPLE_KEY, ALL_WELL).1 == Done && CollectGarbage(s, s.paths.Keys).paths == c.paths
  {
    var p := EXAMPLE_POLICY.(deleting := true, finalizers := [FINALIZER, "other"]);
    var k := Key("default", "p-to-x");
    var path := ComputedPath(1, [ControllerRef(EXAMPLE_KEY, p)], PathSpec("p", "10.1.0.0/16", "192.0.2.1", []));
    var c := Cluster(1, map[EXAMPLE_KEY := p], [], map[k := path], {});
    assert p.finalizers[0] == FINALIZER && p.finalizers[1] == "other";
    assert |FINALIZER| != |"other"|;
    assert "other" in Without(p.finalizers, FINALIZER);
    LastStep(c, EXAMPLE_KEY, Got(p), ALL_WELL);
    assert OwnerExists(Run(c, EXAMPLE_KEY, ALL_WELL).0, "default", path.owners[0]);
  }

  lemma DrainedOf(s: Cluster, key: Key, uid: nat)
    requires key in s.policies ==> s.policies[key].uid != uid
    ensures !OwnsSome(CollectGarbage(s, s.paths.Keys), key, uid)
  {
    var g := CollectGarbage(s, s.paths.Keys);
    forall k, o | k in g.paths && k.namespace == key.namespace && o in g.paths[k].owners
      ensures !OwnedBy(o, key, uid)
    {
      SurvivingOwners(s, k.namespace, s.paths[k].owners, o);
    }
  }

  lemma StillOwned(s: Cluster, key: Key, uid: nat)
    requires key in s.policies && s.policies[key].uid == uid && OwnsSome(s, key, uid)
    ensures OwnsSome(CollectGarbage(s, s.paths.Keys), key, uid)
  {
    var k :| OwnsAt(s, key, uid, k);
    var o :| o in s.paths[k].owners && OwnedBy(o, key, uid);
    SurvivingOwners(s, k.namespace, s.paths[k].owners, o);
    assert OwnerExists(s, k.namespace, o);
    var g := CollectGarbage(s, s.paths.Keys);
    assert k in g.paths && o in g.paths[k].owners;
    assert OwnsAt(g, key, uid, k);
  }

  lemma NothingNewOwned(s: Cluster, key: Key, uid: nat)
    requires !OwnsSome(s, key, uid)
    ensures !OwnsSome(CollectGarbage(s, s.paths.Keys), key, uid)
  {
    var g := CollectGarbage(s, s.paths.Keys);
    forall k, o | k in g.paths && k.namespace == key.namespace && o in g.paths[k].owners
      ensures !OwnedBy(o, key, uid)
    {
      SurvivingOwners(s, k.namespace, s.paths[k].owners, o);
      assert !OwnsAt(s, key, uid, k);
    }
  }
}

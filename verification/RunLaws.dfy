/** Safety over whole runs of the controller among everybody else. */
module RunLaws {
  import opened LastWriter
  import opened Objects
  import opened Ownership
  import opened Pass
  import PassLaws
  import opened PathNames
  import opened Runs
  import opened Wrappers

  // What a step can write.

  /** A run starts with no pass under way and no path owned by a policy. */
  ghost predicate Initial(m: Machine) {
    && m.job.Idle? && Versioned(m.c) && PathsWellOwned(m.c)
    && forall k | k in m.c.paths :: Unpoliced(m.c.paths[k].owners)
  }

  /** Among the owners the policy with this UID is the only controller. */
  predicate SoleControllerIs(owners: seq<OwnerRef>, key: Key, uid: nat) {
    var ref := OwnerRef("cilion.cilion.io", "ScionPathPolicy", key.name, uid, true);
    ref in owners && forall o | o in owners && o.controller :: o == ref
  }

  lemma {:induction false} ControllerIsSole(owners: seq<OwnerRef>, ref: OwnerRef)
    requires WellOwned(owners) && ControllerOf(owners) == Some(ref)
    ensures forall o | o in owners && o.controller :: o == ref
  {
    if owners[0] != ref {
      ControllerIsSole(owners[1..], ref);
    }
  }

  /**
   * A pass's step changes at most the path of the peer it is at, while holding a live copy. The path allowed
   * it, and is then controlled by the policy and carries what the path service answered for that peer.
   */
  lemma StepWrites(m: Machine, w: World, k: Key)
    requires Good(m) && m.job.Running?
    requires var c' := Apply(m, StepJob(w)).c; k in c'.paths && (k in m.c.paths ==> c'.paths[k] != m.c.paths[k])
    ensures m.job.phase.Writing? && Live(m.job.phase.round.copy)
    ensures var (key, round, c') := (m.job.key, m.job.phase.round, Apply(m, StepJob(w)).c);
            var peer := round.peers[|round.results|];
            && k == PathKey(key, peer) && IsPathOf(k, key, peer)
            && Adoptable(PathAt(m.c.paths, k).owners, ControllerRef(key, round.copy))
            && Carries(c', k, ControllerRef(key, round.copy), SpecFor(key, peer, m.job.phase.found))
            && IsSpecOf(c'.paths[k].spec, key, peer, m.job.phase.found)
            && SoleControllerIs(c'.paths[k].owners, key, round.copy.uid)
            && (k !in m.c.paths ==> |c'.paths[k].owners| == 1)
            && OnlyUnder(m.c, c', {k}) && m.c.revision < c'.paths[k].resourceVersion
            && (forall o | o in c'.paths[k].owners ::
                  o == ControllerRef(key, round.copy) || o in PathAt(m.c.paths, k).owners)
  {
    var ph := m.job.phase;
    if ph.Writing? {
      WriteLands(m.c, m.job.key, ph.round, ph.found, ph.read, w);
      ControllerIsSole(Apply(m, StepJob(w)).c.paths[k].owners, ControllerRef(m.job.key, ph.round.copy));
    } else {
      OtherStepsKeepPaths(m.c, m.job.key, ph, w);
    }
  }

  lemma StepKeepsPaths(m: Machine, w: World, k: Key)
    requires k in m.c.paths
    ensures k in Apply(m, StepJob(w)).c.paths
  {
    if m.job.Running? && !m.job.phase.Writing? {
      OtherStepsKeepPaths(m.c, m.job.key, m.job.phase, w);
    }
  }

  // Ready is honest.

  /** For every listed peer a path is there, owned by the policy, with the spec of the last peer of that name. */
  ghost predicate EveryPeerServed(c: Cluster, key: Key, uid: nat, peers: seq<Peer>, results: seq<Fetch>)
    requires |results| == |peers| && AllReady(results)
  {
    forall i | 0 <= i < |peers| ::
      var k := Key(key.namespace, key.name + "-to-" + peers[i].name);
      && k in c.paths && SoleControllerIs(c.paths[k].owners, key, uid)
      && ((forall j | i < j < |peers| :: peers[j].name != peers[i].name) ==>
            IsSpecOf(c.paths[k].spec, key, peers[i], results[i]))
  }

  /** A pass in its loop ends, with this step, in success: the only way it writes a Ready condition. */
  predicate Reports(m: Machine, w: World) {
    m.job.Running? && m.job.phase.Loop? && StepPass(m.c, m.job.key, m.job.phase, w).1 == Ended(Done)
  }

  /**
   * The conditions with a Ready condition put in: in the place of the first there is, or else as the last. It is
   * true, and gives the generation it is about and the number of destinations.
   */
  ghost predicate ReadyPutIn(before: seq<Condition>, after: seq<Condition>, generation: nat, destinations: nat) {
    exists i | 0 <= i <= |before| ::
      && (forall j | 0 <= j < i :: before[j].kind != "Ready")
      && (i < |before| ==> before[i].kind == "Ready")
      && |after| == (if i < |before| then |before| else |before| + 1)
      && (forall j | 0 <= j < |before| && j != i :: after[j] == before[j])
      && IsReady(after[i], generation, destinations)
  }

  predicate IsReady(c: Condition, generation: nat, destinations: nat) {
    && c.kind == "Ready" && c.status && c.reason == "PathsComputed"
    && c.observedGeneration == generation && c.destinations == destinations
  }

  /** All a Ready condition says is so: about the policy, before and after the report, and about every peer. */
  ghost predicate Honest(m: Machine, w: World)
    requires m.job.Running? && m.job.phase.Loop?
  {
    var (key, round, c') := (m.job.key, m.job.phase.round, Apply(m, StepJob(w)).c);
    && key in m.c.policies && m.c.policies[key] == round.copy
    && !round.copy.deleting && "cilion.io/policy-finalizer" in round.copy.finalizers
    && |round.results| == |round.peers| && AllReady(round.results)
    && key in c'.policies && var (p, p') := (round.copy, c'.policies[key]);
    && p' == p.(conditions := p'.conditions, resourceVersion := p'.resourceVersion)
    && ReadyPutIn(p.conditions, p'.conditions, p'.generation, |round.peers|)
    && c' == m.c.(revision := c'.revision, policies := c'.policies) && c'.policies == m.c.policies[key := p']
    && EveryPeerServed(c', key, p.uid, round.peers, round.results)
  }

  /**
   * Ready is honest: over any run, whenever a pass reports Ready, anew or again, it found every peer it listed
   * ready, the stored policy is the one it read, the condition carries that policy's generation, and every listed
   * peer's path is in place.
   */
  lemma ReadyIsHonest(start: Machine, acts: seq<Action>, w: World)
    requires Initial(start) && Reports(Exec(start, acts), w)
    ensures Honest(Exec(start, acts), w)
  {
    ExecKeepsGood(start, acts);
    var m := Exec(start, acts);
    var round := m.job.phase.round;
    ReportsWhole(m.c, m.job.key, round, w);
    ReportPutsIn(round.copy, |round.peers|);
    LandedServes(m.c, m.job.key, round);
  }

  lemma ReportsWhole(c: Cluster, key: Key, r: Round, w: World)
    requires |r.results| <= |r.peers| && StepPass(c, key, Loop(r), w).1 == Ended(Done)
    requires Remembered(c, key, r.copy) && Live(r.copy)
    ensures |r.results| == |r.peers| && AllReady(r.results) && Current(c, key, r.copy)
    ensures var c' := StepPass(c, key, Loop(r), w).0;
            && key in c'.policies && var p' := c'.policies[key];
            && p' == Reported(r.copy, |r.peers|).(resourceVersion := p'.resourceVersion)
            && c' == c.(revision := c'.revision, policies := c'.policies) && c'.policies == c.policies[key := p']
  {
  }

  lemma ReportPutsIn(p: Policy, destinations: nat)
    ensures ReadyPutIn(p.conditions, Reported(p, destinations).conditions, p.generation, destinations)
  {
    var i := SetConditionExactly(p.conditions, ReadyCondition(p.generation, destinations));
    assert IsReady(Reported(p, destinations).conditions[i], p.generation, destinations);
  }

  /** Nothing but such a report changes a stored policy's conditions. */
  lemma OnlyReportsChangeConditions(start: Machine, acts: seq<Action>, a: Action, key: Key)
    requires Initial(start)
    requires var (c, c') := (Exec(start, acts).c, Apply(Exec(start, acts), a).c);
             key in c.policies && key in c'.policies && c'.policies[key].conditions != c.policies[key].conditions
    ensures a.StepJob? && Reports(Exec(start, acts), a.w) && Exec(start, acts).job.key == key
    ensures Honest(Exec(start, acts), a.w)
  {
    var m := Exec(start, acts);
    ExecKeepsGood(start, acts);
    if a.StepJob? && m.job.Running? {
      OtherStepsKeepConditions(m.c, m.job.key, m.job.phase, a.w, key);
      ReadyIsHonest(start, acts, a.w);
    }
  }

  lemma OtherStepsKeepConditions(c: Cluster, key: Key, ph: Phase, w: World, k: Key)
    requires GoodPhase(c, key, ph) && k in c.policies && k in StepPass(c, key, ph, w).0.policies
    ensures StepPass(c, key, ph, w).0.policies[k].conditions == c.policies[k].conditions
         || (ph.Loop? && k == key && StepPass(c, key, ph, w).1 == Ended(Done))
  {
  }

  lemma LandedServes(c: Cluster, key: Key, r: Round)
    requires |r.results| == |r.peers| && AllReady(r.results) && Landed(c, key, r) && PathsWellOwned(c)
    ensures EveryPeerServed(c, key, r.copy.uid, r.peers, r.results)
  {
    var peers, results := r.peers, r.results;
    forall i | 0 <= i < |peers|
      ensures PathKey(key, peers[i]) in Wanted(key, peers, results)
      ensures (forall j | i < j < |peers| :: peers[j].name != peers[i].name)
              ==> Wanted(key, peers, results)[PathKey(key, peers[i])] == SpecFor(key, peers[i], results[i])
    {
      ReadyIsWanted(key, peers, results, i);
      var last := WantedFromLastReady(key, peers, results, PathKey(key, peers[i]));
      PeerNameInjective(key.name, peers[last].name, peers[i].name);
    }
    forall i | 0 <= i < |peers|
      ensures var k := Key(key.namespace, key.name + "-to-" + peers[i].name);
              k == PathKey(key, peers[i]) && k in c.paths && SoleControllerIs(c.paths[k].owners, key, r.copy.uid)
    {
      ControllerIsSole(c.paths[PathKey(key, peers[i])].owners, ControllerRef(key, r.copy));
    }
  }

  // What a generation stands for.

  /** What a generation of a policy stands for. */
  predicate SameIntent(p: Policy, p': Policy) {
    p.selector == p'.selector && p.preference == p'.preference && p.deleting == p'.deleting
  }

  lemma GenerationAfter(m: Machine, a: Action, key: Key, uid: nat)
    requires Good(m) && Stored(Apply(m, a).c, key, uid) && uid <= m.c.revision
    ensures Stored(m.c, key, uid)
    ensures var (p, p') := (m.c.policies[key], Apply(m, a).c.policies[key]);
            p.generation <= p'.generation && (p.generation == p'.generation ==> SameIntent(p, p'))
  {
    if a.StepJob? && m.job.Running? {
      StepKeepsKeys(m.c, m.job.key, m.job.phase, a.w);
      if m.job.key == key {
        StepKeepsIntent(m.c, key, m.job.phase, a.w);
      }
    }
  }

  /** Neither a finalizer nor a status that a pass writes changes the generation or what it stands for. */
  lemma StepKeepsIntent(c: Cluster, key: Key, ph: Phase, w: World)
    requires GoodPhase(c, key, ph) && key in c.policies && key in StepPass(c, key, ph, w).0.policies
    ensures var (p, p') := (c.policies[key], StepPass(c, key, ph, w).0.policies[key]);
            p'.uid == p.uid && p'.generation == p.generation && SameIntent(p, p')
  {
  }

  /**
   * A generation stands for one spec: over any run a policy's generation never falls, and as long as it is the
   * same, so are the selector, the preference and whether the policy is being deleted. So the generation in an
   * honest Ready condition tells which spec it is about.
   */
  lemma {:induction false} GenerationTellsSpec(m: Machine, acts: seq<Action>, key: Key, uid: nat)
    requires Good(m) && uid <= m.c.revision && Stored(Exec(m, acts).c, key, uid)
    ensures Stored(m.c, key, uid)
    ensures var (p, p') := (m.c.policies[key], Exec(m, acts).c.policies[key]);
            p.generation <= p'.generation && (p.generation == p'.generation ==> SameIntent(p, p'))
  {
    if acts != [] {
      var before := acts[..|acts| - 1];
      ExecKeepsGood(m, before);
      RevisionNeverFalls(m, before);
      GenerationAfter(Exec(m, before), acts[|acts| - 1], key, uid);
      GenerationTellsSpec(m, before, key, uid);
    }
  }

  lemma {:induction false} RevisionNeverFalls(m: Machine, acts: seq<Action>)
    ensures m.c.revision <= Exec(m, acts).c.revision
  {
    if acts != [] {
      var before, a := Exec(m, acts[..|acts| - 1]), acts[|acts| - 1];
      RevisionNeverFalls(m, acts[..|acts| - 1]);
      if a.StepJob? && before.job.Running? {
        StepKeepsKeys(before.c, before.job.key, before.job.phase, a.w);
      }
    }
  }

  // Policies do not touch each other's paths.

  /** A pass's step only changes paths that its own policy, by name and namespace, controls or that nobody does. */
  lemma OnlyOwnPathsChange(m: Machine, w: World, k: Key)
    requires Good(m) && k in m.c.paths && ControllerOf(m.c.paths[k].owners).Some?
    requires Apply(m, StepJob(w)).c.paths[k] != m.c.paths[k]
    requires k in Apply(m, StepJob(w)).c.paths
    ensures m.job.Running? && IsPolicyRef(ControllerOf(m.c.paths[k].owners).value)
    ensures m.job.key == Key(k.namespace, ControllerOf(m.c.paths[k].owners).value.name)
  {
    if m.job.Running? {
      StepWrites(m, w, k);
    }
  }

  /** The policy a reference names lives throughout the run, and no pass for it takes place. */
  ghost predicate Undisturbed(m: Machine, acts: seq<Action>, namespace: string, r: OwnerRef) {
    && (forall n | 0 <= n <= |acts| :: OwnerExists(Exec(m, acts[..n]).c, namespace, r))
    && (forall n | 0 <= n <= |acts| ::
          var job := Exec(m, acts[..n]).job; job.Running? ==> job.key != Key(namespace, r.name))
  }

  /**
   * Non-interference: while a policy lives and no pass for it runs, the paths it controls keep their controller
   * and their spec, whatever passes for other policies do, even those whose generated names clash with theirs.
   */
  lemma {:induction false} OthersPathsSurvive(m: Machine, acts: seq<Action>, k: Key, r: OwnerRef)
    requires Good(m) && k in m.c.paths && ControllerOf(m.c.paths[k].owners) == Some(r) && IsPolicyRef(r)
    requires Undisturbed(m, acts, k.namespace, r)
    ensures var c := Exec(m, acts).c;
            k in c.paths && ControllerOf(c.paths[k].owners) == Some(r) && c.paths[k].spec == m.c.paths[k].spec
  {
    if acts != [] {
      var before, a := acts[..|acts| - 1], acts[|acts| - 1];
      assert forall n | 0 <= n <= |before| :: before[..n] == acts[..n];
      OthersPathsSurvive(m, before, k, r);
      ExecKeepsGood(m, before);
      assert acts[..|before|] == before;
      PathKept(Exec(m, before), a, k, r);
    }
  }

  lemma PathKept(m: Machine, a: Action, k: Key, r: OwnerRef)
    requires Good(m) && k in m.c.paths && ControllerOf(m.c.paths[k].owners) == Some(r) && IsPolicyRef(r)
    requires OwnerExists(m.c, k.namespace, r)
    requires m.job.Running? ==> m.job.key != Key(k.namespace, r.name)
    ensures var c := Apply(m, a).c;
            k in c.paths && ControllerOf(c.paths[k].owners) == Some(r) && c.paths[k].spec == m.c.paths[k].spec
  {
    assert r in m.c.paths[k].owners;
    if a.Collect? {
      CollectKeepsControlled(m.c, a.ks, k, r);
    } else if a.StepJob? && m.job.Running? {
      StepKeepsPaths(m, a.w, k);
      if Apply(m, a).c.paths[k] != m.c.paths[k] {
        OnlyOwnPathsChange(m, a.w, k);
      }
    }
  }

  // Deletion is final.

  predicate Stored(c: Cluster, key: Key, uid: nat) {
    key in c.policies && c.policies[key].uid == uid
  }

  /** A pass holds the policy as it was before its deletion. */
  predicate HoldsLiveCopy(job: Job, key: Key, uid: nat) {
    && job.Running? && job.key == key
    && ((job.phase.Got? && job.phase.copy.uid == uid && Live(job.phase.copy))
        || (job.phase.InLoop() && job.phase.round.copy.uid == uid))
  }

  /** The policy with this UID is being deleted or gone, and no pass goes on as if it were not. */
  predicate Doomed(m: Machine, key: Key, uid: nat) {
    && uid <= m.c.revision
    && (Stored(m.c, key, uid) ==> m.c.policies[key].deleting)
    && !HoldsLiveCopy(m.job, key, uid)
  }

  lemma DoomedStays(m: Machine, a: Action, key: Key, uid: nat)
    requires Good(m) && Doomed(m, key, uid)
    ensures Doomed(Apply(m, a), key, uid)
  {
    if a.StepJob? && m.job.Running? {
      PhaseAfter(m.c, m.job.key, m.job.phase, a.w);
      StepKeepsKeys(m.c, m.job.key, m.job.phase, a.w);
      if m.job.key == key && key in m.c.policies {
        StepKeepsDeleting(m.c, key, m.job.phase, a.w);
      }
    }
  }

  /** No step of a pass undoes a deletion: a copy from before it would be refused. */
  lemma StepKeepsDeleting(c: Cluster, key: Key, ph: Phase, w: World)
    requires GoodPhase(c, key, ph) && key in c.policies
    ensures var c' := StepPass(c, key, ph, w).0;
            key in c'.policies ==>
              c'.policies[key].uid == c.policies[key].uid && c'.policies[key].deleting == c.policies[key].deleting
  {
  }

  /** No step of a pass creates a policy, and what it writes keeps the UID of the copy it read. */
  lemma StepKeepsKeys(c: Cluster, key: Key, ph: Phase, w: World)
    ensures var c' := StepPass(c, key, ph, w).0;
            && c.revision <= c'.revision
            && (forall k | k in c'.policies :: k in c.policies && (k != key ==> c'.policies[k] == c.policies[k]))
            && (key in c'.policies && c'.policies[key] != c.policies[key] ==>
                  || (ph.Got? && c'.policies[key].uid == ph.copy.uid)
                  || (ph.Loop? && c'.policies[key].uid == ph.round.copy.uid))
  {
  }

  /** A doomed policy comes to own no path, and loses those that are collected once it is gone. */
  lemma OwnedWhileDoomed(m: Machine, a: Action, key: Key, uid: nat, k: Key)
    requires Good(m) && Doomed(m, key, uid) && PassLaws.OwnsAt(Apply(m, a).c, key, uid, k)
    ensures PassLaws.OwnsAt(m.c, key, uid, k) && !(a.Collect? && k in a.ks && !Stored(m.c, key, uid))
  {
    var o :| o in Apply(m, a).c.paths[k].owners && PassLaws.OwnedBy(o, key, uid);
    if a.Collect? {
      SurvivingOwners(m.c, k.namespace, m.c.paths[k].owners, o);
    } else if a.StepJob? && m.job.Running? && !(k in m.c.paths && Apply(m, a).c.paths[k] == m.c.paths[k]) {
      StepWrites(m, a.w, k);
    }
  }

  /** At some moment of the run garbage collection looked at this path while the policy was gone. */
  ghost predicate Swept(m: Machine, acts: seq<Action>, key: Key, uid: nat, k: Key) {
    exists n :: SweptAt(m, acts, n, key, uid, k)
  }

  predicate SweptAt(m: Machine, acts: seq<Action>, n: int, key: Key, uid: nat, k: Key) {
    0 <= n < |acts| && acts[n].Collect? && k in acts[n].ks && !Stored(Exec(m, acts[..n]).c, key, uid)
  }

  lemma SweptAgain(m: Machine, before: seq<Action>, a: Action, key: Key, uid: nat, k: Key)
    requires Swept(m, before + [a], key, uid, k)
    ensures Swept(m, before, key, uid, k) || (a.Collect? && k in a.ks && !Stored(Exec(m, before).c, key, uid))
  {
    var n :| SweptAt(m, before + [a], n, key, uid, k);
    if n < |before| {
      assert (before + [a])[..n] == before[..n];
      assert SweptAt(m, before, n, key, uid, k);
    } else {
      assert (before + [a])[..n] == before;
    }
  }

  lemma {:induction false} OwnedSince(m: Machine, acts: seq<Action>, key: Key, uid: nat, k: Key)
    requires Good(m) && Doomed(m, key, uid)
    ensures Doomed(Exec(m, acts), key, uid)
    ensures PassLaws.OwnsAt(Exec(m, acts).c, key, uid, k) ==>
              PassLaws.OwnsAt(m.c, key, uid, k) && !Swept(m, acts, key, uid, k)
  {
    if acts != [] {
      var before, a := acts[..|acts| - 1], acts[|acts| - 1];
      assert acts == before + [a];
      ExecKeepsGood(m, before);
      OwnedSince(m, before, key, uid, k);
      DoomedStays(Exec(m, before), a, key, uid);
      if PassLaws.OwnsAt(Exec(m, acts).c, key, uid, k) {
        OwnedWhileDoomed(Exec(m, before), a, key, uid, k);
        if Swept(m, acts, key, uid, k) {
          SweptAgain(m, before, a, key, uid, k);
        }
      }
    }
  }

  /**
   * Deletion is final. Once a policy is being deleted, whoever removes it in the end, and no pass still holds it as
   * it was before, then whatever happens before and after: the policy with that UID comes to own no path again,
   * and loses each path it owned for good once garbage collection has looked at it with the policy gone.
   */
  lemma DeletionIsFinal(start: Machine, acts: seq<Action>, later: seq<Action>, key: Key, uid: nat)
    requires Initial(start) && Doomed(Exec(start, acts), key, uid)
    ensures var m := Exec(start, acts);
            var e := Exec(m, later);
            && (forall k | PassLaws.OwnsAt(e.c, key, uid, k) ::
                  PassLaws.OwnsAt(m.c, key, uid, k) && !Swept(m, later, key, uid, k))
            && ((forall k | PassLaws.OwnsAt(m.c, key, uid, k) :: Swept(m, later, key, uid, k)) ==>
                  !PassLaws.OwnsSome(e.c, key, uid))
  {
    var m := Exec(start, acts);
    ExecKeepsGood(start, acts);
    forall k | PassLaws.OwnsAt(Exec(m, later).c, key, uid, k)
      ensures PassLaws.OwnsAt(m.c, key, uid, k) && !Swept(m, later, key, uid, k)
    {
      OwnedSince(m, later, key, uid, k);
    }
  }

  /** A step of a pass that removes its policy leaves it doomed and gone. */
  lemma ReleaseDooms(start: Machine, acts: seq<Action>, w: World)
    requires Initial(start)
    requires var m := Exec(start, acts);
             m.job.Running? && m.job.key in m.c.policies && m.job.key !in Apply(m, StepJob(w)).c.policies
    ensures var m := Exec(start, acts);
            Doomed(Apply(m, StepJob(w)), m.job.key, m.c.policies[m.job.key].uid)
  {
    var m := Exec(start, acts);
    ExecKeepsGood(start, acts);
    StepKeepsKeys(m.c, m.job.key, m.job.phase, w);
    RemovalEndsPass(m.c, m.job.key, m.job.phase, w);
  }

  lemma RemovalEndsPass(c: Cluster, key: Key, ph: Phase, w: World)
    requires key in c.policies && key !in StepPass(c, key, ph, w).0.policies
    ensures StepPass(c, key, ph, w).1.Ended?
  {
  }

  ghost predicate Missing(m: Machine, key: Key) {
    key !in m.c.policies && (m.job.Running? && m.job.key == key ==> m.job.phase.Begin?)
  }

  lemma MissingStays(m: Machine, a: Action, key: Key)
    requires Missing(m, key) && !(a.CreatePolicy? && a.key == key)
    ensures Missing(Apply(m, a), key)
  {
    if a.StepJob? && m.job.Running? {
      PhaseAfter(m.c, m.job.key, m.job.phase, a.w);
      StepKeepsKeys(m.c, m.job.key, m.job.phase, a.w);
    }
  }

  /** Until it is created again, requests for a missing policy leave the store as it is at every step. */
  lemma {:induction false} MissingPolicyIsInert(m: Machine, acts: seq<Action>, key: Key)
    requires Missing(m, key)
    requires forall a | a in acts :: !(a.CreatePolicy? && a.key == key)
    ensures var e := Exec(m, acts);
            && key !in e.c.policies
            && (e.job.Running? && e.job.key == key ==> forall w :: Apply(e, StepJob(w)) == e.(job := Idle))
  {
    MissingThroughout(m, acts, key);
  }

  lemma {:induction false} MissingThroughout(m: Machine, acts: seq<Action>, key: Key)
    requires Missing(m, key)
    requires forall a | a in acts :: !(a.CreatePolicy? && a.key == key)
    ensures Missing(Exec(m, acts), key)
  {
    if acts != [] {
      var before, a := acts[..|acts| - 1], acts[|acts| - 1];
      assert a in acts;
      MissingThroughout(m, before, key);
      MissingStays(Exec(m, before), a, key);
    }
  }
}

/** Where every computed path comes from: the run that made it, step by step. */
module Provenance {
  import opened LastWriter
  import opened Objects
  import opened Ownership
  import opened Pass
  import opened RunLaws
  import opened Runs
  import opened Wrappers

  /** The machine after the first `n` actions. */
  function At(m: Machine, acts: seq<Action>, n: nat): Machine
    requires n <= |acts|
  {
    Exec(m, acts[..n])
  }

  // What happened at one moment of a run.

  /** A pass read the policy as it was stored. */
  ghost predicate ReadAt(m: Machine, acts: seq<Action>, n: nat, key: Key, copy: Policy) {
    && n < |acts| && At(m, acts, n).job == Running(key, Begin) && At(m, acts, n + 1).job == Running(key, Got(copy))
    && key in At(m, acts, n).c.policies && At(m, acts, n).c.policies[key] == copy
  }

  /** The pass listed the stored peers. */
  ghost predicate ListedAt(m: Machine, acts: seq<Action>, n: nat, key: Key, copy: Policy, peers: seq<Peer>) {
    && n < |acts| && At(m, acts, n).job == Running(key, Got(copy)) && At(m, acts, n).c.peers == peers
    && At(m, acts, n + 1).job == Running(key, Loop(Round(copy, peers, [])))
  }

  /** The path service answered `found` about the peer the pass was at. */
  ghost predicate FetchedAt(m: Machine, acts: seq<Action>, n: nat, key: Key, r: Round, found: Fetch)
    requires |r.results| < |r.peers|
  {
    && n < |acts| && At(m, acts, n).job == Running(key, Loop(r)) && acts[n].StepJob? && r.copy.preference.Some?
    && found == acts[n].w.fetch(|r.results|, r.peers[|r.results|].remoteAS, r.copy.preference.value)
  }

  /** The pass stored that answer in the peer's path. */
  ghost predicate WroteAt(m: Machine, acts: seq<Action>, n: nat, key: Key, r: Round, found: Fetch)
    requires |r.results| < |r.peers| && found.Ready?
  {
    && n < |acts| && acts[n].StepJob?
    && var (before, after) := (At(m, acts, n), At(m, acts, n + 1));
    && before.job.Running? && before.job.key == key && before.job.phase.Writing?
    && before.job.phase.round == r && before.job.phase.found == found
    && var peer := r.peers[|r.results|];
    && var k := Key(key.namespace, key.name + "-to-" + peer.name);
    && k in after.c.paths && SoleControllerIs(after.c.paths[k].owners, key, r.copy.uid)
    && IsSpecOf(after.c.paths[k].spec, key, peer, found)
    && before.c.revision < after.c.paths[k].resourceVersion
  }

  /** One and the same pass was under way throughout. */
  ghost predicate Working(m: Machine, acts: seq<Action>, lo: nat, hi: nat, key: Key) {
    hi <= |acts| && forall n | lo <= n <= hi :: At(m, acts, n).job.Running? && At(m, acts, n).job.key == key
  }

  /** The moments of one pass at which it read the policy, listed the peers, and fetched and wrote one path. */
  datatype Origin = Origin(read: nat, listed: nat, fetched: nat, wrote: nat)

  /** One pass read the live policy, then listed its peers, then got this answer for one of them, then stored it. */
  ghost predicate Made(m: Machine, acts: seq<Action>, o: Origin, key: Key, r: Round, found: Fetch) {
    && |r.results| < |r.peers| && found.Ready?
    && !r.copy.deleting && "cilion.io/policy-finalizer" in r.copy.finalizers
    && o.read < o.listed < o.fetched < o.wrote && Working(m, acts, o.read, o.wrote, key)
    && ReadAt(m, acts, o.read, key, r.copy)
    && ListedAt(m, acts, o.listed, key, r.copy, r.peers)
    && FetchedAt(m, acts, o.fetched, key, r, found)
    && WroteAt(m, acts, o.wrote, key, r, found)
  }

  /** A path that a policy controls was made so by a pass for the policy with that UID, and its spec with it. */
  ghost predicate Explained(m: Machine, acts: seq<Action>, k: Key, path: ComputedPath) {
    ControllerOf(path.owners).Some? && IsPolicyRef(ControllerOf(path.owners).value) ==>
      var ref := ControllerOf(path.owners).value;
      exists o, r, found :: IsOf(m, acts, o, Key(k.namespace, ref.name), r, found, k, ref, path.spec)
  }

  ghost predicate IsOf(m: Machine, acts: seq<Action>, o: Origin, key: Key, r: Round, found: Fetch,
                       k: Key, ref: OwnerRef, spec: PathSpec) {
    && Made(m, acts, o, key, r, found)
    && IsPathOf(k, key, r.peers[|r.results|])
    && ref == OwnerRef("cilion.cilion.io", "ScionPathPolicy", key.name, r.copy.uid, true)
    && IsSpecOf(spec, key, r.peers[|r.results|], found)
  }

  /** How the pass under way has got to where it stands. */
  ghost predicate Traced(m: Machine, acts: seq<Action>, o: Origin, key: Key, ph: Phase) {
    && (ph.Got? ==> Working(m, acts, o.read, |acts|, key) && ReadAt(m, acts, o.read, key, ph.copy))
    && (ph.InLoop() ==>
          && Live(ph.round.copy) && o.read < o.listed && Working(m, acts, o.read, |acts|, key)
          && ReadAt(m, acts, o.read, key, ph.round.copy)
          && ListedAt(m, acts, o.listed, key, ph.round.copy, ph.round.peers))
    && (ph.AtPath() ==> o.listed < o.fetched && FetchedAt(m, acts, o.fetched, key, ph.round, ph.found))
  }

  ghost predicate AllExplained(m: Machine, acts: seq<Action>) {
    var now := Exec(m, acts);
    && (now.job.Running? ==> exists o :: Traced(m, acts, o, now.job.key, now.job.phase))
    && (forall k | k in now.c.paths :: Explained(m, acts, k, now.c.paths[k]))
  }

  // One more action.

  lemma AtLonger(m: Machine, acts: seq<Action>, a: Action, n: nat)
    requires n <= |acts|
    ensures At(m, acts + [a], n) == At(m, acts, n)
  {
    assert (acts + [a])[..n] == acts[..n];
  }

  /** The moments before and after the last action. */
  lemma AtTheEnd(m: Machine, acts: seq<Action>, a: Action)
    ensures At(m, acts, |acts|) == At(m, acts + [a], |acts|) == Exec(m, acts)
    ensures At(m, acts + [a], |acts| + 1) == Apply(Exec(m, acts), a) == Exec(m, acts + [a])
  {
    assert acts[..|acts|] == acts;
    assert (acts + [a])[..|acts| + 1] == acts + [a];
    assert (acts + [a])[..|acts|] == acts;
  }

  lemma WorkingLonger(m: Machine, acts: seq<Action>, a: Action, lo: nat, hi: nat, key: Key)
    requires Working(m, acts, lo, hi, key)
    ensures Working(m, acts + [a], lo, hi, key)
  {
    forall n | lo <= n <= hi
      ensures At(m, acts + [a], n).job.Running? && At(m, acts + [a], n).job.key == key
    {
      AtLonger(m, acts, a, n);
    }
  }

  lemma StillWorking(m: Machine, acts: seq<Action>, a: Action, lo: nat, key: Key)
    requires Working(m, acts, lo, |acts|, key)
    requires Exec(m, acts + [a]).job.Running? && Exec(m, acts + [a]).job.key == key
    ensures Working(m, acts + [a], lo, |acts| + 1, key)
  {
    AtTheEnd(m, acts, a);
    WorkingLonger(m, acts, a, lo, |acts|, key);
  }

  lemma ReadLonger(m: Machine, acts: seq<Action>, a: Action, n: nat, key: Key, copy: Policy)
    requires ReadAt(m, acts, n, key, copy)
    ensures ReadAt(m, acts + [a], n, key, copy)
  {
    AtLonger(m, acts, a, n);
    AtLonger(m, acts, a, n + 1);
  }

  lemma ListedLonger(m: Machine, acts: seq<Action>, a: Action, n: nat, key: Key, copy: Policy, peers: seq<Peer>)
    requires ListedAt(m, acts, n, key, copy, peers)
    ensures ListedAt(m, acts + [a], n, key, copy, peers)
  {
    AtLonger(m, acts, a, n);
    AtLonger(m, acts, a, n + 1);
  }

  lemma FetchedLonger(m: Machine, acts: seq<Action>, a: Action, n: nat, key: Key, r: Round, found: Fetch)
    requires |r.results| < |r.peers| && FetchedAt(m, acts, n, key, r, found)
    ensures FetchedAt(m, acts + [a], n, key, r, found)
  {
    AtLonger(m, acts, a, n);
  }

  lemma MadeLonger(m: Machine, acts: seq<Action>, a: Action, o: Origin, key: Key, r: Round, found: Fetch)
    requires Made(m, acts, o, key, r, found)
    ensures Made(m, acts + [a], o, key, r, found)
  {
    WorkingLonger(m, acts, a, o.read, o.wrote, key);
    ReadLonger(m, acts, a, o.read, key, r.copy);
    ListedLonger(m, acts, a, o.listed, key, r.copy, r.peers);
    FetchedLonger(m, acts, a, o.fetched, key, r, found);
    WroteLonger(m, acts, a, o.wrote, key, r, found);
  }

  lemma WroteLonger(m: Machine, acts: seq<Action>, a: Action, n: nat, key: Key, r: Round, found: Fetch)
    requires |r.results| < |r.peers| && found.Ready? && WroteAt(m, acts, n, key, r, found)
    ensures WroteAt(m, acts + [a], n, key, r, found)
  {
    AtLonger(m, acts, a, n);
    AtLonger(m, acts, a, n + 1);
  }

  lemma ExplainedLonger(m: Machine, acts: seq<Action>, a: Action, k: Key, path: ComputedPath)
    requires Explained(m, acts, k, path)
    ensures Explained(m, acts + [a], k, path)
  {
    if ControllerOf(path.owners).Some? && IsPolicyRef(ControllerOf(path.owners).value) {
      var ref := ControllerOf(path.owners).value;
      var o, r, found :| IsOf(m, acts, o, Key(k.namespace, ref.name), r, found, k, ref, path.spec);
      MadeLonger(m, acts, a, o, Key(k.namespace, ref.name), r, found);
      assert IsOf(m, acts + [a], o, Key(k.namespace, ref.name), r, found, k, ref, path.spec);
    }
  }

  /** An action that leaves the pass where it is leaves it traced. */
  lemma TracedLonger(m: Machine, acts: seq<Action>, a: Action, o: Origin, key: Key, ph: Phase)
    requires Traced(m, acts, o, key, ph)
    requires Exec(m, acts + [a]).job.Running? && Exec(m, acts + [a]).job.key == key
    ensures Traced(m, acts + [a], o, key, ph)
  {
    if ph.Got? {
      StillWorking(m, acts, a, o.read, key);
      ReadLonger(m, acts, a, o.read, key, ph.copy);
    } else if ph.InLoop() {
      StillWorking(m, acts, a, o.read, key);
      ReadLonger(m, acts, a, o.read, key, ph.round.copy);
      ListedLonger(m, acts, a, o.listed, key, ph.round.copy, ph.round.peers);
      if ph.AtPath() {
        FetchedLonger(m, acts, a, o.fetched, key, ph.round, ph.found);
      }
    }
  }

  /** A step of the pass adds the moment it stands for. */
  lemma TracedStep(m: Machine, acts: seq<Action>, w: World, o: Origin) returns (o': Origin)
    requires var now := Exec(m, acts); now.job.Running? && Traced(m, acts, o, now.job.key, now.job.phase)
    requires Exec(m, acts + [StepJob(w)]).job.Running?
    ensures var now := Exec(m, acts + [StepJob(w)]); Traced(m, acts + [StepJob(w)], o', now.job.key, now.job.phase)
  {
    var ph := Exec(m, acts).job.phase;
    if ph.Begin? {
      o' := o.(read := |acts|);
      ReadNow(m, acts, w);
      TracedRead(m, acts, w, o');
    } else if ph.Got? {
      o' := o.(listed := |acts|);
      TracedList(m, acts, w, o');
    } else {
      o' := if ph.Loop? then o.(fetched := |acts|) else o;
      TracedLoop(m, acts, w, o, o');
    }
  }

  lemma ReadNow(m: Machine, acts: seq<Action>, w: World)
    requires Exec(m, acts).job.Running? && Exec(m, acts).job.phase.Begin? && Exec(m, acts + [StepJob(w)]).job.Running?
    ensures var (now, job) := (Exec(m, acts), Exec(m, acts + [StepJob(w)]).job);
            job.key == now.job.key && job.phase.Got? && ReadAt(m, acts + [StepJob(w)], |acts|, job.key, job.phase.copy)
  {
    AtTheEnd(m, acts, StepJob(w));
  }

  lemma TracedRead(m: Machine, acts: seq<Action>, w: World, o: Origin)
    requires var job := Exec(m, acts + [StepJob(w)]).job;
             && Exec(m, acts).job.Running? && job.Running? && job.key == Exec(m, acts).job.key && job.phase.Got?
             && o.read == |acts| && ReadAt(m, acts + [StepJob(w)], |acts|, job.key, job.phase.copy)
    ensures var job := Exec(m, acts + [StepJob(w)]).job; Traced(m, acts + [StepJob(w)], o, job.key, job.phase)
  {
    WorkingNow(m, acts, StepJob(w), Exec(m, acts).job.key);
    TracedGot(m, acts + [StepJob(w)], o, Exec(m, acts).job.key, Exec(m, acts + [StepJob(w)]).job.phase);
  }

  lemma WorkingNow(m: Machine, acts: seq<Action>, a: Action, key: Key)
    requires Exec(m, acts).job.Running? && Exec(m, acts).job.key == key
    requires Exec(m, acts + [a]).job.Running? && Exec(m, acts + [a]).job.key == key
    ensures Working(m, acts + [a], |acts|, |acts| + 1, key)
  {
    AtTheEnd(m, acts, a);
  }

  lemma TracedGot(m: Machine, acts: seq<Action>, o: Origin, key: Key, ph: Phase)
    requires ph.Got? && Working(m, acts, o.read, |acts|, key) && ReadAt(m, acts, o.read, key, ph.copy)
    ensures Traced(m, acts, o, key, ph)
  {
  }

  lemma TracedList(m: Machine, acts: seq<Action>, w: World, o: Origin)
    requires var now := Exec(m, acts);
             && now.job.Running? && now.job.phase.Got? && o.listed == |acts|
             && Traced(m, acts, o, now.job.key, now.job.phase)
    requires Exec(m, acts + [StepJob(w)]).job.Running?
    ensures var job := Exec(m, acts + [StepJob(w)]).job; Traced(m, acts + [StepJob(w)], o, job.key, job.phase)
  {
    var a, key, copy := StepJob(w), Exec(m, acts).job.key, Exec(m, acts).job.phase.copy;
    AtTheEnd(m, acts, a);
    PhaseAfter(Exec(m, acts).c, key, Got(copy), w);
    StillWorking(m, acts, a, o.read, key);
    ReadLonger(m, acts, a, o.read, key, copy);
  }

  lemma TracedLoop(m: Machine, acts: seq<Action>, w: World, o: Origin, o': Origin)
    requires var now := Exec(m, acts);
             && now.job.Running? && now.job.phase.InLoop() && Traced(m, acts, o, now.job.key, now.job.phase)
             && o' == if now.job.phase.Loop? then o.(fetched := |acts|) else o
    requires Exec(m, acts + [StepJob(w)]).job.Running?
    ensures var job := Exec(m, acts + [StepJob(w)]).job; Traced(m, acts + [StepJob(w)], o', job.key, job.phase)
  {
    var a, key, ph, ph' :=
      StepJob(w), Exec(m, acts).job.key, Exec(m, acts).job.phase, Exec(m, acts + [StepJob(w)]).job.phase;
    AtTheEnd(m, acts, a);
    PhaseAfter(Exec(m, acts).c, key, ph, w);
    StillWorking(m, acts, a, o.read, key);
    if ph'.AtPath() {
      if ph.Loop? {
        FetchedNow(m, acts, w);
      } else {
        FetchedLonger(m, acts, a, o.fetched, key, ph.round, ph.found);
      }
    }
    TracedOn(m, acts, a, o, o', key, ph, ph');
  }

  lemma TracedOn(m: Machine, acts: seq<Action>, a: Action, o: Origin, o': Origin, key: Key, ph: Phase, ph': Phase)
    requires Traced(m, acts, o, key, ph) && ph.InLoop() && ph'.InLoop()
    requires ph'.round.copy == ph.round.copy && ph'.round.peers == ph.round.peers
    requires Working(m, acts + [a], o.read, |acts| + 1, key) && o'.read == o.read && o'.listed == o.listed < |acts|
    requires ph'.AtPath() ==> o'.listed < o'.fetched && FetchedAt(m, acts + [a], o'.fetched, key, ph'.round, ph'.found)
    ensures Traced(m, acts + [a], o', key, ph')
  {
    ReadLonger(m, acts, a, o.read, key, ph.round.copy);
    ListedLonger(m, acts, a, o.listed, key, ph.round.copy, ph.round.peers);
  }

  lemma FetchedNow(m: Machine, acts: seq<Action>, w: World)
    requires Exec(m, acts).job.Running? && Exec(m, acts).job.phase.Loop?
    requires Exec(m, acts + [StepJob(w)]).job.Running? && Exec(m, acts + [StepJob(w)]).job.phase.AtPath()
    ensures var (now, ph) := (Exec(m, acts), Exec(m, acts + [StepJob(w)]).job.phase);
            && ph.round == now.job.phase.round
            && FetchedAt(m, acts + [StepJob(w)], |acts|, now.job.key, ph.round, ph.found)
  {
    AtTheEnd(m, acts, StepJob(w));
  }

  lemma TracedAfter(m: Machine, acts: seq<Action>, a: Action)
    requires AllExplained(m, acts) && Exec(m, acts + [a]).job.Running?
    ensures var now := Exec(m, acts + [a]); exists o :: Traced(m, acts + [a], o, now.job.key, now.job.phase)
  {
    var now, next := Exec(m, acts), Exec(m, acts + [a]);
    AtTheEnd(m, acts, a);
    if now.job.Idle? {
      assert Traced(m, acts + [a], Origin(0, 0, 0, 0), next.job.key, next.job.phase);
    } else {
      var o :| Traced(m, acts, o, now.job.key, now.job.phase);
      if a.StepJob? {
        var o' := TracedStep(m, acts, a.w, o);
      } else {
        TracedLonger(m, acts, a, o, now.job.key, now.job.phase);
      }
    }
  }

  // Every path is explained.

  /** An action other than a pass's write leaves each path alone, drops dead owners, or deals in unpoliced paths. */
  lemma PathAfter(m: Machine, a: Action, k: Key)
    requires Good(m) && k in Apply(m, a).c.paths
    requires !(a.StepJob? && m.job.Running? && m.job.phase.Writing?)
    ensures var p := Apply(m, a).c.paths[k];
            || Unpoliced(p.owners)
            || (k in m.c.paths && p.spec == m.c.paths[k].spec
                && (ControllerOf(p.owners).Some? && IsPolicyRef(ControllerOf(p.owners).value)
                    ==> ControllerOf(p.owners) == ControllerOf(m.c.paths[k].owners)))
  {
    if a.Collect? && k in a.ks {
      var p := Apply(m, a).c.paths[k];
      if ControllerOf(p.owners).Some? && IsPolicyRef(ControllerOf(p.owners).value) {
        var o := ControllerOf(p.owners).value;
        SurvivingOwners(m.c, k.namespace, m.c.paths[k].owners, o);
        PolicyRefIsController(m.c.paths[k].owners, o);
      }
    } else if a.StepJob? && m.job.Running? {
      OtherStepsKeepPaths(m.c, m.job.key, m.job.phase, a.w);
    }
  }

  lemma TracedWhileWriting(m: Machine, acts: seq<Action>, w: World, o: Origin)
    requires var now := Exec(m, acts);
             now.job.Running? && now.job.phase.Writing? && Traced(m, acts, o, now.job.key, now.job.phase)
    ensures var (a, key, r) := (StepJob(w), Exec(m, acts).job.key, Exec(m, acts).job.phase.round);
            && Working(m, acts + [a], o.read, |acts|, key)
            && ReadAt(m, acts + [a], o.read, key, r.copy)
            && ListedAt(m, acts + [a], o.listed, key, r.copy, r.peers)
            && FetchedAt(m, acts + [a], o.fetched, key, r, Exec(m, acts).job.phase.found)
  {
    var a, key, r := StepJob(w), Exec(m, acts).job.key, Exec(m, acts).job.phase.round;
    WorkingLonger(m, acts, a, o.read, |acts|, key);
    ReadLonger(m, acts, a, o.read, key, r.copy);
    ListedLonger(m, acts, a, o.listed, key, r.copy, r.peers);
    FetchedLonger(m, acts, a, o.fetched, key, r, Exec(m, acts).job.phase.found);
  }

  /** A write that the pass's trace explains. */
  lemma WriteExplained(m: Machine, acts: seq<Action>, w: World, o: Origin, k: Key)
    requires Good(Exec(m, acts))
    requires var now := Exec(m, acts); now.job.Running? && Traced(m, acts, o, now.job.key, now.job.phase)
    requires var (c, c') := (Exec(m, acts).c, Apply(Exec(m, acts), StepJob(w)).c);
             k in c'.paths && (k in c.paths ==> c'.paths[k] != c.paths[k])
    ensures Explained(m, acts + [StepJob(w)], k, Apply(Exec(m, acts), StepJob(w)).c.paths[k])
  {
    var a, now := StepJob(w), Exec(m, acts);
    WrittenNow(m, acts, w, k);
    TracedWhileWriting(m, acts, w, o);
    var key, r, found := now.job.key, now.job.phase.round, now.job.phase.found;
    assert Made(m, acts + [a], o.(wrote := |acts|), key, r, found);
    var path := Apply(now, a).c.paths[k];
    assert IsOf(m, acts + [a], o.(wrote := |acts|), key, r, found, k, ControllerOf(path.owners).value, path.spec);
  }

  lemma WrittenNow(m: Machine, acts: seq<Action>, w: World, k: Key)
    requires Good(Exec(m, acts)) && Exec(m, acts).job.Running?
    requires var (c, c') := (Exec(m, acts).c, Apply(Exec(m, acts), StepJob(w)).c);
             k in c'.paths && (k in c.paths ==> c'.paths[k] != c.paths[k])
    ensures Exec(m, acts).job.phase.Writing?
    ensures var (a, key, r, found) :=
              (StepJob(w), Exec(m, acts).job.key, Exec(m, acts).job.phase.round, Exec(m, acts).job.phase.found);
            && WroteAt(m, acts + [a], |acts|, key, r, found)
            && var peer := r.peers[|r.results|];
            && IsPathOf(k, key, peer)
            && var path := Apply(Exec(m, acts), a).c.paths[k];
            && ControllerOf(path.owners) == Some(ControllerRef(key, r.copy)) && IsSpecOf(path.spec, key, peer, found)
  {
    AtTheEnd(m, acts, StepJob(w));
    StepWrites(Exec(m, acts), w, k);
    var key, r := Exec(m, acts).job.key, Exec(m, acts).job.phase.round;
    assert k == Key(key.namespace, key.name + "-to-" + r.peers[|r.results|].name);
  }

  lemma ExplainedAfter(m: Machine, acts: seq<Action>, a: Action, k: Key)
    requires Good(Exec(m, acts)) && AllExplained(m, acts) && k in Apply(Exec(m, acts), a).c.paths
    ensures Explained(m, acts + [a], k, Apply(Exec(m, acts), a).c.paths[k])
  {
    var now := Exec(m, acts);
    var path := Apply(now, a).c.paths[k];
    if k in now.c.paths {
      ExplainedLonger(m, acts, a, k, now.c.paths[k]);
    }
    if k in now.c.paths && path == now.c.paths[k] {
    } else if a.StepJob? && now.job.Running? && now.job.phase.Writing? {
      var o :| Traced(m, acts, o, now.job.key, now.job.phase);
      WriteExplained(m, acts, a.w, o, k);
    } else {
      PathAfter(now, a, k);
    }
  }

  lemma {:induction false} EverExplained(m: Machine, acts: seq<Action>)
    requires Initial(m)
    ensures AllExplained(m, acts)
  {
    if acts != [] {
      var before, a := acts[..|acts| - 1], acts[|acts| - 1];
      assert acts == before + [a];
      EverExplained(m, before);
      ExecKeepsGood(m, before);
      if Exec(m, acts).job.Running? {
        TracedAfter(m, before, a);
      }
      forall k | k in Exec(m, acts).c.paths
        ensures Explained(m, acts, k, Exec(m, acts).c.paths[k])
      {
        ExplainedAfter(m, before, a, k);
      }
    }
  }

  /**
   * In every reachable state, whatever users, peers, strangers, failures and garbage collection did between any
   * two calls, each path that a policy owns is controlled by that policy alone and was stored by one pass for it,
   * UID included. That pass read the policy with its finalizer and without a deletion timestamp, then listed the
   * peer, then got one answer of the path service for it; name, namespace and every field of the path follow
   * from these.
   */
  lemma PathsAreExplained(m: Machine, acts: seq<Action>, k: Key, ref: OwnerRef)
    returns (o: Origin, r: Round, found: Fetch, peer: Peer)
    requires Initial(m) && k in Exec(m, acts).c.paths && ref in Exec(m, acts).c.paths[k].owners
    requires ref.group == "cilion.cilion.io" && ref.kind == "ScionPathPolicy"
    ensures var key := Key(k.namespace, ref.name);
            && SoleControllerIs(Exec(m, acts).c.paths[k].owners, key, r.copy.uid) && ref.uid == r.copy.uid
            && Made(m, acts, o, key, r, found) && peer == r.peers[|r.results|]
    ensures var spec := Exec(m, acts).c.paths[k].spec;
            && k.name == ref.name + "-to-" + peer.name
            && spec.policyRef == ref.name && spec.destinationCidr == peer.podCIDR
            && spec.nextHopIP == found.nextHopIP && spec.hopFields == found.hopFields
  {
    var path, key := Exec(m, acts).c.paths[k], Key(k.namespace, ref.name);
    EverExplained(m, acts);
    ExecKeepsGood(m, acts);
    PolicyRefIsController(path.owners, ref);
    ControllerIsSole(path.owners, ref);
    assert Explained(m, acts, k, path);
    o, r, found :| IsOf(m, acts, o, key, r, found, k, ref, path.spec);
    peer := r.peers[|r.results|];
  }
}

/**
 * The controller among users, peers, other controllers and the garbage collector. A run is any sequence of
 * actions; a pass takes one step per action, so everything else can happen between two of its calls.
 */
module Runs {
  import opened LastWriter
  import opened Objects
  import opened Ownership
  import opened Pass
  import opened Wrappers

  datatype Job = Idle | Running(key: Key, phase: Phase)
  datatype Machine = Machine(c: Cluster, job: Job)

  datatype Action =
    | CreatePolicy(key: Key, selector: LabelSelector, preference: Option<string>, finalizers: seq<string>)
    | EditPolicy(key: Key, selector: LabelSelector, preference: Option<string>, finalizers: seq<string>)
    | DeletePolicy(key: Key)
    | SetPeers(peers: seq<Peer>)
    | SetForeign(uids: set<nat>)
    | PutPath(k: Key, path: ComputedPath)
    | DeletePath(k: Key)
    | Collect(ks: set<Key>)
    | StartPass(key: Key)
    | StepJob(w: World)
    | Crash

  /** Nobody but the controller writes objects that a policy owns. */
  predicate Unpoliced(owners: seq<OwnerRef>) {
    forall i | 0 <= i < |owners| :: !IsPolicyRef(owners[i])
  }

  predicate SoleController(owners: seq<OwnerRef>) {
    forall i, j | 0 <= i < j < |owners| :: !owners[i].controller || !owners[j].controller
  }

  // The user's actions.

  function Create(c: Cluster, key: Key, selector: LabelSelector, preference: Option<string>, finalizers: seq<string>)
    : Cluster
  {
    if key in c.policies then c
    else
      var v := c.revision + 1;
      c.(revision := v, policies := c.policies[key := Policy(v, v, 1, finalizers, false, selector, preference, [])])
  }

  /** An edit of the spec raises the generation; one of the finalizers alone does not. */
  function Edit(c: Cluster, key: Key, selector: LabelSelector, preference: Option<string>, finalizers: seq<string>)
    : Cluster
  {
    if key !in c.policies then c
    else
      var p := c.policies[key];
      var generation := if selector == p.selector && preference == p.preference then p.generation else p.generation + 1;
      var next :=
        p.(selector := selector, preference := preference, finalizers := finalizers, generation := generation);
      PutPolicy(c, key, next).value
  }

  /** A finalizer turns deletion into a deletion timestamp. */
  function Delete(c: Cluster, key: Key): Cluster {
    if key !in c.policies || c.policies[key].deleting then c
    else
      var p := c.policies[key];
      PutPolicy(c, key, p.(deleting := true, generation := p.generation + 1)).value
  }

  function Apply(m: Machine, a: Action): Machine {
    match a
    case CreatePolicy(key, selector, preference, finalizers) =>
      m.(c := Create(m.c, key, selector, preference, finalizers))
    case EditPolicy(key, selector, preference, finalizers) =>
      m.(c := Edit(m.c, key, selector, preference, finalizers))
    case DeletePolicy(key) => m.(c := Delete(m.c, key))
    case SetPeers(peers) => m.(c := m.c.(peers := peers))
    case SetForeign(uids) => m.(c := m.c.(foreign := uids))
    case PutPath(k, path) =>
      if Unpoliced(PathAt(m.c.paths, k).owners) && Unpoliced(path.owners) && SoleController(path.owners)
      then m.(c := StorePath(m.c, k, path))
      else m
    case DeletePath(k) => if Unpoliced(PathAt(m.c.paths, k).owners) then m.(c := m.c.(paths := m.c.paths - {k})) else m
    case Collect(ks) => m.(c := CollectGarbage(m.c, ks))
    case StartPass(key) => if m.job.Idle? then m.(job := Running(key, Begin)) else m
    case StepJob(w) =>
      if m.job.Idle? then m
      else
        var (c', ph) := StepPass(m.c, m.job.key, m.job.phase, w);
        Machine(c', if ph.Ended? then Idle else m.job.(phase := ph))
    case Crash => m.(job := Idle)
  }

  function Exec(m: Machine, acts: seq<Action>): Machine {
    if acts == [] then m else Apply(Exec(m, acts[..|acts| - 1]), acts[|acts| - 1])
  }

  lemma {:induction false} ExecSplit(m: Machine, first: seq<Action>, then_: seq<Action>)
    ensures Exec(m, first + then_) == Exec(Exec(m, first), then_)
  {
    if then_ == [] {
      assert first + then_ == first;
    } else {
      var init, last := then_[..|then_| - 1], then_[|then_| - 1];
      ExecSplit(m, first, init);
      assert (first + then_)[..|first + then_| - 1] == first + init;
    }
  }

  /** A pass that nothing interrupts is a run of its own steps, so the laws of whole passes are about such runs. */
  lemma {:induction false} PassIsARun(c: Cluster, key: Key, ph: Phase, w: World) returns (acts: seq<Action>)
    requires !ph.Ended?
    ensures forall a | a in acts :: a == StepJob(w)
    ensures Exec(Machine(c, Running(key, ph)), acts) == Machine(RunFrom(c, key, ph, w).0, Idle)
    decreases Stage(ph), PeersLeft(ph), CallsLeft(ph)
  {
    var (c', ph') := StepPass(c, key, ph, w);
    var m, first := Machine(c, Running(key, ph)), [StepJob(w)];
    assert Exec(m, first) == Apply(m, StepJob(w)) by {
      assert first[..|first| - 1] == [];
    }
    if ph'.Ended? {
      acts := first;
    } else {
      var rest := PassIsARun(c', key, ph', w);
      ExecSplit(m, first, rest);
      acts := first + rest;
    }
  }

  // What every action keeps.

  /** The stored policy is still the version that was read. */
  predicate Current(c: Cluster, key: Key, copy: Policy) {
    key in c.policies && c.policies[key].resourceVersion == copy.resourceVersion
  }

  /** A copy with the stored version number is the stored policy. */
  predicate Remembered(c: Cluster, key: Key, copy: Policy) {
    && copy.resourceVersion <= c.revision && copy.uid <= c.revision
    && (Current(c, key, copy) ==> c.policies[key] == copy)
  }

  /** Every path wanted so far is there, controlled by the policy and with the wanted spec. */
  ghost predicate Landed(c: Cluster, key: Key, r: Round)
    requires |r.results| <= |r.peers|
  {
    forall k | k in Wanted(key, r.peers, r.results) ::
      Carries(c, k, ControllerRef(key, r.copy), Wanted(key, r.peers, r.results)[k])
  }

  ghost predicate GoodRound(c: Cluster, key: Key, r: Round)
    requires |r.results| <= |r.peers|
  {
    Remembered(c, key, r.copy) && Live(r.copy) && (Current(c, key, r.copy) ==> Landed(c, key, r))
  }

  /** What was read may be adopted, and is what is stored if that still has its version. */
  ghost predicate GoodRead(c: Cluster, k: Key, ref: OwnerRef, read: Option<ComputedPath>) {
    && Adoptable(OrBlank(read).owners, ref) && WellOwned(OrBlank(read).owners)
    && (read.Some? ==>
          && read.value.resourceVersion <= c.revision
          && (k in c.paths && c.paths[k].resourceVersion == read.value.resourceVersion ==> c.paths[k] == read.value))
  }

  ghost predicate GoodPhase(c: Cluster, key: Key, ph: Phase) {
    match ph
    case Begin => true
    case Got(copy) => Remembered(c, key, copy)
    case Loop(r) => GoodRound(c, key, r)
    case Reading(r, _) => GoodRound(c, key, r)
    case Writing(r, _, read) =>
      GoodRound(c, key, r) && GoodRead(c, PathKey(key, r.peers[|r.results|]), ControllerRef(key, r.copy), read)
    case Ended(_) => false
  }

  predicate Versioned(c: Cluster) {
    && (forall k | k in c.policies :: c.policies[k].resourceVersion <= c.revision && c.policies[k].uid <= c.revision)
    && (forall k | k in c.paths :: c.paths[k].resourceVersion <= c.revision)
  }

  ghost predicate PathsWellOwned(c: Cluster) {
    forall k | k in c.paths :: WellOwned(c.paths[k].owners)
  }

  ghost predicate Good(m: Machine) {
    && Versioned(m.c)
    && PathsWellOwned(m.c)
    && (m.job.Running? ==> GoodPhase(m.c, m.job.key, m.job.phase))
  }

  /** A write of policy `at` that leaves everything else, and gives what it stores a fresh version. */
  ghost predicate PolicyWrite(c: Cluster, c': Cluster, at: Key) {
    && c' == c.(revision := c'.revision, policies := c'.policies)
    && c.revision <= c'.revision
    && (forall k | k != at ::
          (k in c.policies <==> k in c'.policies) && (k in c.policies ==> c'.policies[k] == c.policies[k]))
    && (at in c'.policies ==>
          || (at in c.policies && c'.policies[at] == c.policies[at])
          || (c.revision < c'.policies[at].resourceVersion <= c'.revision
              && if at in c.policies then c'.policies[at].uid == c.policies[at].uid
                 else c.revision < c'.policies[at].uid <= c'.revision))
  }

  lemma PolicyWriteKeepsGood(m: Machine, c': Cluster, at: Key)
    requires Good(m) && PolicyWrite(m.c, c', at)
    ensures Good(m.(c := c')) && Good(Machine(c', Idle))
  {
  }

  /** Collecting garbage leaves the controlled paths of living policies controlled and with their spec. */
  lemma CollectKeepsControlled(c: Cluster, ks: set<Key>, k: Key, r: OwnerRef)
    requires k in c.paths && ControllerOf(c.paths[k].owners) == Some(r) && OwnerExists(c, k.namespace, r)
    ensures var g := CollectGarbage(c, ks);
            k in g.paths && ControllerOf(g.paths[k].owners) == Some(r) && g.paths[k].spec == c.paths[k].spec
  {
    assert r in c.paths[k].owners;
    SurvivingController(c, k.namespace, c.paths[k].owners);
  }

  lemma WantedInNamespace(key: Key, peers: seq<Peer>, results: seq<Fetch>, k: Key)
    requires |results| <= |peers| && k in Wanted(key, peers, results)
    ensures k.namespace == key.namespace
  {
    var i := WantedFromLastReady(key, peers, results, k);
  }

  /** A write of computed paths only, which gives what it stores a fresh version. */
  ghost predicate PathsWrite(c: Cluster, c': Cluster) {
    && c' == c.(revision := c'.revision, paths := c'.paths) && c.revision <= c'.revision
    && forall k | k in c'.paths ::
         (k in c.paths && c'.paths[k] == c.paths[k]) || c.revision < c'.paths[k].resourceVersion <= c'.revision
  }

  /** Such a write keeps what a pass knows, if it leaves the pass's own paths controlled and with their specs. */
  lemma PathsWriteKeepsGood(m: Machine, c': Cluster)
    requires Good(m) && PathsWrite(m.c, c') && PathsWellOwned(c')
    requires m.job.Running? && m.job.phase.InLoop() && Current(m.c, m.job.key, m.job.phase.round.copy) ==>
               Landed(c', m.job.key, m.job.phase.round)
    ensures Good(m.(c := c'))
  {
    assert Versioned(c');
    if m.job.Running? && m.job.phase.Writing? {
      var r := m.job.phase.round;
      ReadKept(m.c, c', PathKey(m.job.key, r.peers[|r.results|]), ControllerRef(m.job.key, r.copy), m.job.phase.read);
    }
  }

  lemma ReadKept(c: Cluster, c': Cluster, k: Key, ref: OwnerRef, read: Option<ComputedPath>)
    requires PathsWrite(c, c') && GoodRead(c, k, ref, read)
    ensures GoodRead(c', k, ref, read)
  {
  }

  lemma CollectKeepsGood(m: Machine, ks: set<Key>)
    requires Good(m)
    ensures Good(Apply(m, Collect(ks)))
  {
    var g := CollectGarbage(m.c, ks);
    forall k | k in g.paths
      ensures WellOwned(g.paths[k].owners)
    {
      SurvivingWellOwned(m.c, k.namespace, m.c.paths[k].owners);
    }
    if m.job.Running? && m.job.phase.InLoop() && Current(m.c, m.job.key, m.job.phase.round.copy) {
      var key, r := m.job.key, m.job.phase.round;
      forall k | k in Wanted(key, r.peers, r.results)
        ensures Carries(g, k, ControllerRef(key, r.copy), Wanted(key, r.peers, r.results)[k])
      {
        WantedInNamespace(key, r.peers, r.results, k);
        CollectKeepsControlled(m.c, ks, k, ControllerRef(key, r.copy));
      }
    }
    PathsWriteKeepsGood(m, g);
  }

  /** A stranger's write touches no path that a policy controls. */
  lemma StrangerKeepsGood(m: Machine, k: Key, c': Cluster)
    requires Good(m) && Unpoliced(PathAt(m.c.paths, k).owners)
    requires PathsWrite(m.c, c') && OnlyUnder(m.c, c', {k}) && (k in c'.paths ==> WellOwned(c'.paths[k].owners))
    ensures Good(m.(c := c'))
  {
    if m.job.Running? && m.job.phase.InLoop() && Current(m.c, m.job.key, m.job.phase.round.copy) {
      var key, r := m.job.key, m.job.phase.round;
      if k in Wanted(key, r.peers, r.results) {
        assert false;
      }
    }
    PathsWriteKeepsGood(m, c');
  }

  /** Once the peer's path carries the found spec, all wanted paths so far have landed. */
  lemma OneMoreLanded(c: Cluster, c': Cluster, key: Key, r: Round, found: Fetch)
    requires |r.results| < |r.peers| && found.Ready? && Landed(c, key, r)
    requires var (peer, k) := (r.peers[|r.results|], PathKey(key, r.peers[|r.results|]));
             OnlyUnder(c, c', {k}) && Carries(c', k, ControllerRef(key, r.copy), SpecFor(key, peer, found))
    ensures Landed(c', key, r.Next(found))
  {
    WantedAppend(key, r.peers, r.results, found);
  }

  lemma FetchKeepsGood(m: Machine, w: World)
    requires Good(m) && m.job.Running? && m.job.phase.Loop? && |m.job.phase.round.results| < |m.job.phase.round.peers|
    ensures Good(Apply(m, StepJob(w)))
  {
    var r := m.job.phase.round;
    WantedAppend(m.job.key, r.peers, r.results, NotReady);
  }

  /** A read that does not end the pass finds the path in place, or one that may be adopted. */
  lemma ReadFinds(c: Cluster, key: Key, r: Round, found: Fetch, w: World)
    requires |r.results| < |r.peers| && found.Ready?
    ensures var (c', ph) := ReadStep(c, key, r, found, w);
            var peer := r.peers[|r.results|];
            var (k, ref) := (PathKey(key, peer), ControllerRef(key, r.copy));
            && c' == c
            && (ph.Loop? ==> ph.round == r.Next(found) && Carries(c, k, ref, SpecFor(key, peer, found)))
            && (!ph.Loop? && !ph.Ended? ==>
                  ph == Writing(r, found, ReadPath(c, k)) && Adoptable(PathAt(c.paths, k).owners, ref))
  {
    var ref, owners := ControllerRef(key, r.copy), PathAt(c.paths, PathKey(key, r.peers[|r.results|])).owners;
    if Adoptable(owners, ref) {
      UpsertControls(owners, ref);
    }
  }

  lemma ReadKeepsGood(m: Machine, w: World)
    requires Good(m) && m.job.Running? && m.job.phase.Reading?
    ensures Good(Apply(m, StepJob(w)))
  {
    var key, r, found := m.job.key, m.job.phase.round, m.job.phase.found;
    ReadFinds(m.c, key, r, found, w);
    if ReadStep(m.c, key, r, found, w).1.Loop? && Current(m.c, key, r.copy) {
      OneMoreLanded(m.c, m.c, key, r, found);
    }
  }

  /** A write that succeeds leaves the peer's path controlled and with the found spec, and touches no other. */
  lemma WriteLands(c: Cluster, key: Key, r: Round, found: Fetch, read: Option<ComputedPath>, w: World)
    requires |r.results| < |r.peers| && found.Ready?
    requires Adoptable(OrBlank(read).owners, ControllerRef(key, r.copy)) && WellOwned(OrBlank(read).owners)
    requires WriteStep(c, key, r, found, read, w).0 != c
    ensures var (k, c') := (PathKey(key, r.peers[|r.results|]), WriteStep(c, key, r, found, read, w).0);
            && WriteStep(c, key, r, found, read, w).1 == Loop(r.Next(found))
            && OnlyUnder(c, c', {k}) && PathsWrite(c, c')
            && Carries(c', k, ControllerRef(key, r.copy), SpecFor(key, r.peers[|r.results|], found))
            && WellOwned(c'.paths[k].owners)
            && ReadPath(c, k).Some? == read.Some?
            && (read.Some? ==> c.paths[k].resourceVersion == read.value.resourceVersion)
  {
    UpsertControls(OrBlank(read).owners, ControllerRef(key, r.copy));
    UpsertWellOwned(OrBlank(read).owners, ControllerRef(key, r.copy));
  }

  lemma WriteKeepsGood(m: Machine, w: World)
    requires Good(m) && m.job.Running? && m.job.phase.Writing?
    ensures Good(Apply(m, StepJob(w)))
  {
    var key, r, found := m.job.key, m.job.phase.round, m.job.phase.found;
    var c' := WriteStep(m.c, key, r, found, m.job.phase.read, w).0;
    if c' != m.c {
      WriteLands(m.c, key, r, found, m.job.phase.read, w);
      if Current(m.c, key, r.copy) {
        OneMoreLanded(m.c, c', key, r, found);
      }
    }
  }

  /** Any other step of a pass is a policy write, if it writes at all. */
  lemma OtherStepIsPolicyWrite(c: Cluster, key: Key, ph: Phase, w: World)
    requires Versioned(c) && (ph.Got? ==> Remembered(c, key, ph.copy))
    requires ph.Got? || (ph.Loop? && |ph.round.results| == |ph.round.peers| && Remembered(c, key, ph.round.copy))
    ensures PolicyWrite(c, StepPass(c, key, ph, w).0, key)
  {
  }

  lemma StepKeepsGood(m: Machine, w: World)
    requires Good(m)
    ensures Good(Apply(m, StepJob(w)))
  {
    if m.job.Running? {
      var ph := m.job.phase;
      if ph.Reading? {
        ReadKeepsGood(m, w);
      } else if ph.Writing? {
        WriteKeepsGood(m, w);
      } else if ph.Loop? && |ph.round.results| < |ph.round.peers| {
        FetchKeepsGood(m, w);
      } else if ph.Loop? || ph.Got? {
        OtherStepIsPolicyWrite(m.c, m.job.key, ph, w);
        PolicyWriteKeepsGood(m, StepPass(m.c, m.job.key, ph, w).0, m.job.key);
        PhaseAfter(m.c, m.job.key, ph, w);
      }
    }
  }

  lemma ApplyKeepsGood(m: Machine, a: Action)
    requires Good(m)
    ensures Good(Apply(m, a))
  {
    match a
    case CreatePolicy(_, _, _, _) => UserKeepsGood(m, a, a.key);
    case EditPolicy(_, _, _, _) => UserKeepsGood(m, a, a.key);
    case DeletePolicy(_) => UserKeepsGood(m, a, a.key);
    case SetPeers(_) =>
    case SetForeign(_) =>
    case PutPath(_, _) => PathActionKeepsGood(m, a);
    case DeletePath(_) => PathActionKeepsGood(m, a);
    case Collect(ks) => CollectKeepsGood(m, ks);
    case StartPass(_) =>
    case StepJob(w) => StepKeepsGood(m, w);
    case Crash =>
  }

  lemma UserKeepsGood(m: Machine, a: Action, key: Key)
    requires Good(m) && (a.CreatePolicy? || a.EditPolicy? || a.DeletePolicy?) && a.key == key
    ensures Good(Apply(m, a))
  {
    PolicyWriteKeepsGood(m, Apply(m, a).c, key);
  }

  lemma PathActionKeepsGood(m: Machine, a: Action)
    requires Good(m) && (a.PutPath? || a.DeletePath?)
    ensures Good(Apply(m, a))
  {
    if Apply(m, a) != m {
      StrangerKeepsGood(m, a.k, Apply(m, a).c);
    }
  }

  lemma {:induction false} ExecKeepsGood(m: Machine, acts: seq<Action>)
    requires Good(m)
    ensures Good(Exec(m, acts))
  {
    if acts != [] {
      ExecKeepsGood(m, acts[..|acts| - 1]);
      ApplyKeepsGood(Exec(m, acts[..|acts| - 1]), acts[|acts| - 1]);
    }
  }
}

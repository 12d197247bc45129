/**
 * One reconcile pass as a sequence of steps, each making at most one call to the API server or to the path
 * service, so that other actors can act between any two calls. Run without interruption it specifies Reconcile.
 */
module Pass {
  import opened Bytes
  import opened Objects
  import opened Ownership
  import opened PathNames
  import opened Wrappers

  const FINALIZER := "cilion.io/policy-finalizer"
  const READY := "Ready"
  const PATHS_COMPUTED := "PathsComputed"
  const REQUEUE_SECONDS := 10

  datatype Fetch = FetchFailed | NotReady | Ready(hopFields: seq<byte>, nextHopIP: string)

  /** The fallible calls of a pass; a peer's two path calls carry its position in the list. */
  datatype Call = GetPolicy | UpdatePolicy | ListPeers | GetPath(i: nat) | WritePath(i: nat) | UpdateStatus

  /** What the environment answers: which calls fail, and what the path service says for a position's peer. */
  datatype World = World(fails: Call -> bool, fetch: (nat, string, string) -> Fetch)

  datatype Error = NotFound | AlreadyExists | Conflict | ApiError | AlreadyOwned | FetchError

  /** Panicked is the dereference of an absent preference. */
  datatype Outcome = Done | RequeueAfter(seconds: nat) | Failed(error: Error) | Panicked

  /** What a pass holds in its loop: the policy and the peers it read, and an answer for each peer dealt with. */
  datatype Round = Round(copy: Policy, peers: seq<Peer>, results: seq<Fetch>) {
    function Next(f: Fetch): Round {
      this.(results := results + [f])
    }
  }

  /**
   * Where a pass stands: before reading the policy, with it, before the next peer, before reading the path of a
   * peer for which a path was found, before writing that path, or at its end.
   */
  datatype Position =
    | Begin
    | Got(copy: Policy)
    | Loop(round: Round)
    | Reading(round: Round, found: Fetch)
    | Writing(round: Round, found: Fetch, read: Option<ComputedPath>)
    | Ended(outcome: Outcome)
  {
    predicate InLoop() {
      Loop? || AtPath()
    }

    predicate AtPath() {
      Reading? || Writing?
    }
  }

  type Phase = p: Position |
    && (p.Loop? ==> |p.round.results| <= |p.round.peers|)
    && (p.AtPath() ==> |p.round.results| < |p.round.peers| && p.found.Ready?)
    witness Begin

  // Single API calls.

  /** An update with optimistic locking. Writing nothing new leaves the version alone. */
  function PutPolicy(c: Cluster, key: Key, next: Policy): Result<Cluster, Error> {
    if key !in c.policies then Err(NotFound)
    else if c.policies[key].resourceVersion != next.resourceVersion then Err(Conflict)
    else if next == c.policies[key] then Ok(c)
    else if next.deleting && next.finalizers == [] then
      Ok(c.(revision := c.revision + 1, policies := c.policies - {key}))
    else
      Ok(c.(revision := c.revision + 1, policies := c.policies[key := next.(resourceVersion := c.revision + 1)]))
  }

  const BLANK := ComputedPath(0, [], PathSpec("", "", "", []))

  /** The object that a mutation starts from: the one that was read, or a blank one. */
  function OrBlank(read: Option<ComputedPath>): ComputedPath {
    if read.Some? then read.value else BLANK
  }

  function PathAt(paths: map<Key, ComputedPath>, k: Key): ComputedPath {
    if k in paths then paths[k] else BLANK
  }

  /** The mutation a pass applies to a computed path. */
  function Stamp(p: ComputedPath, ref: OwnerRef, spec: PathSpec): ComputedPath {
    p.(owners := Upsert(p.owners, ref), spec := spec)
  }

  function ReadPath(c: Cluster, k: Key): Option<ComputedPath> {
    if k in c.paths then Some(c.paths[k]) else None
  }

  function StorePath(c: Cluster, k: Key, p: ComputedPath): Cluster {
    c.(revision := c.revision + 1, paths := c.paths[k := p.(resourceVersion := c.revision + 1)])
  }

  function CreatePath(c: Cluster, k: Key, p: ComputedPath): Result<Cluster, Error> {
    if k in c.paths then Err(AlreadyExists) else Ok(StorePath(c, k, p))
  }

  /** An update with optimistic locking. */
  function UpdatePath(c: Cluster, k: Key, p: ComputedPath): Result<Cluster, Error> {
    if k !in c.paths then Err(NotFound)
    else if c.paths[k].resourceVersion != p.resourceVersion then Err(Conflict)
    else Ok(StorePath(c, k, p))
  }

  // Finalizers and conditions.

  function Without(s: seq<string>, x: string): (r: seq<string>)
    ensures forall y :: y in r <==> y in s && y != x
  {
    if s == [] then []
    else (if s[0] == x then [] else [s[0]]) + Without(s[1..], x)
  }

  /** Removal goes element by element and keeps the order. */
  lemma {:induction false} WithoutParts(a: seq<string>, b: seq<string>, x: string)
    ensures Without(a + b, x) == Without(a, x) + Without(b, x)
  {
    if a == [] {
      assert a + b == b;
    } else {
      WithoutParts(a[1..], b, x);
      WithoutFirst(a[0], a[1..], x);
      WithoutFirst(a[0], a[1..] + b, x);
      assert a == [a[0]] + a[1..] && a + b == [a[0]] + (a[1..] + b);
    }
  }

  /** Of the removed element nothing is left, of any other all. */
  lemma WithoutFirst(y: string, s: seq<string>, x: string)
    ensures Without([y] + s, x) == (if y == x then [] else [y]) + Without(s, x)
  {
    assert ([y] + s)[1..] == s;
  }

  lemma {:induction false} WithoutEmpty(s: seq<string>, x: string)
    ensures Without(s, x) == [] <==> forall y | y in s :: y == x
  {
    var r := Without(s, x);
    if r != [] {
      assert r[0] in r;
    } else {
      assert forall y | y in s :: y !in r;
    }
  }

  function SetCondition(cs: seq<Condition>, n: Condition): seq<Condition> {
    if cs == [] then [n]
    else if cs[0].kind == n.kind then [n] + cs[1..]
    else [cs[0]] + SetCondition(cs[1..], n)
  }

  /** Exactly the first condition of that kind is replaced, in its place; without one the new one comes last. */
  lemma {:induction false} SetConditionExactly(cs: seq<Condition>, n: Condition) returns (i: nat)
    ensures i <= |cs| && forall j | 0 <= j < i :: cs[j].kind != n.kind
    ensures i < |cs| ==> cs[i].kind == n.kind && SetCondition(cs, n) == cs[i := n]
    ensures i == |cs| ==> SetCondition(cs, n) == cs + [n]
  {
    i := 0;
    if cs != [] && cs[0].kind != n.kind {
      var k := SetConditionExactly(cs[1..], n);
      i := k + 1;
    }
  }

  function ReadyCondition(generation: nat, destinations: nat): Condition {
    Condition(READY, true, PATHS_COMPUTED, destinations, generation)
  }

  predicate Live(p: Policy) {
    !p.deleting && FINALIZER in p.finalizers
  }

  // The loop over the peers.

  function PathKey(key: Key, peer: Peer): Key {
    Key(key.namespace, PathName(key.name, peer.name))
  }

  function SpecFor(key: Key, peer: Peer, f: Fetch): PathSpec
    requires f.Ready?
  {
    PathSpec(key.name, peer.podCIDR, f.nextHopIP, f.hopFields)
  }

  /** Every result so far is a path: the loop's allPathsReady flag. */
  predicate AllReady(results: seq<Fetch>) {
    forall i | 0 <= i < |results| :: results[i].Ready?
  }

  lemma AllReadyAppend(results: seq<Fetch>, f: Fetch)
    ensures AllReady(results + [f]) <==> AllReady(results) && f.Ready?
  {
    var all := results + [f];
    assert all[|results|] == f;
    assert forall i | 0 <= i < |results| :: results[i] == all[i];
  }

  /** The path service is asked about the next peer. */
  function FetchStep(c: Cluster, r: Round, w: World): (Cluster, Phase)
    requires |r.results| < |r.peers|
  {
    var i := |r.results|;
    if r.copy.preference.None? then (c, Ended(Panicked))
    else
      var f := w.fetch(i, r.peers[i].remoteAS, r.copy.preference.value);
      match f
      case FetchFailed => (c, Ended(Failed(FetchError)))
      case NotReady => (c, Loop(r.Next(f)))
      case Ready(_, _) => (c, Reading(r, f))
  }

  /** The peer's path is read and mutated; one that the mutation leaves alone is not written. */
  function ReadStep(c: Cluster, key: Key, r: Round, found: Fetch, w: World): (Cluster, Phase)
    requires |r.results| < |r.peers| && found.Ready?
  {
    var i, ref := |r.results|, ControllerRef(key, r.copy);
    var read := ReadPath(c, PathKey(key, r.peers[i]));
    if w.fails(GetPath(i)) then (c, Ended(Failed(ApiError)))
    else if !Adoptable(OrBlank(read).owners, ref) then (c, Ended(Failed(AlreadyOwned)))
    else if read == Some(Stamp(OrBlank(read), ref, SpecFor(key, r.peers[i], found))) then (c, Loop(r.Next(found)))
    else (c, Writing(r, found, read))
  }

  /** The mutated path is created or updated. */
  function WriteStep(c: Cluster, key: Key, r: Round, found: Fetch, read: Option<ComputedPath>, w: World)
    : (Cluster, Phase)
    requires |r.results| < |r.peers| && found.Ready?
  {
    var i := |r.results|;
    var k := PathKey(key, r.peers[i]);
    var next := Stamp(OrBlank(read), ControllerRef(key, r.copy), SpecFor(key, r.peers[i], found));
    if w.fails(WritePath(i)) then (c, Ended(Failed(ApiError)))
    else match if read.None? then CreatePath(c, k, next) else UpdatePath(c, k, next)
         case Err(e) => (c, Ended(Failed(e)))
         case Ok(c') => (c', Loop(r.Next(found)))
  }

  /** The policy with the status a completed pass reports. */
  function Reported(copy: Policy, destinations: nat): Policy {
    copy.(conditions := SetCondition(copy.conditions, ReadyCondition(copy.generation, destinations)))
  }

  /** The next step of a pass for `key`. */
  function StepPass(c: Cluster, key: Key, ph: Phase, w: World): (Cluster, Phase) {
    match ph
    case Begin =>
      if w.fails(GetPolicy) then (c, Ended(Failed(ApiError)))
      else if key !in c.policies then (c, Ended(Done))
      else (c, Got(c.policies[key]))
    case Got(copy) =>
      if copy.deleting then
        if FINALIZER in copy.finalizers
        then Write(c, key, copy.(finalizers := Without(copy.finalizers, FINALIZER)), w.fails(UpdatePolicy))
        else (c, Ended(Done))
      else if FINALIZER !in copy.finalizers then
        Write(c, key, copy.(finalizers := copy.finalizers + [FINALIZER]), w.fails(UpdatePolicy))
      else if w.fails(ListPeers) then (c, Ended(Failed(ApiError)))
      else (c, Loop(Round(copy, c.peers, [])))
    case Loop(r) =>
      if |r.results| < |r.peers| then FetchStep(c, r, w)
      else if !AllReady(r.results) then (c, Ended(RequeueAfter(REQUEUE_SECONDS)))
      else Write(c, key, Reported(r.copy, |r.peers|), w.fails(UpdateStatus))
    case Reading(r, found) => ReadStep(c, key, r, found, w)
    case Writing(r, found, read) => WriteStep(c, key, r, found, read, w)
    case Ended(_) => (c, ph)
  }

  /** A policy write that ends the pass, well or not. */
  function Write(c: Cluster, key: Key, next: Policy, fails: bool): (Cluster, Phase) {
    if fails then (c, Ended(Failed(ApiError)))
    else match PutPolicy(c, key, next)
         case Err(e) => (c, Ended(Failed(e)))
         case Ok(c') => (c', Ended(Done))
  }

  /** What is left of a pass: its stage, the peers to come, and the calls to come for the current one. */
  function Stage(ph: Phase): nat {
    if ph.Begin? then 3 else if ph.Got? then 2 else if ph.InLoop() then 1 else 0
  }

  function PeersLeft(ph: Phase): nat {
    if ph.InLoop() then |ph.round.peers| - |ph.round.results| else 0
  }

  function CallsLeft(ph: Phase): nat {
    if ph.Loop? then 2 else if ph.Reading? then 1 else 0
  }

  /** Steps until the pass has ended. */
  function RunFrom(c: Cluster, key: Key, ph: Phase, w: World): (Cluster, Outcome)
    decreases Stage(ph), PeersLeft(ph), CallsLeft(ph)
  {
    if ph.Ended? then (c, ph.outcome)
    else var (c', ph') := StepPass(c, key, ph, w); RunFrom(c', key, ph', w)
  }

  /** A whole pass that nothing interrupts. */
  function Run(c: Cluster, key: Key, w: World): (Cluster, Outcome) {
    RunFrom(c, key, Begin, w)
  }

  lemma LastStep(c: Cluster, key: Key, ph: Phase, w: World)
    requires !ph.Ended?
    ensures StepPass(c, key, ph, w).1.Ended? ==>
              RunFrom(c, key, ph, w) == (StepPass(c, key, ph, w).0, StepPass(c, key, ph, w).1.outcome)
  {
  }

  // An iteration that nothing interrupts.

  /** Reads, mutates, then creates, updates or does nothing. */
  function CreateOrUpdate(c: Cluster, k: Key, ref: OwnerRef, spec: PathSpec, getFails: bool, writeFails: bool)
    : Result<Cluster, Error>
  {
    var read := ReadPath(c, k);
    var next := Stamp(OrBlank(read), ref, spec);
    if getFails then Err(ApiError)
    else if !Adoptable(OrBlank(read).owners, ref) then Err(AlreadyOwned)
    else if read == Some(next) then Ok(c)
    else if writeFails then Err(ApiError)
    else Ok(StorePath(c, k, next))
  }

  /** The cluster after an iteration and the path service's answer, or why the pass ends there. */
  function PeerStep(c: Cluster, key: Key, copy: Policy, i: nat, peer: Peer, w: World)
    : Result<(Cluster, Fetch), Outcome>
  {
    if copy.preference.None? then Err(Panicked)
    else
      var f := w.fetch(i, peer.remoteAS, copy.preference.value);
      match f
      case FetchFailed => Err(Failed(FetchError))
      case NotReady => Ok((c, f))
      case Ready(_, _) =>
        match CreateOrUpdate(c, PathKey(key, peer), ControllerRef(key, copy), SpecFor(key, peer, f),
                             w.fails(GetPath(i)), w.fails(WritePath(i)))
        case Err(e) => Err(Failed(e))
        case Ok(c') => Ok((c', f))
  }

  /** The up to three steps of an iteration are one, if nothing comes between them. */
  lemma Iterate(c: Cluster, key: Key, r: Round, w: World)
    requires |r.results| < |r.peers|
    ensures var step := PeerStep(c, key, r.copy, |r.results|, r.peers[|r.results|], w);
            RunFrom(c, key, Loop(r), w) ==
            if step.Err? then (c, step.error) else RunFrom(step.value.0, key, Loop(r.Next(step.value.1)), w)
  {
    var (_, ph) := StepPass(c, key, Loop(r), w);
    if ph.Ended? {
      LastStep(c, key, Loop(r), w);
    } else if ph.Reading? {
      IterateFrom(c, key, r, ph.found, w);
    }
  }

  lemma IterateFrom(c: Cluster, key: Key, r: Round, found: Fetch, w: World)
    requires |r.results| < |r.peers| && found.Ready?
    ensures var i := |r.results|;
            var c' := CreateOrUpdate(c, PathKey(key, r.peers[i]), ControllerRef(key, r.copy),
                                     SpecFor(key, r.peers[i], found), w.fails(GetPath(i)), w.fails(WritePath(i)));
            RunFrom(c, key, Reading(r, found), w) ==
            if c'.Err? then (c, Failed(c'.error)) else RunFrom(c'.value, key, Loop(r.Next(found)), w)
  {
    var (_, ph) := StepPass(c, key, Reading(r, found), w);
    if ph.Ended? {
      LastStep(c, key, Reading(r, found), w);
    } else if ph.Writing? {
      LastStep(c, key, ph, w);
    }
  }

  /** Every step but the last of an iteration leaves the computed paths alone. */
  lemma OtherStepsKeepPaths(c: Cluster, key: Key, ph: Phase, w: World)
    requires !ph.Writing?
    ensures StepPass(c, key, ph, w).0.paths == c.paths
  {
  }

  /** Where what a pass holds comes from. */
  lemma PhaseAfter(c: Cluster, key: Key, ph: Phase, w: World)
    ensures var ph' := StepPass(c, key, ph, w).1;
            && !ph'.Begin?
            && (ph'.Got? ==> ph.Begin? && key in c.policies && ph'.copy == c.policies[key])
            && (ph'.InLoop() ==>
                  || (ph.Got? && Live(ph.copy) && ph' == Loop(Round(ph.copy, c.peers, [])))
                  || (ph.InLoop() && ph'.round.copy == ph.round.copy && ph'.round.peers == ph.round.peers))
            && (ph'.AtPath() ==> ph.InLoop() && ph'.round == ph.round && (ph.AtPath() ==> ph'.found == ph.found))
  {
  }
}

/** The reconciler as it runs: an API server that is updated in place, and the pass over it. */
module Reconciler {
  import opened Objects
  import opened Ownership
  import opened Pass
  import opened Wrappers

  class ApiServer {
    var revision: nat
    var policies: map<Key, Policy>
    var peers: seq<Peer>
    var paths: map<Key, ComputedPath>
    var foreign: set<nat>

    constructor (initial: Cluster)
      ensures Contents() == initial
    {
      revision, policies, peers := initial.revision, initial.policies, initial.peers;
      paths, foreign := initial.paths, initial.foreign;
    }

    function Contents(): Cluster
      reads this
    {
      Cluster(revision, policies, peers, paths, foreign)
    }

    method GetPolicy(key: Key, fails: bool) returns (r: Result<Policy, Error>)
      ensures r == if fails then Err(ApiError) else if key in policies then Ok(policies[key]) else Err(NotFound)
    {
      if fails {
        return Err(ApiError);
      }
      r := if key in policies then Ok(policies[key]) else Err(NotFound);
    }

    /** Stores `next` unless the stored policy has changed since `next` was read. */
    method UpdatePolicy(key: Key, next: Policy, fails: bool) returns (r: Result<(), Error>)
      modifies this`revision, this`policies
      ensures fails ==> r == Err(ApiError) && Contents() == old(Contents())
      ensures !fails ==> match PutPolicy(old(Contents()), key, next)
                         case Err(e) => r == Err(e) && Contents() == old(Contents())
                         case Ok(c) => r == Ok(()) && Contents() == c
    {
      if fails {
        return Err(ApiError);
      }
      if key !in policies {
        return Err(NotFound);
      }
      if policies[key].resourceVersion != next.resourceVersion {
        return Err(Conflict);
      }
      if next != policies[key] {
        revision := revision + 1;
        if next.deleting && next.finalizers == [] {
          policies := policies - {key};
        } else {
          policies := policies[key := next.(resourceVersion := revision)];
        }
      }
      r := Ok(());
    }

    method GetPath(k: Key, fails: bool) returns (r: Result<ComputedPath, Error>)
      ensures r == if fails then Err(ApiError) else if k in paths then Ok(paths[k]) else Err(NotFound)
    {
      if fails {
        return Err(ApiError);
      }
      r := if k in paths then Ok(paths[k]) else Err(NotFound);
    }

    method CreatePath(k: Key, path: ComputedPath, fails: bool) returns (r: Result<(), Error>)
      modifies this`revision, this`paths
      ensures fails ==> r == Err(ApiError) && Contents() == old(Contents())
      ensures !fails ==> match Pass.CreatePath(old(Contents()), k, path)
                         case Err(e) => r == Err(e) && Contents() == old(Contents())
                         case Ok(c) => r == Ok(()) && Contents() == c
    {
      if fails {
        return Err(ApiError);
      }
      if k in paths {
        return Err(AlreadyExists);
      }
      revision := revision + 1;
      paths := paths[k := path.(resourceVersion := revision)];
      r := Ok(());
    }

    /** Stores `path` unless the stored path has changed since `path` was read. */
    method UpdatePath(k: Key, path: ComputedPath, fails: bool) returns (r: Result<(), Error>)
      modifies this`revision, this`paths
      ensures fails ==> r == Err(ApiError) && Contents() == old(Contents())
      ensures !fails ==> match Pass.UpdatePath(old(Contents()), k, path)
                         case Err(e) => r == Err(e) && Contents() == old(Contents())
                         case Ok(c) => r == Ok(()) && Contents() == c
    {
      if fails {
        return Err(ApiError);
      }
      if k !in paths {
        return Err(NotFound);
      }
      if paths[k].resourceVersion != path.resourceVersion {
        return Err(Conflict);
      }
      revision := revision + 1;
      paths := paths[k := path.(resourceVersion := revision)];
      r := Ok(());
    }
  }

  class ScionPathPolicyReconciler {
    const api: ApiServer
    const world: World

    constructor (api: ApiServer, world: World)
      ensures this.api == api && this.world == world
    {
      this.api, this.world := api, world;
    }

    /** Leaves the computed path at `k` owned by `ref` and carrying `spec`, writing only what changes. */
    method CreateOrUpdate(k: Key, ref: OwnerRef, spec: PathSpec, getFails: bool, writeFails: bool)
      returns (r: Result<(), Error>)
      modifies api
      ensures match Pass.CreateOrUpdate(old(api.Contents()), k, ref, spec, getFails, writeFails)
              case Err(e) => r == Err(e) && api.Contents() == old(api.Contents())
              case Ok(c) => r == Ok(()) && api.Contents() == c
    {
      var got := api.GetPath(k, getFails);
      if got.Err? && got.error != NotFound {
        return Err(got.error);
      }
      var path := if got.Ok? then got.value else BLANK;
      if !Adoptable(path.owners, ref) {
        return Err(AlreadyOwned);
      }
      path := path.(owners := Upsert(path.owners, ref));
      path := path.(spec := spec);
      if got.Err? {
        r := api.CreatePath(k, path, writeFails);
      } else if path == got.value {
        r := Ok(());
      } else {
        r := api.UpdatePath(k, path, writeFails);
      }
    }

    method Reconcile(key: Key) returns (outcome: Outcome)
      modifies api
      ensures (api.Contents(), outcome) == Run(old(api.Contents()), key, world)
    {
      var got := api.GetPolicy(key, world.fails(GetPolicy));
      if got.Err? {
        return if got.error == NotFound then Done else Failed(got.error);
      }
      var policy := got.value;
      LastStep(api.Contents(), key, Got(policy), world);

      if policy.deleting {
        if FINALIZER in policy.finalizers {
          policy := policy.(finalizers := Without(policy.finalizers, FINALIZER));
          var removed := api.UpdatePolicy(key, policy, world.fails(UpdatePolicy));
          if removed.Err? {
            return Failed(removed.error);
          }
        }
        return Done;
      }

      if FINALIZER !in policy.finalizers {
        policy := policy.(finalizers := policy.finalizers + [FINALIZER]);
        var added := api.UpdatePolicy(key, policy, world.fails(UpdatePolicy));
        if added.Err? {
          return Failed(added.error);
        }
        return Done;
      }

      if world.fails(ListPeers) {
        return Failed(ApiError);
      }
      var peers := api.peers;
      var allPathsReady := true;
      ghost var results: seq<Fetch> := [];
      var i := 0;
      while i < |peers|
        invariant i == |results| <= |peers|
        invariant allPathsReady <==> AllReady(results)
        invariant RunFrom(api.Contents(), key, Loop(Round(policy, peers, results)), world)
                    == Run(old(api.Contents()), key, world)
      {
        Iterate(api.Contents(), key, Round(policy, peers, results), world);
        if policy.preference.None? {
          return Panicked;
        }
        var peer := peers[i];
        var fetched := world.fetch(i, peer.remoteAS, policy.preference.value);
        if fetched.FetchFailed? {
          return Failed(FetchError);
        }
        AllReadyAppend(results, fetched);
        results := results + [fetched];
        if fetched.NotReady? {
          allPathsReady := false;
          i := i + 1;
          continue;
        }
        var written := CreateOrUpdate(PathKey(key, peer), ControllerRef(key, policy), SpecFor(key, peer, fetched),
                                      world.fails(GetPath(i)), world.fails(WritePath(i)));
        if written.Err? {
          return Failed(written.error);
        }
        i := i + 1;
      }

      if !allPathsReady {
        return RequeueAfter(REQUEUE_SECONDS);
      }
      policy := Reported(policy, |peers|);
      var reported := api.UpdatePolicy(key, policy, world.fails(UpdateStatus));
      if reported.Err? {
        return Failed(reported.error);
      }
      return Done;
    }
  }
}

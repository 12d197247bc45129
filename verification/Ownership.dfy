/** Owner references: controller lookup, the controller-reference rule and garbage collection. */
module Ownership {
  import opened Objects
  import opened Wrappers

  const GROUP := "cilion.cilion.io"
  const KIND := "ScionPathPolicy"

  predicate IsPolicyRef(o: OwnerRef) {
    o.group == GROUP && o.kind == KIND
  }

  /** Two references name the same object: group, kind and name are compared, the UID is not. */
  predicate SameObject(a: OwnerRef, b: OwnerRef) {
    a.group == b.group && a.kind == b.kind && a.name == b.name
  }

  function ControllerRef(key: Key, policy: Policy): OwnerRef {
    OwnerRef(GROUP, KIND, key.name, policy.uid, true)
  }

  function ControllerOf(owners: seq<OwnerRef>): (r: Option<OwnerRef>)
    ensures r.None? <==> forall o | o in owners :: !o.controller
    ensures r.Some? ==> r.value in owners && r.value.controller
  {
    if owners == [] then None
    else if owners[0].controller then Some(owners[0])
    else ControllerOf(owners[1..])
  }

  /** Replaces the first reference to the same object, or appends. */
  function Upsert(owners: seq<OwnerRef>, ref: OwnerRef): (r: seq<OwnerRef>)
    ensures ref in r
    ensures forall o | o in r :: o == ref || o in owners
  {
    if owners == [] then [ref]
    else if SameObject(owners[0], ref) then [ref] + owners[1..]
    else [owners[0]] + Upsert(owners[1..], ref)
  }

  /** Whether SetControllerReference accepts `ref`: no other object controls already. */
  predicate Adoptable(owners: seq<OwnerRef>, ref: OwnerRef) {
    var c := ControllerOf(owners);
    c.None? || SameObject(c.value, ref)
  }

  /** After an accepted controller reference the object is controlled by `ref`, UID included. */
  lemma {:induction false} UpsertControls(owners: seq<OwnerRef>, ref: OwnerRef)
    requires ref.controller && Adoptable(owners, ref)
    ensures ControllerOf(Upsert(owners, ref)) == Some(ref)
  {
    if owners != [] && !SameObject(owners[0], ref) {
      assert owners[0] in owners;
      assert !owners[0].controller;
      UpsertControls(owners[1..], ref);
    }
  }

  /** Setting the reference again changes nothing, so a reconciled object is left alone. */
  lemma {:induction false} UpsertIdempotent(owners: seq<OwnerRef>, ref: OwnerRef)
    ensures Upsert(Upsert(owners, ref), ref) == Upsert(owners, ref)
  {
    if owners != [] && !SameObject(owners[0], ref) {
      UpsertIdempotent(owners[1..], ref);
      assert ([owners[0]] + Upsert(owners[1..], ref))[1..] == Upsert(owners[1..], ref);
    }
  }

  /** The references name one object: same group, kind and name, whatever the UIDs. */
  predicate Alike(o: OwnerRef, ref: OwnerRef) {
    o.group == ref.group && o.kind == ref.kind && o.name == ref.name
  }

  /** Exactly the first reference to the same object is replaced, in its place; without one the new one comes last. */
  lemma {:induction false} UpsertExactly(owners: seq<OwnerRef>, ref: OwnerRef) returns (i: nat)
    ensures i <= |owners| && forall j | 0 <= j < i :: !Alike(owners[j], ref)
    ensures i < |owners| ==> Alike(owners[i], ref) && Upsert(owners, ref) == owners[i := ref]
    ensures i == |owners| ==> Upsert(owners, ref) == owners + [ref]
  {
    i := 0;
    if owners != [] && !SameObject(owners[0], ref) {
      var k := UpsertExactly(owners[1..], ref);
      i := k + 1;
    }
  }

  predicate IsFirstController(owners: seq<OwnerRef>, i: nat)
    requires i < |owners|
  {
    owners[i].controller && forall j | 0 <= j < i :: !owners[j].controller
  }

  /** A reference is refused exactly when the first controller among the owners is another object. */
  lemma AdoptableIff(owners: seq<OwnerRef>, ref: OwnerRef)
    ensures Adoptable(owners, ref) <==>
              forall i | 0 <= i < |owners| && IsFirstController(owners, i) :: Alike(owners[i], ref)
  {
    FirstController(owners);
  }

  lemma {:induction false} FirstController(owners: seq<OwnerRef>)
    ensures ControllerOf(owners).Some? ==>
              exists i :: 0 <= i < |owners| && owners[i] == ControllerOf(owners).value && IsFirstController(owners, i)
  {
    if owners != [] && !owners[0].controller {
      FirstController(owners[1..]);
      if ControllerOf(owners).Some? {
        var i :| 0 <= i < |owners| - 1 && owners[1..][i] == ControllerOf(owners).value
                 && IsFirstController(owners[1..], i);
        assert forall j | 0 < j < i + 1 :: owners[j] == owners[1..][j - 1];
        assert IsFirstController(owners, i + 1);
      }
    }
  }

  /** So a policy that was created again, with a new UID, takes over the paths of its predecessor. */
  lemma RecreatedAdopts(key: Key, first: Policy, second: Policy)
    ensures var (owners, ref) := ([ControllerRef(key, first)], ControllerRef(key, second));
            Adoptable(owners, ref) && Upsert(owners, ref) == [ref]
  {
  }

  /** At most one controller, as the API demands, and policies only ever own as controllers. */
  ghost predicate WellOwned(owners: seq<OwnerRef>) {
    && (forall i | 0 <= i < |owners| && IsPolicyRef(owners[i]) :: owners[i].controller)
    && (forall i, j | 0 <= i < j < |owners| :: !owners[i].controller || !owners[j].controller)
  }

  lemma {:induction false} UpsertWellOwned(owners: seq<OwnerRef>, ref: OwnerRef)
    requires ref.controller && IsPolicyRef(ref) && Adoptable(owners, ref) && WellOwned(owners)
    ensures WellOwned(Upsert(owners, ref))
  {
    if owners != [] && !SameObject(owners[0], ref) {
      assert owners[1..] == [] || forall o | o in owners[1..] :: o in owners;
      UpsertWellOwned(owners[1..], ref);
    }
  }

  /** In a well-owned object a policy's reference is the controller reference. */
  lemma {:induction false} PolicyRefIsController(owners: seq<OwnerRef>, o: OwnerRef)
    requires WellOwned(owners) && o in owners && IsPolicyRef(o)
    ensures ControllerOf(owners) == Some(o)
  {
    if owners[0] != o {
      PolicyRefIsController(owners[1..], o);
      if owners[0].controller {
        assert false;
      }
    }
  }

  // Garbage collection.

  /** Whether the object an owner reference names still exists, UID included. */
  predicate OwnerExists(c: Cluster, namespace: string, o: OwnerRef) {
    if IsPolicyRef(o)
    then var k := Key(namespace, o.name); k in c.policies && c.policies[k].uid == o.uid
    else o.uid in c.foreign
  }

  function Surviving(c: Cluster, namespace: string, owners: seq<OwnerRef>): seq<OwnerRef> {
    if owners == [] then []
    else (if OwnerExists(c, namespace, owners[0]) then [owners[0]] else []) + Surviving(c, namespace, owners[1..])
  }

  /**
   * What garbage collection leaves of an object: all of it while every owner lives, the live owners'
   * references while some do, and nothing once all are gone.
   */
  function Collected(c: Cluster, k: Key, p: ComputedPath): Option<ComputedPath> {
    if forall o | o in p.owners :: OwnerExists(c, k.namespace, o) then Some(p)
    else if forall o | o in p.owners :: !OwnerExists(c, k.namespace, o) then None
    else Some(p.(resourceVersion := c.revision + 1, owners := Surviving(c, k.namespace, p.owners)))
  }

  /**
   * An object is collected exactly when it has owners and none of them lives: a policy by its key in the object's
   * namespace and its UID. Otherwise its spec is kept, and exactly its living owners; if all live, all of it.
   */
  lemma CollectedIff(c: Cluster, k: Key, p: ComputedPath)
    ensures var lives := (o: OwnerRef) =>
              if o.group == "cilion.cilion.io" && o.kind == "ScionPathPolicy"
              then Key(k.namespace, o.name) in c.policies && c.policies[Key(k.namespace, o.name)].uid == o.uid
              else o.uid in c.foreign;
            && (Collected(c, k, p).None? <==> p.owners != [] && forall o | o in p.owners :: !lives(o))
            && (Collected(c, k, p).Some? ==>
                  && Collected(c, k, p).value.spec == p.spec
                  && (forall o :: o in Collected(c, k, p).value.owners <==> o in p.owners && lives(o)))
            && ((forall o | o in p.owners :: lives(o)) ==> Collected(c, k, p) == Some(p))
  {
    forall o {
      SurvivingOwners(c, k.namespace, p.owners, o);
    }
    if p.owners != [] {
      assert p.owners[0] in p.owners;
    }
  }

  lemma {:induction false} SurvivingOwners(c: Cluster, namespace: string, owners: seq<OwnerRef>, o: OwnerRef)
    ensures o in Surviving(c, namespace, owners) <==> o in owners && OwnerExists(c, namespace, o)
  {
    if owners != [] {
      SurvivingOwners(c, namespace, owners[1..], o);
    }
  }

  /** A controller that still exists keeps its object, and keeps controlling it. */
  lemma {:induction false} SurvivingController(c: Cluster, namespace: string, owners: seq<OwnerRef>)
    requires ControllerOf(owners).Some? && OwnerExists(c, namespace, ControllerOf(owners).value)
    ensures ControllerOf(Surviving(c, namespace, owners)) == ControllerOf(owners)
  {
    if !owners[0].controller {
      var rest := Surviving(c, namespace, owners[1..]);
      SurvivingController(c, namespace, owners[1..]);
      if OwnerExists(c, namespace, owners[0]) {
        assert ([owners[0]] + rest)[1..] == rest;
      } else {
        assert Surviving(c, namespace, owners) == rest;
      }
    } else {
      assert Surviving(c, namespace, owners)[0] == owners[0];
    }
  }

  lemma {:induction false} SurvivingWellOwned(c: Cluster, namespace: string, owners: seq<OwnerRef>)
    requires WellOwned(owners)
    ensures WellOwned(Surviving(c, namespace, owners))
  {
    if owners != [] {
      var rest := Surviving(c, namespace, owners[1..]);
      SurvivingWellOwned(c, namespace, owners[1..]);
      forall j | 0 <= j < |rest|
        ensures rest[j] in owners[1..] && (owners[0].controller ==> !rest[j].controller)
      {
        SurvivingOwners(c, namespace, owners[1..], rest[j]);
      }
    }
  }

  function CollectGarbage(c: Cluster, ks: set<Key>): Cluster {
    c.(revision := c.revision + 1,
       paths := map k | k in c.paths && (k in ks ==> Collected(c, k, c.paths[k]).Some?) ::
         if k in ks then Collected(c, k, c.paths[k]).value else c.paths[k])
  }
}

/** The API objects the controller reads and writes, as values. */
module Objects {
  import opened Bytes
  import opened Wrappers

  /** A namespaced name. */
  datatype Key = Key(namespace: string, name: string)

  // Label selectors. Other stands for an operator the API does not define.
  datatype Operator = In | NotIn | Exists | DoesNotExist | Other(text: string)
  datatype Requirement = Requirement(key: string, op: Operator, values: seq<string>)
  datatype LabelSelector = LabelSelector(matchLabels: map<string, string>, matchExpressions: seq<Requirement>)

  datatype OwnerRef = OwnerRef(group: string, kind: string, name: string, uid: nat, controller: bool)

  /** A status condition. Of the message only its one variable part, the number of destinations, is kept. */
  datatype Condition = Condition(kind: string, status: bool, reason: string, destinations: nat, observedGeneration: nat)

  datatype Policy = Policy(
    uid: nat,
    resourceVersion: nat,
    generation: nat,
    finalizers: seq<string>,
    deleting: bool,
    selector: LabelSelector,
    preference: Option<string>,
    conditions: seq<Condition>)

  datatype Peer = Peer(namespace: string, name: string, remoteAS: string, podCIDR: string)

  datatype PathSpec = PathSpec(policyRef: string, destinationCidr: string, nextHopIP: string, hopFields: seq<byte>)
  datatype ComputedPath = ComputedPath(resourceVersion: nat, owners: seq<OwnerRef>, spec: PathSpec)

  /**
   * Everything the API server stores. `revision` is the last resource version handed out, to policies and to
   * computed paths; it also serves as the source of fresh UIDs. `foreign` holds the UIDs of live objects of
   * other kinds.
   */
  datatype Cluster = Cluster(
    revision: nat,
    policies: map<Key, Policy>,
    peers: seq<Peer>,
    paths: map<Key, ComputedPath>,
    foreign: set<nat>)
}

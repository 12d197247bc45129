/** Which policies are reconciled when a pod is assigned an IP. */
module PodMapper {
  import opened Objects

  const DEFAULT_POLICY := Key("kube-system", "default-scion-policy")

  /** The label syntax rules of the Kubernetes library, which are not part of this model. */
  datatype Syntax = Syntax(validKey: string -> bool, validValue: string -> bool)

  datatype PolicyItem = PolicyItem(key: Key, selector: LabelSelector)

  datatype Pod = Pod(namespace: string, labels: map<string, string>)

  predicate ValidRequirement(r: Requirement, x: Syntax) {
    && x.validKey(r.key)
    && (forall v | v in r.values :: x.validValue(v))
    && match r.op
       case In => r.values != []
       case NotIn => r.values != []
       case Exists => r.values == []
       case DoesNotExist => r.values == []
       case Other(_) => false
  }

  /** Whether the selector can be converted at all; the mapper skips a policy whose selector cannot. */
  predicate ValidSelector(s: LabelSelector, x: Syntax) {
    && (forall k | k in s.matchLabels :: x.validKey(k) && x.validValue(s.matchLabels[k]))
    && (forall r | r in s.matchExpressions :: ValidRequirement(r, x))
  }

  predicate Satisfies(labels: map<string, string>, r: Requirement) {
    match r.op
    case In => r.key in labels && labels[r.key] in r.values
    case NotIn => r.key in labels ==> labels[r.key] !in r.values
    case Exists => r.key in labels
    case DoesNotExist => r.key !in labels
    case Other(_) => false
  }

  predicate Matches(s: LabelSelector, labels: map<string, string>) {
    && (forall k | k in s.matchLabels :: k in labels && labels[k] == s.matchLabels[k])
    && (forall r | r in s.matchExpressions :: Satisfies(labels, r))
  }

  predicate Applies(i: PolicyItem, pod: Pod, x: Syntax) {
    ValidSelector(i.selector, x) && Matches(i.selector, pod.labels)
  }

  function Keep(s: seq<PolicyItem>, f: PolicyItem -> bool): seq<PolicyItem> {
    if s == [] then []
    else Keep(s[..|s| - 1], f) + if f(s[|s| - 1]) then [s[|s| - 1]] else []
  }

  /** The requests a pod event must lead to, whatever `policies` the cluster holds. */
  function Requested(policies: seq<PolicyItem>, pod: Pod, x: Syntax): seq<Key> {
    var chosen := Keep(policies, (i: PolicyItem) => i.key.namespace == pod.namespace && Applies(i, pod, x));
    if chosen == [] then [DEFAULT_POLICY] else seq(|chosen|, j requires 0 <= j < |chosen| => chosen[j].key)
  }

  /** Lists the policies of one namespace. A failing list leaves the result empty, as its error is ignored. */
  function ListInNamespace(policies: seq<PolicyItem>, namespace: string, fails: bool): seq<PolicyItem> {
    if fails then [] else Keep(policies, (i: PolicyItem) => i.key.namespace == namespace)
  }

  lemma KeepNext(s: seq<PolicyItem>, f: PolicyItem -> bool, n: nat)
    requires n < |s|
    ensures Keep(s[..n + 1], f) == Keep(s[..n], f) + if f(s[n]) then [s[n]] else []
  {
    assert s[..n + 1][..n] == s[..n];
  }

  method MapPodToPolicies(policies: seq<PolicyItem>, listFails: bool, pod: Pod, x: Syntax)
    returns (requests: seq<Key>)
    ensures requests == if listFails then [DEFAULT_POLICY] else Requested(policies, pod, x)
  {
    var items := ListInNamespace(policies, pod.namespace, listFails);
    ghost var matching := (i: PolicyItem) => Applies(i, pod, x);
    requests := [];
    var hasSpecificPolicy := false;
    for n := 0 to |items|
      invariant hasSpecificPolicy <==> requests != []
      invariant |requests| == |Keep(items[..n], matching)|
      invariant forall j | 0 <= j < |requests| :: requests[j] == Keep(items[..n], matching)[j].key
    {
      var p := items[n];
      KeepNext(items, matching, n);
      if !ValidSelector(p.selector, x) {
        continue;
      }
      if Matches(p.selector, pod.labels) {
        requests := requests + [p.key];
        hasSpecificPolicy := true;
      }
    }
    assert items[..|items|] == items;
    if !hasSpecificPolicy {
      requests := requests + [DEFAULT_POLICY];
    }
    if !listFails {
      KeepTwice(policies, (i: PolicyItem) => i.key.namespace == pod.namespace, matching,
                (i: PolicyItem) => i.key.namespace == pod.namespace && Applies(i, pod, x));
    }
  }

  lemma {:induction false} KeepTwice(
    s: seq<PolicyItem>, f: PolicyItem -> bool, g: PolicyItem -> bool, both: PolicyItem -> bool)
    requires forall t :: both(t) <==> f(t) && g(t)
    ensures Keep(Keep(s, f), g) == Keep(s, both)
  {
    if s != [] {
      var init, last := s[..|s| - 1], s[|s| - 1];
      KeepTwice(init, f, g, both);
      if f(last) {
        assert (Keep(init, f) + [last])[..|Keep(init, f)|] == Keep(init, f);
      } else {
        assert Keep(s, f) == Keep(init, f);
      }
    }
  }

  /** The positions of `s` that qualify, in order. */
  function Positions(s: seq<PolicyItem>, f: PolicyItem -> bool): (at: seq<nat>)
    ensures forall j | 0 <= j < |at| :: at[j] < |s|
    ensures forall i, j | 0 <= i < j < |at| :: at[i] < at[j]
  {
    if s == [] then []
    else Positions(s[..|s| - 1], f) + if f(s[|s| - 1]) then [|s| - 1] else []
  }

  lemma {:induction false} PositionsQualify(s: seq<PolicyItem>, f: PolicyItem -> bool, n: nat)
    requires n < |s|
    ensures n in Positions(s, f) <==> f(s[n])
  {
    var init := Positions(s[..|s| - 1], f);
    if n < |s| - 1 {
      PositionsQualify(s[..|s| - 1], f, n);
    } else if f(s[n]) {
      assert Positions(s, f)[|init|] == n;
    }
  }

  /** What is kept are the elements at the qualifying positions. */
  lemma {:induction false} KeepPositions(s: seq<PolicyItem>, f: PolicyItem -> bool)
    ensures |Keep(s, f)| == |Positions(s, f)|
    ensures forall j | 0 <= j < |Keep(s, f)| :: Keep(s, f)[j] == s[Positions(s, f)[j]]
  {
    if s != [] {
      KeepPositions(s[..|s| - 1], f);
    }
  }

  /**
   * The requests are exactly the keys of the applicable policies of the pod's namespace, in list order and
   * without repetition; they are the default policy alone exactly when no policy applies.
   */
  lemma RequestedExactly(policies: seq<PolicyItem>, pod: Pod, x: Syntax) returns (at: seq<nat>)
    requires forall i, j | 0 <= i < j < |policies| :: policies[i].key != policies[j].key
    ensures forall n | 0 <= n < |policies| ::
              n in at <==> policies[n].key.namespace == pod.namespace && Applies(policies[n], pod, x)
    ensures forall i, j | 0 <= i < j < |at| :: at[i] < at[j] < |policies|
    ensures var r := Requested(policies, pod, x);
            && (forall i, j | 0 <= i < j < |r| :: r[i] != r[j])
            && (at == [] ==> r == [Key("kube-system", "default-scion-policy")])
            && (at != [] ==>
                  |r| == |at| && forall j | 0 <= j < |at| :: at[j] < |policies| && r[j] == policies[at[j]].key)
  {
    var f := (i: PolicyItem) => i.key.namespace == pod.namespace && Applies(i, pod, x);
    at := Positions(policies, f);
    KeepPositions(policies, f);
    forall n | 0 <= n < |policies| {
      PositionsQualify(policies, f, n);
    }
  }

  // What the operators mean, in terms of matchLabels.

  /** The selector that asks for one label. */
  function Label(k: string, v: string): LabelSelector {
    LabelSelector(map[k := v], [])
  }

  /**
   * In asks that a matchLabels entry for one of its values would match, NotIn that none would, Exists that one for
   * some value would, DoesNotExist that none for any value would. A matchLabels entry asks for that very label.
   */
  lemma OperatorsMean(labels: map<string, string>, k: string, vs: seq<string>)
    ensures forall v :: Matches(Label(k, v), labels) <==> k in labels && labels[k] == v
    ensures Satisfies(labels, Requirement(k, In, vs)) <==> exists v :: v in vs && Matches(Label(k, v), labels)
    ensures Satisfies(labels, Requirement(k, NotIn, vs)) <==> !exists v :: v in vs && Matches(Label(k, v), labels)
    ensures Satisfies(labels, Requirement(k, Exists, vs)) <==> exists v :: Matches(Label(k, v), labels)
    ensures Satisfies(labels, Requirement(k, DoesNotExist, vs)) <==> !exists v :: Matches(Label(k, v), labels)
    ensures forall text :: !Satisfies(labels, Requirement(k, Other(text), vs))
  {
    forall v
      ensures Matches(Label(k, v), labels) <==> k in labels && labels[k] == v
    {
      assert k in Label(k, v).matchLabels;
    }
    if k in labels {
      assert Matches(Label(k, labels[k]), labels);
    }
  }

  /** In and NotIn need values, Exists and DoesNotExist must have none, and there is no other operator. */
  lemma RequirementsAreValid(r: Requirement, x: Syntax)
    ensures ValidRequirement(r, x) <==>
              && x.validKey(r.key) && (forall i | 0 <= i < |r.values| :: x.validValue(r.values[i]))
              && ((|r.values| > 0 && (r.op == In || r.op == NotIn))
                  || (|r.values| == 0 && (r.op == Exists || r.op == DoesNotExist)))
  {
  }

  /** The requirements of a selector are ANDed, for meaning and for validity; an empty selector takes every pod. */
  lemma RequirementsAreAnded(s: LabelSelector, r: Requirement, x: Syntax, labels: map<string, string>)
    ensures var t := s.(matchExpressions := s.matchExpressions + [r]);
            && (Matches(t, labels) <==> Matches(s, labels) && Satisfies(labels, r))
            && (ValidSelector(t, x) <==> ValidSelector(s, x) && ValidRequirement(r, x))
    ensures Matches(LabelSelector(map[], []), labels) && ValidSelector(LabelSelector(map[], []), x)
  {
    var t := s.(matchExpressions := s.matchExpressions + [r]);
    assert forall q :: q in t.matchExpressions <==> q in s.matchExpressions || q == r;
  }

  /** matchLabels written out as requirements, in some order of its keys. */
  ghost predicate WritesOut(rs: seq<Requirement>, labels: map<string, string>) {
    && (forall r | r in rs :: r.key in labels && r == Requirement(r.key, In, [labels[r.key]]))
    && (forall k | k in labels :: Requirement(k, In, [labels[k]]) in rs)
  }

  /** Rewriting matchLabels as In expressions changes neither validity nor meaning. */
  lemma MatchLabelsAsExpressions(s: LabelSelector, rs: seq<Requirement>, x: Syntax, labels: map<string, string>)
    requires WritesOut(rs, s.matchLabels)
    ensures var t := LabelSelector(map[], rs + s.matchExpressions);
            (ValidSelector(t, x) <==> ValidSelector(s, x)) && (Matches(t, labels) <==> Matches(s, labels))
  {
    var t := LabelSelector(map[], rs + s.matchExpressions);
    assert forall r :: r in t.matchExpressions <==> r in rs || r in s.matchExpressions;
    forall k | k in s.matchLabels
      ensures Requirement(k, In, [s.matchLabels[k]]) in t.matchExpressions
      ensures ValidRequirement(Requirement(k, In, [s.matchLabels[k]]), x)
          <==> x.validKey(k) && x.validValue(s.matchLabels[k])
      ensures Satisfies(labels, Requirement(k, In, [s.matchLabels[k]]))
          <==> k in labels && labels[k] == s.matchLabels[k]
    {
      assert s.matchLabels[k] in [s.matchLabels[k]];
    }
  }

  // The events of one pod's life, as the watch delivers them. An absent IP is the empty string.
  datatype PodEvent = Created(ip: string) | Updated(before: string, after: string) | Deleted

  /** The watch predicate. It names no filter for deletions, which the library then lets through. */
  predicate IPAssigned(e: PodEvent) {
    match e
    case Created(ip) => ip != ""
    case Updated(before, after) => before == "" && after != ""
    case Deleted => true
  }

  /** The events of a pod observed with these IPs in turn, and then perhaps deleted. */
  function EventsOf(ips: seq<string>, deleted: bool): (es: seq<PodEvent>)
    requires ips != []
    ensures |es| == |ips| + if deleted then 1 else 0
    decreases |ips|, deleted
  {
    if deleted then EventsOf(ips, false) + [Deleted]
    else if |ips| == 1 then [Created(ips[0])]
    else EventsOf(ips[..|ips| - 1], false) + [Updated(ips[|ips| - 2], ips[|ips| - 1])]
  }

  /** A pod wakes the controller exactly when it has an IP that it did not have just before, and when it is deleted. */
  lemma {:induction false} WokenWhenIPAppears(ips: seq<string>, deleted: bool, n: nat)
    requires ips != [] && n < |EventsOf(ips, deleted)|
    ensures IPAssigned(EventsOf(ips, deleted)[n])
        <==> n == |ips| || (ips[n] != "" && (n == 0 || ips[n - 1] == ""))
    decreases |ips|, deleted
  {
    if deleted && n < |ips| {
      WokenWhenIPAppears(ips, false, n);
    } else if |ips| > 1 && n < |ips| - 1 {
      WokenWhenIPAppears(ips[..|ips| - 1], false, n);
    }
  }
}

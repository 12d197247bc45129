# A verified model of Cilion

Cilion carries Kubernetes pod traffic between clusters over SCION paths. This project models its behaviour in
Dafny 4.11 and proves properties of the model; `dafny verify dfyconfig.toml` checks everything. Nothing here was
executed.

Four parts of the system are modelled.

* **The path-policy controller.** `ApiServer` is the API store, updated in place; `ScionPathPolicyReconciler.Reconcile`
  is one reconcile pass over it, with an oracle for the path service and one for which call fails. `Pass` gives the
  same pass as steps of at most one call each: the read and the write of a path are two steps, and paths as well as
  policies carry versions, so that a write whose object changed since it was read fails. `Reconcile` is proved equal
  to running those steps (`Pass.Run`). `LastWriter` and `PassLaws` are about whole passes: what a pass writes,
  resumption after crashes, fixed points, passes that write nothing, the order of peers, clashes, deletion. `Runs`
  puts the pass among users, peers, other controllers and the garbage collector, which can all act between any two of
  its calls; `RunLaws` proves safety over every such run, and `Provenance` traces each stored path to the pass that
  made it. Laws that compare two stores leave the versions out (`LastWriter.Plain`) unless they are about versions.
* **The datapath.** `PacketBuffer` is packet memory; `TcEgress.Run` and `XdpIngress.Run` are the two BPF programs
  over it, each proved equal to a function on byte strings. `Wire` says what these do in bytes at fixed offsets and in
  the packet's own counts. `RoundTrip` proves when ingress undoes egress.
* **The kernel maps.** `Loader` and `HashMap` are the maps and their writer, byte strings on both sides.
* **UncommentCode**, the text transformation of the test utilities.

## What the proofs found

* The preference of a policy is optional in the API (`api/v1alpha1/scionpathpolicy_types.go:37-39`), but the loop
  dereferences it: `PanicsIff` says exactly when a pass panics, `PanicExample` gives an input.
* Two peers of one name that want different specs make every pass write their path again, for ever: a pass after the
  first writes nothing exactly when ready peers of one name want one spec (`QuietIff`, `RewrittenForEver`).
* Deletion removes the policy's paths only if no other finalizer holds the policy back (`DeletionDrains`, `HeldBack`).
* Two policies can produce one path name although neither name contains the separator (`ClashExample`); which policy
  names can clash with shorter ones, all names being valid, is `ClashesIff`.
* Ingress recovers the packet exactly if three things hold: the stored path length is the one the path header
  announces, the current hop field verifies under the key in ingress's own map, and the stamped MAC does not lie on
  the inner packet (`IngressUndoesEgress`). The first fails for entries with a wrong length (`UnannouncedPathIsLost`).
  The last fails for a path without hop fields: egress stamps a MAC all the same, over the first six bytes of the
  inner IP header, and ingress passes the damaged packet (`NoHopFieldCorrupts`, `CorruptedExample`).
* The outer length fields wrap for packets that no longer fit 65535 bytes (`LengthsAreRightIff`, `LengthWraps`).
* The loader never writes the map that ingress reads its key from, so on its own the system drops all SCION traffic
  that arrives (`LoaderAloneNeverDecapsulates`); the source marks sharing the maps as still to do.
* Uncommenting silently deletes a block from its first line at or over the scanner's limit of 65536 characters on,
  unless that is the block's first line, in which case nothing is uncommented (`LongLineLost`). It does not restore
  lines that end in carriage returns, empty lines behind a longer prefix that ends in one, nor a final empty line when
  the prefix is empty (`RestoredIff`, `CarriageReturnLost`). A prefix with a line feed in it removes nothing
  (`LineFeedPrefix`).

## Reading of unfinished code

* `bpf/tc_egress.c:117-118` is a note to copy the SCION header that the control plane prepares. The model makes that
  copy: common and address headers, the first `path_len` bytes of `hop_fields`, and the end-to-end extension. The
  undeclared names at lines 121-127 are read as positions in that header, `hf->mac` as six bytes, and a header or
  field outside the packet makes the function fail, like its other bounds checks.
* `hop_fields` is read as starting with the path meta header: both programs look for the info and hop fields behind
  one, and nothing else puts it into the packet. The comment at `bpf/maps.h:12` names info and hop fields only. For
  an entry in that format the laws hold as they stand, with whatever bytes lie where the two counts are looked for:
  ingress gives the packet back only if these happen to add up to the stored length (`IngressUndoesEgress`).
* Struct sizes are symbolic (`ScionMac.Layout`); `C_LAYOUT` is what a C compiler makes of the structs. The one fact
  needed beyond bounds is that an info field is not longer than the part of a hop field before its MAC, which matters
  when a path has no info field.
* The MAC is an arbitrary function of key, info field and the rest of the hop field, which may fail; the stub of the
  source (`ScionMac.STUB`) is one instance.

## Model

| member | source | states |
|---|---|---|
| Reconciler.ScionPathPolicyReconciler.Reconcile | internal/controller/scionpathpolicy_controller.go:55-159 | The pass over the store, with every early exit, leaves exactly the store and outcome that its steps define, whatever fails |
| Reconciler.ApiServer.UpdatePolicy | internal/controller/scionpathpolicy_controller.go:69-82 | A policy is stored only if it is still the version that was read; otherwise nothing changes |
| Reconciler.ApiServer.UpdatePath | internal/controller/scionpathpolicy_controller.go:121-131 | A path is stored only if it is still the version that was read; otherwise nothing changes |
| Reconciler.ScionPathPolicyReconciler.CreateOrUpdate | internal/controller/scionpathpolicy_controller.go:119-136 | A path is read, mutated, then created, updated or left alone; a refusal or a failure of either call leaves the store as it was |
| Pass.Iterate | internal/controller/scionpathpolicy_controller.go:94-138 | An iteration's fetch, read and write are one atomic step when nothing comes between them |
| Ownership.UpsertControls | internal/controller/scionpathpolicy_controller.go:123-125 | After an accepted controller reference the path is controlled by this policy, UID included |
| Ownership.UpsertIdempotent | internal/controller/scionpathpolicy_controller.go:119-125 | Setting the reference again changes nothing |
| Ownership.UpsertExactly | internal/controller/scionpathpolicy_controller.go:123-125 | The first owner reference of the same group, kind and name, whatever its UID, is replaced in its place, or else the new one comes last; every other stays |
| Ownership.AdoptableIff | internal/controller/scionpathpolicy_controller.go:123-125 | The reference is refused exactly when the first controller differs in group, kind or name |
| Ownership.RecreatedAdopts | internal/controller/scionpathpolicy_controller.go:123-125 | A policy created again, with a new UID, takes over its predecessor's paths |
| Ownership.CollectedIff | internal/controller/scionpathpolicy_controller.go:66-67 | Garbage collection removes an object exactly when it has owners and none lives, by name, namespace and UID; else it keeps the spec and the living owners |
| LastWriter.LoopRefinesLastWriter | internal/controller/scionpathpolicy_controller.go:94-158 | The loop stops at the first peer that fails with exactly the effects of the ready peers before it; else it requeues or reports |
| LastWriter.WantedFromLastReady | internal/controller/scionpathpolicy_controller.go:96-131 | A path's spec comes from the last ready peer with that path's name |
| LastWriter.LastKnownGood | internal/controller/scionpathpolicy_controller.go:96-138 | No pass removes a path; one changes only if a peer of it was found ready before the pass stopped; every peer found ready before the stop, unready ones before it or not, has its path with the last such peer's spec |
| LastWriter.IdlePass | internal/controller/scionpathpolicy_controller.go:60-92 | A pass that ends before its loop, by success or failure, leaves every path as it is |
| LastWriter.PanicsIff | internal/controller/scionpathpolicy_controller.go:98 | A pass panics exactly when it reaches a peer for a live policy without a preference |
| LastWriter.PanicExample | internal/controller/scionpathpolicy_controller.go:98 | A policy without a preference and one peer: the pass panics |
| PassLaws.EarlyExits | internal/controller/scionpathpolicy_controller.go:58-92 | How a pass ends before its loop: failed calls are reported and change nothing, a missing policy is done, the finalizer is added behind the others, or taken away, the policy going with its last one |
| PassLaws.LoopExits | internal/controller/scionpathpolicy_controller.go:96-158 | How it ends in its loop: which error at the first position that fails, a requeue in ten seconds if a peer was not ready, else done or a failed status report |
| PassLaws.TwoPassesConverge | internal/controller/scionpathpolicy_controller.go:77-158 | After two passes without errors any number of further passes change no owner, spec, finalizer or condition; one suffices with the finalizer; repeated peer names included |
| PassLaws.QuietIff | internal/controller/scionpathpolicy_controller.go:94-158 | Every pass after the first writes nothing at all, versions included, exactly when ready peers of one name want the same spec |
| PassLaws.RewrittenForEver | internal/controller/scionpathpolicy_controller.go:88-131 | Two peers named alike with different CIDRs: every further pass writes, and changes no content |
| PassLaws.CrashResume | internal/controller/scionpathpolicy_controller.go:77-158 | Any number of passes broken off anywhere, then a complete pass with every peer ready, end like the complete pass alone, versions apart |
| PassLaws.OrderOfPeersIrrelevant | internal/controller/scionpathpolicy_controller.go:86-144 | If peers of one name are one peer, any order of the list gives the same store, versions apart, and the same requeue decision |
| PassLaws.ClashFailsThePass | internal/controller/scionpathpolicy_controller.go:121-136 | A path controlled by something else fails the pass, stays as it is, and earlier peers' writes are kept |
| PassLaws.DeletionDrains | internal/controller/scionpathpolicy_controller.go:64-75 | After a successful pass for a deleted policy and garbage collection no owned path is left exactly when the pass took its last finalizer away (or none was owned); later passes do nothing |
| PassLaws.HeldBack | internal/controller/scionpathpolicy_controller.go:64-75 | A policy with a second finalizer: the pass succeeds and garbage collection removes nothing |
| Runs.ExecKeepsGood | internal/controller/scionpathpolicy_controller.go:55-159 | In every run, with others acting between any two calls: versions are fresh, a policy or path still at the version read is what was read, paths have one controller, and what the loop wrote is still there while the policy is current |
| Runs.PassIsARun | internal/controller/scionpathpolicy_controller.go:55-159 | A pass nothing interrupts is one of the runs |
| Provenance.PathsAreExplained | internal/controller/scionpathpolicy_controller.go:58-138 | In every reachable state each path a policy owns has it as its only controller and was stored by one pass for it, UID included, which read it with finalizer and without deletion timestamp, then listed the peer, then got one answer for it; the name is policy, "-to-", peer, in the policy's namespace, and policy reference, destination CIDR, next hop and hop fields are the policy's name, the peer's CIDR and the answer's two fields |
| RunLaws.StepWrites | internal/controller/scionpathpolicy_controller.go:65-131 | A pass writes a path only in its loop, holding a live copy, only that of the current peer and where no other object controls it; it is then the only controller, a new path's only owner, and policy reference, CIDR, next hop and hop fields are the policy's, the peer's and the answer's |
| RunLaws.ReadyIsHonest | internal/controller/scionpathpolicy_controller.go:93-156 | Whenever a pass reports Ready, anew or again: every peer it listed was ready; the stored policy is the one it read and nothing but its Ready condition changes, which is put in its place, true, for reason PathsComputed, with the policy's generation and the number of peers; every listed peer's path is there, owned by it alone, with the CIDR and answer of the last such peer |
| RunLaws.OnlyReportsChangeConditions | internal/controller/scionpathpolicy_controller.go:146-156 | Nothing but such an honest report changes a stored policy's conditions |
| RunLaws.GenerationTellsSpec | api/v1alpha1/scionpathpolicy_types.go:28-39 | Over any run a policy's generation never falls and, while it stays, so do selector, preference and deletion, whatever passes write: the generation in a condition tells the spec |
| RunLaws.OnlyOwnPathsChange | internal/controller/scionpathpolicy_controller.go:121-136 | A pass changes a controlled path only if its own policy controls it |
| RunLaws.OthersPathsSurvive | internal/controller/scionpathpolicy_controller.go:96-136 | Over any run without a pass for it, a living policy's paths keep controller and spec, name clashes notwithstanding |
| RunLaws.DeletionIsFinal | internal/controller/scionpathpolicy_controller.go:60-75 | Once a policy is being deleted, whoever removes it, and no pass holds it as it was before, in every run it comes to own no path, and loses each path it owned for good once garbage collection has looked at it with the policy gone |
| RunLaws.ReleaseDooms | internal/controller/scionpathpolicy_controller.go:65-75 | A step of a pass that removes its policy brings that state about |
| RunLaws.MissingPolicyIsInert | internal/controller/scionpathpolicy_controller.go:60-62 | Until a policy is created again, requests for it change nothing at any step |
| PathNames.PathNameInjective | internal/controller/scionpathpolicy_controller.go:111 | Between policy names that neither contain "-to-" nor end in "-to" the path name determines policy and peer |
| PathNames.ClashForcesSeparator | internal/controller/scionpathpolicy_controller.go:111 | For any names at all, a clash forces the longer policy name to contain "-to-" or to end in "-to" |
| PathNames.ClashesIff | internal/controller/scionpathpolicy_controller.go:111 | For valid names, a policy name can clash with a shorter one exactly when an inner "-to-" or a final "-to" splits off a policy's name and a peer's name can go on from there, and a path name of 253 characters has room for it |
| PathNames.ClashExample | internal/controller/scionpathpolicy_controller.go:111 | Policies "a" and "a-to", neither containing "-to-", get one path name for the peers "to-x" and "x" |
| PathNames.ValidNames | internal/controller/scionpathpolicy_controller.go:111 | The names the API accepts: valid names joined by a dot, and examples of valid and invalid ones |
| PodMapper.MapPodToPolicies | internal/controller/scionpathpolicy_controller.go:183-221 | The loop returns the requested policies; a failed list leads to the default policy |
| PodMapper.RequestedExactly | internal/controller/scionpathpolicy_controller.go:193-218 | The requests are the applicable policies of the pod's namespace, in order, without repetition, and kube-system/default-scion-policy alone exactly when there is none |
| PodMapper.MatchLabelsAsExpressions | config/crd/bases/cilion.cilion.io_scionpathpolicies.yaml:83-86 | matchLabels rewritten as In expressions keep validity and meaning |
| PodMapper.OperatorsMean | config/crd/bases/cilion.cilion.io_scionpathpolicies.yaml:57-86 | In holds when a matchLabels entry for one of its values would, NotIn when none would, Exists when one for any value would, DoesNotExist when none would |
| PodMapper.RequirementsAreValid | config/crd/bases/cilion.cilion.io_scionpathpolicies.yaml:60-64 | In and NotIn must have values, Exists and DoesNotExist must have none, other operators are invalid |
| PodMapper.RequirementsAreAnded | config/crd/bases/cilion.cilion.io_scionpathpolicies.yaml:83-86 | One more requirement is ANDed, for meaning and validity; an empty selector takes every pod |
| PodMapper.WokenWhenIPAppears | internal/controller/scionpathpolicy_controller.go:165-179 | A pod wakes the controller exactly when it has an IP it did not have at the observation before, and when it is deleted |
| XdpIngress.Run | bpf/xdp_ingress.c:53-169 | The program over packet memory is the specified function of the packet; every access is in bounds |
| XdpIngress.ReadHeaders | bpf/xdp_ingress.c:59-115 | The checks and offset computations find exactly the parsed headers |
| XdpIngress.LateExitsUnreachable | bpf/xdp_ingress.c:107-153 | The bound at line 108 makes the exits at lines 145 and 153 unreachable |
| Wire.PassedExactly | bpf/xdp_ingress.c:59-168 | Exactly what is passed, by byte offsets and the packet's own counts: what is not IPv4, UDP and port 30041, untouched; or a packet whose current hop field, num_inf info and cur_hf hop fields behind the path meta header, carries its MAC and that keeps 34 bytes, as its MAC addresses, the IPv4 type and what lies behind num_hf hop fields and the extension |
| Wire.ScionStartIff | bpf/xdp_ingress.c:59-90 | The filters let through exactly IPv4 over UDP to port 30041, with the SCION header behind a header of ihl words |
| Wire.HopFieldsTile | bpf/xdp_ingress.c:38-47 | Hop fields lie one behind another, the first right behind the info fields, and the path header ends where one more would start |
| Wire.BadSecondHopIsDropped | bpf/xdp_ingress.c:96-130 | On the program's layout and MAC, a packet whose second hop field is current and carries a wrong MAC is dropped, whatever the first carries |
| Wire.SpoofedExample | bpf/xdp_ingress.c:96-130 | Such a packet, concretely; with the first hop field current it would be passed |
| ScionMac.VerifyScionMac | bpf/scion_mac.h:38-63 | The byte-by-byte comparison accepts exactly the hop fields that carry their own MAC |
| ScionMac.StampVerifies | bpf/scion_mac.h:18-63 | A stamped hop field verifies under the same key and only its six MAC bytes changed |
| TcEgress.Run | bpf/tc_egress.c:139-200 | The program over packet memory is the specified function of packet and maps |
| TcEgress.WriteScionHeaders | bpf/tc_egress.c:69-133 | The headers written field by field are the specified outer Ethernet, IPv4, UDP and SCION headers, the rest unchanged |
| TcEgress.ParseIpv4 | bpf/tc_egress.c:41-51 | Succeeds exactly when the fixed and the full header are inside the packet |
| Wire.EgressExits | bpf/tc_egress.c:146-186 | What is not IPv4, comes from no known pod or has no path leaves untouched; a path over 256 bytes or a refusal by the kernel shoots the packet |
| RoundTrip.IngressUndoesEgress | bpf/xdp_ingress.c:103-168 | For any key ingress holds and any current hop: ingress gives back the readdressed original exactly when the stored path length is the announced one, the current hop field verifies under ingress's key, and the stamped MAC spares the original |
| RoundTrip.LengthDecides | bpf/tc_egress.c:169-195 | With a first hop field that is the current one and a key as good as the entry's, such as any key under the source's own MAC, only the stored length decides |
| RoundTrip.NoHopFieldCorrupts | bpf/tc_egress.c:120-130 | On the program's layout and MAC, a path without hop fields: the entry is consistent and ingress passes, for any key, a packet other than the original |
| RoundTrip.CorruptedExample | bpf/tc_egress.c:120-130 | Such an entry and a packet, concretely |
| RoundTrip.EgressWraps | bpf/tc_egress.c:82-130 | What egress sends, field by field at its wire offset: Ethernet addresses and type, IPv4 version, length, service, identification, fragment, time to live 64, protocol, addresses, UDP ports, length and checksum; then common header, address header, path, extension and original one behind another, six stamped bytes apart, and a first hop field that verifies |
| RoundTrip.UnannouncedPathIsLost | bpf/tc_egress.c:169-195 | A concrete packet and path entry whose stored length is not the announced one: egress sends it, ingress does not give it back |
| RoundTrip.ConsistentPathsAreSent | bpf/tc_egress.c:163-195 | If the MAC computation and the kernel do not fail, a packet of a consistent path is sent exactly if it is long enough for a first hop field, and so always if the path has one |
| RoundTrip.LengthsAreRightIff | bpf/tc_egress.c:92-115 | At most 328 bytes are added, and the outer lengths are right exactly when everything fits 65535 bytes |
| RoundTrip.LengthWraps | bpf/tc_egress.c:92-115 | Packets of 65570 bytes are sent with 92 as their outer total length |
| BpfMaps.EgressFollowsTheLoader | pkg/bpf/loader.go:139-169 | After any loader calls, rejected ones included, egress selects what replaying the successful ones gives |
| BpfMaps.CallFailsIff | bpf/maps.h:16-30 | A call fails exactly for a non-IPv4 address, a new key in a map of 10000 pods or 1024 paths, or the deletion of an absent key |
| BpfMaps.HotSwap | pkg/bpf/loader.go:161-164 | After any run of loader calls, replacing one id's path changes the choice for exactly the pods on that id |
| BpfMaps.Loader.UpdatePodPolicy | pkg/bpf/loader.go:139-146 | The pod's entry is stored under its key, or an error is returned and nothing changes |
| BpfMaps.Loader.DeletePodPolicy | pkg/bpf/loader.go:148-155 | The pod's entry is removed, or an error is returned and nothing changes |
| BpfMaps.Loader.UpdateScionPath | pkg/bpf/loader.go:161-164 | The id's entry is stored, or an error is returned and nothing changes |
| BpfMaps.Loader.DeleteScionPath | pkg/bpf/loader.go:166-169 | The id's entry is removed, or an error is returned and nothing changes |
| BpfMaps.KeysInvert | pkg/bpf/types.go:34-47 | Keys and IPv4 addresses determine each other under either byte order |
| BpfMaps.KeyBytesAreTheAddress | pkg/bpf/types.go:27-40 | Both written forms of an address give one key, whose bytes in memory are the address |
| BpfMaps.To4Iff | pkg/bpf/types.go:34-40 | Exactly four bytes, and the same behind ten zero bytes and two of ones, are IPv4 addresses |
| BpfMaps.IPFromKey | pkg/bpf/types.go:42-47 | The bytes written are the key's in the machine's order |
| BpfMaps.CViewOfMarshal | pkg/bpf/types.go:9-25 | Each field of an entry is stored at the C struct's offset, and reading the fields there gives the entry back |
| UncommentCode.Uncomment | test/utils/utils.go:178-226 | The scanning loop computes the specified contents |
| UncommentCode.OutsideUnchanged | test/utils/utils.go:187-217 | An absent target, and nothing else, is an error; otherwise all text outside the first occurrence of the target stays |
| UncommentCode.UncommentCommented | test/utils/utils.go:187-217 | For any prefix of one line, uncommenting a commented block leaves the text around it and gives its lines, up to the first over the scanner's limit, without carriage returns |
| UncommentCode.RestoredIff | test/utils/utils.go:187-217 | For any prefix of one line the block is restored exactly when every commented line is within the scanner's limit, no line ends in a carriage return or is empty behind a longer prefix that does, and no final empty line hides behind an empty prefix; with a first line over the limit, exactly when the prefix is empty |
| UncommentCode.LineFeedPrefix | test/utils/utils.go:195-207 | For any file and target a prefix of several lines does what the empty prefix does |
| UncommentCode.CarriageReturnLost | test/utils/utils.go:187-217 | A commented line that ends in a carriage return comes back without it |
| UncommentCode.LongLineLost | test/utils/utils.go:195-214 | A second line at the scanner's limit and all behind it in the block are deleted without an error |

## Left out

* Stale caches: reads see the store as it is at that call. What others do after the read is covered, since they can
  act between any two calls of a pass.
* Two passes at the same time: the controller runs one worker.
* A write that takes effect although its call reports an error; its state is that of a pass stopped after the write.
* The wording of the status message but for the number in it, and transition times.
* The generation of a computed path, which the controller does not read; UIDs of computed paths.
* Foreground and orphaning deletion: garbage collection is the background kind, which waits for the owner to be gone.
  Under the finalizers of the other two it deletes dependents, or strips their owner references, before that.
* Delivery of watch events: the laws are about passes that run, not about which event starts one.
* Label syntax: validity of keys and values is an arbitrary predicate.
* Owner kinds other than the policy exist or not by UID alone; only the controller writes objects a policy owns.
* UncommentCode.RestoredIff: prefixes of several lines, which remove nothing; what little they restore is coincidence.
* Calculating the AES-CMAC, clamping the TCP MSS, the outer checksum and source address: stubs or not set in the source.
* Kernel helpers failing for other than their size check are one answer, `granted`.
* Program loading and attachment, the other two reconcilers, which are empty, the command-line entry points and YAML.
* Reading and writing the file around UncommentCode, and the other test utilities.

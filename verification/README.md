# Verification of the Ray MCP write path

A Dafny model of the server that turns tool calls of an agent into reads, applies and deletes of
RayCluster, RayService and RayJob objects, and proofs of what the code is for.  `dafny verify
dfyconfig.toml` checks everything.

The objects are untyped JSON.  `Json` gives them a meaning as partial functions from paths to labels;
two values are equal exactly when they agree at every path, and most statements are made path by path.
Go's mutable `map[string]any` trees are heap nodes (`Heap`), each operation of the Go code on them is a
method with the same control flow, and a ghost tree records which nodes a value owns, so sharing and
frame conditions are proof obligations.  Every such method is proved equal to a function on `Json`; the
theorems are about those functions.  `DiffMeaning`, `DiffReport`, `ClassifyLaw`, `ScaleLaw`, `DeleteLaw` and
`ServiceFrame` say what those functions return in terms of paths, labels and literal names and numbers alone.

| part of the program | specification and theorems | as it runs |
|---|---|---|
| structural diff (`diff.go`) | `DiffSpec`, `DiffTheorems`, `DiffMeaning`, `DiffReport`, `DiffCounts`, `DiffSymmetry`, `DiffPaths`, `Strings` | `Diff` |
| merge patch (`merge.go`) | `MergeSpec` | `Heap`, `HeapEdits`, `Merge` |
| normalised comparison and rollout prediction (`service_write.go`) | `GroupEdits`, `Normalize`, `Classify`, `ClassifyLaw`, `ServiceUpdate`, `ServiceFrame` | `GroupHeap`, `ServiceHeap`, `ServiceBuild`, `ServiceApply` |
| update and scale builders (`cluster_update.go`) | `Edits`, `WriteSpec`, `ClusterFrame`, `Replicas`, `ClusterScale`, `ScaleLaw` | `BuilderHeap`, `ClusterBuild` |
| apply pipeline and conflict retry (`apply.go`, `cluster_update.go`) | `Server`, `ApplySpec`, `ApplyTheorems`, `ApplySafety` | `Wire`, `Apply` |
| tunnel pool (`pool.go`) | `PoolSpec` | `Pool` |
| log tail (`client.go`) | `Utf8` | `Logs` |
| fingerprints, protection and deletes (`guards.go`, the `Delete` methods) | `Encoding`, `Guards`, `DeleteLaw`, `Protection` | `Guards`, `Delete` |
| bounded wait (`job.go`) | `WaitSpec` | `Wait` |

**The API server.**  `Server` follows the description at the head of `cluster_update.go`:
`spec.workerGroupSpecs` is one atomic field; other managers may rewrite the object in any way between any
two requests, and a write that changes the list takes ownership of it; an unforced apply of a different
list over a foreign one conflicts; a forced one takes the list over; a dry run changes nothing.
Everything else is decided by an oracle at each request: failures before and after the write took
effect, conflicts over other fields, defaulting.  Statements are for all oracles.

**Where the code and its documentation differ.**  The model follows the code.

- A service without an object `rayClusterConfig` has an empty one created by the update; because an
  absent map and an empty one are not `DeepEqual`, an update of labels only is reported as
  "scale (no swap)" instead of "no change detected".  `ServiceUpdate.UpdatePrediction` states the
  prediction with this case.
- `validateWorkerBounds` is documented to enforce non-negativity but has no lower bound on replicas.
  `ClusterScale.NegativeReplicasIff` says exactly when a negative count is submitted and `ClusterScale.NegativeReplicasPass` an
  input.
- `GuardProtectedChange` is documented as gating every write that weakens the protected annotation.  No
  write service calls it at this commit.  `Protection.UpdateProtection` and `Protection.ServiceProtection`
  say exactly when a submitted object is protected, `Protection.ScaleProtection` that a scale changes
  nothing, and `Protection.UnprotectNeedsNoConfirm` gives an update the gate would have stopped.
- The pool's reaper is documented to reap a tunnel within about 1.5 times the idle window.  `close` stops
  the reaper, `endpoint` still dials after it, and nothing starts the reaper again.
  `PoolSpec.TunnelsReapedInTime` is the bound before `close`, `PoolSpec.LateDialIsNeverReaped` the
  counterexample after it, and `PoolSpec.InTimeIff`, `PoolSpec.InTimeLastsIff` and
  `PoolSpec.QuietPoolInTime` the conditions.
- The headline count of a diff equals the leaf change count only when no empty container is added or
  removed (`DiffCounts.HeadlineBounds` has the exact condition).

**Assumptions.**  The hash is a parameter of `Guards`; the fingerprint lemmas assume that it does not
collide on the two inputs at hand.  String lengths fit a Go int.  The library sort is specified by
`StableSort` and `SortedKeys`.

## Model

| member | source | states |
|---|---|---|
| DiffTheorems.DiffSoundAndComplete | internal/domain/diff.go:91-175 | every entry names a place where the trees really differ in the way its kind, values and depth say; no entry lies at or above another; and at every path not at or below an entry the trees carry the same label |
| DiffTheorems.DiffEmptyIffEqual | internal/domain/diff.go:88-109 | the result is empty exactly when the two objects are equal, at every collapse depth |
| DiffTheorems.WalkSound | internal/domain/diff.go:114-175 | one entry of the recursive walk, against the two trees it was computed from |
| DiffTheorems.WalkComplete | internal/domain/diff.go:114-175 | a path under no entry has the same label on both sides |
| DiffTheorems.WalkIndependent | internal/domain/diff.go:114-175 | no reported path is a prefix of another |
| DiffTheorems.SortIsStable | internal/domain/diff.go:104-109 | the reported order: by path, a permutation of the walk, entries of equal path in walk order |
| DiffMeaning.LeavesCounted | internal/domain/diff.go:244-263 | the leaf count of a value is the number of paths that hold a leaf: the duplicate-free list of exactly those paths has that length |
| DiffMeaning.ChangesCounted | internal/domain/diff.go:196-242 | the leaf change count is the number of places that differ: the one-sided leaf paths, and the paths, reached through agreeing containers, where two different values meet that are not the same kind of container |
| DiffReport.DiffExplained | internal/domain/diff.go:88-109 | what the caller gets, without reference to how it is computed: every reported entry renders one that describes the two trees at its path, every such entry is reported, and every difference lies at or below one |
| DiffReport.RenderedAsTokens | internal/domain/diff.go:301-312 | a rendered path is its steps in order, a key after a dot and an index in brackets |
| Strings.ItoaDecimal | internal/domain/diff.go:310-312 | a rendered index is its decimal numeral: digits of that value without a leading zero |
| Strings.LessEqLexicographic | internal/domain/diff.go:297-298 | the order of the listing is the lexicographic one |
| DiffCounts.HeadlineBounds | internal/domain/diff.go:68-86 | leaf change count <= headline at depth d <= headline at depth d+1, and the first is an equality exactly when no leafless container within that depth is present on one side only |
| DiffCounts.HeadlineExact | internal/domain/diff.go:68-86 | without empty objects or arrays the headline is the leaf change count at every depth |
| DiffCounts.HeadlineInexact | internal/domain/diff.go:244-263 | why the hypothesis is needed: an input with an empty object whose headline depends on the depth |
| DiffCounts.Accounting | internal/domain/diff.go:114-263 | headline = leaf changes + leafless containers listed, for every pair of trees and every depth |
| DiffSymmetry.DiffSymmetric | internal/domain/diff.go:104-194 | comparing the other way round gives the same entries in the same order with added/removed and old/new exchanged |
| DiffSymmetry.CountSymmetric | internal/domain/diff.go:196-242 | the leaf change count does not depend on the direction |
| DiffPaths.RenderInjective | internal/domain/diff.go:301-312 | for keys that are non-empty and free of "." and "[" two different paths never render alike |
| DiffPaths.DiffPathsDistinct | internal/domain/diff.go:104-109 | for such keys the entries have pairwise distinct rendered paths, so the sorted order is total |
| DiffSpec.StepsExact | internal/domain/diff.go:126-163 | the keys or indices visited are exactly the children present on either side, each once |
| Strings.SortedUnique | internal/domain/diff.go:284-299 | a key set has one ascending listing, so the map order of the union loop does not matter |
| Diff.Diff | internal/domain/diff.go:104-109 | the method computes the specified change list |
| Diff.WalkDiff | internal/domain/diff.go:114-175 | appends to the shared output exactly the entries of the specified walk, keeping what is there |
| Diff.WalkChildren | internal/domain/diff.go:126-163 | the loop over keys or indices appends the entries of the children in visiting order |
| Diff.WalkChild | internal/domain/diff.go:127-137 | the three-way switch at one child: removed, added, or compared one level down |
| Diff.EmitPresence | internal/domain/diff.go:177-194 | one entry for a child present on one side: its scalar, or its leaf count |
| Diff.SumChanges | internal/domain/diff.go:196-242 | the accumulating loops total the specified leaf-level difference count |
| Diff.SumLeaves | internal/domain/diff.go:244-263 | the loops over maps and arrays count the scalar leaves, in any map order |
| Diff.FieldCount | internal/domain/diff.go:68-86 | the headline loop totals the specified weights |
| Diff.UnionKeys | internal/domain/diff.go:284-299 | collects and sorts the union of both key sets |
| Diff.SortKeys | internal/domain/diff.go:297-298 | sorting yields the one ascending listing of the collected keys |
| Merge.Merge | internal/domain/merge.go:55-69 | for all inputs: the result is section 2 of RFC 7396 applied to base, guarded by identity; base and rawSpec are not modified and every node of the result is fresh, so nothing mutable is shared |
| Merge.MergePatch | internal/domain/merge.go:76-101 | the in-place patch computes MergePatch of RFC 7396 whatever order the names are visited in, changes only nodes the target owns, and leaves the patch alone |
| Merge.MergeMember | internal/domain/merge.go:77-100 | one name: null removes, an object patches, anything else replaces with a clone |
| Merge.MergeIntoMember | internal/domain/merge.go:93-94 | an object patches an object member where it is |
| Merge.MergeIntoFresh | internal/domain/merge.go:95-99 | an object over an absent or other member patches an empty object, so nested nulls are stripped |
| Merge.ReplaceMember | internal/domain/merge.go:84-88 | a scalar or array replaces wholesale and is never aliased |
| Merge.CloneMap | internal/domain/merge.go:103-111 | a deep copy with fresh nodes and the same JSON; nil clones to an empty object |
| Merge.CloneValue | internal/domain/merge.go:113-128 | deep copy of any JSON value |
| Merge.NestedString | internal/domain/merge.go:130-147 | the string at a chain of keys, and whether one is there, for every shape of tree |
| MergeSpec.PatchedAt | internal/domain/merge.go:71-101 | the result name by name, as RFC 7396 section 2 defines it |
| MergeSpec.IdentityKept | internal/domain/merge.go:59-66 | for a non-empty identity, success means exactly that metadata.name and metadata.namespace are those strings |
| MergeSpec.IdentityRejected | internal/domain/merge.go:59-66 | which field a failed merge names, with the wanted and the found string: the name first, then the namespace |
| MergeSpec.PatchIsRfc7396 | internal/domain/merge.go:71-101 | the algorithm of section 2 of RFC 7396 by members of target and patch alone |
| MergeSpec.PatchIdempotent | internal/domain/merge.go:71-101 | merging the same rawSpec twice is merging it once |
| MergeSpec.PatchKeepsNoNull | internal/domain/merge.go:38-46 | nulls delete and are never stored: a base without null members outside arrays gives such a result |
| MergeSpec.UnreachedKept | internal/domain/merge.go:76-101 | a path the patch does not reach keeps its base label |
| MergeSpec.PatchInstalled | internal/domain/merge.go:76-101 | a path the patch sets carries the patch value, or nothing for null |
| Normalize.AtNormal | internal/domain/service_write.go:477-514 | the normal form at every path: absent where excluded, else the config label |
| Normalize.NormalEqualIff | internal/domain/service_write.go:468-514 | two configs normalise alike exactly when they agree at every path outside the excluded set |
| Normalize.NormalIdempotent | internal/domain/service_write.go:477-514 | normalising twice is normalising once |
| Normalize.NormalNothingExcluded | internal/domain/service_write.go:477-514 | nothing excluded is left in a normal form, not even an emptied scaleStrategy |
| ClassifyLaw.ExcludedByName | internal/domain/service_write.go:468-529 | the excluded paths spelled out field by field |
| ClassifyLaw.SameHashIff | internal/domain/service_write.go:370-392 | two configs compare equal exactly when they agree at every path that is not ignored; a missing config counts as an empty object |
| ClassifyLaw.PartialHashByPath | internal/domain/service_write.go:417-439 | the tier holds exactly when both configs list worker groups, the submitted one more of them, and the two agree at every counted path outside the added groups |
| ClassifyLaw.ClassifiedLaw | internal/domain/service_write.go:370-466 | the prediction for every pair of specs: append or the strategy's swap when a counted path differs; else in-place exactly when the serve config strings differ; else a scale exactly when some path has different labels or only one spec has a config; else no change |
| GroupEdits.AtNormalizeGroup | internal/domain/service_write.go:490-506 | the path-by-path effect on one worker group |
| GroupEdits.AtDropCommands | internal/domain/cluster_update.go:285-301 | workersToDelete goes, and a scaleStrategy that held nothing else goes with it; every other path stays |
| GroupEdits.AtZeroPod | internal/domain/service_write.go:518-529 | exactly tolerations and schedulingGates of the pod spec go |
| Classify.TruncateNormal | internal/domain/service_write.go:425-439 | truncating the group list commutes with normalising |
| Classify.PartialHashEqualIff | internal/domain/service_write.go:417-439 | the tier holds exactly when the live config has a group list and the submitted normal form is the live one with a non-empty suffix of groups |
| Classify.AppendsIsStrictOrder | internal/domain/service_write.go:425-439 | the tier is irreflexive, asymmetric, transitive, and does not tell normal-equal configs apart |
| Classify.ExcludedChangeNeverSwaps | internal/domain/service_write.go:370-415 | a change confined to excluded fields is never predicted as a swap or an in-place cluster update |
| Classify.VisibleChangeReachesCluster | internal/domain/service_write.go:370-456 | any other change is predicted as an append exactly when groups were only appended, else as one of the swap variants |
| Classify.ClusterChangeByStrategy | internal/domain/service_write.go:443-466 | which of the three swap predictions is given, by upgradeStrategy.type in any case |
| ServiceUpdate.RealDeltaIsSeen | internal/domain/service_write.go:180-190 | an image, version or autoscaling delta that changes the config changes its normal form, and never looks like an append |
| ServiceUpdate.UpdatePrediction | internal/domain/service_write.go:370-456 | the prediction for every curated update, case by case, including the missing rayClusterConfig that is reported as a scale |
| ServiceUpdate.EndToEndPrediction | internal/domain/service_write.go:158-220 | the whole call without rawSpec: never an identity error, and the prediction is settled by what the deltas change in the live spec |
| ServiceFrame.ServiceUpdateFrame | internal/domain/service_write.go:167-200 | what a service update submits equals the live object at every path except server fields, pinned identity, the members it sets, and the fields asked for |
| ServiceFrame.ServiceEffects | internal/domain/service_write.go:172-193 | the members it sets: apiVersion and kind, no status, identity, no server field, the serve config asked for, and the deltas on the live config, or on an empty one |
| ServiceFrame.ServiceLabels | internal/domain/service_write.go:194-195 | every requested label and annotation is in the submitted metadata |
| ServiceHeap.NormalizeForHash | internal/domain/service_write.go:477-514 | edits a deep clone; the argument tree is left as it was |
| ServiceHeap.PartialHashEqualOf | internal/domain/service_write.go:425-439 | on the heap, with a shallow truncated copy that shares the caller's nodes and changes none of them |
| ServiceHeap.TruncatedCopy | internal/domain/service_write.go:431-437 | the shallow copy holds the same subtrees with the group list cut, under one fresh root |
| ServiceHeap.DeepEqual | internal/domain/service_write.go:438-438 | structural comparison of two heap trees decides equality of their JSON |
| ServiceBuild.ClassifyServiceUpdate | internal/domain/service_write.go:370-415 | the heap classifier returns the specified prediction, nil maps included |
| ServiceBuild.ClassifyClusterChange | internal/domain/service_write.go:443-466 | the hedge by upgradeStrategy.type, compared case-insensitively |
| ServiceBuild.BuildServiceUpdate | internal/domain/service_write.go:167-204 | the live spec is snapshotted before the clone is edited: the object to apply and the prediction are those of the live and submitted specs |
| ServiceBuild.SubmittedSpecOf | internal/domain/service_write.go:180-193 | the deltas land in the rayClusterConfig, created where missing, and the serve config after them |
| ServiceBuild.SnapshotSpec | internal/domain/service_write.go:177-178 | the snapshot shares nothing with the object that is edited next |
| Edits.AtDelete | internal/domain/cluster_update.go:249-260 | delete removes exactly the paths at or below the key |
| Edits.AtSet | internal/domain/cluster_update.go:250-263 | an assignment installs the value at the key and changes no other path |
| HeapEdits.DeleteMember | internal/domain/cluster_update.go:296-299 | delete on a node deep inside an owned tree: the tree keeps its shape, owns no more nodes, and its JSON loses exactly that member |
| HeapEdits.SetMember | internal/domain/cluster_update.go:180-188 | assignment on a node deep inside an owned tree, with the frame |
| HeapEdits.SeparatePut | internal/domain/cluster_update.go:285-301 | replacing a subtree by one that brings no foreign node keeps the tree free of sharing |
| GroupHeap.DropCommandsOf | internal/domain/cluster_update.go:286-300 | the loop body on the heap: only nodes of the group change |
| GroupHeap.EditGroupsOf | internal/domain/cluster_update.go:285-301 | the loop over the list: each object element edited in place, others and the list itself untouched |
| GroupHeap.ZeroPod | internal/domain/service_write.go:518-529 | on the heap, through the nested lookups |
| GroupHeap.NormalizeGroupOf | internal/domain/service_write.go:490-506 | on the heap |
| GroupHeap.EditHeadOf | internal/domain/service_write.go:483-486 | the head group, only where it is an object |
| GroupHeap.SetFirstImageOf | internal/domain/cluster_update.go:385-401 | sets the image of the first container and never creates one |
| GroupHeap.SetClusterImageOf | internal/domain/cluster_update.go:370-380 | head and every worker group, on the heap |
| BuilderHeap.ReadForWriteOf | internal/domain/cluster_update.go:240-272 | the clone of the live object without server noise, identity pinned; the object read is not touched and shares no node with the intent |
| BuilderHeap.DropServerFields | internal/domain/cluster_update.go:258-260 | the loop deletes exactly the six server-written fields |
| BuilderHeap.CleanMetadata | internal/domain/cluster_update.go:253-263 | metadata cleaned in place, created where it is missing or not an object |
| BuilderHeap.ObjectMemberOf | internal/domain/cluster_update.go:265-269 | the object member is found or created, and is then owned by its parent |
| BuilderHeap.ConfigDeltasOf | internal/domain/cluster_update.go:119-127 | version, image and autoscaling on the config node |
| BuilderHeap.ApplyMetaOf | internal/domain/cluster_update.go:405-422 | the map of strings is merged into the metadata member whatever order its keys are visited in |
| ClusterFrame.UpdateFrame | internal/domain/cluster_update.go:114-139 | what Update submits equals the live object at every path except server fields, pinned identity, worker commands and the fields asked for |
| ClusterFrame.UpdatedMetaEffects | internal/domain/cluster_update.go:253-263 | the submitted metadata: identity pinned, no server field, every requested label and annotation |
| ClusterFrame.ConfigEffects | internal/domain/cluster_update.go:119-127 | the requested version, flag and image are really there: the image in the first container of the head and of every group that has one |
| ClusterFrame.CommandsStripped | internal/domain/cluster_update.go:274-301 | stripping leaves no worker group with workersToDelete, whatever the list held |
| ClusterFrame.NoCommandsSent | internal/domain/cluster_update.go:114-139 | what Update submits has no workersToDelete in any worker group, and no scaleStrategy where that was all it held |
| ServiceFrame.FieldNames | internal/domain/cluster_update.go:240-301 | the field names and the API version the edits are about |
| WriteSpec.AtConfigDeltas | internal/domain/cluster_update.go:367-401 | a delta changes nothing outside the paths asked for |
| WriteSpec.DeltasKeepGroups | internal/domain/cluster_update.go:367-401 | no delta adds, drops or reorders a worker group |
| Replicas.UpdateKeepsReplicas | internal/domain/cluster_update.go:100-104 | Update resends every group's replicas exactly as read |
| Replicas.PatchKeepsGroups | internal/domain/cluster_update.go:131-134 | so does any rawSpec that leaves spec.workerGroupSpecs alone |
| Replicas.IntentKeepsReplicas | internal/domain/cluster_update.go:114-139 | the two together, after the identity guard |
| ClusterScale.ScaleFrame | internal/domain/cluster_update.go:159-202 | a successful scale changes only the first group of that name, only the bounds asked for, and what it submits satisfies the guard |
| ClusterScale.ScalePathFrame | internal/domain/cluster_update.go:159-202 | path by path: what Scale submits equals the live object except server fields, pinned identity, worker commands and the bounds asked for in that group |
| ClusterFrame.UpdatedTop | internal/domain/cluster_update.go:249-251 | apiVersion and kind are set and status is gone, whatever the live object carried |
| ClusterScale.ScaleSucceedsIff | internal/domain/cluster_update.go:159-202 | the exact condition for Scale to submit anything, on the live object |
| ScaleLaw.ScaleAnswered | internal/domain/cluster_update.go:159-202 | the answer of Scale by the live object alone: no such group, the autoscaler owns the count, zero needs the override, or out-of-order bounds, in that order, and success otherwise; floats are the integer next to them toward zero, given by inequalities |
| ScaleLaw.ScaleSends | internal/domain/cluster_update.go:159-202 | the group a successful scale submits has the name and the bounds asked for, min and max not negative, min <= max and replicas <= max, wherever present |
| ClusterScale.ScaleKeepsReplicas | internal/domain/cluster_update.go:169-172 | scaling min and max resends every replicas as read, and under autoscaling no other scale succeeds |
| ClusterScale.NegativeReplicasIff | internal/domain/cluster_update.go:159-202 | Scale goes through and submits a negative replicas exactly when the group exists, the autoscaler rule lets the request through, min and max are in order, and the count asked for, else the live one, is negative |
| ClusterScale.NegativeReplicasPass | internal/domain/cluster_update.go:322-347 | a concrete negative count the guard accepts |
| ClusterScale.FirstNamed | internal/domain/cluster_update.go:311-320 | the first group of the name, or the length |
| ClusterBuild.BuildUpdate | internal/domain/cluster_update.go:114-139 | the build closure on the heap returns the specified intent in fresh nodes |
| ClusterBuild.BuildScale | internal/domain/cluster_update.go:159-202 | the build closure on the heap: the same intent, or the same refusal, as specified |
| ClusterBuild.FindWorkerGroup | internal/domain/cluster_update.go:311-320 | returns the node of the first group of that name, located inside the tree |
| ClusterBuild.ValidateWorkerBounds | internal/domain/cluster_update.go:330-347 | accepts exactly the specified bounds on whatever the group holds |
| ClusterBuild.IntOf | internal/domain/cluster_update.go:352-365 | the integer a member holds; a float is truncated toward zero |
| ClusterBuild.SetBoundsOf | internal/domain/cluster_update.go:180-188 | the assignments through the group node change the submitted object at that group and nowhere else |
| Wire.Decode | internal/domain/cluster_update.go:240-248 | a read object arrives as a tree of its own |
| Wire.Encode | internal/domain/apply.go:147-147 | the tree is only read when it is submitted, and its JSON is what is sent |
| Server.UnownedUnwritten | internal/domain/cluster_update.go:21-35 | as long as nobody else owns the atomic list, nobody else has written it |
| Server.UnforcedKeepsForeignList | internal/domain/cluster_update.go:21-26 | an unforced apply that takes effect over a foreign list resubmitted that very list |
| Server.WithOwnList | internal/domain/cluster_update.go:21-26 | every object with the required list is a possible stored object, so the server choices lose no behaviour |
| ApplyTheorems.RetryProtocol | internal/domain/cluster_update.go:214-233 | for every server behaviour: at most two reads, dry runs and commits; each commit follows a successful dry run of the same object and flag; force only after an unforced conflict and from a later read; a dry-run call never commits; audit records = dry runs |
| ApplyTheorems.AttemptLaws | internal/domain/apply.go:124-159 | one pass: a read, a dry run of what was built from it, a commit of the same |
| ApplyTheorems.RetryReports | internal/domain/apply.go:137-158 | what a success reports: the server's answer to its last request, which for a commit is what it now holds; a diff that is empty exactly when submitted and resulting spec agree, and whose entries describe the submitted spec as before and the resulting one as after, every difference covered; a success record with the same dry-run flag |
| ApplyTheorems.RetryAnswers | internal/domain/cluster_update.go:214-233 | how every call ends: at a failed read, at a build refusal, or with the server's answer to its last request, as a result, a conflict or an error; there is a second pass exactly after a conflict of a committing call |
| ApplySpec.RefusedWhen | internal/domain/cluster_update.go:69-166 | which calls are refused before any request: an empty name, nothing to change, no worker group |
| ApplySpec.IntentIs | internal/domain/cluster_update.go:114-139 | what a call submits: the curated object with its rawSpec merged over it as long as that keeps the identity, or the scaled object |
| ApplySafety.AppliedCounts | internal/domain/cluster_update.go:21-35 | what an accepted apply can leave in the replicas of the list |
| ApplySafety.CommitCounts | internal/domain/cluster_update.go:206-213 | a commit changes a replicas value only if forced, and then back to what its own read saw |
| ApplySafety.BuildPreserves | internal/domain/cluster_update.go:100-104 | every Update that leaves the list alone and every min/max Scale resends the counts it reads |
| ApplySafety.RetryLosses | internal/domain/cluster_update.go:206-233 | a call loses only writes made between the retry's read and its forced commit |
| ApplySafety.UnforcedLosesNothing | internal/domain/cluster_update.go:27-35 | every request that is not forced leaves all replicas as it met them |
| ApplySafety.RunKeepsLastWrite | internal/domain/cluster_update.go:21-35 | over whole runs of calls with other managers writing in between: the last commit that undid a write, if any, was a forced one falling on a write made after its own read; and the cluster ends with the replicas somebody else wrote last since then, or with those that commit left |
| ApplySafety.ForcedRetryCanLose | internal/domain/cluster_update.go:31-35 | that exception is real: a server against which the retry undoes a write, for every preserving build |
| ApplySafety.FaultFreeCommits | internal/domain/cluster_update.go:214-233 | without server faults a committing call always gets through, however often others write |
| Apply.ApplyService.Apply | internal/domain/apply.go:124-159 | the pipeline as it runs takes the world where the specification says and returns its result |
| Apply.ApplyService.GetLive | internal/domain/cluster_update.go:240-244 | one read: the world moves as specified |
| Apply.ApplyService.SendApply | internal/domain/apply.go:131-147 | one server-side apply |
| Apply.ApplyService.Emit | internal/domain/apply.go:188-200 | one record |
| Apply.ApplyService.DiffOfSpecs | internal/domain/apply.go:209-223 | the diff of the two spec subtrees at the default depth |
| Apply.ClusterWriteService.BuildRequest | internal/domain/cluster_update.go:114-202 | the heap builders produce the specified intent from the object read |
| Apply.ClusterWriteService.ApplyWithConflictRetry | internal/domain/cluster_update.go:214-233 | the retry as it runs |
| Apply.ClusterWriteService.Serve | internal/domain/cluster_update.go:105-204 | Update and Scale with their refusals before any request |
| Apply.ClusterWriteService.ServeAll | internal/domain/cluster_update.go:105-204 | calls one after the other, so the run theorems hold of the running service |
| ServiceApply.ServiceProtocol | internal/domain/service_write.go:158-220 | for every server behaviour one service update makes at most one read, one dry run and one commit of the same object, never forces, and audits once when it got as far as the pipeline |
| ServiceApply.ServicePrediction | internal/domain/service_write.go:202-219 | the path a successful update without rawSpec reports is settled by what the deltas really change in the object it read |
| ServiceApply.ServiceReports | internal/domain/service_write.go:158-220 | how every service update ends, and for a success the server's answer and a diff that describes submitted and resulting spec |
| ServiceApply.ServicePredicts | internal/domain/service_write.go:177-204 | the prediction of a success for the object it read, with any rawSpec: the classifier's answer on the live spec and the submitted one |
| ServiceApply.ServiceRefusedWhen | internal/domain/service_write.go:59-165 | which service updates are refused before any request |
| ServiceApply.ServiceWriteService.BuildService | internal/domain/service_write.go:172-204 | clone, edits, merge and classification on heap trees give the specified object and prediction |
| ServiceApply.ServiceWriteService.Update | internal/domain/service_write.go:158-220 | the call as it runs, from the refusals to the result |
| PoolSpec.EndpointOwns | internal/adapters/reachability/pool.go:57-84 | keeps ownership, dials at most once, touches no other key, and returns the URL of an open handle pooled under that key and used now |
| PoolSpec.EndpointCases | internal/adapters/reachability/pool.go:57-84 | case by case: a warm tunnel is reused and nothing dialed or closed; else a dropped one is closed, and a new one pooled exactly when the pod is found and the dial succeeds, under the URL of its port |
| PoolSpec.CloseCases | internal/adapters/reachability/pool.go:132-142 | close empties the pool and closes every handle in it once, and nothing else |
| PoolSpec.RunOwns | internal/adapters/reachability/pool.go:57-142 | in every state of every run the handles dialed and not yet closed are exactly the pool's, different keys hold different handles, and no handle is closed twice |
| PoolSpec.RunConserves | internal/adapters/reachability/pool.go:57-142 | pooled + closed = dialed, always |
| PoolSpec.ReapExact | internal/adapters/reachability/pool.go:97-114 | a reap closes exactly the tunnels not used within the last idle and returns how many it removed |
| PoolSpec.TunnelsReapedInTime | internal/adapters/reachability/pool.go:116-130 | until close is called, every pooled tunnel was used less than idle + idle/2 ago, in every state of every schedule of calls, losses and ticks every idle/2 |
| PoolSpec.InTimeIff | internal/adapters/reachability/pool.go:116-142 | in every state of every schedule, before and after close, that bound holds exactly when no tunnel dialed after close is pooled at that age |
| PoolSpec.LateDialIsNeverReaped | internal/adapters/reachability/pool.go:57-142 | why close is excepted: a tunnel dialed after it reaches any age |
| PoolSpec.QuietPoolInTime | internal/adapters/reachability/pool.go:116-142 | without an endpoint call after close the pool is empty from then on and the bound always holds |
| PoolSpec.InTimeLastsIff | internal/adapters/reachability/pool.go:116-142 | from a reachable state the bound lasts through everything but further endpoint calls exactly when the reaper was not stopped or the pool is empty |
| PoolSpec.BoundIsReached | internal/adapters/reachability/pool.go:116-130 | that bound is exact, with the reaper running |
| PoolSpec.TimedOwns | internal/adapters/reachability/pool.go:116-142 | ownership and conservation hold whether the reaper has not started, runs or is stopped |
| Pool.TunnelPool.GetEndpoint | internal/adapters/reachability/pool.go:57-84 | the method moves the pool as specified: reuse, or close and dial once |
| Pool.TunnelPool.ReapIdle | internal/adapters/reachability/pool.go:101-114 | the loop over the shrinking map, in any order, drops exactly the stale keys and counts them |
| Pool.TunnelPool.CloseAll | internal/adapters/reachability/pool.go:132-142 | closes every pooled handle once and stops the reaper for good, the first time it is called |
| Pool.Resolver.PooledEndpoint | internal/adapters/reachability/strategy.go:147-165 | the first call starts the reaper; then the pool serves it as specified, also after close |
| Pool.Resolver.CloseResolver | internal/adapters/reachability/strategy.go:167-171 | the pool is torn down and the reaper stopped |
| Pool.Resolver.ReaperTick | internal/adapters/reachability/pool.go:119-130 | one tick of the running reaper |
| Pool.Resolver.PerformAll | internal/adapters/reachability/pool.go:57-142 | a whole schedule on the running resolver, so the theorems about schedules hold of it |
| Pool.DropOneMore | internal/adapters/reachability/pool.go:106-111 | dropping key by key is dropping the set |
| Logs.LastLines | internal/adapters/rayapi/client.go:262-286 | the longest suffix that starts a line and has at most n lines, exactly n when anything is cut; the last return is never reached |
| Logs.LastBytes | internal/adapters/rayapi/client.go:288-301 | at most maxBytes bytes, and below the cap only continuation bytes are dropped |
| Logs.LastBytesOptimal | internal/adapters/rayapi/client.go:288-301 | on valid UTF-8 that is the longest valid suffix within the cap, at most three bytes short of it |
| Logs.BoundLogs | internal/adapters/rayapi/client.go:238-260 | a suffix within both caps; BytesOmitted + length = full length; Truncated exactly when something was dropped; valid text stays valid and loses as little as possible |
| Logs.LinesMonotone | internal/adapters/rayapi/client.go:262-286 | a later suffix never has more lines, so the byte cut keeps the line cap |
| Logs.LinesCounted | internal/adapters/rayapi/client.go:262-270 | the number of lines is the number of positions where one begins: the start, and after every newline but a final one |
| Utf8.ValidSuffixes | internal/adapters/rayapi/client.go:288-299 | the valid suffixes of valid text (RFC 3629 sections 3 and 4) are those that start at a rune start |
| Utf8.BoundaryNear | internal/adapters/rayapi/client.go:288-299 | a rune start or the end is never more than three bytes away |
| Encoding.FieldUnique | internal/domain/guards.go:159-166 | a stream of length-prefixed fields can be read back in only one way |
| Encoding.BytesInjective | internal/domain/guards.go:165-165 | different strings have different UTF-8 bytes |
| Encoding.BytesValid | internal/domain/guards.go:165-165 | and those bytes are valid UTF-8 |
| Encoding.LittleEndianInjective | internal/domain/guards.go:163-164 | the 8-byte little-endian length is unambiguous below 2^64 |
| Encoding.HexInjective | internal/domain/guards.go:122-122 | hex digests are equal only for equal digests |
| Encoding.ValidDecodes | internal/domain/guards.go:165-165 | valid UTF-8 is exactly what encoded strings are |
| Encoding.FieldLayout | internal/domain/guards.go:159-166 | eight bytes that spell the length, least significant first, and then the text |
| Encoding.HexDecodes | internal/domain/guards.go:122-122 | the two lower-case digits of each byte give it back |
| Guards.PreimageInjective | internal/domain/guards.go:109-123 | two hash inputs are equal exactly for the same operation, uid and, where bound, resourceVersion |
| Guards.FingerprintBinds | internal/domain/guards.go:109-123 | fingerprints are equal exactly for the same target, as long as the hash does not collide on the two inputs |
| Guards.ComputeFingerprint | internal/domain/guards.go:115-123 | the bytes fed to the hash step by step are the specified preimage |
| Guards.WriteField | internal/domain/guards.go:161-166 | one length-prefixed field |
| Guards.ConfirmOnlyWhatWasPreviewed | internal/domain/guards.go:125-138 | a previewed fingerprint passes later exactly for the same target, else it is a mismatch |
| Guards.ConfirmExact | internal/domain/guards.go:125-138 | the gate for every string: empty asks, the hex digest of the live object passes, everything else is a mismatch |
| DeleteLaw.GuardExact | internal/domain/guards.go:145-157 | the gate on weakening protection: when it passes, and what it answers to every string |
| DeleteLaw.DeletePreimage | internal/domain/guards.go:115-123 | what a delete fingerprint hashes: the operation and the uid, each with its length |
| Guards.LooseningNeedsItsOwnConfirm | internal/domain/guards.go:145-157 | loosening the annotation passes only with an unprotect fingerprint of that very version |
| Protection.PatchedAnnotation | internal/domain/merge.go:71-101 | an annotation after a merge: what the rawSpec carries at metadata, annotations and the key, in every shape, else what was there |
| Protection.UpdateProtection | internal/domain/cluster_update.go:114-139 | what a cluster update submits is protected exactly when the rawSpec, else the requested annotations, else the live object say so |
| Protection.ServiceProtection | internal/domain/service_write.go:167-200 | the same for a service update |
| Protection.ScaleProtection | internal/domain/cluster_update.go:159-202 | a scale keeps protection as it is |
| Protection.UnprotectNeedsNoConfirm | internal/domain/guards.go:18-21 | the documented gate is not called: for every protected cluster an update that removes the annotation is accepted without confirmation, after which the delete guard no longer refuses |
| Delete.PreviewsAreAllowed | internal/domain/cluster_write.go:185-207 | a fingerprint is handed out exactly when the deletion is otherwise allowed: never for a protected object or a serving service without force |
| DeleteLaw.DeletedIff | internal/domain/cluster_write.go:185-207 | the deleter is called exactly when the name is set, the read succeeded, the object may be deleted and, where it must be confirmed, the string is the hex digest for its uid; a non-empty other string is a mismatch and an empty one gets that digest |
| DeleteLaw.RefusedInOrder | internal/domain/service_write.go:255-281 | which refusal comes first: name, read, protection, serving, destructive |
| DeleteLaw.ServingNamed | internal/domain/service_write.go:300-352 | when a service counts as serving: a positive endpoint count, or the first condition of a type in progress has status True |
| DeleteLaw.EphemeralNamed | internal/domain/job_submit.go:253-269 | when a job owns its cluster: an embedded cluster spec and no non-empty selector |
| Delete.Handshake | internal/domain/service_write.go:236-281 | echoing a previewed fingerprint deletes exactly when the object read then has the previewed uid and may be deleted at that moment |
| Delete.OneCallDeletes | internal/domain/job_submit.go:221-255 | without a confirmation only a job that owns no cluster, and is not protected, is deleted |
| Delete.DeleteService.DeleteResource | internal/domain/cluster_write.go:185-207 | the deleter is called, and one audit record with its outcome written, exactly when every guard lets the call through; otherwise nothing changes |
| WaitSpec.BoundedPolls | internal/domain/job.go:296-317 | at most ceil(w/2) + 1 <= 16 polls, for every request, observation and timing, so the loop ends |
| WaitSpec.IdleWaitPollsExactly | internal/domain/job.go:296-317 | the bound is met exactly when polls are instant and nothing is reached |
| WaitSpec.UnreachedMeansDeadline | internal/domain/job.go:304-312 | reached=false is answered only once the deadline has passed; the answer is the last poll's view and no earlier poll had reached |
| WaitSpec.RunningNoLater | internal/domain/job.go:374-396 | on the same observations a wait for running is answered no later than one for terminal, and reaches whenever that does |
| WaitSpec.PollMeaning | internal/domain/job.go:325-358 | the view of every poll, by the job's own status, its id and dashboard, and the dashboard's answer; which failures degrade it, and which ports it asks |
| WaitSpec.WaitWindow | internal/domain/job.go:360-372 | the window is the requested seconds within 0 and 30, and no condition means running |
| WaitSpec.WaitEnds | internal/domain/job.go:296-317 | how every wait ends: with its last poll's view, at the deadline or where that poll reached, with its port error, or cancelled in the sleep before the deadline |
| WaitSpec.TerminalIsRunning | internal/domain/job.go:325-358 | the two conditions differ only in reached, and terminal implies running |
| Wait.JobService.Poll | internal/domain/job.go:325-358 | one observation; the dashboard is asked only for a scheduled job that is not terminal, and unavailability degrades instead of failing |
| Wait.JobService.WaitFor | internal/domain/job.go:296-317 | the loop over clock, ports and sleep returns the specified answer after the specified number of polls, for every call on the service |

## Left out

- The MCP edge, transports, configuration, RBAC and `main.go`: registration, schemas, formatting and I/O.
- The typed KubeRay adapters, and with them Create, Deploy and job submission, which build an object through library types and then use the same Merge and Apply.
- The HTTP client except the log bounds, and the SPDY dialing: a tunnel is an id with a port and the facts of its loss and its Close calls.
- List, Get and Logs services, namespace defaulting, argument summaries, caller identity and error texts: pass-through or formatting. Audit records keep only the dry-run flag and the outcome; delete records also kind and name.
- Go representation details: nil and empty maps inside a tree, nil and empty slices, number types beyond int64 and float64, floats outside the int64 range (their conversion is implementation-defined), NaN.
- ToLower is modelled for ASCII letters, which is all the comparison with "none" depends on.
- Slices are values: no code modelled here assigns an element of a slice it did not just build.
- Pool entries are values in the tunnels map, so that the pool is the only holder of an entry is built in rather than proved; handles are shared ids and their ownership is proved.
- Concurrency inside the pool: every operation holds the mutex throughout, so operations are atomic steps. Dropped or late ticker ticks are not modelled, except that a tick still pending when close runs is an ordinary reap.
- The World of `Apply` carries the live object as JSON; the trees the builders edit exist only during one build, as in the Go code.
- Server-side apply ownership is modelled for the atomic worker-group list only; conflicts over any other field are a free choice of the server.
- Concurrent writers of a RayService: the code argues that nobody else writes the template, and the server model gives ownership only to a cluster's worker-group list, so nothing is stated about writes a service commit could undo.
- Ownership of the list by another manager does not lapse by itself: it ends when this tool takes the list by force.

# kube-valet reconcilers

A model of kube-valet's state-seeking controllers and proofs of what they achieve. The controllers label and taint
the nodes of a cluster so that every assignment of a node assignment group has the nodes it asks for.

- **The allocator** (`WriterContext.dfy`) edits node objects in memory, patches the API, and keeps two mutable ledgers.
  Its methods are tied to the steps of `Pass.dfy`; `Allocation.dfy`, `Plan.dfy`, `Reconcile.dfy` and `Allocated.dfy` prove that
  the whole pass is a priority allocation in closed form. `Fixpoint.dfy` says what a second run changes, `Commuting.dfy`
  how two groups interact, `Safety.dfy`, `Refusals.dfy`, `HandOuts.dfy` and `Framing.dfy` what holds when any API calls are
  refused, `ShortListing.dfy` what a listing cut short by a refusal leads to, and `Foresight.dfy` which node ends where under
  any refusals and where a refused default ends the pass. `Written.dfy` spells out keys, values and effects.
- **The PackLeft balancer** (`PackLeftManager.dfy`) sorts nodes by fullness and marks them Use, Avoid or Deny. `Ranking.dfy`
  refines the sort-and-scan to a definition by rank; `PackLeft.dfy` is one pass as a definition, with its stability; `Shares.dfy`
  goes from the pods on the nodes to the states.
- **The life cycle** (`Lifecycle.dfy`, `NagManager.dfy`, `PackLeftController.dfy`): two controllers with a finalizer each, users and
  node changes as steps of one state machine, and the invariant that a deleted group leaves nothing behind.
- **Around them**: the helpers that edit nodes (`Groups.dfy`), float32 percentages (`Float32.dfy`), the pod index (`PodIndex.dfy`),
  the trigger guard (`Utils.dfy`, `Triggers.dfy`), the pod rules (`PodRules.dfy`). `TwoControllers.dfy` says what the controllers
  undo of each other's work and leave behind, `Limits.dfy` holds concrete clusters on which expectations fail.

The API server is an object that stores nodes and refuses the calls a schedule `down` names; theorems hold for every
schedule unless they say that none is refused. A patch merges labels key by key and replaces the taint list as a whole;
it is computed between two in-memory versions, which is where the two views of a node come apart. Go's maps and caches
are visited in arbitrary order.

Assumed of the input: assignment names are distinct and differ from the default's (`Plan.WellFormed`); percentages are not
negative; node names are unique; allocatable resources of nodes that can be balanced are positive; where a second look at
the cluster matters, selectors do not mention keys that groups write. Of users and other programs the life cycle assumes
that nobody else removes the finalizer of the allocator, and that no outside change puts a label or taint with a group's
key on a node (`Lifecycle.Enabled`).

Where code and documentation disagree the model follows the code: the documented taking of nodes from lower assignments
(`_examples/resources/nodeassignmentgroups/README.md:23-24`) does not happen (`Allocated.ShortExactlyWhen`);
protected nodes do not always lose existing taints and labels (`pkg/apis/assignments/v1alpha1/helpers.go:11-12`,
`TwoControllers.ProtectedKeepsTrace`); CleanAllNodes does not clear all attributes (`pkg/controller/scheduling/packleft/manager.go:70`,
`TwoControllers.CleanAllLeaves`).

## Model

| member | source | states |
|---|---|---|
| Reconciling.PassIsReconciled | pkg/controller/nodeassignment/writer_context.go:41-280 | With no refused call, list + ledger + main loop + cleanup over two diverging views of every node leave every stored node as one closed-form, per-node definition says, whatever order the cleanup takes |
| Allocated.ReconcileAllocates | pkg/controller/nodeassignment/writer_context.go:101-269 | After a reconcile assignment i has min(current, desired) nodes plus what the free nodes leave after all assignments of higher priority, counted on the stored labels |
| Allocated.ShortExactlyWhen | pkg/controller/nodeassignment/writer_context.go:217-269 | An assignment ends below its desired count if and only if it was below and the free nodes do not cover it and everything of higher priority; nodes of satisfied lower assignments never help |
| Allocated.ReconcileIsExact | pkg/controller/nodeassignment/writer_context.go:140-269 | If the desired counts fit into the targeted nodes, every assignment ends with exactly its desired count |
| Allocated.ReconcileShortage | pkg/controller/nodeassignment/writer_context.go:253-268 | If any assignment stays short, every targeted node ends on some non-default assignment |
| Allocated.ReconcileMovesFewest | pkg/controller/nodeassignment/writer_context.go:217-247 | A node of an assignment without excess is not changed at all; of an over-full one exactly the first nodes in list order, as many as the excess, lose their place |
| Allocated.ReconciledLabelIsKnown | pkg/controller/nodeassignment/writer_context.go:63-99 | Afterwards an assignment label is on targeted nodes only and names an assignment of the group, protected nodes have none, and with a default every targeted node has one |
| Allocated.SharedDefaultIsAlwaysDue | pkg/controller/nodeassignment/writer_context.go:101-163 | An assignment that shares the default's name has its nodes never counted: every run asks for its whole desired count anew |
| Written.GivenNodeIsTainted | pkg/apis/assignments/v1alpha1/helpers.go:133-164 | A node that a LabelAndTaint assignment takes, labelled before or free of the group's taints, ends with the label and with exactly one taint of the group: its key, the assignment's name, the given effect, and NoSchedule when none is given |
| Written.GivenNodeIsLabelled | pkg/apis/assignments/v1alpha1/helpers.go:150-164 | An assignment of any other mode sets the label and leaves every taint |
| Written.LabelledExactly | pkg/apis/assignments/v1alpha1/helpers.go:66-90 | With a default, a reconcile leaves an assignment label on exactly the nodes without the protection label that carry every target label with its value |
| Plan.PriorityAllocation | pkg/controller/nodeassignment/writer_context.go:115-165 | The same allocation formula for any list of labels and its ledger, free of nodes and calls |
| Plan.FeasibleIsExact | pkg/controller/nodeassignment/writer_context.go:140-165 | Feasible demands are met exactly, by counting all nodes once: unlabelled, on the default, or on an assignment |
| Plan.LeaversAreFirst | pkg/controller/nodeassignment/writer_context.go:217-247 | Exactly max(0, current - desired) nodes leave an assignment and they are the first ones in list order |
| Plan.ShortageUsesEveryNode | pkg/controller/nodeassignment/writer_context.go:253-268 | If assignment i stays short, no node is left over and no assignment of lower priority gained a node |
| Allocation.FirstDueIsHead | pkg/controller/nodeassignment/writer_context.go:115-138 | Searching the assignments for the first positive ledger entry is taking the head of the queue of all missing nodes in priority order; decrementing (and deleting at zero) takes it off |
| Allocation.PlacesInPriorityOrder | pkg/controller/nodeassignment/writer_context.go:115-138 | Serving the first m of the queue gives assignment i min(due, what is left after all assignments before it) |
| Reconciling.RunFollowsPlan | pkg/controller/nodeassignment/writer_context.go:217-269 | After k turns of the loop: memory, stored nodes, recorded names and ledger are what the outcomes of the first k nodes make them |
| Reconciling.BuildLists | pkg/controller/nodeassignment/writer_context.go:63-99 | With no refused call the listing targets exactly the nodes the selector matches, evicts the others and records the nodes unassigned in memory |
| Reconciling.ReleaseKeepsDemand | pkg/controller/nodeassignment/writer_context.go:234-247 | Unassigning in memory and bumping the entry leaves the demand queue alone and uses up one release of that assignment only |
| Settlement.RelabelledView | pkg/controller/nodeassignment/writer_context.go:168-208 | What the merged patch leaves on a node: the one label changed; the taint list replaced only under LabelAndTaint, without the group's old taints only if the node was labelled |
| Settlement.ReconcileKeepsOthers | pkg/controller/nodeassignment/writer_context.go:168-280 | Reconciling leaves all foreign labels and, in order, all foreign taints |
| Commuting.ReconcilesCommute | pkg/controller/nodeassignment/writer_context.go:168-280 | Reconciles of two groups, each listing the nodes in an order of its own, commute: same labels and the same multiset of taints on every node |
| Commuting.UnseenByOther | pkg/controller/nodeassignment/writer_context.go:63-113 | A reconcile of one group changes nothing the other looks at |
| Fixpoint.SettledAfterOneRun | pkg/controller/nodeassignment/writer_context.go:41-280 | A second reconcile, listing the nodes in any order, changes nothing if and only if no unlabelled targeted node carries an old taint of the group while the default taints and the free nodes before it in the list meet everything that is due |
| Fixpoint.SettledAfterTwoRuns | pkg/controller/nodeassignment/writer_context.go:41-280 | From the second run on nothing changes any more, for every cluster |
| Fixpoint.GivenDefaultExactly | pkg/controller/nodeassignment/writer_context.go:253-268 | An unlabelled targeted node gets the default if and only if the free nodes before it in the list meet everything that is due |
| Fixpoint.SecondRunOfNode | pkg/controller/nodeassignment/writer_context.go:217-269 | Node by node, whether a second run leaves it alone, although default nodes are unassigned in memory and patched again |
| Fixpoint.RelabelTwice | pkg/controller/nodeassignment/writer_context.go:168-208 | Assigning a node twice is assigning it once, except exactly where a tainting assignment meets an unlabelled node with an old taint |
| Limits.OldTaintStays | pkg/controller/nodeassignment/writer_context.go:262-268 | A concrete cluster whose second reconcile differs from the first: an old taint with another effect stays next to the new one and then goes |
| Limits.TaintsMatchExactly | pkg/controller/nodeassignment/writer_context.go:168-208 | A node given to an assignment ends with exactly that assignment's taint if and only if it had none of the group's before, or was labelled and the new mode taints; so moving from LabelAndTaint to LabelOnly keeps the old taint |
| Limits.DesiredRoundsDown | pkg/controller/nodeassignment/writer_context.go:143-153 | desired = max(1, NumDesired, floor(n * p / 100)) as long as n * p < 16777299 |
| Float32.PercentRoundsDown | pkg/controller/nodeassignment/writer_context.go:145-145 | Rounding count, percentage, product and quotient to binary32 and truncating is the integer quotient for n * p < 2^24 |
| Float32.PercentLosesLargeCounts | pkg/controller/nodeassignment/writer_context.go:145-145 | One failing input: 100 percent of 2^24 + 1 nodes is 2^24, because the count itself is rounded |
| Float32.PercentThreshold | pkg/controller/nodeassignment/writer_context.go:145-145 | The percentage is the integer quotient for all products below a bound if and only if the bound is at most 16777299 |
| Refusals.LedgerBalances | pkg/controller/nodeassignment/writer_context.go:115-165 | After every turn, whatever was refused: ledger entry + in-memory nodes + nodes handed out = desired; an entry never crosses zero; the stored count is bounded by what the ledger paid for |
| Refusals.NeverOverAssigned | pkg/controller/nodeassignment/writer_context.go:168-277 | After any prefix of the loop and any part of the cleanup, under any refusals, an assignment has at most max(current, desired) nodes among those of the context |
| Refusals.LabelsStayLegitimate | pkg/controller/nodeassignment/writer_context.go:168-277 | ... and every stored label is the original one, one of the group, or none |
| Refusals.AllReleasedAtEnd | pkg/controller/nodeassignment/writer_context.go:217-251 | A loop that was not cut short has released every node it had to: no entry is negative |
| Refusals.RecordedAreDiverging | pkg/controller/nodeassignment/writer_context.go:203-277 | After the loop UnassignedNodeNames is exactly the set of nodes whose stored label differs from the decided one |
| Foresight.LoopForeseen | pkg/controller/nodeassignment/writer_context.go:210-269 | Under any refusals, read off the cluster and the refusals alone: the loop is cut short if and only if the default of some free node is refused, and every node of the context is stored as whoever takes it makes it, or untouched |
| Foresight.StopIsRefusedDefault | pkg/controller/nodeassignment/writer_context.go:253-268 | Where the pass stops, a free node is offered to the default (after a refused assignment, if any was due) and that call is refused |
| Foresight.KnownBeforeStop | pkg/controller/nodeassignment/writer_context.go:253-268 | With a default, every node before the stop, which is all of the context if the loop is not cut short, is stored on an assignment the group has |
| Foresight.UntouchedFromStop | pkg/controller/nodeassignment/writer_context.go:262-268 | If the loop is cut short, the node whose default was refused and all nodes of the context after it keep their stored version |
| Foresight.RecordedExactly | pkg/controller/nodeassignment/writer_context.go:203-251 | Under any refusals: the recorded nodes are those nobody takes that carried an unknown assignment or were released before the stop |
| Safety.RunKeepsBalance | pkg/controller/nodeassignment/writer_context.go:217-269 | The conservation law as an invariant of the loop from any start |
| HandOuts.HandedOutAreStored | pkg/controller/nodeassignment/writer_context.go:168-269 | Under any refusals, at any point, an assignment was handed out as often as there are nodes of the context stored on it now and not at the start |
| ShortListings.ListingReaches | pkg/controller/nodeassignment/writer_context.go:71-98 | From the cluster and the refusals alone: the context holds exactly the targeted nodes before the first refused eviction, and the listing ends there |
| ShortListings.BoundedByUnseen | pkg/controller/nodeassignment/writer_context.go:41-277 | Under any refusals, at any point, over all targeted nodes: at most max(current, desired) among the nodes seen plus what the assignment has among those not seen |
| ShortListings.OverAssignedExactly | pkg/controller/nodeassignment/writer_context.go:41-277 | If no call after the listing is refused, an assignment ends above max(current, desired) over all targeted nodes if and only if it is short among the nodes seen and what it gets there, in closed form, together with its nodes not seen is more |
| ShortListings.NeverOverAssignedAtAll | pkg/controller/nodeassignment/writer_context.go:41-277 | If no eviction is refused the bound holds over all targeted nodes under any other refusals |
| ShortListings.ShortListingOverAssigns | pkg/controller/nodeassignment/writer_context.go:91-93 | A concrete cluster on which a listing cut short over-assigns |
| Framing.OthersStay | pkg/controller/nodeassignment/writer_context.go:63-277 | Under any refusals, at any point, no label or taint with a foreign key changes, nor the order of foreign taints |
| Framing.SweepKeepsOthers | pkg/controller/nodeassignment/writer_context.go:298-311 | The same for the removal of a group from all nodes |
| WriterContexts.WriterContext.constructor | pkg/controller/nodeassignment/writer_context.go:29-39 | The context is what listing the nodes in server order makes it, evictions and refusals included, with a fresh ledger |
| WriterContexts.WriterContext.Update | pkg/controller/nodeassignment/writer_context.go:41-47 | The four parts of building the context |
| WriterContexts.WriterContext.UpdateKnownAssignments | pkg/controller/nodeassignment/writer_context.go:50-60 | The known names are those of the assignments and of the default |
| WriterContexts.WriterContext.UpdateNodeSets | pkg/controller/nodeassignment/writer_context.go:63-99 | Target, evict or unassign in memory, node after node; the first refused eviction ends the listing |
| WriterContexts.WriterContext.AdmitNode | pkg/controller/nodeassignment/writer_context.go:72-95 | One listed node |
| WriterContexts.WriterContext.UpdateCurrentAssignments | pkg/controller/nodeassignment/writer_context.go:101-113 | The counts are those of the in-memory labels, the default not counted |
| WriterContexts.WriterContext.UpdateAssignmentChanges | pkg/controller/nodeassignment/writer_context.go:140-165 | The ledger is desired minus current without the zeros |
| WriterContexts.WriterContext.UpdateNodeAssignment | pkg/controller/nodeassignment/writer_context.go:168-208 | Works on a copy; sends the difference unless empty; on success drops the recorded name; a refusal changes nothing |
| WriterContexts.WriterContext.AssignNode | pkg/controller/nodeassignment/writer_context.go:115-138 | The first assignment with a positive entry gets the node and its entry falls, unless the call is refused |
| WriterContexts.WriterContext.ReleaseNode | pkg/controller/nodeassignment/writer_context.go:234-247 | Unassigns one node in memory, records it, raises the entry and drops it at zero |
| WriterContexts.WriterContext.PlaceNode | pkg/controller/nodeassignment/writer_context.go:253-268 | Assigns one node or puts it on the default; only a refusal for the default stops the pass |
| WriterContexts.WriterContext.ReconcileNode | pkg/controller/nodeassignment/writer_context.go:217-269 | One turn of the loop |
| WriterContexts.WriterContext.Reconcile | pkg/controller/nodeassignment/writer_context.go:210-280 | Loop and cleanup; without refusals no recorded name is left |
| WriterContexts.WriterContext.CleanUp | pkg/controller/nodeassignment/writer_context.go:271-277 | Visits the recorded names in any order while deleting from the map; every name cleaned or kept |
| WriterContexts.WriterContext.UnassignNodeByName | pkg/controller/nodeassignment/writer_context.go:283-292 | Reads the latest version of a node and removes the group's traces |
| WriterContexts.WriterContext.UnassignAllNodes | pkg/controller/nodeassignment/writer_context.go:298-311 | Unassigns every listed node; refusals are ignored |
| Groups.KeysAreDistinct | pkg/apis/assignments/v1alpha1/helpers.go:97-131 | No two groups share a key, no assignment key is a packleft key, none is the protection key |
| Groups.DeleteTaint | pkg/apis/assignments/v1alpha1/helpers.go:34-45 | Keeps, in order, the taints that differ in key or effect; says whether one was dropped |
| Groups.DeleteTaintsByKey | pkg/apis/assignments/v1alpha1/helpers.go:20-31 | Keeps, in order, the taints with another key |
| Groups.DeleteTaints | pkg/apis/assignments/v1alpha1/helpers.go:49-64 | Deletes in turn; reports the ones that matched nothing, and whether the last one matched |
| Groups.SixDeletionsSuffice | pkg/apis/assignments/v1alpha1/helpers.go:120-128 | The six key and effect pairs remove exactly the taints with one of the group's keys |
| Groups.SetLabel | pkg/apis/assignments/v1alpha1/helpers.go:97-102 | Sets the assignment label in place and no other |
| Groups.RemoveLabel | pkg/apis/assignments/v1alpha1/helpers.go:104-112 | Removes both labels of the group in place and no other |
| Groups.RemoveTaint | pkg/apis/assignments/v1alpha1/helpers.go:114-131 | Leaves exactly the foreign taints, in order |
| Groups.SetTaint | pkg/apis/assignments/v1alpha1/helpers.go:133-148 | Appends the assignment's taint, NoSchedule if no effect is given |
| Groups.Assign | pkg/apis/assignments/v1alpha1/helpers.go:150-164 | Label, and under LabelAndTaint a taint; an undefined mode is LabelOnly |
| Groups.Unassign | pkg/apis/assignments/v1alpha1/helpers.go:195-198 | Removes every trace of the group and nothing else |
| Groups.UnassignUndoesAssign | pkg/apis/assignments/v1alpha1/helpers.go:150-198 | Unassigning undoes assigning on a node the group had not touched |
| Groups.TargetsNode | pkg/apis/assignments/v1alpha1/helpers.go:66-90 | Unprotected and every target label present with its value, in whatever order the labels are visited |
| Ranking.ScanIsRank | pkg/controller/scheduling/packleft/manager.go:204-228 | Each turn of the scan with its avoid counter decides by rank alone |
| Ranking.StateIsOrderFree | pkg/controller/scheduling/packleft/manager.go:146-228 | The state of a node is the same for every permutation of the input |
| Ranking.SortedIsUnique | pkg/controller/scheduling/packleft/manager.go:171-176 | The comparator admits one sorted order only, so any correct sort gives it |
| Ranking.SortIsSorted | pkg/controller/scheduling/packleft/manager.go:171-176 | The comparator is a strict total order on distinct names: sorting succeeds |
| Ranking.ShapeOfScan | pkg/controller/scheduling/packleft/manager.go:207-228 | In sorted order: Use, then Avoid, then Deny, with the sizes of the blocks |
| Ranking.BlockSizes | pkg/controller/scheduling/packleft/manager.go:164-228 | Of m nodes in any order u = max(1, #above the limit) are used, min(buffer, m - u) avoided, the rest denied |
| Ranking.FullerIsNotMoreRestricted | pkg/controller/scheduling/packleft/manager.go:164-228 | Raising one node's fullness while all others stay never makes its state more restrictive |
| Ranking.PreferredIsNotMoreRestricted | pkg/controller/scheduling/packleft/manager.go:171-228 | Of two nodes the fuller one, or of two equally full ones the one with the greater name, is not more restricted |
| Ranking.LessExactly | pkg/controller/scheduling/packleft/manager.go:171-176 | The order of names: a proper prefix, or the smaller character at the first difference |
| Ranking.UsedExactly | pkg/controller/scheduling/packleft/manager.go:164-228 | A node is used if and only if it is above the limit or nobody comes before it |
| Shares.UsedExactlyWhen | pkg/controller/scheduling/packleft/manager.go:146-228 | From pods to label: a balanced node ends with Use if and only if the memory, or the CPU, its pods that have not succeeded request is more than the given percentage (else 80) of its allocatable amount, or no balanced node of its assignment is fuller or equally full with a greater name |
| Shares.AvoidedExactlyWhen | pkg/controller/scheduling/packleft/manager.go:178-228 | It ends with Avoid if and only if it comes after the used nodes and within the buffer, a number or percentage of all targeted nodes of its assignment, balanced or not |
| Shares.OverLimitExactly | pkg/controller/scheduling/packleft/manager.go:154-202 | A node is above the limit if and only if one of the two requests times 100 exceeds the percentage times the allocatable amount |
| Shares.FullerIsFuller | pkg/controller/scheduling/packleft/manager.go:154-176 | One node is fuller than another if and only if one of its two shares is above both of the other's |
| Shares.RequestedSpelledOut | pkg/controller/scheduling/packleft/manager.go:375-412 | What is summed for a node through the index is requested by the containers of its pods that have not succeeded |
| Limits.BufferRoundsDown | pkg/controller/scheduling/packleft/manager.go:178-194 | The avoid buffer is max(1, NumAvoid, floor(n * p / 100)) as long as n * p < 16777299 |
| PackLeftPass.PassIsOrderFree | pkg/controller/scheduling/packleft/manager.go:49-97 | The result of a pass is the same for every order in which the cache lists the nodes |
| PackLeftPass.PatchesAreDisjoint | pkg/controller/scheduling/packleft/manager.go:49-97 | Rebalancing and cleaning never patch the same node |
| PackLeftPass.PassAgrees | pkg/controller/scheduling/packleft/controller.go:55-59 | Given at most one packleft taint before: label and taint agree with the state on every balanced node, and nodes without PackLeft assignment keep no attribute |
| PackLeftPass.LabelAndTaintAgree | pkg/controller/scheduling/packleft/manager.go:291-334 | The packleft taints after a state is written are those of the state if and only if there was at most one before |
| Written.StateSpelledOut | pkg/controller/scheduling/packleft/manager.go:291-319 | With at most one packleft taint before: Use is a label without taint, Avoid a PreferNoSchedule taint, Deny a NoSchedule taint, each with the state as value |
| Written.PackedAssignmentExactly | pkg/controller/scheduling/packleft/manager.go:353-362 | A node has PackLeft assignment a if and only if a is one of the group's, the default included, packs left, and is what the node's label names |
| Written.BothQuestionsAgree | pkg/controller/scheduling/packleft/manager.go:117-130 | The search over all assignments and the lookup by name give the same answer if names are distinct, so cleaning spares exactly the nodes that grouping considers |
| Written.PackedExactly | pkg/controller/scheduling/packleft/manager.go:499-509 | Of the nodes with a PackLeft assignment, those that are targeted and schedulable and whose first Ready condition is true get a state; the others are left as they are |
| PackLeftPass.CleanedIsClean | pkg/controller/scheduling/packleft/manager.go:276-286 | A cleaned node still has an attribute if and only if it had more than one packleft taint |
| PackLeftPass.PackedKeepsOthers | pkg/controller/scheduling/packleft/manager.go:276-334 | A pass leaves foreign labels and taints and the assignment label |
| PackLeftPass.PassTwice | pkg/controller/scheduling/packleft/controller.go:55-59 | Repeating the pass changes nothing if and only if on every node written to all taints from the second own one on are the one its state puts (balanced), or there is no second own one (cleaned) |
| PackLeftPass.StorablePassTwice | pkg/controller/scheduling/packleft/controller.go:55-59 | If no stored result repeats a key and effect: if and only if every node the pass writes to had at most one packleft taint |
| PackLeftPass.WithStateTwice | pkg/controller/scheduling/packleft/manager.go:291-334 | Writing a state twice is writing it once, exactly under that condition |
| PackLeftManagers.Manager.RebalanceNag | pkg/controller/scheduling/packleft/manager.go:49-68 | Balances the groups in any order of the map; every node of a PackLeft assignment that can be balanced gets its state, under refusals the old or the new one |
| PackLeftManagers.Manager.GetPackLeftNodeGroups | pkg/controller/scheduling/packleft/manager.go:338-351 | The groups partition the targeted nodes whose assignment is PackLeft: each such node is in exactly the group of its assignment, no other node is in any, no group is empty, each keeps the list order |
| PackLeftManagers.Manager.GetTargetedNodes | pkg/controller/scheduling/packleft/manager.go:364-373 | The targeted nodes in the order of the cache |
| PackLeftManagers.Manager.RankNodes | pkg/controller/scheduling/packleft/manager.go:147-163 | The nodes that can be balanced, with the larger of their memory and CPU shares |
| PackLeftManagers.Manager.AvoidBufferSize | pkg/controller/scheduling/packleft/manager.go:178-194 | The larger of percentage and number, at least one |
| PackLeftManagers.Manager.BalanceNodes | pkg/controller/scheduling/packleft/manager.go:146-228 | Sort and scan write the state that rank alone defines |
| PackLeftManagers.Manager.Scan | pkg/controller/scheduling/packleft/manager.go:204-228 | The loop with its counter over the sorted nodes |
| PackLeftManagers.Manager.CleanUnassignedNodes | pkg/controller/scheduling/packleft/manager.go:86-97 | Cleans exactly the nodes with attributes but without PackLeft assignment; refusals are ignored |
| PackLeftManagers.Manager.CleanAllNodes | pkg/controller/scheduling/packleft/manager.go:71-83 | On deletion also cleans nodes that cannot be balanced; the first refusal ends it |
| PackLeftManagers.Manager.RebalanceAndClean | pkg/controller/scheduling/packleft/controller.go:55-59 | Both passes over one cached index, equal to the definition of a pass for every listing order |
| PackLeftManagers.Manager.PatchNodeState | pkg/controller/scheduling/packleft/manager.go:248-274 | Sends the difference unless empty |
| PackLeftManagers.Manager.List | pkg/controller/scheduling/packleft/manager.go:73-73 | The cached nodes, in any order |
| PackLeftManagers.AssignNode | pkg/controller/scheduling/packleft/manager.go:291-319 | Replaces the label, drops the first packleft taint, appends the taint of the state |
| PackLeftManagers.UnassignNode | pkg/controller/scheduling/packleft/manager.go:276-286 | Drops the label and the first packleft taint |
| PackLeftManagers.RemoveTaint | pkg/controller/scheduling/packleft/manager.go:321-334 | Splices out the first taint with the key, in place |
| PackLeftManagers.NodeHasPackLeftAttributes | pkg/controller/scheduling/packleft/manager.go:100-115 | Search loop for the label or a taint |
| PackLeftManagers.NodeHasPackLeftAssignment | pkg/controller/scheduling/packleft/manager.go:118-130 | Search loop over all assignments, the default included |
| PackLeftManagers.GetAssignmentByName | pkg/controller/scheduling/packleft/manager.go:353-362 | The first assignment with the name, if any |
| PackLeftManagers.NodeCanBeBalanced | pkg/controller/scheduling/packleft/manager.go:499-509 | Schedulable, and the first Ready condition is true |
| PodIndex.GetPodsOnNodes | pkg/controller/scheduling/packleft/manager.go:405-412 | The index holds for every node name the pods on it, in order |
| PodIndex.SumRequests | pkg/controller/scheduling/packleft/manager.go:375-401 | Nested loop over pods and containers, succeeded pods skipped |
| PodIndex.IndexConservesRequests | pkg/controller/scheduling/packleft/manager.go:375-412 | Summing requests node by node through the index gives the total over all pods |
| PodIndex.NodeFullness | pkg/controller/scheduling/packleft/manager.go:154-161 | The larger of the two requested shares of the allocatable resources |
| Lifecycle.StepStaysOwned | pkg/controller/nodeassignment/manager.go:32-126 | Group by group, every step of users, nodes and both controllers for any group, under any refusals, keeps 'trace implies the group exists with its finalizer', except exactly a step of that group that drops its finalizer after a refused sweep |
| Lifecycle.StepKeepsInv | pkg/controller/nodeassignment/manager.go:32-126 | Over all groups at once: the invariant is kept by a step if and only if the step does not leak |
| Lifecycle.GoneLeavesNothing | pkg/controller/nodeassignment/manager.go:32-126 | Over every run whose steps for the group do not leak, whatever happens to other groups: once a group is gone, or its finalizer is, no node carries a label or taint of it |
| Lifecycle.DeletionStep | pkg/controller/nodeassignment/manager.go:54-59 | A step on a deleted group keeps its traces owned if and only if no trace survives the sweep or the finalizer stays |
| Lifecycle.SweepLeaves | pkg/controller/nodeassignment/writer_context.go:298-311 | A trace survives the sweep if and only if the listing or the update of its node is refused |
| Lifecycle.RefusedSweepLeaks | pkg/controller/nodeassignment/manager.go:57-58 | A concrete cluster on which the group is gone and its trace is not |
| Lifecycle.DeletionCompletes | pkg/controller/scheduling/packleft/controller.go:48-54 | One undisturbed step of each controller, in either order, removes both finalizers and all traces, after which the group can be removed |
| Lifecycle.TakingOnCompletes | pkg/controller/nodeassignment/manager.go:39-94 | A group that is not being deleted: an accepted step of the allocator leaves its finalizer, once, after the others and the nodes untouched if it was new; the next undisturbed step leaves exactly the closed-form reconcile |
| Lifecycle.PackLeftTakesOn | pkg/controller/scheduling/packleft/controller.go:55-59 | The same for the PackLeft controller, which writes its finalizer and balances in one step |
| Lifecycle.NagFinalizerGoesExactly | pkg/controller/nodeassignment/manager.go:54-59 | The allocator's finalizer goes if and only if its own step on a deleted group is accepted; no step of the other controller takes it away |
| Lifecycle.PackLeftFinalizerGoesExactly | pkg/controller/scheduling/packleft/controller.go:48-54 | The PackLeft finalizer goes if and only if its own step on a deleted group got to every node to clean and is accepted |
| Lifecycle.PackLeftStepStaysOwned | pkg/controller/scheduling/packleft/controller.go:41-62 | A PackLeft step, on deletion or not and however far it gets, keeps the group's traces owned |
| Lifecycle.PackLeftNode | pkg/controller/scheduling/packleft/controller.go:41-62 | It leaves everything outside the group's keys and never puts a trace on a node without one |
| NagManagers.Manager.ReconcileNag | pkg/controller/nodeassignment/manager.go:32-61 | One call is one step of the life cycle; it succeeds on a group it reconciles if and only if no default is refused, and cleans nothing otherwise; with the finalizer present and no refusals it is the closed-form reconcile |
| NagManagers.Manager.AddFinalizer | pkg/controller/nodeassignment/manager.go:63-94 | Appends the finalizer unless present; says whether it did |
| NagManagers.Manager.RemoveFinalizer | pkg/controller/nodeassignment/manager.go:96-126 | Filters the finalizer out and keeps all others in order |
| PackLeftControllers.Controller.Process | pkg/controller/scheduling/packleft/controller.go:41-62 | One call is one step of the life cycle; a deleted group is let go only after every node was cleaned |
| PackLeftControllers.Controller.EnsureFinalizer | pkg/controller/scheduling/packleft/manager.go:434-465 | Appends the finalizer unless present |
| PackLeftControllers.Controller.RemoveFinalizer | pkg/controller/scheduling/packleft/manager.go:467-497 | Filters the finalizer out and keeps all others in order |
| TwoControllers.ReconcileKeepsPackLeft | pkg/controller/nodeassignment/writer_context.go:168-208 | A reconcile leaves packleft label and taints of a node if and only if its outcome neither unassigns a labelled node with attributes nor brings a labelled node with a packleft taint to a tainting assignment |
| TwoControllers.DefaultNodeKeepsPackLeft | pkg/controller/nodeassignment/writer_context.go:224-268 | For a node on the default: if and only if it has no packleft taint or whoever takes it, by its rank among the free nodes, does not taint |
| TwoControllers.ReconcileUndoesPass | pkg/controller/nodeassignment/writer_context.go:168-208 | With a tainting PackLeft default, a reconcile after a pass leaves avoided and denied nodes with the label of their state and without its taint |
| TwoControllers.ReconciledTaintsFollow | pkg/controller/nodeassignment/writer_context.go:217-277 | For every node: after a reconcile its assignment taints are those its assignment calls for, if and only if the condition of its outcome holds; a node that stays keeps its taint whatever its assignment's mode and effect are by now |
| TwoControllers.ProtectedKeepsTrace | pkg/apis/assignments/v1alpha1/helpers.go:11-12 | A protected node is rid of the group's labels and taints if and only if it had none or carried the assignment label |
| TwoControllers.CleanAllLeaves | pkg/controller/scheduling/packleft/manager.go:70-83 | After the cleaning of a deleted group packleft attributes remain exactly on balanceable nodes with a PackLeft assignment and on nodes that had a second packleft taint |
| TwoControllers.DeletionStepLeaves | pkg/controller/scheduling/packleft/controller.go:48-54 | The same for the controller's whole step on a deleted group |
| Limits.MovedNodeKeepsTaint | pkg/controller/nodeassignment/writer_context.go:168-208 | A tainted node moved to an assignment that only labels keeps its old taint |
| Limits.SecondPackLeftTaintStays | pkg/controller/scheduling/packleft/manager.go:321-334 | A node with two packleft taints on which state and taints disagree afterwards, and which cleaning does not clean |
| Limits.LowerKeepsNode | pkg/controller/nodeassignment/writer_context.go:228-231 | A concrete cluster: the only node stays with the lower assignment while the higher one has none |
| Utils.TargetableLabelsAreDifferent | pkg/utils/utils.go:27-51 | True if and only if the maps differ after removing every key that contains kube-valet.io, in any order of visits |
| Utils.FilterValues | pkg/utils/utils.go:62-70 | Keeps the accepted values in order |
| Triggers.ReconcileIsSilent | pkg/controller/nodeassignment/controller.go:49-55 | No update of a reconcile, at any point and under any refusals, makes the trigger guard react |
| Triggers.SweepIsSilent | pkg/controller/nodeassignment/controller.go:49-55 | Nor does the removal of a deleted group |
| Triggers.PackLeftIsSilent | pkg/controller/scheduling/packleft/controller.go:71-76 | Nor does a PackLeft step, whose guard also looks at whether the node can be balanced |
| Triggers.UnnoticedTargeting | pkg/utils/utils.go:54-59 | A change the guard ignores leaves targeting unchanged if and only if it does not touch the protection of a node the selector matches |
| Triggers.ProtectionGoesUnnoticed | pkg/utils/utils.go:54-59 | Protecting a targeted node takes it out of the group without any reaction |
| Triggers.OtherLabelsAreNoticed | pkg/utils/utils.go:27-59 | A label that appears, goes or changes makes the guard react unless kube-valet.io is part of its key |
| Triggers.OwnLabelsAreIgnored | pkg/utils/utils.go:54-59 | Setting a label with kube-valet.io anywhere in its key does not |
| PodRules.PatchRefinesApplication | pkg/controller/podassignment/manager.go:74-92 | The operations sent, each read for what it says (sections 4.1 to 4.3 of RFC 6902), apply if and only if the pod has every field some rule sets, and then equal applying the rules one by one |
| PodRules.MissingFieldFails | pkg/apis/assignments/v1alpha1/helpers.go:229-234 | A pod without node selector and a rule that sets one: the patch fails, applying the rule does not |
| PodRules.PatchedIff | pkg/apis/assignments/v1alpha1/helpers.go:223-253 | A patch of replace operations applies if and only if all its paths are there, and keeps the set of paths |
| PodRules.AllOpsAreReplaces | pkg/apis/assignments/v1alpha1/helpers.go:223-253 | Every operation sent is a replace of one of the three fields, by a value of that field's kind |
| PodRules.OnlyOverwritingRulesApply | pkg/apis/assignments/v1alpha1/helpers.go:207-253 | A rule with another merge strategy sends nothing and changes nothing; one with the default or an unspecified strategy sets every field it gives |
| PodRules.RuleCountsExactly | pkg/controller/podassignment/manager.go:48-72 | Among other rules a rule counts, in its place, if and only if no target label is missing or different on the pod |
| PodRules.LastRuleWins | pkg/controller/podassignment/manager.go:85-88 | Per field the last matching rule that sets it wins; other fields stay |
| PodRules.NamespaceWins | pkg/controller/podassignment/manager.go:53-69 | A field set by a rule of the namespace does not depend on the cluster rules or their order |
| PodRules.ApplyToPod | pkg/apis/assignments/v1alpha1/helpers.go:207-221 | Overwrites, in place, the fields the rule sets; an unknown merge strategy changes nothing |
| PodRules.GetPatchOps | pkg/apis/assignments/v1alpha1/helpers.go:223-253 | One replace operation per set field |
| PodRules.TargetsPod | pkg/apis/assignments/v1alpha1/helpers.go:166-185 | Every target label present with its value, in any order of visits |
| PodRules.PodIsProtected | pkg/controller/podassignment/manager.go:38-45 | Search loop for the protection label |
| PodRules.GetPodAssignmentsScheduling | pkg/controller/podassignment/manager.go:48-72 | The matching cluster rules, then the matching rules of the namespace, each in index order |
| PodRules.GetPodSchedulingPatches | pkg/controller/podassignment/manager.go:74-92 | No operations for a protected pod, otherwise those of all matching rules in order |

## Left out

- Refusals.NeverOverAssigned: counts the nodes of the built context, which after a refused eviction are fewer than all targeted nodes; `ShortListings.BoundedByUnseen` and `ShortListings.OverAssignedExactly` speak of all of them.
- Lifecycle.GoneLeavesNothing: excludes runs in which a step for that group drops the finalizer after a refused sweep; `Lifecycle.StepStaysOwned` shows that these are exactly the harmful steps.
- Validation by the API server: it rejects a node with two taints of the same key and effect; such an update is refused here only if the schedule says so.
- Unknown assignment modes, duplicate assignment names, and, but for the ledger (`Allocated.SharedDefaultIsAlwaysDue`), a default that shares a name with an assignment.
- A refused List while the context is built: the program ends there (log.Fatal).
- Writing the default mode and effect back into the assignment object while assigning: the same on every later use.
- sort.Slice: an insertion sort stands for it; by `Ranking.SortedIsUnique` every correct sort gives the same order.
- Rounding of node fullness to float64, and NaN or infinite fullness from zero allocatable: fullness is a real number here; the order and monotonicity results hold for any fullness values.
- Overflow of Go's int and int64.
- Stale informer caches and concurrent steps: each controller step reads the current group and nodes, as with one worker thread.
- Retries on conflicting updates of a group: an update is accepted or refused once.
- Retry queue, leader election, watches, webhook HTTP, JSON encoding, metrics, logging, command line.
- cache.ListAllByNamespace: the rules of the pod's namespace are a parameter, in index order.
- Immediate removal by the API server when the last finalizer goes: removal is a step of its own that may come at any later time.

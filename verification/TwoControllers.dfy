/** One node under both controllers: what a reconcile does to the attributes PackLeft put there, whether the
    taints of a node follow its assignment, and what of a group stays on nodes it should have left. */
module TwoControllers {
  import opened Cluster
  import opened Groups
  import opened Allocation
  import opened Plan
  import opened Pass
  import opened Lists
  import opened Reconciling
  import opened Settlement
  import opened Commuting
  import opened Allocated
  import opened Fixpoint
  import opened PackLeftPass
  import opened PackLeftManagers
  import opened Lifecycle

  // ----- PackLeft attributes under a reconcile -----

  ghost predicate SamePackLeft(g: Group, x: Node, y: Node) {
    && (PackLeftKey(g.name) in x.labels <==> PackLeftKey(g.name) in y.labels)
    && (PackLeftKey(g.name) in x.labels ==> x.labels[PackLeftKey(g.name)] == y.labels[PackLeftKey(g.name)])
    && OwnTaints(g, x.taints) == OwnTaints(g, y.taints)
  }

  /** The outcome takes the assignment label away, or brings a new taint, which replaces all taints of the group. */
  predicate Disturbs(g: Group, outcome: Outcome, node: Node) {
    LabelOf(g, node).Some? &&
    ((outcome == Nothing && HasPackLeftAttributes(g, node))
     || (outcome.Give? && outcome.a.mode == LabelAndTaint && OwnTaints(g, node.taints) != []))
  }

  lemma {:induction false} ForeignAreNotOwn(g: Group, taints: seq<Taint>)
    ensures OwnTaints(g, ForeignTaints(g.name, taints)) == []
  {
    FilterMembers(IsForeign(g.name), taints);
    FilterNothing(HasKey(PackLeftKey(g.name)), ForeignTaints(g.name, taints));
  }

  lemma {:induction false} AddedAreNotPackLeft(g: Group, outcome: Outcome)
    ensures OwnTaints(g, Adds(g, outcome)) == []
  {
    KeysAreDistinct(g.name, g.name);
    FilterNothing(HasKey(PackLeftKey(g.name)), Adds(g, outcome));
  }

  lemma {:induction false} SettledOwnTaints(g: Group, outcome: Outcome, node: Node)
    ensures OwnTaints(g, Settled(g, outcome, node).taints) == if Strips(g, outcome, node) then [] else OwnTaints(g, node.taints)
  {
    SettledTaints(g, outcome, node);
    ForeignAreNotOwn(g, node.taints);
    AddedAreNotPackLeft(g, outcome);
    FilterConcat(HasKey(PackLeftKey(g.name)), Stripped(g.name, Strips(g, outcome, node), node.taints), Adds(g, outcome));
    hide Settled, Strips, Adds, ForeignTaints, Filter, PackLeftKey;
  }

  lemma {:induction false} SettledPackLeftLabel(g: Group, outcome: Outcome, node: Node)
    ensures var after := Settled(g, outcome, node).labels;
            var key := PackLeftKey(g.name);
            && (key in after <==> key in node.labels && !(outcome == Nothing && LabelOf(g, node).Some?))
            && (key in after ==> after[key] == node.labels[key])
  {
    KeysAreDistinct(g.name, g.name);
    if outcome.Give? {
      RelabelledView(g, outcome.a, node);
      hide Relabelled;
    }
    hide ForeignTaints;
  }

  lemma {:induction false} OutcomeKeepsPackLeft(g: Group, outcome: Outcome, node: Node)
    ensures SamePackLeft(g, node, Settled(g, outcome, node)) <==> !Disturbs(g, outcome, node)
  {
    SettledOwnTaints(g, outcome, node);
    SettledPackLeftLabel(g, outcome, node);
    NoAttributesNoTaints(g, node);
    hide Settled, OwnTaints, HasPackLeftAttributes, PackLeftKey, LabelOf;
  }

  /** A reconcile leaves the packleft label and taints of a node as they were exactly if its outcome does not disturb them. */
  lemma {:induction false} ReconcileKeepsPackLeft(g: Group, order: seq<string>, nodes: map<string, Node>, n: string)
    requires n in nodes && forall m :: m in order ==> m in nodes
    ensures SamePackLeft(g, nodes[n], Reconciled(g, order, nodes)[n]) <==> !Disturbs(g, OutcomeIn(g, order, nodes, n), nodes[n])
  {
    hide Reconciled, OutcomeIn, Settled, SamePackLeft, Disturbs;
    ReconciledNode(g, order, nodes, n);
    OutcomeKeepsPackLeft(g, OutcomeIn(g, order, nodes, n), nodes[n]);
  }

  /** Who takes the node at position k of the list, in counts before the run, if it is on the default. */
  function Taker(g: Group, labels: seq<Option<string>>, ledger: map<string, int>, k: nat): Assignment
    requires g.fallback.Some? && k <= |labels|
  {
    var rank, queue := FreeBefore(g, labels, ledger, k), Demand(g.assignments, ledger);
    if rank < |queue| then queue[rank] else g.fallback.value
  }

  lemma {:induction false} DefaultIsTaken(g: Group, labels: seq<Option<string>>, ledger: map<string, int>, k: nat)
    requires g.fallback.Some? && k < |labels| && labels[k] == FallbackName(g)
    ensures OutcomeAt(g, labels, ledger, k) == Give(Taker(g, labels, ledger, k))
  {
    hide FreeBefore, Demand, Before;
  }

  /** A node on the default keeps what PackLeft put there exactly if it carries no packleft taint or whoever
      takes it does not taint. */
  lemma {:induction false} DefaultNodeKeepsPackLeft(g: Group, order: seq<string>, nodes: map<string, Node>, k: nat)
    requires IsListing(order, nodes) && g.fallback.Some? && k < |Targeted(g, order, nodes)|
    requires var n := Targeted(g, order, nodes)[k]; n in nodes && LabelOf(g, nodes[n]) == FallbackName(g)
    ensures var n := Targeted(g, order, nodes)[k];
            var labels := PlanLabels(g, nodes, Targeted(g, order, nodes));
            && OutcomeIn(g, order, nodes, n) == Give(Taker(g, labels, PlanLedger(g, labels), k))
            && (SamePackLeft(g, nodes[n], Reconciled(g, order, nodes)[n]) <==>
                  OwnTaints(g, nodes[n].taints) == [] || Taker(g, labels, PlanLedger(g, labels), k).mode != LabelAndTaint)
  {
    hide Reconciled, OutcomeIn, OutcomeAt, SamePackLeft, Targeted, PlanLabels, PlanLedger, LabelOf, Admitted, Taker, OwnTaints, Distinct;
    var names := Targeted(g, order, nodes);
    var labels := PlanLabels(g, nodes, names);
    ReconcileKeepsPackLeft(g, order, nodes, names[k]);
    OutcomeOfTargeted(g, order, nodes, k);
    PlanLabelAt(g, nodes, names, k);
    AdmittedLabel(g, nodes[names[k]]);
    StrayIsUnknown(g, nodes[names[k]]);
    KnownIsNamedOrFallback(g, LabelOf(g, nodes[names[k]]));
    DefaultIsTaken(g, labels, PlanLedger(g, labels), k);
  }

  // ----- A reconcile after a PackLeft pass -----

  lemma {:induction false} LeftOverIsTakenByDefault(g: Group, labels: seq<Option<string>>, ledger: map<string, int>, k: nat)
    requires g.fallback.Some? && k < |labels| && FreeBefore(g, labels, ledger, k) >= TotalDue(g.assignments, ledger)
    ensures Taker(g, labels, ledger, k) == g.fallback.value
  {
    DemandLength(g.assignments, ledger);
    hide FreeBefore, Demand, TotalDue;
  }

  /** If the default taints and packs left, a reconcile after a pass undoes it on every avoided or denied node that
      stays on the default: the label still says Avoid or Deny, the taint is gone. */
  lemma {:induction false} ReconcileUndoesPass(g: Group, order: seq<string>, order': seq<string>, nodes: map<string, Node>, full: map<string, real>, n: string)
    requires n in nodes && g.fallback.Some? && g.fallback.value.mode == LabelAndTaint
    requires IsListing(order', Packed(g, order, nodes, full)) && LeftOver(g, order', Packed(g, order, nodes, full), n)
    requires IsPacked(g, nodes[n]) && LabelOf(g, nodes[n]) == FallbackName(g) && |OwnTaints(g, nodes[n].taints)| <= 1
    ensures PackedAssignment(g, nodes[n]).Some? && n in Reconciled(g, order', Packed(g, order, nodes, full))
    ensures var state := StateIn(g, order, nodes, full, n);
            var once, after := Packed(g, order, nodes, full)[n], Reconciled(g, order', Packed(g, order, nodes, full))[n];
            && OwnTaints(g, once.taints) == StateTaints(g, state)
            && PackLeftKey(g.name) in after.labels && after.labels[PackLeftKey(g.name)] == StateValue(state)
            && OwnTaints(g, after.taints) == []
  {
    hide Reconciled, OutcomeIn, OutcomeAt, Targeted, PlanLabels, PlanLedger, LabelOf, Taker, OwnTaints, Distinct, IsPacked, PackedNode, StateIn,
         StateTaints, StateValue, Settled, FreeBefore, TotalDue, PackedAssignment, PackLeftKey, HasPackLeftAssignment, HasPackLeftAttributes;
    var nodes' := Packed(g, order, nodes, full);
    PassAgrees(g, order, nodes, full, n);
    PackedKeepsOthers(g, order, nodes, full, n);
    var names := Targeted(g, order', nodes');
    var labels := PlanLabels(g, nodes', names);
    var k :| 0 <= k < |labels| && names[k] == n && FreeBefore(g, labels, PlanLedger(g, labels), k) >= TotalDue(g.assignments, PlanLedger(g, labels));
    DefaultNodeKeepsPackLeft(g, order', nodes', k);
    LeftOverIsTakenByDefault(g, labels, PlanLedger(g, labels), k);
    ReconciledKeys(g, order', nodes');
    ReconciledNode(g, order', nodes', n);
    SettledOwnTaints(g, Give(g.fallback.value), nodes'[n]);
    SettledPackLeftLabel(g, Give(g.fallback.value), nodes'[n]);
  }

  // ----- Taints that follow the assignment -----

  function AssignmentTaints(g: Group, taints: seq<Taint>): seq<Taint> { Filter(HasKey(AssignmentKey(g.name)), taints) }

  function AssignmentNamed(g: Group, name: Option<string>): Option<Assignment> {
    if name.None? then None else FirstNamed(AllAssignments(g), name.value)
  }

  /** The assignment taints of a node are those its assignment label calls for. */
  predicate TaintsFollow(g: Group, node: Node) {
    var a := AssignmentNamed(g, LabelOf(g, node));
    AssignmentTaints(g, node.taints) == if a.Some? then Adds(g, Give(a.value)) else []
  }

  /** What the node must have been like for its taints to follow its assignment after the outcome. */
  predicate FollowsAfter(g: Group, outcome: Outcome, node: Node) {
    match outcome
    case Stay => TaintsFollow(g, node)
    case Give(a) => AssignmentTaints(g, node.taints) == [] || (LabelOf(g, node).Some? && a.mode == LabelAndTaint)
    case Nothing => AssignmentTaints(g, node.taints) == [] || LabelOf(g, node).Some?
  }

  lemma {:induction false} SettledAssignmentTaints(g: Group, outcome: Outcome, node: Node)
    ensures AssignmentTaints(g, Settled(g, outcome, node).taints)
         == (if Strips(g, outcome, node) then [] else AssignmentTaints(g, node.taints)) + Adds(g, outcome)
  {
    SettledTaints(g, outcome, node);
    FilterMembers(IsForeign(g.name), node.taints);
    FilterNothing(HasKey(AssignmentKey(g.name)), ForeignTaints(g.name, node.taints));
    FilterNone(HasKey(AssignmentKey(g.name)), Adds(g, outcome));
    FilterConcat(HasKey(AssignmentKey(g.name)), Stripped(g.name, Strips(g, outcome, node), node.taints), Adds(g, outcome));
    hide Settled, Strips, ForeignTaints, Filter;
  }

  lemma {:induction false} OutcomeTaintsFollow(g: Group, outcome: Outcome, node: Node)
    requires outcome.Give? ==> AssignmentNamed(g, Some(outcome.a.name)) == Some(outcome.a)
    ensures TaintsFollow(g, Settled(g, outcome, node)) <==> FollowsAfter(g, outcome, node)
  {
    SettledAssignmentTaints(g, outcome, node);
    SettledLabel(g, outcome, node);
    hide Settled, AssignmentTaints, TaintOf, LabelOf, FirstNamed, AllAssignments;
    if outcome == Stay {
      StayChangesNothing(g, node);
    }
  }

  lemma {:induction false} FirstNamedIsUnique(assignments: seq<Assignment>, a: Assignment)
    requires a in assignments && forall b :: b in assignments && b.name == a.name ==> b == a
    ensures FirstNamed(assignments, a.name) == Some(a)
  {
  }

  lemma {:induction false} HandedOutIsNamed(g: Group, a: Assignment)
    requires WellFormed(g) && (a in g.assignments || g.fallback == Some(a))
    ensures AssignmentNamed(g, Some(a.name)) == Some(a)
  {
    var all := AllAssignments(g);
    assert a in all;
    forall b | b in all && b.name == a.name ensures b == a {
      UniqueName(g, a, b);
    }
    FirstNamedIsUnique(all, a);
    hide FirstNamed, WellFormed;
  }

  lemma {:induction false} UniqueName(g: Group, a: Assignment, b: Assignment)
    requires WellFormed(g) && a in AllAssignments(g) && b in AllAssignments(g) && a.name == b.name
    ensures a == b
  {
    if a in g.assignments {
      var i :| 0 <= i < |g.assignments| && g.assignments[i] == a;
    }
    if b in g.assignments {
      var j :| 0 <= j < |g.assignments| && g.assignments[j] == b;
    }
  }

  lemma {:induction false} GivenIsNamed(g: Group, order: seq<string>, nodes: map<string, Node>, n: string)
    requires IsListing(order, nodes) && WellFormed(g) && n in nodes && OutcomeIn(g, order, nodes, n).Give?
    ensures AssignmentNamed(g, Some(OutcomeIn(g, order, nodes, n).a.name)) == Some(OutcomeIn(g, order, nodes, n).a)
  {
    hide Targeted, PlanLabels, PlanLedger, OutcomeIn, OutcomeAt, IsTargeted, WellFormed, Distinct, AssignmentNamed;
    TargetedFacts(g, order, nodes);
    var names := Targeted(g, order, nodes);
    if n !in names {
      UntargetedGetsNothing(g, order, nodes, n);
    } else {
      var k :| 0 <= k < |names| && names[k] == n;
      OutcomeOfTargeted(g, order, nodes, k);
      GivenIsMember(g, PlanLabels(g, nodes, names), PlanLedger(g, PlanLabels(g, nodes, names)), k);
      HandedOutIsNamed(g, OutcomeIn(g, order, nodes, n).a);
    }
  }

  lemma {:induction false} GivenIsMember(g: Group, labels: seq<Option<string>>, ledger: map<string, int>, k: nat)
    requires k < |labels| && OutcomeAt(g, labels, ledger, k).Give?
    ensures OutcomeAt(g, labels, ledger, k).a in g.assignments || g.fallback == Some(OutcomeAt(g, labels, ledger, k).a)
  {
    var rank := FreeBefore(g, labels, ledger, k);
    if rank < |Demand(g.assignments, ledger)| {
      DemandIsNamed(g.assignments, ledger, rank);
    }
    hide Demand, FreeBefore, Before;
  }

  /** For every node of the cluster: after a reconcile its taints follow its assignment exactly under the condition
      for its outcome. A node that stays keeps its taint whatever mode or effect its assignment has by now. */
  lemma {:induction false} ReconciledTaintsFollow(g: Group, order: seq<string>, nodes: map<string, Node>, n: string)
    requires IsListing(order, nodes) && WellFormed(g) && n in nodes
    ensures n in Reconciled(g, order, nodes)
    ensures TaintsFollow(g, Reconciled(g, order, nodes)[n]) <==> FollowsAfter(g, OutcomeIn(g, order, nodes, n), nodes[n])
  {
    hide Reconciled, OutcomeIn, Settled, TaintsFollow, FollowsAfter, WellFormed, Distinct, AssignmentNamed;
    ReconciledKeys(g, order, nodes);
    ReconciledNode(g, order, nodes, n);
    if OutcomeIn(g, order, nodes, n).Give? {
      GivenIsNamed(g, order, nodes, n);
    }
    OutcomeTaintsFollow(g, OutcomeIn(g, order, nodes, n), nodes[n]);
  }

  // ----- Traces that stay -----

  lemma {:induction false} BaseTrace(g: Group, node: Node)
    ensures HasTrace(g.name, Base(g, node)) <==> HasTrace(g.name, node) && LabelOf(g, node).None?
  {
    UnassignedHasNoTrace(g, node);
    hide HasTrace, Unassigned, LabelOf;
  }

  /** A protected node is rid of the group's labels and taints exactly if it had none or carried the assignment label. */
  lemma {:induction false} ProtectedKeepsTrace(g: Group, order: seq<string>, nodes: map<string, Node>, n: string)
    requires IsListing(order, nodes) && n in nodes && IsProtected(nodes[n].labels)
    ensures n in Reconciled(g, order, nodes)
    ensures HasTrace(g.name, Reconciled(g, order, nodes)[n]) <==> HasTrace(g.name, nodes[n]) && LabelOf(g, nodes[n]).None?
  {
    hide Reconciled, OutcomeIn, IsTargeted, HasTrace, LabelOf, Base, Targeted, IsProtected, Distinct;
    ReconciledKeys(g, order, nodes);
    ReconciledNode(g, order, nodes, n);
    ProtectedIsNotTargeted(g, nodes[n]);
    TargetedFacts(g, order, nodes);
    UntargetedGetsNothing(g, order, nodes, n);
    BaseTrace(g, nodes[n]);
  }

  /** The cleaning of a deleted group that meets no refusal leaves packleft attributes on a node exactly if the node
      still has a PackLeft assignment and can be balanced, or had a second packleft taint. */
  lemma {:induction false} CleanAllLeaves(g: Group, nodes: map<string, Node>, n: string)
    requires n in nodes
    ensures var after := Overlay(nodes, CleanAllTarget(g, nodes), CleanAllTarget(g, nodes).Keys);
            && n in after
            && (HasPackLeftAttributes(g, after[n]) <==>
                  if HasPackLeftAssignment(g, nodes[n]) && CanBeBalanced(nodes[n].status) then HasPackLeftAttributes(g, nodes[n])
                  else |OwnTaints(g, nodes[n].taints)| > 1)
  {
    CleanAllTargetFacts(g, nodes);
    CleanedIsClean(g, nodes[n]);
    NoAttributesNoTaints(g, nodes[n]);
    hide CleanAllTarget, HasPackLeftAttributes, HasPackLeftAssignment, CanBeBalanced, OwnTaints, WithoutState;
  }

  /** The same for the controller's step on a deleted group. */
  lemma {:induction false} DeletionStepLeaves(s: State, a: Action, n: string)
    requires Enabled(s, a) && a.PackLeftStep? && s.objects[a.name].deleting && n in s.nodes
    requires CleanAllTarget(s.objects[a.name].group, s.nodes).Keys <= a.done
    ensures n in Next(s, a).nodes
    ensures var g := s.objects[a.name].group;
            HasPackLeftAttributes(g, Next(s, a).nodes[n]) <==>
              if HasPackLeftAssignment(g, s.nodes[n]) && CanBeBalanced(s.nodes[n].status) then HasPackLeftAttributes(g, s.nodes[n])
              else |OwnTaints(g, s.nodes[n].taints)| > 1
  {
    hide CleanAllTarget, HasPackLeftAttributes, HasPackLeftAssignment, CanBeBalanced, OwnTaints, Distinct, PackLeftFinalizers;
    CleanAllLeaves(s.objects[a.name].group, s.nodes, n);
  }
}

/** What a second reconcile changes: nothing, unless the default assignment was handed an
    unlabelled node with an old taint of the group; and never anything from the second run on. */
module Fixpoint {
  import opened Cluster
  import opened Groups
  import opened Allocation
  import opened Plan
  import opened Pass
  import opened Lists
  import opened Reconciling
  import opened Settlement
  import opened Allocated

  // ----- The second run sees the same targets -----

  lemma {:induction false} TargetingByOthers(g: Group, x: Node, y: Node)
    requires SelectsByOthers(g) && SameOutside(g.name, x, y)
    ensures IsTargeted(g, x) <==> IsTargeted(g, y)
  {
    hide Known, Targets, SelectsByOthers, LabelOf;
    ForeignTwice(g.name, x.taints);
    ForeignTwice(g.name, y.taints);
    assert SameOutside(g.name, Admitted(g, x), Admitted(g, y));
    SelectorIgnoresOwnKeys(g, Admitted(g, x), Admitted(g, y));
    hide Admitted, SameOutside;
  }

  lemma {:induction false} SameTargetsAgain(g: Group, order: seq<string>, order': seq<string>, nodes: map<string, Node>)
    requires IsListing(order, nodes) && SelectsByOthers(g)
    requires IsListing(order', Reconciled(g, order, nodes))
    ensures var names, names' := Targeted(g, order, nodes), Targeted(g, order', Reconciled(g, order, nodes));
            Distinct(names) && Distinct(names') && forall n :: n in names <==> n in names'
  {
    hide IsTargeted, Reconciled, SameOutside, SelectsByOthers, Targeted;
    var nodes' := Reconciled(g, order, nodes);
    ReconciledKeys(g, order, nodes);
    TargetedFacts(g, order, nodes);
    TargetedFacts(g, order', nodes');
    forall n | n in nodes ensures IsTargeted(g, nodes[n]) <==> IsTargeted(g, nodes'[n]) {
      ReconcileKeepsOthers(g, order, nodes, n);
      TargetingByOthers(g, nodes[n], nodes'[n]);
    }
  }

  // ----- Counts do not depend on the order of the list -----

  function NameSet(names: seq<string>): set<string> { set n | n in names }

  lemma {:induction false} NameSetStep(names: seq<string>, k: nat)
    requires k < |names| && Distinct(names)
    ensures NameSet(names[..k + 1]) == NameSet(names[..k]) + {names[k]}
    ensures names[k] !in NameSet(names[..k])
  {
    assert names[..k + 1] == names[..k] + [names[k]];
  }

  function Carriers(g: Group, nodes: map<string, Node>, names: set<string>, c: Option<string>): set<string> {
    set n | n in names && n in nodes && LabelOf(g, nodes[n]) == c
  }

  lemma {:induction false} CarriersStep(g: Group, nodes: map<string, Node>, names: set<string>, n: string, c: Option<string>)
    requires n in nodes
    ensures n !in names ==> n !in Carriers(g, nodes, names, c)
    ensures Carriers(g, nodes, names + {n}, c) == Carriers(g, nodes, names, c) + if LabelOf(g, nodes[n]) == c then {n} else {}
  {
    hide LabelOf;
  }

  lemma {:induction false} CountAsSet(g: Group, nodes: map<string, Node>, names: seq<string>, k: nat, c: Option<string>)
    requires k <= |names| && Distinct(names) && forall n :: n in names ==> n in nodes
    ensures Before(LabelsNow(g, nodes, names), k, c) == |Carriers(g, nodes, NameSet(names[..k]), c)|
  {
    hide LabelOf, LabelsNow, NameSet, Carriers, Distinct;
    if k == 0 {
      NoCarriers(g, nodes, names, c);
    } else {
      CountAsSet(g, nodes, names, k - 1, c);
      NameSetStep(names, k - 1);
      assert names[k - 1] in names;
      CarriersStep(g, nodes, NameSet(names[..k - 1]), names[k - 1], c);
    }
  }

  lemma {:induction false} NoCarriers(g: Group, nodes: map<string, Node>, names: seq<string>, c: Option<string>)
    ensures |Carriers(g, nodes, NameSet(names[..0]), c)| == 0
  {
    assert Carriers(g, nodes, NameSet(names[..0]), c) == {};
  }

  lemma {:induction false} LengthAsSet(names: seq<string>, k: nat)
    requires k <= |names| && Distinct(names)
    ensures k == |NameSet(names[..k])|
  {
    if k == 0 {
      assert NameSet(names[..0]) == {};
    } else {
      LengthAsSet(names, k - 1);
      NameSetStep(names, k - 1);
      hide NameSet, Distinct;
    }
  }

  lemma {:induction false} SameNameSet(names: seq<string>, names': seq<string>)
    requires forall n :: n in names <==> n in names'
    ensures NameSet(names[..|names|]) == NameSet(names'[..|names'|])
  {
    assert names[..|names|] == names && names'[..|names'|] == names';
  }

  lemma {:induction false} SameCounts(g: Group, nodes: map<string, Node>, names: seq<string>, names': seq<string>, c: string)
    requires Distinct(names) && Distinct(names') && forall n :: n in names <==> n in names'
    requires forall n :: n in names ==> n in nodes
    ensures |names| == |names'| && On(g, nodes, names, c) == On(g, nodes, names', c)
  {
    hide LabelOf, LabelsNow, Before, Carriers, NameSet, Distinct;
    CountAsSet(g, nodes, names, |names|, Some(c));
    CountAsSet(g, nodes, names', |names'|, Some(c));
    LengthAsSet(names, |names|);
    LengthAsSet(names', |names'|);
    SameNameSet(names, names');
  }

  // ----- The second plan -----

  /** After a reconcile no assignment is over-full. */
  lemma {:induction false} NoneOverfull(g: Group, order: seq<string>, order': seq<string>, nodes: map<string, Node>, i: nat)
    requires IsListing(order, nodes) && SelectsByOthers(g) && WellFormed(g) && i < |g.assignments|
    requires IsListing(order', Reconciled(g, order, nodes))
    ensures var nodes', names := Reconciled(g, order, nodes), Targeted(g, order, nodes);
            var names' := Targeted(g, order', nodes');
            && |names| == |names'|
            && (forall n :: n in names ==> n in nodes')
            && On(g, nodes', names, g.assignments[i].name) == On(g, nodes', names', g.assignments[i].name)
            && On(g, nodes', names', g.assignments[i].name) <= Desired(g.assignments[i], |names'|)
  {
    hide Targeted, Reconciled, On, WellFormed, Desired, SelectsByOthers, FreeNodes, DueBefore;
    ReconcileAllocates(g, order, nodes, i);
    SameTargetsAgain(g, order, order', nodes);
    ReconciledKeys(g, order, nodes);
    SameCounts(g, Reconciled(g, order, nodes), Targeted(g, order, nodes),
               Targeted(g, order', Reconciled(g, order, nodes)), g.assignments[i].name);
  }

  lemma {:induction false} NothingDue(assignments: seq<Assignment>, ledger: map<string, int>)
    requires forall i :: 0 <= i < |assignments| ==> Due(ledger, assignments[i].name) == 0
    ensures Demand(assignments, ledger) == []
  {
    if assignments != [] {
      NothingDue(assignments[1..], ledger);
    }
  }

  /** Where nothing is over-full and, unless every node works for an assignment, nothing is due, only
      nodes without assignment and nodes on the default are handled, and they get the default. */
  lemma {:induction false} SettledPlan(g: Group, labels: seq<Option<string>>, ledger: map<string, int>, k: nat)
    requires WellFormed(g) && AllKnown(g, labels) && k < |labels|
    requires forall i :: 0 <= i < |g.assignments| ==> Get(ledger, g.assignments[i].name) >= 0
    requires forall i :: 0 <= i < |g.assignments| && Get(ledger, g.assignments[i].name) > 0 ==>
               labels[k].Some? && Named(g.assignments, labels[k].value)
    ensures OutcomeAt(g, labels, ledger, k) ==
              if labels[k].Some? && Named(g.assignments, labels[k].value) then Stay
              else if g.fallback.Some? then Give(g.fallback.value)
              else Nothing
  {
    if labels[k].Some? && Named(g.assignments, labels[k].value) {
      var i :| 0 <= i < |g.assignments| && g.assignments[i].name == labels[k].value;
      assert Get(ledger, g.assignments[i].name) >= 0;
      hide Demand, Before, FreeBefore, Named;
    } else {
      NothingDue(g.assignments, ledger);
      assert labels[k].Some? ==> Known(g, labels[k].value);
      hide Demand, Before, FreeBefore, Named;
    }
  }

  lemma {:induction false} SecondLedger(g: Group, order: seq<string>, order': seq<string>, nodes: map<string, Node>, k: nat)
    requires IsListing(order, nodes) && SelectsByOthers(g) && WellFormed(g)
    requires IsListing(order', Reconciled(g, order, nodes))
    requires k < |Targeted(g, order', Reconciled(g, order, nodes))|
    ensures var nodes' := Reconciled(g, order, nodes);
            var names' := Targeted(g, order', nodes');
            var labels := PlanLabels(g, nodes', names');
            && names'[k] in nodes'
            && labels[k] == LabelOf(g, nodes'[names'[k]])
            && OutcomeIn(g, order', nodes', names'[k]) ==
                 if labels[k].Some? && Named(g.assignments, labels[k].value) then Stay
                 else if g.fallback.Some? then Give(g.fallback.value)
                 else Nothing
  {
    hide Targeted, Reconciled, On, WellFormed, Desired, SelectsByOthers, PlanLabels, PlanLedger, OutcomeIn, LabelOf, Admitted,
         IsStray, OutcomeAt, AllKnown, LedgerOf, Named, IsTargeted, Known, IsProtected, Total;
    var nodes' := Reconciled(g, order, nodes);
    var names' := Targeted(g, order', nodes');
    var labels := PlanLabels(g, nodes', names');
    var ledger := PlanLedger(g, labels);
    var n := names'[k];
    ReconciledKeys(g, order, nodes);
    assert n in names';
    PlanLabelAt(g, nodes', names', k);
    AdmittedLabel(g, nodes'[n]);
    StrayIsUnknown(g, nodes'[n]);
    ReconciledLabelIsKnown(g, order, nodes, n);
    PlanLabelsKnown(g, nodes', names');
    forall i | 0 <= i < |g.assignments|
      ensures Get(ledger, g.assignments[i].name) >= 0
      ensures Get(ledger, g.assignments[i].name) > 0 ==> labels[k].Some? && Named(g.assignments, labels[k].value)
    {
      SecondEntry(g, order, order', nodes, i, k);
    }
    SettledPlan(g, labels, ledger, k);
    OutcomeOfTargeted(g, order', nodes', k);
  }

  lemma {:induction false} SecondEntry(g: Group, order: seq<string>, order': seq<string>, nodes: map<string, Node>, i: nat, k: nat)
    requires IsListing(order, nodes) && SelectsByOthers(g) && WellFormed(g) && i < |g.assignments|
    requires IsListing(order', Reconciled(g, order, nodes))
    requires k < |Targeted(g, order', Reconciled(g, order, nodes))|
    ensures var nodes' := Reconciled(g, order, nodes);
            var names' := Targeted(g, order', nodes');
            var labels := PlanLabels(g, nodes', names');
            var entry := Get(PlanLedger(g, labels), g.assignments[i].name);
            && names'[k] in nodes' && entry >= 0
            && (entry > 0 ==>
                  LabelOf(g, nodes'[names'[k]]).Some? && Named(g.assignments, LabelOf(g, nodes'[names'[k]]).value))
  {
    hide Targeted, Reconciled, On, WellFormed, Desired, SelectsByOthers, PlanLabels, PlanLedger, LabelOf, AllKnown, Named,
         FinalLabels, Total;
    var nodes' := Reconciled(g, order, nodes);
    var names, names' := Targeted(g, order, nodes), Targeted(g, order', nodes');
    NoneOverfull(g, order, order', nodes, i);
    PlanOf(g, order', nodes', i);
    LedgerEntry(g, PlanLabels(g, nodes', names'), PlanLedger(g, PlanLabels(g, nodes', names')), i);
    SameTargetsAgain(g, order, order', nodes);
    assert names'[k] in names';
    var j :| 0 <= j < |names| && names[j] == names'[k];
    if On(g, nodes', names, g.assignments[i].name) < Desired(g.assignments[i], |names|) {
      ReconcileShortage(g, order, nodes, i, j);
    }
  }

  lemma {:induction false} LedgerEntry(g: Group, labels: seq<Option<string>>, ledger: map<string, int>, i: nat)
    requires LedgerOf(g, labels, ledger) && i < |g.assignments|
    ensures Get(ledger, g.assignments[i].name)
         == Desired(g.assignments[i], |labels|) - Total(labels, Some(g.assignments[i].name))
  {
    hide Desired, Total;
  }

  /** A second reconcile puts the nodes on the default through their assignment again and touches nothing else. */
  lemma {:induction false} SecondRun(g: Group, order: seq<string>, order': seq<string>, nodes: map<string, Node>, n: string)
    requires IsListing(order, nodes) && SelectsByOthers(g) && WellFormed(g) && n in nodes
    requires IsListing(order', Reconciled(g, order, nodes))
    ensures var nodes' := Reconciled(g, order, nodes);
            && n in nodes' && n in Reconciled(g, order', nodes')
            && Reconciled(g, order', nodes')[n] ==
                 if g.fallback.Some? && LabelOf(g, nodes'[n]) == FallbackName(g) then Relabelled(g, g.fallback.value, nodes'[n])
                 else nodes'[n]
  {
    hide Targeted, Reconciled, WellFormed, SelectsByOthers, PlanLabels, OutcomeIn, LabelOf, Named, IsTargeted, Known,
         IsProtected, Relabelled;
    var nodes' := Reconciled(g, order, nodes);
    var names' := Targeted(g, order', nodes');
    ReconciledKeys(g, order, nodes);
    ReconciledKeys(g, order', nodes');
    ReconciledLabelIsKnown(g, order, nodes, n);
    ReconciledNode(g, order', nodes', n);
    FallbackIsNotNamed(g);
    SameTargetsAgain(g, order, order', nodes);
    TargetedFacts(g, order, nodes);
    TargetedFacts(g, order', nodes');
    if n in names' {
      var k :| 0 <= k < |names'| && names'[k] == n;
      SecondLedger(g, order, order', nodes, k);
      KnownIsNamedOrFallback(g, LabelOf(g, nodes'[n]));
    } else {
      UntargetedGetsNothing(g, order', nodes', n);
    }
    hide Unassigned;
  }

  lemma {:induction false} FallbackIsNotNamed(g: Group)
    requires WellFormed(g)
    ensures g.fallback.Some? ==> !Named(g.assignments, g.fallback.value.name)
  {
    hide DistinctNames, Named;
  }

  lemma {:induction false} KnownIsNamedOrFallback(g: Group, c: Option<string>)
    ensures c.Some? && Known(g, c.value) ==> Named(g.assignments, c.value) || FallbackName(g) == c
  {
    hide Named;
  }

  // ----- When the second run changes nothing -----

  /** Unlabelled, but with a taint the group left at some time. */
  predicate CarriesOldTaint(g: Group, node: Node) {
    LabelOf(g, node).None? && exists t :: t in node.taints && t.key in GroupKeys(g.name)
  }

  lemma {:induction false} AllForeign(g: string, taints: seq<Taint>)
    ensures ForeignTaints(g, taints) == taints <==> forall t :: t in taints ==> t.key !in GroupKeys(g)
  {
    if forall t :: t in taints ==> t.key !in GroupKeys(g) {
      FilterNone(IsForeign(g), taints);
    }
    FilterMembers(IsForeign(g), taints);
    hide GroupKeys;
  }

  lemma {:induction false} RelabelTwice(g: Group, a: Assignment, node: Node)
    ensures (Relabelled(g, a, Relabelled(g, a, node)) == Relabelled(g, a, node)) <==>
              !(a.mode == LabelAndTaint && CarriesOldTaint(g, node))
  {
    hide Relabelled, ForeignTaints, TaintOf, GroupKeys;
    var once := Relabelled(g, a, node);
    RelabelledView(g, a, node);
    RelabelledView(g, a, once);
    assert once.labels[AssignmentKey(g.name) := a.name] == once.labels;
    OwnTaintIsDropped(g, a, Base(g, node).taints);
    ForeignTwice(g.name, node.taints);
    AllForeign(g.name, node.taints);
    SameTail(ForeignTaints(g.name, Base(g, node).taints), Base(g, node).taints, TaintOf(g, a));
  }

  lemma {:induction false} SameTail(s: seq<Taint>, t: seq<Taint>, x: Taint)
    ensures s + [x] == t + [x] <==> s == t
  {
    if s + [x] == t + [x] {
      assert s == (s + [x])[..|s|] && t == (t + [x])[..|t|];
    }
  }

  /** A node ends on the default only by being given to it. */
  lemma {:induction false} FallbackWasGiven(g: Group, labels: seq<Option<string>>, ledger: map<string, int>, k: nat)
    requires WellFormed(g) && k < |labels| && g.fallback.Some?
    ensures FinalLabel(g, labels, ledger, k) == FallbackName(g) <==> OutcomeAt(g, labels, ledger, k) == Give(g.fallback.value)
  {
    var rank := FreeBefore(g, labels, ledger, k);
    if rank < |Demand(g.assignments, ledger)| {
      DemandIsNamed(g.assignments, ledger, rank);
    }
    hide Demand, FreeBefore, Before, Named, Surplus, DistinctNames;
  }

  lemma {:induction false} OnFallbackMeansGiven(g: Group, order: seq<string>, nodes: map<string, Node>, n: string)
    requires IsListing(order, nodes) && WellFormed(g) && n in nodes && g.fallback.Some?
    ensures n in Reconciled(g, order, nodes)
    ensures (LabelOf(g, Reconciled(g, order, nodes)[n]) == FallbackName(g)) <==>
              (OutcomeIn(g, order, nodes, n) == Give(g.fallback.value))
  {
    hide Targeted, PlanLabels, PlanLedger, Reconciled, LabelOf, OutcomeIn, OutcomeAt, FinalLabel, IsTargeted, Settled, WellFormed;
    ReconciledKeys(g, order, nodes);
    TargetedFacts(g, order, nodes);
    var names := Targeted(g, order, nodes);
    if n in names {
      var k :| 0 <= k < |names| && names[k] == n;
      OutcomeOfTargeted(g, order, nodes, k);
      LabelAfter(g, order, nodes, k);
      FallbackWasGiven(g, PlanLabels(g, nodes, names), PlanLedger(g, PlanLabels(g, nodes, names)), k);
    } else {
      UntargetedGetsNothing(g, order, nodes, n);
      ReconciledNode(g, order, nodes, n);
      SettledLabel(g, Nothing, nodes[n]);
    }
  }

  /** A targeted node with enough free nodes before it in the list to meet everything that is due. */
  ghost predicate LeftOver(g: Group, order: seq<string>, nodes: map<string, Node>, n: string)
    requires forall m :: m in order ==> m in nodes
  {
    var labels := PlanLabels(g, nodes, Targeted(g, order, nodes));
    var ledger := PlanLedger(g, labels);
    exists k :: 0 <= k < |labels| && Targeted(g, order, nodes)[k] == n && FreeBefore(g, labels, ledger, k) >= TotalDue(g.assignments, ledger)
  }

  lemma {:induction false} UnlabelledGetsDefault(g: Group, labels: seq<Option<string>>, ledger: map<string, int>, k: nat)
    requires WellFormed(g) && k < |labels| && labels[k].None? && g.fallback.Some?
    ensures OutcomeAt(g, labels, ledger, k) == Give(g.fallback.value) <==> FreeBefore(g, labels, ledger, k) >= TotalDue(g.assignments, ledger)
  {
    DemandLength(g.assignments, ledger);
    var rank := FreeBefore(g, labels, ledger, k);
    if rank < |Demand(g.assignments, ledger)| {
      DemandIsNamed(g.assignments, ledger, rank);
    }
    hide Demand, FreeBefore, Before, Named, Surplus, DistinctNames, TotalDue;
  }

  /** Who gets the default among the unlabelled nodes, in counts before the run. */
  lemma {:induction false} GivenDefaultExactly(g: Group, order: seq<string>, nodes: map<string, Node>, n: string)
    requires IsListing(order, nodes) && WellFormed(g) && n in nodes && g.fallback.Some? && LabelOf(g, nodes[n]).None?
    ensures OutcomeIn(g, order, nodes, n) == Give(g.fallback.value) <==> LeftOver(g, order, nodes, n)
  {
    hide Targeted, PlanLabels, PlanLedger, LabelOf, OutcomeIn, OutcomeAt, IsTargeted, WellFormed, Distinct, FreeBefore, TotalDue, Admitted;
    TargetedFacts(g, order, nodes);
    var names := Targeted(g, order, nodes);
    if n in names {
      var k :| 0 <= k < |names| && names[k] == n;
      OutcomeOfTargeted(g, order, nodes, k);
      PlanLabelAt(g, nodes, names, k);
      AdmittedLabel(g, nodes[n]);
      StrayIsUnknown(g, nodes[n]);
      UnlabelledGetsDefault(g, PlanLabels(g, nodes, names), PlanLedger(g, PlanLabels(g, nodes, names)), k);
      DistinctAt(names, k);
    } else {
      UntargetedGetsNothing(g, order, nodes, n);
    }
  }

  lemma {:induction false} DistinctAt(names: seq<string>, k: nat)
    requires Distinct(names) && k < |names|
    ensures forall j :: 0 <= j < |names| && names[j] == names[k] ==> j == k
  {
  }

  /** A default with taint meets an unlabelled node that still carries a taint of the group, and no
      assignment is left to take that node. */
  ghost predicate LeavesOldTaint(g: Group, order: seq<string>, nodes: map<string, Node>)
    requires forall m :: m in order ==> m in nodes
  {
    exists n :: n in nodes && LeavesOldTaintOn(g, order, nodes, n)
  }

  ghost predicate LeavesOldTaintOn(g: Group, order: seq<string>, nodes: map<string, Node>, n: string)
    requires n in nodes && forall m :: m in order ==> m in nodes
  {
    && g.fallback.Some? && g.fallback.value.mode == LabelAndTaint
    && CarriesOldTaint(g, nodes[n]) && LeftOver(g, order, nodes, n)
  }

  /** Whether a second run, listing the nodes in any order, leaves this node as it is. */
  lemma {:induction false} SecondRunOfNode(g: Group, order: seq<string>, order': seq<string>, nodes: map<string, Node>, n: string)
    requires IsListing(order, nodes) && SelectsByOthers(g) && WellFormed(g) && n in nodes
    requires IsListing(order', Reconciled(g, order, nodes))
    ensures var nodes' := Reconciled(g, order, nodes);
            && n in nodes' && n in Reconciled(g, order', nodes')
            && (Reconciled(g, order', nodes')[n] == nodes'[n] <==> !LeavesOldTaintOn(g, order, nodes, n))
  {
    hide Reconciled, WellFormed, SelectsByOthers, OutcomeIn, LabelOf, Relabelled, CarriesOldTaint, LeftOver, Distinct;
    SecondRun(g, order, order', nodes, n);
    if g.fallback.Some? {
      OnFallbackMeansGiven(g, order, nodes, n);
      ReconciledNode(g, order, nodes, n);
      RelabelTwice(g, g.fallback.value, nodes[n]);
      OldTaintMeansUnlabelled(g, nodes[n]);
      if CarriesOldTaint(g, nodes[n]) {
        GivenDefaultExactly(g, order, nodes, n);
      }
    }
  }

  lemma {:induction false} OldTaintMeansUnlabelled(g: Group, node: Node)
    ensures CarriesOldTaint(g, node) ==> LabelOf(g, node).None?
  {
    hide LabelOf, GroupKeys;
  }

  /** A reconcile is settled after one run exactly if no such node is in the cluster. */
  lemma {:induction false} SettledAfterOneRun(g: Group, order: seq<string>, order': seq<string>, nodes: map<string, Node>)
    requires IsListing(order, nodes) && SelectsByOthers(g) && WellFormed(g)
    requires IsListing(order', Reconciled(g, order, nodes))
    ensures (Reconciled(g, order', Reconciled(g, order, nodes)) == Reconciled(g, order, nodes)) <==>
              !LeavesOldTaint(g, order, nodes)
  {
    hide Reconciled, WellFormed, SelectsByOthers, LeavesOldTaintOn, Distinct;
    var nodes' := Reconciled(g, order, nodes);
    ReconciledKeys(g, order, nodes);
    ReconciledKeys(g, order', nodes');
    forall n | n in nodes
      ensures Reconciled(g, order', nodes')[n] == nodes'[n] <==> !LeavesOldTaintOn(g, order, nodes, n)
    {
      SecondRunOfNode(g, order, order', nodes, n);
    }
  }

  /** From the second run on nothing changes any more, whatever the cluster was. */
  lemma {:induction false} SettledAfterTwoRuns(g: Group, order: seq<string>, order': seq<string>, order'': seq<string>, nodes: map<string, Node>)
    requires IsListing(order, nodes) && SelectsByOthers(g) && WellFormed(g)
    requires IsListing(order', Reconciled(g, order, nodes))
    requires IsListing(order'', Reconciled(g, order', Reconciled(g, order, nodes)))
    ensures Reconciled(g, order'', Reconciled(g, order', Reconciled(g, order, nodes)))
         == Reconciled(g, order', Reconciled(g, order, nodes))
  {
    hide Reconciled, WellFormed, SelectsByOthers, LabelOf, LeavesOldTaintOn, Distinct;
    var nodes' := Reconciled(g, order, nodes);
    SettledAfterOneRun(g, order', order'', nodes');
    if LeavesOldTaint(g, order', nodes') {
      var n :| n in nodes' && LeavesOldTaintOn(g, order', nodes', n);
      ReconciledKeys(g, order, nodes);
      NoneLeftByFirstRun(g, order, order', nodes, n);
      assert false;
    }
  }

  /** The first run leaves no targeted node unlabelled if there is a default. */
  lemma {:induction false} NoneLeftByFirstRun(g: Group, order: seq<string>, order': seq<string>, nodes: map<string, Node>, n: string)
    requires IsListing(order, nodes) && SelectsByOthers(g) && n in nodes && n in Reconciled(g, order, nodes)
    requires IsListing(order', Reconciled(g, order, nodes))
    ensures !LeavesOldTaintOn(g, order', Reconciled(g, order, nodes), n)
  {
    hide Reconciled, SelectsByOthers, LabelOf, IsTargeted, Known, IsProtected, Targeted, SameOutside, PlanLabels, PlanLedger, FreeBefore, TotalDue;
    var nodes' := Reconciled(g, order, nodes);
    ReconciledLabelIsKnown(g, order, nodes, n);
    ReconcileKeepsOthers(g, order, nodes, n);
    TargetingByOthers(g, nodes[n], nodes'[n]);
    TargetedFacts(g, order', nodes');
    if LeftOver(g, order', nodes', n) {
      assert n in Targeted(g, order', nodes');
    }
  }
}

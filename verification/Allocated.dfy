/** The allocation results read off the stored nodes before and after a reconcile. */
module Allocated {
  import opened Cluster
  import opened Groups
  import opened Allocation
  import opened Plan
  import opened Pass
  import opened Lists
  import opened Reconciling
  import opened Settlement

  // ----- The plan starts from the stored labels -----

  /** Stored labels of the named nodes. */
  function LabelsNow(g: Group, nodes: map<string, Node>, names: seq<string>): (r: seq<Option<string>>)
    requires forall n :: n in names ==> n in nodes
    ensures |r| == |names|
    ensures forall k :: 0 <= k < |names| ==> names[k] in nodes && r[k] == LabelOf(g, nodes[names[k]])
  {
    seq(|names|, k requires 0 <= k < |names| => assert names[k] in names; LabelOf(g, nodes[names[k]]))
  }

  /** The targeted names. */
  function Targeted(g: Group, order: seq<string>, nodes: map<string, Node>): (r: seq<string>)
    requires forall m :: m in order ==> m in nodes
    ensures forall n :: n in r ==> n in nodes
  {
    TargetedNamesInOrder(g, nodes, order, |order|);
    TargetedNames(g, nodes, order, |order|)
  }

  lemma {:induction false} AdmittedLabel(g: Group, node: Node)
    ensures LabelOf(g, Admitted(g, node)) == if IsStray(g, node) then None else LabelOf(g, node)
  {
    UnassignedHasNoLabel(g, node);
    hide Unassigned, Known;
  }

  lemma {:induction false} PlanLabelAt(g: Group, nodes: map<string, Node>, names: seq<string>, k: nat)
    requires k < |names| && forall n :: n in names ==> n in nodes
    ensures names[k] in nodes
    ensures PlanLabels(g, nodes, names)[k] == LabelOf(g, Admitted(g, nodes[names[k]]))
  {
    hide LabelOf, Admitted;
    assert names[k] in names;
  }

  lemma {:induction false} PlanLabelsKnown(g: Group, nodes: map<string, Node>, names: seq<string>)
    requires forall n :: n in names ==> n in nodes
    ensures AllKnown(g, PlanLabels(g, nodes, names))
  {
    hide PlanLabels, Known, LabelOf, Admitted;
    var labels := PlanLabels(g, nodes, names);
    forall k | 0 <= k < |labels| && labels[k].Some? ensures Known(g, labels[k].value) {
      PlanLabelAt(g, nodes, names, k);
      AdmittedLabel(g, nodes[names[k]]);
    }
  }

  /** Dropping unknown labels does not change how many nodes carry a known one. */
  lemma {:induction false} KnownCountsAgree(g: Group, nodes: map<string, Node>, names: seq<string>, k: nat, c: string)
    requires k <= |names| && (forall n :: n in names ==> n in nodes) && Known(g, c)
    ensures Before(PlanLabels(g, nodes, names), k, Some(c)) == Before(LabelsNow(g, nodes, names), k, Some(c))
  {
    hide PlanLabels, Known, LabelOf, Admitted, LabelsNow;
    if k > 0 {
      KnownCountsAgree(g, nodes, names, k - 1, c);
      PlanLabelAt(g, nodes, names, k - 1);
      AdmittedLabel(g, nodes[names[k - 1]]);
    }
  }

  /** The ledger a reconcile starts with, also when an assignment shares the default's name. */
  lemma {:induction false} LedgerUpTo(g: Group, labels: seq<Option<string>>, i: nat, j: nat)
    requires DistinctNames(g.assignments) && i <= |g.assignments| && j < |g.assignments|
    ensures Get(InitialLedger(g, labels, i), g.assignments[j].name)
         == if j >= i then 0
            else Desired(g.assignments[j], |labels|)
                 - if FallbackName(g) == Some(g.assignments[j].name) then 0 else Total(labels, Some(g.assignments[j].name))
  {
    hide Desired, Total;
    if i > 0 {
      LedgerUpTo(g, labels, i - 1, j);
    }
  }

  /** An assignment that shares the default's name lacks all its nodes in every run, however many it has. */
  lemma {:induction false} SharedDefaultIsAlwaysDue(g: Group, labels: seq<Option<string>>, i: nat)
    requires DistinctNames(g.assignments) && i < |g.assignments| && FallbackName(g) == Some(g.assignments[i].name)
    ensures Due(PlanLedger(g, labels), g.assignments[i].name) == Desired(g.assignments[i], |labels|) > 0
  {
    LedgerUpTo(g, labels, |g.assignments|, i);
    hide InitialLedger, Total;
  }

  lemma {:induction false} InitialLedgerUpTo(g: Group, labels: seq<Option<string>>, i: nat, j: nat)
    requires WellFormed(g) && i <= |g.assignments| && j < |g.assignments|
    ensures Get(InitialLedger(g, labels, i), g.assignments[j].name)
         == if j < i then Desired(g.assignments[j], |labels|) - Total(labels, Some(g.assignments[j].name)) else 0
  {
    LedgerUpTo(g, labels, i, j);
    hide Desired, Total, InitialLedger;
    assert Named(g.assignments, g.assignments[j].name);
  }

  lemma {:induction false} PlanLedgerIsLedgerOf(g: Group, labels: seq<Option<string>>)
    requires WellFormed(g)
    ensures LedgerOf(g, labels, PlanLedger(g, labels))
  {
    hide Desired, Total, InitialLedger, WellFormed;
    forall j | 0 <= j < |g.assignments|
      ensures Get(PlanLedger(g, labels), g.assignments[j].name)
           == Desired(g.assignments[j], |labels|) - Total(labels, Some(g.assignments[j].name))
    {
      InitialLedgerUpTo(g, labels, |g.assignments|, j);
    }
  }

  // ----- The stored labels end as planned -----

  lemma {:induction false} TargetedFacts(g: Group, order: seq<string>, nodes: map<string, Node>)
    requires IsListing(order, nodes)
    ensures Distinct(Targeted(g, order, nodes))
    ensures forall n :: n in Targeted(g, order, nodes) <==> n in nodes && IsTargeted(g, nodes[n])
  {
    hide TargetedNames, IsTargeted;
    TargetedNamesMembers(g, nodes, order, |order|);
    assert order[..|order|] == order;
  }

  lemma {:induction false} OutcomeOfTargeted(g: Group, order: seq<string>, nodes: map<string, Node>, k: nat)
    requires IsListing(order, nodes) && k < |Targeted(g, order, nodes)|
    ensures var names := Targeted(g, order, nodes);
            var labels := PlanLabels(g, nodes, names);
            OutcomeIn(g, order, nodes, names[k]) == OutcomeAt(g, labels, PlanLedger(g, labels), k)
  {
    TargetedFacts(g, order, nodes);
    hide TargetedNames, IsTargeted, OutcomeAt, PlanLabels, PlanLedger;
    IndexIsUnique(Targeted(g, order, nodes), k);
    hide IndexOf;
  }

  lemma {:induction false} LabelAfter(g: Group, order: seq<string>, nodes: map<string, Node>, k: nat)
    requires IsListing(order, nodes) && k < |Targeted(g, order, nodes)|
    ensures var names := Targeted(g, order, nodes);
            var labels := PlanLabels(g, nodes, names);
            && names[k] in nodes
            && LabelOf(g, Reconciled(g, order, nodes)[names[k]]) == FinalLabel(g, labels, PlanLedger(g, labels), k)
  {
    hide TargetedNames, Targeted, OutcomeAt, PlanLabels, PlanLedger, Reconciled, OutcomeIn, Settled, LabelOf, Admitted, IsStray;
    var names := Targeted(g, order, nodes);
    var labels := PlanLabels(g, nodes, names);
    var n := names[k];
    assert n in names;
    OutcomeOfTargeted(g, order, nodes, k);
    ReconciledNode(g, order, nodes, n);
    SettledLabel(g, OutcomeIn(g, order, nodes, n), nodes[n]);
    PlanLabelAt(g, nodes, names, k);
    AdmittedLabel(g, nodes[n]);
    if OutcomeAt(g, labels, PlanLedger(g, labels), k) == Stay {
      StayersAreLabelled(g, labels, PlanLedger(g, labels), k);
    }
  }

  lemma {:induction false} LabelsAfter(g: Group, order: seq<string>, nodes: map<string, Node>)
    requires IsListing(order, nodes)
    ensures var names := Targeted(g, order, nodes);
            var labels := PlanLabels(g, nodes, names);
            LabelsNow(g, Reconciled(g, order, nodes), names) == FinalLabels(g, labels, PlanLedger(g, labels))
  {
    hide Targeted, PlanLabels, PlanLedger, Reconciled, FinalLabel, LabelOf, FinalLabels, LabelsNow;
    var names := Targeted(g, order, nodes);
    ReconciledKeys(g, order, nodes);
    forall k | 0 <= k < |names|
      ensures names[k] in nodes && LabelOf(g, Reconciled(g, order, nodes)[names[k]])
           == FinalLabel(g, PlanLabels(g, nodes, names), PlanLedger(g, PlanLabels(g, nodes, names)), k)
    {
      LabelAfter(g, order, nodes, k);
    }
  }

  lemma {:induction false} ReconciledKeys(g: Group, order: seq<string>, nodes: map<string, Node>)
    requires forall m :: m in order ==> m in nodes
    ensures Reconciled(g, order, nodes).Keys == nodes.Keys
  {
    hide OutcomeFor, TargetedNames, Settled, Base;
  }

  // ----- Main results -----

  /** Number of targeted nodes stored with assignment c before and after. */
  function On(g: Group, nodes: map<string, Node>, names: seq<string>, c: string): nat
    requires forall n :: n in names ==> n in nodes
  {
    Total(LabelsNow(g, nodes, names), Some(c))
  }

  function FreeNodes(g: Group, order: seq<string>, nodes: map<string, Node>): nat
    requires forall m :: m in order ==> m in nodes
  {
    var labels := PlanLabels(g, nodes, Targeted(g, order, nodes));
    Available(g, labels, PlanLedger(g, labels))
  }

  /** What assignments before the i-th miss. */
  function DueBefore(g: Group, order: seq<string>, nodes: map<string, Node>, i: nat): nat
    requires (forall m :: m in order ==> m in nodes) && i <= |g.assignments|
  {
    TotalDue(g.assignments[..i], PlanLedger(g, PlanLabels(g, nodes, Targeted(g, order, nodes))))
  }

  lemma {:induction false} PlanOf(g: Group, order: seq<string>, nodes: map<string, Node>, i: nat)
    requires IsListing(order, nodes) && WellFormed(g) && i < |g.assignments|
    ensures var names := Targeted(g, order, nodes);
            var labels := PlanLabels(g, nodes, names);
            var c := g.assignments[i].name;
            && AllKnown(g, labels) && LedgerOf(g, labels, PlanLedger(g, labels))
            && (forall n :: n in names ==> n in Reconciled(g, order, nodes))
            && On(g, nodes, names, c) == Total(labels, Some(c))
            && On(g, Reconciled(g, order, nodes), names, c) == Total(FinalLabels(g, labels, PlanLedger(g, labels)), Some(c))
  {
    hide Targeted, PlanLabels, PlanLedger, Reconciled, FinalLabels, LabelsNow, LedgerOf, AllKnown, WellFormed, Before;
    var names := Targeted(g, order, nodes);
    PlanLabelsKnown(g, nodes, names);
    PlanLedgerIsLedgerOf(g, PlanLabels(g, nodes, names));
    ReconciledKeys(g, order, nodes);
    LabelsAfter(g, order, nodes);
    assert Known(g, g.assignments[i].name);
    KnownCountsAgree(g, nodes, names, |names|, g.assignments[i].name);
  }

  /** Assignment i keeps min(current, desired) nodes and gets what the free nodes leave after every
      assignment of higher priority. */
  lemma {:induction false} ReconcileAllocates(g: Group, order: seq<string>, nodes: map<string, Node>, i: nat)
    requires IsListing(order, nodes) && WellFormed(g) && i < |g.assignments|
    ensures var names := Targeted(g, order, nodes);
            var c := g.assignments[i].name;
            var desired := Desired(g.assignments[i], |names|);
            (forall n :: n in names ==> n in Reconciled(g, order, nodes)) &&
            On(g, Reconciled(g, order, nodes), names, c)
              == Min(On(g, nodes, names, c), desired)
                 + Min(Max(0, desired - On(g, nodes, names, c)),
                       Max(0, FreeNodes(g, order, nodes) - DueBefore(g, order, nodes, i)))
  {
    hide Targeted, PlanLabels, PlanLedger, Reconciled, FinalLabels, On, LedgerOf, AllKnown, WellFormed, Available, TotalDue, Desired;
    PlanOf(g, order, nodes, i);
    var labels := PlanLabels(g, nodes, Targeted(g, order, nodes));
    PriorityAllocation(g, labels, PlanLedger(g, labels), i);
    hide Min, Max, Total;
  }

  /** An assignment ends short if and only if it was short and the free nodes do not cover it and all
      assignments of higher priority: what lower assignments hold is never taken from them. */
  lemma {:induction false} ShortExactlyWhen(g: Group, order: seq<string>, nodes: map<string, Node>, i: nat)
    requires IsListing(order, nodes) && WellFormed(g) && i < |g.assignments|
    ensures var names := Targeted(g, order, nodes);
            var c, desired := g.assignments[i].name, Desired(g.assignments[i], |names|);
            && (forall n :: n in names ==> n in Reconciled(g, order, nodes))
            && (On(g, Reconciled(g, order, nodes), names, c) < desired <==>
                  On(g, nodes, names, c) < desired
                  && FreeNodes(g, order, nodes) < DueBefore(g, order, nodes, i) + (desired - On(g, nodes, names, c)))
  {
    hide Targeted, Reconciled, On, WellFormed, Desired, FreeNodes, DueBefore;
    ReconcileAllocates(g, order, nodes, i);
  }

  /** Enough nodes for everybody: everybody gets exactly what it asks for. */
  lemma {:induction false} ReconcileIsExact(g: Group, order: seq<string>, nodes: map<string, Node>, i: nat)
    requires IsListing(order, nodes) && WellFormed(g) && i < |g.assignments|
    requires TotalDesired(g.assignments, |Targeted(g, order, nodes)|) <= |Targeted(g, order, nodes)|
    ensures var names := Targeted(g, order, nodes);
            (forall n :: n in names ==> n in Reconciled(g, order, nodes)) &&
            On(g, Reconciled(g, order, nodes), names, g.assignments[i].name) == Desired(g.assignments[i], |names|)
  {
    hide Targeted, PlanLabels, PlanLedger, Reconciled, FinalLabels, On, LedgerOf, AllKnown, WellFormed, Desired, TotalDesired, Total;
    PlanOf(g, order, nodes, i);
    var labels := PlanLabels(g, nodes, Targeted(g, order, nodes));
    FeasibleIsExact(g, labels, PlanLedger(g, labels), i);
  }

  /** A node whose assignment has no excess is not touched at all; of an over-full assignment exactly
      the first nodes in list order, as many as the excess, lose their place. */
  lemma {:induction false} ReconcileMovesFewest(g: Group, order: seq<string>, nodes: map<string, Node>, i: nat, k: nat)
    requires IsListing(order, nodes) && WellFormed(g) && i < |g.assignments|
    requires k < |Targeted(g, order, nodes)|
    requires LabelsNow(g, nodes, Targeted(g, order, nodes))[k] == Some(g.assignments[i].name)
    ensures var names := Targeted(g, order, nodes);
            var c := g.assignments[i].name;
            var excess := Max(0, On(g, nodes, names, c) - Desired(g.assignments[i], |names|));
            && names[k] in nodes
            && (Before(LabelsNow(g, nodes, names), k, Some(c)) >= excess ==>
                  Reconciled(g, order, nodes)[names[k]] == nodes[names[k]])
            && (Before(LabelsNow(g, nodes, names), k, Some(c)) < excess ==>
                  LabelOf(g, Reconciled(g, order, nodes)[names[k]]) != Some(c))
  {
    hide Targeted, PlanLabels, PlanLedger, Reconciled, OutcomeIn, LabelsNow, LedgerOf, AllKnown, WellFormed, Desired, Before,
         LabelOf, Admitted, OutcomeAt, FinalLabels, Known;
    var names := Targeted(g, order, nodes);
    var labels := PlanLabels(g, nodes, names);
    var ledger := PlanLedger(g, labels);
    PlanOf(g, order, nodes, i);
    assert Named(g.assignments, g.assignments[i].name);
    NamedIsKnown(g, g.assignments[i].name);
    KnownCountsAgree(g, nodes, names, k, g.assignments[i].name);
    PlanLabelAt(g, nodes, names, k);
    AdmittedLabel(g, nodes[names[k]]);
    StrayIsUnknown(g, nodes[names[k]]);
    LeaversAreFirst(g, labels, ledger, i);
    OutcomeOfTargeted(g, order, nodes, k);
    ReconciledNode(g, order, nodes, names[k]);
    LabelAfter(g, order, nodes, k);
    if OutcomeAt(g, labels, ledger, k) != Stay {
      LeaverChanges(g, labels, ledger, i, k);
    }
    hide IsStray, Settled, FinalLabel;
    StayChangesNothing(g, nodes[names[k]]);
  }

  lemma {:induction false} StayChangesNothing(g: Group, node: Node)
    ensures Settled(g, Stay, node) == node
  {
  }

  lemma {:induction false} NamedIsKnown(g: Group, c: string)
    requires Named(g.assignments, c)
    ensures Known(g, c)
  {
  }

  lemma {:induction false} StrayIsUnknown(g: Group, node: Node)
    ensures IsStray(g, node) <==> LabelOf(g, node).Some? && !Known(g, LabelOf(g, node).value)
  {
  }

  /** A released node does not come back to the assignment that released it. */
  lemma {:induction false} LeaverChanges(g: Group, labels: seq<Option<string>>, ledger: map<string, int>, i: nat, k: nat)
    requires WellFormed(g) && i < |g.assignments| && k < |labels| && labels[k] == Some(g.assignments[i].name)
    requires OutcomeAt(g, labels, ledger, k) != Stay
    ensures FinalLabel(g, labels, ledger, k) != labels[k]
  {
    var c := g.assignments[i].name;
    assert Named(g.assignments, c);
    assert Surplus(ledger, c) > 0 && Due(ledger, c) == 0;
    var rank := FreeBefore(g, labels, ledger, k);
    if rank < |Demand(g.assignments, ledger)| {
      DemandIsNamed(g.assignments, ledger, rank);
    }
    hide Demand, FreeBefore, Before;
  }

  /** If an assignment stays short, every targeted node works for some assignment. */
  lemma {:induction false} ReconcileShortage(g: Group, order: seq<string>, nodes: map<string, Node>, i: nat, k: nat)
    requires IsListing(order, nodes) && WellFormed(g) && i < |g.assignments| && k < |Targeted(g, order, nodes)|
    requires forall n :: n in Targeted(g, order, nodes) ==> n in Reconciled(g, order, nodes)
    requires On(g, Reconciled(g, order, nodes), Targeted(g, order, nodes), g.assignments[i].name)
               < Desired(g.assignments[i], |Targeted(g, order, nodes)|)
    ensures var n := Targeted(g, order, nodes)[k];
            && n in nodes
            && LabelOf(g, Reconciled(g, order, nodes)[n]).Some?
            && Named(g.assignments, LabelOf(g, Reconciled(g, order, nodes)[n]).value)
  {
    hide Targeted, PlanLabels, PlanLedger, Reconciled, FinalLabels, On, LedgerOf, AllKnown, WellFormed, Desired, Total,
         FinalLabel, LabelOf, Named;
    PlanOf(g, order, nodes, i);
    var labels := PlanLabels(g, nodes, Targeted(g, order, nodes));
    ShortageUsesEveryNode(g, labels, PlanLedger(g, labels), i);
    LabelAfter(g, order, nodes, k);
  }

  /** In the end no node carries an assignment the group does not have, an untargeted or protected node
      carries none, and with a default every targeted node carries one. */
  lemma {:induction false} ReconciledLabelIsKnown(g: Group, order: seq<string>, nodes: map<string, Node>, n: string)
    requires IsListing(order, nodes) && n in nodes
    ensures n in Reconciled(g, order, nodes)
    ensures var after := LabelOf(g, Reconciled(g, order, nodes)[n]);
            && (after.Some? ==> IsTargeted(g, nodes[n]) && Known(g, after.value))
            && (IsProtected(nodes[n].labels) ==> after.None?)
            && (IsTargeted(g, nodes[n]) && g.fallback.Some? ==> after.Some?)
  {
    hide Targeted, PlanLabels, PlanLedger, Reconciled, FinalLabel, LabelOf, Known, IsTargeted, OutcomeIn, Settled, IsProtected;
    ReconciledKeys(g, order, nodes);
    TargetedFacts(g, order, nodes);
    ProtectedIsNotTargeted(g, nodes[n]);
    var names := Targeted(g, order, nodes);
    if n in names {
      var k :| 0 <= k < |names| && names[k] == n;
      LabelAfter(g, order, nodes, k);
      PlanLabelsKnown(g, nodes, names);
      FinalLabelIsKnown(g, PlanLabels(g, nodes, names), PlanLedger(g, PlanLabels(g, nodes, names)), k);
    } else {
      ReconciledNode(g, order, nodes, n);
      SettledLabel(g, Nothing, nodes[n]);
      UntargetedGetsNothing(g, order, nodes, n);
    }
  }

  lemma {:induction false} UntargetedGetsNothing(g: Group, order: seq<string>, nodes: map<string, Node>, n: string)
    requires (forall m :: m in order ==> m in nodes) && n !in Targeted(g, order, nodes)
    ensures OutcomeIn(g, order, nodes, n) == Nothing
  {
    hide TargetedNames;
  }

  lemma {:induction false} ProtectedIsNotTargeted(g: Group, node: Node)
    ensures IsProtected(node.labels) ==> !IsTargeted(g, node)
  {
    KeysAreDistinct(g.name, g.name);
    hide GroupKeys, ForeignTaints;
  }

  lemma {:induction false} FinalLabelIsKnown(g: Group, labels: seq<Option<string>>, ledger: map<string, int>, k: nat)
    requires AllKnown(g, labels) && k < |labels|
    ensures FinalLabel(g, labels, ledger, k).Some? ==> Known(g, FinalLabel(g, labels, ledger, k).value)
    ensures g.fallback.Some? ==> FinalLabel(g, labels, ledger, k).Some?
  {
    var rank := FreeBefore(g, labels, ledger, k);
    if rank < |Demand(g.assignments, ledger)| {
      DemandIsNamed(g.assignments, ledger, rank);
    }
    hide Demand, FreeBefore, Before, Named, Surplus;
  }
}

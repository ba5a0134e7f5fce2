/** Where the reconciler falls short of its documentation, each with the exact condition or a concrete cluster. */
module Limits {
  import opened Cluster
  import opened Groups
  import opened Allocation
  import opened Plan
  import opened Pass
  import opened Lists
  import opened Reconciling
  import opened Settlement
  import opened Commuting
  import opened Allocated
  import opened Fixpoint
  import opened Ranking
  import opened PackLeftPass
  import Float32

  // ----- Percentages -----

  function Largest(a: int, b: int, c: int): int { Max(a, Max(b, c)) }

  /** Below the threshold of binary32, an assignment should have the largest of one node, its
      number, and its percentage rounded down. */
  lemma {:induction false} DesiredRoundsDown(a: Assignment, n: nat)
    requires n * a.percentDesired < Float32.FIRST_INEXACT
    ensures Desired(a, n) == Largest(1, a.numDesired, n * a.percentDesired / 100)
  {
    Float32.ExactBelowThreshold(n, a.percentDesired);
  }

  /** Likewise for the avoid buffer. */
  lemma {:induction false} BufferRoundsDown(a: Assignment, n: nat)
    requires a.packLeft.Some?
    requires a.packLeft.value.percentAvoid.Some? ==> n * a.packLeft.value.percentAvoid.value < Float32.FIRST_INEXACT
    ensures var percent := if a.packLeft.value.percentAvoid.Some? then a.packLeft.value.percentAvoid.value else 0;
            Buffer(a, n) == Largest(1, a.packLeft.value.numAvoid, n * percent / 100)
  {
    if a.packLeft.value.percentAvoid.Some? {
      Float32.ExactBelowThreshold(n, a.packLeft.value.percentAvoid.value);
    }
  }

  // ----- Taints that stay behind -----

  function IsOwn(g: string): Taint -> bool { (t: Taint) => t.key in GroupKeys(g) }

  function OwnOf(g: Group, taints: seq<Taint>): seq<Taint> { Filter(IsOwn(g.name), taints) }

  lemma {:induction false} NoOwnAmongForeign(g: Group, taints: seq<Taint>)
    ensures OwnOf(g, ForeignTaints(g.name, taints)) == []
  {
    FilterMembers(IsForeign(g.name), taints);
    FilterNothing(IsOwn(g.name), ForeignTaints(g.name, taints));
  }

  lemma {:induction false} AddedAreOwn(g: Group, a: Assignment)
    ensures OwnOf(g, Adds(g, Give(a))) == Adds(g, Give(a))
  {
    if a.mode == LabelAndTaint {
      FilterNone(IsOwn(g.name), Adds(g, Give(a)));
    }
  }

  /** A node given to an assignment carries exactly the taint of that assignment, or none if it has none,
      if and only if it carried none of the group's before, or was labelled and gets a new taint. */
  lemma {:induction false} TaintsMatchExactly(g: Group, a: Assignment, node: Node)
    ensures (OwnOf(g, Settled(g, Give(a), node).taints) == Adds(g, Give(a))) <==>
              (OwnOf(g, node.taints) == [] || (LabelOf(g, node).Some? && a.mode == LabelAndTaint))
  {
    SettledTaints(g, Give(a), node);
    AddedAreOwn(g, a);
    NoOwnAmongForeign(g, node.taints);
    FilterConcat(IsOwn(g.name), Stripped(g.name, Strips(g, Give(a), node), node.taints), Adds(g, Give(a)));
    hide Settled, ForeignTaints, TaintOf, Filter, LabelOf, IsOwn;
  }

  function OldTaintGroup(): Group {
    Group("g", map[], [], Some(Assignment("d", LabelAndTaint, None, 0, 0, false, None)))
  }

  function OldTaintNodes(): map<string, Node> {
    map["n" := Node(map[], [Taint(AssignmentKey("g"), "d", PreferNoSchedule)], Status(false, [], 1, 1))]
  }

  lemma {:induction false} OneTarget()
    ensures IsListing(["n"], OldTaintNodes())
    ensures Targeted(OldTaintGroup(), ["n"], OldTaintNodes()) == ["n"]
  {
    var g, nodes := OldTaintGroup(), OldTaintNodes();
    assert ["n"][0] == "n";
    assert TargetedNames(g, nodes, ["n"], 0) == [];
    assert IsTargeted(g, nodes["n"]);
  }

  /** A second reconcile changes the cluster again: it drops the old taint the first one left next to the new. */
  lemma {:induction false} OldTaintStays()
    ensures IsListing(["n"], OldTaintNodes()) && WellFormed(OldTaintGroup()) && SelectsByOthers(OldTaintGroup())
    ensures var g, once := OldTaintGroup(), Reconciled(OldTaintGroup(), ["n"], OldTaintNodes());
            && LeavesOldTaint(g, ["n"], OldTaintNodes())
            && IsListing(["n"], once) && Reconciled(g, ["n"], once) != once
  {
    var g, nodes := OldTaintGroup(), OldTaintNodes();
    OneTarget();
    hide Targeted, TargetedNames, PlanLabels, PlanLedger, Reconciled;
    assert LabelOf(g, nodes["n"]).None?;
    assert nodes["n"].taints[0].key in GroupKeys("g");
    assert CarriesOldTaint(g, nodes["n"]);
    assert LeftOver(g, ["n"], nodes, "n");
    assert LeavesOldTaintOn(g, ["n"], nodes, "n");
    ReconciledKeys(g, ["n"], nodes);
    SettledAfterOneRun(g, ["n"], ["n"], nodes);
  }

  /** A labelled and tainted node moved to an assignment that only labels keeps its old taint. */
  lemma {:induction false} MovedNodeKeepsTaint(g: Group)
    ensures var x := Taint(AssignmentKey(g.name), "x", NoSchedule);
            var node := Node(map[AssignmentKey(g.name) := "x"], [x], Status(false, [], 1, 1));
            var y := Assignment("y", LabelOnly, None, 1, 0, false, None);
            Adds(g, Give(y)) == [] && x in Settled(g, Give(y), node).taints
  {
    var x := Taint(AssignmentKey(g.name), "x", NoSchedule);
    var node := Node(map[AssignmentKey(g.name) := "x"], [x], Status(false, [], 1, 1));
    RelabelledView(g, Assignment("y", LabelOnly, None, 1, 0, false, None), node);
    hide Relabelled;
    assert node.taints[0] == x;
  }

  /** Of two packleft taints the second one stays: next to the taint of a new state, and after cleaning. */
  lemma {:induction false} SecondPackLeftTaintStays(g: Group)
    ensures var avoid := Taint(PackLeftKey(g.name), "Avoid", PreferNoSchedule);
            var deny := Taint(PackLeftKey(g.name), "Deny", NoSchedule);
            var node := Node(map[], [avoid, deny], Status(false, [], 1, 1));
            && WithState(g, Use, node).taints == [deny] && StateTaints(g, Use) == []
            && HasPackLeftAttributes(g, WithoutState(g, node))
  {
    var avoid := Taint(PackLeftKey(g.name), "Avoid", PreferNoSchedule);
    var deny := Taint(PackLeftKey(g.name), "Deny", NoSchedule);
    assert [avoid, deny][1..] == [deny];
    assert [deny] + [] == [deny];
    assert [deny][0] == deny;
    hide PackLeftKey;
  }

  // ----- Lower assignments keep their nodes -----

  /** Two assignments that want a node each, and one node, on the one of lower priority. */
  function TwoWants(): Group {
    Group("g", map[], [Assignment("high", LabelOnly, None, 1, 0, false, None), Assignment("low", LabelOnly, None, 1, 0, false, None)], None)
  }

  function OneNode(): map<string, Node> { map["n" := Node(map[AssignmentKey("g") := "low"], [], Status(false, [], 1, 1))] }

  lemma {:induction false} LowTarget()
    ensures IsListing(["n"], OneNode()) && WellFormed(TwoWants())
    ensures Targeted(TwoWants(), ["n"], OneNode()) == ["n"]
    ensures LabelOf(TwoWants(), OneNode()["n"]) == Some("low")
  {
    var g, nodes := TwoWants(), OneNode();
    assert ["n"][0] == "n";
    KeysAreDistinct("g", "g");
    assert g.assignments[1].name == "low" && Named(g.assignments, "low");
    assert "high" != "low";
    assert TargetedNames(g, nodes, ["n"], 0) == [];
    assert Admitted(g, nodes["n"]) == nodes["n"];
    assert IsTargeted(g, nodes["n"]);
  }

  lemma {:induction false} OneDesired(i: nat)
    requires i < 2
    ensures Desired(TwoWants().assignments[i], 1) == 1
  {
    DesiredRoundsDown(TwoWants().assignments[i], 1);
    hide Desired;
  }

  lemma {:induction false} CountOne(g: Group, nodes: map<string, Node>, c: string)
    requires "n" in nodes
    ensures forall m :: m in ["n"] ==> m in nodes
    ensures On(g, nodes, ["n"], c) == if LabelOf(g, nodes["n"]) == Some(c) then 1 else 0
  {
    hide LabelOf;
    var labels := LabelsNow(g, nodes, ["n"]);
    assert labels == [LabelOf(g, nodes["n"])];
    assert Before(labels, 0, Some(c)) == 0;
  }

  /** The node stays where it is although the assignment of higher priority has none. */
  lemma {:induction false} LowerKeepsNode()
    ensures var g, nodes := TwoWants(), OneNode();
            && IsListing(["n"], nodes) && WellFormed(g) && Targeted(g, ["n"], nodes) == ["n"]
            && Reconciled(g, ["n"], nodes) == nodes
            && On(g, nodes, ["n"], "high") == 0 < Desired(g.assignments[0], 1)
            && On(g, nodes, ["n"], "low") == 1
  {
    hide Desired, Targeted, Reconciled, LabelOf, Before, LabelsNow, Distinct, WellFormed;
    var g, nodes := TwoWants(), OneNode();
    LowTarget();
    OneDesired(0);
    OneDesired(1);
    CountOne(g, nodes, "high");
    CountOne(g, nodes, "low");
    assert LabelsNow(g, nodes, ["n"])[0] == Some("low");
    assert g.assignments[1].name == "low" && g.assignments[0].name == "high";
    ReconcileMovesFewest(g, ["n"], nodes, 1, 0);
    ReconciledKeys(g, ["n"], nodes);
    assert forall m :: m in nodes ==> m == "n";
  }
}

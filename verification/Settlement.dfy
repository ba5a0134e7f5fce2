/** What a reconcile does to one node, given its outcome: its label afterwards, and everything it leaves alone. */
module Settlement {
  import opened Cluster
  import opened Groups
  import opened Plan
  import opened Lists
  import opened Reconciling

  // ----- One node -----

  /** Assigning sets the group's label and nothing else among the labels; the taints change only
      under LabelAndTaint, when they lose the group's old ones if the node was labelled. */
  lemma {:induction false} RelabelledView(g: Group, a: Assignment, node: Node)
    ensures Relabelled(g, a, node).labels == node.labels[AssignmentKey(g.name) := a.name]
    ensures Relabelled(g, a, node).taints ==
              if a.mode == LabelAndTaint then Base(g, node).taints + [TaintOf(g, a)] else node.taints
    ensures Relabelled(g, a, node).status == node.status
  {
    UnassignedHasNoLabel(g, node);
    var base := Base(g, node);
    assert AssignmentKey(g.name) !in base.labels;
    if a.mode == LabelAndTaint {
      assert |base.taints + [TaintOf(g, a)]| != |base.taints|;
    } else {
      assert base.taints + [] == base.taints;
    }
    hide ForeignTaints, TaintOf;
  }

  /** Label of a node after its outcome. */
  lemma {:induction false} SettledLabel(g: Group, outcome: Outcome, node: Node)
    ensures LabelOf(g, Settled(g, outcome, node)) ==
              match outcome case Stay => LabelOf(g, node) case Give(a) => Some(a.name) case Nothing => None
  {
    if outcome.Give? {
      RelabelledView(g, outcome.a, node);
      hide Relabelled;
    } else {
      UnassignedHasNoLabel(g, node);
    }
  }

  /** Keys of the group aside, a node keeps its labels and, in order, its taints. */
  ghost predicate SameOutside(g: string, before: Node, after: Node) {
    && before.labels - GroupKeys(g) == after.labels - GroupKeys(g)
    && ForeignTaints(g, before.taints) == ForeignTaints(g, after.taints)
    && before.status == after.status
  }

  lemma {:induction false} ForeignTwice(g: string, taints: seq<Taint>)
    ensures ForeignTaints(g, ForeignTaints(g, taints)) == ForeignTaints(g, taints)
  {
    FilterTwice(IsForeign(g), IsForeign(g), IsForeign(g), taints);
  }

  lemma {:induction false} OwnTaintIsDropped(g: Group, a: Assignment, taints: seq<Taint>)
    ensures ForeignTaints(g.name, taints + [TaintOf(g, a)]) == ForeignTaints(g.name, taints)
  {
    FilterAppend(IsForeign(g.name), taints, TaintOf(g, a));
  }

  lemma {:induction false} SettledKeepsOthers(g: Group, outcome: Outcome, node: Node)
    ensures SameOutside(g.name, node, Settled(g, outcome, node))
  {
    ForeignTwice(g.name, node.taints);
    if outcome.Give? {
      RelabelledView(g, outcome.a, node);
      OwnTaintIsDropped(g, outcome.a, Base(g, node).taints);
      hide Relabelled, ForeignTaints, TaintOf;
    } else {
      hide ForeignTaints;
    }
  }

  // ----- The whole cluster -----

  /** A node's outcome: what the plan says if it is targeted, otherwise it loses its assignment. */
  function OutcomeIn(g: Group, order: seq<string>, nodes: map<string, Node>, n: string): Outcome
    requires forall m :: m in order ==> m in nodes
  {
    TargetedNamesInOrder(g, nodes, order, |order|);
    var names := TargetedNames(g, nodes, order, |order|);
    if n in names then OutcomeFor(g, nodes, names, n) else Nothing
  }

  lemma {:induction false} ReconciledNode(g: Group, order: seq<string>, nodes: map<string, Node>, n: string)
    requires n in nodes && forall m :: m in order ==> m in nodes
    ensures Reconciled(g, order, nodes)[n] == Settled(g, OutcomeIn(g, order, nodes, n), nodes[n])
  {
    hide Base, OutcomeFor, TargetedNames;
  }

  /** Reconciling one group leaves every key of every other group, and all foreign taints, as they were. */
  lemma {:induction false} ReconcileKeepsOthers(g: Group, order: seq<string>, nodes: map<string, Node>, n: string)
    requires n in nodes && forall m :: m in order ==> m in nodes
    ensures SameOutside(g.name, nodes[n], Reconciled(g, order, nodes)[n])
  {
    hide SameOutside, OutcomeIn, Settled, Reconciled;
    ReconciledNode(g, order, nodes, n);
    SettledKeepsOthers(g, OutcomeIn(g, order, nodes, n), nodes[n]);
  }

  // ----- Targeting -----

  /** The selector does not look at the keys the group writes. */
  ghost predicate SelectsByOthers(g: Group) { g.target.Keys !! GroupKeys(g.name) }

  lemma {:induction false} SelectorIgnoresOwnKeys(g: Group, x: Node, y: Node)
    requires SelectsByOthers(g) && SameOutside(g.name, x, y)
    ensures Targets(g, x.labels) <==> Targets(g, y.labels)
  {
    KeysAreDistinct(g.name, g.name);
    var u, v := x.labels - GroupKeys(g.name), y.labels - GroupKeys(g.name);
    hide ForeignTaints, GroupKeys;
    assert Targets(g, x.labels) <==> Targets(g, u);
    assert Targets(g, y.labels) <==> Targets(g, v);
  }
}

/** Reconciles of two groups with different names do not interfere. */
module Commuting {
  import opened Cluster
  import opened Groups
  import opened Plan
  import opened Pass
  import opened Lists
  import opened Reconciling
  import opened Settlement

  /** The selector of g mentions no key that h writes. */
  ghost predicate Independent(g: Group, h: Group) {
    g.name != h.name && g.target.Keys !! GroupKeys(h.name) && h.target.Keys !! GroupKeys(g.name)
  }

  // ----- What a plan looks at -----

  /** g sees two versions of a node alike: same assignment label, same targeting. */
  ghost predicate SameView(g: Group, x: Node, y: Node) {
    LabelOf(g, x) == LabelOf(g, y) && (IsTargeted(g, x) <==> IsTargeted(g, y))
  }

  lemma {:induction false} ForeignChangeIsUnseen(g: Group, h: Group, x: Node, y: Node)
    requires Independent(g, h) && SameOutside(h.name, x, y)
    ensures SameView(g, x, y)
  {
    KeysAreDistinct(g.name, h.name);
    KeysAreDistinct(h.name, g.name);
    var u, v := x.labels - GroupKeys(h.name), y.labels - GroupKeys(h.name);
    assert forall k :: k !in GroupKeys(h.name) ==> (k in x.labels <==> k in u) && (k in y.labels <==> k in v);
    assert forall k :: k !in GroupKeys(h.name) && k in x.labels ==> x.labels[k] == u[k] == v[k] == y.labels[k];
    assert AssignmentKey(g.name) !in GroupKeys(h.name);
    assert LabelOf(g, x) == LabelOf(g, y);
    TargetingIsUnseen(g, h, x, y);
  }

  lemma {:induction false} TargetingIsUnseen(g: Group, h: Group, x: Node, y: Node)
    requires g.target.Keys !! GroupKeys(h.name) && PROTECTED_KEY !in GroupKeys(h.name)
    requires LabelOf(g, x) == LabelOf(g, y)
    requires forall k :: k !in GroupKeys(h.name) ==> (k in x.labels <==> k in y.labels)
    requires forall k :: k !in GroupKeys(h.name) && k in x.labels ==> x.labels[k] == y.labels[k]
    ensures IsTargeted(g, x) <==> IsTargeted(g, y)
  {
    var a, b := Admitted(g, x).labels, Admitted(g, y).labels;
    assert forall k :: k !in GroupKeys(h.name) ==> (k in a <==> k in b);
    assert forall k :: k !in GroupKeys(h.name) && k in a ==> a[k] == b[k];
  }

  ghost predicate SameViews(g: Group, nodes: map<string, Node>, nodes': map<string, Node>) {
    nodes.Keys == nodes'.Keys && forall n :: n in nodes ==> SameView(g, nodes[n], nodes'[n])
  }

  lemma {:induction false} SameTargets(g: Group, order: seq<string>, nodes: map<string, Node>, nodes': map<string, Node>, i: nat)
    requires i <= |order| && (forall m :: m in order ==> m in nodes) && SameViews(g, nodes, nodes')
    ensures TargetedNames(g, nodes, order, i) == TargetedNames(g, nodes', order, i)
  {
    hide IsTargeted, LabelOf;
    if i > 0 {
      SameTargets(g, order, nodes, nodes', i - 1);
      assert order[i - 1] in order;
    }
  }

  lemma {:induction false} SamePlanLabel(g: Group, x: Node, y: Node)
    requires LabelOf(g, x) == LabelOf(g, y)
    ensures LabelOf(g, Admitted(g, x)) == LabelOf(g, Admitted(g, y))
  {
    UnassignedHasNoLabel(g, x);
    UnassignedHasNoLabel(g, y);
    hide Unassigned, Known;
  }

  lemma {:induction false} SamePlanLabels(g: Group, nodes: map<string, Node>, nodes': map<string, Node>, names: seq<string>)
    requires SameViews(g, nodes, nodes') && forall m :: m in names ==> m in nodes
    ensures PlanLabels(g, nodes, names) == PlanLabels(g, nodes', names)
  {
    hide IsTargeted, LabelOf, Admitted;
    forall k | 0 <= k < |names| ensures PlanLabels(g, nodes, names)[k] == PlanLabels(g, nodes', names)[k] {
      assert names[k] in names;
      SamePlanLabel(g, nodes[names[k]], nodes'[names[k]]);
    }
  }

  /** A plan depends on its own view of the nodes only. */
  lemma {:induction false} SameOutcomes(g: Group, order: seq<string>, nodes: map<string, Node>, nodes': map<string, Node>, n: string)
    requires (forall m :: m in order ==> m in nodes) && SameViews(g, nodes, nodes')
    ensures OutcomeIn(g, order, nodes, n) == OutcomeIn(g, order, nodes', n)
  {
    hide PlanLabels, OutcomeAt, PlanLedger, TargetedNames, SameView;
    SameTargets(g, order, nodes, nodes', |order|);
    TargetedNamesInOrder(g, nodes, order, |order|);
    SamePlanLabels(g, nodes, nodes', TargetedNames(g, nodes, order, |order|));
  }

  // ----- Two outcomes on one node -----

  /** Whether an outcome first drops the group's old taints, and which taint it adds. */
  predicate Strips(g: Group, outcome: Outcome, node: Node) {
    LabelOf(g, node).Some? && (outcome == Nothing || (outcome.Give? && outcome.a.mode == LabelAndTaint))
  }

  function Adds(g: Group, outcome: Outcome): seq<Taint> {
    if outcome.Give? && outcome.a.mode == LabelAndTaint then [TaintOf(g, outcome.a)] else []
  }

  function Stripped(g: string, strip: bool, taints: seq<Taint>): seq<Taint> {
    if strip then ForeignTaints(g, taints) else taints
  }

  lemma {:induction false} SettledTaints(g: Group, outcome: Outcome, node: Node)
    ensures Settled(g, outcome, node).taints == Stripped(g.name, Strips(g, outcome, node), node.taints) + Adds(g, outcome)
  {
    if outcome.Give? {
      RelabelledView(g, outcome.a, node);
    }
    hide Relabelled, ForeignTaints, TaintOf;
    assert node.taints + [] == node.taints;
    assert ForeignTaints(g.name, node.taints) + [] == ForeignTaints(g.name, node.taints);
  }

  lemma {:induction false} StripOwn(h: string, strip: bool, taints: seq<Taint>, extra: seq<Taint>)
    requires forall t :: t in extra ==> t.key !in GroupKeys(h)
    ensures Stripped(h, strip, taints + extra) == Stripped(h, strip, taints) + extra
  {
    FilterConcat(IsForeign(h), taints, extra);
    FilterNone(IsForeign(h), extra);
  }

  lemma {:induction false} StripsSwap(g: string, h: string, strip: bool, strip': bool, taints: seq<Taint>)
    ensures Stripped(h, strip', Stripped(g, strip, taints)) == Stripped(g, strip, Stripped(h, strip', taints))
  {
    var both := (t: Taint) => t.key !in GroupKeys(g) && t.key !in GroupKeys(h);
    FilterTwice(IsForeign(g), IsForeign(h), both, taints);
    FilterTwice(IsForeign(h), IsForeign(g), both, taints);
    hide GroupKeys;
  }

  lemma {:induction false} TaintsCommute(g: string, h: string, strip: bool, strip': bool,
                                         extra: seq<Taint>, extra': seq<Taint>, taints: seq<Taint>)
    requires forall t :: t in extra ==> t.key !in GroupKeys(h)
    requires forall t :: t in extra' ==> t.key !in GroupKeys(g)
    ensures multiset(Stripped(h, strip', Stripped(g, strip, taints) + extra) + extra')
         == multiset(Stripped(g, strip, Stripped(h, strip', taints) + extra') + extra)
  {
    StripOwn(h, strip', Stripped(g, strip, taints), extra);
    StripOwn(g, strip, Stripped(h, strip', taints), extra');
    StripsSwap(g, h, strip, strip', taints);
    hide Stripped, GroupKeys;
  }

  function SettledLabels(g: Group, outcome: Outcome, labels: map<string, string>): map<string, string> {
    match outcome
    case Stay => labels
    case Give(a) => labels[AssignmentKey(g.name) := a.name]
    case Nothing => if AssignmentKey(g.name) in labels then labels - GroupKeys(g.name) else labels
  }

  lemma {:induction false} SettledLabelsAre(g: Group, outcome: Outcome, node: Node)
    ensures Settled(g, outcome, node).labels == SettledLabels(g, outcome, node.labels)
  {
    if outcome.Give? {
      RelabelledView(g, outcome.a, node);
    }
    hide Relabelled, ForeignTaints;
  }

  lemma {:induction false} LabelsCommute(g: Group, h: Group, o: Outcome, o': Outcome, labels: map<string, string>)
    requires g.name != h.name
    ensures SettledLabels(h, o', SettledLabels(g, o, labels)) == SettledLabels(g, o, SettledLabels(h, o', labels))
  {
    KeysAreDistinct(g.name, h.name);
    hide AssignmentKey, PackLeftKey;
  }

  /** Same labels, same taints up to their order. */
  ghost predicate Alike(x: Node, y: Node) {
    x.labels == y.labels && multiset(x.taints) == multiset(y.taints) && x.status == y.status
  }

  lemma {:induction false} OutcomesCommute(g: Group, h: Group, o: Outcome, o': Outcome, node: Node)
    requires g.name != h.name
    requires LabelOf(h, Settled(g, o, node)) == LabelOf(h, node) && LabelOf(g, Settled(h, o', node)) == LabelOf(g, node)
    ensures Alike(Settled(h, o', Settled(g, o, node)), Settled(g, o, Settled(h, o', node)))
  {
    hide Settled, SettledLabels, Stripped, LabelOf, GroupKeys;
    SettledLabelsAre(g, o, node);
    SettledLabelsAre(h, o', node);
    SettledLabelsAre(h, o', Settled(g, o, node));
    SettledLabelsAre(g, o, Settled(h, o', node));
    LabelsCommute(g, h, o, o', node.labels);
    SettledTaints(g, o, node);
    SettledTaints(h, o', node);
    SettledTaints(h, o', Settled(g, o, node));
    SettledTaints(g, o, Settled(h, o', node));
    KeysOfAdds(g, h, o);
    KeysOfAdds(h, g, o');
    TaintsCommute(g.name, h.name, Strips(g, o, node), Strips(h, o', node), Adds(g, o), Adds(h, o'), node.taints);
    hide Adds, Strips;
    SettledStatus(g, o, node);
    SettledStatus(h, o', node);
    SettledStatus(h, o', Settled(g, o, node));
    SettledStatus(g, o, Settled(h, o', node));
  }

  lemma {:induction false} KeysOfAdds(g: Group, h: Group, o: Outcome)
    requires g.name != h.name
    ensures forall t :: t in Adds(g, o) ==> t.key !in GroupKeys(h.name)
  {
    KeysAreDistinct(g.name, h.name);
    hide AssignmentKey, PackLeftKey;
  }

  lemma {:induction false} SettledStatus(g: Group, o: Outcome, node: Node)
    ensures Settled(g, o, node).status == node.status
  {
  }

  // ----- Main result -----

  /** In either order, two groups, each listing the nodes in an order of its own, give every node the same
      labels and the same taints up to order. */
  lemma {:induction false} ReconcilesCommute(g: Group, h: Group, order: seq<string>, order': seq<string>, nodes: map<string, Node>, n: string)
    requires Independent(g, h) && n in nodes && (forall m :: m in order ==> m in nodes) && forall m :: m in order' ==> m in nodes
    ensures Alike(Reconciled(h, order', Reconciled(g, order, nodes))[n], Reconciled(g, order, Reconciled(h, order', nodes))[n])
  {
    hide Reconciled, OutcomeIn, Settled, Alike, SameView, SameOutside;
    assert Independent(h, g);
    var afterG, afterH := Reconciled(g, order, nodes), Reconciled(h, order', nodes);
    UnseenByOther(g, h, order, nodes);
    UnseenByOther(h, g, order', nodes);
    SameOutcomes(h, order', nodes, afterG, n);
    SameOutcomes(g, order, nodes, afterH, n);
    ReconciledNode(g, order, nodes, n);
    ReconciledNode(h, order', nodes, n);
    ReconciledNode(h, order', afterG, n);
    ReconciledNode(g, order, afterH, n);
    ViewHasLabel(h, nodes[n], afterG[n]);
    ViewHasLabel(g, nodes[n], afterH[n]);
    OutcomesCommute(g, h, OutcomeIn(g, order, nodes, n), OutcomeIn(h, order', nodes, n), nodes[n]);
  }

  lemma {:induction false} ViewHasLabel(g: Group, x: Node, y: Node)
    requires SameView(g, x, y)
    ensures LabelOf(g, y) == LabelOf(g, x)
  {
  }

  /** h sees the same cluster before and after a reconcile of g. */
  lemma {:induction false} UnseenByOther(g: Group, h: Group, order: seq<string>, nodes: map<string, Node>)
    requires Independent(g, h) && forall m :: m in order ==> m in nodes
    ensures SameViews(h, nodes, Reconciled(g, order, nodes))
  {
    hide SameView, SameOutside, OutcomeFor, TargetedNames, Settled, Base;
    forall m | m in nodes ensures SameView(h, nodes[m], Reconciled(g, order, nodes)[m]) {
      ReconcileKeepsOthers(g, order, nodes, m);
      ForeignChangeIsUnseen(h, g, nodes[m], Reconciled(g, order, nodes)[m]);
    }
  }
}

/** What the controllers put on a node, spelled out: keys, values and effects as users see them. */
module Written {
  import opened Cluster
  import opened Groups
  import opened Plan
  import opened Pass
  import opened Lists
  import opened Ranking
  import opened Reconciling
  import opened Settlement
  import opened Commuting
  import opened Allocated
  import opened Limits
  import opened PackLeftPass

  // ----- Assignments -----

  lemma {:induction false} AddedTaint(g: Group, a: Assignment)
    requires a.mode == LabelAndTaint
    ensures var added := Adds(g, Give(a));
            && |added| == 1
            && added[0].key == "nag.assignments.kube-valet.io/" + g.name && added[0].value == a.name
            && (a.effect.Some? ==> added[0].effect == a.effect.value)
            && (a.effect.None? ==> added[0].effect == NoSchedule)
  {
  }

  /** A node that a tainting assignment takes, labelled before or free of the group's taints, carries the assignment's
      name under the group's key as a label and as its one taint, with the given effect or else NoSchedule. */
  lemma {:induction false} GivenNodeIsTainted(g: Group, order: seq<string>, nodes: map<string, Node>, n: string, a: Assignment)
    requires n in nodes && (forall m :: m in order ==> m in nodes)
    requires OutcomeIn(g, order, nodes, n) == Give(a) && a.mode == LabelAndTaint
    requires LabelOf(g, nodes[n]).Some? || OwnOf(g, nodes[n].taints) == []
    ensures n in Reconciled(g, order, nodes)
    ensures var after := Reconciled(g, order, nodes)[n];
            var own, key := OwnOf(g, after.taints), "nag.assignments.kube-valet.io/" + g.name;
            && key in after.labels && after.labels[key] == a.name
            && |own| == 1 && own[0].key == key && own[0].value == a.name
            && (a.effect.Some? ==> own[0].effect == a.effect.value)
            && (a.effect.None? ==> own[0].effect == NoSchedule)
  {
    hide Reconciled, OutcomeIn, Settled, OwnOf, Adds;
    ReconciledKeys(g, order, nodes);
    ReconciledNode(g, order, nodes, n);
    TaintsMatchExactly(g, a, nodes[n]);
    SettledLabel(g, Give(a), nodes[n]);
    AddedTaint(g, a);
  }

  /** An assignment that does not say LabelAndTaint, the unspecified mode included, labels and leaves all taints. */
  lemma {:induction false} GivenNodeIsLabelled(g: Group, order: seq<string>, nodes: map<string, Node>, n: string, a: Assignment)
    requires n in nodes && (forall m :: m in order ==> m in nodes)
    requires OutcomeIn(g, order, nodes, n) == Give(a) && a.mode in {Undefined, LabelOnly}
    ensures n in Reconciled(g, order, nodes)
    ensures var after := Reconciled(g, order, nodes)[n];
            var key := "nag.assignments.kube-valet.io/" + g.name;
            after.labels == nodes[n].labels[key := a.name] && after.taints == nodes[n].taints
  {
    hide Reconciled, OutcomeIn, Relabelled;
    ReconciledKeys(g, order, nodes);
    ReconciledNode(g, order, nodes, n);
    RelabelledView(g, a, nodes[n]);
  }

  // ----- Targeting -----

  /** With a default, a reconcile leaves an assignment label on exactly the nodes that are not protected and carry every
      target label with its value. */
  lemma {:induction false} LabelledExactly(g: Group, order: seq<string>, nodes: map<string, Node>, n: string)
    requires IsListing(order, nodes) && n in nodes && SelectsByOthers(g) && g.fallback.Some?
    ensures n in Reconciled(g, order, nodes)
    ensures "nag.assignments.kube-valet.io/" + g.name in Reconciled(g, order, nodes)[n].labels <==>
              (&& !("nags.kube-valet.io/protected" in nodes[n].labels && nodes[n].labels["nags.kube-valet.io/protected"] == "true")
               && forall k :: k in g.target ==> k in nodes[n].labels && nodes[n].labels[k] == g.target[k])
  {
    hide Reconciled, IsTargeted, IsProtected, SelectorMatches, SelectsByOthers, Distinct, Targets;
    ReconciledLabelIsKnown(g, order, nodes, n);
    AdmittedTargets(g, nodes[n]);
    TargetsLiterally(g, nodes[n].labels);
  }

  lemma {:induction false} AdmittedTargets(g: Group, node: Node)
    requires SelectsByOthers(g)
    ensures IsTargeted(g, node) <==> Targets(g, node.labels)
  {
    hide Targets, Known, LabelOf, SelectsByOthers;
    ForeignTwice(g.name, node.taints);
    assert SameOutside(g.name, Admitted(g, node), node);
    SelectorIgnoresOwnKeys(g, Admitted(g, node), node);
    hide Admitted, SameOutside;
  }

  lemma {:induction false} TargetsLiterally(g: Group, labels: map<string, string>)
    ensures Targets(g, labels) <==>
              (&& !("nags.kube-valet.io/protected" in labels && labels["nags.kube-valet.io/protected"] == "true")
               && forall k :: k in g.target ==> k in labels && labels[k] == g.target[k])
  {
  }

  // ----- PackLeft -----

  lemma {:induction false} FirstNamedExactly(g: Group, a: Assignment)
    requires WellFormed(g)
    ensures FirstNamed(AllAssignments(g), a.name) == Some(a) <==> a in AllAssignments(g)
  {
    if a in AllAssignments(g) && FirstNamed(AllAssignments(g), a.name).Some? {
      SameNameSame(g, a, FirstNamed(AllAssignments(g), a.name).value);
    }
    hide AllAssignments, WellFormed;
  }

  /** A node has a PackLeft assignment exactly if its label names an assignment of the group that packs left. */
  lemma {:induction false} PackedAssignmentExactly(g: Group, node: Node, a: Assignment)
    requires WellFormed(g)
    ensures PackedAssignment(g, node) == Some(a) <==>
              (&& (a in g.assignments || g.fallback == Some(a)) && a.packed
               && "nag.assignments.kube-valet.io/" + g.name in node.labels && node.labels["nag.assignments.kube-valet.io/" + g.name] == a.name)
  {
    FirstNamedExactly(g, a);
    assert a in AllAssignments(g) <==> a in g.assignments || g.fallback == Some(a);
    hide AllAssignments, WellFormed, FirstNamed;
  }

  /** The two ways the source asks for a PackLeft assignment agree. */
  lemma {:induction false} BothQuestionsAgree(g: Group, node: Node)
    requires WellFormed(g)
    ensures HasPackLeftAssignment(g, node) <==> PackedAssignment(g, node).Some?
  {
    if HasPackLeftAssignment(g, node) {
      var a :| a in AllAssignments(g) && a.name == LabelOf(g, node).value && a.packed;
      FirstNamedExactly(g, a);
    }
    hide AllAssignments, WellFormed, LabelOf;
  }

  lemma {:induction false} SameNameSame(g: Group, a: Assignment, b: Assignment)
    requires WellFormed(g) && a in AllAssignments(g) && b in AllAssignments(g) && a.name == b.name
    ensures a == b
  {
    if a in g.assignments {
      var i :| 0 <= i < |g.assignments| && g.assignments[i] == a;
    }
    if b in g.assignments {
      var j :| 0 <= j < |g.assignments| && g.assignments[j] == b;
    }
  }

  lemma {:induction false} ReadyExactly(conditions: seq<Condition>)
    ensures IsReady(conditions) <==>
              exists i :: 0 <= i < |conditions| && conditions[i].kind == "Ready" && conditions[i].status == "True"
                          && forall j :: 0 <= j < i ==> conditions[j].kind != "Ready"
  {
    if conditions != [] && conditions[0].kind != "Ready" {
      ReadyExactly(conditions[1..]);
      if i :| 0 <= i < |conditions| && conditions[i].kind == "Ready" && conditions[i].status == "True"
               && forall j :: 0 <= j < i ==> conditions[j].kind != "Ready" {
        assert conditions[1..][i - 1] == conditions[i];
        assert forall j :: 0 <= j < i - 1 ==> conditions[1..][j] == conditions[j + 1];
      }
      if i :| 0 <= i < |conditions[1..]| && conditions[1..][i].kind == "Ready" && conditions[1..][i].status == "True"
               && forall j :: 0 <= j < i ==> conditions[1..][j].kind != "Ready" {
        assert conditions[i + 1] == conditions[1..][i];
        assert forall j :: 0 < j < i + 1 ==> conditions[j] == conditions[1..][j - 1];
      }
    }
  }

  /** Which nodes of a PackLeft assignment get a state: those that are targeted and schedulable and whose first Ready
      condition is true. The others keep whatever state they had. */
  lemma {:induction false} PackedExactly(g: Group, order: seq<string>, nodes: map<string, Node>, full: map<string, real>, n: string)
    requires n in nodes && HasPackLeftAssignment(g, nodes[n]) && WellFormed(g)
    ensures IsPacked(g, nodes[n]) <==>
              (&& Targets(g, nodes[n].labels) && !nodes[n].status.unschedulable
               && exists i :: 0 <= i < |nodes[n].status.conditions| && nodes[n].status.conditions[i].kind == "Ready"
                              && nodes[n].status.conditions[i].status == "True"
                              && forall j :: 0 <= j < i ==> nodes[n].status.conditions[j].kind != "Ready")
    ensures !IsPacked(g, nodes[n]) ==> Packed(g, order, nodes, full)[n] == nodes[n]
  {
    ReadyExactly(nodes[n].status.conditions);
    BothQuestionsAgree(g, nodes[n]);
    hide IsReady, Targets, PackedAssignment, HasPackLeftAssignment, HasPackLeftAttributes, StateIn, WithState, WithoutState, WellFormed;
  }

  /** A used node is labelled Use and has no packleft taint, an avoided one is labelled Avoid and repels pods softly, a
      denied one is labelled Deny and takes none. */
  lemma {:induction false} StateSpelledOut(g: Group, order: seq<string>, nodes: map<string, Node>, full: map<string, real>, n: string)
    requires n in nodes && IsPacked(g, nodes[n]) && |OwnTaints(g, nodes[n].taints)| <= 1
    ensures PackedAssignment(g, nodes[n]).Some?
    ensures var after, state := Packed(g, order, nodes, full)[n], StateIn(g, order, nodes, full, n);
            var key := "nag.packleft.scheduling.kube-valet.io/" + g.name;
            var own := OwnTaints(g, after.taints);
            && key in after.labels
            && (state == Use ==> after.labels[key] == "Use" && own == [])
            && (state == Avoid ==> after.labels[key] == "Avoid" && own == [Taint(key, "Avoid", PreferNoSchedule)])
            && (state == Deny ==> after.labels[key] == "Deny" && own == [Taint(key, "Deny", NoSchedule)])
  {
    hide OwnTaints, StateIn, Packed, IsPacked, PackedAssignment;
    PassAgrees(g, order, nodes, full, n);
  }
}

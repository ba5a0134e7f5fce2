/** The guard that keeps the controllers from reacting to their own updates, and what it overlooks
    (OnUpdateNode of pkg/controller/nodeassignment/controller.go and pkg/controller/scheduling/packleft/controller.go). */
module Triggers {
  import opened Cluster
  import opened Groups
  import opened Pass
  import opened Settlement
  import opened Framing
  import opened PackLeftPass
  import opened Lifecycle
  import opened Utils

  lemma {:induction false} InTheMiddle(s: string, t: string, u: string)
    ensures Contains(s + t + u, t)
  {
    assert StartsAt(s + t + u, |s|, t);
  }

  lemma {:induction false} StillContains(s: string, t: string, u: string)
    requires Contains(s, t)
    ensures Contains(s + u, t)
  {
    var i :| 0 <= i <= |s| && StartsAt(s, i, t);
    assert StartsAt(s + u, i, t);
  }

  lemma {:induction false} AssignmentPrefixIsOwn()
    ensures Contains(ASSIGNMENT_PREFIX, DOMAIN)
  {
    hide Contains;
    InTheMiddle("nag.assignments.", DOMAIN, "/");
    assert ASSIGNMENT_PREFIX == "nag.assignments." + DOMAIN + "/";
  }

  lemma {:induction false} PackLeftPrefixIsOwn()
    ensures Contains(PACKLEFT_PREFIX, DOMAIN)
  {
    hide Contains;
    InTheMiddle("nag.packleft.scheduling.", DOMAIN, "/");
    assert PACKLEFT_PREFIX == "nag.packleft.scheduling." + DOMAIN + "/";
  }

  lemma {:induction false} ProtectionIsOwn()
    ensures Contains(PROTECTED_KEY, DOMAIN)
  {
    hide Contains;
    InTheMiddle("nags.", DOMAIN, "/protected");
    assert PROTECTED_KEY == "nags." + DOMAIN + "/protected";
  }

  lemma {:induction false} OwnKeysAreIgnored(g: string)
    ensures forall k :: k in GroupKeys(g) ==> Contains(k, DOMAIN)
    ensures Contains(PROTECTED_KEY, DOMAIN)
  {
    hide Contains;
    AssignmentPrefixIsOwn();
    PackLeftPrefixIsOwn();
    ProtectionIsOwn();
    StillContains(ASSIGNMENT_PREFIX, DOMAIN, g);
    StillContains(PACKLEFT_PREFIX, DOMAIN, g);
  }

  lemma {:induction false} OutsideIsTargetable(g: string, x: Node, y: Node)
    requires SameOutside(g, x, y)
    ensures Targetable(x.labels) == Targetable(y.labels)
  {
    OwnKeysAreIgnored(g);
    hide ForeignTaints, Contains, GroupKeys;
    forall k | !Contains(k, DOMAIN)
      ensures (k in x.labels <==> k in y.labels) && (k in x.labels ==> x.labels[k] == y.labels[k])
    {
      assert k in x.labels <==> k in x.labels - GroupKeys(g);
      assert k in y.labels <==> k in y.labels - GroupKeys(g);
      assert k in x.labels ==> (x.labels - GroupKeys(g))[k] == x.labels[k];
      assert k in y.labels ==> (y.labels - GroupKeys(g))[k] == y.labels[k];
    }
  }

  // ----- What the guard sees -----

  lemma {:induction false} ContainedIsInTheMiddle(k: string)
    requires Contains(k, "kube-valet.io")
    ensures exists s: string, t: string :: s + "kube-valet.io" + t == k
  {
    var i :| 0 <= i <= |k| && StartsAt(k, i, "kube-valet.io");
    var n := |"kube-valet.io"|;
    assert k[..i] + k[i..i + n] + k[i + n..] == k;
    assert k[..i] + "kube-valet.io" + k[i + n..] == k;
  }

  /** A label that appears, goes or changes makes the guard react, unless kube-valet.io is part of its key. */
  lemma {:induction false} OtherLabelsAreNoticed(before: map<string, string>, after: map<string, string>, k: string)
    requires forall s: string, t: string :: s + "kube-valet.io" + t != k
    requires (k in before) != (k in after) || (k in before && k in after && before[k] != after[k])
    ensures Targetable(before) != Targetable(after)
  {
    if Contains(k, "kube-valet.io") {
      ContainedIsInTheMiddle(k);
    }
    hide Contains;
    assert k in Targetable(before) <==> k in before;
    assert k in Targetable(after) <==> k in after;
  }

  /** Setting a label whose key has kube-valet.io in it does not. */
  lemma {:induction false} OwnLabelsAreIgnored(labels: map<string, string>, s: string, t: string, v: string)
    ensures Targetable(labels[s + "kube-valet.io" + t := v]) == Targetable(labels)
  {
    InTheMiddle(s, "kube-valet.io", t);
    hide Contains;
  }

  // ----- No loop -----

  /** No update sent while the context is built, in the main loop or in the cleanup, whatever is refused,
      makes the guard react. */
  lemma {:induction false} ReconcileIsSilent(g: Group, down: nat -> bool, order: seq<string>, nodes: map<string, Node>, calls: nat, k: nat,
                                             cleaned: set<string>, n: string)
    requires n in nodes && forall m :: m in order ==> m in nodes
    requires k <= |Build(g, down, order, World(nodes, calls, {}), |order|).names|
    ensures var c := Build(g, down, order, World(nodes, calls, {}), |order|);
            var after := Cleaned(g, Run(g, down, c.names, Begin(g, c), k).world.nodes, cleaned);
            && n in c.world.nodes && Targetable(c.world.nodes[n].labels) == Targetable(nodes[n].labels)
            && n in after && Targetable(after[n].labels) == Targetable(nodes[n].labels)
  {
    hide Build, Run, Begin, SameOutside, Targetable, Cleaned;
    OthersStay(g, down, order, nodes, calls, k, cleaned);
    var c := Build(g, down, order, World(nodes, calls, {}), |order|);
    OutsideIsTargetable(g.name, nodes[n], c.world.nodes[n]);
    OutsideIsTargetable(g.name, nodes[n], Cleaned(g, Run(g, down, c.names, Begin(g, c), k).world.nodes, cleaned)[n]);
  }

  /** Nor does the removal of a deleted group. */
  lemma {:induction false} SweepIsSilent(g: Group, down: nat -> bool, order: seq<string>, start: World, n: string)
    requires n in start.nodes && forall m :: m in order ==> m in start.nodes
    ensures Targetable(SweepAll(g, down, order, start).nodes[n].labels) == Targetable(start.nodes[n].labels)
  {
    hide SameOutside, Targetable, SweepAll;
    SweepKeepsOthers(g, down, order, start);
    OutsideIsTargetable(g.name, start.nodes[n], SweepAll(g, down, order, start).nodes[n]);
  }

  /** The PackLeft controller also looks at whether a node can be balanced; its own steps change neither. */
  lemma {:induction false} PackLeftIsSilent(o: Object, a: Action, nodes: map<string, Node>, n: string)
    requires a.PackLeftStep? && n in nodes
    ensures n in PackLeftNodes(o, a, nodes)
    ensures Targetable(PackLeftNodes(o, a, nodes)[n].labels) == Targetable(nodes[n].labels)
    ensures CanBeBalanced(PackLeftNodes(o, a, nodes)[n].status) <==> CanBeBalanced(nodes[n].status)
  {
    hide Targetable, PackLeftNodes, HasTrace, ForeignTaints, CanBeBalanced;
    PackLeftNode(o, a, nodes, n);
    OutsideIsTargetable(o.group.name, nodes[n], PackLeftNodes(o, a, nodes)[n]);
  }

  // ----- What the guard overlooks -----

  /** A change the guard ignores leaves targeting unchanged if and only if it does not touch the protection
      of a node the selector matches. */
  lemma {:induction false} UnnoticedTargeting(g: Group, before: map<string, string>, after: map<string, string>)
    requires forall k :: k in g.target ==> !Contains(k, DOMAIN)
    requires Targetable(before) == Targetable(after)
    ensures SelectorMatches(g, before) <==> SelectorMatches(g, after)
    ensures (Targets(g, before) <==> Targets(g, after)) <==>
              ((IsProtected(before) <==> IsProtected(after)) || !SelectorMatches(g, before))
  {
    hide Contains, IsProtected;
    forall k | k in g.target
      ensures (k in before <==> k in after) && (k in before ==> before[k] == after[k])
    {
      assert k in before <==> k in Targetable(before);
      assert k in after <==> k in Targetable(after);
      assert k in before ==> Targetable(before)[k] == before[k];
      assert k in after ==> Targetable(after)[k] == after[k];
    }
    hide Targetable;
  }

  /** Protecting a targeted node takes it out of the group, and no controller hears of it. */
  lemma {:induction false} ProtectionGoesUnnoticed(g: Group, labels: map<string, string>)
    requires Targets(g, labels)
    ensures var after := labels[PROTECTED_KEY := PROTECTED_VALUE];
            Targetable(after) == Targetable(labels) && !Targets(g, after)
  {
    OwnKeysAreIgnored(g.name);
    hide Contains;
  }
}

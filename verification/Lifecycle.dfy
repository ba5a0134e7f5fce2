/** The life of node assignment groups: two controllers with a finalizer each write to the same nodes,
    users create, change and delete groups, and nodes change on their own
    (pkg/controller/nodeassignment/manager.go, pkg/controller/scheduling/packleft/controller.go). */
module Lifecycle {
  import opened Cluster
  import opened Groups
  import opened Plan
  import opened Pass
  import opened Lists
  import opened Reconciling
  import opened Settlement
  import opened Framing
  import opened PackLeftPass
  import opened PackLeftManagers

  const NAG_FINALIZER := "nag.finalizer.kube-valet.io"
  const PACKLEFT_FINALIZER := "packleft.nag.finalizer.kube-valet.io"

  /** A stored group; `deleting` means that a deletion timestamp is set. */
  datatype Object = Object(group: Group, finalizers: seq<string>, deleting: bool)

  /** Groups by name, nodes by name. */
  datatype State = State(objects: map<string, Object>, nodes: map<string, Node>)

  /** `down` and `calls` say which node calls are refused, `accepted` whether the update of the group is.
      `cleaned` and `done` are the nodes the step got to. */
  datatype Action =
    | Create(group: Group, finalizers: seq<string>)
    | ChangeSpec(group: Group)
    | ChangeFinalizers(name: string, finalizers: seq<string>)
    | RequestDeletion(name: string)
    | Remove(name: string)
    | NagStep(name: string, order: seq<string>, down: nat -> bool, calls: nat, cleaned: set<string>, accepted: bool)
    | PackLeftStep(name: string, order: seq<string>, full: map<string, real>, done: set<string>, accepted: bool)
    | ChangeNodes(nodes: map<string, Node>)

  // ----- Traces -----

  /** A label or taint with one of the group's keys. */
  ghost predicate HasTrace(g: string, node: Node) {
    !(node.labels.Keys !! GroupKeys(g)) || exists t :: t in node.taints && t.key in GroupKeys(g)
  }

  lemma {:induction false} TraceIsWhatUnassignRemoves(g: Group, node: Node)
    ensures HasTrace(g.name, node) <==> Unassigned(g, node) != node
    ensures HasTrace(g.name, node) <==> !IsEmptyPatch(node, Unassigned(g, node))
  {
    FilterMembers(IsForeign(g.name), node.taints);
    if forall t :: t in node.taints ==> t.key !in GroupKeys(g.name) {
      FilterNone(IsForeign(g.name), node.taints);
    }
    hide GroupKeys, Filter;
    if node.labels.Keys !! GroupKeys(g.name) {
      assert node.labels - GroupKeys(g.name) == node.labels;
    } else {
      var k :| k in node.labels && k in GroupKeys(g.name);
      assert k !in node.labels - GroupKeys(g.name);
    }
  }

  lemma {:induction false} UnassignedHasNoTrace(g: Group, node: Node)
    ensures !HasTrace(g.name, Unassigned(g, node))
  {
    FilterMembers(IsForeign(g.name), node.taints);
    hide GroupKeys, Filter;
  }

  lemma {:induction false} LabelIsTrace(g: Group, node: Node)
    ensures LabelOf(g, node).Some? ==> HasTrace(g.name, node)
    ensures HasPackLeftAttributes(g, node) ==> HasTrace(g.name, node)
  {
  }

  /** Traces of other groups are outside. */
  lemma {:induction false} OutsideTrace(g: string, h: string, x: Node, y: Node)
    requires SameOutside(g, x, y) && g != h
    ensures HasTrace(h, x) <==> HasTrace(h, y)
  {
    KeysAreDistinct(g, h);
    FilterMembers(IsForeign(g), x.taints);
    FilterMembers(IsForeign(g), y.taints);
    hide GroupKeys, Filter;
    assert forall k :: k in GroupKeys(h) ==> (k in x.labels <==> k in x.labels - GroupKeys(g));
    assert forall k :: k in GroupKeys(h) ==> (k in y.labels <==> k in y.labels - GroupKeys(g));
    assert forall t :: t in x.taints && t.key in GroupKeys(h) ==> t in ForeignTaints(g, x.taints);
    assert forall t :: t in y.taints && t.key in GroupKeys(h) ==> t in ForeignTaints(g, y.taints);
  }

  // ----- Steps -----

  function Without(finalizers: seq<string>, f: string): seq<string> { Filter((v: string) => v != f, finalizers) }

  function WithFinalizer(finalizers: seq<string>, f: string, accepted: bool): seq<string> {
    if f in finalizers || !accepted then finalizers else finalizers + [f]
  }

  /** A group without the finalizer only gets it; the next step reconciles. */
  function NagNodes(o: Object, a: Action, nodes: map<string, Node>): map<string, Node>
    requires a.NagStep? && forall n :: n in a.order ==> n in nodes
  {
    var c := BuiltContext(o.group, a.down, a.order, nodes, a.calls);
    if o.deleting then SweepAll(o.group, a.down, a.order, c.world).nodes
    else if NAG_FINALIZER !in o.finalizers then c.world.nodes
    else Cleaned(o.group, Run(o.group, a.down, c.names, Begin(o.group, c), |c.names|).world.nodes, a.cleaned)
  }

  function NagFinalizers(o: Object, accepted: bool): seq<string> {
    if !o.deleting then WithFinalizer(o.finalizers, NAG_FINALIZER, accepted)
    else if accepted then Without(o.finalizers, NAG_FINALIZER)
    else o.finalizers
  }

  function PackLeftNodes(o: Object, a: Action, nodes: map<string, Node>): map<string, Node>
    requires a.PackLeftStep?
  {
    if o.deleting then Overlay(nodes, CleanAllTarget(o.group, nodes), a.done)
    else Overlay(nodes, Packed(o.group, a.order, nodes, a.full), a.done)
  }

  /** The finalizer goes only when every node was cleaned. */
  function PackLeftFinalizers(o: Object, a: Action, nodes: map<string, Node>): seq<string>
    requires a.PackLeftStep?
  {
    if !o.deleting then WithFinalizer(o.finalizers, PACKLEFT_FINALIZER, a.accepted)
    else if a.accepted && CleanAllTarget(o.group, nodes).Keys <= a.done then Without(o.finalizers, PACKLEFT_FINALIZER)
    else o.finalizers
  }

  ghost predicate Enabled(s: State, a: Action) {
    match a
    case Create(group, _) => group.name !in s.objects
    case ChangeSpec(group) => group.name in s.objects
    case ChangeFinalizers(name, finalizers) =>
      name in s.objects && (NAG_FINALIZER in s.objects[name].finalizers ==> NAG_FINALIZER in finalizers)
    case RequestDeletion(name) => name in s.objects
    case Remove(name) => name in s.objects && s.objects[name].deleting && s.objects[name].finalizers == []
    case NagStep(name, order, _, _, _, _) => name in s.objects && IsListing(order, s.nodes)
    case PackLeftStep(name, order, _, _, _) => name in s.objects && IsListing(order, s.nodes)
    case ChangeNodes(nodes) => forall n, g :: n in nodes && HasTrace(g, nodes[n]) ==> n in s.nodes && HasTrace(g, s.nodes[n])
  }

  ghost function Next(s: State, a: Action): State
    requires Enabled(s, a)
  {
    match a
    case Create(group, finalizers) => s.(objects := s.objects[group.name := Object(group, finalizers, false)])
    case ChangeSpec(group) => s.(objects := s.objects[group.name := s.objects[group.name].(group := group)])
    case ChangeFinalizers(name, finalizers) => s.(objects := s.objects[name := s.objects[name].(finalizers := finalizers)])
    case RequestDeletion(name) => s.(objects := s.objects[name := s.objects[name].(deleting := true)])
    case Remove(name) => s.(objects := s.objects - {name})
    case NagStep(name, _, _, _, _, accepted) =>
      var o := s.objects[name];
      State(s.objects[name := o.(finalizers := NagFinalizers(o, accepted))], NagNodes(o, a, s.nodes))
    case PackLeftStep(name, _, _, _, _) =>
      var o := s.objects[name];
      State(s.objects[name := o.(finalizers := PackLeftFinalizers(o, a, s.nodes))], PackLeftNodes(o, a, s.nodes))
    case ChangeNodes(nodes) => s.(nodes := nodes)
  }

  // ----- The invariant -----

  ghost predicate HasFinalizer(objects: map<string, Object>, g: string) {
    g in objects && NAG_FINALIZER in objects[g].finalizers
  }

  ghost predicate WellNamed(objects: map<string, Object>) {
    forall g :: g in objects ==> objects[g].group.name == g
  }

  /** If any node has a trace of the group, the group exists and has the finalizer. */
  ghost predicate Owned(s: State, g: string) {
    forall n :: n in s.nodes && HasTrace(g, s.nodes[n]) ==> HasFinalizer(s.objects, g)
  }

  ghost predicate Inv(s: State) { WellNamed(s.objects) && forall g :: Owned(s, g) }

  // ----- The sweep of a deleted group -----

  /** The update of the j-th listed node is due and refused. */
  ghost predicate RefusedAt(g: Group, down: nat -> bool, order: seq<string>, start: World, j: nat)
    requires j < |order| && forall n :: n in order ==> n in start.nodes
  {
    order[j] in start.nodes && HasTrace(g.name, start.nodes[order[j]]) && down(Sweep(g, down, order, start, j).calls)
  }

  lemma {:induction false} SweepExactly(g: Group, down: nat -> bool, order: seq<string>, start: World, i: nat, j: nat)
    requires i <= |order| && j < |order| && IsListing(order, start.nodes)
    ensures order[j] in start.nodes
    ensures Sweep(g, down, order, start, i).nodes[order[j]] ==
              if j < i && !RefusedAt(g, down, order, start, j) then Unassigned(g, start.nodes[order[j]]) else start.nodes[order[j]]
  {
    hide Unassigned, HasTrace, ApplyPatch, IsEmptyPatch;
    assert order[j] in order;
    if i > 0 {
      SweepExactly(g, down, order, start, i - 1, j);
      var node := start.nodes[order[i - 1]];
      TraceIsWhatUnassignRemoves(g, node);
      if i - 1 == j {
        UnassignedStatus(g, node);
        PatchFromCurrent(node, Unassigned(g, node));
      }
    }
  }

  lemma {:induction false} UnassignedStatus(g: Group, node: Node)
    ensures Unassigned(g, node).status == node.status
  {
  }

  /** A trace survives the sweep exactly if the listing or the update of its node is refused. */
  ghost predicate Survives(g: Group, down: nat -> bool, order: seq<string>, start: World, j: nat)
    requires j < |order| && forall n :: n in order ==> n in start.nodes
  {
    && order[j] in start.nodes && HasTrace(g.name, start.nodes[order[j]])
    && (down(start.calls) || RefusedAt(g, down, order, start.(calls := start.calls + 1), j))
  }

  lemma {:induction false} SweepLeaves(g: Group, down: nat -> bool, order: seq<string>, start: World, j: nat)
    requires j < |order| && IsListing(order, start.nodes)
    ensures order[j] in start.nodes
    ensures HasTrace(g.name, SweepAll(g, down, order, start).nodes[order[j]]) <==> Survives(g, down, order, start, j)
  {
    hide Unassigned, HasTrace, Sweep;
    assert order[j] in order;
    var listed := start.(calls := start.calls + 1);
    SweepExactly(g, down, order, listed, |order|, j);
    UnassignedHasNoTrace(g, start.nodes[order[j]]);
  }

  /** The step removes the finalizer although a trace survives: the error of the sweep is dropped. */
  ghost predicate Leaks(s: State, a: Action)
    requires Enabled(s, a)
  {
    a.NagStep? && a.accepted && s.objects[a.name].deleting &&
    var g := s.objects[a.name].group;
    exists j :: 0 <= j < |a.order| && Survives(g, a.down, a.order, BuiltContext(g, a.down, a.order, s.nodes, a.calls).world, j)
  }

  // ----- Each step -----

  /** A step of group g that leaves foreign keys alone does not concern another group. */
  lemma {:induction false} OthersStayOwned(s: State, t: State, g: string, h: string)
    requires h != g && Owned(s, h) && Framed(g, s.nodes, t.nodes)
    requires h in s.objects ==> h in t.objects && t.objects[h] == s.objects[h]
    ensures Owned(t, h)
  {
    hide HasTrace, SameOutside;
    forall n | n in t.nodes && HasTrace(h, t.nodes[n]) ensures HasFinalizer(t.objects, h) {
      OutsideTrace(g, h, s.nodes[n], t.nodes[n]);
    }
  }

  /** Without labels of the group, building the context sends nothing. */
  lemma {:induction false} BuildOnClean(g: Group, down: nat -> bool, order: seq<string>, start: World, i: nat)
    requires i <= |order| && (forall n :: n in order ==> n in start.nodes)
    requires forall n :: n in start.nodes ==> LabelOf(g, start.nodes[n]).None?
    ensures Build(g, down, order, start, i).world.nodes == start.nodes
  {
    hide Targets, LabelOf, Unassigned, Update;
    if i > 0 {
      BuildOnClean(g, down, order, start, i - 1);
      assert order[i - 1] in order;
    }
  }

  lemma {:induction false} FilterRemoves(finalizers: seq<string>, f: string)
    ensures f !in Without(finalizers, f)
    ensures forall v :: v != f ==> (v in Without(finalizers, f) <==> v in finalizers)
  {
    FilterMembers((v: string) => v != f, finalizers);
    hide Filter;
  }

  lemma {:induction false} NagStepIsFramed(s: State, a: Action)
    requires Enabled(s, a) && a.NagStep? && WellNamed(s.objects)
    ensures Framed(a.name, s.nodes, NagNodes(s.objects[a.name], a, s.nodes))
    ensures Framed(a.name, s.nodes, BuiltContext(s.objects[a.name].group, a.down, a.order, s.nodes, a.calls).world.nodes)
  {
    hide Framed, Build, Run, Cleaned, SweepAll, HasTrace, Distinct, HasFinalizer;
    var g := s.objects[a.name].group;
    var c := BuiltContext(g, a.down, a.order, s.nodes, a.calls);
    OthersStay(g, a.down, a.order, s.nodes, a.calls, |c.names|, a.cleaned);
    SweepKeepsOthers(g, a.down, a.order, c.world);
    FramedJoin(g.name, s.nodes, c.world.nodes, SweepAll(g, a.down, a.order, c.world).nodes);
  }

  lemma {:induction false} FramedJoin(g: string, x: map<string, Node>, y: map<string, Node>, z: map<string, Node>)
    requires Framed(g, x, y) && Framed(g, y, z)
    ensures Framed(g, x, z)
  {
    hide SameOutside;
    forall n | n in x ensures SameOutside(g, x[n], z[n]) {
      OutsideJoin(g, x[n], y[n], z[n]);
    }
  }

  lemma {:induction false} CleanContext(s: State, a: Action)
    requires Enabled(s, a) && a.NagStep? && WellNamed(s.objects) && Owned(s, a.name) && NAG_FINALIZER !in s.objects[a.name].finalizers
    ensures forall n :: n in s.nodes ==> !HasTrace(a.name, s.nodes[n])
    ensures BuiltContext(s.objects[a.name].group, a.down, a.order, s.nodes, a.calls).world.nodes == s.nodes
  {
    hide HasTrace, LabelOf, Build, Distinct;
    var g := s.objects[a.name].group;
    forall n | n in s.nodes ensures LabelOf(g, s.nodes[n]).None? && !HasTrace(a.name, s.nodes[n]) {
      LabelIsTrace(g, s.nodes[n]);
      assert !HasFinalizer(s.objects, a.name);
    }
    BuildOnClean(g, a.down, a.order, World(s.nodes, a.calls, {}), |a.order|);
  }

  lemma {:induction false} NagStepStaysOwned(s: State, a: Action)
    requires Enabled(s, a) && a.NagStep? && WellNamed(s.objects) && Owned(s, a.name) && !s.objects[a.name].deleting
    ensures Owned(Next(s, a), a.name)
  {
    hide HasTrace, NagNodes, BuiltContext, Distinct, WithFinalizer;
    var o, t := s.objects[a.name], Next(s, a);
    FinalizersGrow(o.finalizers, NAG_FINALIZER, a.accepted);
    if NAG_FINALIZER !in o.finalizers {
      CleanContext(s, a);
      assert t.nodes == s.nodes by { WithoutFinalizer(o, a, s.nodes); }
    }
  }

  lemma {:induction false} WithoutFinalizer(o: Object, a: Action, nodes: map<string, Node>)
    requires a.NagStep? && (forall n :: n in a.order ==> n in nodes) && !o.deleting && NAG_FINALIZER !in o.finalizers
    ensures NagNodes(o, a, nodes) == BuiltContext(o.group, a.down, a.order, nodes, a.calls).world.nodes
  {
    hide BuiltContext, Run, SweepAll, Cleaned;
  }

  lemma {:induction false} FinalizersGrow(finalizers: seq<string>, f: string, accepted: bool)
    ensures forall v :: v in finalizers ==> v in WithFinalizer(finalizers, f, accepted)
  {
  }

  lemma {:induction false} DeletionNodes(s: State, a: Action, n: string)
    requires WellNamed(s.objects) && Enabled(s, a) && a.NagStep? && s.objects[a.name].deleting && n in s.nodes
    ensures var g := s.objects[a.name].group;
            && n in NagNodes(s.objects[a.name], a, s.nodes)
            && (HasTrace(g.name, NagNodes(s.objects[a.name], a, s.nodes)[n]) <==>
                  exists j :: 0 <= j < |a.order| && a.order[j] == n && Survives(g, a.down, a.order, BuiltContext(g, a.down, a.order, s.nodes, a.calls).world, j))
  {
    hide HasTrace, BuiltContext, SweepAll, Survives;
    var g := s.objects[a.name].group;
    var c := BuiltContext(g, a.down, a.order, s.nodes, a.calls);
    assert n in a.order;
    var i :| 0 <= i < |a.order| && a.order[i] == n;
    SweepLeaves(g, a.down, a.order, c.world, i);
    if j :| 0 <= j < |a.order| && a.order[j] == n && Survives(g, a.down, a.order, c.world, j) {
      assert j == i;
    }
  }

  lemma {:induction false} FramedKeys(g: string, x: map<string, Node>, y: map<string, Node>)
    requires Framed(g, x, y)
    ensures y.Keys == x.Keys
  {
  }

  lemma {:induction false} LeakLeavesTrace(s: State, a: Action)
    requires WellNamed(s.objects) && Enabled(s, a) && a.NagStep? && s.objects[a.name].deleting && a.accepted
    ensures Leaks(s, a) <==> exists n :: n in Next(s, a).nodes && HasTrace(a.name, Next(s, a).nodes[n])
  {
    hide HasTrace, Framed, NagNodes, BuiltContext, Survives, Without, Distinct;
    var t := Next(s, a);
    var g := s.objects[a.name].group;
    NagStepIsFramed(s, a);
    FramedKeys(a.name, s.nodes, t.nodes);
    if Leaks(s, a) {
      var j :| 0 <= j < |a.order| && Survives(g, a.down, a.order, BuiltContext(g, a.down, a.order, s.nodes, a.calls).world, j);
      assert a.order[j] in a.order;
      DeletionNodes(s, a, a.order[j]);
      assert HasTrace(a.name, t.nodes[a.order[j]]);
    }
    if n :| n in t.nodes && HasTrace(a.name, t.nodes[n]) {
      DeletionNodes(s, a, n);
    }
  }

  lemma {:induction false} RefusedUpdateLeavesNothing(s: State, a: Action, n: string)
    requires Enabled(s, a) && a.NagStep? && WellNamed(s.objects) && Owned(s, a.name) && s.objects[a.name].deleting && n in s.nodes
    requires NAG_FINALIZER !in s.objects[a.name].finalizers
    ensures n in NagNodes(s.objects[a.name], a, s.nodes) && !HasTrace(a.name, NagNodes(s.objects[a.name], a, s.nodes)[n])
  {
    hide HasTrace, Framed, NagNodes, BuiltContext, Survives, Distinct;
    CleanContext(s, a);
    DeletionNodes(s, a, n);
    SurvivorsHadTraces(s.objects[a.name].group, a, s.nodes);
  }

  /** A step on a deleted group keeps its traces owned exactly if it does not leak. */
  lemma {:induction false} DeletionStep(s: State, a: Action)
    requires Enabled(s, a) && a.NagStep? && WellNamed(s.objects) && Owned(s, a.name) && s.objects[a.name].deleting
    ensures Owned(Next(s, a), a.name) <==> !Leaks(s, a)
  {
    hide HasTrace, Framed, NagNodes, BuiltContext, Survives, Without, Distinct;
    var o, t := s.objects[a.name], Next(s, a);
    NagStepIsFramed(s, a);
    FramedKeys(a.name, s.nodes, t.nodes);
    FilterRemoves(o.finalizers, NAG_FINALIZER);
    if a.accepted {
      LeakLeavesTrace(s, a);
      hide Leaks;
      assert !HasFinalizer(t.objects, a.name);
    } else if NAG_FINALIZER !in o.finalizers {
      forall n | n in t.nodes ensures !HasTrace(a.name, t.nodes[n]) {
        RefusedUpdateLeavesNothing(s, a, n);
      }
    }
  }

  lemma {:induction false} SurvivorsHadTraces(g: Group, a: Action, nodes: map<string, Node>)
    requires a.NagStep? && forall n :: n in a.order ==> n in nodes
    ensures var w := BuiltContext(g, a.down, a.order, nodes, a.calls).world;
            forall j :: 0 <= j < |a.order| && Survives(g, a.down, a.order, w, j) ==> a.order[j] in w.nodes && HasTrace(g.name, w.nodes[a.order[j]])
  {
    hide HasTrace, BuiltContext, RefusedAt;
  }

  lemma {:induction false} UntracedIsLeftAlone(g: Group, order: seq<string>, nodes: map<string, Node>, full: map<string, real>, n: string)
    requires n in nodes && !HasTrace(g.name, nodes[n])
    ensures WithoutState(g, nodes[n]) == nodes[n]
    ensures PackedNode(g, order, nodes, full, n) == nodes[n]
  {
    LabelIsTrace(g, nodes[n]);
    NoneToDrop(nodes[n].taints, PackLeftKey(g.name));
    assert nodes[n].labels - {PackLeftKey(g.name)} == nodes[n].labels;
    hide WithState, StateIn, Targets, CanBeBalanced, LabelOf, HasPackLeftAttributes, HasPackLeftAssignment;
  }

  lemma {:induction false} PackLeftNode(o: Object, a: Action, nodes: map<string, Node>, n: string)
    requires a.PackLeftStep? && n in nodes
    ensures n in PackLeftNodes(o, a, nodes)
    ensures SameOutside(o.group.name, nodes[n], PackLeftNodes(o, a, nodes)[n])
    ensures HasTrace(o.group.name, PackLeftNodes(o, a, nodes)[n]) ==> HasTrace(o.group.name, nodes[n])
  {
    hide HasTrace, SameOutside, PackedNode, WithoutState, IsCleaned, CanBeBalanced;
    OutsideSelf(o.group.name, nodes[n]);
    PackedKeepsOthers(o.group, a.order, nodes, a.full, n);
    WithoutStateKeepsOthers(o.group, nodes[n]);
    if !HasTrace(o.group.name, nodes[n]) {
      UntracedIsLeftAlone(o.group, a.order, nodes, a.full, n);
    }
  }

  lemma {:induction false} PackLeftKeepsFinalizer(o: Object, a: Action, nodes: map<string, Node>)
    requires a.PackLeftStep? && NAG_FINALIZER in o.finalizers
    ensures NAG_FINALIZER in PackLeftFinalizers(o, a, nodes)
  {
    FilterRemoves(o.finalizers, PACKLEFT_FINALIZER);
    assert NAG_FINALIZER[0] != PACKLEFT_FINALIZER[0];
    hide Without, CleanAllTarget;
  }

  lemma {:induction false} PackLeftStepNodes(s: State, a: Action)
    requires WellNamed(s.objects) && Enabled(s, a) && a.PackLeftStep?
    ensures Framed(a.name, s.nodes, Next(s, a).nodes)
    ensures forall n :: n in s.nodes && HasTrace(a.name, Next(s, a).nodes[n]) ==> HasTrace(a.name, s.nodes[n])
  {
    hide HasTrace, PackLeftNodes, SameOutside, PackLeftFinalizers, Distinct;
    var o, t := s.objects[a.name], Next(s, a);
    PackLeftKeys(o, a, s.nodes);
    forall n | n in s.nodes
      ensures SameOutside(a.name, s.nodes[n], t.nodes[n])
      ensures HasTrace(a.name, t.nodes[n]) ==> HasTrace(a.name, s.nodes[n])
    {
      PackLeftNode(o, a, s.nodes, n);
    }
  }

  /** A PackLeft step of a group keeps that group's traces owned. */
  lemma {:induction false} PackLeftStepStaysOwned(s: State, a: Action)
    requires Enabled(s, a) && a.PackLeftStep? && WellNamed(s.objects) && Owned(s, a.name)
    ensures Owned(Next(s, a), a.name)
  {
    hide HasTrace, PackLeftNodes, SameOutside, PackLeftFinalizers, Distinct;
    var o, t := s.objects[a.name], Next(s, a);
    PackLeftStepNodes(s, a);
    if NAG_FINALIZER in o.finalizers {
      PackLeftKeepsFinalizer(o, a, s.nodes);
    }
  }

  lemma {:induction false} PackLeftKeys(o: Object, a: Action, nodes: map<string, Node>)
    requires a.PackLeftStep?
    ensures PackLeftNodes(o, a, nodes).Keys == nodes.Keys
  {
    hide Packed, CleanAllTarget;
  }

  /** Whoever changes groups or nodes from outside keeps every group's traces owned. */
  lemma {:induction false} OutsideStepStaysOwned(s: State, a: Action, g: string)
    requires Owned(s, g) && Enabled(s, a) && !a.NagStep? && !a.PackLeftStep?
    ensures Owned(Next(s, a), g)
  {
    hide HasTrace, Distinct;
    var t := Next(s, a);
    forall n | n in t.nodes && HasTrace(g, t.nodes[n]) ensures HasFinalizer(t.objects, g) {
      assert n in s.nodes && HasTrace(g, s.nodes[n]);
    }
  }

  // ----- Main results -----

  /** Group by group, every step of anybody, whichever calls are refused, keeps the traces owned, with one
      exception: exactly the steps that drop the group's own finalizer after a refused sweep do not. */
  lemma {:induction false} StepStaysOwned(s: State, a: Action, g: string)
    requires WellNamed(s.objects) && Owned(s, g) && Enabled(s, a)
    ensures WellNamed(Next(s, a).objects)
    ensures Owned(Next(s, a), g) <==> !(LeaksFor(s, a, g))
  {
    hide Owned, Survives, BuiltContext, HasTrace, Distinct, NagNodes, PackLeftNodes, Framed;
    if !a.NagStep? && !a.PackLeftStep? {
      OutsideStepStaysOwned(s, a, g);
    } else if a.name != g {
      if a.NagStep? {
        NagStepIsFramed(s, a);
      } else {
        PackLeftStepNodes(s, a);
      }
      OthersStayOwned(s, Next(s, a), a.name, g);
    } else if a.PackLeftStep? {
      PackLeftStepStaysOwned(s, a);
    } else if s.objects[a.name].deleting {
      DeletionStep(s, a);
    } else {
      NagStepStaysOwned(s, a);
    }
  }

  ghost predicate LeaksFor(s: State, a: Action, g: string)
    requires Enabled(s, a)
  {
    Leaks(s, a) && a.name == g
  }

  /** The invariant over all groups is kept exactly by the steps that do not leak. */
  lemma {:induction false} StepKeepsInv(s: State, a: Action)
    requires Inv(s) && Enabled(s, a)
    ensures Inv(Next(s, a)) <==> !Leaks(s, a)
  {
    hide Owned, Leaks, WellNamed, Enabled, Next;
    var t := Next(s, a);
    forall g: string ensures Owned(t, g) <==> !LeaksFor(s, a, g) {
      StepStaysOwned(s, a, g);
    }
    StepStaysOwned(s, a, "");
    LeaksAreNagSteps(s, a);
    if Leaks(s, a) {
      assert LeaksFor(s, a, a.name);
      assert !Owned(t, a.name);
    }
  }

  lemma {:induction false} LeaksAreNagSteps(s: State, a: Action)
    requires Enabled(s, a)
    ensures Leaks(s, a) ==> a.NagStep?
  {
    hide Survives, BuiltContext;
  }

  /** A run: every step possible where it happens, none leaking traces of g. */
  ghost predicate IsRun(s: State, run: seq<Action>, g: string)
    decreases |run|
  {
    run == [] || (Enabled(s, run[0]) && !LeaksFor(s, run[0], g) && IsRun(Next(s, run[0]), run[1..], g))
  }

  ghost function After(s: State, run: seq<Action>, g: string): State
    requires IsRun(s, run, g)
    decreases |run|
  {
    if run == [] then s else After(Next(s, run[0]), run[1..], g)
  }

  lemma {:induction false} RunStaysOwned(s: State, run: seq<Action>, g: string)
    requires WellNamed(s.objects) && Owned(s, g) && IsRun(s, run, g)
    ensures Owned(After(s, run, g), g)
    decreases |run|
  {
    hide Owned, Next, Enabled, LeaksFor, WellNamed;
    if run != [] {
      StepStaysOwned(s, run[0], g);
      RunStaysOwned(Next(s, run[0]), run[1..], g);
    }
  }

  /** From a cluster without groups and traces of g, over any run whose steps for g do not leak, whatever happens
      to other groups: once g is gone, and as soon as its finalizer is, no node carries a label or taint of it. */
  lemma {:induction false} GoneLeavesNothing(nodes: map<string, Node>, run: seq<Action>, g: string, n: string)
    requires forall m :: m in nodes ==> !HasTrace(g, nodes[m])
    requires IsRun(State(map[], nodes), run, g)
    ensures var t := After(State(map[], nodes), run, g);
            n in t.nodes && !HasFinalizer(t.objects, g) ==> !HasTrace(g, t.nodes[n])
  {
    hide HasTrace, HasFinalizer, Next, Enabled, LeaksFor, IsRun, After;
    RunStaysOwned(State(map[], nodes), run, g);
  }

  lemma {:induction false} NoFaultNeverLeaks(s: State, a: Action)
    requires Enabled(s, a) && a.NagStep? && NoFault(a.down)
    ensures !Leaks(s, a)
  {
    hide HasTrace, BuiltContext, Sweep;
  }

  /** No refusals, and the step gets to the end. */
  ghost predicate Undisturbed(s: State, a: Action) {
    match a
    case NagStep(_, _, down, _, _, accepted) => NoFault(down) && accepted
    case PackLeftStep(name, _, _, done, accepted) =>
      accepted && name in s.objects && CleanAllTarget(s.objects[name].group, s.nodes).Keys <= done
    case _ => false
  }

  /** What the two steps leave of the finalizers, in either order. */
  function OtherFinalizers(finalizers: seq<string>): seq<string> { Without(Without(finalizers, NAG_FINALIZER), PACKLEFT_FINALIZER) }

  lemma {:induction false} WithoutCommutes(finalizers: seq<string>, e: string, f: string)
    ensures Without(Without(finalizers, e), f) == Without(Without(finalizers, f), e)
  {
    var both := (v: string) => v != e && v != f;
    FilterTwice((v: string) => v != e, (v: string) => v != f, both, finalizers);
    FilterTwice((v: string) => v != f, (v: string) => v != e, both, finalizers);
    hide Filter;
  }

  lemma {:induction false} NagStepRemovesTraces(s: State, a: Action)
    requires WellNamed(s.objects) && Enabled(s, a) && a.NagStep? && Undisturbed(s, a) && s.objects[a.name].deleting
    ensures forall n :: n in Next(s, a).nodes ==> !HasTrace(a.name, Next(s, a).nodes[n])
  {
    hide HasTrace, BuiltContext, NagNodes, Distinct, Leaks;
    NoFaultNeverLeaks(s, a);
    LeakLeavesTrace(s, a);
  }

  /** A deleted group is let go: one undisturbed step of each controller, in either order, removes both finalizers
      and all traces; without further finalizers the group can then be removed. */
  lemma {:induction false} DeletionCompletes(s: State, first: Action, second: Action)
    requires WellNamed(s.objects) && (first.NagStep? || first.PackLeftStep?) && (second.NagStep? || second.PackLeftStep?)
    requires first.NagStep? != second.NagStep? && first.name == second.name
    requires Enabled(s, first) && Undisturbed(s, first) && s.objects[first.name].deleting
    requires Enabled(Next(s, first), second) && Undisturbed(Next(s, first), second)
    ensures var t := Next(Next(s, first), second);
            && (forall n :: n in t.nodes ==> !HasTrace(first.name, t.nodes[n]))
            && t.objects[first.name].finalizers == OtherFinalizers(s.objects[first.name].finalizers)
            && ((forall f :: f in s.objects[first.name].finalizers ==> f == NAG_FINALIZER || f == PACKLEFT_FINALIZER) ==>
                  Enabled(t, Remove(first.name)))
  {
    hide HasTrace, BuiltContext, Survives, NagNodes, PackLeftNodes, Distinct, CleanAllTarget, Leaks, Without, NoFault;
    var o, t, g := s.objects[first.name], Next(Next(s, first), second), first.name;
    if first.NagStep? {
      NagStepRemovesTraces(s, first);
      PackLeftStepNodes(Next(s, first), second);
    } else {
      NagStepRemovesTraces(Next(s, first), second);
      WithoutCommutes(o.finalizers, NAG_FINALIZER, PACKLEFT_FINALIZER);
    }
    FilterRemoves(o.finalizers, NAG_FINALIZER);
    FilterRemoves(Without(o.finalizers, NAG_FINALIZER), PACKLEFT_FINALIZER);
    if forall f :: f in o.finalizers ==> f == NAG_FINALIZER || f == PACKLEFT_FINALIZER {
      EmptyOrNot(OtherFinalizers(o.finalizers));
    }
  }

  // ----- Letting a group go -----

  /** The allocator's finalizer goes with an accepted step on a deleted group and stays in any other step of a controller. */
  lemma {:induction false} NagFinalizerGoesExactly(s: State, a: Action)
    requires Enabled(s, a) && (a.NagStep? || a.PackLeftStep?) && "nag.finalizer.kube-valet.io" in s.objects[a.name].finalizers
    ensures "nag.finalizer.kube-valet.io" !in Next(s, a).objects[a.name].finalizers <==>
              a.NagStep? && s.objects[a.name].deleting && a.accepted
  {
    hide NagNodes, PackLeftNodes, Distinct, Without, CleanAllTarget;
    var o := s.objects[a.name];
    FilterRemoves(o.finalizers, NAG_FINALIZER);
    if a.PackLeftStep? {
      PackLeftKeepsFinalizer(o, a, s.nodes);
    } else {
      FinalizersGrow(o.finalizers, NAG_FINALIZER, a.accepted);
    }
    hide PackLeftFinalizers, WithFinalizer;
  }

  /** The PackLeft finalizer goes with an accepted step on a deleted group that got to every node to clean, and stays in
      any other step of a controller. */
  lemma {:induction false} PackLeftFinalizerGoesExactly(s: State, a: Action)
    requires Enabled(s, a) && (a.NagStep? || a.PackLeftStep?) && "packleft.nag.finalizer.kube-valet.io" in s.objects[a.name].finalizers
    ensures "packleft.nag.finalizer.kube-valet.io" !in Next(s, a).objects[a.name].finalizers <==>
              a.PackLeftStep? && s.objects[a.name].deleting && a.accepted && CleanAllTarget(s.objects[a.name].group, s.nodes).Keys <= a.done
  {
    hide NagNodes, PackLeftNodes, Distinct, Without, CleanAllTarget;
    var o := s.objects[a.name];
    FilterRemoves(o.finalizers, NAG_FINALIZER);
    FilterRemoves(o.finalizers, PACKLEFT_FINALIZER);
    assert NAG_FINALIZER[0] != PACKLEFT_FINALIZER[0];
  }

  // ----- Taking a group on -----

  /** The cleanup of the reconcile gets to every recorded node. */
  ghost predicate CleansUp(s: State, a: Action)
    requires a.NagStep? && Enabled(s, a)
  {
    var g := s.objects[a.name].group;
    var c := BuiltContext(g, a.down, a.order, s.nodes, a.calls);
    a.cleaned == Run(g, a.down, c.names, Begin(g, c), |c.names|).world.stale
  }

  lemma {:induction false} FirstNagStep(s: State, a: Action)
    requires Enabled(s, a) && a.NagStep? && WellNamed(s.objects) && Owned(s, a.name) && !s.objects[a.name].deleting && a.accepted
    ensures var finalizers := s.objects[a.name].finalizers;
            Next(s, a).objects == s.objects[a.name := s.objects[a.name].(finalizers :=
              if "nag.finalizer.kube-valet.io" in finalizers then finalizers else finalizers + ["nag.finalizer.kube-valet.io"])]
    ensures "nag.finalizer.kube-valet.io" !in s.objects[a.name].finalizers ==> Next(s, a).nodes == s.nodes
  {
    hide HasTrace, NagNodes, BuiltContext, Distinct;
    if NAG_FINALIZER !in s.objects[a.name].finalizers {
      CleanContext(s, a);
      WithoutFinalizer(s.objects[a.name], a, s.nodes);
    }
  }

  lemma {:induction false} UndisturbedNagStep(s: State, a: Action)
    requires Enabled(s, a) && a.NagStep? && !s.objects[a.name].deleting && "nag.finalizer.kube-valet.io" in s.objects[a.name].finalizers
    requires WellFormed(s.objects[a.name].group) && NoFault(a.down) && CleansUp(s, a)
    ensures Next(s, a).nodes == Reconciled(s.objects[a.name].group, a.order, s.nodes)
    ensures Next(s, a).objects == s.objects
  {
    hide Build, Run, Begin, Reconciled, NoFault, WellFormed, Distinct;
    PassIsReconciled(s.objects[a.name].group, a.down, a.order, s.nodes, a.calls);
  }

  /** A group that is not being deleted is taken on: an accepted step of the allocator leaves its finalizer, once, after the
      others, and if it was not there before nothing else; the next undisturbed step reconciles. */
  lemma {:induction false} TakingOnCompletes(s: State, first: Action, second: Action)
    requires Enabled(s, first) && first.NagStep? && WellNamed(s.objects) && Owned(s, first.name)
    requires !s.objects[first.name].deleting && first.accepted && WellFormed(s.objects[first.name].group)
    requires Enabled(Next(s, first), second) && second.NagStep? && second.name == first.name
    requires NoFault(second.down) && CleansUp(Next(s, first), second)
    ensures var t := Next(Next(s, first), second);
            var finalizers := s.objects[first.name].finalizers;
            && first.name in t.objects
            && t.objects[first.name].finalizers ==
                 (if "nag.finalizer.kube-valet.io" in finalizers then finalizers else finalizers + ["nag.finalizer.kube-valet.io"])
            && ("nag.finalizer.kube-valet.io" !in finalizers ==> Next(s, first).nodes == s.nodes)
            && t.nodes == Reconciled(s.objects[first.name].group, second.order, Next(s, first).nodes)
  {
    FirstNagStep(s, first);
    hide Owned, Next, WellFormed, Reconciled, CleansUp, NoFault, WellNamed, Distinct, HasTrace;
    UndisturbedNagStep(Next(s, first), second);
  }

  /** An accepted step of the PackLeft controller that gets to the end leaves its finalizer, once, after the others, and
      the nodes as one pass has them. */
  lemma {:induction false} PackLeftTakesOn(s: State, a: Action)
    requires Enabled(s, a) && a.PackLeftStep? && !s.objects[a.name].deleting && a.accepted && s.nodes.Keys <= a.done
    ensures var finalizers := s.objects[a.name].finalizers;
            Next(s, a).objects[a.name].finalizers ==
              if "packleft.nag.finalizer.kube-valet.io" in finalizers then finalizers else finalizers + ["packleft.nag.finalizer.kube-valet.io"]
    ensures Next(s, a).nodes == Packed(s.objects[a.name].group, a.order, s.nodes, a.full)
  {
    hide PackedNode, Distinct, CleanAllTarget;
  }

  lemma {:induction false} EmptyOrNot(finalizers: seq<string>)
    ensures finalizers == [] || exists f :: f in finalizers
  {
    if finalizers != [] {
      assert finalizers[0] in finalizers;
    }
  }

  // ----- A leak -----

  function LeakGroup(): Group { Group("g", map[], [], None) }

  function LeakNode(): Node { Node(map[AssignmentKey("g") := "a"], [], Status(false, [], 1, 1)) }

  /** A deleted group and one node labelled by it. */
  function LeakState(): State {
    State(map["g" := Object(LeakGroup(), [NAG_FINALIZER], true)], map["n" := LeakNode()])
  }

  /** The listing succeeds, the update of the node, the second call, does not. */
  function LeakStep(): Action { NagStep("g", ["n"], (k: nat) => k == 1, 0, {}, true) }

  lemma {:induction false} LeakContext()
    ensures BuiltContext(LeakGroup(), LeakStep().down, LeakStep().order, LeakState().nodes, LeakStep().calls).world.nodes == LeakState().nodes
    ensures BuiltContext(LeakGroup(), LeakStep().down, LeakStep().order, LeakState().nodes, LeakStep().calls).world.calls == 0
  {
    var g, nodes := LeakGroup(), LeakState().nodes;
    var start := World(nodes, 0, {});
    var c := Build(g, LeakStep().down, ["n"], start, 0);
    assert Build(g, LeakStep().down, ["n"], start, 1) == Admit(g, LeakStep().down, c, "n", nodes["n"]);
    hide Build;
    KeysAreDistinct("g", "g");
    UnassignedHasNoLabel(g, LeakNode());
    assert Targets(g, LeakNode().labels) && Targets(g, Unassigned(g, LeakNode()).labels);
  }

  lemma {:induction false} LeakStateIsFine()
    ensures Inv(LeakState()) && Enabled(LeakState(), LeakStep())
  {
    var s := LeakState();
    forall g | HasTrace(g, LeakNode()) ensures g == "g" {
      KeysAreDistinct("g", g);
    }
    hide HasTrace, GroupKeys;
    assert LeakStep().order[0] == "n";
  }

  lemma {:induction false} LeakHappens()
    requires Enabled(LeakState(), LeakStep())
    ensures Leaks(LeakState(), LeakStep())
  {
    var s, a := LeakState(), LeakStep();
    LeakContext();
    LabelIsTrace(LeakGroup(), LeakNode());
    hide BuiltContext, HasTrace;
    var w := BuiltContext(LeakGroup(), a.down, a.order, s.nodes, a.calls).world;
    assert a.order[0] == "n";
    assert Survives(LeakGroup(), a.down, a.order, w, 0);
  }

  lemma {:induction false} LastFinalizerGoes(f: string)
    ensures Without([f], f) == []
  {
    FilterRemoves([f], f);
    EmptyOrNot(Without([f], f));
    hide Without;
  }

  /** The trace is still there when the group is gone. */
  lemma {:induction false} RefusedSweepLeaks()
    ensures var s, a := LeakState(), LeakStep();
            && Inv(s) && Enabled(s, a) && Leaks(s, a)
            && Enabled(Next(s, a), Remove("g"))
            && var t := Next(Next(s, a), Remove("g"));
            "g" !in t.objects && exists n :: n in t.nodes && HasTrace("g", t.nodes[n])
  {
    hide BuiltContext, Survives, HasTrace, NagNodes, Without, Inv, Leaks;
    LeakStateIsFine();
    LeakHappens();
    LeakLeavesTrace(LeakState(), LeakStep());
    LastFinalizerGoes(NAG_FINALIZER);
  }
}

/** The PackLeft balancer (pkg/controller/scheduling/packleft/manager.go): it works on a cached copy of
    the nodes, patches the API, and goes over its caches and maps in any order. */
module PackLeftManagers {
  import opened Cluster
  import opened Groups
  import opened Lists
  import opened Ranking
  import opened Reconciling
  import opened PackLeftPass
  import opened PodIndex
  import Float32

  /** Allocatable resources of every node that can be balanced are positive. */
  ghost predicate Sized(nodes: map<string, Node>) {
    forall n :: n in nodes && CanBeBalanced(nodes[n].status) ==> HasSize(nodes[n].status)
  }

  predicate HasSize(status: Status) { status.memory > 0 && status.milliCpu > 0 }

  function FullnessOf(nodes: map<string, Node>, pods: seq<Pod>): map<string, real> {
    map n | n in nodes && HasSize(nodes[n].status) :: Fullness(nodes[n].status, PodsOn(pods, n))
  }

  /** The stored nodes with those in `done` replaced by their target. */
  function Overlay(stored: map<string, Node>, target: map<string, Node>, done: set<string>): map<string, Node> {
    map n | n in stored :: if n in done && n in target then target[n] else stored[n]
  }

  lemma {:induction false} OverlayOne(stored: map<string, Node>, target: map<string, Node>, done: set<string>, n: string)
    requires n in stored && n in target
    ensures Overlay(stored, target, done)[n := target[n]] == Overlay(stored, target, done + {n})
  {
  }

  lemma {:induction false} OverlayNothing(stored: map<string, Node>, target: map<string, Node>)
    ensures Overlay(stored, target, {}) == stored
  {
  }

  lemma {:induction false} EmptyPatchChangesNothing(current: Node, before: Node, after: Node)
    requires IsEmptyPatch(before, after)
    ensures ApplyPatch(current, before, after) == current
  {
    assert PatchLabels(current.labels, before.labels, after.labels) == current.labels;
  }

  // ----- Search loops -----

  method NodeHasPackLeftAttributes(g: Group, node: Node) returns (has: bool)
    ensures has == HasPackLeftAttributes(g, node)
  {
    var key := PackLeftKey(g.name);
    var todo := node.labels.Keys;
    while todo != {}
      invariant todo <= node.labels.Keys && key !in node.labels.Keys - todo
    {
      var k :| k in todo;
      if k == key {
        return true;
      }
      todo := todo - {k};
    }
    for i := 0 to |node.taints|
      invariant forall j :: 0 <= j < i ==> node.taints[j].key != key
    {
      if node.taints[i].key == key {
        return true;
      }
    }
    return false;
  }

  method NodeHasPackLeftAssignment(g: Group, node: Node) returns (has: bool)
    ensures has == HasPackLeftAssignment(g, node)
  {
    var assignments := AllAssignments(g);
    var na := LabelOf(g, node);
    hide LabelOf, AllAssignments;
    if na.Some? {
      for i := 0 to |assignments|
        invariant forall j :: 0 <= j < i ==> !(assignments[j].name == na.value && assignments[j].packed)
      {
        if na.value == assignments[i].name && assignments[i].packed {
          return true;
        }
      }
    }
    return false;
  }

  lemma {:induction false} ReadyFrom(conditions: seq<Condition>, i: nat)
    requires i <= |conditions| && forall j :: 0 <= j < i ==> conditions[j].kind != "Ready"
    ensures IsReady(conditions) == IsReady(conditions[i..])
  {
    if i > 0 {
      ReadyFrom(conditions[1..], i - 1);
      assert conditions[1..][i - 1..] == conditions[i..];
    } else {
      assert conditions[0..] == conditions;
    }
  }

  method NodeCanBeBalanced(status: Status) returns (can: bool)
    ensures can == CanBeBalanced(status)
  {
    var ready := false;
    var conditions := status.conditions;
    var i := 0;
    while i < |conditions|
      invariant 0 <= i <= |conditions| && !ready
      invariant forall j :: 0 <= j < i ==> conditions[j].kind != "Ready"
    {
      if conditions[i].kind == "Ready" {
        ready := conditions[i].status == "True";
        break;
      }
      i := i + 1;
    }
    ReadyFrom(conditions, i);
    can := !status.unschedulable && ready;
  }

  lemma {:induction false} FirstNamedFrom(assignments: seq<Assignment>, name: string, i: nat)
    requires i <= |assignments| && forall j :: 0 <= j < i ==> assignments[j].name != name
    ensures FirstNamed(assignments, name) == FirstNamed(assignments[i..], name)
  {
    if i > 0 {
      FirstNamedFrom(assignments[1..], name, i - 1);
      assert assignments[1..][i - 1..] == assignments[i..];
    } else {
      assert assignments[0..] == assignments;
    }
  }

  method GetAssignmentByName(name: string, g: Group) returns (a: Option<Assignment>)
    ensures a == FirstNamed(AllAssignments(g), name)
  {
    var assignments := AllAssignments(g);
    for i := 0 to |assignments|
      invariant forall j :: 0 <= j < i ==> assignments[j].name != name
    {
      if assignments[i].name == name {
        FirstNamedFrom(assignments, name, i);
        return Some(assignments[i]);
      }
    }
    FirstNamedFrom(assignments, name, |assignments|);
    return None;
  }

  // ----- One node -----

  lemma {:induction false} SpliceIsWithoutFirst(taints: seq<Taint>, key: string, i: nat)
    requires i <= |taints| && forall j :: 0 <= j < i ==> taints[j].key != key
    requires i < |taints| ==> taints[i].key == key
    ensures WithoutFirst(taints, key) == if i < |taints| then taints[..i] + taints[i + 1..] else taints
  {
    if i == 0 {
      if taints != [] {
        assert taints[..0] + taints[1..] == taints[1..];
      }
    } else {
      var rest := taints[1..];
      SpliceIsWithoutFirst(rest, key, i - 1);
      assert WithoutFirst(taints, key) == [taints[0]] + WithoutFirst(rest, key);
      hide WithoutFirst;
      if i < |taints| {
        assert rest[..i - 1] == taints[1..i] && rest[i..] == taints[i + 1..];
        assert taints[..i] == [taints[0]] + taints[1..i];
      } else {
        assert [taints[0]] + rest == taints;
      }
    }
  }

  method RemoveTaint(node: NodeObject, key: string)
    modifies node`taints
    ensures node.taints == WithoutFirst(old(node.taints), key)
  {
    var index, found := 0, false;
    while index < |node.taints|
      invariant index <= |node.taints| && !found
      invariant forall j :: 0 <= j < index ==> node.taints[j].key != key
    {
      if node.taints[index].key == key {
        found := true;
        break;
      }
      index := index + 1;
    }
    SpliceIsWithoutFirst(node.taints, key, index);
    if found {
      node.taints := node.taints[..index] + node.taints[index + 1..];
    }
  }

  method AssignNode(g: Group, node: NodeObject, state: PackState) returns (newNode: NodeObject)
    ensures fresh(newNode) && newNode.name == node.name
    ensures newNode.Value() == WithState(g, state, node.Value())
  {
    var key := PackLeftKey(g.name);
    newNode := node.DeepCopy();
    newNode.labels := newNode.labels[key := StateValue(state)];
    RemoveTaint(newNode, key);
    if state != Use {
      var effect := if state == Deny then NoSchedule else PreferNoSchedule;
      newNode.taints := newNode.taints + [Taint(key, StateValue(state), effect)];
    }
  }

  method UnassignNode(g: Group, node: NodeObject) returns (newNode: NodeObject)
    ensures fresh(newNode) && newNode.name == node.name
    ensures newNode.Value() == WithoutState(g, node.Value())
  {
    newNode := node.DeepCopy();
    newNode.labels := newNode.labels - {PackLeftKey(g.name)};
    RemoveTaint(newNode, PackLeftKey(g.name));
  }

  // ----- The manager -----

  /** `index` and `pods` are the caches one pass reads. */
  class Manager {
    const api: ApiServer
    const index: map<string, Node>
    const pods: seq<Pod>

    constructor (api: ApiServer, index: map<string, Node>, pods: seq<Pod>)
      ensures this.api == api && this.index == index && this.pods == pods
    {
      this.api, this.index, this.pods := api, index, pods;
    }

    /** The cached nodes, in an order that may be different every time. */
    method List() returns (order: seq<string>)
      ensures IsListing(order, index)
    {
      order := [];
      var todo := index.Keys;
      while todo != {}
        invariant todo <= index.Keys && Distinct(order)
        invariant forall n :: n in order <==> n in index.Keys - todo
      {
        var n :| n in todo;
        todo := todo - {n};
        DistinctAppend(order, n);
        order := order + [n];
      }
    }

    /** Sends the difference to the API, unless there is none. */
    method PatchNodeState(oldNode: NodeObject, newNode: NodeObject) returns (ok: bool)
      requires oldNode.name in api.nodes
      modifies api`nodes, api`calls
      ensures ok == (IsEmptyPatch(oldNode.Value(), newNode.Value()) || !api.down(old(api.calls)))
      ensures api.nodes == if ok then old(api.nodes)[oldNode.name :=
                                        ApplyPatch(old(api.nodes)[oldNode.name], oldNode.Value(), newNode.Value())]
                           else old(api.nodes)
    {
      ok := true;
      if IsEmptyPatch(oldNode.Value(), newNode.Value()) {
        EmptyPatchChangesNothing(api.nodes[oldNode.name], oldNode.Value(), newNode.Value());
      } else {
        ok := api.Patch(oldNode.name, oldNode.Value(), newNode.Value());
      }
    }

    /** Writes a state to a node whose cached version is current. */
    method SaveState(g: Group, n: string, state: PackState) returns (ok: bool)
      requires n in index && n in api.nodes && api.nodes[n] == index[n]
      modifies api`nodes, api`calls
      ensures NoFault(api.down) ==> ok
      ensures api.nodes == if ok then old(api.nodes)[n := WithState(g, state, index[n])] else old(api.nodes)
    {
      hide WithState;
      var node := new NodeObject(n, index[n]);
      var newNode := AssignNode(g, node, state);
      WithStateKeepsStatus(g, state, index[n]);
      PatchFromCurrent(index[n], newNode.Value());
      hide ApplyPatch;
      ok := PatchNodeState(node, newNode);
    }

    /** Removes the packleft attributes of a node whose cached version is current. */
    method SaveClean(g: Group, n: string) returns (ok: bool)
      requires n in index && n in api.nodes && api.nodes[n] == index[n]
      modifies api`nodes, api`calls
      ensures NoFault(api.down) ==> ok
      ensures api.nodes == if ok then old(api.nodes)[n := WithoutState(g, index[n])] else old(api.nodes)
    {
      var node := new NodeObject(n, index[n]);
      var newNode := UnassignNode(g, node);
      PatchFromCurrent(index[n], newNode.Value());
      hide ApplyPatch, WithoutState;
      ok := PatchNodeState(node, newNode);
    }

    // ----- Groups of nodes -----

    method GetTargetedNodes(g: Group) returns (names: seq<string>, ghost order: seq<string>)
      ensures IsListing(order, index) && names == Filter(IsTarget(g, index), order)
      ensures Distinct(names) && forall n :: n in names <==> n in index && Targets(g, index[n].labels)
    {
      hide Distinct, Targets, Filter;
      var listed := List();
      ListedTargets(g, index, listed);
      order, names := listed, [];
      FilterNothing(IsTarget(g, index), []);
      for i := 0 to |listed|
        invariant names == Filter(IsTarget(g, index), listed[..i])
      {
        FilterAppend(IsTarget(g, index), listed[..i], listed[i]);
        assert listed[..i + 1] == listed[..i] + [listed[i]];
        var targets := TargetsNode(g, index[listed[i]]);
        if targets {
          names := names + [listed[i]];
        }
      }
      assert listed[..|listed|] == listed;
    }

    /** The targeted nodes of every PackLeft assignment: each group in list order, no group empty, and every
        such node in exactly one group. */
    method GetPackLeftNodeGroups(g: Group) returns (groups: map<string, seq<string>>, ghost order: seq<string>)
      ensures IsListing(order, index)
      ensures forall c :: c in groups ==> groups[c] == Members(g, order, index, c)
      ensures forall c :: c in groups <==> Members(g, order, index, c) != []
      ensures forall c :: c in groups ==> groups[c] != [] && Distinct(groups[c])
      ensures forall n :: n in index && Targets(g, index[n].labels) && PackedAssignment(g, index[n]).Some? ==>
                PackedAssignment(g, index[n]).value.name in groups
      ensures forall c, n :: c in groups ==>
                (n in groups[c] <==> n in index && Targets(g, index[n].labels) && PackedAssignment(g, index[n]).Some?
                                     && PackedAssignment(g, index[n]).value.name == c)
    {
      hide PackedAssignment, AllAssignments, AreGroups, IsTarget, Members, Distinct;
      var names;
      names, order := GetTargetedNodes(g);
      FilterMembers(IsTarget(g, index), order);
      TargetsAreKnown(g, index);
      hide Filter;
      groups := map[];
      NoGroups(g, index);
      assert names[..0] == [];
      for i := 0 to |names|
        invariant AreGroups(g, index, names[..i], groups)
      {
        assert names[..i + 1] == names[..i] + [names[i]];
        groups := AddToGroup(g, names[..i], groups, names[i]);
      }
      assert names[..|names|] == names;
      GroupsAreMembers(g, index, order, groups);
      GroupsPartition(g, index, order, groups);
    }

    method AddToGroup(g: Group, ghost before: seq<string>, groups: map<string, seq<string>>, n: string) returns (r: map<string, seq<string>>)
      requires n in index && AreGroups(g, index, before, groups)
      ensures AreGroups(g, index, before + [n], r)
    {
      GroupStep(g, index, before, groups, n);
      r := groups;
      var c := LabelOf(g, index[n]);
      hide AreGroups, LabelOf, AllAssignments;
      if c.Some? {
        var a := GetAssignmentByName(c.value, g);
        if a.Some? && a.value.packed {
          r := groups[c.value := (if c.value in groups then groups[c.value] else []) + [n]];
        }
      }
    }

    // ----- Balancing -----

    ghost function Full(): map<string, real> { FullnessOf(index, pods) }

    /** The balanceable nodes among the given ones, with how full they are. */
    method RankNodes(names: seq<string>) returns (ranked: seq<Ranked>)
      requires Sized(index) && forall n :: n in names ==> n in index
      ensures ranked == RankedNodes(Filter(Balanceable(index), names), Full())
    {
      hide CanBeBalanced, Fullness;
      var pon := GetPodsOnNodes(pods);
      ranked := [];
      for i := 0 to |names|
        invariant ranked == RankedNodes(Filter(Balanceable(index), names[..i]), Full())
      {
        var n := names[i];
        assert names[..i + 1] == names[..i] + [n];
        FilterAppend(Balanceable(index), names[..i], n);
        var can := NodeCanBeBalanced(index[n].status);
        if can {
          var full := NodeFullness(index[n].status, n, pon, pods);
          ranked := ranked + [Ranked(n, full)];
        }
      }
      assert names[..|names|] == names;
    }

    /** Size of the avoid buffer among n nodes. */
    method AvoidBufferSize(a: Assignment, n: nat) returns (size: nat)
      ensures size == Buffer(a, n)
    {
      var avoid: int := 0;
      if a.packLeft.Some? {
        if a.packLeft.value.percentAvoid.Some? {
          avoid := Float32.Percent(n, a.packLeft.value.percentAvoid.value);
        }
        if a.packLeft.value.numAvoid > avoid {
          avoid := a.packLeft.value.numAvoid;
        }
      }
      if avoid < 1 {
        avoid := 1;
      }
      size := avoid;
    }

    /** Sorts the nodes of one assignment and hands out Use, Avoid and Deny. Refused calls are ignored;
        `done` are the nodes brought to their state. */
    method BalanceNodes(g: Group, names: seq<string>, a: Assignment) returns (ghost done: set<string>)
      requires Sized(index) && Distinct(names) && forall n :: n in names ==> n in index && n in api.nodes && api.nodes[n] == index[n]
      modifies api`nodes, api`calls
      ensures var target := BalancedNodes(g, names, index, Full(), a);
              && api.nodes == Overlay(old(api.nodes), target, done)
              && done <= target.Keys && (NoFault(api.down) ==> done == target.Keys)
    {
      hide FullnessOf, CanBeBalanced, Balanceable, RankedNodes, AimedAt, Sorted, Filter, Distinct, Buffer, FullLimit, NamesIn;
      var ranked := RankNodes(names);
      ghost var target := BalancedNodes(g, names, index, Full(), a);
      RankedAreAimed(g, names, index, Full(), a);
      OverlayNothing(api.nodes, target);
      BalancedKeys(g, names, index, Full(), a);
      AimIsComplete(g, ranked, index, FullLimit(a), Buffer(a, |names|), target);
      hide BalancedNodes;
      done := {};
      if |ranked| < 1 {
        return;
      }
      SortKeepsAim(g, ranked, index, FullLimit(a), Buffer(a, |names|), target);
      ranked := Sort(ranked);
      var buffer := AvoidBufferSize(a, |names|);
      done := Scan(g, ranked, FullLimit(a), buffer, target);
    }

    /** The fullest node is used whatever its fullness; the others are used if above the limit, avoided
        as long as the buffer has room, and denied after that. */
    method Scan(g: Group, sorted: seq<Ranked>, limit: real, buffer: nat, ghost target: map<string, Node>) returns (ghost done: set<string>)
      requires sorted != [] && Sorted(sorted) && AimedAt(g, sorted, index, limit, buffer, target)
      requires forall n :: n in target ==> n in index && n in api.nodes && api.nodes[n] == index[n]
      modifies api`nodes, api`calls
      ensures api.nodes == Overlay(old(api.nodes), target, done)
      ensures done <= target.Keys && (NoFault(api.down) ==> done == target.Keys)
    {
      hide WithState, Sorted, AvoidedBefore, UseBlock, Overlay, NamesIn, AimedAt, StateByRank, ScanOne, NoFault;
      OverlayNothing(api.nodes, target);
      ScanTurn(g, sorted, index, limit, buffer, target, 0, 0);
      var ok := SaveState(g, sorted[0].name, Use);
      done := {};
      if ok {
        OverlayOne(old(api.nodes), target, done, sorted[0].name);
        done := done + {sorted[0].name};
      }
      var avoidCount := 0;
      for i := 1 to |sorted|
        invariant avoidCount == AvoidedBefore(limit, sorted, buffer, i)
        invariant api.nodes == Overlay(old(api.nodes), target, done)
        invariant done <= NamesIn(sorted[..i]) && (NoFault(api.down) ==> done == NamesIn(sorted[..i]))
      {
        ScanTurn(g, sorted, index, limit, buffer, target, i, avoidCount);
        var x := sorted[i];
        NotYetDone(old(api.nodes), target, done, x.name);
        assert ScanOne(i, x.full, limit, avoidCount, buffer) ==
                 if x.full > limit then Use else if avoidCount < buffer then Avoid else Deny by {
          ScanOneAfterFirst(i, x.full, limit, avoidCount, buffer);
        }
        var state;
        if x.full > limit {
          state := Use;
        } else if avoidCount < buffer {
          state := Avoid;
          avoidCount := avoidCount + 1;
        } else {
          state := Deny;
        }
        ok := SaveState(g, x.name, state);
        if ok {
          OverlayOne(old(api.nodes), target, done, x.name);
          done := done + {x.name};
        }
      }
      assert sorted[..|sorted|] == sorted;
      AimIsComplete(g, sorted, index, limit, buffer, target);
    }

    // ----- Passes -----

    /** Balances the groups in any order. */
    method RebalanceNag(g: Group) returns (ghost done: set<string>, ghost order: seq<string>)
      requires Sized(index) && api.nodes == index
      modifies api`nodes, api`calls
      ensures IsListing(order, index)
      ensures var target := RebalanceTarget(g, order, index, Full());
              && api.nodes == Overlay(index, target, done)
              && done <= target.Keys && (NoFault(api.down) ==> done == target.Keys)
    {
      hide RebalanceTarget, Members, Overlay, BalancedNodes, FullnessOf, PackedAssignment, Distinct, NoFault, CanBeBalanced;
      var groups;
      groups, order := GetPackLeftNodeGroups(g);
      ghost var target := RebalanceTarget(g, order, index, Full());
      var todo := groups.Keys;
      done := {};
      OverlayNothing(index, target);
      NothingBalanced(g, order, index, Full(), todo);
      hide HandledUpTo;
      while todo != {}
        invariant todo <= groups.Keys
        invariant api.nodes == Overlay(index, target, done)
        invariant HandledUpTo(g, index, target, done, todo, NoFault(api.down))
      {
        var c :| c in todo;
        var handled := RebalanceGroup(g, c, groups[c], order, target, done, todo);
        done := done + handled;
        todo := todo - {c};
      }
      AllHandled(g, index, target, done, NoFault(api.down));
    }

    method RebalanceGroup(g: Group, c: string, nodes: seq<string>, ghost order: seq<string>, ghost target: map<string, Node>,
                          ghost done: set<string>, ghost todo: set<string>) returns (ghost handled: set<string>)
      requires Sized(index) && IsListing(order, index) && nodes == Members(g, order, index, c) && nodes != [] && c in todo
      requires target == RebalanceTarget(g, order, index, Full())
      requires api.nodes == Overlay(index, target, done)
      requires HandledUpTo(g, index, target, done, todo, NoFault(api.down))
      modifies api`nodes, api`calls
      ensures api.nodes == Overlay(index, target, done + handled)
      ensures HandledUpTo(g, index, target, done + handled, todo - {c}, NoFault(api.down))
    {
      hide RebalanceTarget, Members, Overlay, BalancedNodes, FullnessOf, PackedAssignment, Distinct, AllAssignments, NoFault, HandledUpTo, CanBeBalanced;
      handled := {};
      MembersFacts(g, order, index, c);
      var a := GetAssignmentByName(c, g);
      GroupTarget(g, order, index, Full(), c);
      GroupIsCurrent(g, index, target, done, todo, NoFault(api.down), nodes, c);
      handled := BalanceNodes(g, nodes, a.value);
      OverlayMore(index, target, done, BalancedNodes(g, nodes, index, Full(), a.value), handled);
      HandledGroup(g, index, target, done, todo, NoFault(api.down), BalancedNodes(g, nodes, index, Full(), a.value), handled, c);
    }

    /** Cleans, one after the other, the nodes with packleft attributes but no PackLeft assignment; refusals are ignored. */
    method CleanUnassignedNodes(g: Group) returns (ghost done: set<string>)
      requires forall n :: n in CleanTarget(g, index) ==> n in api.nodes && api.nodes[n] == index[n]
      modifies api`nodes, api`calls
      ensures api.nodes == Overlay(old(api.nodes), CleanTarget(g, index), done)
      ensures done <= CleanTarget(g, index).Keys && (NoFault(api.down) ==> done == CleanTarget(g, index).Keys)
    {
      hide Overlay, WithoutState, HasPackLeftAssignment, HasPackLeftAttributes, NoFault, CleanTarget;
      var order := List();
      ghost var target := CleanTarget(g, index);
      CleanTargetFacts(g, index);
      done := {};
      OverlayNothing(api.nodes, target);
      for i := 0 to |order|
        invariant api.nodes == Overlay(old(api.nodes), target, done)
        invariant forall n :: n in done ==> n in target && n in order[..i]
        invariant NoFault(api.down) ==> forall n :: n in target && n in order[..i] ==> n in done
      {
        var n := order[i];
        assert order[..i + 1] == order[..i] + [n];
        assert n !in order[..i];
        var isPacked := NodeHasPackLeftAssignment(g, index[n]);
        var attributes := NodeHasPackLeftAttributes(g, index[n]);
        if !isPacked && attributes {
          NotYetDone(old(api.nodes), target, done, n);
          var ok := SaveClean(g, n);
          if ok {
            OverlayOne(old(api.nodes), target, done, n);
            done := done + {n};
          }
        }
      }
      assert order[..|order|] == order;
    }

    /** The cleaning of a group that is being deleted. The first refused call ends it. */
    method CleanAllNodes(g: Group) returns (ok: bool, ghost done: set<string>)
      requires api.nodes == index
      modifies api`nodes, api`calls
      ensures api.nodes == Overlay(index, CleanAllTarget(g, index), done) && done <= CleanAllTarget(g, index).Keys
      ensures ok ==> done == CleanAllTarget(g, index).Keys
      ensures NoFault(api.down) ==> ok
    {
      hide Overlay, WithoutState, HasPackLeftAssignment, HasPackLeftAttributes, NoFault, CanBeBalanced, CleanAllTarget;
      var order := List();
      ghost var target := CleanAllTarget(g, index);
      CleanAllTargetFacts(g, index);
      done, ok := {}, true;
      OverlayNothing(api.nodes, target);
      for i := 0 to |order|
        invariant ok && api.nodes == Overlay(index, target, done)
        invariant forall n :: n in done <==> n in target && n in order[..i]
      {
        var n := order[i];
        assert order[..i + 1] == order[..i] + [n];
        assert n !in order[..i];
        var isPacked := NodeHasPackLeftAssignment(g, index[n]);
        var attributes := NodeHasPackLeftAttributes(g, index[n]);
        var can := NodeCanBeBalanced(index[n].status);
        if (!isPacked && attributes) || !can {
          NotYetDone(index, target, done, n);
          ok := SaveClean(g, n);
          if !ok {
            return;
          }
          OverlayOne(index, target, done, n);
          done := done + {n};
        }
      }
      assert order[..|order|] == order;
    }

    /** What the controller does with a group that is not being deleted. */
    method RebalanceAndClean(g: Group) returns (ghost done: set<string>, ghost order: seq<string>)
      requires Sized(index) && api.nodes == index
      modifies api`nodes, api`calls
      ensures IsListing(order, index)
      ensures api.nodes == Overlay(index, Packed(g, order, index, Full()), done)
      ensures NoFault(api.down) ==> forall order :: IsListing(order, index) ==> api.nodes == Packed(g, order, index, Full())
    {
      hide Packed, RebalanceTarget, CleanTarget, Overlay, FullnessOf, CanBeBalanced, NoFault, IsListing;
      done, order := RebalanceNag(g);
      ghost var rebalanced, cleaned := RebalanceTarget(g, order, index, Full()), CleanTarget(g, index);
      TargetsAreApart(g, order, index, Full(), done);
      ghost var more := CleanUnassignedNodes(g);
      TargetsMakePacked(g, order, index, Full(), done, more);
      done := done + more;
      if NoFault(api.down) {
        forall order' | IsListing(order', index) ensures Packed(g, order, index, Full()) == Packed(g, order', index, Full()) {
          PassIsOrderFree(g, order, order', index, Full());
        }
      }
    }
  }

  function CleanTarget(g: Group, nodes: map<string, Node>): map<string, Node> {
    map n | n in nodes && IsCleaned(g, nodes[n]) :: WithoutState(g, nodes[n])
  }

  /** On deletion nodes that cannot be balanced lose their state as well, whatever they are assigned to. */
  function CleanAllTarget(g: Group, nodes: map<string, Node>): map<string, Node> {
    map n | n in nodes && (IsCleaned(g, nodes[n]) || !CanBeBalanced(nodes[n].status)) :: WithoutState(g, nodes[n])
  }

  lemma {:induction false} CleanTargetFacts(g: Group, nodes: map<string, Node>)
    ensures forall n :: n in CleanTarget(g, nodes) <==> n in nodes && !HasPackLeftAssignment(g, nodes[n]) && HasPackLeftAttributes(g, nodes[n])
    ensures forall n :: n in CleanTarget(g, nodes) ==> n in nodes && CleanTarget(g, nodes)[n] == WithoutState(g, nodes[n])
  {
    hide HasPackLeftAssignment, HasPackLeftAttributes, WithoutState;
  }

  lemma {:induction false} CleanAllTargetFacts(g: Group, nodes: map<string, Node>)
    ensures forall n :: n in CleanAllTarget(g, nodes) <==>
              (n in nodes && ((!HasPackLeftAssignment(g, nodes[n]) && HasPackLeftAttributes(g, nodes[n])) || !CanBeBalanced(nodes[n].status)))
    ensures forall n :: n in CleanAllTarget(g, nodes) ==> n in nodes && CleanAllTarget(g, nodes)[n] == WithoutState(g, nodes[n])
  {
    hide HasPackLeftAssignment, HasPackLeftAttributes, WithoutState, CanBeBalanced;
  }

  lemma {:induction false} TargetsAreApart(g: Group, order: seq<string>, nodes: map<string, Node>, full: map<string, real>, done: set<string>)
    requires done <= RebalanceTarget(g, order, nodes, full).Keys
    ensures forall n :: n in CleanTarget(g, nodes) ==>
              n in nodes && n in Overlay(nodes, RebalanceTarget(g, order, nodes, full), done)
              && Overlay(nodes, RebalanceTarget(g, order, nodes, full), done)[n] == nodes[n]
  {
    hide IsPacked, IsCleaned, WithState, WithoutState, StateIn, PackedAssignment;
    forall n | n in CleanTarget(g, nodes) ensures n in nodes && n !in done {
      PatchesAreDisjoint(g, nodes[n]);
    }
  }

  lemma {:induction false} TargetsMakePacked(g: Group, order: seq<string>, nodes: map<string, Node>, full: map<string, real>,
                                             done: set<string>, more: set<string>)
    requires done <= RebalanceTarget(g, order, nodes, full).Keys && more <= CleanTarget(g, nodes).Keys
    ensures Overlay(Overlay(nodes, RebalanceTarget(g, order, nodes, full), done), CleanTarget(g, nodes), more)
         == Overlay(nodes, Packed(g, order, nodes, full), done + more)
    ensures done == RebalanceTarget(g, order, nodes, full).Keys && more == CleanTarget(g, nodes).Keys ==>
              Overlay(nodes, Packed(g, order, nodes, full), done + more) == Packed(g, order, nodes, full)
  {
    hide IsPacked, IsCleaned, WithState, WithoutState, StateIn;
    forall n | n in nodes ensures !(IsPacked(g, nodes[n]) && IsCleaned(g, nodes[n])) {
      PatchesAreDisjoint(g, nodes[n]);
    }
  }

  /** What rebalancing the whole group aims at. */
  function RebalanceTarget(g: Group, order: seq<string>, nodes: map<string, Node>, full: map<string, real>): map<string, Node> {
    map n | n in nodes && IsPacked(g, nodes[n]) :: WithState(g, StateIn(g, order, nodes, full, n), nodes[n])
  }

  /** `done` holds targets of handled assignments only, and all of them if no call was refused. */
  ghost predicate HandledUpTo(g: Group, nodes: map<string, Node>, target: map<string, Node>, done: set<string>, todo: set<string>, noFault: bool) {
    && (forall n :: n in target ==> n in nodes && PackedAssignment(g, nodes[n]).Some?)
    && (forall n :: n in done ==> n in target && PackedAssignment(g, nodes[n]).value.name !in todo)
    && (noFault ==> forall n :: n in target && PackedAssignment(g, nodes[n]).value.name !in todo ==> n in done)
  }

  lemma {:induction false} NothingBalanced(g: Group, order: seq<string>, nodes: map<string, Node>, full: map<string, real>, todo: set<string>)
    requires IsListing(order, nodes) && forall c :: Members(g, order, nodes, c) != [] ==> c in todo
    ensures HandledUpTo(g, nodes, RebalanceTarget(g, order, nodes, full), {}, todo, true)
    ensures HandledUpTo(g, nodes, RebalanceTarget(g, order, nodes, full), {}, todo, false)
  {
    hide WithState, StateIn, Members, PackedAssignment, Targets, CanBeBalanced, Distinct;
    forall n | n in nodes && IsPacked(g, nodes[n]) ensures PackedAssignment(g, nodes[n]).value.name in todo {
      MembersFacts(g, order, nodes, PackedAssignment(g, nodes[n]).value.name);
    }
  }

  lemma {:induction false} AllHandled(g: Group, nodes: map<string, Node>, target: map<string, Node>, done: set<string>, noFault: bool)
    requires HandledUpTo(g, nodes, target, done, {}, noFault)
    ensures done <= target.Keys && (noFault ==> done == target.Keys)
  {
    hide PackedAssignment;
  }

  lemma {:induction false} MembersFacts(g: Group, order: seq<string>, nodes: map<string, Node>, c: string)
    requires IsListing(order, nodes)
    ensures Distinct(Members(g, order, nodes, c))
    ensures forall n :: n in Members(g, order, nodes, c) <==>
              n in nodes && Targets(g, nodes[n].labels) && PackedAssignment(g, nodes[n]).Some? && PackedAssignment(g, nodes[n]).value.name == c
  {
    FilterDistinct(IsMember(g, nodes, c), order);
    FilterMembers(IsMember(g, nodes, c), order);
    hide Filter, Targets, PackedAssignment, Distinct;
  }

  lemma {:induction false} SameAssignment(g: Group, node: Node, c: string)
    requires PackedAssignment(g, node).Some? && PackedAssignment(g, node).value.name == c
    ensures FirstNamed(AllAssignments(g), c) == PackedAssignment(g, node)
  {
    hide AllAssignments, LabelOf;
  }

  /** Balancing the nodes of one assignment aims at its part of the whole target. */
  lemma {:induction false} GroupTarget(g: Group, order: seq<string>, nodes: map<string, Node>, full: map<string, real>, c: string)
    requires IsListing(order, nodes) && Members(g, order, nodes, c) != []
    ensures FirstNamed(AllAssignments(g), c).Some?
    ensures var target := RebalanceTarget(g, order, nodes, full);
            var part := BalancedNodes(g, Members(g, order, nodes, c), nodes, full, FirstNamed(AllAssignments(g), c).value);
            forall n :: (n in part <==> n in target && n in nodes && PackedAssignment(g, nodes[n]).Some? && PackedAssignment(g, nodes[n]).value.name == c)
                        && (n in part ==> n in target && part[n] == target[n])
  {
    hide WithState, Members, PackedAssignment, Targets, CanBeBalanced, Distinct, FirstNamed, AllAssignments, StateAmong;
    MembersFacts(g, order, nodes, c);
    assert Members(g, order, nodes, c)[0] in Members(g, order, nodes, c);
    SameAssignment(g, nodes[Members(g, order, nodes, c)[0]], c);
    var target := RebalanceTarget(g, order, nodes, full);
    var part := BalancedNodes(g, Members(g, order, nodes, c), nodes, full, FirstNamed(AllAssignments(g), c).value);
    forall n
      ensures n in part <==> n in target && n in nodes && PackedAssignment(g, nodes[n]).Some? && PackedAssignment(g, nodes[n]).value.name == c
      ensures n in part ==> n in target && part[n] == target[n]
    {
      if n in nodes && PackedAssignment(g, nodes[n]).Some? && PackedAssignment(g, nodes[n]).value.name == c {
        SameAssignment(g, nodes[n], c);
      }
    }
  }

  /** The nodes of an assignment not handled yet are as cached. */
  lemma {:induction false} GroupIsCurrent(g: Group, nodes: map<string, Node>, target: map<string, Node>, done: set<string>, todo: set<string>,
                                          noFault: bool, names: seq<string>, c: string)
    requires HandledUpTo(g, nodes, target, done, todo, noFault) && c in todo
    requires forall n :: n in names ==> n in nodes && PackedAssignment(g, nodes[n]).Some? && PackedAssignment(g, nodes[n]).value.name == c
    ensures forall n :: n in names ==> n in Overlay(nodes, target, done) && Overlay(nodes, target, done)[n] == nodes[n]
  {
    hide PackedAssignment;
  }

  lemma {:induction false} OverlayMore(stored: map<string, Node>, target: map<string, Node>, done: set<string>, part: map<string, Node>, more: set<string>)
    requires more <= part.Keys && forall n :: n in part ==> n in target && part[n] == target[n]
    ensures Overlay(Overlay(stored, target, done), part, more) == Overlay(stored, target, done + more)
  {
  }

  lemma {:induction false} HandledGroup(g: Group, nodes: map<string, Node>, target: map<string, Node>, done: set<string>, todo: set<string>,
                                        noFault: bool, part: map<string, Node>, more: set<string>, c: string)
    requires HandledUpTo(g, nodes, target, done, todo, noFault)
    requires more <= part.Keys && (noFault ==> more == part.Keys)
    requires forall n :: n in part <==> n in target && n in nodes && PackedAssignment(g, nodes[n]).Some? && PackedAssignment(g, nodes[n]).value.name == c
    ensures HandledUpTo(g, nodes, target, done + more, todo - {c}, noFault)
  {
    hide PackedAssignment;
  }

  function NamesIn(s: seq<Ranked>): set<string> { set x | x in s :: x.name }

  /** The target holds, for exactly the ranked nodes, the state their rank calls for. */
  ghost predicate AimedAt(g: Group, s: seq<Ranked>, nodes: map<string, Node>, limit: real, buffer: nat, target: map<string, Node>) {
    && DistinctRanked(s)
    && (forall x :: x in s ==> x.name in nodes && x.name in target
                               && target[x.name] == WithState(g, StateByRank(x, s, limit, buffer), nodes[x.name]))
    && target.Keys == NamesIn(s)
  }

  lemma {:induction false} AimIsComplete(g: Group, s: seq<Ranked>, nodes: map<string, Node>, limit: real, buffer: nat, target: map<string, Node>)
    requires AimedAt(g, s, nodes, limit, buffer, target)
    ensures target.Keys == NamesIn(s)
    ensures s == [] ==> target == map[]
  {
    hide WithState, StateByRank;
  }

  lemma {:induction false} ScanOneAfterFirst(i: nat, full: real, limit: real, avoided: nat, buffer: nat)
    requires i > 0
    ensures ScanOne(i, full, limit, avoided, buffer) == if full > limit then Use else if avoided < buffer then Avoid else Deny
  {
  }

  lemma {:induction false} NotYetDone(stored: map<string, Node>, target: map<string, Node>, done: set<string>, n: string)
    requires n in stored && n !in done
    ensures n in Overlay(stored, target, done) && Overlay(stored, target, done)[n] == stored[n]
  {
  }

  /** What the scan needs to know about position i. */
  lemma {:induction false} ScanTurn(g: Group, s: seq<Ranked>, nodes: map<string, Node>, limit: real, buffer: nat, target: map<string, Node>,
                                    i: nat, avoided: nat)
    requires Sorted(s) && AimedAt(g, s, nodes, limit, buffer, target) && i < |s|
    requires i == 0 || avoided == AvoidedBefore(limit, s, buffer, i)
    ensures s[i].name in nodes && s[i].name in target
    ensures target[s[i].name] == WithState(g, ScanOne(i, s[i].full, limit, avoided, buffer), nodes[s[i].name])
    ensures i > 0 ==> AvoidedBefore(limit, s, buffer, i + 1) == avoided + if ScanOne(i, s[i].full, limit, avoided, buffer) == Avoid then 1 else 0
    ensures i == 0 ==> AvoidedBefore(limit, s, buffer, 1) == 0 && ScanOne(i, s[i].full, limit, avoided, buffer) == Use
    ensures s[i].name !in NamesIn(s[..i]) && NamesIn(s[..i + 1]) == NamesIn(s[..i]) + {s[i].name}
    ensures i == 0 ==> NamesIn(s[..0]) == {}
  {
    NamesUpTo(s, i);
    hide WithState, StateByRank, Sorted, NamesIn, DistinctRanked, Above;
    ScanIsRank(s, limit, buffer, i);
    assert s[i] in s;
    if i == 0 {
      assert AvoidedBefore(limit, s, buffer, 0) == 0 && AvoidedBefore(limit, s, buffer, 1) == 0;
    }
    hide AvoidedBefore, UseBlock;
  }

  lemma {:induction false} NamesUpTo(s: seq<Ranked>, i: nat)
    requires DistinctRanked(s) && i < |s|
    ensures s[i].name !in NamesIn(s[..i]) && NamesIn(s[..i + 1]) == NamesIn(s[..i]) + {s[i].name}
    ensures i == 0 ==> NamesIn(s[..0]) == {}
  {
    assert s[..i + 1] == s[..i] + [s[i]];
  }

  lemma {:induction false} RankedAreAimed(g: Group, names: seq<string>, nodes: map<string, Node>, full: map<string, real>, a: Assignment)
    requires Distinct(names) && forall n :: n in names ==> n in nodes
    ensures AimedAt(g, RankedNodes(Filter(Balanceable(nodes), names), full), nodes, FullLimit(a), Buffer(a, |names|),
                    BalancedNodes(g, names, nodes, full, a))
  {
    var b := Filter(Balanceable(nodes), names);
    FilterDistinct(Balanceable(nodes), names);
    FilterMembers(Balanceable(nodes), names);
    RankedDistinct(b, full);
    var s, target := RankedNodes(b, full), BalancedNodes(g, names, nodes, full, a);
    hide WithState, StateByRank, Buffer, FullLimit, Filter, Balanceable, RankedNodes, Distinct, DistinctRanked, FullnessAt;
    forall n | n in target ensures n in NamesIn(s) {
      assert Ranked(n, FullnessAt(full, n)) in s;
    }
  }

  lemma {:induction false} BalancedKeys(g: Group, names: seq<string>, nodes: map<string, Node>, full: map<string, real>, a: Assignment)
    ensures forall n :: n in BalancedNodes(g, names, nodes, full, a) ==> n in names
  {
    hide WithState, StateAmong, Balanceable;
  }

  lemma {:induction false} SortKeepsAim(g: Group, s: seq<Ranked>, nodes: map<string, Node>, limit: real, buffer: nat, target: map<string, Node>)
    requires AimedAt(g, s, nodes, limit, buffer, target)
    ensures AimedAt(g, Sort(s), nodes, limit, buffer, target) && Sorted(Sort(s)) && |Sort(s)| == |s|
  {
    var t := Sort(s);
    hide WithState, StateByRank, Sort;
    SortIsSorted(s);
    SortKeepsElements(s);
    SameMembers(s, t);
    forall i, j | 0 <= i < j < |t| ensures t[i].name != t[j].name {
      SortedNamesDiffer(s, t, i, j);
    }
    forall x | x in t ensures StateByRank(x, t, limit, buffer) == StateByRank(x, s, limit, buffer) {
      StateIsOrderFree(x, s, t, limit, buffer);
    }
  }

  lemma {:induction false} SortedNamesDiffer(s: seq<Ranked>, t: seq<Ranked>, i: nat, j: nat)
    requires Sorted(t) && multiset(s) == multiset(t) && DistinctRanked(s) && i < j < |t|
    ensures t[i].name != t[j].name
  {
    SameMembers(s, t);
    assert t[i] in s && t[j] in s;
    assert Precedes(t[i], t[j]);
    PrecedesIsTotal(t[i], t[i]);
    hide Precedes;
  }

  /** What balancing the nodes of assignment a aims at. */
  function BalancedNodes(g: Group, names: seq<string>, nodes: map<string, Node>, full: map<string, real>, a: Assignment): map<string, Node> {
    map n | n in nodes && n in names && Balanceable(nodes)(n) :: WithState(g, StateAmong(names, nodes, full, a, n), nodes[n])
  }

  function IsTarget(g: Group, nodes: map<string, Node>): string -> bool {
    (n: string) => n in nodes && Targets(g, nodes[n].labels)
  }

  function IsPackedIn(g: Group, nodes: map<string, Node>, c: string): string -> bool {
    (n: string) => n in nodes && PackedAssignment(g, nodes[n]).Some? && PackedAssignment(g, nodes[n]).value.name == c
  }

  lemma {:induction false} TargetsAndPacked(g: Group, nodes: map<string, Node>, order: seq<string>, c: string)
    ensures Filter(IsPackedIn(g, nodes, c), Filter(IsTarget(g, nodes), order)) == Members(g, order, nodes, c)
  {
    hide Targets, PackedAssignment;
    FilterTwice(IsTarget(g, nodes), IsPackedIn(g, nodes, c), IsMember(g, nodes, c), order);
  }

  ghost predicate AreGroups(g: Group, nodes: map<string, Node>, names: seq<string>, groups: map<string, seq<string>>) {
    && (forall c :: c in groups ==> groups[c] == Filter(IsPackedIn(g, nodes, c), names))
    && (forall c :: c in groups <==> Filter(IsPackedIn(g, nodes, c), names) != [])
  }

  lemma {:induction false} NoGroups(g: Group, nodes: map<string, Node>)
    ensures AreGroups(g, nodes, [], map[])
  {
  }

  lemma {:induction false} TargetsAreKnown(g: Group, nodes: map<string, Node>)
    ensures forall n :: IsTarget(g, nodes)(n) ==> n in nodes
  {
  }

  lemma {:induction false} GroupsAreMembers(g: Group, nodes: map<string, Node>, order: seq<string>, groups: map<string, seq<string>>)
    requires AreGroups(g, nodes, Filter(IsTarget(g, nodes), order), groups)
    ensures forall c :: c in groups ==> groups[c] == Members(g, order, nodes, c)
    ensures forall c :: c in groups <==> Members(g, order, nodes, c) != []
  {
    hide Members, Filter, IsPackedIn, IsTarget;
    forall c: string
      ensures Filter(IsPackedIn(g, nodes, c), Filter(IsTarget(g, nodes), order)) == Members(g, order, nodes, c)
    {
      TargetsAndPacked(g, nodes, order, c);
    }
  }

  lemma {:induction false} ListedTargets(g: Group, nodes: map<string, Node>, order: seq<string>)
    requires IsListing(order, nodes)
    ensures Distinct(Filter(IsTarget(g, nodes), order))
    ensures forall n :: n in Filter(IsTarget(g, nodes), order) <==> n in nodes && Targets(g, nodes[n].labels)
  {
    FilterDistinct(IsTarget(g, nodes), order);
    FilterMembers(IsTarget(g, nodes), order);
    hide Filter, Distinct, Targets;
  }

  lemma {:induction false} GroupsPartition(g: Group, nodes: map<string, Node>, order: seq<string>, groups: map<string, seq<string>>)
    requires IsListing(order, nodes)
    requires forall c :: c in groups ==> groups[c] == Members(g, order, nodes, c)
    requires forall c :: c in groups <==> Members(g, order, nodes, c) != []
    ensures forall c :: c in groups ==> groups[c] != [] && Distinct(groups[c])
    ensures forall n :: n in nodes && Targets(g, nodes[n].labels) && PackedAssignment(g, nodes[n]).Some? ==>
              PackedAssignment(g, nodes[n]).value.name in groups
    ensures forall c, n :: c in groups ==>
              (n in groups[c] <==> n in nodes && Targets(g, nodes[n].labels) && PackedAssignment(g, nodes[n]).Some?
                                   && PackedAssignment(g, nodes[n]).value.name == c)
  {
    hide Members, Targets, PackedAssignment, Distinct;
    forall c: string
      ensures Distinct(Members(g, order, nodes, c))
      ensures forall n :: n in Members(g, order, nodes, c) <==>
                n in nodes && Targets(g, nodes[n].labels) && PackedAssignment(g, nodes[n]).Some? && PackedAssignment(g, nodes[n]).value.name == c
    {
      MembersFacts(g, order, nodes, c);
    }
  }

  lemma {:induction false} GroupStep(g: Group, nodes: map<string, Node>, names: seq<string>, groups: map<string, seq<string>>, n: string)
    requires n in nodes && AreGroups(g, nodes, names, groups)
    ensures var a := PackedAssignment(g, nodes[n]);
            && (a.None? ==> AreGroups(g, nodes, names + [n], groups))
            && (a.Some? ==> AreGroups(g, nodes, names + [n],
                  groups[a.value.name := (if a.value.name in groups then groups[a.value.name] else []) + [n]]))
  {
    hide PackedAssignment;
    forall c: string
      ensures Filter(IsPackedIn(g, nodes, c), names + [n])
           == Filter(IsPackedIn(g, nodes, c), names) + if IsPackedIn(g, nodes, c)(n) then [n] else []
    {
      FilterAppend(IsPackedIn(g, nodes, c), names, n);
    }
    hide Filter;
  }

  lemma {:induction false} WithStateKeepsStatus(g: Group, state: PackState, node: Node)
    ensures WithState(g, state, node).status == node.status
  {
  }
}

/** The allocator (pkg/controller/nodeassignment/writer_context.go): it edits node objects in
    memory, patches the API, and keeps two mutable ledgers. Each method is tied to the steps of Pass. */
module WriterContexts {
  import opened Cluster
  import opened Groups
  import opened Allocation
  import opened Plan
  import opened Pass

  class WriterContext {
    const nag: Group
    const api: ApiServer
    var knownAssignments: set<string>
    var targetedNodes: seq<NodeObject>
    var currentAssignments: map<string, int>
    var assignmentChanges: map<string, int>
    var unassignedNodeNames: set<string>
    ghost var names: seq<string>   // names of targetedNodes
    ghost var memory: seq<Node>    // values of targetedNodes
    ghost var served: seq<string>  // assignments handed out by the current pass

    ghost predicate Valid()
      reads this, api, targetedNodes
    {
      && unassignedNodeNames <= api.nodes.Keys
      && |memory| == |names| == |targetedNodes|
      && (forall i :: 0 <= i < |targetedNodes| ==>
            && targetedNodes[i].Value() == memory[i]
            && targetedNodes[i].name == names[i]
            && names[i] in api.nodes)
      && (forall i, j :: 0 <= i < j < |targetedNodes| ==> targetedNodes[i] != targetedNodes[j])
    }

    ghost function TheWorld(): World
      reads this, api
    {
      World(api.nodes, api.calls, unassignedNodeNames)
    }

    ghost function TheProgress(aborted: bool): Progress
      reads this, api
    {
      Progress(TheWorld(), memory, assignmentChanges, served, aborted)
    }

    /** The context as the list of nodes, the ledgers and the API's refusals make it. */
    constructor (api: ApiServer, nag: Group)
      requires api.Valid()
      modifies api`nodes, api`calls
      ensures this.api == api && this.nag == nag && Valid()
      ensures forall o :: o in targetedNodes ==> fresh(o)
      ensures var built := Build(nag, api.down, api.order, World(old(api.nodes), old(api.calls), {}), |api.order|);
              && names == built.names
              && TheProgress(false) == Begin(nag, built)
    {
      this.api, this.nag := api, nag;
      knownAssignments, targetedNodes := {}, [];
      currentAssignments, assignmentChanges := map[], map[];
      unassignedNodeNames := {};
      names, memory, served := [], [], [];
      new;
      Update();
    }

    method Update()
      requires api.Valid() && targetedNodes == [] && names == [] && memory == [] && served == [] && unassignedNodeNames == {}
      modifies this, api`nodes, api`calls
      ensures Valid() && forall o :: o in targetedNodes ==> fresh(o)
      ensures var built := Build(nag, api.down, api.order, World(old(api.nodes), old(api.calls), {}), |api.order|);
              && names == built.names
              && TheProgress(false) == Begin(nag, built)
    {
      hide Build, InitialLedger;
      UpdateKnownAssignments();
      var ok := UpdateNodeSets();
      ghost var built := TheContext(!ok);
      UpdateCurrentAssignments();
      UpdateAssignmentChanges();
      assert TheContext(!ok) == built;
    }

    method UpdateKnownAssignments()
      modifies this`knownAssignments
      ensures forall n :: n in knownAssignments <==> Known(nag, n)
    {
      knownAssignments := {};
      for i := 0 to |nag.assignments|
        invariant forall n :: n in knownAssignments <==> Named(nag.assignments[..i], n)
      {
        assert nag.assignments[..i + 1] == nag.assignments[..i] + [nag.assignments[i]];
        NamedAppend(nag.assignments[..i], nag.assignments[i]);
        knownAssignments := knownAssignments + {nag.assignments[i].name};
      }
      assert nag.assignments[..|nag.assignments|] == nag.assignments;
      if nag.fallback.Some? {
        knownAssignments := knownAssignments + {nag.fallback.value.name};
      }
    }

    ghost function TheContext(aborted: bool): Context
      reads this, api
    {
      Context(names, memory, TheWorld(), aborted)
    }

    /** Lists the nodes once and handles them in order; a refused eviction ends the listing. */
    method UpdateNodeSets() returns (ok: bool)
      requires api.Valid() && targetedNodes == [] && names == [] && memory == [] && unassignedNodeNames == {}
      requires forall n :: n in knownAssignments <==> Known(nag, n)
      modifies this`targetedNodes, this`names, this`memory, this`unassignedNodeNames, api`nodes, api`calls
      ensures Valid() && forall o :: o in targetedNodes ==> fresh(o)
      ensures TheContext(!ok) == Build(nag, api.down, api.order, old(TheWorld()), |api.order|)
    {
      hide Admit;
      ghost var handled;
      ok, handled := AdmitListed(api.nodes, api.order);
      if !ok {
        AbortedStays(nag, api.down, api.order, old(TheWorld()), handled, |api.order|);
      }
    }

    method AdmitListed(items: map<string, Node>, order: seq<string>) returns (ok: bool, ghost handled: nat)
      requires Valid() && targetedNodes == [] && items == api.nodes && forall n :: n in order ==> n in items
      requires forall n :: n in knownAssignments <==> Known(nag, n)
      modifies this`targetedNodes, this`names, this`memory, this`unassignedNodeNames, api`nodes, api`calls
      ensures Valid() && forall o :: o in targetedNodes ==> fresh(o)
      ensures handled <= |order| && (ok ==> handled == |order|)
      ensures TheContext(!ok) == Build(nag, api.down, order, old(TheWorld()), handled)
    {
      hide Admit;
      handled, ok := 0, true;
      for i := 0 to |order|
        invariant i == handled && ok && Valid()
        invariant forall o :: o in targetedNodes ==> fresh(o)
        invariant items.Keys == api.nodes.Keys
        invariant TheContext(false) == Build(nag, api.down, order, old(TheWorld()), i)
      {
        ok := AdmitNode(order[i], items[order[i]]);
        handled := i + 1;
        if !ok {
          return;
        }
      }
    }

    /** One listed node: unassign it in memory if its assignment is unknown, then target or evict it. */
    method AdmitNode(name: string, listed: Node) returns (ok: bool)
      requires Valid() && name in api.nodes
      requires forall n :: n in knownAssignments <==> Known(nag, n)
      modifies this`targetedNodes, this`names, this`memory, this`unassignedNodeNames, api`nodes, api`calls
      ensures Valid() && api.nodes.Keys == old(api.nodes.Keys)
      ensures forall o :: o in targetedNodes ==> o in old(targetedNodes) || fresh(o)
      ensures TheContext(!ok) == Admit(nag, api.down, old(TheContext(false)), name, listed)
    {
      hide Pass.Update, Targets, Unassigned;
      var node := new NodeObject(name, listed);
      if LabelOf(nag, node.Value()).Some? && LabelOf(nag, node.Value()).value !in knownAssignments {
        var _ := Groups.Unassign(nag, node);
        unassignedNodeNames := unassignedNodeNames + {name};
      }
      assert node.Value() == Admitted(nag, listed);
      var targeted := Groups.TargetsNode(nag, node.Value());
      ok := true;
      if targeted {
        Target(node);
      } else if LabelOf(nag, node.Value()).Some? {
        ok := UpdateNodeAssignment(node, None);
      }
    }

    method Target(node: NodeObject)
      requires Valid() && node.name in api.nodes
      modifies this`targetedNodes, this`names, this`memory
      ensures Valid() && names == old(names) + [node.name] && memory == old(memory) + [node.Value()]
      ensures exists copy: NodeObject :: fresh(copy) && targetedNodes == old(targetedNodes) + [copy]
    {
      var copy := node.DeepCopy();
      targetedNodes := targetedNodes + [copy];
      names, memory := names + [node.name], memory + [copy.Value()];
    }

    /** Counts the targeted nodes of every assignment but the default one. */
    method UpdateCurrentAssignments()
      requires Valid()
      modifies this`currentAssignments
      ensures forall a :: Get(currentAssignments, a)
                == if FallbackName(nag) == Some(a) then 0 else Total(LabelsOf(nag, memory), Some(a))
    {
      currentAssignments := map[];
      ghost var labels := LabelsOf(nag, memory);
      for i := 0 to |targetedNodes|
        invariant forall a :: Get(currentAssignments, a)
                    == if FallbackName(nag) == Some(a) then 0 else Before(labels, i, Some(a))
      {
        var carried := LabelOf(nag, targetedNodes[i].Value());
        assert labels[i] == carried;
        if carried.Some? && (nag.fallback.None? || carried.value != nag.fallback.value.name) {
          currentAssignments := currentAssignments[carried.value := Get(currentAssignments, carried.value) + 1];
        }
      }
    }

    method UpdateAssignmentChanges()
      requires |memory| == |targetedNodes|
      requires forall a :: Get(currentAssignments, a)
                 == if FallbackName(nag) == Some(a) then 0 else Total(LabelsOf(nag, memory), Some(a))
      modifies this`assignmentChanges
      ensures assignmentChanges == InitialLedger(nag, LabelsOf(nag, memory), |nag.assignments|)
    {
      hide Desired, Total;
      ghost var labels := LabelsOf(nag, memory);
      assignmentChanges := map[];
      for i := 0 to |nag.assignments|
        invariant assignmentChanges == InitialLedger(nag, labels, i)
      {
        var a := nag.assignments[i];
        var desired := Desired(a, |targetedNodes|);
        var d := desired - Get(currentAssignments, a.name);
        if d != 0 {
          assignmentChanges := assignmentChanges[a.name := d];
        }
        assert assignmentChanges == InitialLedger(nag, labels, i + 1);
      }
    }

    /** Works on a copy: the node in memory keeps its labels, only the API sees the change. */
    method UpdateNodeAssignment(node: NodeObject, na: Option<Assignment>) returns (ok: bool)
      requires node.name in api.nodes
      modifies this`unassignedNodeNames, api`nodes, api`calls
      ensures (TheWorld(), ok) == Pass.Update(api.down, old(TheWorld()), node.name, node.Value(),
                                              if na.Some? then Assigned(nag, na.value, node.Value())
                                              else Unassigned(nag, node.Value()))
    {
      var assignedNode := node.DeepCopy();
      if na.Some? {
        Groups.Assign(nag, assignedNode, na.value);
      } else {
        var _ := Groups.Unassign(nag, assignedNode);
      }
      if !IsEmptyPatch(node.Value(), assignedNode.Value()) {
        ok := api.Patch(node.name, node.Value(), assignedNode.Value());
        if !ok {
          return;
        }
      }
      unassignedNodeNames := unassignedNodeNames - {node.name};
      ok := true;
    }

    /** Gives the node to the first assignment with a positive entry. Not placed means none was
        found, or the update failed. */
    method AssignNode(node: NodeObject) returns (placed: bool)
      requires node.name in api.nodes
      modifies this`unassignedNodeNames, this`assignmentChanges, this`served, api`nodes, api`calls
      ensures var due := FirstDue(nag.assignments, old(assignmentChanges));
              if due.None? then
                !placed && TheWorld() == old(TheWorld())
                && assignmentChanges == old(assignmentChanges) && served == old(served)
              else
                && (TheWorld(), placed) == Pass.Update(api.down, old(TheWorld()), node.name, node.Value(),
                                                         Assigned(nag, due.value, node.Value()))
                && assignmentChanges == (if placed then Bump(old(assignmentChanges), due.value.name, -1)
                                         else old(assignmentChanges))
                && served == (if placed then old(served) + [due.value.name] else old(served))
    {
      for i := 0 to |nag.assignments|
        invariant FirstDue(nag.assignments, assignmentChanges) == FirstDue(nag.assignments[i..], assignmentChanges)
        invariant TheWorld() == old(TheWorld())
        invariant assignmentChanges == old(assignmentChanges) && served == old(served)
      {
        var a := nag.assignments[i];
        if a.name in assignmentChanges && assignmentChanges[a.name] > 0 {
          var ok := UpdateNodeAssignment(node, Some(a));
          if !ok {
            return false;
          }
          assignmentChanges := Bump(assignmentChanges, a.name, -1);
          served := served + [a.name];
          return true;
        }
      }
      return false;
    }

    // ----- Reconcile -----

    /** Unassign node k in memory and record it. */
    method ReleaseNode(k: nat, from: string)
      requires Valid() && k < |targetedNodes|
      modifies this`memory, this`unassignedNodeNames, this`assignmentChanges, targetedNodes[k]
      ensures Valid()
      ensures TheProgress(false) == Release(nag, names, old(TheProgress(false)), k, from)
    {
      var node := targetedNodes[k];
      var _ := Groups.Unassign(nag, node);
      memory := memory[k := node.Value()];
      unassignedNodeNames := unassignedNodeNames + {node.name};
      assignmentChanges := Bump(assignmentChanges, from, 1);
    }

    /** Assign node k, or put it on the default. */
    method PlaceNode(k: nat) returns (ok: bool)
      requires Valid() && k < |targetedNodes|
      modifies this`unassignedNodeNames, this`assignmentChanges, this`served, api`nodes, api`calls
      ensures Valid()
      ensures TheProgress(!ok) == Place(nag, api.down, names, old(TheProgress(false)), k)
    {
      hide Unassigned, Assigned, Pass.Update;
      var node := targetedNodes[k];
      ok := true;
      var placed := AssignNode(node);
      if !placed && LabelOf(nag, node.Value()).None? && nag.fallback.Some? {
        ok := UpdateNodeAssignment(node, nag.fallback);
      }
    }

    /** One turn of the main loop. */
    method ReconcileNode(k: nat) returns (ok: bool)
      requires Valid() && k < |targetedNodes|
      modifies this`memory, this`unassignedNodeNames, this`assignmentChanges, this`served
      modifies targetedNodes[k], api`nodes, api`calls
      ensures Valid()
      ensures TheProgress(!ok) == Step(nag, api.down, names, old(TheProgress(false)), k)
    {
      hide Place, Release;
      var current := LabelOf(nag, targetedNodes[k].Value());
      if current.Some? {
        var ca := current.value;
        if ca in assignmentChanges && assignmentChanges[ca] < 0 {
          ReleaseNode(k, ca);
        } else if nag.fallback.Some? && ca == nag.fallback.value.name {
          ReleaseNode(k, ca);
        } else {
          return true;
        }
      }
      ok := PlaceNode(k);
    }

    /** The main loop over the targeted nodes, then, unless a call for the default was refused, the
        cleanup of the nodes unassigned in memory only. `cleaned` are those cleaned successfully. */
    method Reconcile() returns (ok: bool, ghost cleaned: set<string>)
      requires Valid()
      modifies this`memory, this`unassignedNodeNames, this`assignmentChanges, this`served
      modifies targetedNodes, api`nodes, api`calls
      ensures Valid()
      ensures var p := Run(nag, api.down, names, old(TheProgress(false)), |names|);
              && ok == !p.aborted
              && memory == p.memory && assignmentChanges == p.ledger && served == p.served
              && cleaned <= p.world.stale
              && (NoFault(api.down) && ok ==> cleaned == p.world.stale)
              && (!ok ==> cleaned == {})
              && unassignedNodeNames == p.world.stale - cleaned
              && api.nodes == Cleaned(nag, p.world.nodes, cleaned)
    {
      hide Run;
      cleaned := {};
      ok := MainLoop();
      if ok {
        cleaned := CleanUp();
      } else {
        assert api.nodes == Cleaned(nag, api.nodes, {});
      }
    }

    method MainLoop() returns (ok: bool)
      requires Valid()
      modifies this`memory, this`unassignedNodeNames, this`assignmentChanges, this`served
      modifies targetedNodes, api`nodes, api`calls
      ensures Valid()
      ensures TheProgress(!ok) == Run(nag, api.down, names, old(TheProgress(false)), |names|)
    {
      hide Step;
      ghost var handled;
      ok, handled := LoopUntilRefused();
      if !ok {
        StoppedStays(nag, api.down, names, old(TheProgress(false)), handled, |names|);
      }
    }

    method LoopUntilRefused() returns (ok: bool, ghost handled: nat)
      requires Valid()
      modifies this`memory, this`unassignedNodeNames, this`assignmentChanges, this`served
      modifies targetedNodes, api`nodes, api`calls
      ensures Valid()
      ensures handled <= |names| && (ok ==> handled == |names|)
      ensures TheProgress(!ok) == Run(nag, api.down, names, old(TheProgress(false)), handled)
    {
      hide Step;
      handled, ok := 0, true;
      for k := 0 to |targetedNodes|
        invariant k == handled && ok && Valid()
        invariant TheProgress(false) == Run(nag, api.down, names, old(TheProgress(false)), k)
      {
        ok := ReconcileNode(k);
        handled := k + 1;
        if !ok {
          return;
        }
      }
    }

    /** Visits every recorded name once, in any order, deleting from the set it ranges over. */
    method CleanUp() returns (ghost cleaned: set<string>)
      requires Valid()
      modifies this`unassignedNodeNames, api`nodes, api`calls
      ensures Valid()
      ensures cleaned <= old(unassignedNodeNames) && unassignedNodeNames == old(unassignedNodeNames) - cleaned
      ensures NoFault(api.down) ==> cleaned == old(unassignedNodeNames)
      ensures api.nodes == Cleaned(nag, old(api.nodes), cleaned)
    {
      cleaned := {};
      var todo := unassignedNodeNames;
      while todo != {}
        invariant Valid()
        invariant todo <= unassignedNodeNames && cleaned <= old(unassignedNodeNames)
        invariant unassignedNodeNames == old(unassignedNodeNames) - cleaned
        invariant NoFault(api.down) ==> todo == unassignedNodeNames
        invariant api.nodes == Cleaned(nag, old(api.nodes), cleaned)
      {
        var name :| name in todo;
        todo := todo - {name};
        var ok := UnassignNodeByName(name);
        if ok {
          cleaned := cleaned + {name};
        }
      }
    }

    /** Gets the latest version of a node and unassigns it. */
    method UnassignNodeByName(name: string) returns (ok: bool)
      requires name in api.nodes
      modifies this`unassignedNodeNames, api`nodes, api`calls
      ensures NoFault(api.down) ==> ok
      ensures unassignedNodeNames == old(unassignedNodeNames) - if ok then {name} else {}
      ensures api.nodes == if ok then old(api.nodes)[name := Unassigned(nag, old(api.nodes)[name])] else old(api.nodes)
    {
      var got := api.Get(name);
      if got.None? {
        return false;
      }
      var node := new NodeObject(name, got.value);
      PatchFromCurrent(node.Value(), Unassigned(nag, node.Value()));
      ok := UpdateNodeAssignment(node, None);
    }

    /** Removes every trace of the group from all nodes, targeted or not. Refusals are ignored. */
    method UnassignAllNodes()
      requires api.Valid()
      modifies this`unassignedNodeNames, api`nodes, api`calls
      ensures TheWorld() == SweepAll(nag, api.down, api.order, old(TheWorld()))
    {
      var items := api.nodes;
      var listed := api.List();
      if listed.None? {
        return;
      }
      var order := listed.value;
      ghost var start := TheWorld();
      for i := 0 to |order|
        invariant items.Keys == api.nodes.Keys
        invariant TheWorld() == Sweep(nag, api.down, order, start, i)
      {
        var node := new NodeObject(order[i], items[order[i]]);
        var _ := UpdateNodeAssignment(node, None);
      }
    }
  }

  lemma {:induction false} NamedAppend(assignments: seq<Assignment>, a: Assignment)
    ensures forall n :: Named(assignments + [a], n) <==> Named(assignments, n) || a.name == n
  {
    forall n | Named(assignments, n) || a.name == n ensures Named(assignments + [a], n) {
      if Named(assignments, n) {
        var i :| 0 <= i < |assignments| && assignments[i].name == n;
        assert (assignments + [a])[i].name == n;
      } else {
        assert (assignments + [a])[|assignments|].name == n;
      }
    }
  }

  lemma {:induction false} AbortedStays(g: Group, down: nat -> bool, order: seq<string>, start: World, i: nat, j: nat)
    requires i <= j <= |order| && forall n :: n in order ==> n in start.nodes
    requires Build(g, down, order, start, i).aborted
    ensures Build(g, down, order, start, j) == Build(g, down, order, start, i)
  {
    hide Admit;
    if i < j {
      AbortedStays(g, down, order, start, i, j - 1);
    }
  }

  lemma {:induction false} StoppedStays(g: Group, down: nat -> bool, names: seq<string>, start: Progress, i: nat, j: nat)
    requires i <= j <= |names| && |start.memory| == |names| && forall n :: n in names ==> n in start.world.nodes
    requires Run(g, down, names, start, i).aborted
    ensures Run(g, down, names, start, j) == Run(g, down, names, start, i)
    decreases j
  {
    hide Step;
    if i < j {
      StoppedStays(g, down, names, start, i, j - 1);
    }
  }
}

/** What a pass never touches, whichever calls are refused and however far it gets: labels and taints
    with keys other than the group's two, and the order of those taints. */
module Framing {
  import opened Cluster
  import opened Groups
  import opened Allocation
  import opened Pass
  import opened Settlement

  ghost predicate Framed(g: string, before: map<string, Node>, after: map<string, Node>) {
    after.Keys == before.Keys && forall n :: n in before ==> SameOutside(g, before[n], after[n])
  }

  /** The in-memory nodes agree with the stored ones outside the group's keys. */
  ghost predicate MemoryFramed(g: string, names: seq<string>, memory: seq<Node>, nodes: map<string, Node>) {
    |memory| == |names| && forall k :: 0 <= k < |names| ==> names[k] in nodes && SameOutside(g, nodes[names[k]], memory[k])
  }

  lemma {:induction false} UnassignedSameOutside(g: Group, node: Node)
    ensures SameOutside(g.name, node, Unassigned(g, node))
  {
    ForeignTwice(g.name, node.taints);
    hide ForeignTaints;
  }

  lemma {:induction false} AssignedSameOutside(g: Group, a: Assignment, node: Node)
    ensures SameOutside(g.name, node, Assigned(g, a, node))
  {
    OwnTaintIsDropped(g, a, node.taints);
    assert node.taints + [] == node.taints;
    hide ForeignTaints, TaintOf;
  }

  lemma {:induction false} PatchSameOutside(g: string, stored: Node, before: Node, after: Node)
    requires SameOutside(g, stored, before) && SameOutside(g, before, after)
    ensures SameOutside(g, stored, ApplyPatch(stored, before, after))
  {
    hide ForeignTaints;
    LabelsSameOutside(GroupKeys(g), stored.labels, before.labels, after.labels);
    hide GroupKeys, PatchLabels;
  }

  lemma {:induction false} LabelsSameOutside(keys: set<string>, stored: map<string, string>, before: map<string, string>, after: map<string, string>)
    requires before - keys == after - keys
    ensures PatchLabels(stored, before, after) - keys == stored - keys
  {
    forall k | k !in keys ensures (k in before <==> k in after) && (k in before ==> before[k] == after[k]) {
      assert k in before <==> k in before - keys;
      assert k in after <==> k in after - keys;
      assert k in before ==> (before - keys)[k] == before[k];
      assert k in after ==> (after - keys)[k] == after[k];
    }
  }

  lemma {:induction false} UpdateIsFramed(g: string, down: nat -> bool, start: map<string, Node>, w: World, name: string, before: Node, after: Node)
    requires Framed(g, start, w.nodes) && name in start && name in w.nodes
    requires SameOutside(g, start[name], before) && SameOutside(g, before, after)
    ensures Framed(g, start, Update(down, w, name, before, after).0.nodes)
  {
    OutsideChain(g, start[name], w.nodes[name], before);
    PatchSameOutside(g, w.nodes[name], before, after);
    OutsideJoin(g, start[name], w.nodes[name], ApplyPatch(w.nodes[name], before, after));
    hide SameOutside, ApplyPatch;
  }

  lemma {:induction false} OutsideChain(g: string, x: Node, y: Node, z: Node)
    requires SameOutside(g, x, y) && SameOutside(g, x, z)
    ensures SameOutside(g, y, z)
  {
    hide ForeignTaints, GroupKeys;
  }

  lemma {:induction false} OutsideJoin(g: string, x: Node, y: Node, z: Node)
    requires SameOutside(g, x, y) && SameOutside(g, y, z)
    ensures SameOutside(g, x, z)
  {
    hide ForeignTaints, GroupKeys;
  }

  lemma {:induction false} OutsideSelf(g: string, x: Node)
    ensures SameOutside(g, x, x)
  {
    hide ForeignTaints, GroupKeys;
  }

  lemma {:induction false} FramedSelf(g: string, nodes: map<string, Node>)
    ensures Framed(g, nodes, nodes)
  {
    forall n | n in nodes ensures SameOutside(g, nodes[n], nodes[n]) {
      OutsideSelf(g, nodes[n]);
    }
    hide SameOutside;
  }

  // ----- Building the context -----

  lemma {:induction false} AdmitIsFramed(g: Group, down: nat -> bool, start: map<string, Node>, c: Context, name: string)
    requires name in start && name in c.world.nodes
    requires Framed(g.name, start, c.world.nodes) && MemoryFramed(g.name, c.names, c.memory, start)
    ensures var r := Admit(g, down, c, name, start[name]);
            Framed(g.name, start, r.world.nodes) && MemoryFramed(g.name, r.names, r.memory, start)
  {
    hide SameOutside, Update, Unassigned, Targets, LabelOf, IsStray;
    var node := Admitted(g, start[name]);
    OutsideSelf(g.name, start[name]);
    UnassignedSameOutside(g, start[name]);
    UnassignedSameOutside(g, node);
    var world := if IsStray(g, start[name]) then c.world.(stale := c.world.stale + {name}) else c.world;
    UpdateIsFramed(g.name, down, start, world, name, node, Unassigned(g, node));
  }

  lemma {:induction false} BuildIsFramed(g: Group, down: nat -> bool, order: seq<string>, start: World, i: nat)
    requires i <= |order| && forall n :: n in order ==> n in start.nodes
    ensures var c := Build(g, down, order, start, i);
            Framed(g.name, start.nodes, c.world.nodes) && MemoryFramed(g.name, c.names, c.memory, start.nodes)
  {
    hide Framed, MemoryFramed, Admit;
    if i == 0 {
      FramedSelf(g.name, start.nodes);
      EmptyMemory(g.name, start.nodes);
    } else {
      BuildIsFramed(g, down, order, start, i - 1);
      var c := Build(g, down, order, start, i - 1);
      assert order[i - 1] in order;
      if !c.aborted {
        AdmitIsFramed(g, down, start.nodes, c, order[i - 1]);
      }
    }
  }

  lemma {:induction false} EmptyMemory(g: string, nodes: map<string, Node>)
    ensures MemoryFramed(g, [], [], nodes)
  {
    hide SameOutside;
  }

  // ----- The main loop -----

  ghost predicate ProgressFramed(g: string, names: seq<string>, start: map<string, Node>, p: Progress) {
    Framed(g, start, p.world.nodes) && MemoryFramed(g, names, p.memory, start)
  }

  lemma {:induction false} AssignIsFramed(g: Group, down: nat -> bool, names: seq<string>, start: map<string, Node>, p: Progress, k: nat, a: Assignment)
    requires |p.memory| == |names| && k < |names| && names[k] in p.world.nodes && ProgressFramed(g.name, names, start, p)
    ensures Framed(g.name, start, Update(down, p.world, names[k], p.memory[k], Assigned(g, a, p.memory[k])).0.nodes)
  {
    hide SameOutside, Update, Assigned;
    AssignedSameOutside(g, a, p.memory[k]);
    UpdateIsFramed(g.name, down, start, p.world, names[k], p.memory[k], Assigned(g, a, p.memory[k]));
  }

  lemma {:induction false} FallbackIsFramed(g: Group, down: nat -> bool, names: seq<string>, start: map<string, Node>, p: Progress, k: nat)
    requires |p.memory| == |names| && k < |names| && names[k] in p.world.nodes && ProgressFramed(g.name, names, start, p)
    ensures ProgressFramed(g.name, names, start, UseFallback(g, down, names, p, k))
  {
    hide Framed, MemoryFramed, Update, Assigned, LabelOf;
    if g.fallback.Some? {
      AssignIsFramed(g, down, names, start, p, k, g.fallback.value);
    }
  }

  lemma {:induction false} PlaceIsFramed(g: Group, down: nat -> bool, names: seq<string>, start: map<string, Node>, p: Progress, k: nat)
    requires |p.memory| == |names| && k < |names| && names[k] in p.world.nodes && ProgressFramed(g.name, names, start, p)
    ensures ProgressFramed(g.name, names, start, Place(g, down, names, p, k))
  {
    hide Framed, MemoryFramed, Update, Assigned, UseFallback, FirstDue;
    match FirstDue(g.assignments, p.ledger)
    case None =>
      FallbackIsFramed(g, down, names, start, p, k);
    case Some(a) =>
      AssignIsFramed(g, down, names, start, p, k, a);
      var (world, ok) := Update(down, p.world, names[k], p.memory[k], Assigned(g, a, p.memory[k]));
      FallbackIsFramed(g, down, names, start, p.(world := world), k);
  }

  lemma {:induction false} ReleaseIsFramed(g: Group, names: seq<string>, start: map<string, Node>, p: Progress, k: nat, from: string)
    requires |p.memory| == |names| && k < |names| && ProgressFramed(g.name, names, start, p)
    ensures ProgressFramed(g.name, names, start, Release(g, names, p, k, from))
  {
    hide SameOutside, Unassigned, Bump;
    UnassignedSameOutside(g, p.memory[k]);
    OutsideJoin(g.name, start[names[k]], p.memory[k], Unassigned(g, p.memory[k]));
  }

  lemma {:induction false} StepIsFramed(g: Group, down: nat -> bool, names: seq<string>, start: map<string, Node>, p: Progress, k: nat)
    requires |p.memory| == |names| && k < |names| && names[k] in p.world.nodes && ProgressFramed(g.name, names, start, p)
    ensures ProgressFramed(g.name, names, start, Step(g, down, names, p, k))
  {
    hide ProgressFramed, Place, Release, LabelOf;
    PlaceIsFramed(g, down, names, start, p, k);
    match LabelOf(g, p.memory[k])
    case None =>
    case Some(from) =>
      ReleaseIsFramed(g, names, start, p, k, from);
      PlaceIsFramed(g, down, names, start, Release(g, names, p, k, from), k);
  }

  lemma {:induction false} RunIsFramed(g: Group, down: nat -> bool, names: seq<string>, start: map<string, Node>, p: Progress, k: nat)
    requires k <= |names| && |p.memory| == |names| && forall n :: n in names ==> n in p.world.nodes
    requires ProgressFramed(g.name, names, start, p)
    ensures ProgressFramed(g.name, names, start, Run(g, down, names, p, k))
  {
    hide ProgressFramed, Step;
    if k > 0 {
      RunIsFramed(g, down, names, start, p, k - 1);
      var q := Run(g, down, names, p, k - 1);
      assert names[k - 1] in names;
      if !q.aborted {
        StepIsFramed(g, down, names, start, q, k - 1);
      }
    }
  }

  // ----- Cleanup and sweep -----

  lemma {:induction false} CleanedIsFramed(g: Group, start: map<string, Node>, nodes: map<string, Node>, cleaned: set<string>)
    requires Framed(g.name, start, nodes)
    ensures Framed(g.name, start, Cleaned(g, nodes, cleaned))
  {
    hide SameOutside, Unassigned;
    forall n | n in nodes ensures SameOutside(g.name, start[n], Unassigned(g, nodes[n])) {
      UnassignedSameOutside(g, nodes[n]);
      OutsideJoin(g.name, start[n], nodes[n], Unassigned(g, nodes[n]));
    }
  }

  lemma {:induction false} SweepIsFramed(g: Group, down: nat -> bool, order: seq<string>, start: World, i: nat)
    requires i <= |order| && forall n :: n in order ==> n in start.nodes
    ensures Framed(g.name, start.nodes, Sweep(g, down, order, start, i).nodes)
  {
    hide Framed, Update, Unassigned, SameOutside;
    if i == 0 {
      FramedSelf(g.name, start.nodes);
    } else {
      SweepIsFramed(g, down, order, start, i - 1);
      var n := order[i - 1];
      assert n in order;
      OutsideSelf(g.name, start.nodes[n]);
      UnassignedSameOutside(g, start.nodes[n]);
      UpdateIsFramed(g.name, down, start.nodes, Sweep(g, down, order, start, i - 1), n, start.nodes[n], Unassigned(g, start.nodes[n]));
    }
  }

  // ----- Main results -----

  /** At any point of a reconcile, whatever was refused so far, every node has its foreign labels and,
      in order, its foreign taints. */
  lemma {:induction false} OthersStay(g: Group, down: nat -> bool, order: seq<string>, nodes: map<string, Node>, calls: nat, k: nat, cleaned: set<string>)
    requires forall n :: n in order ==> n in nodes
    requires k <= |Build(g, down, order, World(nodes, calls, {}), |order|).names|
    ensures var c := Build(g, down, order, World(nodes, calls, {}), |order|);
            && Framed(g.name, nodes, c.world.nodes)
            && Framed(g.name, nodes, Cleaned(g, Run(g, down, c.names, Begin(g, c), k).world.nodes, cleaned))
  {
    hide Framed, MemoryFramed, Build, Run, Cleaned, InitialLedger;
    var c := Build(g, down, order, World(nodes, calls, {}), |order|);
    BuildIsFramed(g, down, order, World(nodes, calls, {}), |order|);
    RunIsFramed(g, down, c.names, nodes, Begin(g, c), k);
    CleanedIsFramed(g, nodes, Run(g, down, c.names, Begin(g, c), k).world.nodes, cleaned);
  }

  /** Nor does removing the group from all nodes touch anything else. */
  lemma {:induction false} SweepKeepsOthers(g: Group, down: nat -> bool, order: seq<string>, start: World)
    requires forall n :: n in order ==> n in start.nodes
    ensures Framed(g.name, start.nodes, SweepAll(g, down, order, start).nodes)
  {
    hide Framed, Sweep;
    FramedSelf(g.name, start.nodes);
    SweepIsFramed(g, down, order, start.(calls := start.calls + 1), |order|);
  }
}

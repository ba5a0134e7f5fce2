/** What holds at every point of a pass, whichever calls are refused: the ledger's balance,
    and that no assignment is ever given more nodes than it had or should have. */
module Safety {
  import opened Cluster
  import opened Groups
  import opened Allocation
  import opened Plan
  import opened Pass
  import opened Lists
  import opened Reconciling
  import opened Allocated

  // ----- Counting after one change -----

  lemma {:induction false} BeforeUpdate(labels: seq<Option<string>>, k: nat, x: Option<string>, m: nat, c: Option<string>)
    requires k < |labels| && m <= |labels|
    ensures Before(labels[k := x], m, c) ==
              Before(labels, m, c) + if k < m then (if x == c then 1 else 0) - (if labels[k] == c then 1 else 0) else 0
  {
    if m > 0 {
      BeforeUpdate(labels, k, x, m - 1, c);
    }
  }

  /** In-memory nodes on assignment c. */
  function InMemory(g: Group, memory: seq<Node>, c: string): nat { Total(LabelsOf(g, memory), Some(c)) }

  lemma {:induction false} InMemoryUpdate(g: Group, memory: seq<Node>, k: nat, node: Node, c: string)
    requires k < |memory|
    ensures InMemory(g, memory[k := node], c) == InMemory(g, memory, c)
              + (if LabelOf(g, node) == Some(c) then 1 else 0) - (if LabelOf(g, memory[k]) == Some(c) then 1 else 0)
  {
    hide LabelOf, Before;
    assert LabelsOf(g, memory[k := node]) == LabelsOf(g, memory)[k := LabelOf(g, node)];
    BeforeUpdate(LabelsOf(g, memory), k, LabelOf(g, node), |memory|, Some(c));
  }

  lemma {:induction false} OnUpdate(g: Group, nodes: map<string, Node>, names: seq<string>, k: nat, node: Node, c: string)
    requires k < |names| && Distinct(names) && forall n :: n in names ==> n in nodes
    ensures names[k] in nodes
    ensures On(g, nodes[names[k] := node], names, c) == On(g, nodes, names, c)
              + (if LabelOf(g, node) == Some(c) then 1 else 0) - (if LabelOf(g, nodes[names[k]]) == Some(c) then 1 else 0)
  {
    hide LabelOf, Before;
    assert names[k] in names;
    assert LabelsNow(g, nodes[names[k] := node], names) == LabelsNow(g, nodes, names)[k := LabelOf(g, node)];
    BeforeUpdate(LabelsNow(g, nodes, names), k, LabelOf(g, node), |names|, Some(c));
  }

  /** How often c was handed out. */
  function HandedOut(served: seq<string>, c: string): nat {
    if served == [] then 0 else HandedOut(served[..|served| - 1], c) + if served[|served| - 1] == c then 1 else 0
  }

  // ----- One turn, calls refused or not -----

  /** The label is set on the stored node, whatever the node carried there. */
  lemma {:induction false} PatchSetsLabel(g: Group, a: Assignment, stored: Node, memory: Node)
    requires LabelOf(g, memory).None?
    ensures LabelOf(g, ApplyPatch(stored, memory, Assigned(g, a, memory))) == Some(a.name)
  {
    hide TaintOf;
  }

  /** Node k as stored is patched to assignment a. */
  ghost predicate Patched(g: Group, names: seq<string>, q: Progress, r: Progress, k: nat, a: Assignment)
    requires |q.memory| == |names| && k < |names| && names[k] in q.world.nodes
  {
    r.world.nodes == q.world.nodes[names[k] :=
      ApplyPatch(q.world.nodes[names[k]], q.memory[k], Assigned(g, a, q.memory[k]))]
  }

  /** A placement counts the node for an assignment with something due, ... */
  ghost predicate PlacedCounted(g: Group, names: seq<string>, q: Progress, r: Progress, k: nat, a: Assignment)
    requires |q.memory| == |names| && k < |names| && names[k] in q.world.nodes
  {
    && Due(q.ledger, a.name) > 0
    && r.ledger == Bump(q.ledger, a.name, -1) && r.served == q.served + [a.name]
    && Patched(g, names, q, r, k, a)
  }

  /** ... or leaves the ledger alone and puts the node on the default or nowhere. */
  ghost predicate PlacedUncounted(g: Group, names: seq<string>, q: Progress, r: Progress, k: nat)
    requires |q.memory| == |names| && k < |names| && names[k] in q.world.nodes
  {
    && r.ledger == q.ledger && r.served == q.served
    && (r.world.nodes == q.world.nodes || (g.fallback.Some? && Patched(g, names, q, r, k, g.fallback.value)))
  }

  lemma {:induction false} FirstDueIsDue(assignments: seq<Assignment>, ledger: map<string, int>)
    ensures FirstDue(assignments, ledger).Some? ==>
              FirstDue(assignments, ledger).value in assignments && Due(ledger, FirstDue(assignments, ledger).value.name) > 0
  {
    if assignments != [] {
      FirstDueIsDue(assignments[1..], ledger);
    }
  }

  lemma {:induction false} PlaceIsPlaced(g: Group, down: nat -> bool, names: seq<string>, q: Progress, k: nat)
    returns (a: Option<Assignment>)
    requires |q.memory| == |names| && k < |names| && names[k] in q.world.nodes
    requires LabelOf(g, q.memory[k]).None?
    ensures var r := Place(g, down, names, q, k);
            && r.memory == q.memory
            && if a.Some? then a.value in g.assignments && PlacedCounted(g, names, q, r, k, a.value)
               else PlacedUncounted(g, names, q, r, k)
  {
    FirstDueIsDue(g.assignments, q.ledger);
    a := FirstDue(g.assignments, q.ledger);
    if a.Some? {
      AssignedDiffers(g, a.value, q.memory[k]);
      if down(q.world.calls) {
        a := None;
      }
    }
    if g.fallback.Some? {
      AssignedDiffers(g, g.fallback.value, q.memory[k]);
    }
    hide FirstDue, Due, Bump, ApplyPatch, Assigned, IsEmptyPatch, LabelOf;
  }

  // ----- The balance -----

  /** Ledger of c, at any point of the pass: signs never flip, the balance holds, and the API shows at
      most as many nodes more than at the start as the ledger has been paid down. */
  ghost predicate Balanced(g: Group, names: seq<string>, start: Progress, p: Progress, c: string)
    requires forall n :: n in names ==> n in start.world.nodes && n in p.world.nodes
  {
    var entry0, entry := Get(start.ledger, c), Get(p.ledger, c);
    && (if entry0 >= 0 then 0 <= entry <= entry0 else entry0 <= entry <= 0)
    && entry + InMemory(g, p.memory, c) + HandedOut(p.served, c)
         == entry0 + InMemory(g, start.memory, c) + HandedOut(start.served, c)
    && On(g, p.world.nodes, names, c) <= On(g, start.world.nodes, names, c) + Due(start.ledger, c) - Due(p.ledger, c)
  }

  lemma {:induction false} HandOutOne(served: seq<string>, a: string, c: string)
    ensures HandedOut(served + [a], c) == HandedOut(served, c) + if a == c then 1 else 0
  {
    assert (served + [a])[..|served|] == served;
  }

  lemma {:induction false} UncountedKeepsBalance(g: Group, names: seq<string>, start: Progress, q: Progress, r: Progress, k: nat, c: string)
    requires |q.memory| == |names| && k < |names| && Distinct(names) && r.memory == q.memory
    requires forall n :: n in names ==> n in start.world.nodes && n in q.world.nodes && n in r.world.nodes
    requires names[k] in q.world.nodes && LabelOf(g, q.memory[k]).None?
    requires PlacedUncounted(g, names, q, r, k) && FallbackName(g) != Some(c)
    requires Balanced(g, names, start, q, c)
    ensures Balanced(g, names, start, r, c)
  {
    hide InMemory, HandedOut, Get, Due, LabelOf, ApplyPatch, Assigned, On;
    if r.world.nodes != q.world.nodes {
      PatchSetsLabel(g, g.fallback.value, q.world.nodes[names[k]], q.memory[k]);
      OnUpdate(g, q.world.nodes, names, k,
               ApplyPatch(q.world.nodes[names[k]], q.memory[k], Assigned(g, g.fallback.value, q.memory[k])), c);
    }
  }

  lemma {:induction false} CountedKeepsBalance(g: Group, names: seq<string>, start: Progress, q: Progress, r: Progress, k: nat,
                                               a: Assignment, c: string)
    requires |q.memory| == |names| && k < |names| && Distinct(names) && r.memory == q.memory
    requires forall n :: n in names ==> n in start.world.nodes && n in q.world.nodes && n in r.world.nodes
    requires names[k] in q.world.nodes && LabelOf(g, q.memory[k]).None?
    requires PlacedCounted(g, names, q, r, k, a)
    requires Balanced(g, names, start, q, c)
    ensures Balanced(g, names, start, r, c)
  {
    hide InMemory, HandedOut, LabelOf, ApplyPatch, Assigned, On, Bump;
    PatchSetsLabel(g, a, q.world.nodes[names[k]], q.memory[k]);
    HandOutOne(q.served, a.name, c);
    OnUpdate(g, q.world.nodes, names, k, ApplyPatch(q.world.nodes[names[k]], q.memory[k], Assigned(g, a, q.memory[k])), c);
    BumpEntry(q.ledger, a.name, -1, c);
  }

  lemma {:induction false} PlaceKeepsBalance(g: Group, down: nat -> bool, names: seq<string>, start: Progress, q: Progress, k: nat, c: string)
    requires |q.memory| == |names| && k < |names| && Distinct(names)
    requires q.world.nodes.Keys == start.world.nodes.Keys && forall n :: n in names ==> n in start.world.nodes
    requires names[k] in q.world.nodes && LabelOf(g, q.memory[k]).None? && FallbackName(g) != Some(c)
    requires Balanced(g, names, start, q, c)
    ensures Balanced(g, names, start, Place(g, down, names, q, k), c)
  {
    hide Balanced, Place, LabelOf, PlacedCounted, PlacedUncounted;
    var a := PlaceIsPlaced(g, down, names, q, k);
    if a.Some? {
      CountedKeepsBalance(g, names, start, q, Place(g, down, names, q, k), k, a.value, c);
    } else {
      UncountedKeepsBalance(g, names, start, q, Place(g, down, names, q, k), k, c);
    }
  }

  lemma {:induction false} BumpEntry(ledger: map<string, int>, a: string, d: int, c: string)
    ensures Get(Bump(ledger, a, d), c) == Get(ledger, c) + if a == c then d else 0
  {
  }

  /** Releasing a node moves one unit from the in-memory count to the ledger. */
  lemma {:induction false} ReleaseKeepsBalance(g: Group, names: seq<string>, start: Progress, p: Progress, k: nat, from: string, c: string)
    requires |p.memory| == |names| && k < |names| && LabelOf(g, p.memory[k]) == Some(from)
    requires forall n :: n in names ==> n in start.world.nodes && n in p.world.nodes
    requires FallbackName(g) != Some(c) && (Get(p.ledger, from) < 0 || FallbackName(g) == Some(from))
    requires Balanced(g, names, start, p, c)
    ensures Balanced(g, names, start, Release(g, names, p, k, from), c)
  {
    UnassignedHasNoLabel(g, p.memory[k]);
    BumpEntry(p.ledger, from, 1, c);
    InMemoryUpdate(g, p.memory, k, Unassigned(g, p.memory[k]), c);
    hide InMemory, HandedOut, LabelOf, Unassigned, On, Bump;
  }

  lemma {:induction false} StepKeepsBalance(g: Group, down: nat -> bool, names: seq<string>, start: Progress, p: Progress, k: nat, c: string)
    requires |p.memory| == |names| && k < |names| && Distinct(names)
    requires p.world.nodes.Keys == start.world.nodes.Keys && forall n :: n in names ==> n in start.world.nodes
    requires names[k] in p.world.nodes && FallbackName(g) != Some(c)
    requires Balanced(g, names, start, p, c)
    ensures Balanced(g, names, start, Step(g, down, names, p, k), c)
  {
    hide Balanced, Place, Release, LabelOf;
    var from := LabelOf(g, p.memory[k]);
    if from.None? {
      PlaceKeepsBalance(g, down, names, start, p, k, c);
    } else if Get(p.ledger, from.value) < 0 || FallbackName(g) == from {
      ReleaseKeepsBalance(g, names, start, p, k, from.value, c);
      var q := Release(g, names, p, k, from.value);
      ReleasedHasNoLabel(g, names, p, k, from.value);
      PlaceKeepsBalance(g, down, names, start, q, k, c);
    }
  }

  lemma {:induction false} ReleasedHasNoLabel(g: Group, names: seq<string>, p: Progress, k: nat, from: string)
    requires |p.memory| == |names| && k < |names|
    ensures LabelOf(g, Release(g, names, p, k, from).memory[k]).None?
  {
    UnassignedHasNoLabel(g, p.memory[k]);
    hide Unassigned, Bump, LabelOf;
  }

  /** The balance holds after every node, whichever calls were refused so far. */
  lemma {:induction false} RunKeepsBalance(g: Group, down: nat -> bool, names: seq<string>, start: Progress, k: nat, c: string)
    requires k <= |names| == |start.memory| && Distinct(names) && forall n :: n in names ==> n in start.world.nodes
    requires FallbackName(g) != Some(c)
    ensures Balanced(g, names, start, Run(g, down, names, start, k), c)
  {
    hide Step;
    if k == 0 {
      hide On, InMemory, HandedOut;
    } else {
      RunKeepsBalance(g, down, names, start, k - 1, c);
      hide Balanced;
      assert names[k - 1] in names;
      StepKeepsBalance(g, down, names, start, Run(g, down, names, start, k - 1), k - 1, c);
    }
  }

  // ----- Releases still owed -----

  /** What assignment c still has to release is covered by its nodes not yet visited. */
  ghost predicate ReleasesCovered(g: Group, start: Progress, p: Progress, k: nat, c: string)
    requires k <= |start.memory| == |p.memory|
  {
    var labels := LabelsOf(g, start.memory);
    && Surplus(p.ledger, c) <= Total(labels, Some(c)) - Before(labels, k, Some(c))
    && forall j :: k <= j < |p.memory| ==> p.memory[j] == start.memory[j]
  }

  lemma {:induction false} PlaceKeepsSurplus(g: Group, down: nat -> bool, names: seq<string>, q: Progress, k: nat, c: string)
    requires |q.memory| == |names| && k < |names| && names[k] in q.world.nodes && LabelOf(g, q.memory[k]).None?
    ensures Surplus(Place(g, down, names, q, k).ledger, c) == Surplus(q.ledger, c)
    ensures Place(g, down, names, q, k).memory == q.memory
  {
    hide Place, LabelOf, Patched;
    var a := PlaceIsPlaced(g, down, names, q, k);
    if a.Some? {
      BumpEntry(q.ledger, a.value.name, -1, c);
    }
    hide Bump;
  }

  lemma {:induction false} StepKeepsReleases(g: Group, down: nat -> bool, names: seq<string>, start: Progress, p: Progress, k: nat, c: string)
    requires k < |names| == |p.memory| == |start.memory| && names[k] in p.world.nodes && FallbackName(g) != Some(c)
    requires ReleasesCovered(g, start, p, k, c)
    ensures ReleasesCovered(g, start, Step(g, down, names, p, k), k + 1, c)
  {
    hide Place, LabelOf, Bump, Unassigned;
    var labels := LabelsOf(g, start.memory);
    var from := labels[k];
    BeforeGrows(labels, k + 1, |labels|, Some(c));
    assert Before(labels, k + 1, Some(c)) == Before(labels, k, Some(c)) + if from == Some(c) then 1 else 0;
    hide Before;
    if from.None? {
      PlaceKeepsSurplus(g, down, names, p, k, c);
    } else if Get(p.ledger, from.value) < 0 || FallbackName(g) == from {
      var q := Release(g, names, p, k, from.value);
      ReleasedHasNoLabel(g, names, p, k, from.value);
      BumpEntry(p.ledger, from.value, 1, c);
      PlaceKeepsSurplus(g, down, names, q, k, c);
    }
  }

  lemma {:induction false} BeforeGrows(labels: seq<Option<string>>, j: nat, k: nat, c: Option<string>)
    requires j <= k <= |labels|
    ensures Before(labels, j, c) <= Before(labels, k, c)
  {
    if j < k {
      BeforeGrows(labels, j, k - 1, c);
    }
  }

  lemma {:induction false} RunKeepsReleases(g: Group, down: nat -> bool, names: seq<string>, start: Progress, k: nat, c: string)
    requires k <= |names| == |start.memory| && forall n :: n in names ==> n in start.world.nodes
    requires FallbackName(g) != Some(c) && Surplus(start.ledger, c) <= InMemory(g, start.memory, c)
    ensures !Run(g, down, names, start, k).aborted ==> ReleasesCovered(g, start, Run(g, down, names, start, k), k, c)
  {
    hide Step, LabelOf;
    if k > 0 {
      RunKeepsReleases(g, down, names, start, k - 1, c);
      var p := Run(g, down, names, start, k - 1);
      assert names[k - 1] in names;
      hide ReleasesCovered;
      if !p.aborted {
        StepKeepsReleases(g, down, names, start, p, k - 1, c);
      }
    }
  }

  /** A main loop that was not cut short leaves no entry negative. */
  lemma {:induction false} NothingOwedAtEnd(g: Group, down: nat -> bool, names: seq<string>, start: Progress, c: string)
    requires |names| == |start.memory| && forall n :: n in names ==> n in start.world.nodes
    requires FallbackName(g) != Some(c) && Surplus(start.ledger, c) <= InMemory(g, start.memory, c)
    ensures !Run(g, down, names, start, |names|).aborted ==> Get(Run(g, down, names, start, |names|).ledger, c) >= 0
  {
    hide Run, LabelOf;
    RunKeepsReleases(g, down, names, start, |names|, c);
    hide Before;
  }

  // ----- Labels -----

  /** Every stored label is the one from the start or that of an assignment of the group. */
  ghost predicate LabelsLegitimate(g: Group, start: map<string, Node>, nodes: map<string, Node>) {
    start.Keys == nodes.Keys &&
    forall n :: n in nodes ==> LabelOf(g, nodes[n]) == LabelOf(g, start[n]) || KnownLabel(g, LabelOf(g, nodes[n]))
  }

  predicate KnownLabel(g: Group, c: Option<string>) { c.Some? && Known(g, c.value) }

  lemma {:induction false} PatchedIsLegitimate(g: Group, names: seq<string>, start: map<string, Node>, q: Progress, r: Progress, k: nat, a: Assignment)
    requires |q.memory| == |names| && k < |names| && names[k] in q.world.nodes && LabelOf(g, q.memory[k]).None?
    requires Patched(g, names, q, r, k, a) && Known(g, a.name)
    requires LabelsLegitimate(g, start, q.world.nodes)
    ensures LabelsLegitimate(g, start, r.world.nodes)
  {
    PatchSetsLabel(g, a, q.world.nodes[names[k]], q.memory[k]);
    hide LabelOf, ApplyPatch, Assigned, Known;
  }

  lemma {:induction false} AssignmentsAreKnown(g: Group, a: Assignment)
    requires a in g.assignments || g.fallback == Some(a)
    ensures Known(g, a.name)
  {
    if a in g.assignments {
      var i :| 0 <= i < |g.assignments| && g.assignments[i] == a;
      assert Named(g.assignments, a.name);
    }
  }

  lemma {:induction false} PlaceKeepsLabels(g: Group, down: nat -> bool, names: seq<string>, start: map<string, Node>, q: Progress, k: nat)
    requires |q.memory| == |names| && k < |names| && names[k] in q.world.nodes && LabelOf(g, q.memory[k]).None?
    requires LabelsLegitimate(g, start, q.world.nodes)
    ensures LabelsLegitimate(g, start, Place(g, down, names, q, k).world.nodes)
  {
    hide LabelsLegitimate, Place, LabelOf, Patched, Known, Bump, Due;
    var a := PlaceIsPlaced(g, down, names, q, k);
    var r := Place(g, down, names, q, k);
    if a.Some? {
      AssignmentsAreKnown(g, a.value);
      PatchedIsLegitimate(g, names, start, q, r, k, a.value);
    } else if r.world.nodes != q.world.nodes {
      AssignmentsAreKnown(g, g.fallback.value);
      PatchedIsLegitimate(g, names, start, q, r, k, g.fallback.value);
    }
  }

  lemma {:induction false} StepKeepsLabels(g: Group, down: nat -> bool, names: seq<string>, start: map<string, Node>, p: Progress, k: nat)
    requires |p.memory| == |names| && k < |names| && names[k] in p.world.nodes
    requires LabelsLegitimate(g, start, p.world.nodes)
    ensures LabelsLegitimate(g, start, Step(g, down, names, p, k).world.nodes)
  {
    hide LabelsLegitimate, Place, Release, LabelOf;
    var from := LabelOf(g, p.memory[k]);
    if from.None? {
      PlaceKeepsLabels(g, down, names, start, p, k);
    } else if Get(p.ledger, from.value) < 0 || FallbackName(g) == from {
      ReleasedHasNoLabel(g, names, p, k, from.value);
      PlaceKeepsLabels(g, down, names, start, Release(g, names, p, k, from.value), k);
    }
  }

  lemma {:induction false} RunKeepsLabels(g: Group, down: nat -> bool, names: seq<string>, start: Progress, k: nat)
    requires k <= |names| == |start.memory| && forall n :: n in names ==> n in start.world.nodes
    ensures LabelsLegitimate(g, start.world.nodes, Run(g, down, names, start, k).world.nodes)
  {
    hide Step, LabelOf;
    if k > 0 {
      RunKeepsLabels(g, down, names, start, k - 1);
      hide LabelsLegitimate;
      assert names[k - 1] in names;
      StepKeepsLabels(g, down, names, start.world.nodes, Run(g, down, names, start, k - 1), k - 1);
    }
  }

  // ----- From the listing on -----

  /** Whatever was refused, a built context holds distinct listed nodes, stored as listed. */
  ghost predicate Faithful(g: Group, order: seq<string>, nodes: map<string, Node>, c: Context, i: nat)
    requires i <= |order|
  {
    && Distinct(c.names) && |c.memory| == |c.names| && c.world.nodes.Keys == nodes.Keys
    && (forall n :: n in c.names ==> n in order[..i])
    && (forall k :: 0 <= k < |c.names| ==>
          && c.names[k] in nodes
          && c.memory[k] == Admitted(g, nodes[c.names[k]]) && c.world.nodes[c.names[k]] == nodes[c.names[k]])
    && (forall n :: n in nodes && n !in order[..i] ==> c.world.nodes[n] == nodes[n])
    && (forall n :: n in nodes ==> LabelOf(g, c.world.nodes[n]).None? || c.world.nodes[n] == nodes[n])
  }

  lemma {:induction false} AdmitEffect(g: Group, down: nat -> bool, c: Context, name: string, node: Node)
    requires name in c.world.nodes && c.world.nodes[name] == node
    ensures var r := Admit(g, down, c, name, node);
            && (if IsTargeted(g, node)
                then r.names == c.names + [name] && r.memory == c.memory + [Admitted(g, node)] && r.world.nodes == c.world.nodes
                else r.names == c.names && r.memory == c.memory
                     && (r.world.nodes == c.world.nodes || r.world.nodes == c.world.nodes[name := Unassigned(g, node)]))
  {
    UnassignedHasNoLabel(g, node);
    PatchFromCurrent(node, Unassigned(g, node));
    hide Targets, ApplyPatch, Unassigned, Known;
  }

  lemma {:induction false} AdmitIsFaithful(g: Group, order: seq<string>, nodes: map<string, Node>, c: Context, r: Context, i: nat, name: string)
    requires i < |order| && name == order[i] && Distinct(order) && name in nodes
    requires Faithful(g, order, nodes, c, i)
    requires if IsTargeted(g, nodes[name])
             then r.names == c.names + [name] && r.memory == c.memory + [Admitted(g, nodes[name])] && r.world.nodes == c.world.nodes
             else r.names == c.names && r.memory == c.memory
                  && (r.world.nodes == c.world.nodes || r.world.nodes == c.world.nodes[name := Unassigned(g, nodes[name])])
    ensures Faithful(g, order, nodes, r, i + 1)
  {
    UnassignedHasNoLabel(g, nodes[name]);
    assert order[..i + 1] == order[..i] + [name];
    assert name !in order[..i];
    hide IsTargeted, Admitted, Unassigned, LabelOf;
  }

  lemma {:induction false} LaterIsFaithful(g: Group, order: seq<string>, nodes: map<string, Node>, c: Context, i: nat)
    requires i < |order| && Faithful(g, order, nodes, c, i)
    ensures Faithful(g, order, nodes, c, i + 1)
  {
    assert order[..i + 1] == order[..i] + [order[i]];
    hide Admitted, LabelOf, Distinct;
  }

  lemma {:induction false} BuildIsFaithful(g: Group, down: nat -> bool, order: seq<string>, start: World, i: nat)
    requires i <= |order| && Distinct(order) && forall n :: n in order ==> n in start.nodes
    ensures Faithful(g, order, start.nodes, Build(g, down, order, start, i), i)
  {
    hide Admit, LabelOf, Admitted, IsTargeted, Unassigned;
    if i > 0 {
      BuildIsFaithful(g, down, order, start, i - 1);
      var c := Build(g, down, order, start, i - 1);
      var name := order[i - 1];
      assert name in order && name !in order[..i - 1];
      if c.aborted {
        LaterIsFaithful(g, order, start.nodes, c, i - 1);
      } else {
        assert c.world.nodes[name] == start.nodes[name];
        hide Faithful;
        AdmitEffect(g, down, c, name, start.nodes[name]);
        AdmitIsFaithful(g, order, start.nodes, c, Admit(g, down, c, name, start.nodes[name]), i - 1, name);
      }
    }
  }
}

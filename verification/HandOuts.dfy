/** The nodes a pass hands out, read off the store: whatever is refused, an assignment was handed out as often
    as there are nodes stored on it now that were not stored on it at the start. */
module HandOuts {
  import opened Cluster
  import opened Groups
  import opened Allocation
  import opened Plan
  import opened Pass
  import opened Lists
  import opened Reconciling
  import opened Allocated
  import opened Safety
  import opened Refusals
  import opened ShortListings

  /** How many of the first m names are on c now and were not before. */
  function NewlyOn(g: Group, before: map<string, Node>, now: map<string, Node>, names: seq<string>, m: nat, c: string): nat
    requires m <= |names| && forall n :: n in names ==> n in before && n in now
  {
    if m == 0 then 0
    else
      assert names[m - 1] in names;
      NewlyOn(g, before, now, names, m - 1, c) + if IsNewlyOn(g, before[names[m - 1]], now[names[m - 1]], c) then 1 else 0
  }

  predicate IsNewlyOn(g: Group, before: Node, now: Node, c: string) {
    LabelOf(g, now) == Some(c) && LabelOf(g, before) != Some(c)
  }

  lemma {:induction false} NewlyOnUpdate(g: Group, before: map<string, Node>, now: map<string, Node>, now': map<string, Node>, names: seq<string>,
                                         m: nat, k: nat, c: string)
    requires m <= |names| && k < |names| && Distinct(names) && forall n :: n in names ==> n in before && n in now && n in now'
    requires forall n :: n in names && n != names[k] ==> now'[n] == now[n]
    ensures names[k] in before && names[k] in now && names[k] in now'
    ensures NewlyOn(g, before, now', names, m, c) == NewlyOn(g, before, now, names, m, c) +
              if k < m then (if IsNewlyOn(g, before[names[k]], now'[names[k]], c) then 1 else 0)
                            - (if IsNewlyOn(g, before[names[k]], now[names[k]], c) then 1 else 0)
              else 0
  {
    hide IsNewlyOn;
    assert names[k] in names;
    if m > 0 {
      NewlyOnUpdate(g, before, now, now', names, m - 1, k, c);
      assert names[m - 1] in names;
    }
  }

  lemma {:induction false} StepKeepsMemory(g: Group, down: nat -> bool, names: seq<string>, p: Progress, k: nat, j: nat)
    requires k < |names| == |p.memory| && names[k] in p.world.nodes && j < |names| && j != k
    ensures Step(g, down, names, p, k).memory[j] == p.memory[j]
  {
    hide LabelOf, Unassigned, Assigned, Update, FirstDue, Bump;
  }

  lemma {:induction false} RunKeepsUnvisited(g: Group, down: nat -> bool, names: seq<string>, start: Progress, k: nat, j: nat)
    requires k <= j < |names| == |start.memory| && Distinct(names) && forall n :: n in names ==> n in start.world.nodes
    ensures names[j] in start.world.nodes
    ensures Run(g, down, names, start, k).memory[j] == start.memory[j]
    ensures Run(g, down, names, start, k).world.nodes[names[j]] == start.world.nodes[names[j]]
  {
    hide Step;
    assert names[j] in names;
    if k > 0 {
      RunKeepsUnvisited(g, down, names, start, k - 1, j);
      var p := Run(g, down, names, start, k - 1);
      assert names[k - 1] in names;
      if !p.aborted {
        StepKeepsMemory(g, down, names, p, k - 1, j);
        TurnKeepsOthers(g, down, names, p, k - 1, names[j]);
      }
    }
  }

  lemma {:induction false} HandedOutAppend(served: seq<string>, a: string, c: string)
    ensures HandedOut(served + [a], c) == HandedOut(served, c) + if a == c then 1 else 0
  {
    assert (served + [a])[..|served|] == served;
  }

  /** Placing an unlabelled node counts it for c exactly if it stores it on c, provided that c is due nothing
      when the node was on c before. */
  lemma {:induction false} PlaceCounts(g: Group, down: nat -> bool, names: seq<string>, q: Progress, k: nat, c: string)
    requires |q.memory| == |names| && k < |names| && names[k] in q.world.nodes && LabelOf(g, q.memory[k]).None?
    requires FallbackName(g) != Some(c)
    requires LabelOf(g, q.world.nodes[names[k]]) == Some(c) ==> Due(q.ledger, c) == 0
    ensures var r := Place(g, down, names, q, k);
            HandedOut(r.served, c) == HandedOut(q.served, c) +
              if IsNewlyOn(g, q.world.nodes[names[k]], r.world.nodes[names[k]], c) then 1 else 0
  {
    hide Place, LabelOf, HandedOut, Due, Bump, ApplyPatch, Assigned;
    var a := PlaceIsPlaced(g, down, names, q, k);
    if a.Some? {
      PatchSetsLabel(g, a.value, q.world.nodes[names[k]], q.memory[k]);
      HandedOutAppend(q.served, a.value.name, c);
    } else if g.fallback.Some? {
      PatchSetsLabel(g, g.fallback.value, q.world.nodes[names[k]], q.memory[k]);
    }
  }

  lemma {:induction false} ReleasedIsNotDue(ledger: map<string, int>, c: string)
    requires Get(ledger, c) < 0
    ensures Due(Bump(ledger, c, 1), c) == 0
  {
  }

  lemma {:induction false} StepCounts(g: Group, down: nat -> bool, names: seq<string>, p: Progress, k: nat, c: string)
    requires |p.memory| == |names| && k < |names| && names[k] in p.world.nodes && FallbackName(g) != Some(c)
    requires LabelOf(g, p.world.nodes[names[k]]) == Some(c) ==> LabelOf(g, p.memory[k]) == Some(c)
    ensures var r := Step(g, down, names, p, k);
            HandedOut(r.served, c) == HandedOut(p.served, c) +
              if IsNewlyOn(g, p.world.nodes[names[k]], r.world.nodes[names[k]], c) then 1 else 0
  {
    hide Place, LabelOf, HandedOut, Due, Bump, Unassigned;
    var from := LabelOf(g, p.memory[k]);
    if from.None? {
      PlaceCounts(g, down, names, p, k, c);
    } else if Get(p.ledger, from.value) < 0 || FallbackName(g) == from {
      ReleasedHasNoLabel(g, names, p, k, from.value);
      if from == Some(c) {
        ReleasedIsNotDue(p.ledger, c);
      }
      PlaceCounts(g, down, names, Release(g, names, p, k, from.value), k, c);
    }
  }

  lemma {:induction false} NothingNew(g: Group, nodes: map<string, Node>, names: seq<string>, m: nat, c: string)
    requires m <= |names| && forall n :: n in names ==> n in nodes
    ensures NewlyOn(g, nodes, nodes, names, m, c) == 0
  {
    if m > 0 {
      NothingNew(g, nodes, names, m - 1, c);
    }
  }

  /** A node stored on c is on c in memory. */
  ghost predicate InMemoryToo(g: Group, names: seq<string>, start: Progress, c: string) {
    |start.memory| == |names| &&
    forall j :: 0 <= j < |names| ==>
      (names[j] in start.world.nodes && LabelOf(g, start.world.nodes[names[j]]) == Some(c) ==> LabelOf(g, start.memory[j]) == Some(c))
  }

  lemma {:induction false} InMemoryAt(g: Group, names: seq<string>, start: Progress, c: string, j: nat)
    requires InMemoryToo(g, names, start, c) && j < |names| && names[j] in start.world.nodes
    ensures LabelOf(g, start.world.nodes[names[j]]) == Some(c) ==> LabelOf(g, start.memory[j]) == Some(c)
  {
    hide LabelOf;
  }

  lemma {:induction false} TurnCounts(g: Group, down: nat -> bool, names: seq<string>, before: map<string, Node>, p: Progress, k: nat, c: string)
    requires |p.memory| == |names| && k < |names| && Distinct(names) && forall n :: n in names ==> n in before && n in p.world.nodes
    requires FallbackName(g) != Some(c) && names[k] in before && names[k] in p.world.nodes && p.world.nodes[names[k]] == before[names[k]]
    requires LabelOf(g, before[names[k]]) == Some(c) ==> LabelOf(g, p.memory[k]) == Some(c)
    requires HandedOut(p.served, c) == NewlyOn(g, before, p.world.nodes, names, |names|, c)
    ensures var r := Step(g, down, names, p, k);
            HandedOut(r.served, c) == NewlyOn(g, before, r.world.nodes, names, |names|, c)
  {
    hide Step, LabelOf, HandedOut, NewlyOn, IsNewlyOn, Distinct;
    var r := Step(g, down, names, p, k);
    StepCounts(g, down, names, p, k, c);
    forall n | n in names && n != names[k] ensures r.world.nodes[n] == p.world.nodes[n] {
      TurnKeepsOthers(g, down, names, p, k, n);
    }
    NewlyOnUpdate(g, before, p.world.nodes, r.world.nodes, names, |names|, k, c);
    SameIsNotNew(g, before[names[k]], c);
  }

  lemma {:induction false} RunCounts(g: Group, down: nat -> bool, names: seq<string>, start: Progress, k: nat, c: string)
    requires k <= |names| == |start.memory| && Distinct(names) && (forall n :: n in names ==> n in start.world.nodes)
    requires FallbackName(g) != Some(c) && start.served == [] && InMemoryToo(g, names, start, c)
    ensures var p := Run(g, down, names, start, k);
            HandedOut(p.served, c) == NewlyOn(g, start.world.nodes, p.world.nodes, names, |names|, c)
  {
    hide Step, LabelOf, HandedOut, NewlyOn, InMemoryToo, Distinct;
    if k == 0 {
      NothingNew(g, start.world.nodes, names, |names|, c);
      NoHandOuts(c);
    } else {
      RunCounts(g, down, names, start, k - 1, c);
      var p := Run(g, down, names, start, k - 1);
      assert names[k - 1] in names;
      if !p.aborted {
        RunKeepsUnvisited(g, down, names, start, k - 1, k - 1);
        InMemoryAt(g, names, start, c, k - 1);
        TurnCounts(g, down, names, start.world.nodes, p, k - 1, c);
      }
    }
  }

  lemma {:induction false} NoHandOuts(c: string)
    ensures HandedOut([], c) == 0
  {
  }

  lemma {:induction false} SameIsNotNew(g: Group, node: Node, c: string)
    ensures !IsNewlyOn(g, node, node, c)
  {
  }

  /** At every point of a reconcile, whatever is refused. */
  lemma {:induction false} HandedOutAreStored(g: Group, down: nat -> bool, order: seq<string>, nodes: map<string, Node>, calls: nat, k: nat, i: nat)
    requires IsListing(order, nodes) && WellFormed(g) && i < |g.assignments|
    requires k <= |BuiltContext(g, down, order, nodes, calls).names|
    ensures var c := BuiltContext(g, down, order, nodes, calls);
            var p := Turns(g, down, order, nodes, calls, k);
            HandedOut(p.served, g.assignments[i].name) == NewlyOn(g, nodes, p.world.nodes, c.names, |c.names|, g.assignments[i].name)
  {
    hide Build, Run, WellFormed, Faithful, LabelOf, Admitted, NewlyOn, HandedOut, InitialLedger, IsStray, Distinct;
    var c := BuiltContext(g, down, order, nodes, calls);
    var a := g.assignments[i].name;
    BuildIsFaithful(g, down, order, World(nodes, calls, {}), |order|);
    FaithfulFacts(g, order, nodes, c);
    FaithfulMemory(g, order, nodes, c);
    NotTheFallback(g, i);
    assert Named(g.assignments, a);
    NamedIsKnown(g, a);
    forall j | 0 <= j < |c.names|
      ensures c.names[j] in nodes && (LabelOf(g, nodes[c.names[j]]) == Some(a) ==> LabelOf(g, c.memory[j]) == Some(a))
    {
      assert c.names[j] in c.names;
      AdmittedLabel(g, nodes[c.names[j]]);
      StrayIsUnknown(g, nodes[c.names[j]]);
    }
    RunCounts(g, down, c.names, Begin(g, c), k, a);
    SameBefore(g, c.world.nodes, nodes, Turns(g, down, order, nodes, calls, k).world.nodes, c.names, |c.names|, a);
  }

  lemma {:induction false} SameBefore(g: Group, before: map<string, Node>, before': map<string, Node>, now: map<string, Node>, names: seq<string>,
                                      m: nat, c: string)
    requires m <= |names| && (forall n :: n in names ==> n in before && n in before' && n in now)
    requires forall j :: 0 <= j < |names| ==> names[j] in before && names[j] in before' && before[names[j]] == before'[names[j]]
    ensures NewlyOn(g, before, now, names, m, c) == NewlyOn(g, before', now, names, m, c)
  {
    hide IsNewlyOn;
    if m > 0 {
      SameBefore(g, before, before', now, names, m - 1, c);
    }
  }
}

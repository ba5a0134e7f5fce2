/** Listings cut short by a refused eviction: how far they get, and how many nodes an assignment can end
    with when the targeted nodes after that point are never seen. */
module ShortListings {
  import opened Cluster
  import opened Groups
  import opened Allocation
  import opened Plan
  import opened Pass
  import opened Lists
  import opened Reconciling
  import opened Allocated
  import opened Safety
  import opened Refusals
  import opened Limits

  // ----- How far the listing gets -----

  /** Not targeted, but labelled with an assignment of the group. */
  predicate IsEvicted(g: Group, node: Node) {
    !IsTargeted(g, node) && !IsStray(g, node) && LabelOf(g, node).Some?
  }

  /** Evictions among the first i listed nodes. */
  function Evictions(g: Group, nodes: map<string, Node>, order: seq<string>, i: nat): nat
    requires i <= |order| && forall n :: n in order ==> n in nodes
  {
    if i == 0 then 0
    else
      assert order[i - 1] in order;
      Evictions(g, nodes, order, i - 1) + if IsEvicted(g, nodes[order[i - 1]]) then 1 else 0
  }

  /** How many of the first i listed nodes come before the first refused eviction; `calls` were made before. */
  function Reached(g: Group, down: nat -> bool, order: seq<string>, nodes: map<string, Node>, calls: nat, i: nat): (r: nat)
    requires i <= |order| && forall n :: n in order ==> n in nodes
    ensures r <= i
  {
    if i == 0 then 0
    else
      assert order[i - 1] in order;
      var r := Reached(g, down, order, nodes, calls, i - 1);
      if r < i - 1 || (IsEvicted(g, nodes[order[i - 1]]) && down(calls + Evictions(g, nodes, order, i - 1))) then r else i
  }

  /** The targeted nodes the listing gets to see, ... */
  function Seen(g: Group, down: nat -> bool, order: seq<string>, nodes: map<string, Node>, calls: nat): (r: seq<string>)
    requires forall n :: n in order ==> n in nodes
    ensures forall n :: n in r ==> n in nodes
  {
    var i := Reached(g, down, order, nodes, calls, |order|);
    TargetedNamesInOrder(g, nodes, order, i);
    TargetedNames(g, nodes, order, i)
  }

  /** ... and the others. */
  function Unseen(g: Group, down: nat -> bool, order: seq<string>, nodes: map<string, Node>, calls: nat): (r: seq<string>)
    requires forall n :: n in order ==> n in nodes
    ensures Seen(g, down, order, nodes, calls) + r == Targeted(g, order, nodes)
    ensures forall n :: n in r ==> n in nodes
  {
    TargetedPrefix(g, nodes, order, Reached(g, down, order, nodes, calls, |order|), |order|);
    Targeted(g, order, nodes)[|Seen(g, down, order, nodes, calls)|..]
  }

  lemma {:induction false} TargetedPrefix(g: Group, nodes: map<string, Node>, order: seq<string>, i: nat, j: nat)
    requires i <= j <= |order| && forall n :: n in order ==> n in nodes
    ensures TargetedNames(g, nodes, order, i) <= TargetedNames(g, nodes, order, j)
  {
    hide IsTargeted;
    if i < j {
      TargetedPrefix(g, nodes, order, i, j - 1);
    }
  }

  /** Number of calls made when the listing ends; a refused eviction counts. */
  function CallsAfterListing(g: Group, down: nat -> bool, order: seq<string>, nodes: map<string, Node>, calls: nat, i: nat): nat
    requires i <= |order| && forall n :: n in order ==> n in nodes
  {
    var r := Reached(g, down, order, nodes, calls, i);
    calls + Evictions(g, nodes, order, r) + if r < i then 1 else 0
  }

  lemma {:induction false} AdmitCalls(g: Group, down: nat -> bool, c: Context, name: string, node: Node)
    requires name in c.world.nodes && !c.aborted
    ensures var r := Admit(g, down, c, name, node);
            && r.names == c.names + (if IsTargeted(g, node) then [name] else [])
            && (r.aborted <==> IsEvicted(g, node) && down(c.world.calls))
            && r.world.calls == c.world.calls + if IsEvicted(g, node) then 1 else 0
  {
    UnassignedHasNoLabel(g, node);
    EvictionIsSent(g, node);
    hide Targets, ApplyPatch, Unassigned, Known, IsEmptyPatch;
  }

  lemma {:induction false} EvictionIsSent(g: Group, node: Node)
    ensures LabelOf(g, node).Some? ==> !IsEmptyPatch(node, Unassigned(g, node))
  {
    UnassignedHasNoLabel(g, node);
    hide Unassigned;
  }

  /** The listing sees exactly the nodes before the first refused eviction. */
  lemma {:induction false} ListingReaches(g: Group, down: nat -> bool, order: seq<string>, nodes: map<string, Node>, calls: nat, i: nat)
    requires i <= |order| && forall n :: n in order ==> n in nodes
    ensures var c, r := Build(g, down, order, World(nodes, calls, {}), i), Reached(g, down, order, nodes, calls, i);
            && c.names == TargetedNames(g, nodes, order, r)
            && (c.aborted <==> r < i)
            && c.world.calls == CallsAfterListing(g, down, order, nodes, calls, i)
  {
    hide Admit, IsEvicted, IsTargeted;
    if i > 0 {
      ListingReaches(g, down, order, nodes, calls, i - 1);
      var c := Build(g, down, order, World(nodes, calls, {}), i - 1);
      assert order[i - 1] in order;
      if !c.aborted {
        AdmitCalls(g, down, c, order[i - 1], nodes[order[i - 1]]);
        EvictedIsNotTargeted(g, nodes[order[i - 1]]);
      }
    }
  }

  lemma {:induction false} EvictedIsNotTargeted(g: Group, node: Node)
    ensures IsEvicted(g, node) ==> !IsTargeted(g, node)
  {
    hide IsTargeted;
  }

  // ----- Nodes not seen are not touched -----

  lemma {:induction false} ListingKeepsTargeted(g: Group, down: nat -> bool, order: seq<string>, start: World, i: nat, n: string)
    requires i <= |order| && (forall m :: m in order ==> m in start.nodes) && n in start.nodes && IsTargeted(g, start.nodes[n])
    ensures Build(g, down, order, start, i).world.nodes[n] == start.nodes[n]
  {
    hide Admit, IsTargeted;
    if i > 0 {
      ListingKeepsTargeted(g, down, order, start, i - 1, n);
      assert order[i - 1] in order;
      var c := Build(g, down, order, start, i - 1);
      if !c.aborted {
        AdmitKeepsTargeted(g, down, c, order[i - 1], start.nodes[order[i - 1]], n);
      }
    }
  }

  lemma {:induction false} AdmitKeepsTargeted(g: Group, down: nat -> bool, c: Context, name: string, node: Node, n: string)
    requires name in c.world.nodes && n in c.world.nodes && (n == name ==> IsTargeted(g, node))
    ensures Admit(g, down, c, name, node).world.nodes[n] == c.world.nodes[n]
  {
    hide LabelOf, Unassigned, Targets, Known, Update;
    var world := if IsStray(g, node) then c.world.(stale := c.world.stale + {name}) else c.world;
    if n != name {
      UpdateKeepsOthers(down, world, name, Admitted(g, node), Unassigned(g, Admitted(g, node)), n);
    }
  }

  lemma {:induction false} UpdateKeepsOthers(down: nat -> bool, w: World, name: string, before: Node, after: Node, n: string)
    requires name in w.nodes && n in w.nodes && n != name
    ensures Update(down, w, name, before, after).0.nodes[n] == w.nodes[n]
  {
    hide IsEmptyPatch, ApplyPatch;
  }

  lemma {:induction false} PlaceKeepsOthers(g: Group, down: nat -> bool, names: seq<string>, p: Progress, k: nat, n: string)
    requires k < |names| == |p.memory| && names[k] in p.world.nodes && n in p.world.nodes && n != names[k]
    ensures Place(g, down, names, p, k).world.nodes[n] == p.world.nodes[n]
  {
    hide LabelOf, Assigned, Update, FirstDue, Bump;
    var world := p.world;
    if FirstDue(g.assignments, p.ledger).Some? {
      var a := FirstDue(g.assignments, p.ledger).value;
      UpdateKeepsOthers(down, p.world, names[k], p.memory[k], Assigned(g, a, p.memory[k]), n);
      world := Update(down, p.world, names[k], p.memory[k], Assigned(g, a, p.memory[k])).0;
    }
    if g.fallback.Some? {
      UpdateKeepsOthers(down, world, names[k], p.memory[k], Assigned(g, g.fallback.value, p.memory[k]), n);
    }
  }

  lemma {:induction false} TurnKeepsOthers(g: Group, down: nat -> bool, names: seq<string>, p: Progress, k: nat, n: string)
    requires k < |names| == |p.memory| && names[k] in p.world.nodes && n in p.world.nodes && n != names[k]
    ensures Step(g, down, names, p, k).world.nodes[n] == p.world.nodes[n]
  {
    hide LabelOf, Place, Unassigned, Bump;
    PlaceKeepsOthers(g, down, names, p, k, n);
    if LabelOf(g, p.memory[k]).Some? {
      PlaceKeepsOthers(g, down, names, Release(g, names, p, k, LabelOf(g, p.memory[k]).value), k, n);
    }
  }

  lemma {:induction false} RunKeepsOthers(g: Group, down: nat -> bool, names: seq<string>, start: Progress, k: nat, n: string)
    requires k <= |names| == |start.memory| && (forall m :: m in names ==> m in start.world.nodes)
    requires n in start.world.nodes && n !in names
    ensures Run(g, down, names, start, k).world.nodes[n] == start.world.nodes[n]
  {
    hide Step;
    if k > 0 {
      RunKeepsOthers(g, down, names, start, k - 1, n);
      var p := Run(g, down, names, start, k - 1);
      assert names[k - 1] in names;
      if !p.aborted {
        TurnKeepsOthers(g, down, names, p, k - 1, n);
      }
    }
  }

  lemma {:induction false} UnseenIsTargeted(g: Group, down: nat -> bool, order: seq<string>, nodes: map<string, Node>, calls: nat, n: string)
    requires IsListing(order, nodes) && n in Unseen(g, down, order, nodes, calls)
    ensures n in nodes && IsTargeted(g, nodes[n]) && n !in Seen(g, down, order, nodes, calls)
  {
    hide IsTargeted, Targeted, Seen;
    TargetedFacts(g, order, nodes);
    var seen, unseen := Seen(g, down, order, nodes, calls), Unseen(g, down, order, nodes, calls);
    var j :| 0 <= j < |unseen| && unseen[j] == n;
    assert (seen + unseen)[|seen| + j] == n;
    forall i | 0 <= i < |seen| ensures seen[i] != n {
      assert (seen + unseen)[i] == seen[i];
    }
  }

  lemma {:induction false} UnseenStays(g: Group, down: nat -> bool, order: seq<string>, nodes: map<string, Node>, calls: nat, k: nat, n: string)
    requires IsListing(order, nodes) && n in Unseen(g, down, order, nodes, calls)
    requires k <= |BuiltContext(g, down, order, nodes, calls).names|
    ensures n in nodes && Turns(g, down, order, nodes, calls, k).world.nodes[n] == nodes[n]
  {
    hide Build, Run, Unseen, IsTargeted, InitialLedger, Distinct, TargetedNames, Reached;
    UnseenIsTargeted(g, down, order, nodes, calls, n);
    var c := BuiltContext(g, down, order, nodes, calls);
    ListingReaches(g, down, order, nodes, calls, |order|);
    ListingKeepsTargeted(g, down, order, World(nodes, calls, {}), |order|, n);
    RunKeepsOthers(g, down, c.names, Begin(g, c), k, n);
  }

  // ----- The bound under any refusals -----

  lemma {:induction false} BeforeConcat(s: seq<Option<string>>, t: seq<Option<string>>, k: nat, c: Option<string>)
    requires k <= |t|
    ensures Before(s + t, |s| + k, c) == Before(s, |s|, c) + Before(t, k, c)
  {
    if k > 0 {
      BeforeConcat(s, t, k - 1, c);
    } else {
      BeforePrefix(s, t, |s|, c);
    }
  }

  lemma {:induction false} BeforePrefix(s: seq<Option<string>>, t: seq<Option<string>>, k: nat, c: Option<string>)
    requires k <= |s|
    ensures Before(s + t, k, c) == Before(s, k, c)
  {
    if k > 0 {
      BeforePrefix(s, t, k - 1, c);
    }
  }

  lemma {:induction false} OnConcat(g: Group, nodes: map<string, Node>, s: seq<string>, t: seq<string>, c: string)
    requires (forall n :: n in s ==> n in nodes) && (forall n :: n in t ==> n in nodes)
    ensures forall n :: n in s + t ==> n in nodes
    ensures On(g, nodes, s + t, c) == On(g, nodes, s, c) + On(g, nodes, t, c)
  {
    hide LabelOf, Before;
    assert LabelsNow(g, nodes, s + t) == LabelsNow(g, nodes, s) + LabelsNow(g, nodes, t);
    BeforeConcat(LabelsNow(g, nodes, s), LabelsNow(g, nodes, t), |t|, Some(c));
  }

  lemma {:induction false} SameOn(g: Group, nodes: map<string, Node>, nodes': map<string, Node>, names: seq<string>, c: string)
    requires forall n :: n in names ==> n in nodes && n in nodes' && LabelOf(g, nodes[n]) == LabelOf(g, nodes'[n])
    ensures On(g, nodes, names, c) == On(g, nodes', names, c)
  {
    hide LabelOf, Before;
    assert LabelsNow(g, nodes, names) == LabelsNow(g, nodes', names);
  }

  /** Whatever is refused, at any point of a reconcile: an assignment has at most the larger of what it had
      and should have among the nodes seen, plus what it had among those not seen. */
  lemma {:induction false} BoundedByUnseen(g: Group, down: nat -> bool, order: seq<string>, nodes: map<string, Node>, calls: nat,
                                           k: nat, cleaned: set<string>, i: nat)
    requires IsListing(order, nodes) && WellFormed(g) && i < |g.assignments|
    requires k <= |BuiltContext(g, down, order, nodes, calls).names|
    ensures var all, seen, unseen := Targeted(g, order, nodes), Seen(g, down, order, nodes, calls), Unseen(g, down, order, nodes, calls);
            var after := Cleaned(g, Turns(g, down, order, nodes, calls, k).world.nodes, cleaned);
            && (forall n :: n in all ==> n in after)
            && On(g, after, all, g.assignments[i].name)
                 <= Max(On(g, nodes, seen, g.assignments[i].name), Desired(g.assignments[i], |seen|))
                    + On(g, nodes, unseen, g.assignments[i].name)
  {
    hide Build, Run, Desired, WellFormed, On, Turns, Reached, TargetedNames, Unseen, Targeted, Unassigned, Distinct;
    var seen, unseen := Seen(g, down, order, nodes, calls), Unseen(g, down, order, nodes, calls);
    var turned := Turns(g, down, order, nodes, calls, k).world.nodes;
    ListingReaches(g, down, order, nodes, calls, |order|);
    NeverOverAssigned(g, down, order, nodes, calls, k, cleaned, i);
    OnConcat(g, Cleaned(g, turned, cleaned), seen, unseen, g.assignments[i].name);
    CleaningLowersOn(g, turned, unseen, cleaned, g.assignments[i].name);
    forall n | n in unseen ensures turned[n] == nodes[n] {
      UnseenStays(g, down, order, nodes, calls, k, n);
    }
    SameOn(g, nodes, turned, unseen, g.assignments[i].name);
  }

  lemma {:induction false} CleaningLowersOn(g: Group, nodes: map<string, Node>, names: seq<string>, cleaned: set<string>, c: string)
    requires forall n :: n in names ==> n in nodes
    ensures forall n :: n in names ==> n in Cleaned(g, nodes, cleaned)
    ensures On(g, Cleaned(g, nodes, cleaned), names, c) <= On(g, nodes, names, c)
  {
    hide LabelsNow, Unassigned, Before;
    CleaningOnlyLowers(g, nodes, names, cleaned, |names|, c);
  }

  // ----- Exactly when the bound is broken -----

  /** No call from that number on is refused. */
  ghost predicate NoFaultFrom(down: nat -> bool, calls: nat) {
    forall k: nat :: k >= calls ==> !down(k)
  }

  function DownFrom(down: nat -> bool, calls: nat): nat -> bool { (k: nat) => k >= calls && down(k) }

  lemma {:induction false} UpdateIgnoresPast(down: nat -> bool, calls: nat, w: World, name: string, before: Node, after: Node)
    requires name in w.nodes && w.calls >= calls
    ensures Update(down, w, name, before, after) == Update(DownFrom(down, calls), w, name, before, after)
    ensures Update(down, w, name, before, after).0.calls >= calls
  {
    hide IsEmptyPatch, ApplyPatch;
  }

  lemma {:induction false} PlaceIgnoresPast(g: Group, down: nat -> bool, calls: nat, names: seq<string>, p: Progress, k: nat)
    requires |p.memory| == |names| && k < |names| && names[k] in p.world.nodes && p.world.calls >= calls
    ensures Place(g, down, names, p, k) == Place(g, DownFrom(down, calls), names, p, k)
    ensures Place(g, down, names, p, k).world.calls >= calls
  {
    hide LabelOf, Assigned, Update, FirstDue, Bump, DownFrom;
    var world := p.world;
    if FirstDue(g.assignments, p.ledger).Some? {
      var a := FirstDue(g.assignments, p.ledger).value;
      UpdateIgnoresPast(down, calls, p.world, names[k], p.memory[k], Assigned(g, a, p.memory[k]));
      world := Update(down, p.world, names[k], p.memory[k], Assigned(g, a, p.memory[k])).0;
    }
    if g.fallback.Some? {
      UpdateIgnoresPast(down, calls, world, names[k], p.memory[k], Assigned(g, g.fallback.value, p.memory[k]));
    }
  }

  lemma {:induction false} StepIgnoresPast(g: Group, down: nat -> bool, calls: nat, names: seq<string>, p: Progress, k: nat)
    requires |p.memory| == |names| && k < |names| && names[k] in p.world.nodes && p.world.calls >= calls
    ensures Step(g, down, names, p, k) == Step(g, DownFrom(down, calls), names, p, k)
    ensures Step(g, down, names, p, k).world.calls >= calls
  {
    hide Place, LabelOf, Unassigned, Bump, DownFrom;
    PlaceIgnoresPast(g, down, calls, names, p, k);
    if LabelOf(g, p.memory[k]).Some? {
      PlaceIgnoresPast(g, down, calls, names, Release(g, names, p, k, LabelOf(g, p.memory[k]).value), k);
    }
  }

  lemma {:induction false} RunIgnoresPast(g: Group, down: nat -> bool, calls: nat, names: seq<string>, start: Progress, k: nat)
    requires k <= |names| == |start.memory| && (forall n :: n in names ==> n in start.world.nodes) && start.world.calls >= calls
    ensures Run(g, down, names, start, k) == Run(g, DownFrom(down, calls), names, start, k)
    ensures Run(g, down, names, start, k).world.calls >= calls
  {
    hide Step, DownFrom;
    if k > 0 {
      RunIgnoresPast(g, down, calls, names, start, k - 1);
      var p := Run(g, down, names, start, k - 1);
      assert names[k - 1] in names;
      if !p.aborted {
        StepIgnoresPast(g, down, calls, names, p, k - 1);
      }
    }
  }

  lemma {:induction false} ListingRecordsStrays(g: Group, down: nat -> bool, order: seq<string>, start: World, i: nat, n: string)
    requires i <= |order| && (forall m :: m in order ==> m in start.nodes) && start.stale == {}
    ensures n in Build(g, down, order, start, i).world.stale ==> n in start.nodes && IsStray(g, start.nodes[n])
  {
    hide LabelOf, Unassigned, IsEmptyPatch, ApplyPatch, Targets, IsStray;
    if i > 0 {
      ListingRecordsStrays(g, down, order, start, i - 1, n);
      assert order[i - 1] in order;
    }
  }

  lemma {:induction false} StrayIsOnNone(g: Group, node: Node, c: string)
    requires Known(g, c)
    ensures IsStray(g, node) ==> LabelOf(g, node) != Some(c)
  {
    hide Known;
  }

  /** One node after its turn, if assignment c has nothing to release: stored on c exactly if the plan puts it there,
      and then not recorded. */
  lemma {:induction false} TurnStoresFinal(g: Group, labels: seq<Option<string>>, ledger: map<string, int>, j: nat, node: Node, c: string, stale: bool)
    requires WellFormed(g) && j < |labels| && labels[j] == LabelOf(g, Admitted(g, node))
    requires Named(g.assignments, c) && Surplus(ledger, c) == 0 && (stale ==> IsStray(g, node))
    ensures var outcome := OutcomeAt(g, labels, ledger, j);
            var onC := LabelOf(g, AfterTurn(g, outcome, node, Admitted(g, node))) == Some(c);
            && (onC <==> FinalLabel(g, labels, ledger, j) == Some(c))
            && (onC ==> !StaleAfterTurn(outcome, stale, labels[j]))
  {
    var outcome := OutcomeAt(g, labels, ledger, j);
    AdmittedLabel(g, node);
    NamedIsKnown(g, c);
    StrayIsOnNone(g, node, c);
    NotReleased(g, labels, ledger, j, c);
    if outcome.Give? {
      UnassignedHasNoLabel(g, Admitted(g, node));
      PatchSetsLabel(g, outcome.a, node, Base(g, Admitted(g, node)));
    } else if outcome == Stay {
      StayersAreLabelled(g, labels, ledger, j);
    }
    hide OutcomeAt, LabelOf, IsStray, Admitted, Unassigned, ApplyPatch, Assigned, WellFormed, Named, Surplus;
  }

  lemma {:induction false} NotReleased(g: Group, labels: seq<Option<string>>, ledger: map<string, int>, j: nat, c: string)
    requires WellFormed(g) && j < |labels| && Named(g.assignments, c) && Surplus(ledger, c) == 0
    ensures labels[j] == Some(c) ==> OutcomeAt(g, labels, ledger, j) == Stay
  {
    hide Before, FreeBefore, Demand, Surplus, Named, DistinctNames;
  }

  /** The count after the loop and any part of the cleanup, if no call after the listing is refused. */
  lemma {:induction false} SeenCount(g: Group, down: nat -> bool, order: seq<string>, nodes: map<string, Node>, calls: nat, c: Context, p: Progress,
                                     cleaned: set<string>, a: string)
    requires IsListing(order, nodes) && WellFormed(g) && Named(g.assignments, a)
    requires Faithful(g, order, nodes, c, |order|) && (forall n :: n in c.names ==> n in nodes && n in c.world.nodes)
    requires forall n :: n in c.world.stale ==> n in nodes && IsStray(g, nodes[n])
    requires |p.memory| == |c.names| && p.world.nodes.Keys == c.world.nodes.Keys == nodes.Keys
    requires NodesAfter(g, c.names, Begin(g, c), p, |c.names|) && cleaned <= p.world.stale
    requires var labels := PlanLabels(g, nodes, c.names); Surplus(PlanLedger(g, labels), a) == 0
    ensures var labels := PlanLabels(g, nodes, c.names);
            && (forall n :: n in c.names ==> n in Cleaned(g, p.world.nodes, cleaned))
            && On(g, Cleaned(g, p.world.nodes, cleaned), c.names, a) == Total(FinalLabels(g, labels, PlanLedger(g, labels)), Some(a))
  {
    hide NodesAfter, Faithful, OutcomeAt, FinalLabel, AfterTurn, StaleAfterTurn, LabelOf, Before, PlanLabels, PlanLedger, Admitted, WellFormed, IsStray,
         Unassigned, Named, Surplus, Distinct, Begin;
    FaithfulMemory(g, order, nodes, c);
    BeginFacts(g, nodes, c);
    var labels := PlanLabels(g, nodes, c.names);
    var after := Cleaned(g, p.world.nodes, cleaned);
    forall j | 0 <= j < |c.names|
      ensures c.names[j] in after
      ensures LabelOf(g, after[c.names[j]]) == Some(a) <==> FinalLabel(g, labels, PlanLedger(g, labels), j) == Some(a)
    {
      assert c.names[j] in c.names;
      TurnOfName(g, c.names, Begin(g, c), p, j);
      PlanLabelAt(g, nodes, c.names, j);
      TurnStoresFinal(g, labels, PlanLedger(g, labels), j, nodes[c.names[j]], a, c.names[j] in c.world.stale);
      UnassignedHasNoLabel(g, p.world.nodes[c.names[j]]);
    }
    SameCounted(LabelsNow(g, after, c.names), FinalLabels(g, labels, PlanLedger(g, labels)), |c.names|, Some(a));
  }

  lemma {:induction false} BeginFacts(g: Group, nodes: map<string, Node>, c: Context)
    requires (forall n :: n in c.names ==> n in nodes) && |c.memory| == |c.names| && c.memory == Memory(g, nodes, c.names)
    ensures LabelsOf(g, Begin(g, c).memory) == PlanLabels(g, nodes, c.names)
    ensures Begin(g, c).ledger == PlanLedger(g, PlanLabels(g, nodes, c.names))
  {
    hide InitialLedger, LabelOf, Admitted;
  }

  lemma {:induction false} SameCounted(s: seq<Option<string>>, t: seq<Option<string>>, k: nat, c: Option<string>)
    requires k <= |s| == |t| && forall j :: 0 <= j < |s| ==> (s[j] == c <==> t[j] == c)
    ensures Before(s, k, c) == Before(t, k, c)
  {
    if k > 0 {
      SameCounted(s, t, k - 1, c);
    }
  }

  /** What an assignment with a deficit ends with among the nodes seen: its own nodes and what the free ones
      leave after every assignment of higher priority, up to its desired count. */
  function PlannedOn(g: Group, nodes: map<string, Node>, seen: seq<string>, i: nat): int
    requires i < |g.assignments| && forall n :: n in seen ==> n in nodes
  {
    var labels := PlanLabels(g, nodes, seen);
    var ledger := PlanLedger(g, labels);
    Min(Desired(g.assignments[i], |seen|),
        On(g, nodes, seen, g.assignments[i].name) + Max(0, Available(g, labels, ledger) - TotalDue(g.assignments[..i], ledger)))
  }

  /** After a run in which no call after the listing is refused. */
  ghost predicate UndisturbedAfterListing(g: Group, down: nat -> bool, order: seq<string>, nodes: map<string, Node>, calls: nat, cleaned: set<string>)
    requires forall n :: n in order ==> n in nodes
  {
    && NoFaultFrom(down, CallsAfterListing(g, down, order, nodes, calls, |order|))
    && cleaned <= Turns(g, down, order, nodes, calls, |BuiltContext(g, down, order, nodes, calls).names|).world.stale
  }

  lemma {:induction false} UndisturbedRun(g: Group, down: nat -> bool, order: seq<string>, nodes: map<string, Node>, calls: nat, cleaned: set<string>)
    requires IsListing(order, nodes) && WellFormed(g) && UndisturbedAfterListing(g, down, order, nodes, calls, cleaned)
    ensures var c := BuiltContext(g, down, order, nodes, calls);
            var p := Turns(g, down, order, nodes, calls, |c.names|);
            && c.names == Seen(g, down, order, nodes, calls)
            && Faithful(g, order, nodes, c, |order|)
            && (forall n :: n in c.world.stale ==> n in nodes && IsStray(g, nodes[n]))
            && |p.memory| == |c.names| && p.world.nodes.Keys == c.world.nodes.Keys == nodes.Keys
            && NodesAfter(g, c.names, Begin(g, c), p, |c.names|)
  {
    hide Build, Run, WellFormed, Reached, Evictions, TargetedNames, Faithful, IsStray, NodesAfter, LedgerAfter, InitialLedger, LabelsOf;
    var c := BuiltContext(g, down, order, nodes, calls);
    var start := World(nodes, calls, {});
    ListingReaches(g, down, order, nodes, calls, |order|);
    BuildIsFaithful(g, down, order, start, |order|);
    FaithfulFacts(g, order, nodes, c);
    forall n | n in c.world.stale ensures n in nodes && IsStray(g, nodes[n]) {
      ListingRecordsStrays(g, down, order, start, |order|, n);
    }
    RunIgnoresPast(g, down, c.world.calls, c.names, Begin(g, c), |c.names|);
    RunFollowsPlan(g, DownFrom(down, c.world.calls), c.names, Begin(g, c), |c.names|);
  }

  lemma {:induction false} UnseenCount(g: Group, down: nat -> bool, order: seq<string>, nodes: map<string, Node>, calls: nat, cleaned: set<string>, a: string)
    requires IsListing(order, nodes) && WellFormed(g) && UndisturbedAfterListing(g, down, order, nodes, calls, cleaned) && Known(g, a)
    ensures var c := BuiltContext(g, down, order, nodes, calls);
            var after := Cleaned(g, Turns(g, down, order, nodes, calls, |c.names|).world.nodes, cleaned);
            && (forall n :: n in Unseen(g, down, order, nodes, calls) ==> n in after)
            && On(g, after, Unseen(g, down, order, nodes, calls), a) == On(g, nodes, Unseen(g, down, order, nodes, calls), a)
  {
    hide Build, Turns, WellFormed, Reached, TargetedNames, Faithful, IsStray, NodesAfter, Begin, Unseen, Seen, LabelOf, Known, Unassigned, IsTargeted, Before;
    UndisturbedRun(g, down, order, nodes, calls, cleaned);
    var c := BuiltContext(g, down, order, nodes, calls);
    var p := Turns(g, down, order, nodes, calls, |c.names|);
    var after := Cleaned(g, p.world.nodes, cleaned);
    var unseen := Unseen(g, down, order, nodes, calls);
    forall n | n in unseen
      ensures n in after && (LabelOf(g, after[n]) == Some(a) <==> LabelOf(g, nodes[n]) == Some(a))
    {
      UnseenStays(g, down, order, nodes, calls, |c.names|, n);
      UnseenIsTargeted(g, down, order, nodes, calls, n);
      BeginWorld(g, c);
      TurnOfOthers(g, c.names, Begin(g, c), p, n);
      StrayIsOnNone(g, nodes[n], a);
      UnassignedHasNoLabel(g, p.world.nodes[n]);
    }
    SameCounted(LabelsNow(g, after, unseen), LabelsNow(g, nodes, unseen), |unseen|, Some(a));
  }

  lemma {:induction false} BeginWorld(g: Group, c: Context)
    ensures Begin(g, c).world == c.world && Begin(g, c).memory == c.memory
  {
  }

  lemma {:induction false} SeenUnderfull(g: Group, down: nat -> bool, order: seq<string>, nodes: map<string, Node>, calls: nat, cleaned: set<string>, i: nat)
    requires IsListing(order, nodes) && WellFormed(g) && UndisturbedAfterListing(g, down, order, nodes, calls, cleaned) && i < |g.assignments|
    requires var seen := Seen(g, down, order, nodes, calls);
             On(g, nodes, seen, g.assignments[i].name) < Desired(g.assignments[i], |seen|)
    ensures var seen := Seen(g, down, order, nodes, calls);
            var after := Cleaned(g, Turns(g, down, order, nodes, calls, |BuiltContext(g, down, order, nodes, calls).names|).world.nodes, cleaned);
            && (forall n :: n in seen ==> n in after)
            && On(g, after, seen, g.assignments[i].name) == PlannedOn(g, nodes, seen, i)
  {
    hide Build, Turns, WellFormed, Reached, TargetedNames, Faithful, IsStray, NodesAfter, Begin, Seen, PlanLabels, PlanLedger, FinalLabels, Before,
         Desired, AllKnown, LedgerOf, Available, TotalDue, LabelsNow, Distinct;
    UndisturbedRun(g, down, order, nodes, calls, cleaned);
    var seen := Seen(g, down, order, nodes, calls);
    var labels := PlanLabels(g, nodes, seen);
    var a := g.assignments[i].name;
    assert Named(g.assignments, a);
    NamedIsKnown(g, a);
    KnownCountsAgree(g, nodes, seen, |seen|, a);
    PlanLabelsKnown(g, nodes, seen);
    PlanLedgerIsLedgerOf(g, labels);
    PriorityAllocation(g, labels, PlanLedger(g, labels), i);
    NothingToRelease(g, labels, PlanLedger(g, labels), i);
    var c := BuiltContext(g, down, order, nodes, calls);
    SeenCount(g, down, order, nodes, calls, c, Turns(g, down, order, nodes, calls, |c.names|), cleaned, a);
  }

  lemma {:induction false} NothingToRelease(g: Group, labels: seq<Option<string>>, ledger: map<string, int>, i: nat)
    requires LedgerOf(g, labels, ledger) && i < |g.assignments|
    ensures Total(labels, Some(g.assignments[i].name)) <= Desired(g.assignments[i], |labels|) ==> Surplus(ledger, g.assignments[i].name) == 0
  {
    hide Desired, Before;
  }

  /** If no call after the listing is refused, an assignment ends with more than it had and should have over all
      targeted nodes exactly if it is short among the nodes seen and what it is given there, together with what
      it has among the nodes not seen, is too much. */
  lemma {:induction false} OverAssignedExactly(g: Group, down: nat -> bool, order: seq<string>, nodes: map<string, Node>, calls: nat,
                                               cleaned: set<string>, i: nat)
    requires IsListing(order, nodes) && WellFormed(g) && i < |g.assignments|
    requires UndisturbedAfterListing(g, down, order, nodes, calls, cleaned)
    ensures var all, seen, unseen := Targeted(g, order, nodes), Seen(g, down, order, nodes, calls), Unseen(g, down, order, nodes, calls);
            var after := Cleaned(g, Turns(g, down, order, nodes, calls, |BuiltContext(g, down, order, nodes, calls).names|).world.nodes, cleaned);
            var a, allowed := g.assignments[i].name, Max(On(g, nodes, all, g.assignments[i].name), Desired(g.assignments[i], |all|));
            && (forall n :: n in all ==> n in after)
            && (On(g, after, all, a) > allowed <==>
                  On(g, nodes, seen, a) < Desired(g.assignments[i], |seen|)
                  && PlannedOn(g, nodes, seen, i) + On(g, nodes, unseen, a) > allowed)
  {
    hide Build, Turns, Desired, WellFormed, On, Reached, TargetedNames, Unseen, Targeted, Seen, Unassigned, Distinct, PlannedOn, Cleaned,
         UndisturbedAfterListing;
    var seen, unseen := Seen(g, down, order, nodes, calls), Unseen(g, down, order, nodes, calls);
    var k := |BuiltContext(g, down, order, nodes, calls).names|;
    var after := Cleaned(g, Turns(g, down, order, nodes, calls, k).world.nodes, cleaned);
    var a := g.assignments[i].name;
    assert Named(g.assignments, a);
    NamedIsKnown(g, a);
    UndisturbedRun(g, down, order, nodes, calls, cleaned);
    NeverOverAssigned(g, down, order, nodes, calls, k, cleaned, i);
    UnseenCount(g, down, order, nodes, calls, cleaned, a);
    OnConcat(g, after, seen, unseen, a);
    OnConcat(g, nodes, seen, unseen, a);
    if On(g, nodes, seen, a) < Desired(g.assignments[i], |seen|) {
      SeenUnderfull(g, down, order, nodes, calls, cleaned, i);
    }
  }

  /** If no eviction is refused the bound holds over all targeted nodes, whatever else is refused. */
  lemma {:induction false} NeverOverAssignedAtAll(g: Group, down: nat -> bool, order: seq<string>, nodes: map<string, Node>, calls: nat,
                                                  k: nat, cleaned: set<string>, i: nat)
    requires IsListing(order, nodes) && WellFormed(g) && i < |g.assignments|
    requires k <= |BuiltContext(g, down, order, nodes, calls).names| && Reached(g, down, order, nodes, calls, |order|) == |order|
    ensures var names := Targeted(g, order, nodes);
            var after := Cleaned(g, Turns(g, down, order, nodes, calls, k).world.nodes, cleaned);
            && (forall n :: n in names ==> n in after)
            && On(g, after, names, g.assignments[i].name)
                 <= Max(On(g, nodes, names, g.assignments[i].name), Desired(g.assignments[i], |names|))
  {
    hide Build, Run, Desired, WellFormed, On, Cleaned, Turns, TargetedNames, Reached;
    ListingReaches(g, down, order, nodes, calls, |order|);
    NeverOverAssigned(g, down, order, nodes, calls, k, cleaned, i);
  }

  // ----- A broken bound -----

  // A listing of three nodes: "a" is targeted, "b" is to be evicted, which is refused, and "c", targeted
  // and on the assignment already, is never seen.

  function ShortGroup(): Group {
    Group("g", map["t" := "1"], [Assignment("x", LabelOnly, None, 1, 0, false, None)], None)
  }

  function Labelled(labels: map<string, string>): Node { Node(labels, [], Status(false, [], 1, 1)) }

  function ShortNodes(): map<string, Node> {
    map["a" := Labelled(map["t" := "1"]),
        "b" := Labelled(map[AssignmentKey("g") := "x"]),
        "c" := Labelled(map["t" := "1", AssignmentKey("g") := "x"])]
  }

  const SHORT_ORDER := ["a", "b", "c"]

  function FirstRefused(): nat -> bool { (k: nat) => k == 0 }

  lemma {:induction false} ShortListing()
    ensures IsListing(SHORT_ORDER, ShortNodes())
    ensures Known(ShortGroup(), "x") && WellFormed(ShortGroup())
    ensures AssignmentKey("g") != "t" && AssignmentKey("g") != PROTECTED_KEY && PROTECTED_KEY != "t"
  {
    assert SHORT_ORDER[0] == "a" && SHORT_ORDER[1] == "b" && SHORT_ORDER[2] == "c";
    assert ShortGroup().assignments[0].name == "x";
    assert |AssignmentKey("g")| > 1 && |PROTECTED_KEY| > 1;
    KeysAreDistinct("g", "g");
  }

  lemma {:induction false} ShortAdmits(down: nat -> bool, w: World)
    requires w == World(ShortNodes(), 0, {}) && down == FirstRefused()
    ensures var c := Admit(ShortGroup(), down, Context([], [], w, false), "a", ShortNodes()["a"]);
            c == Context(["a"], [ShortNodes()["a"]], w, false)
    ensures Admit(ShortGroup(), down, Context(["a"], [ShortNodes()["a"]], w, false), "b", ShortNodes()["b"])
         == Context(["a"], [ShortNodes()["a"]], w.(calls := 1), true)
  {
    ShortListing();
    var g, b := ShortGroup(), ShortNodes()["b"];
    assert Targets(g, ShortNodes()["a"].labels);
    assert "t" !in b.labels && !Targets(g, b.labels);
    UnassignedHasNoLabel(g, b);
    assert LabelOf(g, b).Some? && !IsStray(g, b);
    assert !IsEmptyPatch(b, Unassigned(g, b));
    hide Unassigned, Targets, Known;
  }

  lemma {:induction false} ShortContext(down: nat -> bool, w: World)
    requires w == World(ShortNodes(), 0, {}) && down == FirstRefused()
    ensures forall n :: n in SHORT_ORDER ==> n in ShortNodes()
    ensures Build(ShortGroup(), down, SHORT_ORDER, w, 3) == Context(["a"], [ShortNodes()["a"]], w.(calls := 1), true)
  {
    ShortListing();
    ShortAdmits(down, w);
    var g := ShortGroup();
    hide Admit, ShortNodes, ShortGroup;
    assert Build(g, down, SHORT_ORDER, w, 0) == Context([], [], w, false);
    assert Build(g, down, SHORT_ORDER, w, 1) == Admit(g, down, Build(g, down, SHORT_ORDER, w, 0), "a", w.nodes["a"]);
    assert Build(g, down, SHORT_ORDER, w, 2) == Admit(g, down, Build(g, down, SHORT_ORDER, w, 1), "b", w.nodes["b"]);
    assert Build(g, down, SHORT_ORDER, w, 3) == Build(g, down, SHORT_ORDER, w, 2);
  }

  lemma {:induction false} ShortLedger(n: nat)
    requires n < 3
    ensures Desired(ShortGroup().assignments[0], n) == 1
    ensures InitialLedger(ShortGroup(), [None], 1) == map["x" := 1]
  {
    DesiredRoundsDown(ShortGroup().assignments[0], n);
    DesiredRoundsDown(ShortGroup().assignments[0], 1);
    hide Desired;
    assert InitialLedger(ShortGroup(), [None], 0) == map[];
    assert Total([None], Some("x")) == 0;
  }

  lemma {:induction false} ShortStart(w: World)
    ensures Begin(ShortGroup(), Context(["a"], [ShortNodes()["a"]], w, true))
         == Progress(w, [ShortNodes()["a"]], map["x" := 1], [], false)
  {
    ShortListing();
    ShortLedger(1);
    assert LabelsOf(ShortGroup(), [ShortNodes()["a"]]) == [None];
    hide InitialLedger;
  }

  lemma {:induction false} ShortStep(w: World)
    requires w == World(ShortNodes(), 1, {})
    ensures var p := Step(ShortGroup(), FirstRefused(), ["a"], Progress(w, [ShortNodes()["a"]], map["x" := 1], [], false), 0);
            && p.world.nodes.Keys == ShortNodes().Keys && p.world.nodes["c"] == ShortNodes()["c"]
            && LabelOf(ShortGroup(), p.world.nodes["a"]) == Some("x")
  {
    ShortListing();
    var g, a := ShortGroup(), ShortNodes()["a"];
    var x := g.assignments[0];
    assert FirstDue(g.assignments, map["x" := 1]) == Some(x);
    assert LabelOf(g, a).None?;
    PatchSetsLabel(g, x, a, a);
    AssignedDiffers(g, x, a);
    hide Assigned, ApplyPatch, IsEmptyPatch;
  }

  lemma {:induction false} ShortTargets()
    ensures forall n :: n in SHORT_ORDER ==> n in ShortNodes()
    ensures TargetedNames(ShortGroup(), ShortNodes(), SHORT_ORDER, 3) == ["a", "c"]
  {
    ShortListing();
    var g, nodes := ShortGroup(), ShortNodes();
    assert "t" !in nodes["b"].labels && Admitted(g, nodes["b"]) == nodes["b"] && Admitted(g, nodes["c"]) == nodes["c"];
    assert IsTargeted(g, nodes["a"]) && !IsTargeted(g, nodes["b"]) && IsTargeted(g, nodes["c"]);
    assert TargetedNames(g, nodes, SHORT_ORDER, 0) == [];
    assert TargetedNames(g, nodes, SHORT_ORDER, 1) == ["a"];
    assert TargetedNames(g, nodes, SHORT_ORDER, 2) == ["a"];
    hide IsTargeted;
  }

  lemma {:induction false} CountTwo(g: Group, nodes: map<string, Node>)
    requires "a" in nodes && "c" in nodes
    ensures forall n :: n in ["a", "c"] ==> n in nodes
    ensures On(g, nodes, ["a", "c"], "x") == (if LabelOf(g, nodes["a"]) == Some("x") then 1 else 0)
                                           + (if LabelOf(g, nodes["c"]) == Some("x") then 1 else 0)
  {
    hide LabelOf;
    var labels := LabelsNow(g, nodes, ["a", "c"]);
    assert labels == [LabelOf(g, nodes["a"]), LabelOf(g, nodes["c"])];
    assert Before(labels, 0, Some("x")) == 0;
    assert Before(labels, 1, Some("x")) == if LabelOf(g, nodes["a"]) == Some("x") then 1 else 0;
  }

  /** Node "a" is handed out although "c" satisfies the assignment. */
  lemma {:induction false} ShortTurn()
    ensures forall n :: n in SHORT_ORDER ==> n in ShortNodes()
    ensures BuiltContext(ShortGroup(), FirstRefused(), SHORT_ORDER, ShortNodes(), 0).aborted
    ensures BuiltContext(ShortGroup(), FirstRefused(), SHORT_ORDER, ShortNodes(), 0).names == ["a"]
    ensures var after := Turns(ShortGroup(), FirstRefused(), SHORT_ORDER, ShortNodes(), 0, 1).world.nodes;
            && after.Keys == ShortNodes().Keys && after["c"] == ShortNodes()["c"]
            && LabelOf(ShortGroup(), after["a"]) == Some("x")
  {
    hide Build, Step, ShortGroup, Begin, LabelOf;
    var g, w := ShortGroup(), World(ShortNodes(), 0, {});
    ShortListing();
    ShortContext(FirstRefused(), w);
    ShortStart(w.(calls := 1));
    ShortStep(w.(calls := 1));
    var start := Progress(w.(calls := 1), [ShortNodes()["a"]], map["x" := 1], [], false);
    assert Run(g, FirstRefused(), ["a"], start, 0) == start;
    assert Run(g, FirstRefused(), ["a"], start, 1) == Step(g, FirstRefused(), ["a"], start, 0);
    hide Run, ShortNodes, FirstRefused;
  }

  lemma {:induction false} ShortLabels()
    ensures "a" in ShortNodes() && LabelOf(ShortGroup(), ShortNodes()["a"]).None?
    ensures "c" in ShortNodes() && LabelOf(ShortGroup(), ShortNodes()["c"]) == Some("x")
  {
    ShortListing();
  }

  /** Over all targeted nodes the bound fails when the listing is cut short: two nodes end on an assignment
      that had one and should have one. */
  lemma {:induction false} ShortListingOverAssigns()
    ensures IsListing(SHORT_ORDER, ShortNodes())
    ensures BuiltContext(ShortGroup(), FirstRefused(), SHORT_ORDER, ShortNodes(), 0).names == ["a"]
    ensures var names := Targeted(ShortGroup(), SHORT_ORDER, ShortNodes());
            var after := Turns(ShortGroup(), FirstRefused(), SHORT_ORDER, ShortNodes(), 0, 1).world.nodes;
            && (forall n :: n in names ==> n in after)
            && On(ShortGroup(), ShortNodes(), names, "x") == 1
            && Desired(ShortGroup().assignments[0], |names|) == 1
            && On(ShortGroup(), after, names, "x") == 2
  {
    hide Turns, Desired, LabelOf, TargetedNames, On, ShortNodes, ShortGroup, Distinct, Build, FirstRefused;
    ShortListing();
    ShortLabels();
    ShortTargets();
    ShortTurn();
    ShortLedger(2);
    var g, nodes := ShortGroup(), ShortNodes();
    CountTwo(g, nodes);
    CountTwo(g, Turns(g, FirstRefused(), SHORT_ORDER, nodes, 0, 1).world.nodes);
  }
}

/** Guarantees of a reconcile started on any cluster in which any calls may be refused, and
    the bookkeeping of the two views when none is. */
module Refusals {
  import opened Cluster
  import opened Groups
  import opened Allocation
  import opened Plan
  import opened Pass
  import opened Lists
  import opened Reconciling
  import opened Settlement
  import opened Allocated
  import opened Safety

  // ----- Any calls refused -----

  /** The first k turns of the main loop of a reconcile. */
  function Turns(g: Group, down: nat -> bool, order: seq<string>, nodes: map<string, Node>, calls: nat, k: nat): (p: Progress)
    requires forall n :: n in order ==> n in nodes
    requires k <= |Build(g, down, order, World(nodes, calls, {}), |order|).names|
    ensures p.world.nodes.Keys == nodes.Keys
  {
    var c := Build(g, down, order, World(nodes, calls, {}), |order|);
    Run(g, down, c.names, Begin(g, c), k)
  }

  /** The ledger of a fresh context is desired minus current, in memory and as stored. */
  lemma {:induction false} FreshBalance(g: Group, order: seq<string>, nodes: map<string, Node>, c: Context, i: nat)
    requires WellFormed(g) && i < |g.assignments| && Faithful(g, order, nodes, c, |order|)
    requires forall n :: n in c.names ==> n in nodes && n in c.world.nodes
    ensures var a := g.assignments[i].name;
            && InMemory(g, c.memory, a) == On(g, nodes, c.names, a) == On(g, c.world.nodes, c.names, a)
            && Get(Begin(g, c).ledger, a) == Desired(g.assignments[i], |c.names|) - On(g, nodes, c.names, a)
  {
    hide Desired, Before, LabelOf, Admitted, InitialLedger, WellFormed;
    var a := g.assignments[i].name;
    FaithfulMemory(g, order, nodes, c);
    assert c.memory == Memory(g, nodes, c.names);
    assert Named(g.assignments, a);
    NamedIsKnown(g, a);
    KnownCountsAgree(g, nodes, c.names, |c.names|, a);
    InitialLedgerUpTo(g, LabelsOf(g, c.memory), |g.assignments|, i);
    assert LabelsNow(g, c.world.nodes, c.names) == LabelsNow(g, nodes, c.names);
    hide LabelsNow, LabelsOf;
  }

  lemma {:induction false} FaithfulMemory(g: Group, order: seq<string>, nodes: map<string, Node>, c: Context)
    requires Faithful(g, order, nodes, c, |order|)
    requires forall n :: n in c.names ==> n in nodes && n in c.world.nodes
    ensures c.memory == Memory(g, nodes, c.names)
    ensures forall k :: 0 <= k < |c.names| ==> c.world.nodes[c.names[k]] == nodes[c.names[k]]
  {
    hide LabelOf, Admitted, Distinct;
    MemoryIsUnique(g, nodes, c.names, c.memory);
  }

  lemma {:induction false} FaithfulFacts(g: Group, order: seq<string>, nodes: map<string, Node>, c: Context)
    requires Faithful(g, order, nodes, c, |order|)
    ensures Distinct(c.names) && c.world.nodes.Keys == nodes.Keys
    ensures forall n :: n in nodes ==> LabelOf(g, c.world.nodes[n]).None? || c.world.nodes[n] == nodes[n]
  {
    hide LabelOf, Admitted, Distinct;
  }

  /** At every point of the main loop, whatever was refused before: desired count = ledger entry +
      in-memory nodes + nodes handed out; the entry keeps its sign; and the stored nodes on the
      assignment exceed those at the start by at most what has been paid. */
  lemma {:induction false} LedgerBalances(g: Group, down: nat -> bool, order: seq<string>, nodes: map<string, Node>, calls: nat, k: nat, i: nat)
    requires IsListing(order, nodes) && WellFormed(g) && i < |g.assignments|
    requires k <= |BuiltContext(g, down, order, nodes, calls).names|
    ensures var c := BuiltContext(g, down, order, nodes, calls);
            var p := Turns(g, down, order, nodes, calls, k);
            var a, desired := g.assignments[i].name, Desired(g.assignments[i], |c.names|);
            && Get(p.ledger, a) + InMemory(g, p.memory, a) + HandedOut(p.served, a) == desired
            && (On(g, nodes, c.names, a) <= desired ==> 0 <= Get(p.ledger, a) <= desired - On(g, nodes, c.names, a))
            && (On(g, nodes, c.names, a) >= desired ==> desired - On(g, nodes, c.names, a) <= Get(p.ledger, a) <= 0)
            && (forall n :: n in c.names ==> n in p.world.nodes)
            && On(g, p.world.nodes, c.names, a)
                 <= On(g, nodes, c.names, a) + Max(0, desired - On(g, nodes, c.names, a)) - Due(p.ledger, a)
  {
    hide Build, Run, Desired, On, InMemory, WellFormed, Faithful;
    var c := BuiltContext(g, down, order, nodes, calls);
    BuildIsFaithful(g, down, order, World(nodes, calls, {}), |order|);
    FaithfulFacts(g, order, nodes, c);
    FreshBalance(g, order, nodes, c, i);
    NotTheFallback(g, i);
    RunKeepsBalance(g, down, c.names, Begin(g, c), k, g.assignments[i].name);
    hide InitialLedger, FallbackName;
    NothingHandedOut(g, c, g.assignments[i].name);
  }

  lemma {:induction false} NotTheFallback(g: Group, i: nat)
    requires WellFormed(g) && i < |g.assignments|
    ensures FallbackName(g) != Some(g.assignments[i].name)
  {
    assert Named(g.assignments, g.assignments[i].name);
  }

  lemma {:induction false} NothingHandedOut(g: Group, c: Context, a: string)
    ensures HandedOut(Begin(g, c).served, a) == 0
  {
  }

  lemma {:induction false} CleaningOnlyLowers(g: Group, nodes: map<string, Node>, names: seq<string>, cleaned: set<string>, m: nat, c: string)
    requires m <= |names| && forall n :: n in names ==> n in nodes
    ensures forall n :: n in names ==> n in Cleaned(g, nodes, cleaned)
    ensures Before(LabelsNow(g, Cleaned(g, nodes, cleaned), names), m, Some(c)) <= Before(LabelsNow(g, nodes, names), m, Some(c))
  {
    hide LabelsNow, Unassigned, LabelOf;
    if m > 0 {
      CleaningOnlyLowers(g, nodes, names, cleaned, m - 1, c);
      assert names[m - 1] in names;
      UnassignedHasNoLabel(g, nodes[names[m - 1]]);
    }
  }

  /** After any number of turns and any part of the cleanup, whichever calls were refused, an assignment
      has at most the larger of what it had and what it should have among the nodes of the context. */
  lemma {:induction false} NeverOverAssigned(g: Group, down: nat -> bool, order: seq<string>, nodes: map<string, Node>, calls: nat,
                                             k: nat, cleaned: set<string>, i: nat)
    requires IsListing(order, nodes) && WellFormed(g) && i < |g.assignments|
    requires k <= |BuiltContext(g, down, order, nodes, calls).names|
    ensures var c := BuiltContext(g, down, order, nodes, calls);
            var after := Cleaned(g, Turns(g, down, order, nodes, calls, k).world.nodes, cleaned);
            && (forall n :: n in c.names ==> n in after)
            && On(g, after, c.names, g.assignments[i].name)
                 <= Max(On(g, nodes, c.names, g.assignments[i].name), Desired(g.assignments[i], |c.names|))
  {
    hide Build, Run, Desired, WellFormed, LabelsNow, Before, Cleaned, Turns, InMemory, HandedOut;
    LedgerBalances(g, down, order, nodes, calls, k, i);
    CleaningOnlyLowers(g, Turns(g, down, order, nodes, calls, k).world.nodes, BuiltContext(g, down, order, nodes, calls).names, cleaned,
                       |BuiltContext(g, down, order, nodes, calls).names|, g.assignments[i].name);
  }

  /** ... and every stored label is the original one, one of the group, or none. */
  lemma {:induction false} LabelsStayLegitimate(g: Group, down: nat -> bool, order: seq<string>, nodes: map<string, Node>, calls: nat,
                                                k: nat, cleaned: set<string>, n: string)
    requires IsListing(order, nodes) && n in nodes
    requires k <= |BuiltContext(g, down, order, nodes, calls).names|
    ensures var after := Cleaned(g, Turns(g, down, order, nodes, calls, k).world.nodes, cleaned);
            && n in after
            && (LabelOf(g, after[n]).None? || LabelOf(g, after[n]) == LabelOf(g, nodes[n]) || KnownLabel(g, LabelOf(g, after[n])))
  {
    hide Build, Run, LabelOf, KnownLabel, Faithful, Begin, Unassigned;
    var c := BuiltContext(g, down, order, nodes, calls);
    BuildIsFaithful(g, down, order, World(nodes, calls, {}), |order|);
    FaithfulFacts(g, order, nodes, c);
    RunKeepsLabels(g, down, c.names, Begin(g, c), k);
    UnassignedHasNoLabel(g, Turns(g, down, order, nodes, calls, k).world.nodes[n]);
  }

  /** A main loop that was not cut short has released everything it had to: no entry is negative. */
  lemma {:induction false} AllReleasedAtEnd(g: Group, down: nat -> bool, order: seq<string>, nodes: map<string, Node>, calls: nat, i: nat)
    requires IsListing(order, nodes) && WellFormed(g) && i < |g.assignments|
    ensures var p := Turns(g, down, order, nodes, calls, |BuiltContext(g, down, order, nodes, calls).names|);
            !p.aborted ==> Get(p.ledger, g.assignments[i].name) >= 0
  {
    hide Build, Run, Desired, On, InMemory, WellFormed, Faithful;
    var c := BuiltContext(g, down, order, nodes, calls);
    BuildIsFaithful(g, down, order, World(nodes, calls, {}), |order|);
    FaithfulFacts(g, order, nodes, c);
    FreshBalance(g, order, nodes, c, i);
    NotTheFallback(g, i);
    hide InitialLedger, FallbackName, Begin;
    NothingOwedAtEnd(g, down, c.names, Begin(g, c), g.assignments[i].name);
  }

  // ----- No call refused: the two views -----

  /** The label the pass decides for a node. */
  function Decided(g: Group, order: seq<string>, nodes: map<string, Node>, n: string): Option<string>
    requires n in nodes && forall m :: m in order ==> m in nodes
  {
    match OutcomeIn(g, order, nodes, n)
    case Stay => LabelOf(g, nodes[n])
    case Give(a) => Some(a.name)
    case Nothing => None
  }

  lemma {:induction false} TargetedViews(g: Group, outcome: Outcome, node: Node)
    requires IsTargeted(g, node) && (outcome == Stay ==> LabelOf(g, Admitted(g, node)).Some?)
    ensures var stored := AfterTurn(g, outcome, AfterListing(g, node), Admitted(g, node));
            StaleAfterTurn(outcome, IsStray(g, node), LabelOf(g, Admitted(g, node))) <==>
              LabelOf(g, stored) != match outcome case Stay => LabelOf(g, node) case Give(a) => Some(a.name) case Nothing => None
  {
    UnassignedHasNoLabel(g, node);
    UnassignedHasNoLabel(g, Admitted(g, node));
    if outcome.Give? {
      PatchSetsLabel(g, outcome.a, AfterListing(g, node), Base(g, Admitted(g, node)));
    }
    hide IsTargeted, Unassigned, ApplyPatch, Assigned, LabelOf, Known;
  }

  lemma {:induction false} OtherViews(g: Group, node: Node)
    requires !IsTargeted(g, node)
    ensures IsStray(g, node) <==> LabelOf(g, AfterListing(g, node)).Some?
  {
    UnassignedHasNoLabel(g, node);
    hide IsTargeted, Unassigned, Known, LabelOf;
  }

  lemma {:induction false} NodeViews(g: Group, order: seq<string>, nodes: map<string, Node>, c: Context, p: Progress, n: string)
    requires IsListing(order, nodes) && n in nodes
    requires c.names == Targeted(g, order, nodes) && |c.memory| == |c.names| == |p.memory|
    requires c.world.nodes.Keys == nodes.Keys == p.world.nodes.Keys
    requires forall k :: 0 <= k < |c.names| ==> c.names[k] in nodes && c.memory[k] == Admitted(g, nodes[c.names[k]])
    requires c.world.nodes[n] == AfterListing(g, nodes[n]) && (n in c.world.stale <==> IsStray(g, nodes[n]))
    requires NodesAfter(g, c.names, Begin(g, c), p, |c.names|)
    ensures n in p.world.stale <==> LabelOf(g, p.world.nodes[n]) != Decided(g, order, nodes, n)
  {
    hide AfterTurn, StaleAfterTurn, OutcomeAt, IsTargeted, IsStray, AfterListing, Admitted, NodesAfter, Targeted, OutcomeIn,
         LabelsOf, InitialLedger, LabelOf;
    TargetedFacts(g, order, nodes);
    var names := c.names;
    if n in names {
      var j :| 0 <= j < |names| && names[j] == n;
      TurnOfName(g, names, Begin(g, c), p, j);
      MemoryIsUnique(g, nodes, names, c.memory);
      OutcomeOfTargeted(g, order, nodes, j);
      var labels, ledger := LabelsOf(g, c.memory), Begin(g, c).ledger;
      assert labels[j] == LabelOf(g, Admitted(g, nodes[n]));
      if OutcomeAt(g, labels, ledger, j) == Stay {
        StayersAreLabelled(g, labels, ledger, j);
      }
      TargetedViews(g, OutcomeAt(g, labels, ledger, j), nodes[n]);
    } else {
      TurnOfOthers(g, names, Begin(g, c), p, n);
      UntargetedGetsNothing(g, order, nodes, n);
      OtherViews(g, nodes[n]);
    }
  }

  /** After the main loop the recorded names are exactly those of the nodes whose stored label is not the decided one. */
  lemma {:induction false} RecordedAreDiverging(g: Group, down: nat -> bool, order: seq<string>, nodes: map<string, Node>, calls: nat, n: string)
    requires IsListing(order, nodes) && WellFormed(g) && NoFault(down) && n in nodes
    ensures var p := Turns(g, down, order, nodes, calls, |BuiltContext(g, down, order, nodes, calls).names|);
            n in p.world.stale <==> LabelOf(g, p.world.nodes[n]) != Decided(g, order, nodes, n)
  {
    hide Build, Run, NodesAfter, LedgerAfter, Begin, NoFault, WellFormed, ListedUpTo, AfterListing, IsStray, Admitted, LabelOf, Decided;
    var c := BuiltContext(g, down, order, nodes, calls);
    BuildLists(g, down, order, World(nodes, calls, {}), |order|);
    ListedContext(g, order, nodes, c);
    TargetedNamesMembers(g, nodes, order, |order|);
    hide TargetedNames;
    RunFollowsPlan(g, down, c.names, Begin(g, c), |c.names|);
    NodeViews(g, order, nodes, c, Turns(g, down, order, nodes, calls, |c.names|), n);
  }
}

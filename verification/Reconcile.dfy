/** What a whole reconcile does to the stored nodes when no call is refused, node by node,
    and the proof that the step-by-step pass with its two views of every node does exactly that. */
module Reconciling {
  import opened Cluster
  import opened Groups
  import opened Allocation
  import opened Plan
  import opened Pass
  import opened Lists

  // ----- Per-node specification -----

  predicate IsTargeted(g: Group, node: Node) { Targets(g, Admitted(g, node).labels) }

  /** The targeted names among the first i of the list. */
  function TargetedNames(g: Group, nodes: map<string, Node>, order: seq<string>, i: nat): (r: seq<string>)
    requires i <= |order| && forall n :: n in order ==> n in nodes
    ensures |r| <= i
  {
    if i == 0 then []
    else
      assert order[i - 1] in order;
      TargetedNames(g, nodes, order, i - 1) + if IsTargeted(g, nodes[order[i - 1]]) then [order[i - 1]] else []
  }

  lemma {:induction false} TargetedNamesMembers(g: Group, nodes: map<string, Node>, order: seq<string>, i: nat)
    requires i <= |order| && (forall n :: n in order ==> n in nodes) && Distinct(order)
    ensures var names := TargetedNames(g, nodes, order, i);
            && (forall n :: n in names <==> n in order[..i] && IsTargeted(g, nodes[n]))
            && Distinct(names)
  {
    if i > 0 {
      TargetedNamesMembers(g, nodes, order, i - 1);
      hide IsTargeted;
      assert order[..i] == order[..i - 1] + [order[i - 1]];
      assert order[i - 1] !in order[..i - 1];
    }
  }

  /** In-memory versions of the named nodes. */
  function Memory(g: Group, nodes: map<string, Node>, names: seq<string>): (r: seq<Node>)
    requires forall n :: n in names ==> n in nodes
    ensures |r| == |names|
    ensures forall k :: 0 <= k < |names| ==> r[k] == Admitted(g, nodes[names[k]])
  {
    seq(|names|, k requires 0 <= k < |names| => assert names[k] in names; Admitted(g, nodes[names[k]]))
  }

  /** The labels the plan starts from: those of the targeted nodes, unknown ones dropped. */
  function PlanLabels(g: Group, nodes: map<string, Node>, names: seq<string>): (r: seq<Option<string>>)
    requires forall n :: n in names ==> n in nodes
    ensures |r| == |names|
  {
    LabelsOf(g, Memory(g, nodes, names))
  }

  function PlanLedger(g: Group, labels: seq<Option<string>>): map<string, int> {
    InitialLedger(g, labels, |g.assignments|)
  }

  /** The node to assign from: without the group's traces if it was labelled. */
  function Base(g: Group, node: Node): Node {
    if LabelOf(g, node).Some? then Unassigned(g, node) else node
  }

  /** A node given to an assignment: the API merges what changed between the in-memory versions. */
  function Relabelled(g: Group, a: Assignment, node: Node): Node {
    ApplyPatch(node, Base(g, node), Assigned(g, a, Base(g, node)))
  }

  function Settled(g: Group, outcome: Outcome, node: Node): Node {
    match outcome
    case Stay => node
    case Give(a) => Relabelled(g, a, node)
    case Nothing => Base(g, node)
  }

  function OutcomeFor(g: Group, nodes: map<string, Node>, names: seq<string>, name: string): Outcome
    requires (forall n :: n in names ==> n in nodes) && name in names
  {
    var labels := PlanLabels(g, nodes, names);
    OutcomeAt(g, labels, PlanLedger(g, labels), IndexOf(names, name))
  }

  /** Every node after a reconcile without refused calls. */
  function Reconciled(g: Group, order: seq<string>, nodes: map<string, Node>): map<string, Node>
    requires forall n :: n in order ==> n in nodes
  {
    var names := TargetedNames(g, nodes, order, |order|);
    TargetedNamesInOrder(g, nodes, order, |order|);
    map n | n in nodes ::
      if n in names then Settled(g, OutcomeFor(g, nodes, names, n), nodes[n]) else Base(g, nodes[n])
  }

  lemma {:induction false} TargetedNamesInOrder(g: Group, nodes: map<string, Node>, order: seq<string>, i: nat)
    requires i <= |order| && forall n :: n in order ==> n in nodes
    ensures forall n :: n in TargetedNames(g, nodes, order, i) ==> n in order
  {
    if i > 0 {
      TargetedNamesInOrder(g, nodes, order, i - 1);
    }
  }

  ghost predicate IsListing(order: seq<string>, nodes: map<string, Node>) {
    Distinct(order) && (forall n :: n in order <==> n in nodes)
  }

  // ----- The built context -----

  /** After the listing: evicted if labelled with a known assignment and not targeted. */
  function AfterListing(g: Group, node: Node): Node {
    if !IsTargeted(g, node) && !IsStray(g, node) then Base(g, node) else node
  }

  ghost predicate ListedUpTo(g: Group, order: seq<string>, nodes: map<string, Node>, c: Context, i: nat)
    requires i <= |order| && forall n :: n in order ==> n in nodes
  {
    && !c.aborted
    && c.names == TargetedNames(g, nodes, order, i)
    && |c.memory| == |c.names|
    && (forall k :: 0 <= k < |c.names| ==> c.names[k] in nodes && c.memory[k] == Admitted(g, nodes[c.names[k]]))
    && c.world.nodes.Keys == nodes.Keys
    && (forall n :: n in nodes ==> c.world.nodes[n] == if n in order[..i] then AfterListing(g, nodes[n]) else nodes[n])
    && (forall n :: n in c.world.stale <==> n in order[..i] && IsStray(g, nodes[n]))
  }

  lemma {:induction false} AdmitOne(g: Group, down: nat -> bool, c: Context, name: string, node: Node)
    requires name in c.world.nodes && c.world.nodes[name] == node && name !in c.world.stale
    requires NoFault(down) && !c.aborted
    ensures var r := Admit(g, down, c, name, node);
            && !r.aborted
            && r.names == c.names + (if IsTargeted(g, node) then [name] else [])
            && r.memory == c.memory + (if IsTargeted(g, node) then [Admitted(g, node)] else [])
            && r.world.nodes == c.world.nodes[name := AfterListing(g, node)]
            && r.world.stale == c.world.stale + if IsStray(g, node) then {name} else {}
  {
    UnassignedHasNoLabel(g, node);
    assert c.world.nodes[name := node] == c.world.nodes;
    if !IsTargeted(g, node) && !IsStray(g, node) && LabelOf(g, node).Some? {
      assert Admitted(g, node) == node;
      PatchFromCurrent(node, Unassigned(g, node));
      hide Targets, ApplyPatch;
      assert c.world.stale - {name} == c.world.stale;
    } else {
      hide Targets, Unassigned, Update;
      assert AfterListing(g, node) == node;
    }
  }

  lemma {:induction false} UnassignedHasNoLabel(g: Group, node: Node)
    ensures LabelOf(g, Unassigned(g, node)).None?
  {
  }

  lemma {:induction false} BuildLists(g: Group, down: nat -> bool, order: seq<string>, start: World, i: nat)
    requires IsListing(order, start.nodes) && i <= |order| && NoFault(down) && start.stale == {}
    ensures ListedUpTo(g, order, start.nodes, Build(g, down, order, start, i), i)
  {
    hide Build, Admit, ListedUpTo, TargetedNames, NoFault;
    if i > 0 {
      BuildLists(g, down, order, start, i - 1);
      BuildOne(g, down, order, start, i);
      ListOneMore(g, down, order, start.nodes, Build(g, down, order, start, i - 1), i - 1);
    } else {
      BuildNothing(g, down, order, start);
    }
  }

  lemma {:induction false} BuildNothing(g: Group, down: nat -> bool, order: seq<string>, start: World)
    requires IsListing(order, start.nodes) && start.stale == {}
    ensures ListedUpTo(g, order, start.nodes, Build(g, down, order, start, 0), 0)
  {
    hide IsStray, IsTargeted, Admitted, AfterListing, Admit;
  }

  lemma {:induction false} BuildOne(g: Group, down: nat -> bool, order: seq<string>, start: World, i: nat)
    requires IsListing(order, start.nodes) && 0 < i <= |order|
    requires ListedUpTo(g, order, start.nodes, Build(g, down, order, start, i - 1), i - 1)
    ensures var c := Build(g, down, order, start, i - 1);
            Build(g, down, order, start, i) == Admit(g, down, c, order[i - 1], start.nodes[order[i - 1]])
  {
    hide Admit, TargetedNames, IsStray, Admitted, AfterListing;
    assert !Build(g, down, order, start, i - 1).aborted;
  }

  lemma {:induction false} ListOneMore(g: Group, down: nat -> bool, order: seq<string>, nodes: map<string, Node>, c: Context, i: nat)
    requires IsListing(order, nodes) && i < |order| && NoFault(down)
    requires ListedUpTo(g, order, nodes, c, i)
    ensures ListedUpTo(g, order, nodes, Admit(g, down, c, order[i], nodes[order[i]]), i + 1)
  {
    var name := order[i];
    assert name in order && name !in order[..i];
    AdmitOne(g, down, c, name, nodes[name]);
    hide Admit, IsTargeted, IsStray, AfterListing, Admitted, NoFault;
    ListedStep(g, order, nodes, c, Admit(g, down, c, name, nodes[name]), i, name);
  }

  lemma {:induction false} ListedStep(g: Group, order: seq<string>, nodes: map<string, Node>, c: Context, r: Context, i: nat, name: string)
    requires i < |order| && name == order[i] && forall n :: n in order ==> n in nodes
    requires ListedUpTo(g, order, nodes, c, i)
    requires name in nodes && !r.aborted
    requires r.names == c.names + (if IsTargeted(g, nodes[name]) then [name] else [])
    requires r.memory == c.memory + (if IsTargeted(g, nodes[name]) then [Admitted(g, nodes[name])] else [])
    requires r.world.nodes == c.world.nodes[name := AfterListing(g, nodes[name])]
    requires r.world.stale == c.world.stale + if IsStray(g, nodes[name]) then {name} else {}
    ensures ListedUpTo(g, order, nodes, r, i + 1)
  {
    hide IsTargeted, IsStray, AfterListing, Admitted;
    assert forall n :: n in order[..i + 1] <==> n in order[..i] || n == name by {
      assert order[..i + 1] == order[..i] + [name];
    }
    assert TargetedNames(g, nodes, order, i + 1)
        == TargetedNames(g, nodes, order, i) + if IsTargeted(g, nodes[name]) then [name] else [];
    hide TargetedNames;
  }

  // ----- The main loop -----

  /** What is left of the demand queue after serving some of it. */
  ghost predicate QueueLeft(g: Group, ledger0: map<string, int>, ledger: map<string, int>, served: nat) {
    var queue := Demand(g.assignments, ledger0);
    Demand(g.assignments, ledger) == queue[Min(served, |queue|)..]
  }

  /** What is left to release after k nodes. */
  ghost predicate ReleasesLeft(g: Group, labels: seq<Option<string>>, ledger0: map<string, int>, ledger: map<string, int>, k: nat)
    requires k <= |labels|
  {
    forall c :: FallbackName(g) != Some(c) ==>
      Surplus(ledger, c) == Max(0, Surplus(ledger0, c) - Before(labels, k, Some(c)))
  }

  /** The ledger after k nodes stands for the rest of the demand queue and for the releases still to come. */
  ghost predicate LedgerAfter(g: Group, labels: seq<Option<string>>, ledger0: map<string, int>, ledger: map<string, int>, k: nat)
    requires k <= |labels|
  {
    QueueLeft(g, ledger0, ledger, FreeBefore(g, labels, ledger0, k)) && ReleasesLeft(g, labels, ledger0, ledger, k)
  }

  /** Node j as stored after its turn, from its stored and in-memory versions before. */
  function AfterTurn(g: Group, outcome: Outcome, stored: Node, memory: Node): Node {
    match outcome
    case Give(a) => ApplyPatch(stored, Base(g, memory), Assigned(g, a, Base(g, memory)))
    case _ => stored
  }

  /** Its name stays recorded only if nobody took it. */
  predicate StaleAfterTurn(outcome: Outcome, before: bool, label0: Option<string>) {
    match outcome
    case Stay => before
    case Give(_) => false
    case Nothing => before || label0.Some?
  }

  ghost predicate NodesAfter(g: Group, names: seq<string>, start: Progress, p: Progress, k: nat)
    requires k <= |names| == |start.memory| == |p.memory|
    requires p.world.nodes.Keys == start.world.nodes.Keys && forall n :: n in names ==> n in start.world.nodes
  {
    var labels := LabelsOf(g, start.memory);
    && !p.aborted
    && (forall j :: k <= j < |names| ==> p.memory[j] == start.memory[j])
    && (forall n :: n in start.world.nodes && n !in names[..k] ==> p.world.nodes[n] == start.world.nodes[n])
    && (forall n :: n !in names[..k] ==> (n in p.world.stale <==> n in start.world.stale))
    && (forall j :: 0 <= j < k ==>
          && names[j] in names && names[j] in p.world.nodes
          && p.world.nodes[names[j]] == AfterTurn(g, OutcomeAt(g, labels, start.ledger, j), start.world.nodes[names[j]], start.memory[j])
          && (names[j] in p.world.stale <==>
                StaleAfterTurn(OutcomeAt(g, labels, start.ledger, j), names[j] in start.world.stale, labels[j])))
  }

  /** Counting a released node leaves the demand alone and uses up one release. */
  lemma {:induction false} ReleaseKeepsDemand(g: Group, ledger: map<string, int>, from: string)
    requires WellFormed(g) && (Get(ledger, from) < 0 || FallbackName(g) == Some(from))
    ensures Demand(g.assignments, Bump(ledger, from, 1)) == Demand(g.assignments, ledger)
    ensures forall c :: FallbackName(g) != Some(c) ==>
              Surplus(Bump(ledger, from, 1), c) == Surplus(ledger, c) - if c == from then 1 else 0
  {
    forall i | 0 <= i < |g.assignments|
      ensures Due(Bump(ledger, from, 1), g.assignments[i].name) == Due(ledger, g.assignments[i].name)
    {
      assert Named(g.assignments, g.assignments[i].name);
    }
    DemandDependsOnDue(g.assignments, Bump(ledger, from, 1), ledger);
  }

  lemma {:induction false} AssignedDiffers(g: Group, a: Assignment, node: Node)
    requires LabelOf(g, node).None?
    ensures !IsEmptyPatch(node, Assigned(g, a, node))
  {
    assert AssignmentKey(g.name) in Assigned(g, a, node).labels;
  }

  /** An unlabelled node takes the head of the demand queue, or else the default. */
  lemma {:induction false} PlaceTakesHead(g: Group, down: nat -> bool, names: seq<string>, p: Progress, k: nat)
    requires |p.memory| == |names| && k < |names| && names[k] in p.world.nodes
    requires WellFormed(g) && NoFault(down) && !p.aborted && LabelOf(g, p.memory[k]).None?
    ensures var queue, r := Demand(g.assignments, p.ledger), Place(g, down, names, p, k);
            var to := if queue != [] then Some(queue[0]) else g.fallback;
            && !r.aborted && r.memory == p.memory
            && (to.None? ==> r == p)
            && (to.Some? ==>
                  && r.world.stale == p.world.stale - {names[k]}
                  && r.world.nodes == p.world.nodes[names[k] :=
                       ApplyPatch(p.world.nodes[names[k]], p.memory[k], Assigned(g, to.value, p.memory[k]))])
            && Demand(g.assignments, r.ledger) == (if queue != [] then queue[1..] else [])
            && forall c :: Surplus(r.ledger, c) == Surplus(p.ledger, c)
  {
    FirstDueIsHead(g.assignments, p.ledger);
    var due := FirstDue(g.assignments, p.ledger);
    if due.Some? {
      AssignedDiffers(g, due.value, p.memory[k]);
    } else if g.fallback.Some? {
      AssignedDiffers(g, g.fallback.value, p.memory[k]);
    }
    hide Demand, FirstDue, ApplyPatch, Assigned, IsEmptyPatch, LabelOf;
  }

  /** A free node is placed from its base version. */
  lemma {:induction false} FreeNodeIsReleased(g: Group, down: nat -> bool, names: seq<string>, p: Progress, k: nat,
                                              labels: seq<Option<string>>, ledger0: map<string, int>)
    requires |p.memory| == |names| == |labels| && k < |names| && names[k] in p.world.nodes
    requires labels[k] == LabelOf(g, p.memory[k])
    requires ReleasesLeft(g, labels, ledger0, p.ledger, k) && IsFree(g, labels, ledger0, k)
    ensures var q := if labels[k].Some? then Release(g, names, p, k, labels[k].value) else p;
            && q.memory == p.memory[k := Base(g, p.memory[k])]
            && LabelOf(g, q.memory[k]).None?
            && q.world.nodes == p.world.nodes && q.aborted == p.aborted
            && q.world.stale == p.world.stale + (if labels[k].Some? then {names[k]} else {})
            && Step(g, down, names, p, k) == Place(g, down, names, q, k)
  {
    UnassignedHasNoLabel(g, p.memory[k]);
    assert p.memory[k := p.memory[k]] == p.memory;
    FreeMayBeReleased(g, labels, ledger0, p.ledger, k);
    hide Place, Unassigned, IsFree, Bump, ReleasesLeft;
  }

  lemma {:induction false} FreeMayBeReleased(g: Group, labels: seq<Option<string>>, ledger0: map<string, int>, ledger: map<string, int>, k: nat)
    requires k < |labels| && ReleasesLeft(g, labels, ledger0, ledger, k) && IsFree(g, labels, ledger0, k)
    ensures labels[k].Some? ==> Get(ledger, labels[k].value) < 0 || FallbackName(g) == labels[k]
  {
    hide Before;
  }

  /** Its release, if any, is in the ledger. */
  lemma {:induction false} FreeReleaseIsCounted(g: Group, labels: seq<Option<string>>, ledger0: map<string, int>,
                                                ledger: map<string, int>, ledger': map<string, int>, k: nat)
    requires k < |labels| && WellFormed(g) && ReleasesLeft(g, labels, ledger0, ledger, k) && IsFree(g, labels, ledger0, k)
    requires ledger' == if labels[k].Some? then Bump(ledger, labels[k].value, 1) else ledger
    ensures Demand(g.assignments, ledger') == Demand(g.assignments, ledger)
    ensures ReleasesLeft(g, labels, ledger0, ledger', k + 1)
  {
    FreeMayBeReleased(g, labels, ledger0, ledger, k);
    if labels[k].Some? {
      ReleaseKeepsDemand(g, ledger, labels[k].value);
    }
    hide Demand, Bump, Get, IsFree, WellFormed;
    forall c | FallbackName(g) != Some(c)
      ensures Surplus(ledger', c) == Max(0, Surplus(ledger0, c) - Before(labels, k + 1, Some(c)))
    {
      assert Before(labels, k + 1, Some(c)) == Before(labels, k, Some(c)) + if labels[k] == Some(c) then 1 else 0;
    }
  }

  /** One turn of the loop decides as the plan does and advances the ledger. */
  ghost predicate TurnTaken(g: Group, names: seq<string>, p: Progress, r: Progress, k: nat, outcome: Outcome, carried: Option<string>)
    requires |p.memory| == |names| == |r.memory| && k < |names| && names[k] in p.world.nodes
  {
    && !r.aborted
    && (forall j :: 0 <= j < |names| && j != k ==> r.memory[j] == p.memory[j])
    && r.world.nodes == p.world.nodes[names[k] := AfterTurn(g, outcome, p.world.nodes[names[k]], p.memory[k])]
    && r.world.stale == p.world.stale - {names[k]}
         + if StaleAfterTurn(outcome, names[k] in p.world.stale, carried) then {names[k]} else {}
  }

  /** What a free node gets is what is at the head of the remaining queue. */
  lemma {:induction false} HeadIsOutcome(g: Group, labels: seq<Option<string>>, ledger0: map<string, int>, ledger: map<string, int>, k: nat)
    requires k < |labels| && LedgerAfter(g, labels, ledger0, ledger, k) && IsFree(g, labels, ledger0, k)
    ensures var queue := Demand(g.assignments, ledger);
            var to := if queue != [] then Some(queue[0]) else g.fallback;
            OutcomeAt(g, labels, ledger0, k) == if to.Some? then Give(to.value) else Nothing
  {
    hide Demand, IsFree, FreeBefore, ReleasesLeft;
  }

  lemma {:induction false} FreeLedgerAdvances(g: Group, labels: seq<Option<string>>, ledger0: map<string, int>,
                                              ledger: map<string, int>, ledger': map<string, int>, k: nat)
    requires k < |labels| && LedgerAfter(g, labels, ledger0, ledger, k) && IsFree(g, labels, ledger0, k)
    requires var queue := Demand(g.assignments, ledger);
             Demand(g.assignments, ledger') == if queue != [] then queue[1..] else []
    requires ReleasesLeft(g, labels, ledger0, ledger', k + 1)
    ensures LedgerAfter(g, labels, ledger0, ledger', k + 1)
  {
    hide ReleasesLeft, IsFree, QueueLeft;
    var served := FreeBefore(g, labels, ledger0, k);
    assert FreeBefore(g, labels, ledger0, k + 1) == served + 1;
    hide FreeBefore;
    ServeOne(g, ledger0, ledger, ledger', served);
  }

  lemma {:induction false} ServeOne(g: Group, ledger0: map<string, int>, ledger: map<string, int>, ledger': map<string, int>, served: nat)
    requires QueueLeft(g, ledger0, ledger, served)
    requires var queue := Demand(g.assignments, ledger);
             Demand(g.assignments, ledger') == if queue != [] then queue[1..] else []
    ensures QueueLeft(g, ledger0, ledger', served + 1)
  {
    hide Demand;
    var queue := Demand(g.assignments, ledger0);
    if served < |queue| {
      assert queue[served..][1..] == queue[served + 1..];
    }
  }

  lemma {:induction false} OthersLedgerAdvances(g: Group, labels: seq<Option<string>>, ledger0: map<string, int>, ledger: map<string, int>, k: nat)
    requires k < |labels| && LedgerAfter(g, labels, ledger0, ledger, k) && !IsFree(g, labels, ledger0, k)
    ensures LedgerAfter(g, labels, ledger0, ledger, k + 1)
  {
    hide QueueLeft, ReleasesLeft, IsFree;
    assert FreeBefore(g, labels, ledger0, k + 1) == FreeBefore(g, labels, ledger0, k);
    hide FreeBefore;
    OthersReleasesLeft(g, labels, ledger0, ledger, k);
  }

  lemma {:induction false} OthersReleasesLeft(g: Group, labels: seq<Option<string>>, ledger0: map<string, int>, ledger: map<string, int>, k: nat)
    requires k < |labels| && ReleasesLeft(g, labels, ledger0, ledger, k) && !IsFree(g, labels, ledger0, k)
    ensures ReleasesLeft(g, labels, ledger0, ledger, k + 1)
  {
    hide Surplus, IsFree, Before, Max;
    forall c | FallbackName(g) != Some(c)
      ensures Surplus(ledger, c) == Max(0, Surplus(ledger0, c) - Before(labels, k + 1, Some(c)))
    {
      OthersStillToRelease(g, labels, ledger0, k, c);
    }
  }

  lemma {:induction false} OthersStillToRelease(g: Group, labels: seq<Option<string>>, ledger0: map<string, int>, k: nat, c: string)
    requires k < |labels| && !IsFree(g, labels, ledger0, k)
    ensures Max(0, Surplus(ledger0, c) - Before(labels, k + 1, Some(c))) == Max(0, Surplus(ledger0, c) - Before(labels, k, Some(c)))
  {
    assert Before(labels, k + 1, Some(c)) == Before(labels, k, Some(c)) + if labels[k] == Some(c) then 1 else 0;
  }

  lemma {:induction false} SameReleasesLeft(g: Group, labels: seq<Option<string>>, ledger0: map<string, int>,
                                            ledger: map<string, int>, ledger': map<string, int>, k: nat)
    requires k <= |labels| && ReleasesLeft(g, labels, ledger0, ledger, k)
    requires forall c :: Surplus(ledger', c) == Surplus(ledger, c)
    ensures ReleasesLeft(g, labels, ledger0, ledger', k)
  {
    hide Surplus, Before, Max;
  }

  lemma {:induction false} NotFreeIsSkipped(g: Group, down: nat -> bool, names: seq<string>, p: Progress, k: nat,
                                            labels: seq<Option<string>>, ledger0: map<string, int>)
    requires |p.memory| == |names| == |labels| && k < |names| && names[k] in p.world.nodes
    requires labels[k] == LabelOf(g, p.memory[k])
    requires ReleasesLeft(g, labels, ledger0, p.ledger, k) && !IsFree(g, labels, ledger0, k)
    ensures Step(g, down, names, p, k) == p
  {
    hide Place, Release, LabelOf, Before;
  }

  lemma {:induction false} SkippedTurnTaken(g: Group, names: seq<string>, p: Progress, k: nat, carried: Option<string>)
    requires |p.memory| == |names| && k < |names| && names[k] in p.world.nodes && !p.aborted
    ensures TurnTaken(g, names, p, p, k, Stay, carried)
  {
    assert p.world.nodes[names[k] := p.world.nodes[names[k]]] == p.world.nodes;
  }

  lemma {:induction false} PlacedTurnTaken(g: Group, names: seq<string>, p: Progress, q: Progress, r: Progress, k: nat,
                                           to: Option<Assignment>, carried: Option<string>)
    requires |p.memory| == |names| == |q.memory| == |r.memory| && k < |names| && names[k] in p.world.nodes
    requires q.memory == p.memory[k := Base(g, p.memory[k])] && q.world.nodes == p.world.nodes
    requires q.world.stale == p.world.stale + (if carried.Some? then {names[k]} else {})
    requires !r.aborted && r.memory == q.memory
    requires to.None? ==> r.world == q.world
    requires to.Some? ==>
               && r.world.stale == q.world.stale - {names[k]}
               && r.world.nodes == q.world.nodes[names[k] :=
                    ApplyPatch(q.world.nodes[names[k]], q.memory[k], Assigned(g, to.value, q.memory[k]))]
    ensures TurnTaken(g, names, p, r, k, if to.Some? then Give(to.value) else Nothing, carried)
  {
    hide ApplyPatch, Assigned, Base;
    assert p.world.nodes[names[k] := p.world.nodes[names[k]]] == p.world.nodes;
  }

  lemma {:induction false} ReleaseLedger(g: Group, names: seq<string>, p: Progress, k: nat, from: Option<string>)
    requires |p.memory| == |names| && k < |names|
    ensures (if from.Some? then Release(g, names, p, k, from.value) else p).ledger
         == if from.Some? then Bump(p.ledger, from.value, 1) else p.ledger
  {
    hide Bump, Unassigned;
  }

  lemma {:induction false} LedgerParts(g: Group, labels: seq<Option<string>>, ledger0: map<string, int>, ledger: map<string, int>, k: nat)
    requires k <= |labels| && LedgerAfter(g, labels, ledger0, ledger, k)
    ensures ReleasesLeft(g, labels, ledger0, ledger, k)
  {
    hide ReleasesLeft, QueueLeft;
  }

  lemma {:induction false} NotFreeOutcome(g: Group, labels: seq<Option<string>>, ledger0: map<string, int>, k: nat)
    requires k < |labels| && !IsFree(g, labels, ledger0, k)
    ensures OutcomeAt(g, labels, ledger0, k) == Stay
  {
    hide IsFree;
  }

  lemma {:induction false} StepFollowsPlan(g: Group, down: nat -> bool, names: seq<string>, p: Progress, k: nat,
                                           labels: seq<Option<string>>, ledger0: map<string, int>, r: Progress)
    requires |p.memory| == |names| == |labels| == |r.memory| && k < |names| && names[k] in p.world.nodes
    requires WellFormed(g) && NoFault(down) && !p.aborted && labels[k] == LabelOf(g, p.memory[k])
    requires LedgerAfter(g, labels, ledger0, p.ledger, k)
    requires r == Step(g, down, names, p, k)
    ensures TurnTaken(g, names, p, r, k, OutcomeAt(g, labels, ledger0, k), labels[k])
    ensures LedgerAfter(g, labels, ledger0, r.ledger, k + 1)
  {
    hide Step, Place, Release, IsFree, LedgerAfter, ReleasesLeft, TurnTaken, OutcomeAt, Demand, Base, LabelOf, Before, Surplus,
         NoFault, WellFormed, ApplyPatch, Assigned, FallbackName, Bump;
    if IsFree(g, labels, ledger0, k) {
      LedgerParts(g, labels, ledger0, p.ledger, k);
      FreeNodeIsReleased(g, down, names, p, k, labels, ledger0);
      var q := if labels[k].Some? then Release(g, names, p, k, labels[k].value) else p;
      ReleaseLedger(g, names, p, k, labels[k]);
      FreeReleaseIsCounted(g, labels, ledger0, p.ledger, q.ledger, k);
      PlaceTakesHead(g, down, names, q, k);
      HeadIsOutcome(g, labels, ledger0, p.ledger, k);
      var queue := Demand(g.assignments, p.ledger);
      PlacedTurnTaken(g, names, p, q, r, k, if queue != [] then Some(queue[0]) else g.fallback, labels[k]);
      SameReleasesLeft(g, labels, ledger0, q.ledger, r.ledger, k + 1);
      FreeLedgerAdvances(g, labels, ledger0, p.ledger, r.ledger, k);
    } else {
      LedgerParts(g, labels, ledger0, p.ledger, k);
      NotFreeIsSkipped(g, down, names, p, k, labels, ledger0);
      SkippedTurnTaken(g, names, p, k, labels[k]);
      NotFreeOutcome(g, labels, ledger0, k);
      OthersLedgerAdvances(g, labels, ledger0, p.ledger, k);
    }
  }

  lemma {:induction false} NodesAfterStep(g: Group, names: seq<string>, start: Progress, p: Progress, r: Progress, k: nat)
    requires k < |names| == |start.memory| == |p.memory| == |r.memory| && Distinct(names)
    requires p.world.nodes.Keys == start.world.nodes.Keys == r.world.nodes.Keys
    requires forall n :: n in names ==> n in start.world.nodes
    requires NodesAfter(g, names, start, p, k) && names[k] in p.world.nodes
    requires var labels := LabelsOf(g, start.memory);
             TurnTaken(g, names, p, r, k, OutcomeAt(g, labels, start.ledger, k), labels[k])
    ensures NodesAfter(g, names, start, r, k + 1)
  {
    hide OutcomeAt, AfterTurn, StaleAfterTurn, LabelsOf;
    assert names[..k + 1] == names[..k] + [names[k]];
    assert names[k] !in names[..k];
  }

  /** The main loop, when no call is refused, after its first k nodes. */
  lemma {:induction false} RunFollowsPlan(g: Group, down: nat -> bool, names: seq<string>, start: Progress, k: nat)
    requires k <= |names| == |start.memory| && Distinct(names) && forall n :: n in names ==> n in start.world.nodes
    requires WellFormed(g) && NoFault(down) && !start.aborted
    ensures NodesAfter(g, names, start, Run(g, down, names, start, k), k)
    ensures LedgerAfter(g, LabelsOf(g, start.memory), start.ledger, Run(g, down, names, start, k).ledger, k)
  {
    hide LedgerAfter, Step, LabelOf, LabelsOf, WellFormed, NoFault, NodesAfter, TurnTaken, OutcomeAt;
    var labels := LabelsOf(g, start.memory);
    if k == 0 {
      NothingDoneYet(g, names, start);
    } else {
      RunFollowsPlan(g, down, names, start, k - 1);
      var p := Run(g, down, names, start, k - 1);
      NodesAfterFacts(g, names, start, p, k - 1);
      assert names[k - 1] in names;
      var r := Run(g, down, names, start, k);
      assert r == Step(g, down, names, p, k - 1);
      hide Run;
      StepFollowsPlan(g, down, names, p, k - 1, labels, start.ledger, r);
      NodesAfterStep(g, names, start, p, r, k - 1);
    }
  }

  lemma {:induction false} NothingDoneYet(g: Group, names: seq<string>, start: Progress)
    requires |names| == |start.memory| && !start.aborted && forall n :: n in names ==> n in start.world.nodes
    ensures NodesAfter(g, names, start, start, 0)
    ensures LedgerAfter(g, LabelsOf(g, start.memory), start.ledger, start.ledger, 0)
  {
    hide OutcomeAt, LabelOf, Demand, Surplus;
  }

  lemma {:induction false} NodesAfterFacts(g: Group, names: seq<string>, start: Progress, p: Progress, k: nat)
    requires k < |names| == |start.memory| == |p.memory|
    requires p.world.nodes.Keys == start.world.nodes.Keys && forall n :: n in names ==> n in start.world.nodes
    requires NodesAfter(g, names, start, p, k)
    ensures !p.aborted && p.memory[k] == start.memory[k]
  {
    hide OutcomeAt, AfterTurn, StaleAfterTurn;
  }

  // ----- The whole pass -----

  /** A targeted node after its turn and the cleanup. */
  lemma {:induction false} TargetedNodeSettles(g: Group, outcome: Outcome, node: Node)
    requires IsTargeted(g, node) && (outcome == Stay ==> LabelOf(g, Admitted(g, node)).Some?)
    ensures var stored := AfterTurn(g, outcome, AfterListing(g, node), Admitted(g, node));
            (if StaleAfterTurn(outcome, IsStray(g, node), LabelOf(g, Admitted(g, node))) then Unassigned(g, stored) else stored)
              == Settled(g, outcome, node)
  {
    UnassignedHasNoLabel(g, node);
    hide IsTargeted, Unassigned, ApplyPatch, Assigned, LabelOf, Known;
  }

  lemma {:induction false} OtherNodeSettles(g: Group, node: Node)
    requires !IsTargeted(g, node)
    ensures (if IsStray(g, node) then Unassigned(g, AfterListing(g, node)) else AfterListing(g, node)) == Base(g, node)
  {
    hide IsTargeted, Unassigned, Known, LabelOf;
  }

  lemma {:induction false} StayersAreLabelled(g: Group, labels: seq<Option<string>>, ledger: map<string, int>, k: nat)
    requires k < |labels| && OutcomeAt(g, labels, ledger, k) == Stay
    ensures labels[k].Some?
  {
    hide Demand, FreeBefore, Before;
  }

  lemma {:induction false} IndexIsUnique(names: seq<string>, k: nat)
    requires k < |names| && Distinct(names)
    ensures IndexOf(names, names[k]) == k
  {
  }

  lemma {:induction false} ListedContext(g: Group, order: seq<string>, nodes: map<string, Node>, c: Context)
    requires (forall n :: n in order <==> n in nodes) && ListedUpTo(g, order, nodes, c, |order|)
    ensures c.names == TargetedNames(g, nodes, order, |order|)
    ensures |c.memory| == |c.names| && c.world.nodes.Keys == nodes.Keys
    ensures forall k :: 0 <= k < |c.names| ==> c.names[k] in nodes && c.memory[k] == Admitted(g, nodes[c.names[k]])
    ensures forall n :: n in nodes ==> c.world.nodes[n] == AfterListing(g, nodes[n])
    ensures forall n :: n in nodes ==> (n in c.world.stale <==> IsStray(g, nodes[n]))
    ensures c.world.stale <= nodes.Keys
  {
    hide TargetedNames, AfterListing, IsStray, Admitted;
    assert order[..|order|] == order;
  }

  lemma {:induction false} MemoryIsUnique(g: Group, nodes: map<string, Node>, names: seq<string>, memory: seq<Node>)
    requires |memory| == |names| && forall n :: n in names ==> n in nodes
    requires forall k :: 0 <= k < |names| ==> names[k] in nodes && memory[k] == Admitted(g, nodes[names[k]])
    ensures memory == Memory(g, nodes, names)
  {
    hide Admitted;
  }

  /** What the loop leaves for a targeted node. */
  lemma {:induction false} TurnOfName(g: Group, names: seq<string>, start: Progress, p: Progress, j: nat)
    requires j < |names| == |start.memory| == |p.memory| && p.world.nodes.Keys == start.world.nodes.Keys
    requires forall n :: n in names ==> n in start.world.nodes
    requires NodesAfter(g, names, start, p, |names|)
    ensures var labels := LabelsOf(g, start.memory);
            var outcome := OutcomeAt(g, labels, start.ledger, j);
            && names[j] in p.world.nodes && names[j] in start.world.nodes
            && p.world.nodes[names[j]] == AfterTurn(g, outcome, start.world.nodes[names[j]], start.memory[j])
            && (names[j] in p.world.stale <==> StaleAfterTurn(outcome, names[j] in start.world.stale, labels[j]))
  {
    hide AfterTurn, StaleAfterTurn, OutcomeAt, LabelsOf;
  }

  lemma {:induction false} TurnOfOthers(g: Group, names: seq<string>, start: Progress, p: Progress, n: string)
    requires |names| == |start.memory| == |p.memory| && p.world.nodes.Keys == start.world.nodes.Keys
    requires forall n :: n in names ==> n in start.world.nodes
    requires NodesAfter(g, names, start, p, |names|) && n !in names && n in start.world.nodes
    ensures p.world.nodes[n] == start.world.nodes[n] && (n in p.world.stale <==> n in start.world.stale)
  {
    hide AfterTurn, StaleAfterTurn, OutcomeAt, LabelsOf;
    assert names[..|names|] == names;
  }

  /** One node after loop and cleanup. */
  lemma {:induction false} NodeSettles(g: Group, nodes: map<string, Node>, names: seq<string>, c: Context, p: Progress, n: string)
    requires names == c.names && Distinct(names) && |c.memory| == |names| == |p.memory|
    requires c.world.nodes.Keys == nodes.Keys == p.world.nodes.Keys && n in nodes
    requires forall m :: m in names ==> m in nodes
    requires forall k :: 0 <= k < |names| ==> names[k] in nodes && c.memory[k] == Admitted(g, nodes[names[k]])
    requires c.world.nodes[n] == AfterListing(g, nodes[n]) && (n in c.world.stale <==> IsStray(g, nodes[n]))
    requires n in names <==> IsTargeted(g, nodes[n])
    requires NodesAfter(g, names, Begin(g, c), p, |names|)
    ensures (if n in p.world.stale then Unassigned(g, p.world.nodes[n]) else p.world.nodes[n])
         == if n in names then Settled(g, OutcomeFor(g, nodes, names, n), nodes[n]) else Base(g, nodes[n])
  {
    hide AfterTurn, StaleAfterTurn, OutcomeAt, IsTargeted, IsStray, AfterListing, Admitted, Unassigned, Settled, NodesAfter,
         LabelsOf, InitialLedger, Base;
    if n in names {
      var j := IndexOf(names, n);
      TurnOfName(g, names, Begin(g, c), p, j);
      MemoryIsUnique(g, nodes, names, c.memory);
      var labels := LabelsOf(g, c.memory);
      var ledger := Begin(g, c).ledger;
      assert labels[j] == LabelOf(g, Admitted(g, nodes[n]));
      assert OutcomeFor(g, nodes, names, n) == OutcomeAt(g, labels, ledger, j);
      if OutcomeAt(g, labels, ledger, j) == Stay {
        StayersAreLabelled(g, labels, ledger, j);
      }
      TargetedNodeSettles(g, OutcomeAt(g, labels, ledger, j), nodes[n]);
    } else {
      TurnOfOthers(g, names, Begin(g, c), p, n);
      OtherNodeSettles(g, nodes[n]);
    }
  }

  /** Without refused calls, listing, main loop and cleanup together do what the specification says of every node. */
  lemma {:induction false} PassIsReconciled(g: Group, down: nat -> bool, order: seq<string>, nodes: map<string, Node>, calls: nat)
    requires IsListing(order, nodes) && WellFormed(g) && NoFault(down)
    ensures var c := Build(g, down, order, World(nodes, calls, {}), |order|);
            var p := Run(g, down, c.names, Begin(g, c), |c.names|);
            && !p.aborted
            && p.world.stale <= nodes.Keys
            && Cleaned(g, p.world.nodes, p.world.stale) == Reconciled(g, order, nodes)
  {
    hide Build, Run, OutcomeFor, Settled, Base, IsTargeted, NodesAfter, LedgerAfter, Begin, Unassigned,
         NoFault, WellFormed, ListedUpTo, TargetedNames, AfterListing, IsStray, Admitted;
    var c := Build(g, down, order, World(nodes, calls, {}), |order|);
    BuildLists(g, down, order, World(nodes, calls, {}), |order|);
    ListedContext(g, order, nodes, c);
    TargetedNamesMembers(g, nodes, order, |order|);
    assert order[..|order|] == order;
    var p := Run(g, down, c.names, Begin(g, c), |c.names|);
    RunFollowsPlan(g, down, c.names, Begin(g, c), |c.names|);
    LoopEnds(g, c.names, Begin(g, c), p);
    forall n | n in nodes
      ensures (if n in p.world.stale then Unassigned(g, p.world.nodes[n]) else p.world.nodes[n])
           == if n in c.names then Settled(g, OutcomeFor(g, nodes, c.names, n), nodes[n]) else Base(g, nodes[n])
    {
      NodeSettles(g, nodes, c.names, c, p, n);
    }
  }

  lemma {:induction false} LoopEnds(g: Group, names: seq<string>, start: Progress, p: Progress)
    requires |names| == |start.memory| == |p.memory| && p.world.nodes.Keys == start.world.nodes.Keys
    requires forall n :: n in names ==> n in start.world.nodes
    requires start.world.stale <= start.world.nodes.Keys
    requires NodesAfter(g, names, start, p, |names|)
    ensures !p.aborted && p.world.stale <= start.world.nodes.Keys
  {
    hide AfterTurn, StaleAfterTurn, OutcomeAt, LabelsOf;
    assert names[..|names|] == names;
  }
}

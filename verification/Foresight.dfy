/** The main loop under any refusals, foreseen from the cluster: who takes which node, how many calls are made,
    and where a refused default ends the pass. */
module Foresight {
  import opened Cluster
  import opened Groups
  import opened Allocation
  import opened Plan
  import opened Pass
  import opened Lists
  import opened Reconciling
  import opened Allocated
  import opened Safety
  import opened Refusals
  import opened ShortListings
  import opened HandOuts

  /** Demands met and calls made so far, and whether a refused default has ended the pass. */
  datatype Forecast = Forecast(served: nat, calls: nat, stopped: bool)

  /** Number of the call that offers a free node to the default: after a refused assignment, if any is due. */
  function DefaultCall(queue: seq<Assignment>, f: Forecast): nat { f.calls + if f.served < |queue| then 1 else 0 }

  /** Who takes a free node: the head of the queue, unless that call is refused, else the default, unless that one is. */
  function Taker(g: Group, down: nat -> bool, queue: seq<Assignment>, f: Forecast): Option<Assignment> {
    if f.served < |queue| && !down(f.calls) then Some(queue[f.served])
    else if g.fallback.Some? && !down(DefaultCall(queue, f)) then g.fallback
    else None
  }

  function ForecastTurn(g: Group, down: nat -> bool, queue: seq<Assignment>, f: Forecast): Forecast {
    if f.served < |queue| && !down(f.calls) then Forecast(f.served + 1, f.calls + 1, false)
    else if g.fallback.None? then Forecast(f.served, DefaultCall(queue, f), false)
    else Forecast(f.served, DefaultCall(queue, f) + 1, down(DefaultCall(queue, f)))
  }

  /** The forecast after k nodes, from their labels, the ledger and the number of calls made before. */
  function Foreseen(g: Group, down: nat -> bool, labels: seq<Option<string>>, ledger: map<string, int>, calls: nat, k: nat): (f: Forecast)
    requires k <= |labels|
    ensures f.served <= |Demand(g.assignments, ledger)|
  {
    if k == 0 then Forecast(0, calls, false)
    else
      var f := Foreseen(g, down, labels, ledger, calls, k - 1);
      if f.stopped || !IsFree(g, labels, ledger, k - 1) then f
      else ForecastTurn(g, down, Demand(g.assignments, ledger), f)
  }

  /** Who takes node j. */
  function TakerOf(g: Group, down: nat -> bool, labels: seq<Option<string>>, ledger: map<string, int>, calls: nat, j: nat): Option<Assignment>
    requires j < |labels|
  {
    var f := Foreseen(g, down, labels, ledger, calls, j);
    if f.stopped || !IsFree(g, labels, ledger, j) then None
    else Taker(g, down, Demand(g.assignments, ledger), f)
  }

  /** How many of the first k nodes come before the one whose default is refused. */
  function StopsAt(g: Group, down: nat -> bool, labels: seq<Option<string>>, ledger: map<string, int>, calls: nat, k: nat): (r: nat)
    requires k <= |labels|
    ensures r <= k
  {
    if k == 0 then 0
    else
      var r := StopsAt(g, down, labels, ledger, calls, k - 1);
      if r < k - 1 || Foreseen(g, down, labels, ledger, calls, k).stopped then r else k
  }

  lemma {:induction false} StoppedExactly(g: Group, down: nat -> bool, labels: seq<Option<string>>, ledger: map<string, int>, calls: nat, k: nat)
    requires k <= |labels|
    ensures Foreseen(g, down, labels, ledger, calls, k).stopped <==> StopsAt(g, down, labels, ledger, calls, k) < k
  {
    hide IsFree, ForecastTurn, Demand;
    if k > 0 {
      StoppedExactly(g, down, labels, ledger, calls, k - 1);
    }
  }

  lemma {:induction false} StopsAtGrows(g: Group, down: nat -> bool, labels: seq<Option<string>>, ledger: map<string, int>, calls: nat, j: nat, k: nat)
    requires j <= k <= |labels|
    ensures j <= StopsAt(g, down, labels, ledger, calls, k) ==> StopsAt(g, down, labels, ledger, calls, j) == j
    ensures j > StopsAt(g, down, labels, ledger, calls, k) ==> StopsAt(g, down, labels, ledger, calls, j) == StopsAt(g, down, labels, ledger, calls, k)
  {
    hide Foreseen;
    if j < k {
      StopsAtGrows(g, down, labels, ledger, calls, j, k - 1);
    }
  }

  /** Where the pass stops: a free node, offered to the default, and that call refused. */
  lemma {:induction false} StopIsRefusedDefault(g: Group, down: nat -> bool, labels: seq<Option<string>>, ledger: map<string, int>, calls: nat)
    requires StopsAt(g, down, labels, ledger, calls, |labels|) < |labels|
    ensures var j := StopsAt(g, down, labels, ledger, calls, |labels|);
            var f, queue := Foreseen(g, down, labels, ledger, calls, j), Demand(g.assignments, ledger);
            && !f.stopped && IsFree(g, labels, ledger, j) && g.fallback.Some?
            && (f.served < |queue| ==> down(f.calls)) && down(DefaultCall(queue, f))
  {
    var j := StopsAt(g, down, labels, ledger, calls, |labels|);
    StopsAtGrows(g, down, labels, ledger, calls, j, |labels|);
    StopsAtGrows(g, down, labels, ledger, calls, j + 1, |labels|);
    StoppedExactly(g, down, labels, ledger, calls, j);
    StoppedExactly(g, down, labels, ledger, calls, j + 1);
    hide IsFree, Demand, StopsAt, DefaultCall;
  }

  // ----- One turn -----

  ghost predicate Placed(g: Group, names: seq<string>, q: Progress, r: Progress, k: nat, to: Option<Assignment>)
    requires |q.memory| == |names| && k < |names| && names[k] in q.world.nodes
  {
    && r.world.nodes == (if to.Some? then q.world.nodes[names[k] := AfterTurn(g, Give(to.value), q.world.nodes[names[k]], q.memory[k])]
                         else q.world.nodes)
    && r.world.stale == (if to.Some? then q.world.stale - {names[k]} else q.world.stale)
  }

  /** The same for a whole turn, which may have released the node first. */
  ghost predicate TurnForeseen(g: Group, names: seq<string>, p: Progress, r: Progress, k: nat, to: Option<Assignment>, released: bool)
    requires |p.memory| == |names| && k < |names| && names[k] in p.world.nodes
  {
    && r.world.nodes == (if to.Some? then p.world.nodes[names[k] := AfterTurn(g, Give(to.value), p.world.nodes[names[k]], p.memory[k])]
                         else p.world.nodes)
    && r.world.stale == (if to.Some? then p.world.stale - {names[k]} else if released then p.world.stale + {names[k]} else p.world.stale)
  }

  lemma {:induction false} FallbackForeseen(g: Group, down: nat -> bool, names: seq<string>, q: Progress, k: nat)
    requires |q.memory| == |names| && k < |names| && names[k] in q.world.nodes && !q.aborted && LabelOf(g, q.memory[k]).None?
    ensures var r := UseFallback(g, down, names, q, k);
            && r.aborted == (g.fallback.Some? && down(q.world.calls))
            && r.world.calls == q.world.calls + (if g.fallback.Some? then 1 else 0)
            && r.ledger == q.ledger
            && Placed(g, names, q, r, k, if g.fallback.Some? && !down(q.world.calls) then g.fallback else None)
  {
    if g.fallback.Some? {
      AssignedDiffers(g, g.fallback.value, q.memory[k]);
    }
    hide ApplyPatch, Assigned, IsEmptyPatch, LabelOf;
  }

  lemma {:induction false} DueForeseen(g: Group, down: nat -> bool, names: seq<string>, q: Progress, k: nat, a: Assignment)
    requires |q.memory| == |names| && k < |names| && names[k] in q.world.nodes && !q.aborted && LabelOf(g, q.memory[k]).None?
    requires FirstDue(g.assignments, q.ledger) == Some(a)
    ensures var r := Place(g, down, names, q, k);
            if down(q.world.calls) then r == UseFallback(g, down, names, q.(world := q.world.(calls := q.world.calls + 1)), k)
            else !r.aborted && r.world.calls == q.world.calls + 1 && r.ledger == Bump(q.ledger, a.name, -1) && Placed(g, names, q, r, k, Some(a))
  {
    AssignedDiffers(g, a, q.memory[k]);
    hide ApplyPatch, Assigned, IsEmptyPatch, LabelOf, FirstDue, UseFallback, Bump;
  }

  /** What placing an unlabelled node comes to, by whether the head of the queue takes it. */
  lemma {:induction false} PlaceCases(g: Group, down: nat -> bool, names: seq<string>, q: Progress, k: nat)
    requires |q.memory| == |names| && k < |names| && names[k] in q.world.nodes
    requires WellFormed(g) && !q.aborted && LabelOf(g, q.memory[k]).None?
    ensures var r, queue := Place(g, down, names, q, k), Demand(g.assignments, q.ledger);
            var offered := q.world.calls + if queue != [] then 1 else 0;
            if queue != [] && !down(q.world.calls) then
              && !r.aborted && r.world.calls == q.world.calls + 1 && Demand(g.assignments, r.ledger) == queue[1..]
              && (forall c :: Surplus(r.ledger, c) == Surplus(q.ledger, c))
              && Placed(g, names, q, r, k, Some(queue[0]))
            else
              && r.aborted == (g.fallback.Some? && down(offered)) && r.world.calls == offered + (if g.fallback.Some? then 1 else 0)
              && r.ledger == q.ledger
              && Placed(g, names, q, r, k, if g.fallback.Some? && !down(offered) then g.fallback else None)
  {
    FirstDueIsHead(g.assignments, q.ledger);
    var due := FirstDue(g.assignments, q.ledger);
    hide Demand, FirstDue, LabelOf, WellFormed, Surplus, UseFallback, Bump, Placed;
    if due.Some? {
      DueForeseen(g, down, names, q, k, due.value);
      hide Place;
      var refused := q.(world := q.world.(calls := q.world.calls + 1));
      FallbackForeseen(g, down, names, refused, k);
      PlacedAlike(g, names, q, refused, UseFallback(g, down, names, refused, k), k);
    } else {
      FallbackForeseen(g, down, names, q, k);
    }
  }

  lemma {:induction false} PlacedAlike(g: Group, names: seq<string>, q: Progress, q': Progress, r: Progress, k: nat)
    requires |q.memory| == |names| && k < |names| && names[k] in q.world.nodes
    requires q'.memory == q.memory && q'.world.nodes == q.world.nodes && q'.world.stale == q.world.stale
    ensures forall to :: Placed(g, names, q', r, k, to) ==> Placed(g, names, q, r, k, to)
  {
    hide AfterTurn;
  }

  /** An unlabelled node, with the rest of the queue to go. */
  lemma {:induction false} PlaceForeseen(g: Group, down: nat -> bool, names: seq<string>, q: Progress, k: nat, queue: seq<Assignment>, f: Forecast)
    requires |q.memory| == |names| && k < |names| && names[k] in q.world.nodes
    requires WellFormed(g) && !q.aborted && LabelOf(g, q.memory[k]).None?
    requires f.served <= |queue| && Demand(g.assignments, q.ledger) == queue[f.served..] && q.world.calls == f.calls
    ensures var r, f' := Place(g, down, names, q, k), ForecastTurn(g, down, queue, f);
            && r.aborted == f'.stopped && r.world.calls == f'.calls && f'.served <= |queue|
            && Demand(g.assignments, r.ledger) == queue[f'.served..]
            && (forall c :: Surplus(r.ledger, c) == Surplus(q.ledger, c))
            && Placed(g, names, q, r, k, Taker(g, down, queue, f))
  {
    hide Demand, Place, LabelOf, WellFormed, Surplus, Placed;
    PlaceCases(g, down, names, q, k);
    if f.served < |queue| {
      assert queue[f.served..][0] == queue[f.served];
      assert queue[f.served..][1..] == queue[f.served + 1..];
    }
  }

  /** State of the loop after k turns that were not ended, as foreseen. */
  ghost predicate LedgerForeseen(g: Group, labels: seq<Option<string>>, ledger0: map<string, int>, p: Progress, k: nat, f: Forecast)
    requires k <= |labels|
  {
    && p.aborted == f.stopped && p.world.calls == f.calls
    && f.served <= |Demand(g.assignments, ledger0)|
    && (!f.stopped ==>
          && Demand(g.assignments, p.ledger) == Demand(g.assignments, ledger0)[f.served..]
          && ReleasesLeft(g, labels, ledger0, p.ledger, k))
  }

  lemma {:induction false} PlacedFromRelease(g: Group, names: seq<string>, p: Progress, q: Progress, r: Progress, k: nat, to: Option<Assignment>,
                                             released: bool)
    requires |p.memory| == |names| == |q.memory| && k < |names| && names[k] in p.world.nodes
    requires q.world.nodes == p.world.nodes && q.memory[k] == Base(g, p.memory[k])
    requires q.world.stale == p.world.stale + if released then {names[k]} else {}
    requires Placed(g, names, q, r, k, to)
    ensures TurnForeseen(g, names, p, r, k, to, released)
  {
    BaseTwice(g, p.memory[k]);
    hide Base, ApplyPatch, Assigned;
  }

  lemma {:induction false} LedgerAssembled(g: Group, labels: seq<Option<string>>, ledger0: map<string, int>, r: Progress, k: nat, f: Forecast)
    requires k <= |labels| && r.aborted == f.stopped && r.world.calls == f.calls && f.served <= |Demand(g.assignments, ledger0)|
    requires Demand(g.assignments, r.ledger) == Demand(g.assignments, ledger0)[f.served..]
    requires ReleasesLeft(g, labels, ledger0, r.ledger, k)
    ensures LedgerForeseen(g, labels, ledger0, r, k, f)
  {
    hide Demand, ReleasesLeft;
  }

  lemma {:induction false} LedgerTaken(g: Group, labels: seq<Option<string>>, ledger0: map<string, int>, p: Progress, k: nat, f: Forecast)
    requires k <= |labels| && LedgerForeseen(g, labels, ledger0, p, k, f) && !p.aborted
    ensures f.served <= |Demand(g.assignments, ledger0)| && p.world.calls == f.calls
    ensures Demand(g.assignments, p.ledger) == Demand(g.assignments, ledger0)[f.served..]
    ensures ReleasesLeft(g, labels, ledger0, p.ledger, k)
  {
    hide Demand, ReleasesLeft;
  }

  lemma {:induction false} FreeStepForeseen(g: Group, down: nat -> bool, names: seq<string>, p: Progress, k: nat, labels: seq<Option<string>>,
                                            ledger0: map<string, int>, f: Forecast, r: Progress)
    requires |p.memory| == |names| == |labels| && k < |names| && names[k] in p.world.nodes
    requires WellFormed(g) && !p.aborted && labels[k] == LabelOf(g, p.memory[k])
    requires LedgerForeseen(g, labels, ledger0, p, k, f) && IsFree(g, labels, ledger0, k) && r == Step(g, down, names, p, k)
    ensures var queue := Demand(g.assignments, ledger0);
            && LedgerForeseen(g, labels, ledger0, r, k + 1, ForecastTurn(g, down, queue, f))
            && TurnForeseen(g, names, p, r, k, Taker(g, down, queue, f), labels[k].Some?)
  {
    hide Step, Place, Release, IsFree, ReleasesLeft, Demand, Base, LabelOf, Surplus, WellFormed, ApplyPatch, Assigned, FallbackName, Bump,
         ForecastTurn, Taker, LedgerForeseen, Placed, TurnForeseen;
    var queue := Demand(g.assignments, ledger0);
    LedgerTaken(g, labels, ledger0, p, k, f);
    FreeNodeIsReleased(g, down, names, p, k, labels, ledger0);
    var q := if labels[k].Some? then Release(g, names, p, k, labels[k].value) else p;
    ReleaseLedger(g, names, p, k, labels[k]);
    ReleaseCalls(g, names, p, k, labels[k]);
    FreeReleaseIsCounted(g, labels, ledger0, p.ledger, q.ledger, k);
    PlaceForeseen(g, down, names, q, k, queue, f);
    SameReleasesLeft(g, labels, ledger0, q.ledger, r.ledger, k + 1);
    PlacedFromRelease(g, names, p, q, r, k, Taker(g, down, queue, f), labels[k].Some?);
    LedgerAssembled(g, labels, ledger0, r, k + 1, ForecastTurn(g, down, queue, f));
  }

  lemma {:induction false} StepForeseen(g: Group, down: nat -> bool, names: seq<string>, p: Progress, k: nat, labels: seq<Option<string>>,
                                        ledger0: map<string, int>, f: Forecast)
    requires |p.memory| == |names| == |labels| && k < |names| && names[k] in p.world.nodes
    requires WellFormed(g) && !p.aborted && labels[k] == LabelOf(g, p.memory[k])
    requires LedgerForeseen(g, labels, ledger0, p, k, f)
    ensures var r := Step(g, down, names, p, k);
            var free, queue := IsFree(g, labels, ledger0, k), Demand(g.assignments, ledger0);
            && LedgerForeseen(g, labels, ledger0, r, k + 1, if free then ForecastTurn(g, down, queue, f) else f)
            && TurnForeseen(g, names, p, r, k, if free then Taker(g, down, queue, f) else None, free && labels[k].Some?)
  {
    hide Step, IsFree, ReleasesLeft, Demand, LabelOf, WellFormed, ForecastTurn, Taker, AfterTurn;
    if IsFree(g, labels, ledger0, k) {
      hide LedgerForeseen, TurnForeseen;
      FreeStepForeseen(g, down, names, p, k, labels, ledger0, f, Step(g, down, names, p, k));
    } else {
      NotFreeIsSkipped(g, down, names, p, k, labels, ledger0);
      OthersReleasesLeft(g, labels, ledger0, p.ledger, k);
    }
  }

  lemma {:induction false} ReleaseCalls(g: Group, names: seq<string>, p: Progress, k: nat, from: Option<string>)
    requires |p.memory| == |names| && k < |names|
    ensures (if from.Some? then Release(g, names, p, k, from.value) else p).world.calls == p.world.calls
  {
    hide Bump, Unassigned;
  }

  lemma {:induction false} BaseTwice(g: Group, node: Node)
    ensures Base(g, Base(g, node)) == Base(g, node)
  {
    UnassignedHasNoLabel(g, node);
    hide Unassigned, LabelOf;
  }

  // ----- The loop -----

  lemma {:induction false} RunForeseen(g: Group, down: nat -> bool, names: seq<string>, start: Progress, k: nat)
    requires k <= |names| == |start.memory| && Distinct(names) && forall n :: n in names ==> n in start.world.nodes
    requires WellFormed(g) && !start.aborted
    ensures var labels := LabelsOf(g, start.memory);
            LedgerForeseen(g, labels, start.ledger, Run(g, down, names, start, k), k,
                           Foreseen(g, down, labels, start.ledger, start.world.calls, k))
  {
    hide LedgerForeseen, Step, LabelOf, LabelsOf, WellFormed, IsFree, ForecastTurn, Demand, TurnForeseen, Taker, Distinct;
    var labels := LabelsOf(g, start.memory);
    if k == 0 {
      NothingForeseen(g, start);
    } else {
      RunForeseen(g, down, names, start, k - 1);
      var p := Run(g, down, names, start, k - 1);
      var f := Foreseen(g, down, labels, start.ledger, start.world.calls, k - 1);
      assert names[k - 1] in names;
      RunKeepsUnvisited(g, down, names, start, k - 1, k - 1);
      ForeseenParts(g, labels, start.ledger, p, k - 1, f);
      if !p.aborted {
        StepForeseen(g, down, names, p, k - 1, labels, start.ledger, f);
      } else {
        StoppedLater(g, labels, start.ledger, p, k - 1, f);
      }
    }
  }

  lemma {:induction false} NothingForeseen(g: Group, start: Progress)
    requires !start.aborted
    ensures LedgerForeseen(g, LabelsOf(g, start.memory), start.ledger, start, 0, Forecast(0, start.world.calls, false))
  {
    hide Demand, LabelOf;
  }

  lemma {:induction false} ForeseenParts(g: Group, labels: seq<Option<string>>, ledger0: map<string, int>, p: Progress, k: nat, f: Forecast)
    requires k <= |labels| && LedgerForeseen(g, labels, ledger0, p, k, f)
    ensures p.aborted == f.stopped && p.world.calls == f.calls
  {
    hide Demand, ReleasesLeft;
  }

  lemma {:induction false} StoppedLater(g: Group, labels: seq<Option<string>>, ledger0: map<string, int>, p: Progress, k: nat, f: Forecast)
    requires k < |labels| && LedgerForeseen(g, labels, ledger0, p, k, f) && f.stopped
    ensures LedgerForeseen(g, labels, ledger0, p, k + 1, f)
  {
    hide Demand, ReleasesLeft;
  }

  /** Node j as the loop leaves it. */
  function StoredAs(g: Group, taker: Option<Assignment>, stored: Node, memory: Node): Node {
    if taker.Some? then AfterTurn(g, Give(taker.value), stored, memory) else stored
  }

  lemma {:induction false} NodeForeseen(g: Group, down: nat -> bool, names: seq<string>, start: Progress, k: nat, j: nat)
    requires k <= |names| == |start.memory| && j < k && Distinct(names) && forall n :: n in names ==> n in start.world.nodes
    requires WellFormed(g) && !start.aborted
    ensures var labels := LabelsOf(g, start.memory);
            && names[j] in start.world.nodes
            && Run(g, down, names, start, k).world.nodes[names[j]] ==
                 StoredAs(g, TakerOf(g, down, labels, start.ledger, start.world.calls, j), start.world.nodes[names[j]], start.memory[j])
  {
    hide LedgerForeseen, Step, LabelOf, LabelsOf, WellFormed, IsFree, ForecastTurn, Demand, Taker, AfterTurn, Distinct, Foreseen;
    assert names[j] in names && names[k - 1] in names;
    var labels := LabelsOf(g, start.memory);
    var p := Run(g, down, names, start, k - 1);
    RunForeseen(g, down, names, start, k - 1);
    var f := Foreseen(g, down, labels, start.ledger, start.world.calls, k - 1);
    ForeseenParts(g, labels, start.ledger, p, k - 1, f);
    if j < k - 1 {
      NodeForeseen(g, down, names, start, k - 1, j);
      if !p.aborted {
        DifferentNames(names, j, k - 1);
        TurnKeepsOthers(g, down, names, p, k - 1, names[j]);
      }
    } else {
      RunKeepsUnvisited(g, down, names, start, k - 1, k - 1);
      if !p.aborted {
        StepForeseen(g, down, names, p, k - 1, labels, start.ledger, f);
      }
    }
  }

  /** Whether the name of node j is recorded at the end: nobody takes it, and it was recorded before or is released. */
  function RecordedAs(g: Group, down: nat -> bool, labels: seq<Option<string>>, ledger: map<string, int>, calls: nat, j: nat, before: bool): bool
    requires j < |labels|
  {
    TakerOf(g, down, labels, ledger, calls, j).None? &&
    (before || (!Foreseen(g, down, labels, ledger, calls, j).stopped && IsFree(g, labels, ledger, j) && labels[j].Some?))
  }

  lemma {:induction false} StepKeepsRecord(g: Group, down: nat -> bool, names: seq<string>, p: Progress, k: nat, labels: seq<Option<string>>,
                                           ledger0: map<string, int>, f: Forecast, n: string)
    requires |p.memory| == |names| == |labels| && k < |names| && names[k] in p.world.nodes && n != names[k]
    requires WellFormed(g) && !p.aborted && labels[k] == LabelOf(g, p.memory[k])
    requires LedgerForeseen(g, labels, ledger0, p, k, f)
    ensures n in Step(g, down, names, p, k).world.stale <==> n in p.world.stale
  {
    StepForeseen(g, down, names, p, k, labels, ledger0, f);
    hide Step, IsFree, LedgerForeseen, Demand, LabelOf, WellFormed, ForecastTurn, Taker, AfterTurn;
  }

  /** Names not yet visited, or not in the list at all, keep their record. */
  lemma {:induction false} RunKeepsRecord(g: Group, down: nat -> bool, names: seq<string>, start: Progress, k: nat, n: string)
    requires k <= |names| == |start.memory| && Distinct(names) && forall m :: m in names ==> m in start.world.nodes
    requires WellFormed(g) && !start.aborted && n !in names[..k]
    ensures n in Run(g, down, names, start, k).world.stale <==> n in start.world.stale
  {
    hide LedgerForeseen, Step, LabelOf, LabelsOf, WellFormed, Distinct, Foreseen;
    if k > 0 {
      assert names[..k] == names[..k - 1] + [names[k - 1]];
      assert names[k - 1] in names[..k] && names[k - 1] in names;
      RunKeepsRecord(g, down, names, start, k - 1, n);
      RunForeseen(g, down, names, start, k - 1);
      RunKeepsUnvisited(g, down, names, start, k - 1, k - 1);
      var p := Run(g, down, names, start, k - 1);
      if !p.aborted {
        StepKeepsRecord(g, down, names, p, k - 1, LabelsOf(g, start.memory), start.ledger,
                        Foreseen(g, down, LabelsOf(g, start.memory), start.ledger, start.world.calls, k - 1), n);
      }
    }
  }

  lemma {:induction false} NotAmongEarlier(names: seq<string>, k: nat)
    requires Distinct(names) && k < |names|
    ensures names[k] !in names[..k]
  {
  }

  lemma {:induction false} RecordForeseen(g: Group, down: nat -> bool, names: seq<string>, start: Progress, k: nat, j: nat)
    requires k <= |names| == |start.memory| && j < k && Distinct(names) && forall n :: n in names ==> n in start.world.nodes
    requires WellFormed(g) && !start.aborted
    ensures names[j] in Run(g, down, names, start, k).world.stale <==>
              RecordedAs(g, down, LabelsOf(g, start.memory), start.ledger, start.world.calls, j, names[j] in start.world.stale)
  {
    hide LedgerForeseen, Step, LabelOf, LabelsOf, WellFormed, IsFree, ForecastTurn, Demand, Taker, AfterTurn, Distinct, Foreseen;
    assert names[j] in names && names[k - 1] in names;
    var labels := LabelsOf(g, start.memory);
    var p := Run(g, down, names, start, k - 1);
    RunForeseen(g, down, names, start, k - 1);
    RunKeepsUnvisited(g, down, names, start, k - 1, k - 1);
    var f := Foreseen(g, down, labels, start.ledger, start.world.calls, k - 1);
    ForeseenParts(g, labels, start.ledger, p, k - 1, f);
    if j < k - 1 {
      RecordForeseen(g, down, names, start, k - 1, j);
      if !p.aborted {
        DifferentNames(names, j, k - 1);
        StepKeepsRecord(g, down, names, p, k - 1, labels, start.ledger, f, names[j]);
      }
    } else {
      NotAmongEarlier(names, k - 1);
      RunKeepsRecord(g, down, names, start, k - 1, names[k - 1]);
      if !p.aborted {
        StepForeseen(g, down, names, p, k - 1, labels, start.ledger, f);
      }
    }
  }

  lemma {:induction false} DifferentNames(names: seq<string>, i: nat, j: nat)
    requires Distinct(names) && i < j < |names|
    ensures names[i] != names[j]
  {
  }

  // ----- Main results -----

  /** Labels and ledger of the pass, from the nodes the listing gets to see. */
  function SeenLabels(g: Group, down: nat -> bool, order: seq<string>, nodes: map<string, Node>, calls: nat): (r: seq<Option<string>>)
    requires forall n :: n in order ==> n in nodes
    ensures |r| == |Seen(g, down, order, nodes, calls)|
  {
    PlanLabels(g, nodes, Seen(g, down, order, nodes, calls))
  }

  function SeenLedger(g: Group, down: nat -> bool, order: seq<string>, nodes: map<string, Node>, calls: nat): map<string, int>
    requires forall n :: n in order ==> n in nodes
  {
    PlanLedger(g, SeenLabels(g, down, order, nodes, calls))
  }

  /** Position, among the nodes seen, of the first node whose default is refused; their number if there is none. */
  function Stop(g: Group, down: nat -> bool, order: seq<string>, nodes: map<string, Node>, calls: nat): (r: nat)
    requires forall n :: n in order ==> n in nodes
    ensures r <= |Seen(g, down, order, nodes, calls)|
  {
    var labels := SeenLabels(g, down, order, nodes, calls);
    StopsAt(g, down, labels, SeenLedger(g, down, order, nodes, calls), CallsAfterListing(g, down, order, nodes, calls, |order|), |labels|)
  }

  /** Who takes node j of the nodes seen. */
  function TakerOfSeen(g: Group, down: nat -> bool, order: seq<string>, nodes: map<string, Node>, calls: nat, j: nat): Option<Assignment>
    requires (forall n :: n in order ==> n in nodes) && j < |Seen(g, down, order, nodes, calls)|
  {
    TakerOf(g, down, SeenLabels(g, down, order, nodes, calls), SeenLedger(g, down, order, nodes, calls),
            CallsAfterListing(g, down, order, nodes, calls, |order|), j)
  }

  lemma {:induction false} BeginsAsSeen(g: Group, down: nat -> bool, order: seq<string>, nodes: map<string, Node>, calls: nat)
    requires IsListing(order, nodes)
    ensures var c := BuiltContext(g, down, order, nodes, calls);
            && c.names == Seen(g, down, order, nodes, calls) && Distinct(c.names)
            && LabelsOf(g, Begin(g, c).memory) == SeenLabels(g, down, order, nodes, calls)
            && Begin(g, c).ledger == SeenLedger(g, down, order, nodes, calls)
            && Begin(g, c).world.calls == CallsAfterListing(g, down, order, nodes, calls, |order|)
            && forall j :: 0 <= j < |c.names| ==> && c.names[j] in nodes
                                                  && Begin(g, c).world.nodes[c.names[j]] == nodes[c.names[j]]
                                                  && Begin(g, c).memory[j] == Admitted(g, nodes[c.names[j]])
  {
    hide Build, Faithful, LabelOf, Admitted, InitialLedger, Reached, Evictions, TargetedNames, Distinct, Begin, PlanLabels, PlanLedger;
    var c := BuiltContext(g, down, order, nodes, calls);
    ListingReaches(g, down, order, nodes, calls, |order|);
    BuildIsFaithful(g, down, order, World(nodes, calls, {}), |order|);
    FaithfulFacts(g, order, nodes, c);
    FaithfulMemory(g, order, nodes, c);
    BeginFacts(g, nodes, c);
    BeginWorld(g, c);
    forall j | 0 <= j < |c.names| ensures c.names[j] in nodes {
      assert c.names[j] in c.names;
    }
  }

  /** The main loop under any refusals: it ends early exactly if there is such a position, and leaves every node of the
      context as foreseen. */
  lemma {:induction false} LoopForeseen(g: Group, down: nat -> bool, order: seq<string>, nodes: map<string, Node>, calls: nat)
    requires IsListing(order, nodes) && WellFormed(g)
    ensures var c := BuiltContext(g, down, order, nodes, calls);
            var seen, p := Seen(g, down, order, nodes, calls), Turns(g, down, order, nodes, calls, |c.names|);
            && c.names == seen
            && (p.aborted <==> Stop(g, down, order, nodes, calls) < |seen|)
            && forall j :: 0 <= j < |seen| ==> && seen[j] in nodes
                                               && p.world.nodes[seen[j]] == StoredAs(g, TakerOfSeen(g, down, order, nodes, calls, j),
                                                                                     nodes[seen[j]], Admitted(g, nodes[seen[j]]))
  {
    hide Build, Run, WellFormed, Seen, SeenLabels, SeenLedger, CallsAfterListing, Begin, TakerOf, StoredAs, Admitted, Distinct, LedgerForeseen, Foreseen,
         StopsAt, LabelsOf;
    var c := BuiltContext(g, down, order, nodes, calls);
    var k := |c.names|;
    BeginsAsSeen(g, down, order, nodes, calls);
    BeginWorld(g, c);
    NotAbortedAtFirst(g, c);
    RunForeseen(g, down, c.names, Begin(g, c), k);
    var labels, ledger := SeenLabels(g, down, order, nodes, calls), SeenLedger(g, down, order, nodes, calls);
    var before := CallsAfterListing(g, down, order, nodes, calls, |order|);
    ForeseenParts(g, labels, ledger, Turns(g, down, order, nodes, calls, k), k, Foreseen(g, down, labels, ledger, before, k));
    StoppedExactly(g, down, labels, ledger, before, k);
    forall j | 0 <= j < k
      ensures c.names[j] in nodes
      ensures Turns(g, down, order, nodes, calls, k).world.nodes[c.names[j]]
           == StoredAs(g, TakerOfSeen(g, down, order, nodes, calls, j), nodes[c.names[j]], Admitted(g, nodes[c.names[j]]))
    {
      NodeForeseen(g, down, c.names, Begin(g, c), k, j);
    }
  }

  lemma {:induction false} NotAbortedAtFirst(g: Group, c: Context)
    ensures !Begin(g, c).aborted
  {
  }

  lemma {:induction false} TakerFromStop(g: Group, down: nat -> bool, labels: seq<Option<string>>, ledger: map<string, int>, calls: nat, j: nat)
    requires StopsAt(g, down, labels, ledger, calls, |labels|) <= j < |labels|
    ensures TakerOf(g, down, labels, ledger, calls, j).None?
  {
    var i := StopsAt(g, down, labels, ledger, calls, |labels|);
    StopIsRefusedDefault(g, down, labels, ledger, calls);
    StopsAtGrows(g, down, labels, ledger, calls, j, |labels|);
    StoppedExactly(g, down, labels, ledger, calls, j);
    hide IsFree, Demand, StopsAt, Foreseen, DefaultCall;
  }

  lemma {:induction false} TakerIsKnown(g: Group, down: nat -> bool, ledger: map<string, int>, f: Forecast)
    ensures var queue := Demand(g.assignments, ledger);
            && (Taker(g, down, queue, f).Some? ==> Known(g, Taker(g, down, queue, f).value.name))
            && (g.fallback.Some? && !ForecastTurn(g, down, queue, f).stopped ==> Taker(g, down, queue, f).Some?)
  {
    var queue := Demand(g.assignments, ledger);
    if f.served < |queue| {
      DemandIsNamed(g.assignments, ledger, f.served);
      AssignmentsAreKnown(g, queue[f.served]);
    }
    if g.fallback.Some? {
      AssignmentsAreKnown(g, g.fallback.value);
    }
    hide Demand, Known;
  }

  lemma {:induction false} TakerBeforeStop(g: Group, down: nat -> bool, labels: seq<Option<string>>, ledger: map<string, int>, calls: nat, j: nat)
    requires j < StopsAt(g, down, labels, ledger, calls, |labels|) && g.fallback.Some?
    ensures var to := TakerOf(g, down, labels, ledger, calls, j);
            && (to.None? <==> !IsFree(g, labels, ledger, j))
            && (to.Some? ==> Known(g, to.value.name))
  {
    hide IsFree, Demand, StopsAt, Known, Taker, ForecastTurn;
    StopsAtGrows(g, down, labels, ledger, calls, j, |labels|);
    StopsAtGrows(g, down, labels, ledger, calls, j + 1, |labels|);
    StoppedExactly(g, down, labels, ledger, calls, j);
    StoppedExactly(g, down, labels, ledger, calls, j + 1);
    TakerIsKnown(g, down, ledger, Foreseen(g, down, labels, ledger, calls, j));
  }

  /** With a default, whatever is refused: every node before the stop is stored on an assignment of the group. In
      particular all nodes of the context are, if the loop is not cut short. */
  lemma {:induction false} KnownBeforeStop(g: Group, down: nat -> bool, order: seq<string>, nodes: map<string, Node>, calls: nat, j: nat)
    requires IsListing(order, nodes) && WellFormed(g) && g.fallback.Some? && j < Stop(g, down, order, nodes, calls)
    ensures var c := BuiltContext(g, down, order, nodes, calls);
            var seen, p := Seen(g, down, order, nodes, calls), Turns(g, down, order, nodes, calls, |c.names|);
            seen[j] in p.world.nodes && KnownLabel(g, LabelOf(g, p.world.nodes[seen[j]]))
  {
    hide Build, Run, WellFormed, Seen, SeenLedger, CallsAfterListing, Begin, TakerOf, Admitted, Distinct, StopsAt, LabelOf, AfterTurn, PlanLabels,
         BuiltContext, Turns, Known, IsFree, PlanLedger;
    var seen := Seen(g, down, order, nodes, calls);
    var labels, ledger := SeenLabels(g, down, order, nodes, calls), SeenLedger(g, down, order, nodes, calls);
    LoopForeseen(g, down, order, nodes, calls);
    TakerBeforeStop(g, down, labels, ledger, CallsAfterListing(g, down, order, nodes, calls, |order|), j);
    PlanLabelAt(g, nodes, seen, j);
    PlanLabelsKnown(g, nodes, seen);
    StoredLabel(g, labels, ledger, TakerOfSeen(g, down, order, nodes, calls, j), j, nodes[seen[j]]);
  }

  lemma {:induction false} StoredLabel(g: Group, labels: seq<Option<string>>, ledger: map<string, int>, to: Option<Assignment>, j: nat, node: Node)
    requires j < |labels| && AllKnown(g, labels) && labels[j] == LabelOf(g, Admitted(g, node))
    requires (to.None? <==> !IsFree(g, labels, ledger, j)) && (to.Some? ==> Known(g, to.value.name))
    ensures KnownLabel(g, LabelOf(g, StoredAs(g, to, node, Admitted(g, node))))
  {
    UnassignedHasNoLabel(g, Admitted(g, node));
    AdmittedLabel(g, node);
    if to.Some? {
      PatchSetsLabel(g, to.value, node, Base(g, Admitted(g, node)));
    } else {
      assert labels[j].Some?;
    }
    hide ApplyPatch, Assigned, Unassigned, Admitted, Known, LabelOf, IsFree;
  }

  /** At the stop, if there is one, a free node is offered to the default and refused. That node and all nodes of the
      context after it are stored as they were. */
  lemma {:induction false} UntouchedFromStop(g: Group, down: nat -> bool, order: seq<string>, nodes: map<string, Node>, calls: nat, j: nat)
    requires IsListing(order, nodes) && WellFormed(g)
    requires Stop(g, down, order, nodes, calls) <= j < |Seen(g, down, order, nodes, calls)|
    ensures var c := BuiltContext(g, down, order, nodes, calls);
            var seen, p := Seen(g, down, order, nodes, calls), Turns(g, down, order, nodes, calls, |c.names|);
            p.aborted && seen[j] in nodes && p.world.nodes[seen[j]] == nodes[seen[j]]
    ensures var labels, ledger := SeenLabels(g, down, order, nodes, calls), SeenLedger(g, down, order, nodes, calls);
            var i, queue := Stop(g, down, order, nodes, calls), Demand(g.assignments, ledger);
            var f := Foreseen(g, down, labels, ledger, CallsAfterListing(g, down, order, nodes, calls, |order|), i);
            g.fallback.Some? && IsFree(g, labels, ledger, i) && (f.served < |queue| ==> down(f.calls)) && down(DefaultCall(queue, f))
  {
    hide Build, Run, WellFormed, Seen, SeenLabels, SeenLedger, CallsAfterListing, Begin, TakerOf, Admitted, Distinct, StopsAt, AfterTurn,
         BuiltContext, Turns, IsFree, DefaultCall, Demand, Foreseen;
    var labels, ledger := SeenLabels(g, down, order, nodes, calls), SeenLedger(g, down, order, nodes, calls);
    var before := CallsAfterListing(g, down, order, nodes, calls, |order|);
    LoopForeseen(g, down, order, nodes, calls);
    TakerFromStop(g, down, labels, ledger, before, j);
    StopIsRefusedDefault(g, down, labels, ledger, before);
  }

  lemma {:induction false} AdmitRecords(g: Group, down: nat -> bool, c: Context, name: string, node: Node, n: string)
    requires name in c.world.nodes
    ensures var r := Admit(g, down, c, name, node);
            && (n != name ==> (n in r.names <==> n in c.names) && (n in c.world.stale ==> n in r.world.stale))
            && (n == name && n in r.names && n !in c.names ==> (IsStray(g, node) ==> n in r.world.stale))
  {
    hide IsStray, Unassigned, Targets, LabelOf, ApplyPatch, IsEmptyPatch;
  }

  lemma {:induction false} ListingRecordsTargeted(g: Group, down: nat -> bool, order: seq<string>, start: World, i: nat, n: string)
    requires i <= |order| && Distinct(order) && (forall m :: m in order ==> m in start.nodes) && n in start.nodes && IsStray(g, start.nodes[n])
    ensures var c := Build(g, down, order, start, i);
            (n in c.names ==> n in order[..i]) && (n in c.names ==> n in c.world.stale)
  {
    hide Admit, IsStray, Distinct;
    if i > 0 {
      ListingRecordsTargeted(g, down, order, start, i - 1, n);
      var c := Build(g, down, order, start, i - 1);
      assert order[i - 1] in order;
      assert order[..i] == order[..i - 1] + [order[i - 1]];
      NotAmongEarlier(order, i - 1);
      if !c.aborted {
        AdmitRecords(g, down, c, order[i - 1], start.nodes[order[i - 1]], n);
      }
    }
  }

  /** Under any refusals: the nodes of the context recorded at the end of the loop are those nobody takes that carried
      an assignment the group does not have, or were released before the stop. */
  lemma {:induction false} RecordedExactly(g: Group, down: nat -> bool, order: seq<string>, nodes: map<string, Node>, calls: nat, j: nat)
    requires IsListing(order, nodes) && WellFormed(g) && j < |Seen(g, down, order, nodes, calls)|
    ensures var c := BuiltContext(g, down, order, nodes, calls);
            var seen, p := Seen(g, down, order, nodes, calls), Turns(g, down, order, nodes, calls, |c.names|);
            && seen[j] in nodes
            && (seen[j] in p.world.stale <==>
                  RecordedAs(g, down, SeenLabels(g, down, order, nodes, calls), SeenLedger(g, down, order, nodes, calls),
                             CallsAfterListing(g, down, order, nodes, calls, |order|), j, IsStray(g, nodes[seen[j]])))
  {
    hide Build, Run, WellFormed, Seen, SeenLabels, SeenLedger, CallsAfterListing, Begin, RecordedAs, Admitted, Distinct, LabelsOf, IsStray;
    var c := BuiltContext(g, down, order, nodes, calls);
    BeginsAsSeen(g, down, order, nodes, calls);
    BeginWorld(g, c);
    NotAbortedAtFirst(g, c);
    RecordForeseen(g, down, c.names, Begin(g, c), |c.names|, j);
    ListingRecordsStrays(g, down, order, World(nodes, calls, {}), |order|, c.names[j]);
    if IsStray(g, nodes[c.names[j]]) {
      ListingRecordsTargeted(g, down, order, World(nodes, calls, {}), |order|, c.names[j]);
    }
  }
}

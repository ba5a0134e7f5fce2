/** What a reconcile decides for every targeted node, in closed form: the free nodes line up in
    list order and the demand queue is handed out to them; who is free is a matter of rank. */
module Plan {
  import opened Cluster
  import opened Groups
  import opened Allocation
  import opened Float32

  /** Number of nodes assignment a should have among n targeted nodes. */
  function Desired(a: Assignment, n: nat): (d: nat)
    ensures d >= 1
  {
    var share := Percent(n, a.percentDesired);
    var atLeastOne := if share == 0 then 1 else share;
    if a.numDesired > atLeastOne then a.numDesired else atLeastOne
  }

  function FallbackName(g: Group): Option<string> {
    if g.fallback.Some? then Some(g.fallback.value.name) else None
  }

  /** Assignment names identify assignments, and the default is none of them. */
  predicate WellFormed(g: Group) {
    DistinctNames(g.assignments) && (g.fallback.Some? ==> !Named(g.assignments, g.fallback.value.name))
  }

  predicate Known(g: Group, name: string) {
    Named(g.assignments, name) || FallbackName(g) == Some(name)
  }

  predicate AllKnown(g: Group, labels: seq<Option<string>>) {
    forall k :: 0 <= k < |labels| && labels[k].Some? ==> Known(g, labels[k].value)
  }

  // ----- Ranks -----

  /** How many of the first k nodes carry label c. */
  function Before(labels: seq<Option<string>>, k: nat, c: Option<string>): (n: nat)
    requires k <= |labels|
    ensures n <= k
  {
    if k == 0 then 0 else Before(labels, k - 1, c) + if labels[k - 1] == c then 1 else 0
  }

  function Total(labels: seq<Option<string>>, c: Option<string>): nat { Before(labels, |labels|, c) }

  /** Node k is available: unlabelled, on the default, or among the first of an over-full assignment. */
  predicate IsFree(g: Group, labels: seq<Option<string>>, ledger: map<string, int>, k: nat)
    requires k < |labels|
  {
    || labels[k].None?
    || labels[k] == FallbackName(g)
    || Before(labels, k, labels[k]) < Surplus(ledger, labels[k].value)
  }

  function FreeBefore(g: Group, labels: seq<Option<string>>, ledger: map<string, int>, k: nat): (n: nat)
    requires k <= |labels|
    ensures n <= k
  {
    if k == 0 then 0
    else FreeBefore(g, labels, ledger, k - 1) + if IsFree(g, labels, ledger, k - 1) then 1 else 0
  }

  /** Stay where it is, be given to an assignment, or be left without one. */
  datatype Outcome = Stay | Give(a: Assignment) | Nothing

  function OutcomeAt(g: Group, labels: seq<Option<string>>, ledger: map<string, int>, k: nat): Outcome
    requires k < |labels|
  {
    if !IsFree(g, labels, ledger, k) then Stay
    else
      var queue := Demand(g.assignments, ledger);
      var rank := FreeBefore(g, labels, ledger, k);
      if rank < |queue| then Give(queue[rank])
      else if g.fallback.Some? then Give(g.fallback.value)
      else Nothing
  }

  function FinalLabel(g: Group, labels: seq<Option<string>>, ledger: map<string, int>, k: nat): Option<string>
    requires k < |labels|
  {
    match OutcomeAt(g, labels, ledger, k)
    case Stay => labels[k]
    case Give(a) => Some(a.name)
    case Nothing => None
  }

  function FinalLabels(g: Group, labels: seq<Option<string>>, ledger: map<string, int>): (r: seq<Option<string>>)
    ensures |r| == |labels|
    ensures forall k :: 0 <= k < |labels| ==> r[k] == FinalLabel(g, labels, ledger, k)
  {
    seq(|labels|, k requires 0 <= k < |labels| => FinalLabel(g, labels, ledger, k))
  }

  /** The ledger records desired minus current for every assignment. */
  ghost predicate LedgerOf(g: Group, labels: seq<Option<string>>, ledger: map<string, int>) {
    forall i :: 0 <= i < |g.assignments| ==>
      Get(ledger, g.assignments[i].name)
        == Desired(g.assignments[i], |labels|) - Total(labels, Some(g.assignments[i].name))
  }

  // ----- Counting the outcome -----

  lemma {:induction false} TakeOneMore<T>(s: seq<T>, r: nat)
    requires r < |s|
    ensures s[..r + 1] == s[..r] + [s[r]]
  {
  }

  /** Those of the first k nodes that carry label c and are not released. */
  function Kept(labels: seq<Option<string>>, ledger: map<string, int>, k: nat, c: string): int
    requires k <= |labels|
  {
    Before(labels, k, Some(c)) - Min(Before(labels, k, Some(c)), Surplus(ledger, c))
  }

  /** The places of c in the part of the queue that the first k nodes use up. */
  function Served(g: Group, labels: seq<Option<string>>, ledger: map<string, int>, k: nat, c: string): nat
    requires k <= |labels|
  {
    var queue := Demand(g.assignments, ledger);
    Places(queue[..Min(FreeBefore(g, labels, ledger, k), |queue|)], c)
  }

  lemma {:induction false} FinalCount(g: Group, labels: seq<Option<string>>, ledger: map<string, int>, k: nat, c: string)
    requires WellFormed(g) && k <= |labels| && Named(g.assignments, c)
    ensures Before(FinalLabels(g, labels, ledger), k, Some(c)) == Kept(labels, ledger, k, c) + Served(g, labels, ledger, k, c)
  {
    if k > 0 {
      FinalCount(g, labels, ledger, k - 1, c);
      hide Kept, Served, FinalLabels, FinalLabel;
      if IsFree(g, labels, ledger, k - 1) {
        FreeNodeServed(g, labels, ledger, k - 1, c);
      } else {
        NotFreeStays(g, labels, ledger, k - 1, c);
      }
    }
  }

  /** A node that is not free keeps its label, and was not among the released. */
  lemma {:induction false} NotFreeStays(g: Group, labels: seq<Option<string>>, ledger: map<string, int>, k: nat, c: string)
    requires k < |labels| && !IsFree(g, labels, ledger, k)
    ensures FinalLabel(g, labels, ledger, k) == labels[k]
    ensures Served(g, labels, ledger, k + 1, c) == Served(g, labels, ledger, k, c)
    ensures Kept(labels, ledger, k + 1, c) == Kept(labels, ledger, k, c) + if labels[k] == Some(c) then 1 else 0
  {
    hide Demand, Places;
  }

  /** A free node takes its place from the queue, or ends on the default or without assignment. */
  lemma {:induction false} FreeNodeServed(g: Group, labels: seq<Option<string>>, ledger: map<string, int>, k: nat, c: string)
    requires WellFormed(g) && k < |labels| && Named(g.assignments, c)
    requires IsFree(g, labels, ledger, k)
    ensures Served(g, labels, ledger, k + 1, c)
         == Served(g, labels, ledger, k, c) + if FinalLabel(g, labels, ledger, k) == Some(c) then 1 else 0
    ensures Kept(labels, ledger, k + 1, c) == Kept(labels, ledger, k, c)
  {
    hide Demand;
    assert FallbackName(g) != Some(c);
    var queue, rank := Demand(g.assignments, ledger), FreeBefore(g, labels, ledger, k);
    assert FreeBefore(g, labels, ledger, k + 1) == rank + 1;
    assert Kept(labels, ledger, k + 1, c) == Kept(labels, ledger, k, c);
    hide FreeBefore, IsFree, Kept, Before, FallbackName;
    if rank < |queue| {
      TakeOneMore(queue, rank);
      assert queue[..rank + 1][..rank] == queue[..rank];
    }
  }

  /** How many of the first k nodes carrying label c do not stay. */
  function Leavers(g: Group, labels: seq<Option<string>>, ledger: map<string, int>, k: nat, c: string): nat
    requires k <= |labels|
  {
    if k == 0 then 0
    else Leavers(g, labels, ledger, k - 1, c) +
         if labels[k - 1] == Some(c) && OutcomeAt(g, labels, ledger, k - 1) != Stay then 1 else 0
  }

  lemma {:induction false} LeaversCount(g: Group, labels: seq<Option<string>>, ledger: map<string, int>, k: nat, c: string)
    requires k <= |labels| && FallbackName(g) != Some(c)
    ensures Leavers(g, labels, ledger, k, c) == Min(Before(labels, k, Some(c)), Surplus(ledger, c))
  {
    if k > 0 {
      LeaversCount(g, labels, ledger, k - 1, c);
    }
  }

  function Released(assignments: seq<Assignment>, labels: seq<Option<string>>, ledger: map<string, int>, k: nat): nat
    requires k <= |labels|
  {
    if assignments == [] then 0
    else Min(Before(labels, k, Some(assignments[0].name)), Surplus(ledger, assignments[0].name))
         + Released(assignments[1..], labels, ledger, k)
  }

  /** One more node changes the released total only through its own assignment. */
  lemma {:induction false} ReleasedStep(assignments: seq<Assignment>, labels: seq<Option<string>>, ledger: map<string, int>, k: nat)
    requires DistinctNames(assignments) && k < |labels|
    ensures Released(assignments, labels, ledger, k + 1) == Released(assignments, labels, ledger, k) +
              if labels[k].Some? && Named(assignments, labels[k].value)
                 && Before(labels, k, labels[k]) < Surplus(ledger, labels[k].value) then 1 else 0
  {
    if assignments != [] {
      ReleasedStep(assignments[1..], labels, ledger, k);
      if labels[k].Some? {
        NamedTail(assignments, labels[k].value);
        assert labels[k].value == assignments[0].name ==> !Named(assignments[1..], labels[k].value);
      }
    }
  }

  lemma {:induction false} ReleasedAtStart(assignments: seq<Assignment>, labels: seq<Option<string>>, ledger: map<string, int>)
    ensures Released(assignments, labels, ledger, 0) == 0
  {
    if assignments != [] {
      ReleasedAtStart(assignments[1..], labels, ledger);
    }
  }

  function OnFallback(g: Group, labels: seq<Option<string>>, k: nat): nat
    requires k <= |labels|
  {
    if g.fallback.Some? then Before(labels, k, FallbackName(g)) else 0
  }

  /** The free nodes are the unlabelled, the default ones and the released ones. */
  lemma {:induction false} FreeCount(g: Group, labels: seq<Option<string>>, ledger: map<string, int>, k: nat)
    requires WellFormed(g) && AllKnown(g, labels) && k <= |labels|
    ensures FreeBefore(g, labels, ledger, k)
         == Before(labels, k, None) + OnFallback(g, labels, k) + Released(g.assignments, labels, ledger, k)
  {
    if k == 0 {
      ReleasedAtStart(g.assignments, labels, ledger);
    } else {
      FreeCount(g, labels, ledger, k - 1);
      ReleasedStep(g.assignments, labels, ledger, k - 1);
    }
  }

  /** Total that over-full assignments must release. */
  function TotalSurplus(assignments: seq<Assignment>, ledger: map<string, int>): nat {
    if assignments == [] then 0 else Surplus(ledger, assignments[0].name) + TotalSurplus(assignments[1..], ledger)
  }

  function TotalDesired(assignments: seq<Assignment>, n: nat): nat {
    if assignments == [] then 0 else Desired(assignments[0], n) + TotalDesired(assignments[1..], n)
  }

  function TotalOn(assignments: seq<Assignment>, labels: seq<Option<string>>, k: nat): nat
    requires k <= |labels|
  {
    if assignments == [] then 0 else Before(labels, k, Some(assignments[0].name)) + TotalOn(assignments[1..], labels, k)
  }

  /** Nodes the pass can hand out. */
  function Available(g: Group, labels: seq<Option<string>>, ledger: map<string, int>): nat {
    Total(labels, None) + OnFallback(g, labels, |labels|) + TotalSurplus(g.assignments, ledger)
  }

  lemma {:induction false} AllSurplusReleased(assignments: seq<Assignment>, labels: seq<Option<string>>, ledger: map<string, int>)
    requires forall i :: 0 <= i < |assignments| ==>
               Surplus(ledger, assignments[i].name) <= Total(labels, Some(assignments[i].name))
    ensures Released(assignments, labels, ledger, |labels|) == TotalSurplus(assignments, ledger)
  {
    if assignments != [] {
      assert assignments[0] in assignments;
      AllSurplusReleased(assignments[1..], labels, ledger);
    }
  }

  lemma {:induction false} AvailableIsFreeCount(g: Group, labels: seq<Option<string>>, ledger: map<string, int>)
    requires WellFormed(g) && AllKnown(g, labels) && LedgerOf(g, labels, ledger)
    ensures FreeBefore(g, labels, ledger, |labels|) == Available(g, labels, ledger)
  {
    hide Desired;
    FreeCount(g, labels, ledger, |labels|);
    AllSurplusReleased(g.assignments, labels, ledger);
  }

  // ----- Main results on the allocation -----

  /** Assignment i keeps what it has up to its desired count and gets what the free nodes leave
      after every assignment of higher priority has been served. */
  lemma {:induction false} PriorityAllocation(g: Group, labels: seq<Option<string>>, ledger: map<string, int>, i: nat)
    requires WellFormed(g) && AllKnown(g, labels) && LedgerOf(g, labels, ledger) && i < |g.assignments|
    ensures var c := g.assignments[i].name;
            var current, desired := Total(labels, Some(c)), Desired(g.assignments[i], |labels|);
            Total(FinalLabels(g, labels, ledger), Some(c))
              == Min(current, desired)
                 + Min(Max(0, desired - current),
                       Max(0, Available(g, labels, ledger) - TotalDue(g.assignments[..i], ledger)))
  {
    hide Desired;
    AllocationByLedger(g, labels, ledger, i, Desired(g.assignments[i], |labels|));
    AvailableIsFreeCount(g, labels, ledger);
  }

  /** The same in terms of the ledger and the number of free nodes. */
  lemma {:induction false} AllocationByLedger(g: Group, labels: seq<Option<string>>, ledger: map<string, int>, i: nat, desired: int)
    requires WellFormed(g) && i < |g.assignments|
    requires Get(ledger, g.assignments[i].name) == desired - Total(labels, Some(g.assignments[i].name))
    requires desired >= 0
    ensures var current := Total(labels, Some(g.assignments[i].name));
            Total(FinalLabels(g, labels, ledger), Some(g.assignments[i].name))
              == Min(current, desired)
                 + Min(Max(0, desired - current),
                       Max(0, FreeBefore(g, labels, ledger, |labels|) - TotalDue(g.assignments[..i], ledger)))
  {
    assert Named(g.assignments, g.assignments[i].name);
    hide Demand, FreeBefore, Before, FinalLabels, TotalDue, Places, Named;
    var queue := Demand(g.assignments, ledger);
    FinalCount(g, labels, ledger, |labels|, g.assignments[i].name);
    PlacesInPriorityOrder(g.assignments, ledger, Min(FreeBefore(g, labels, ledger, |labels|), |queue|), i);
    DemandLength(g.assignments, ledger);
    TotalDueOfPrefix(g.assignments, ledger, i);
  }

  lemma {:induction false} TotalDueOfPrefix(assignments: seq<Assignment>, ledger: map<string, int>, i: nat)
    requires i < |assignments|
    ensures TotalDue(assignments[..i], ledger) + Due(ledger, assignments[i].name) <= TotalDue(assignments, ledger)
  {
    if i > 0 {
      assert assignments[..i][1..] == assignments[1..][..i - 1];
      TotalDueOfPrefix(assignments[1..], ledger, i - 1);
    }
  }

  /** Exactly the excess leaves an assignment, and it is the first nodes of the list that leave. */
  lemma {:induction false} LeaversAreFirst(g: Group, labels: seq<Option<string>>, ledger: map<string, int>, i: nat)
    requires WellFormed(g) && LedgerOf(g, labels, ledger) && i < |g.assignments|
    ensures var c := g.assignments[i].name;
            var excess := Max(0, Total(labels, Some(c)) - Desired(g.assignments[i], |labels|));
            && Leavers(g, labels, ledger, |labels|, c) == excess
            && forall k :: 0 <= k < |labels| && labels[k] == Some(c) ==>
                 (OutcomeAt(g, labels, ledger, k) == Stay <==> Before(labels, k, Some(c)) >= excess)
  {
    hide Desired;
    var c := g.assignments[i].name;
    assert Named(g.assignments, c);
    LeaversCount(g, labels, ledger, |labels|, c);
  }

  lemma {:induction false} LedgerTotals(assignments: seq<Assignment>, labels: seq<Option<string>>, ledger: map<string, int>)
    requires forall i :: 0 <= i < |assignments| ==>
               Get(ledger, assignments[i].name)
                 == Desired(assignments[i], |labels|) - Total(labels, Some(assignments[i].name))
    ensures TotalDue(assignments, ledger) - TotalSurplus(assignments, ledger)
         == TotalDesired(assignments, |labels|) - TotalOn(assignments, labels, |labels|)
  {
    hide Desired;
    if assignments != [] {
      assert assignments[0] in assignments;
      LedgerTotals(assignments[1..], labels, ledger);
    }
  }

  lemma {:induction false} TotalOnStep(assignments: seq<Assignment>, labels: seq<Option<string>>, k: nat)
    requires DistinctNames(assignments) && k < |labels|
    ensures TotalOn(assignments, labels, k + 1) == TotalOn(assignments, labels, k) +
              if labels[k].Some? && Named(assignments, labels[k].value) then 1 else 0
  {
    if assignments != [] {
      TotalOnStep(assignments[1..], labels, k);
      if labels[k].Some? {
        NamedTail(assignments, labels[k].value);
        assert labels[k].value == assignments[0].name ==> !Named(assignments[1..], labels[k].value);
      }
    }
  }

  lemma {:induction false} TotalOnAtStart(assignments: seq<Assignment>, labels: seq<Option<string>>)
    ensures TotalOn(assignments, labels, 0) == 0
  {
    if assignments != [] {
      TotalOnAtStart(assignments[1..], labels);
    }
  }

  /** Every node is unlabelled, on the default or on an assignment. */
  lemma {:induction false} NodesArePartitioned(g: Group, labels: seq<Option<string>>, k: nat)
    requires WellFormed(g) && AllKnown(g, labels) && k <= |labels|
    ensures k == Before(labels, k, None) + OnFallback(g, labels, k) + TotalOn(g.assignments, labels, k)
  {
    if k == 0 {
      TotalOnAtStart(g.assignments, labels);
    } else {
      NodesArePartitioned(g, labels, k - 1);
      TotalOnStep(g.assignments, labels, k - 1);
    }
  }

  /** If the desired counts fit into the targeted nodes, every assignment ends with exactly its desired count. */
  lemma {:induction false} FeasibleIsExact(g: Group, labels: seq<Option<string>>, ledger: map<string, int>, i: nat)
    requires WellFormed(g) && AllKnown(g, labels) && LedgerOf(g, labels, ledger) && i < |g.assignments|
    requires TotalDesired(g.assignments, |labels|) <= |labels|
    ensures Total(FinalLabels(g, labels, ledger), Some(g.assignments[i].name)) == Desired(g.assignments[i], |labels|)
  {
    PriorityAllocation(g, labels, ledger, i);
    EnoughNodes(g, labels, ledger);
    TotalDueOfPrefix(g.assignments, ledger, i);
    DueIsShortfall(g, labels, ledger, i);
    hide Desired, Total, TotalDue, FinalLabels, Available, LedgerOf, AllKnown, WellFormed, TotalDesired, Due;
  }

  lemma {:induction false} DueIsShortfall(g: Group, labels: seq<Option<string>>, ledger: map<string, int>, i: nat)
    requires LedgerOf(g, labels, ledger) && i < |g.assignments|
    ensures Due(ledger, g.assignments[i].name)
         == Max(0, Desired(g.assignments[i], |labels|) - Total(labels, Some(g.assignments[i].name)))
  {
    hide Desired, Before;
  }

  lemma {:induction false} EnoughNodes(g: Group, labels: seq<Option<string>>, ledger: map<string, int>)
    requires WellFormed(g) && AllKnown(g, labels) && LedgerOf(g, labels, ledger)
    requires TotalDesired(g.assignments, |labels|) <= |labels|
    ensures Available(g, labels, ledger) >= TotalDue(g.assignments, ledger)
  {
    hide Desired, Before, TotalDue, TotalOn, TotalDesired, TotalSurplus, OnFallback;
    NodesArePartitioned(g, labels, |labels|);
    LedgerTotals(g.assignments, labels, ledger);
  }

  /** If some assignment stays short, no node is left over for the default or without an assignment,
      and no assignment of lower priority got a node. */
  lemma {:induction false} ShortageUsesEveryNode(g: Group, labels: seq<Option<string>>, ledger: map<string, int>, i: nat)
    requires WellFormed(g) && AllKnown(g, labels) && LedgerOf(g, labels, ledger) && i < |g.assignments|
    requires Total(FinalLabels(g, labels, ledger), Some(g.assignments[i].name)) < Desired(g.assignments[i], |labels|)
    ensures forall k :: 0 <= k < |labels| ==>
              FinalLabel(g, labels, ledger, k).Some? && Named(g.assignments, FinalLabel(g, labels, ledger, k).value)
    ensures forall j :: i < j < |g.assignments| ==>
              Total(FinalLabels(g, labels, ledger), Some(g.assignments[j].name))
                == Min(Total(labels, Some(g.assignments[j].name)), Desired(g.assignments[j], |labels|))
  {
    hide Desired, Before, TotalDue, FinalLabels, Demand, IsFree, FreeBefore, Available;
    PriorityAllocation(g, labels, ledger, i);
    AvailableIsFreeCount(g, labels, ledger);
    DemandLength(g.assignments, ledger);
    TotalDueOfPrefix(g.assignments, ledger, i);
    assert FreeBefore(g, labels, ledger, |labels|) < TotalDue(g.assignments[..i], ledger) + Due(ledger, g.assignments[i].name);
    forall k | 0 <= k < |labels|
      ensures FinalLabel(g, labels, ledger, k).Some? && Named(g.assignments, FinalLabel(g, labels, ledger, k).value)
    {
      ServedWhileDemandLasts(g, labels, ledger, k);
    }
    forall j | i < j < |g.assignments|
      ensures Total(FinalLabels(g, labels, ledger), Some(g.assignments[j].name))
           == Min(Total(labels, Some(g.assignments[j].name)), Desired(g.assignments[j], |labels|))
    {
      PriorityAllocation(g, labels, ledger, j);
      assert g.assignments[..j][..i] == g.assignments[..i];
      TotalDueOfPrefix(g.assignments[..j], ledger, i);
    }
  }

  /** While the demand exceeds the free nodes, every node ends on an assignment. */
  lemma {:induction false} ServedWhileDemandLasts(g: Group, labels: seq<Option<string>>, ledger: map<string, int>, k: nat)
    requires WellFormed(g) && AllKnown(g, labels) && k < |labels|
    requires FreeBefore(g, labels, ledger, |labels|) <= |Demand(g.assignments, ledger)|
    ensures FinalLabel(g, labels, ledger, k).Some? && Named(g.assignments, FinalLabel(g, labels, ledger, k).value)
  {
    if IsFree(g, labels, ledger, k) {
      FreeBeforeGrows(g, labels, ledger, k + 1, |labels|);
      assert FreeBefore(g, labels, ledger, k + 1) == FreeBefore(g, labels, ledger, k) + 1;
      hide FreeBefore, Demand, Before, IsFree;
      DemandIsNamed(g.assignments, ledger, FreeBefore(g, labels, ledger, k));
    }
  }

  lemma {:induction false} FreeBeforeGrows(g: Group, labels: seq<Option<string>>, ledger: map<string, int>, j: nat, k: nat)
    requires j <= k <= |labels|
    ensures FreeBefore(g, labels, ledger, j) <= FreeBefore(g, labels, ledger, k)
  {
    if j < k {
      FreeBeforeGrows(g, labels, ledger, j, k - 1);
    }
  }

  lemma {:induction false} DemandIsNamed(assignments: seq<Assignment>, ledger: map<string, int>, r: nat)
    requires r < |Demand(assignments, ledger)|
    ensures Demand(assignments, ledger)[r] in assignments
    ensures Named(assignments, Demand(assignments, ledger)[r].name)
    ensures Due(ledger, Demand(assignments, ledger)[r].name) > 0
  {
    var block := Copies(assignments[0], Due(ledger, assignments[0].name));
    if r >= |block| {
      DemandIsNamed(assignments[1..], ledger, r - |block|);
    }
  }
}

/** The allocation problem behind a reconcile, free of nodes and API calls: the ledger of
    deficits, the queue of demands it stands for, and who gets what. */
module Allocation {
  import opened Cluster
  import opened Groups

  // ----- Ledger -----

  /** Entry of the ledger; an absent entry counts as zero. */
  function Get(ledger: map<string, int>, a: string): int {
    if a in ledger then ledger[a] else 0
  }

  /** Nodes assignment a still has to get. */
  function Due(ledger: map<string, int>, a: string): nat {
    if Get(ledger, a) > 0 then Get(ledger, a) else 0
  }

  /** Nodes assignment a still has to release. */
  function Surplus(ledger: map<string, int>, a: string): nat {
    if Get(ledger, a) < 0 then -Get(ledger, a) else 0
  }

  /** Adds d to an entry and drops it when it reaches zero. */
  function Bump(ledger: map<string, int>, a: string, d: int): map<string, int> {
    if Get(ledger, a) + d == 0 then ledger - {a} else ledger[a := Get(ledger, a) + d]
  }

  // ----- Demand queue -----

  function Copies(a: Assignment, n: nat): (r: seq<Assignment>)
    ensures |r| == n
    ensures forall i :: 0 <= i < n ==> r[i] == a
  {
    if n == 0 then [] else [a] + Copies(a, n - 1)
  }

  /** Every missing node of every assignment, in priority order. */
  function Demand(assignments: seq<Assignment>, ledger: map<string, int>): seq<Assignment> {
    if assignments == [] then []
    else Copies(assignments[0], Due(ledger, assignments[0].name)) + Demand(assignments[1..], ledger)
  }

  /** The first assignment that needs a node. */
  function FirstDue(assignments: seq<Assignment>, ledger: map<string, int>): Option<Assignment> {
    if assignments == [] then None
    else if Due(ledger, assignments[0].name) > 0 then Some(assignments[0])
    else FirstDue(assignments[1..], ledger)
  }

  predicate DistinctNames(assignments: seq<Assignment>) {
    forall i, j :: 0 <= i < j < |assignments| ==> assignments[i].name != assignments[j].name
  }

  predicate Named(assignments: seq<Assignment>, name: string) {
    exists i :: 0 <= i < |assignments| && assignments[i].name == name
  }

  lemma {:induction false} NamedTail(assignments: seq<Assignment>, name: string)
    requires assignments != []
    ensures Named(assignments, name) <==> assignments[0].name == name || Named(assignments[1..], name)
  {
    if Named(assignments[1..], name) {
      var i :| 0 <= i < |assignments| - 1 && assignments[1..][i].name == name;
      assert assignments[i + 1].name == name;
    }
    if Named(assignments, name) && assignments[0].name != name {
      var i :| 0 <= i < |assignments| && assignments[i].name == name;
      assert assignments[1..][i - 1].name == name;
    }
  }

  /** The demand depends only on what is due to the assignments. */
  lemma {:induction false} DemandDependsOnDue(assignments: seq<Assignment>, ledger: map<string, int>, ledger': map<string, int>)
    requires forall i :: 0 <= i < |assignments| ==> Due(ledger, assignments[i].name) == Due(ledger', assignments[i].name)
    ensures Demand(assignments, ledger) == Demand(assignments, ledger')
    ensures FirstDue(assignments, ledger) == FirstDue(assignments, ledger')
  {
    if assignments != [] {
      assert assignments[0] in assignments;
      DemandDependsOnDue(assignments[1..], ledger, ledger');
    }
  }

  /** Looking for the first assignment that needs a node is looking at the head of the queue;
      serving it takes the head off. */
  lemma {:induction false} FirstDueIsHead(assignments: seq<Assignment>, ledger: map<string, int>)
    requires DistinctNames(assignments)
    ensures FirstDue(assignments, ledger).None? <==> Demand(assignments, ledger) == []
    ensures FirstDue(assignments, ledger).Some? ==>
              var a := FirstDue(assignments, ledger).value;
              && a in assignments
              && Due(ledger, a.name) > 0
              && Demand(assignments, ledger)[0] == a
              && Demand(assignments, Bump(ledger, a.name, -1)) == Demand(assignments, ledger)[1..]
  {
    if assignments != [] {
      var first, rest := assignments[0], assignments[1..];
      if Due(ledger, first.name) > 0 {
        var ledger' := Bump(ledger, first.name, -1);
        assert Due(ledger', first.name) == Due(ledger, first.name) - 1;
        DemandDependsOnDue(rest, ledger, ledger');
        assert Demand(assignments, ledger) == [first] + Demand(assignments, ledger');
      } else {
        FirstDueIsHead(rest, ledger);
        assert Demand(assignments, ledger) == Demand(rest, ledger);
        if FirstDue(rest, ledger).Some? {
          var a := FirstDue(rest, ledger).value;
          assert a.name != first.name;
          assert Demand(assignments, Bump(ledger, a.name, -1)) == Demand(rest, Bump(ledger, a.name, -1));
        }
      }
    }
  }

  function TotalDue(assignments: seq<Assignment>, ledger: map<string, int>): nat {
    if assignments == [] then 0 else Due(ledger, assignments[0].name) + TotalDue(assignments[1..], ledger)
  }

  // ----- Counting -----

  /** Places of assignment `name` in a queue. */
  function Places(queue: seq<Assignment>, name: string): nat {
    if queue == [] then 0 else (if queue[|queue| - 1].name == name then 1 else 0) + Places(queue[..|queue| - 1], name)
  }

  lemma {:induction false} PlacesConcat(q: seq<Assignment>, r: seq<Assignment>, name: string)
    ensures Places(q + r, name) == Places(q, name) + Places(r, name)
  {
    if r == [] {
      assert q + r == q;
    } else {
      assert (q + r)[..|q + r| - 1] == q + r[..|r| - 1];
      PlacesConcat(q, r[..|r| - 1], name);
    }
  }

  lemma {:induction false} PlacesUniform(q: seq<Assignment>, a: Assignment, name: string)
    requires forall i :: 0 <= i < |q| ==> q[i] == a
    ensures Places(q, name) == if a.name == name then |q| else 0
  {
    if q != [] {
      PlacesUniform(q[..|q| - 1], a, name);
    }
  }

  function Min(a: int, b: int): int { if a < b then a else b }

  function Max(a: int, b: int): int { if a > b then a else b }

  lemma {:induction false} NotNamedNoPlaces(assignments: seq<Assignment>, ledger: map<string, int>, m: nat, name: string)
    requires m <= |Demand(assignments, ledger)|
    requires forall i :: 0 <= i < |assignments| ==> assignments[i].name != name
    ensures Places(Demand(assignments, ledger)[..m], name) == 0
  {
    if assignments != [] {
      var block := Copies(assignments[0], Due(ledger, assignments[0].name));
      var rest := Demand(assignments[1..], ledger);
      if m <= |block| {
        assert Demand(assignments, ledger)[..m] == block[..m];
        PlacesUniform(block[..m], assignments[0], name);
      } else {
        assert Demand(assignments, ledger)[..m] == block + rest[..m - |block|];
        PlacesConcat(block, rest[..m - |block|], name);
        PlacesUniform(block, assignments[0], name);
        NotNamedNoPlaces(assignments[1..], ledger, m - |block|, name);
      }
    }
  }

  /** Serving the first m demands gives assignment i what is left after all assignments before it. */
  lemma {:induction false} PlacesInPriorityOrder(assignments: seq<Assignment>, ledger: map<string, int>, m: nat, i: nat)
    requires DistinctNames(assignments) && i < |assignments|
    requires m <= |Demand(assignments, ledger)|
    ensures Places(Demand(assignments, ledger)[..m], assignments[i].name)
         == Min(Due(ledger, assignments[i].name), Max(0, m - TotalDue(assignments[..i], ledger)))
  {
    hide Places, Due;
    var name := assignments[i].name;
    var block := Copies(assignments[0], Due(ledger, assignments[0].name));
    var rest := Demand(assignments[1..], ledger);
    if i > 0 {
      assert assignments[..i][1..] == assignments[1..][..i - 1];
    }
    if m <= |block| {
      assert Demand(assignments, ledger)[..m] == block[..m];
      PlacesUniform(block[..m], assignments[0], name);
    } else {
      assert Demand(assignments, ledger)[..m] == block + rest[..m - |block|];
      PlacesConcat(block, rest[..m - |block|], name);
      PlacesUniform(block, assignments[0], name);
      if i == 0 {
        NotNamedNoPlaces(assignments[1..], ledger, m - |block|, name);
      } else {
        PlacesInPriorityOrder(assignments[1..], ledger, m - |block|, i - 1);
      }
    }
  }

  lemma {:induction false} DemandLength(assignments: seq<Assignment>, ledger: map<string, int>)
    ensures |Demand(assignments, ledger)| == TotalDue(assignments, ledger)
  {
    if assignments != [] {
      DemandLength(assignments[1..], ledger);
    }
  }
}

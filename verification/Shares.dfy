/** From the pods on the nodes to the states: what makes a node full, in requests and allocatable resources. */
module Shares {
  import opened Cluster
  import opened Groups
  import opened Lists
  import opened Plan
  import opened Ranking
  import opened Reconciling
  import opened Limits
  import opened PodIndex
  import opened PackLeftPass
  import opened PackLeftManagers
  import Float32

  // ----- Requests -----

  function RunningOn(name: string): Pod -> bool { (p: Pod) => p.nodeName == name && !p.succeeded }

  function NotSucceeded(): Pod -> bool { (p: Pod) => !p.succeeded }

  function ContainersOf(pods: seq<Pod>): seq<Container> {
    if pods == [] then [] else pods[0].containers + ContainersOf(pods[1..])
  }

  function MemoryOf(cs: seq<Container>): int { if cs == [] then 0 else cs[0].memory + MemoryOf(cs[1..]) }

  function CpuOf(cs: seq<Container>): int { if cs == [] then 0 else cs[0].milliCpu + CpuOf(cs[1..]) }

  /** Memory, in bytes, requested by the containers of the pods on a node that have not succeeded. */
  function MemoryRequested(pods: seq<Pod>, name: string): int { MemoryOf(ContainersOf(Filter(RunningOn(name), pods))) }

  /** The same for milli-cores. */
  function CpuRequested(pods: seq<Pod>, name: string): int { CpuOf(ContainersOf(Filter(RunningOn(name), pods))) }

  lemma {:induction false} SumsConcat(a: seq<Container>, b: seq<Container>)
    ensures MemoryOf(a + b) == MemoryOf(a) + MemoryOf(b) && CpuOf(a + b) == CpuOf(a) + CpuOf(b)
  {
    if a == [] {
      assert a + b == b;
    } else {
      assert (a + b)[1..] == a[1..] + b;
      SumsConcat(a[1..], b);
    }
  }

  lemma {:induction false} ContainersConcat(a: seq<Pod>, b: seq<Pod>)
    ensures ContainersOf(a + b) == ContainersOf(a) + ContainersOf(b)
  {
    if a == [] {
      assert a + b == b;
    } else {
      assert (a + b)[1..] == a[1..] + b;
      ContainersConcat(a[1..], b);
    }
  }

  lemma {:induction false} ContainersSum(cs: seq<Container>)
    ensures ContainersRequest(cs, Memory) == MemoryOf(cs) && ContainersRequest(cs, Cpu) == CpuOf(cs)
  {
    if cs != [] {
      var rest, last := cs[..|cs| - 1], cs[|cs| - 1];
      ContainersSum(rest);
      assert cs == rest + [last];
      SumsConcat(rest, [last]);
      assert [last][1..] == [];
    }
  }

  lemma {:induction false} OnePod(p: Pod)
    ensures MemoryOf(ContainersOf(if p.succeeded then [] else [p])) == PodRequest(p, Memory)
    ensures CpuOf(ContainersOf(if p.succeeded then [] else [p])) == PodRequest(p, Cpu)
  {
    ContainersSum(p.containers);
    assert [p][1..] == [] && p.containers + [] == p.containers;
    hide ContainersRequest, MemoryOf, CpuOf;
    assert ContainersOf([p]) == p.containers + ContainersOf([p][1..]);
    assert MemoryOf([]) == 0 && CpuOf([]) == 0 by { NoContainers(); }
  }

  lemma {:induction false} NoContainers()
    ensures MemoryOf([]) == 0 && CpuOf([]) == 0
  {
  }

  lemma {:induction false} RequestedOfRunning(pods: seq<Pod>)
    ensures Requested(pods, Memory) == MemoryOf(ContainersOf(Filter(NotSucceeded(), pods)))
    ensures Requested(pods, Cpu) == CpuOf(ContainersOf(Filter(NotSucceeded(), pods)))
  {
    if pods != [] {
      var rest, last := pods[..|pods| - 1], pods[|pods| - 1];
      RequestedOfRunning(rest);
      assert pods == rest + [last];
      FilterAppend(NotSucceeded(), rest, last);
      OnePod(last);
      var more := if last.succeeded then [] else [last];
      ContainersConcat(Filter(NotSucceeded(), rest), more);
      SumsConcat(ContainersOf(Filter(NotSucceeded(), rest)), ContainersOf(more));
      hide Filter, ContainersOf, MemoryOf, CpuOf, PodRequest;
    }
  }

  /** What is summed for a node through the index. */
  lemma {:induction false} RequestedSpelledOut(pods: seq<Pod>, name: string)
    ensures Requested(PodsOn(pods, name), Memory) == MemoryRequested(pods, name)
    ensures Requested(PodsOn(pods, name), Cpu) == CpuRequested(pods, name)
  {
    RequestedOfRunning(PodsOn(pods, name));
    FilterTwice(RunsOn(name), NotSucceeded(), RunningOn(name), pods);
    hide Filter, ContainersOf, MemoryOf, CpuOf, Requested;
  }

  // ----- Shares -----

  /** Shares of a node's allocatable memory and CPU that are requested. */
  function SharesOf(status: Status, pods: seq<Pod>, name: string): (real, real)
    requires HasSize(status)
  {
    (MemoryRequested(pods, name) as real / status.memory as real, CpuRequested(pods, name) as real / status.milliCpu as real)
  }

  /** One of the shares of the first node is above both of the second. */
  predicate Fuller(x: (real, real), y: (real, real)) {
    (x.0 > y.0 && x.0 > y.1) || (x.1 > y.0 && x.1 > y.1)
  }

  lemma {:induction false} FullnessIsLargerShare(status: Status, pods: seq<Pod>, name: string)
    requires HasSize(status)
    ensures var full, x := Fullness(status, PodsOn(pods, name)), SharesOf(status, pods, name);
            full >= x.0 && full >= x.1 && (full == x.0 || full == x.1)
  {
    RequestedSpelledOut(pods, name);
    hide PodsOn, Requested, MemoryRequested, CpuRequested;
  }

  lemma {:induction false} FullerIsFuller(status: Status, status': Status, pods: seq<Pod>, name: string, name': string)
    requires HasSize(status) && HasSize(status')
    ensures (Fullness(status, PodsOn(pods, name)) > Fullness(status', PodsOn(pods, name'))) <==>
              Fuller(SharesOf(status, pods, name), SharesOf(status', pods, name'))
  {
    FullnessIsLargerShare(status, pods, name);
    FullnessIsLargerShare(status', pods, name');
    hide Fullness, SharesOf;
  }

  /** More than the given percentage of memory or of CPU is requested; 80 percent if none is given. */
  predicate OverLimit(a: Assignment, status: Status, pods: seq<Pod>, name: string) {
    var percent := if a.packLeft.Some? && a.packLeft.value.fullPercent.Some? then a.packLeft.value.fullPercent.value else 80;
    MemoryRequested(pods, name) * 100 > percent * status.memory || CpuRequested(pods, name) * 100 > percent * status.milliCpu
  }

  lemma {:induction false} ShareAboveLimit(requested: int, allocatable: int, percent: int)
    requires allocatable > 0
    ensures requested as real / allocatable as real > percent as real / 100.0 <==> requested * 100 > percent * allocatable
  {
    var q := requested as real / allocatable as real;
    var d := q - percent as real / 100.0;
    assert q * allocatable as real == requested as real;
    assert (d * 100.0) * allocatable as real == (requested * 100 - percent * allocatable) as real;
    SignOfProduct(d * 100.0, allocatable as real);
  }

  lemma {:induction false} SignOfProduct(d: real, x: real)
    requires x > 0.0
    ensures d * x > 0.0 <==> d > 0.0
  {
  }

  lemma {:induction false} OverLimitExactly(a: Assignment, status: Status, pods: seq<Pod>, name: string)
    requires HasSize(status)
    ensures Fullness(status, PodsOn(pods, name)) > FullLimit(a) <==> OverLimit(a, status, pods, name)
  {
    FullnessIsLargerShare(status, pods, name);
    var percent := if a.packLeft.Some? && a.packLeft.value.fullPercent.Some? then a.packLeft.value.fullPercent.value else 80;
    assert FullLimit(a) == percent as real / 100.0;
    ShareAboveLimit(MemoryRequested(pods, name), status.memory, percent);
    ShareAboveLimit(CpuRequested(pods, name), status.milliCpu, percent);
    hide Fullness, MemoryRequested, CpuRequested, FullLimit;
  }

  // ----- States -----

  /** Node m comes before node n: it is fuller, or neither is fuller and its name is the greater one. */
  predicate IsAhead(nodes: map<string, Node>, pods: seq<Pod>, m: string, n: string)
    requires m in nodes && n in nodes && HasSize(nodes[m].status) && HasSize(nodes[n].status)
  {
    var x, y := SharesOf(nodes[m].status, pods, m), SharesOf(nodes[n].status, pods, n);
    Fuller(x, y) || (!Fuller(y, x) && Less(n, m))
  }

  lemma {:induction false} AheadPrecedes(nodes: map<string, Node>, pods: seq<Pod>, m: string, n: string)
    requires m in nodes && n in nodes && HasSize(nodes[m].status) && HasSize(nodes[n].status)
    ensures var full := FullnessOf(nodes, pods);
            Precedes(Ranked(m, FullnessAt(full, m)), Ranked(n, FullnessAt(full, n))) <==> IsAhead(nodes, pods, m, n)
  {
    FullerIsFuller(nodes[m].status, nodes[n].status, pods, m, n);
    FullerIsFuller(nodes[n].status, nodes[m].status, pods, n, m);
    hide Fullness, SharesOf, Less, Fuller;
  }

  /** Balanced nodes of the same assignment as n. */
  ghost predicate IsPeer(g: Group, nodes: map<string, Node>, m: string, n: string)
    requires n in nodes
  {
    m in nodes && IsPacked(g, nodes[m]) && LabelOf(g, nodes[m]) == LabelOf(g, nodes[n])
  }

  lemma {:induction false} PeersAreRanked(g: Group, order: seq<string>, nodes: map<string, Node>, n: string, m: string)
    requires IsListing(order, nodes) && n in nodes && IsPacked(g, nodes[n]) && PackedAssignment(g, nodes[n]).Some?
    ensures m in Filter(Balanceable(nodes), Members(g, order, nodes, PackedAssignment(g, nodes[n]).value.name)) <==> IsPeer(g, nodes, m, n)
  {
    var c := PackedAssignment(g, nodes[n]).value.name;
    MembersFacts(g, order, nodes, c);
    FilterMembers(Balanceable(nodes), Members(g, order, nodes, c));
    if m in nodes {
      SameLabelSameAssignment(g, nodes[m], nodes[n]);
    }
    hide Members, Filter, Targets, PackedAssignment, LabelOf, CanBeBalanced;
  }

  lemma {:induction false} SameLabelSameAssignment(g: Group, x: Node, y: Node)
    requires PackedAssignment(g, y).Some?
    ensures LabelOf(g, x) == LabelOf(g, y) <==> PackedAssignment(g, x).Some? && PackedAssignment(g, x).value.name == PackedAssignment(g, y).value.name
  {
    hide LabelOf, AllAssignments;
  }

  lemma {:induction false} StateOfPeer(g: Group, order: seq<string>, nodes: map<string, Node>, pods: seq<Pod>, n: string)
    requires IsListing(order, nodes) && Sized(nodes) && n in nodes && IsPacked(g, nodes[n]) && PackedAssignment(g, nodes[n]).Some?
    ensures HasSize(nodes[n].status)
    ensures StateIn(g, order, nodes, FullnessOf(nodes, pods), n) == Use <==>
              (|| OverLimit(PackedAssignment(g, nodes[n]).value, nodes[n].status, pods, n)
               || forall m :: IsPeer(g, nodes, m, n) && HasSize(nodes[m].status) ==> !IsAhead(nodes, pods, m, n))
  {
    hide Members, Filter, Targets, PackedAssignment, LabelOf, Fullness, Precedes, StateByRank, Buffer, FullLimit, OverLimit, IsAhead, RankedNodes,
         Distinct, DistinctRanked, Balanceable, HasSize, IsPeer;
    var full, a := FullnessOf(nodes, pods), PackedAssignment(g, nodes[n]).value;
    var b := Filter(Balanceable(nodes), Members(g, order, nodes, a.name));
    var x := Ranked(n, FullnessAt(full, n));
    PackedHasSize(g, nodes, n);
    SelfIsPeer(g, nodes, n);
    MembersFacts(g, order, nodes, a.name);
    FilterDistinct(Balanceable(nodes), Members(g, order, nodes, a.name));
    RankedDistinct(b, full);
    PeersAreRanked(g, order, nodes, n, n);
    UsedExactly(x, RankedNodes(b, full), FullLimit(a), Buffer(a, |Members(g, order, nodes, a.name)|));
    OverLimitExactly(a, nodes[n].status, pods, n);
    FullnessFound(nodes, pods, n);
    forall m | IsPeer(g, nodes, m, n)
      ensures m in nodes && HasSize(nodes[m].status) && Ranked(m, FullnessAt(full, m)) in RankedNodes(b, full)
      ensures Precedes(Ranked(m, FullnessAt(full, m)), x) <==> IsAhead(nodes, pods, m, n)
    {
      PeersAreRanked(g, order, nodes, n, m);
      PeerIsPacked(g, nodes, m, n);
      PackedHasSize(g, nodes, m);
      AheadPrecedes(nodes, pods, m, n);
    }
    forall y | y in RankedNodes(b, full) ensures IsPeer(g, nodes, y.name, n) && y == Ranked(y.name, FullnessAt(full, y.name)) {
      PeersAreRanked(g, order, nodes, n, y.name);
    }
  }

  lemma {:induction false} FullnessFound(nodes: map<string, Node>, pods: seq<Pod>, n: string)
    requires n in nodes && HasSize(nodes[n].status)
    ensures FullnessAt(FullnessOf(nodes, pods), n) == Fullness(nodes[n].status, PodsOn(pods, n))
  {
    hide Fullness;
  }

  lemma {:induction false} PeerIsPacked(g: Group, nodes: map<string, Node>, m: string, n: string)
    requires n in nodes && IsPeer(g, nodes, m, n)
    ensures m in nodes && IsPacked(g, nodes[m])
  {
    hide IsPacked, LabelOf;
  }

  lemma {:induction false} SelfIsPeer(g: Group, nodes: map<string, Node>, n: string)
    requires n in nodes && IsPacked(g, nodes[n])
    ensures IsPeer(g, nodes, n, n)
  {
    hide IsPacked, LabelOf;
  }

  lemma {:induction false} PackedHasSize(g: Group, nodes: map<string, Node>, n: string)
    requires n in nodes && IsPacked(g, nodes[n]) && Sized(nodes)
    ensures HasSize(nodes[n].status)
  {
    hide HasSize, Targets, PackedAssignment;
  }

  // ----- Main results -----

  /** After a pass a balanced node is labelled Use exactly if more than the limit of its memory or CPU is requested by
      pods that have not succeeded, or no other balanced node of its assignment comes before it. */
  lemma {:induction false} UsedExactlyWhen(g: Group, order: seq<string>, nodes: map<string, Node>, pods: seq<Pod>, n: string)
    requires IsListing(order, nodes) && Sized(nodes) && n in nodes && IsPacked(g, nodes[n])
    ensures PackedAssignment(g, nodes[n]).Some? && HasSize(nodes[n].status)
    ensures var after := Packed(g, order, nodes, FullnessOf(nodes, pods))[n];
            var key := "nag.packleft.scheduling.kube-valet.io/" + g.name;
            && key in after.labels
            && (after.labels[key] == "Use" <==>
                  (|| OverLimit(PackedAssignment(g, nodes[n]).value, nodes[n].status, pods, n)
                   || forall m :: IsPeer(g, nodes, m, n) && HasSize(nodes[m].status) ==> !IsAhead(nodes, pods, m, n)))
  {
    PackedHasAssignment(g, nodes[n]);
    StateOfPeer(g, order, nodes, pods, n);
    PackedLabel(g, order, nodes, FullnessOf(nodes, pods), n);
    hide IsPacked, PackedAssignment, OverLimit, IsPeer, IsAhead, HasSize, StateIn, Packed, FullnessOf;
  }

  lemma {:induction false} PackedLabel(g: Group, order: seq<string>, nodes: map<string, Node>, full: map<string, real>, n: string)
    requires n in nodes && IsPacked(g, nodes[n]) && PackedAssignment(g, nodes[n]).Some?
    ensures var after := Packed(g, order, nodes, full)[n];
            var key := "nag.packleft.scheduling.kube-valet.io/" + g.name;
            && key in after.labels
            && after.labels[key] == match StateIn(g, order, nodes, full, n) case Use => "Use" case Avoid => "Avoid" case Deny => "Deny"
  {
    hide IsPacked, PackedAssignment, StateIn, StateTaints, WithoutFirst;
  }

  lemma {:induction false} ThreeWords()
    ensures "Use" != "Avoid" && "Use" != "Deny" && "Avoid" != "Deny"
  {
    assert "Use"[0] == 'U' && "Avoid"[0] == 'A' && "Deny"[0] == 'D';
  }

  /** It is labelled Avoid exactly if it is not used and fewer nodes than the used ones and the buffer together come
      before it; the buffer is a number or a percentage of all targeted nodes of the assignment, balanced or not. */
  lemma {:induction false} AvoidedExactlyWhen(g: Group, order: seq<string>, nodes: map<string, Node>, full: map<string, real>, n: string)
    requires IsListing(order, nodes) && n in nodes && IsPacked(g, nodes[n])
    ensures PackedAssignment(g, nodes[n]).Some?
    ensures var after := Packed(g, order, nodes, full)[n];
            var key, a := "nag.packleft.scheduling.kube-valet.io/" + g.name, PackedAssignment(g, nodes[n]).value;
            var members := Members(g, order, nodes, a.name);
            var ranked := RankedNodes(Filter(Balanceable(nodes), members), full);
            var rank, used := Rank(Ranked(n, FullnessAt(full, n)), ranked), UseBlock(FullLimit(a), ranked);
            var number := if a.packLeft.Some? then a.packLeft.value.numAvoid else 0;
            var percent := if a.packLeft.Some? && a.packLeft.value.percentAvoid.Some? then a.packLeft.value.percentAvoid.value else 0;
            && key in after.labels
            && (|members| * percent < Float32.FIRST_INEXACT ==>
                  (after.labels[key] == "Avoid" <==> used <= rank < used + Largest(1, number, |members| * percent / 100)))
  {
    PackedHasAssignment(g, nodes[n]);
    var a := PackedAssignment(g, nodes[n]).value;
    var members := Members(g, order, nodes, a.name);
    PackedLabel(g, order, nodes, full, n);
    ThreeWords();
    if a.packLeft.Some? {
      if a.packLeft.value.percentAvoid.None? || |members| * a.packLeft.value.percentAvoid.value < Float32.FIRST_INEXACT {
        BufferRoundsDown(a, |members|);
      }
    }
    hide IsPacked, PackedAssignment, Packed, Members, RankedNodes, FullLimit, UseBlock, Rank, FullnessAt, Filter, Balanceable;
  }
}

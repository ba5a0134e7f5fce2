/** Requested resources per node: the pod index of pkg/controller/scheduling/packleft/manager.go
    against the plain scan over all pods. */
module PodIndex {
  import opened Cluster
  import opened Lists

  datatype Resource = Memory | Cpu

  /** Requests of one container, in bytes and milli-cores. */
  datatype Container = Container(memory: int, milliCpu: int)

  datatype Pod = Pod(nodeName: string, succeeded: bool, containers: seq<Container>)

  function RequestOf(c: Container, r: Resource): int { if r == Memory then c.memory else c.milliCpu }

  function ContainersRequest(cs: seq<Container>, r: Resource): int {
    if cs == [] then 0 else ContainersRequest(cs[..|cs| - 1], r) + RequestOf(cs[|cs| - 1], r)
  }

  /** Completed pods do not count. */
  function PodRequest(p: Pod, r: Resource): int { if p.succeeded then 0 else ContainersRequest(p.containers, r) }

  function Requested(pods: seq<Pod>, r: Resource): int {
    if pods == [] then 0 else Requested(pods[..|pods| - 1], r) + PodRequest(pods[|pods| - 1], r)
  }

  function RunsOn(name: string): Pod -> bool { (p: Pod) => p.nodeName == name }

  /** The pods of one node, in order. */
  function PodsOn(pods: seq<Pod>, name: string): seq<Pod> { Filter(RunsOn(name), pods) }

  /** The index: node name to pods. A missing name stands for no pods. */
  ghost predicate IsIndex(index: map<string, seq<Pod>>, pods: seq<Pod>) {
    && (forall name :: name in index ==> index[name] == PodsOn(pods, name))
    && (forall name :: name !in index ==> PodsOn(pods, name) == [])
  }

  function Indexed(index: map<string, seq<Pod>>, name: string): seq<Pod> {
    if name in index then index[name] else []
  }

  lemma {:induction false} IndexOne(index: map<string, seq<Pod>>, pods: seq<Pod>, p: Pod)
    requires IsIndex(index, pods)
    ensures IsIndex(index[p.nodeName := Indexed(index, p.nodeName) + [p]], pods + [p])
  {
    forall name: string ensures PodsOn(pods + [p], name) == PodsOn(pods, name) + if p.nodeName == name then [p] else [] {
      FilterAppend(RunsOn(name), pods, p);
    }
    assert forall name :: PodsOn(pods, name) + [] == PodsOn(pods, name);
    hide PodsOn;
  }

  method GetPodsOnNodes(pods: seq<Pod>) returns (index: map<string, seq<Pod>>)
    ensures IsIndex(index, pods)
  {
    index := map[];
    for i := 0 to |pods|
      invariant IsIndex(index, pods[..i])
    {
      IndexOne(index, pods[..i], pods[i]);
      assert pods[..i + 1] == pods[..i] + [pods[i]];
      hide PodsOn;
      index := index[pods[i].nodeName := Indexed(index, pods[i].nodeName) + [pods[i]]];
    }
    assert pods[..|pods|] == pods;
  }

  /** Sums over the containers of the pods that have not succeeded. */
  method SumRequests(pods: seq<Pod>, r: Resource) returns (sum: int)
    ensures sum == Requested(pods, r)
  {
    sum := 0;
    for i := 0 to |pods|
      invariant sum == Requested(pods[..i], r)
    {
      assert pods[..i + 1][..i] == pods[..i];
      if !pods[i].succeeded {
        var cs := pods[i].containers;
        ghost var before := sum;
        for j := 0 to |cs|
          invariant sum == before + ContainersRequest(cs[..j], r)
        {
          assert cs[..j + 1][..j] == cs[..j];
          sum := sum + RequestOf(cs[j], r);
        }
        assert cs[..|cs|] == cs;
      }
    }
    assert pods[..|pods|] == pods;
  }

  // ----- Conservation -----

  /** Requests summed node by node through the index. */
  function RequestedOver(names: seq<string>, pods: seq<Pod>, r: Resource): int {
    if names == [] then 0 else Requested(PodsOn(pods, names[0]), r) + RequestedOver(names[1..], pods, r)
  }

  lemma {:induction false} OneMorePod(names: seq<string>, pods: seq<Pod>, p: Pod, r: Resource)
    requires Distinct(names)
    ensures RequestedOver(names, pods + [p], r) == RequestedOver(names, pods, r) + if p.nodeName in names then PodRequest(p, r) else 0
  {
    if names != [] {
      OneMorePod(names[1..], pods, p, r);
      FilterAppend(RunsOn(names[0]), pods, p);
      var on := PodsOn(pods, names[0]);
      assert (on + [p])[..|on|] == on && on + [] == on;
      assert names[0] !in names[1..];
      assert names == [names[0]] + names[1..];
      hide PodsOn, PodRequest;
    }
  }

  lemma {:induction false} NoPods(names: seq<string>, r: Resource)
    ensures RequestedOver(names, [], r) == 0
  {
    if names != [] {
      NoPods(names[1..], r);
    }
  }

  /** Summing through the index, over any listing of the node names in use (the empty name of
      unscheduled pods among them), loses no request and counts none twice. */
  lemma {:induction false} IndexConservesRequests(names: seq<string>, pods: seq<Pod>, r: Resource)
    requires Distinct(names) && forall p :: p in pods ==> p.nodeName in names
    ensures RequestedOver(names, pods, r) == Requested(pods, r)
  {
    if pods == [] {
      NoPods(names, r);
    } else {
      var rest, last := pods[..|pods| - 1], pods[|pods| - 1];
      assert pods == rest + [last] && last in pods;
      IndexConservesRequests(names, rest, r);
      OneMorePod(names, rest, last, r);
    }
  }

  /** The larger of the two shares of its allocatable resources that a node's pods request. */
  function Fullness(status: Status, pods: seq<Pod>): real
    requires status.memory > 0 && status.milliCpu > 0
  {
    var memory := Requested(pods, Memory) as real / status.memory as real;
    var cpu := Requested(pods, Cpu) as real / status.milliCpu as real;
    if memory > cpu then memory else cpu
  }

  method NodeFullness(status: Status, name: string, index: map<string, seq<Pod>>, ghost pods: seq<Pod>) returns (full: real)
    requires IsIndex(index, pods) && status.memory > 0 && status.milliCpu > 0
    ensures full == Fullness(status, PodsOn(pods, name))
  {
    var memory := SumRequests(Indexed(index, name), Memory);
    var cpu := SumRequests(Indexed(index, name), Cpu);
    var memFull, cpuFull := memory as real / status.memory as real, cpu as real / status.milliCpu as real;
    full := if memFull > cpuFull then memFull else cpuFull;
  }
}

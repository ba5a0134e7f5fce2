/** The cluster as the controllers see it: nodes, the patch the API server
    applies to a node, and the API server itself, which may refuse a call. */
module Cluster {

  datatype Option<+T> = None | Some(value: T)

  /** The three effects the upstream API accepts on a node. */
  datatype Effect = NoSchedule | PreferNoSchedule | NoExecute

  datatype Taint = Taint(key: string, value: string, effect: Effect)

  datatype Condition = Condition(kind: string, status: string)

  /** The part of a node that kube-valet reads but never writes. */
  datatype Status = Status(unschedulable: bool, conditions: seq<Condition>, memory: int, milliCpu: int)

  datatype Node = Node(labels: map<string, string>, taints: seq<Taint>, status: Status)

  // ----- Patches -----

  /** Labels merge key by key: only keys on which `before` and `after` differ are sent. */
  function PatchLabels(current: map<string, string>, before: map<string, string>, after: map<string, string>)
    : map<string, string>
  {
    (current - (before.Keys - after.Keys)) +
    (map k | k in after && (k !in before || before[k] != after[k]) :: after[k])
  }

  /** The taint list has no merge strategy upstream: it is replaced as a whole, and only when it differs. */
  function ApplyPatch(current: Node, before: Node, after: Node): Node {
    Node(PatchLabels(current.labels, before.labels, after.labels),
         if before.taints == after.taints then current.taints else after.taints,
         current.status)
  }

  predicate IsEmptyPatch(before: Node, after: Node) {
    before.labels == after.labels && before.taints == after.taints
  }

  /** A patch computed from the current object turns it into the intended one. */
  lemma {:induction false} PatchFromCurrent(current: Node, after: Node)
    requires after.status == current.status
    ensures ApplyPatch(current, current, after) == after
  {
    assert PatchLabels(current.labels, current.labels, after.labels) == after.labels;
  }

  // ----- API server -----

  /** No call of the schedule is refused. */
  ghost predicate NoFault(down: nat -> bool) {
    forall k: nat :: !down(k)
  }

  /** Node store behind the API. `down` says which calls are refused; `order` is the
      order in which List returns the nodes. */
  class ApiServer {
    var nodes: map<string, Node>
    var order: seq<string>
    var calls: nat
    const down: nat -> bool

    ghost predicate Valid()
      reads this
    {
      && (forall i :: 0 <= i < |order| ==> order[i] in nodes)
      && (forall n :: n in nodes ==> n in order)
      && (forall i, j :: 0 <= i < j < |order| ==> order[i] != order[j])
    }

    constructor (nodes: map<string, Node>, order: seq<string>, down: nat -> bool)
      ensures this.nodes == nodes && this.order == order && this.down == down && calls == 0
    {
      this.nodes, this.order, this.down, this.calls := nodes, order, down, 0;
    }

    /** Sends the difference between `before` and `after`; a refused call changes nothing. */
    method Patch(name: string, before: Node, after: Node) returns (ok: bool)
      requires name in nodes
      modifies this`nodes, this`calls
      ensures calls == old(calls) + 1
      ensures ok == !down(old(calls))
      ensures nodes == if ok then old(nodes)[name := ApplyPatch(old(nodes)[name], before, after)] else old(nodes)
    {
      ok := !down(calls);
      calls := calls + 1;
      if ok {
        nodes := nodes[name := ApplyPatch(nodes[name], before, after)];
      }
    }

    /** Lists the nodes, in the server's order. */
    method List() returns (r: Option<seq<string>>)
      modifies this`calls
      ensures calls == old(calls) + 1
      ensures r == if down(old(calls)) then None else Some(order)
    {
      r := if down(calls) then None else Some(order);
      calls := calls + 1;
    }

    /** Reads the latest version of one node. */
    method Get(name: string) returns (r: Option<Node>)
      requires name in nodes
      modifies this`calls
      ensures calls == old(calls) + 1
      ensures r == if down(old(calls)) then None else Some(nodes[name])
    {
      r := if down(calls) then None else Some(nodes[name]);
      calls := calls + 1;
    }
  }
}

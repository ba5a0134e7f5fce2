/** Node assignment groups and what they write on a node
    (pkg/apis/assignments/v1alpha1/helpers.go and types.go). */
module Groups {
  import opened Cluster
  import opened Lists

  datatype Mode = Undefined | LabelOnly | LabelAndTaint

  datatype PackLeft = PackLeft(fullPercent: Option<int>, numAvoid: int, percentAvoid: Option<nat>)

  /** One assignment of a group; `effect` None is the unspecified effect, `packed` the PackLeft scheduling mode. */
  datatype Assignment = Assignment(
    name: string, mode: Mode, effect: Option<Effect>, numDesired: int, percentDesired: nat,
    packed: bool, packLeft: Option<PackLeft>)

  /** `target` is the label selector, `fallback` the default assignment. */
  datatype Group = Group(
    name: string, target: map<string, string>, assignments: seq<Assignment>, fallback: Option<Assignment>)

  const ASSIGNMENT_PREFIX := "nag.assignments.kube-valet.io/"
  const PACKLEFT_PREFIX := "nag.packleft.scheduling.kube-valet.io/"
  const PROTECTED_KEY := "nags.kube-valet.io/protected"
  const PROTECTED_VALUE := "true"

  function AssignmentKey(group: string): string { ASSIGNMENT_PREFIX + group }

  function PackLeftKey(group: string): string { PACKLEFT_PREFIX + group }

  function GroupKeys(group: string): set<string> { {AssignmentKey(group), PackLeftKey(group)} }

  /** No two groups share a key, no assignment key is a packleft key, and none is the protection key. */
  lemma {:induction false} KeysAreDistinct(g: string, h: string)
    ensures AssignmentKey(g) != PackLeftKey(h)
    ensures PROTECTED_KEY !in GroupKeys(g)
    ensures g != h ==> GroupKeys(g) !! GroupKeys(h)
  {
    assert AssignmentKey(g)[4] == 'a' && PackLeftKey(h)[4] == 'p';
    assert AssignmentKey(h)[4] == 'a' && PackLeftKey(g)[4] == 'p';
    assert AssignmentKey(g)[3] == '.' && PackLeftKey(g)[3] == '.' && PROTECTED_KEY[3] == 's';
    assert AssignmentKey(g)[|ASSIGNMENT_PREFIX|..] == g && AssignmentKey(h)[|ASSIGNMENT_PREFIX|..] == h;
    assert PackLeftKey(g)[|PACKLEFT_PREFIX|..] == g && PackLeftKey(h)[|PACKLEFT_PREFIX|..] == h;
  }

  // ----- Specification on values -----

  predicate IsProtected(labels: map<string, string>) {
    PROTECTED_KEY in labels && labels[PROTECTED_KEY] == PROTECTED_VALUE
  }

  predicate SelectorMatches(g: Group, labels: map<string, string>) {
    forall k | k in g.target :: k in labels && labels[k] == g.target[k]
  }

  /** Unprotected, and carrying every target label. */
  predicate Targets(g: Group, labels: map<string, string>) { !IsProtected(labels) && SelectorMatches(g, labels) }

  /** The assignment a node is labelled with. */
  function LabelOf(g: Group, node: Node): Option<string> {
    if AssignmentKey(g.name) in node.labels then Some(node.labels[AssignmentKey(g.name)]) else None
  }

  function IsForeign(g: string): Taint -> bool { (t: Taint) => t.key !in GroupKeys(g) }

  function ForeignTaints(g: string, taints: seq<Taint>): seq<Taint> { Filter(IsForeign(g), taints) }

  function TaintOf(g: Group, a: Assignment): Taint {
    Taint(AssignmentKey(g.name), a.name, if a.effect.Some? then a.effect.value else NoSchedule)
  }

  /** The node with every label and taint of the group gone. */
  function Unassigned(g: Group, node: Node): Node {
    Node(node.labels - GroupKeys(g.name), ForeignTaints(g.name, node.taints), node.status)
  }

  function Assigned(g: Group, a: Assignment, node: Node): Node {
    Node(node.labels[AssignmentKey(g.name) := a.name],
         node.taints + if a.mode == LabelAndTaint then [TaintOf(g, a)] else [],
         node.status)
  }

  // ----- Nodes in memory -----

  /** A node object held by a controller; its labels and taints are edited in place. */
  class NodeObject {
    const name: string
    const status: Status
    var labels: map<string, string>
    var taints: seq<Taint>

    constructor (name: string, node: Node)
      ensures this.name == name && Value() == node
    {
      this.name := name;
      this.status, this.labels, this.taints := node.status, node.labels, node.taints;
    }

    function Value(): Node
      reads this
    {
      Node(labels, taints, status)
    }

    method DeepCopy() returns (copy: NodeObject)
      ensures fresh(copy) && copy.name == name && copy.Value() == Value()
    {
      copy := new NodeObject(name, Value());
    }
  }

  /** A taint to delete; no effect means any effect. */
  datatype TaintToDelete = TaintToDelete(key: string, effect: Option<Effect>)

  predicate Matches(d: TaintToDelete, t: Taint) {
    d.key == t.key && (d.effect.Some? ==> d.effect.value == t.effect)
  }

  predicate MatchesAny(d: TaintToDelete, taints: seq<Taint>) {
    exists t :: t in taints && Matches(d, t)
  }

  lemma {:induction false} MatchesAnyAppend(d: TaintToDelete, taints: seq<Taint>, t: Taint)
    ensures MatchesAny(d, taints + [t]) <==> MatchesAny(d, taints) || Matches(d, t)
  {
    if Matches(d, t) {
      assert t in taints + [t];
    }
  }

  function Spared(d: TaintToDelete): Taint -> bool { (t: Taint) => !Matches(d, t) }

  method DeleteTaint(taints: seq<Taint>, d: TaintToDelete) returns (kept: seq<Taint>, deleted: bool)
    requires d.effect.Some?
    ensures kept == Filter(Spared(d), taints)
    ensures deleted <==> MatchesAny(d, taints)
  {
    kept, deleted := [], false;
    assert Filter(Spared(d), []) == [] && !MatchesAny(d, []);
    hide Filter, MatchesAny;
    assert taints[..0] == [];
    for i := 0 to |taints|
      invariant kept == Filter(Spared(d), taints[..i])
      invariant deleted <==> MatchesAny(d, taints[..i])
    {
      FilterAppend(Spared(d), taints[..i], taints[i]);
      MatchesAnyAppend(d, taints[..i], taints[i]);
      assert taints[..i + 1] == taints[..i] + [taints[i]];
      if d.key == taints[i].key && d.effect.value == taints[i].effect {
        deleted := true;
      } else {
        kept := kept + [taints[i]];
      }
    }
    assert taints[..|taints|] == taints;
  }

  method DeleteTaintsByKey(taints: seq<Taint>, d: TaintToDelete) returns (kept: seq<Taint>, deleted: bool)
    requires d.effect.None?
    ensures kept == Filter(Spared(d), taints)
    ensures deleted <==> MatchesAny(d, taints)
  {
    kept, deleted := [], false;
    assert Filter(Spared(d), []) == [] && !MatchesAny(d, []);
    hide Filter, MatchesAny;
    assert taints[..0] == [];
    for i := 0 to |taints|
      invariant kept == Filter(Spared(d), taints[..i])
      invariant deleted <==> MatchesAny(d, taints[..i])
    {
      FilterAppend(Spared(d), taints[..i], taints[i]);
      MatchesAnyAppend(d, taints[..i], taints[i]);
      assert taints[..i + 1] == taints[..i] + [taints[i]];
      if d.key == taints[i].key {
        deleted := true;
      } else {
        kept := kept + [taints[i]];
      }
    }
    assert taints[..|taints|] == taints;
  }

  method DeleteOne(taints: seq<Taint>, d: TaintToDelete) returns (kept: seq<Taint>, deleted: bool)
    ensures kept == Filter(Spared(d), taints)
    ensures deleted <==> MatchesAny(d, taints)
  {
    if d.effect.Some? {
      kept, deleted := DeleteTaint(taints, d);
    } else {
      kept, deleted := DeleteTaintsByKey(taints, d);
    }
  }

  function SparedByAll(ds: seq<TaintToDelete>): Taint -> bool { (t: Taint) => forall d | d in ds :: !Matches(d, t) }

  /** Some taint left by the deletions before the i-th one matches it. */
  predicate Hits(ds: seq<TaintToDelete>, i: nat, taints: seq<Taint>)
    requires i < |ds|
  {
    MatchesAny(ds[i], Filter(SparedByAll(ds[..i]), taints))
  }

  lemma {:induction false} DeletionStep(ds: seq<TaintToDelete>, i: nat, taints: seq<Taint>)
    requires i < |ds|
    ensures Filter(Spared(ds[i]), Filter(SparedByAll(ds[..i]), taints)) == Filter(SparedByAll(ds[..i + 1]), taints)
  {
    assert ds[..i + 1] == ds[..i] + [ds[i]];
    forall t | t in taints
      ensures SparedByAll(ds[..i + 1])(t) <==> SparedByAll(ds[..i])(t) && Spared(ds[i])(t)
    {
    }
    FilterTwice(SparedByAll(ds[..i]), Spared(ds[i]), SparedByAll(ds[..i + 1]), taints);
  }

  /** Deletes the given taints in turn. `missing` lists, in order, those that matched nothing
      when their turn came; `removed` speaks only of the last one. */
  method DeleteTaints(ds: seq<TaintToDelete>, taints: seq<Taint>)
    returns (kept: seq<Taint>, missing: seq<TaintToDelete>, removed: bool)
    ensures kept == Filter(SparedByAll(ds), taints)
    ensures missing == Missing(ds, |ds|, taints)
    ensures removed <==> ds != [] && Hits(ds, |ds| - 1, taints)
  {
    kept, missing, removed := taints, [], false;
    FilterNone(SparedByAll([]), taints);
    assert Missing(ds, 0, taints) == [];
    hide Filter, MatchesAny, SparedByAll, Spared, Matches, Missing;
    assert ds[..0] == [];
    for i := 0 to |ds|
      invariant kept == Filter(SparedByAll(ds[..i]), taints)
      invariant missing == Missing(ds, i, taints)
      invariant removed <==> i > 0 && Hits(ds, i - 1, taints)
    {
      DeletionStep(ds, i, taints);
      kept, removed := DeleteOne(kept, ds[i]);
      MissingStep(ds, i, taints);
      if !removed {
        missing := missing + [ds[i]];
      }
    }
    assert ds[..|ds|] == ds;
  }

  function Missing(ds: seq<TaintToDelete>, n: nat, taints: seq<Taint>): seq<TaintToDelete>
    requires n <= |ds|
  {
    if n == 0 then []
    else Missing(ds, n - 1, taints) + if Hits(ds, n - 1, taints) then [] else [ds[n - 1]]
  }

  lemma {:induction false} MissingStep(ds: seq<TaintToDelete>, n: nat, taints: seq<Taint>)
    requires n < |ds|
    ensures Missing(ds, n + 1, taints) == Missing(ds, n, taints) + if Hits(ds, n, taints) then [] else [ds[n]]
  {
  }

  /** Every key and effect the group may have put on a node. */
  function TaintsOfGroup(g: Group): seq<TaintToDelete> {
    [ TaintToDelete(AssignmentKey(g.name), Some(NoSchedule)),
      TaintToDelete(AssignmentKey(g.name), Some(PreferNoSchedule)),
      TaintToDelete(AssignmentKey(g.name), Some(NoExecute)),
      TaintToDelete(PackLeftKey(g.name), Some(NoSchedule)),
      TaintToDelete(PackLeftKey(g.name), Some(PreferNoSchedule)),
      TaintToDelete(PackLeftKey(g.name), Some(NoExecute)) ]
  }

  /** The six deletions spare exactly the taints with a foreign key. */
  lemma {:induction false} SixDeletionsSuffice(g: Group, taints: seq<Taint>)
    ensures Filter(SparedByAll(TaintsOfGroup(g)), taints) == ForeignTaints(g.name, taints)
  {
    var ds := TaintsOfGroup(g);
    forall t | t in taints ensures SparedByAll(ds)(t) <==> IsForeign(g.name)(t) {
      assert forall d :: d in ds ==> d.key in GroupKeys(g.name);
      match t.effect
      case NoSchedule => assert ds[0] in ds && ds[3] in ds;
      case PreferNoSchedule => assert ds[1] in ds && ds[4] in ds;
      case NoExecute => assert ds[2] in ds && ds[5] in ds;
    }
    FilterSame(SparedByAll(ds), IsForeign(g.name), taints);
  }

  // ----- In-place edits -----

  method SetLabel(g: Group, node: NodeObject, a: Assignment)
    modifies node`labels
    ensures node.labels == old(node.labels)[AssignmentKey(g.name) := a.name]
  {
    node.labels := node.labels[AssignmentKey(g.name) := a.name];
  }

  method RemoveLabel(g: Group, node: NodeObject)
    modifies node`labels
    ensures node.labels == old(node.labels) - GroupKeys(g.name)
  {
    node.labels := node.labels - {AssignmentKey(g.name)};
    node.labels := node.labels - {PackLeftKey(g.name)};
  }

  method RemoveTaint(g: Group, node: NodeObject) returns (missing: seq<TaintToDelete>)
    modifies node`taints
    ensures node.taints == ForeignTaints(g.name, old(node.taints))
    ensures missing == Missing(TaintsOfGroup(g), 6, old(node.taints))
  {
    SixDeletionsSuffice(g, node.taints);
    var kept, m, _ := DeleteTaints(TaintsOfGroup(g), node.taints);
    node.taints := kept;
    missing := m;
  }

  method SetTaint(g: Group, node: NodeObject, a: Assignment)
    modifies node`taints
    ensures node.taints == old(node.taints) + [TaintOf(g, a)]
  {
    var effect := if a.effect.None? then NoSchedule else a.effect.value;
    node.taints := node.taints + [Taint(AssignmentKey(g.name), a.name, effect)];
  }

  method Assign(g: Group, node: NodeObject, a: Assignment)
    modifies node`labels, node`taints
    ensures node.Value() == Assigned(g, a, old(node.Value()))
  {
    var mode := if a.mode == Undefined then LabelOnly else a.mode;
    match mode
    case LabelAndTaint =>
      SetLabel(g, node, a);
      SetTaint(g, node, a);
    case LabelOnly =>
      SetLabel(g, node, a);
    case Undefined =>
  }

  method Unassign(g: Group, node: NodeObject) returns (missing: seq<TaintToDelete>)
    modifies node`labels, node`taints
    ensures node.Value() == Unassigned(g, old(node.Value()))
    ensures missing == Missing(TaintsOfGroup(g), 6, old(node.taints))
  {
    RemoveLabel(g, node);
    missing := RemoveTaint(g, node);
  }

  /** Looks the target labels up one at a time, in any order, and stops at the first mismatch. */
  method TargetsNode(g: Group, node: Node) returns (matched: bool)
    ensures matched <==> Targets(g, node.labels)
  {
    if PROTECTED_KEY in node.labels && node.labels[PROTECTED_KEY] == PROTECTED_VALUE {
      return false;
    }
    matched := true;
    var todo := g.target.Keys;
    while todo != {}
      invariant todo <= g.target.Keys
      invariant matched
      invariant forall k :: k in g.target.Keys - todo ==> k in node.labels && node.labels[k] == g.target[k]
    {
      var k :| k in todo;
      todo := todo - {k};
      if k in node.labels {
        if g.target[k] != node.labels[k] {
          return false;
        }
      } else {
        return false;
      }
    }
  }

  /** Undoing an assignment restores a node the group had not touched. */
  lemma {:induction false} UnassignUndoesAssign(g: Group, a: Assignment, node: Node)
    requires node.labels.Keys !! GroupKeys(g.name)
    requires ForeignTaints(g.name, node.taints) == node.taints
    ensures Unassigned(g, Assigned(g, a, node)) == node
  {
    FilterAppend(IsForeign(g.name), node.taints, TaintOf(g, a));
    assert node.taints + [] == node.taints;
  }
}

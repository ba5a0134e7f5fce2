/** One PackLeft pass over the cached nodes: every balanceable node of a PackLeft assignment gets its
    state, every node without such an assignment loses the packleft attributes
    (pkg/controller/scheduling/packleft/manager.go). */
module PackLeftPass {
  import opened Cluster
  import opened Groups
  import opened Lists
  import opened Ranking
  import opened Reconciling
  import opened Settlement
  import Float32

  // ----- Assignments -----

  function AllAssignments(g: Group): seq<Assignment> {
    g.assignments + if g.fallback.Some? then [g.fallback.value] else []
  }

  /** The first assignment with that name. */
  function FirstNamed(assignments: seq<Assignment>, name: string): (r: Option<Assignment>)
    ensures r.Some? ==> r.value in assignments && r.value.name == name
    ensures r.None? ==> forall a :: a in assignments ==> a.name != name
  {
    if assignments == [] then None
    else if assignments[0].name == name then Some(assignments[0])
    else FirstNamed(assignments[1..], name)
  }

  /** The PackLeft assignment a node is labelled with. */
  function PackedAssignment(g: Group, node: Node): Option<Assignment> {
    if LabelOf(g, node).None? then None
    else
      var a := FirstNamed(AllAssignments(g), LabelOf(g, node).value);
      if a.Some? && a.value.packed then a else None
  }

  predicate HasPackLeftAssignment(g: Group, node: Node) {
    LabelOf(g, node).Some? && exists a :: a in AllAssignments(g) && a.name == LabelOf(g, node).value && a.packed
  }

  predicate HasPackLeftAttributes(g: Group, node: Node) {
    PackLeftKey(g.name) in node.labels || exists t :: t in node.taints && t.key == PackLeftKey(g.name)
  }

  /** Schedulable, and the first Ready condition says so. */
  function IsReady(conditions: seq<Condition>): bool {
    conditions != [] &&
    if conditions[0].kind == "Ready" then conditions[0].status == "True" else IsReady(conditions[1..])
  }

  predicate CanBeBalanced(status: Status) { !status.unschedulable && IsReady(status.conditions) }

  // ----- What a state writes -----

  function StateValue(s: PackState): string {
    match s case Use => "Use" case Avoid => "Avoid" case Deny => "Deny"
  }

  function StateTaints(g: Group, s: PackState): seq<Taint> {
    match s
    case Use => []
    case Avoid => [Taint(PackLeftKey(g.name), "Avoid", PreferNoSchedule)]
    case Deny => [Taint(PackLeftKey(g.name), "Deny", NoSchedule)]
  }

  /** Only the first taint with the key goes. */
  function WithoutFirst(taints: seq<Taint>, key: string): seq<Taint> {
    if taints == [] then []
    else if taints[0].key == key then taints[1..]
    else [taints[0]] + WithoutFirst(taints[1..], key)
  }

  function WithState(g: Group, s: PackState, node: Node): Node {
    Node(node.labels[PackLeftKey(g.name) := StateValue(s)],
         WithoutFirst(node.taints, PackLeftKey(g.name)) + StateTaints(g, s),
         node.status)
  }

  function WithoutState(g: Group, node: Node): Node {
    Node(node.labels - {PackLeftKey(g.name)}, WithoutFirst(node.taints, PackLeftKey(g.name)), node.status)
  }

  // ----- The nodes of one assignment -----

  function IsMember(g: Group, nodes: map<string, Node>, c: string): string -> bool {
    (n: string) => n in nodes && Targets(g, nodes[n].labels)
                   && PackedAssignment(g, nodes[n]).Some? && PackedAssignment(g, nodes[n]).value.name == c
  }

  /** Targeted nodes of PackLeft assignment c, in list order. */
  function Members(g: Group, order: seq<string>, nodes: map<string, Node>, c: string): seq<string> {
    Filter(IsMember(g, nodes, c), order)
  }

  function Balanceable(nodes: map<string, Node>): string -> bool {
    (n: string) => n in nodes && CanBeBalanced(nodes[n].status)
  }

  function FullnessAt(full: map<string, real>, n: string): real { if n in full then full[n] else 0.0 }

  function RankedNodes(names: seq<string>, full: map<string, real>): (r: seq<Ranked>)
    ensures |r| == |names|
    ensures forall i :: 0 <= i < |names| ==> r[i] == Ranked(names[i], FullnessAt(full, names[i]))
  {
    seq(|names|, i requires 0 <= i < |names| => Ranked(names[i], FullnessAt(full, names[i])))
  }

  /** Size of the buffer among n nodes: the larger of the percentage and the number, at least one. */
  function Buffer(a: Assignment, n: nat): (b: nat)
    ensures b >= 1
  {
    if a.packLeft.None? then 1
    else
      var share := if a.packLeft.value.percentAvoid.Some? then Float32.Percent(n, a.packLeft.value.percentAvoid.value) else 0;
      var larger := if a.packLeft.value.numAvoid > share then a.packLeft.value.numAvoid else share;
      if larger < 1 then 1 else larger
  }

  function FullLimit(a: Assignment): real {
    if a.packLeft.Some? && a.packLeft.value.fullPercent.Some? then a.packLeft.value.fullPercent.value as real / 100.0 else 0.8
  }

  /** The state of node n among the members of assignment a. */
  function StateAmong(names: seq<string>, nodes: map<string, Node>, full: map<string, real>, a: Assignment, n: string): PackState {
    StateByRank(Ranked(n, FullnessAt(full, n)), RankedNodes(Filter(Balanceable(nodes), names), full), FullLimit(a), Buffer(a, |names|))
  }

  // ----- The pass -----

  predicate IsPacked(g: Group, node: Node) {
    Targets(g, node.labels) && PackedAssignment(g, node).Some? && CanBeBalanced(node.status)
  }

  predicate IsCleaned(g: Group, node: Node) {
    !HasPackLeftAssignment(g, node) && HasPackLeftAttributes(g, node)
  }

  function StateIn(g: Group, order: seq<string>, nodes: map<string, Node>, full: map<string, real>, n: string): PackState
    requires n in nodes && PackedAssignment(g, nodes[n]).Some?
  {
    var a := PackedAssignment(g, nodes[n]).value;
    StateAmong(Members(g, order, nodes, a.name), nodes, full, a, n)
  }

  function PackedNode(g: Group, order: seq<string>, nodes: map<string, Node>, full: map<string, real>, n: string): Node
    requires n in nodes
  {
    if IsPacked(g, nodes[n]) then WithState(g, StateIn(g, order, nodes, full, n), nodes[n])
    else if IsCleaned(g, nodes[n]) then WithoutState(g, nodes[n])
    else nodes[n]
  }

  /** Every node after a pass without refused calls. */
  function Packed(g: Group, order: seq<string>, nodes: map<string, Node>, full: map<string, real>): map<string, Node> {
    map n | n in nodes :: PackedNode(g, order, nodes, full, n)
  }

  // ----- Main results -----

  /** Rebalancing and cleaning patch different nodes. */
  lemma {:induction false} PatchesAreDisjoint(g: Group, node: Node)
    ensures !(IsPacked(g, node) && IsCleaned(g, node))
  {
    hide HasPackLeftAttributes, Targets, CanBeBalanced, LabelOf;
  }

  function OwnTaints(g: Group, taints: seq<Taint>): seq<Taint> { Filter(HasKey(PackLeftKey(g.name)), taints) }

  function HasKey(key: string): Taint -> bool { (t: Taint) => t.key == key }

  lemma {:induction false} WithoutFirstOwn(taints: seq<Taint>, key: string)
    ensures var own := Filter(HasKey(key), taints);
            Filter(HasKey(key), WithoutFirst(taints, key)) == if own == [] then [] else own[1..]
  {
    if taints != [] {
      WithoutFirstOwn(taints[1..], key);
      if taints[0].key != key {
        var rest := WithoutFirst(taints[1..], key);
        assert ([taints[0]] + rest)[1..] == rest;
      }
    }
  }

  lemma {:induction false} StateTaintsAreOwn(g: Group, s: PackState)
    ensures OwnTaints(g, StateTaints(g, s)) == StateTaints(g, s)
  {
    FilterNone(HasKey(PackLeftKey(g.name)), StateTaints(g, s));
  }

  /** After the pass the label names the state, and the packleft taints are exactly those of the state
      if and only if there was at most one before. */
  lemma {:induction false} LabelAndTaintAgree(g: Group, s: PackState, node: Node)
    ensures var after := WithState(g, s, node);
            && PackLeftKey(g.name) in after.labels && after.labels[PackLeftKey(g.name)] == StateValue(s)
            && (OwnTaints(g, after.taints) == StateTaints(g, s) <==> |OwnTaints(g, node.taints)| <= 1)
  {
    hide StateTaints, PackLeftKey, WithoutFirst;
    WithoutFirstOwn(node.taints, PackLeftKey(g.name));
    StateTaintsAreOwn(g, s);
    FilterConcat(HasKey(PackLeftKey(g.name)), WithoutFirst(node.taints, PackLeftKey(g.name)), StateTaints(g, s));
  }

  lemma {:induction false} NoAttributesNoTaints(g: Group, node: Node)
    ensures HasPackLeftAttributes(g, node) <==> PackLeftKey(g.name) in node.labels || OwnTaints(g, node.taints) != []
  {
    FilterMembers(HasKey(PackLeftKey(g.name)), node.taints);
    if OwnTaints(g, node.taints) != [] {
      assert OwnTaints(g, node.taints)[0] in OwnTaints(g, node.taints);
    }
    hide PackLeftKey, Filter;
  }

  /** A cleaned node has no packleft attribute left if and only if it had at most one packleft taint. */
  lemma {:induction false} CleanedIsClean(g: Group, node: Node)
    ensures HasPackLeftAttributes(g, WithoutState(g, node)) <==> |OwnTaints(g, node.taints)| > 1
  {
    hide PackLeftKey, WithoutFirst, HasPackLeftAttributes;
    NoAttributesNoTaints(g, WithoutState(g, node));
    WithoutFirstOwn(node.taints, PackLeftKey(g.name));
  }

  /** If a node had at most one packleft taint, then after the pass its label and taint say the same state
      if it is balanced, and nothing is left of either if it has no PackLeft assignment. */
  lemma {:induction false} PassAgrees(g: Group, order: seq<string>, nodes: map<string, Node>, full: map<string, real>, n: string)
    requires n in nodes && |OwnTaints(g, nodes[n].taints)| <= 1
    ensures var after := Packed(g, order, nodes, full)[n];
            && (IsPacked(g, nodes[n]) ==>
                  && PackedAssignment(g, nodes[n]).Some?
                  && PackLeftKey(g.name) in after.labels
                  && after.labels[PackLeftKey(g.name)] == StateValue(StateIn(g, order, nodes, full, n))
                  && OwnTaints(g, after.taints) == StateTaints(g, StateIn(g, order, nodes, full, n)))
            && (!HasPackLeftAssignment(g, nodes[n]) ==> !HasPackLeftAttributes(g, after))
  {
    hide IsPacked, HasPackLeftAssignment, HasPackLeftAttributes, WithState, WithoutState, StateIn, StateTaints, StateValue, OwnTaints,
         PackLeftKey, PackedAssignment;
    PatchesAreDisjoint(g, nodes[n]);
    if IsPacked(g, nodes[n]) {
      PackedHasAssignment(g, nodes[n]);
      LabelAndTaintAgree(g, StateIn(g, order, nodes, full, n), nodes[n]);
      AssignedIsNamed(g, nodes[n]);
    } else if IsCleaned(g, nodes[n]) {
      CleanedIsClean(g, nodes[n]);
    }
  }

  lemma {:induction false} AssignedIsNamed(g: Group, node: Node)
    ensures PackedAssignment(g, node).Some? ==> HasPackLeftAssignment(g, node)
  {
    hide LabelOf, AllAssignments;
  }

  // ----- Other groups and the assignment label -----

  lemma {:induction false} WithoutFirstForeign(g: string, taints: seq<Taint>)
    ensures ForeignTaints(g, WithoutFirst(taints, PackLeftKey(g))) == ForeignTaints(g, taints)
  {
    if taints != [] {
      WithoutFirstForeign(g, taints[1..]);
      if taints[0].key != PackLeftKey(g) {
        var rest := WithoutFirst(taints[1..], PackLeftKey(g));
        assert ([taints[0]] + rest)[1..] == rest;
      }
    }
  }

  lemma {:induction false} StateTaintsNotForeign(g: Group, taints: seq<Taint>, s: PackState)
    ensures ForeignTaints(g.name, taints + StateTaints(g, s)) == ForeignTaints(g.name, taints)
  {
    if s == Use {
      assert taints + [] == taints;
    } else {
      FilterAppend(IsForeign(g.name), taints, StateTaints(g, s)[0]);
      assert taints + [StateTaints(g, s)[0]] == taints + StateTaints(g, s);
      assert ForeignTaints(g.name, taints) + [] == ForeignTaints(g.name, taints);
    }
  }

  lemma {:induction false} WithStateKeepsOthers(g: Group, s: PackState, node: Node)
    ensures SameOutside(g.name, node, WithState(g, s, node)) && LabelOf(g, WithState(g, s, node)) == LabelOf(g, node)
  {
    KeysAreDistinct(g.name, g.name);
    WithoutFirstForeign(g.name, node.taints);
    StateTaintsNotForeign(g, WithoutFirst(node.taints, PackLeftKey(g.name)), s);
    hide ForeignTaints, PackLeftKey, AssignmentKey, WithoutFirst, StateTaints, StateValue;
  }

  lemma {:induction false} WithoutStateKeepsOthers(g: Group, node: Node)
    ensures SameOutside(g.name, node, WithoutState(g, node)) && LabelOf(g, WithoutState(g, node)) == LabelOf(g, node)
  {
    KeysAreDistinct(g.name, g.name);
    WithoutFirstForeign(g.name, node.taints);
    hide ForeignTaints, PackLeftKey, AssignmentKey, WithoutFirst;
  }

  /** A pass leaves foreign labels and taints, and the assignment label, as they were. */
  lemma {:induction false} PackedKeepsOthers(g: Group, order: seq<string>, nodes: map<string, Node>, full: map<string, real>, n: string)
    requires n in nodes
    ensures SameOutside(g.name, nodes[n], PackedNode(g, order, nodes, full, n))
    ensures LabelOf(g, PackedNode(g, order, nodes, full, n)) == LabelOf(g, nodes[n])
  {
    hide IsPacked, IsCleaned, StateIn, WithState, WithoutState, ForeignTaints, LabelOf, GroupKeys;
    if IsPacked(g, nodes[n]) {
      PackedHasAssignment(g, nodes[n]);
      WithStateKeepsOthers(g, StateIn(g, order, nodes, full, n), nodes[n]);
    } else if IsCleaned(g, nodes[n]) {
      WithoutStateKeepsOthers(g, nodes[n]);
    }
  }

  // ----- Any order of the nodes -----

  lemma {:induction false} RankedDistinct(names: seq<string>, full: map<string, real>)
    requires Distinct(names)
    ensures Distinct(RankedNodes(names, full)) && DistinctRanked(RankedNodes(names, full))
    ensures forall x :: x in RankedNodes(names, full) <==> x.name in names && x.full == FullnessAt(full, x.name)
  {
    var r := RankedNodes(names, full);
    hide FullnessAt, RankedNodes;
    forall x: Ranked | x.name in names && x.full == FullnessAt(full, x.name) ensures x in r {
      var i :| 0 <= i < |names| && names[i] == x.name;
      assert r[i] == x;
    }
  }

  lemma {:induction false} FilterOfListing(p: string -> bool, order: seq<string>, order': seq<string>)
    requires Distinct(order) && Distinct(order') && forall n :: n in order <==> n in order'
    ensures Distinct(Filter(p, order)) && Distinct(Filter(p, order'))
    ensures forall n :: n in Filter(p, order) <==> n in Filter(p, order')
  {
    FilterDistinct(p, order);
    FilterDistinct(p, order');
    FilterMembers(p, order);
    FilterMembers(p, order');
    hide Filter, Distinct;
  }

  /** The state of a node among the members of its assignment is the same in whatever order the members are given. */
  lemma {:induction false} AmongIsOrderFree(names: seq<string>, names': seq<string>, nodes: map<string, Node>, full: map<string, real>,
                                            a: Assignment, n: string)
    requires Distinct(names) && Distinct(names') && forall m :: m in names <==> m in names'
    ensures StateAmong(names, nodes, full, a, n) == StateAmong(names', nodes, full, a, n)
  {
    var b, b' := Filter(Balanceable(nodes), names), Filter(Balanceable(nodes), names');
    FilterOfListing(Balanceable(nodes), names, names');
    SameElements(names, names');
    RankedDistinct(b, full);
    RankedDistinct(b', full);
    hide Filter, Distinct, DistinctRanked, StateByRank, Buffer, FullLimit, RankedNodes, FullnessAt;
    SameElements(RankedNodes(b, full), RankedNodes(b', full));
    StateIsOrderFree(Ranked(n, FullnessAt(full, n)), RankedNodes(b, full), RankedNodes(b', full), FullLimit(a), Buffer(a, |names|));
  }

  /** The pass has the same result for every order in which the cache lists the nodes. */
  lemma {:induction false} PassIsOrderFree(g: Group, order: seq<string>, order': seq<string>, nodes: map<string, Node>, full: map<string, real>)
    requires IsListing(order, nodes) && IsListing(order', nodes)
    ensures Packed(g, order, nodes, full) == Packed(g, order', nodes, full)
  {
    hide IsMember, IsPacked, IsCleaned, WithState, WithoutState, Distinct, StateAmong, PackedAssignment;
    forall n | n in nodes ensures PackedNode(g, order, nodes, full, n) == PackedNode(g, order', nodes, full, n) {
      if IsPacked(g, nodes[n]) {
        PackedHasAssignment(g, nodes[n]);
        var a := PackedAssignment(g, nodes[n]).value;
        FilterOfListing(IsMember(g, nodes, a.name), order, order');
        AmongIsOrderFree(Members(g, order, nodes, a.name), Members(g, order', nodes, a.name), nodes, full, a, n);
      }
    }
  }

  // ----- Repeating the pass -----

  lemma {:induction false} NoneToDrop(taints: seq<Taint>, key: string)
    requires forall x :: x in taints ==> x.key != key
    ensures WithoutFirst(taints, key) == taints
  {
    if taints != [] {
      assert taints[0] in taints;
      NoneToDrop(taints[1..], key);
    }
  }

  /** The taints from the first own one on. */
  function OwnFrom(taints: seq<Taint>, key: string): seq<Taint> {
    if taints == [] || taints[0].key == key then taints else OwnFrom(taints[1..], key)
  }

  lemma {:induction false} ShiftIsConstant(s: seq<Taint>, x: seq<Taint>)
    requires s != [] && |x| <= 1
    ensures (s[1..] + x == s) <==> (forall t :: t in s ==> x == [t])
  {
    if s[1..] + x == s {
      assert |x| == 1;
      ShiftMeansConstant(s, x[0]);
    }
    if forall t :: t in s ==> x == [t] {
      ConstantMeansShift(s, x);
    }
  }

  lemma {:induction false} ConstantMeansShift(s: seq<Taint>, x: seq<Taint>)
    requires s != [] && forall t :: t in s ==> x == [t]
    ensures s[1..] + x == s
  {
    assert s[0] in s;
    assert forall i :: 0 <= i < |s| ==> s[i] in s;
  }

  lemma {:induction false} ShiftMeansConstant(s: seq<Taint>, x: Taint)
    requires s != [] && s[1..] + [x] == s
    ensures forall t :: t in s ==> t == x
  {
    if |s| > 1 {
      assert s[1..] == s[1..][1..] + [x] by {
        assert forall i :: 0 <= i < |s| - 1 ==> s[i + 1] == (s[1..] + [x])[i] == s[i];
      }
      ShiftMeansConstant(s[1..], x);
      assert s[0] == (s[1..] + [x])[0] == s[1];
      assert s == [s[0]] + s[1..];
    } else {
      assert (s[1..] + [x])[0] == x;
    }
  }

  lemma {:induction false} DropAndAppend(v: seq<Taint>, key: string, x: seq<Taint>)
    requires |x| <= 1 && forall t :: t in x ==> t.key == key
    ensures (WithoutFirst(v + x, key) == v) <==> (forall t :: t in OwnFrom(v, key) ==> x == [t])
  {
    if v == [] {
      assert v + x == x;
    } else if v[0].key == key {
      assert (v + x)[1..] == v[1..] + x;
      ShiftIsConstant(v, x);
    } else {
      assert (v + x)[1..] == v[1..] + x;
      DropAndAppend(v[1..], key, x);
      assert v == [v[0]] + v[1..];
      var rest := WithoutFirst(v[1..] + x, key);
      assert ([v[0]] + rest)[1..] == rest;
    }
  }

  /** Every taint from the second own one on is the one the state puts. */
  predicate Settles(g: Group, s: PackState, taints: seq<Taint>) {
    forall t | t in OwnFrom(WithoutFirst(taints, PackLeftKey(g.name)), PackLeftKey(g.name)) :: StateTaints(g, s) == [t]
  }

  /** Writing a state twice is writing it once, exactly then. */
  lemma {:induction false} WithStateTwice(g: Group, s: PackState, node: Node)
    ensures (WithState(g, s, WithState(g, s, node)) == WithState(g, s, node)) <==> Settles(g, s, node.taints)
  {
    var key := PackLeftKey(g.name);
    var v, x := WithoutFirst(node.taints, key), StateTaints(g, s);
    assert node.labels[key := StateValue(s)][key := StateValue(s)] == node.labels[key := StateValue(s)];
    DropAndAppend(v, key, x);
    hide WithoutFirst, PackLeftKey, StateValue, StateTaints, OwnFrom;
    if WithoutFirst(v + x, key) + x == v + x {
      assert WithoutFirst(v + x, key) == (WithoutFirst(v + x, key) + x)[..|v|] == (v + x)[..|v|] == v;
    }
  }

  lemma {:induction false} OwnFromIsEmpty(taints: seq<Taint>, key: string)
    ensures OwnFrom(taints, key) == [] <==> Filter(HasKey(key), taints) == []
    ensures forall t :: t in OwnFrom(taints, key) ==> t in taints
    ensures OwnFrom(taints, key) != [] ==> OwnFrom(taints, key)[0].key == key
  {
    if taints != [] && taints[0].key != key {
      OwnFromIsEmpty(taints[1..], key);
    }
  }

  lemma {:induction false} AtMostOneSettles(g: Group, s: PackState, taints: seq<Taint>)
    requires |OwnTaints(g, taints)| <= 1
    ensures Settles(g, s, taints)
  {
    WithoutFirstOwn(taints, PackLeftKey(g.name));
    OwnFromIsEmpty(WithoutFirst(taints, PackLeftKey(g.name)), PackLeftKey(g.name));
    hide WithoutFirst, PackLeftKey, Filter, OwnFrom;
  }

  /** No two taints share key and effect, as the API server demands of a node. */
  predicate NoRepeats(taints: seq<Taint>) {
    forall i, j :: 0 <= i < j < |taints| ==> taints[i].key != taints[j].key || taints[i].effect != taints[j].effect
  }

  lemma {:induction false} RepeatAtEnd(v: seq<Taint>, t: Taint)
    requires t in v
    ensures !NoRepeats(v + [t])
  {
    var i :| 0 <= i < |v| && v[i] == t;
    assert (v + [t])[i] == t && (v + [t])[|v|] == t;
  }

  /** Where the API server can store the result, that means at most one own taint before. */
  lemma {:induction false} StorableSettles(g: Group, s: PackState, node: Node)
    requires NoRepeats(WithState(g, s, node).taints)
    ensures Settles(g, s, node.taints) <==> |OwnTaints(g, node.taints)| <= 1
  {
    var key := PackLeftKey(g.name);
    var v, x := WithoutFirst(node.taints, key), StateTaints(g, s);
    WithoutFirstOwn(node.taints, key);
    OwnFromIsEmpty(v, key);
    if Settles(g, s, node.taints) && OwnFrom(v, key) != [] {
      var t := OwnFrom(v, key)[0];
      assert t in OwnFrom(v, key);
      assert x == [t] && t in v;
      RepeatAtEnd(v, t);
      assert false;
    }
    hide WithoutFirst, PackLeftKey, Filter, OwnFrom, StateTaints;
    if |OwnTaints(g, node.taints)| <= 1 {
      AtMostOneSettles(g, s, node.taints);
    }
  }

  /** What the pass reads of two versions of a node is the same. */
  ghost predicate ReadsAlike(g: Group, x: Node, y: Node) {
    && (Targets(g, x.labels) <==> Targets(g, y.labels))
    && LabelOf(g, x) == LabelOf(g, y) && x.status == y.status
  }

  lemma {:induction false} PassReadsAlike(g: Group, order: seq<string>, nodes: map<string, Node>, full: map<string, real>, n: string)
    requires n in nodes && SelectsByOthers(g)
    ensures ReadsAlike(g, nodes[n], PackedNode(g, order, nodes, full, n))
  {
    hide PackedNode, Targets, LabelOf, GroupKeys, ForeignTaints;
    PackedKeepsOthers(g, order, nodes, full, n);
    SelectorIgnoresOwnKeys(g, nodes[n], PackedNode(g, order, nodes, full, n));
  }

  lemma {:induction false} SamePackedAssignment(g: Group, x: Node, y: Node)
    requires ReadsAlike(g, x, y)
    ensures PackedAssignment(g, x) == PackedAssignment(g, y)
    ensures IsPacked(g, x) <==> IsPacked(g, y)
    ensures HasPackLeftAssignment(g, x) <==> HasPackLeftAssignment(g, y)
  {
    hide Targets, LabelOf, FirstNamed, AllAssignments, CanBeBalanced;
  }

  lemma {:induction false} SameState(g: Group, order: seq<string>, nodes: map<string, Node>, nodes': map<string, Node>,
                                     full: map<string, real>, n: string)
    requires nodes.Keys == nodes'.Keys && n in nodes && PackedAssignment(g, nodes[n]).Some?
    requires forall m :: m in nodes ==> ReadsAlike(g, nodes[m], nodes'[m])
    ensures PackedAssignment(g, nodes'[n]) == PackedAssignment(g, nodes[n])
    ensures StateIn(g, order, nodes, full, n) == StateIn(g, order, nodes', full, n)
  {
    hide ReadsAlike, Targets, PackedAssignment, CanBeBalanced, StateByRank, RankedNodes, Buffer, FullLimit;
    SamePackedAssignment(g, nodes[n], nodes'[n]);
    var c := PackedAssignment(g, nodes[n]).value.name;
    forall m | m in order ensures IsMember(g, nodes, c)(m) <==> IsMember(g, nodes', c)(m) {
      if m in nodes {
        SamePackedAssignment(g, nodes[m], nodes'[m]);
        AlikeFacts(g, nodes[m], nodes'[m]);
      }
    }
    FilterSame(IsMember(g, nodes, c), IsMember(g, nodes', c), order);
    var names := Members(g, order, nodes, c);
    forall m | m in names ensures Balanceable(nodes)(m) <==> Balanceable(nodes')(m) {
      if m in nodes {
        AlikeFacts(g, nodes[m], nodes'[m]);
      }
    }
    FilterSame(Balanceable(nodes), Balanceable(nodes'), names);
    hide IsMember, Balanceable, Filter;
  }

  lemma {:induction false} AlikeFacts(g: Group, x: Node, y: Node)
    requires ReadsAlike(g, x, y)
    ensures (Targets(g, x.labels) <==> Targets(g, y.labels)) && x.status == y.status
  {
    hide Targets;
  }

  /** Whether repeating the pass leaves node n alone: its second own taint, if it has one, does not matter only
      where the pass does not write, or puts that very taint. */
  ghost predicate SettlesAt(g: Group, order: seq<string>, nodes: map<string, Node>, full: map<string, real>, n: string)
    requires n in nodes
  {
    && (IsPacked(g, nodes[n]) ==> PackedAssignment(g, nodes[n]).Some? && Settles(g, StateIn(g, order, nodes, full, n), nodes[n].taints))
    && (IsCleaned(g, nodes[n]) ==> |OwnTaints(g, nodes[n].taints)| <= 1)
  }

  lemma {:induction false} WithoutFirstShortens(taints: seq<Taint>, key: string)
    ensures Filter(HasKey(key), taints) != [] ==> |WithoutFirst(taints, key)| < |taints|
  {
    if taints != [] {
      WithoutFirstShortens(taints[1..], key);
    }
  }

  lemma {:induction false} CleaningTwice(g: Group, node: Node)
    ensures var once := WithoutState(g, node);
            (if HasPackLeftAttributes(g, once) then WithoutState(g, once) else once) == once <==> |OwnTaints(g, node.taints)| <= 1
  {
    var once := WithoutState(g, node);
    CleanedIsClean(g, node);
    NoAttributesNoTaints(g, once);
    WithoutFirstShortens(once.taints, PackLeftKey(g.name));
    hide PackLeftKey, WithoutFirst, HasPackLeftAttributes;
  }

  /** Repeating the pass changes nothing if and only if every node settles. */
  lemma {:induction false} PassTwice(g: Group, order: seq<string>, nodes: map<string, Node>, full: map<string, real>)
    requires SelectsByOthers(g)
    ensures (Packed(g, order, Packed(g, order, nodes, full), full) == Packed(g, order, nodes, full)) <==>
              (forall n :: n in nodes ==> SettlesAt(g, order, nodes, full, n))
  {
    hide PackedNode, ReadsAlike, SettlesAt, SelectsByOthers;
    var nodes' := Packed(g, order, nodes, full);
    forall n | n in nodes ensures ReadsAlike(g, nodes[n], nodes'[n]) {
      PassReadsAlike(g, order, nodes, full, n);
    }
    forall n | n in nodes
      ensures PackedNode(g, order, nodes', full, n) == nodes'[n] <==> SettlesAt(g, order, nodes, full, n)
    {
      NodeTwice(g, order, nodes, nodes', full, n);
    }
  }

  lemma {:induction false} NodeTwice(g: Group, order: seq<string>, nodes: map<string, Node>, nodes': map<string, Node>,
                                     full: map<string, real>, n: string)
    requires nodes.Keys == nodes'.Keys && n in nodes
    requires forall m :: m in nodes ==> ReadsAlike(g, nodes[m], nodes'[m])
    requires nodes'[n] == PackedNode(g, order, nodes, full, n)
    ensures PackedNode(g, order, nodes', full, n) == nodes'[n] <==> SettlesAt(g, order, nodes, full, n)
  {
    hide ReadsAlike, HasPackLeftAttributes, HasPackLeftAssignment, IsPacked, StateIn, WithState, WithoutState, OwnTaints, Settles, PackedAssignment;
    SamePackedAssignment(g, nodes[n], nodes'[n]);
    PatchesAreDisjoint(g, nodes[n]);
    if IsPacked(g, nodes[n]) {
      PackedHasAssignment(g, nodes[n]);
      SameState(g, order, nodes, nodes', full, n);
      WithStateTwice(g, StateIn(g, order, nodes, full, n), nodes[n]);
    } else if IsCleaned(g, nodes[n]) {
      CleaningTwice(g, nodes[n]);
    }
  }

  /** Where the API server can store what the pass writes, that means at most one packleft taint on every node
      the pass writes to. */
  lemma {:induction false} StorablePassTwice(g: Group, order: seq<string>, nodes: map<string, Node>, full: map<string, real>)
    requires SelectsByOthers(g)
    requires forall n :: n in nodes ==> NoRepeats(Packed(g, order, nodes, full)[n].taints)
    ensures (Packed(g, order, Packed(g, order, nodes, full), full) == Packed(g, order, nodes, full)) <==>
              (forall n :: n in nodes && (IsPacked(g, nodes[n]) || IsCleaned(g, nodes[n])) ==> |OwnTaints(g, nodes[n].taints)| <= 1)
  {
    hide PackedNode, OwnTaints, NoRepeats, SettlesAt, IsPacked, IsCleaned;
    PassTwice(g, order, nodes, full);
    forall n | n in nodes
      ensures SettlesAt(g, order, nodes, full, n) <==> ((IsPacked(g, nodes[n]) || IsCleaned(g, nodes[n])) ==> |OwnTaints(g, nodes[n].taints)| <= 1)
    {
      assert NoRepeats(Packed(g, order, nodes, full)[n].taints);
      StorableNode(g, order, nodes, full, n);
    }
  }

  lemma {:induction false} StorableNode(g: Group, order: seq<string>, nodes: map<string, Node>, full: map<string, real>, n: string)
    requires n in nodes && NoRepeats(PackedNode(g, order, nodes, full, n).taints)
    ensures SettlesAt(g, order, nodes, full, n) <==> ((IsPacked(g, nodes[n]) || IsCleaned(g, nodes[n])) ==> |OwnTaints(g, nodes[n].taints)| <= 1)
  {
    hide IsPacked, IsCleaned, StateIn, WithState, WithoutState, OwnTaints, Settles, PackedAssignment, NoRepeats;
    PatchesAreDisjoint(g, nodes[n]);
    if IsPacked(g, nodes[n]) {
      PackedHasAssignment(g, nodes[n]);
      StorableSettles(g, StateIn(g, order, nodes, full, n), nodes[n]);
    }
  }

  /** At most one packleft taint per node is enough in any case. */
  lemma {:induction false} AtMostOneIsEnough(g: Group, order: seq<string>, nodes: map<string, Node>, full: map<string, real>)
    requires SelectsByOthers(g)
    requires forall n :: n in nodes ==> |OwnTaints(g, nodes[n].taints)| <= 1
    ensures Packed(g, order, Packed(g, order, nodes, full), full) == Packed(g, order, nodes, full)
  {
    hide PackedNode, Packed, OwnTaints, SettlesAt;
    forall n | n in nodes ensures SettlesAt(g, order, nodes, full, n) {
      AtMostOneAt(g, order, nodes, full, n);
    }
    PassTwice(g, order, nodes, full);
  }

  lemma {:induction false} AtMostOneAt(g: Group, order: seq<string>, nodes: map<string, Node>, full: map<string, real>, n: string)
    requires n in nodes && |OwnTaints(g, nodes[n].taints)| <= 1
    ensures SettlesAt(g, order, nodes, full, n)
  {
    hide IsPacked, IsCleaned, StateIn, OwnTaints, Settles, PackedAssignment;
    if IsPacked(g, nodes[n]) {
      PackedHasAssignment(g, nodes[n]);
      AtMostOneSettles(g, StateIn(g, order, nodes, full, n), nodes[n].taints);
    }
  }

  lemma {:induction false} PackedHasAssignment(g: Group, node: Node)
    requires IsPacked(g, node)
    ensures PackedAssignment(g, node).Some?
  {
  }
}

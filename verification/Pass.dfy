/** The steps of a reconcile as functions on values: building the context, one step per targeted
    node, cleanup. Calls may be refused at any point, as the schedule `down` says. */
module Pass {
  import opened Cluster
  import opened Groups
  import opened Allocation
  import opened Plan

  /** What an API update can change: the stored nodes, the number of calls made so far, and the
      names of nodes unassigned in memory only. */
  datatype World = World(nodes: map<string, Node>, calls: nat, stale: set<string>)

  /** Sends the difference between two versions of a node, if there is one. */
  function Update(down: nat -> bool, w: World, name: string, before: Node, after: Node): (r: (World, bool))
    requires name in w.nodes
    ensures r.0.nodes.Keys == w.nodes.Keys && r.0.stale <= w.stale
  {
    if IsEmptyPatch(before, after) then (w.(stale := w.stale - {name}), true)
    else if down(w.calls) then (w.(calls := w.calls + 1), false)
    else (World(w.nodes[name := ApplyPatch(w.nodes[name], before, after)], w.calls + 1, w.stale - {name}), true)
  }

  // ----- Building the context -----

  predicate IsStray(g: Group, node: Node) {
    LabelOf(g, node).Some? && !Known(g, LabelOf(g, node).value)
  }

  /** A node labelled with an assignment the group no longer has is unassigned in memory. */
  function Admitted(g: Group, node: Node): Node {
    if IsStray(g, node) then Unassigned(g, node) else node
  }

  /** The targeted nodes in list order, with their in-memory versions. */
  datatype Context = Context(names: seq<string>, memory: seq<Node>, world: World, aborted: bool)

  ghost predicate IsContext(c: Context) {
    && |c.names| == |c.memory|
    && forall n :: n in c.names ==> n in c.world.nodes
  }

  /** Handles one listed node: target it, or evict it if it is labelled but no longer targeted.
      A refused eviction ends the listing. */
  function Admit(g: Group, down: nat -> bool, c: Context, name: string, listed: Node): (r: Context)
    requires name in c.world.nodes
    ensures r.world.nodes.Keys == c.world.nodes.Keys
    ensures IsContext(c) ==> IsContext(r)
  {
    var node := Admitted(g, listed);
    var world := if IsStray(g, listed) then c.world.(stale := c.world.stale + {name}) else c.world;
    if Targets(g, node.labels) then Context(c.names + [name], c.memory + [node], world, false)
    else if LabelOf(g, node).Some? then
      var (world', ok) := Update(down, world, name, node, Unassigned(g, node));
      Context(c.names, c.memory, world', !ok)
    else c.(world := world)
  }

  /** The context after the first i listed nodes. */
  function Build(g: Group, down: nat -> bool, order: seq<string>, start: World, i: nat): (c: Context)
    requires i <= |order| && forall n :: n in order ==> n in start.nodes
    ensures IsContext(c) && c.world.nodes.Keys == start.nodes.Keys
  {
    if i == 0 then Context([], [], start, false)
    else
      var c := Build(g, down, order, start, i - 1);
      assert order[i - 1] in order;
      if c.aborted then c else Admit(g, down, c, order[i - 1], start.nodes[order[i - 1]])
  }

  /** The context after the whole listing of a cluster. */
  function BuiltContext(g: Group, down: nat -> bool, order: seq<string>, nodes: map<string, Node>, calls: nat): (c: Context)
    requires forall n :: n in order ==> n in nodes
    ensures |c.memory| == |c.names| && c.world.nodes.Keys == nodes.Keys && forall n :: n in c.names ==> n in nodes
  {
    Build(g, down, order, World(nodes, calls, {}), |order|)
  }

  function LabelsOf(g: Group, nodes: seq<Node>): (r: seq<Option<string>>)
    ensures |r| == |nodes|
    ensures forall k :: 0 <= k < |nodes| ==> r[k] == LabelOf(g, nodes[k])
  {
    seq(|nodes|, k requires 0 <= k < |nodes| => LabelOf(g, nodes[k]))
  }

  /** Desired minus current for the first i assignments, without the zeros. Nodes on the default are not counted. */
  function InitialLedger(g: Group, labels: seq<Option<string>>, i: nat): map<string, int>
    requires i <= |g.assignments|
  {
    if i == 0 then map[]
    else
      var a := g.assignments[i - 1];
      var current := if FallbackName(g) == Some(a.name) then 0 else Total(labels, Some(a.name));
      var ledger := InitialLedger(g, labels, i - 1);
      if Desired(a, |labels|) != current then ledger[a.name := Desired(a, |labels|) - current] else ledger
  }

  // ----- The main loop -----

  /** State of the loop: API world, in-memory nodes, ledger, assignments handed out so far in order. */
  datatype Progress = Progress(world: World, memory: seq<Node>, ledger: map<string, int>, served: seq<string>, aborted: bool)

  /** Unassign node k in memory and count it as available. */
  function Release(g: Group, names: seq<string>, p: Progress, k: nat, from: string): (r: Progress)
    requires |p.memory| == |names| && k < |names|
    ensures r.world.nodes == p.world.nodes && |r.memory| == |names|
  {
    p.(memory := p.memory[k := Unassigned(g, p.memory[k])],
       world := p.world.(stale := p.world.stale + {names[k]}),
       ledger := Bump(p.ledger, from, 1))
  }

  /** Put node k on the default assignment, if there is one; a refused call ends the pass. */
  function UseFallback(g: Group, down: nat -> bool, names: seq<string>, p: Progress, k: nat): (r: Progress)
    requires |p.memory| == |names| && k < |names| && names[k] in p.world.nodes
    ensures r.world.nodes.Keys == p.world.nodes.Keys && |r.memory| == |names|
  {
    if LabelOf(g, p.memory[k]).None? && g.fallback.Some? then
      var (world, ok) := Update(down, p.world, names[k], p.memory[k], Assigned(g, g.fallback.value, p.memory[k]));
      p.(world := world, aborted := !ok)
    else p
  }

  /** Give node k to the first assignment that needs a node. A refused call falls through to the default. */
  function Place(g: Group, down: nat -> bool, names: seq<string>, p: Progress, k: nat): (r: Progress)
    requires |p.memory| == |names| && k < |names| && names[k] in p.world.nodes
    ensures r.world.nodes.Keys == p.world.nodes.Keys && |r.memory| == |names|
  {
    match FirstDue(g.assignments, p.ledger)
    case None => UseFallback(g, down, names, p, k)
    case Some(a) =>
      var (world, ok) := Update(down, p.world, names[k], p.memory[k], Assigned(g, a, p.memory[k]));
      if ok then p.(world := world, ledger := Bump(p.ledger, a.name, -1), served := p.served + [a.name])
      else UseFallback(g, down, names, p.(world := world), k)
  }

  function Step(g: Group, down: nat -> bool, names: seq<string>, p: Progress, k: nat): (r: Progress)
    requires |p.memory| == |names| && k < |names| && names[k] in p.world.nodes
    ensures r.world.nodes.Keys == p.world.nodes.Keys && |r.memory| == |names|
  {
    match LabelOf(g, p.memory[k])
    case None => Place(g, down, names, p, k)
    case Some(from) =>
      if Get(p.ledger, from) < 0 || FallbackName(g) == Some(from)
      then Place(g, down, names, Release(g, names, p, k, from), k)
      else p
  }

  /** The loop after its first k nodes. */
  function Run(g: Group, down: nat -> bool, names: seq<string>, start: Progress, k: nat): (p: Progress)
    requires k <= |names| && |start.memory| == |names| && forall n :: n in names ==> n in start.world.nodes
    ensures p.world.nodes.Keys == start.world.nodes.Keys && |p.memory| == |names|
  {
    if k == 0 then start
    else
      var p := Run(g, down, names, start, k - 1);
      assert names[k - 1] in names;
      if p.aborted then p else Step(g, down, names, p, k - 1)
  }

  /** The loop starts from the built context and a fresh ledger. */
  function Begin(g: Group, c: Context): (p: Progress)
    ensures p.memory == c.memory && p.world == c.world && !p.aborted
  {
    Progress(c.world, c.memory, InitialLedger(g, LabelsOf(g, c.memory), |g.assignments|), [], false)
  }

  // ----- Removing every trace -----

  /** Unassigns the first i listed nodes, whatever they carry, ignoring refusals. */
  function Sweep(g: Group, down: nat -> bool, order: seq<string>, start: World, i: nat): (w: World)
    requires i <= |order| && forall n :: n in order ==> n in start.nodes
    ensures w.nodes.Keys == start.nodes.Keys
  {
    if i == 0 then start
    else
      var w := Sweep(g, down, order, start, i - 1);
      assert order[i - 1] in order;
      Update(down, w, order[i - 1], start.nodes[order[i - 1]], Unassigned(g, start.nodes[order[i - 1]])).0
  }

  /** A refused List call leaves everything as it is. */
  function SweepAll(g: Group, down: nat -> bool, order: seq<string>, start: World): (w: World)
    requires forall n :: n in order ==> n in start.nodes
    ensures w.nodes.Keys == start.nodes.Keys
  {
    var listed := start.(calls := start.calls + 1);
    if down(start.calls) then listed else Sweep(g, down, order, listed, |order|)
  }

  // ----- Cleanup -----

  /** The nodes with the group's traces removed from those named. */
  function Cleaned(g: Group, nodes: map<string, Node>, names: set<string>): map<string, Node> {
    map n | n in nodes :: if n in names then Unassigned(g, nodes[n]) else nodes[n]
  }
}

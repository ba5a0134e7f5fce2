/** The manager of node assignment groups (pkg/controller/nodeassignment/manager.go), one call of which
    is one step of the life cycle. */
module NagManagers {
  import opened Cluster
  import opened Groups
  import opened Plan
  import opened Pass
  import opened Lists
  import opened Reconciling
  import opened ShortListings
  import opened Foresight
  import opened WriterContexts
  import opened Lifecycle
  import opened Utils

  /** The API's store of groups. `down` says which updates are refused. */
  class Store {
    var objects: map<string, Object>
    var calls: nat
    const down: nat -> bool

    constructor (objects: map<string, Object>, down: nat -> bool)
      ensures this.objects == objects && this.down == down && calls == 0
    {
      this.objects, this.down, calls := objects, down, 0;
    }

    method Update(o: Object) returns (ok: bool)
      modifies this
      ensures ok == !down(old(calls))
      ensures objects == if ok then old(objects)[o.group.name := o] else old(objects)
    {
      ok := !down(calls);
      calls := calls + 1;
      if ok {
        objects := objects[o.group.name := o];
      }
    }
  }

  class Manager {
    const api: ApiServer
    const store: Store

    constructor (api: ApiServer, store: Store)
      ensures this.api == api && this.store == store
    {
      this.api, this.store := api, store;
    }

    /** Handles one group from the queue. Refusals of the sweep of a deleted group and of the update that
        removes its finalizer are dropped. */
    method ReconcileNag(nag: Object) returns (ok: bool, ghost cleaned: set<string>, ghost accepted: bool)
      requires api.Valid() && nag.group.name in store.objects && store.objects[nag.group.name] == nag
      modifies api`nodes, api`calls, store
      ensures var before := State(old(store.objects), old(api.nodes));
              var step := NagStep(nag.group.name, api.order, api.down, old(api.calls), cleaned, accepted);
              Enabled(before, step) && State(store.objects, api.nodes) == Next(before, step)
      ensures nag.deleting ==> ok
      ensures !nag.deleting && NAG_FINALIZER !in nag.finalizers ==> ok == accepted
      ensures NoFault(api.down) && WellFormed(nag.group) && !nag.deleting && NAG_FINALIZER in nag.finalizers ==>
                ok && IsListing(api.order, old(api.nodes)) && api.nodes == Reconciled(nag.group, api.order, old(api.nodes))
      ensures !nag.deleting && NAG_FINALIZER in nag.finalizers && WellFormed(nag.group) ==>
                && IsListing(api.order, old(api.nodes))
                && (ok <==> Stop(nag.group, api.down, api.order, old(api.nodes), old(api.calls))
                              == |Seen(nag.group, api.down, api.order, old(api.nodes), old(api.calls))|)
                && (!ok ==> cleaned == {})
    {
      hide Build, Run, SweepAll, Begin, Distinct, HasTrace, Cleaned, NoFault, WellFormed, Reconciled, Stop, Seen, StoredAs, TakerOfSeen, Admitted;
      ApiListing();
      var nagWc := NewContext(nag.group);
      ok, cleaned, accepted := HandleNag(nag, nagWc, old(api.nodes), old(api.calls));
      if WellFormed(nag.group) {
        LoopForeseen(nag.group, api.down, api.order, old(api.nodes), old(api.calls));
      }
      if NoFault(api.down) && WellFormed(nag.group) {
        PassIsReconciled(nag.group, api.down, api.order, old(api.nodes), old(api.calls));
      }
    }

    method NewContext(g: Group) returns (nagWc: WriterContext)
      requires api.Valid()
      modifies api`nodes, api`calls
      ensures fresh(nagWc) && fresh(nagWc.targetedNodes) && nagWc.Valid() && nagWc.api == api && nagWc.nag == g
      ensures var c := Build(g, api.down, api.order, World(old(api.nodes), old(api.calls), {}), |api.order|);
              nagWc.names == c.names && nagWc.TheProgress(false) == Begin(g, c)
    {
      hide *;
      nagWc := new WriterContext(api, g);
      forall i | 0 <= i < |nagWc.targetedNodes| ensures fresh(nagWc.targetedNodes[i]) {
        var o := nagWc.targetedNodes[i];
        assert o in nagWc.targetedNodes && allocated(o);
      }
    }

    /** The part after the context is built, from nodes as they were before that. */
    method HandleNag(nag: Object, nagWc: WriterContext, ghost nodes: map<string, Node>, ghost calls: nat)
      returns (ok: bool, ghost cleaned: set<string>, ghost accepted: bool)
      requires nagWc.Valid() && nagWc.api == api && nagWc.nag == nag.group && api.Valid()
      requires nag.group.name in store.objects && store.objects[nag.group.name] == nag
      requires forall n :: n in api.order ==> n in nodes
      requires var c := Build(nag.group, api.down, api.order, World(nodes, calls, {}), |api.order|);
               nagWc.names == c.names && nagWc.TheProgress(false) == Begin(nag.group, c)
      modifies nagWc, nagWc.targetedNodes, api`nodes, api`calls, store
      ensures store.objects == old(store.objects)[nag.group.name := nag.(finalizers := NagFinalizers(nag, accepted))]
      ensures api.nodes == NagNodes(nag, NagStep(nag.group.name, api.order, api.down, calls, cleaned, accepted), nodes)
      ensures nag.deleting ==> ok
      ensures !nag.deleting && NAG_FINALIZER !in nag.finalizers ==> ok == accepted
      ensures !nag.deleting && NAG_FINALIZER in nag.finalizers ==>
                var c := Build(nag.group, api.down, api.order, World(nodes, calls, {}), |api.order|);
                var p := Run(nag.group, api.down, c.names, Begin(nag.group, c), |c.names|);
                ok == !p.aborted && (NoFault(api.down) && ok ==> cleaned == p.world.stale) && (!ok ==> cleaned == {})
    {
      hide Build, Run, SweepAll, InitialLedger, Cleaned, NoFault;
      cleaned, accepted := {}, true;
      if !nag.deleting {
        var added;
        added, ok := AddFinalizer(nag);
        accepted := ok;
        if ok && !added {
          ok, cleaned := nagWc.Reconcile();
        }
      } else {
        nagWc.UnassignAllNodes();
        accepted := RemoveFinalizer(nag.group.name);
        ok := true;
      }
    }

    lemma {:induction false} ApiListing()
      requires api.Valid()
      ensures IsListing(api.order, api.nodes)
    {
    }

    method AddFinalizer(nag: Object) returns (added: bool, ok: bool)
      requires nag.group.name in store.objects && store.objects[nag.group.name] == nag
      modifies store
      ensures NAG_FINALIZER in nag.finalizers ==> ok
      ensures added <==> ok && NAG_FINALIZER !in nag.finalizers
      ensures store.objects == old(store.objects)[nag.group.name := nag.(finalizers := WithFinalizer(nag.finalizers, NAG_FINALIZER, ok))]
    {
      for i := 0 to |nag.finalizers|
        invariant NAG_FINALIZER !in nag.finalizers[..i]
      {
        if nag.finalizers[i] == NAG_FINALIZER {
          return false, true;
        }
      }
      var result := store.objects[nag.group.name];
      ok := store.Update(result.(finalizers := result.finalizers + [NAG_FINALIZER]));
      added := ok;
    }

    method RemoveFinalizer(name: string) returns (ok: bool)
      requires name in store.objects && store.objects[name].group.name == name
      modifies store
      ensures var o := old(store.objects)[name];
              store.objects == old(store.objects)[name := if ok then o.(finalizers := Without(o.finalizers, NAG_FINALIZER)) else o]
    {
      var result := store.objects[name];
      var finalizers := FilterValues(result.finalizers, (v: string) => v != NAG_FINALIZER);
      WithoutIsFilter(result.finalizers, NAG_FINALIZER);
      ok := store.Update(result.(finalizers := finalizers));
    }
  }

  lemma {:induction false} WithoutIsFilter(finalizers: seq<string>, f: string)
    ensures Without(finalizers, f) == Filter((v: string) => v != f, finalizers)
  {
  }
}

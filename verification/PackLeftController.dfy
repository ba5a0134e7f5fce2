/** The PackLeft controller's callback (pkg/controller/scheduling/packleft/controller.go), one call of
    which is one step of the life cycle. */
module PackLeftControllers {
  import opened Cluster
  import opened Lists
  import opened Reconciling
  import opened PodIndex
  import opened PackLeftPass
  import opened PackLeftManagers
  import opened Lifecycle
  import opened Utils
  import NagManagers

  class Controller {
    const api: ApiServer
    const store: NagManagers.Store

    constructor (api: ApiServer, store: NagManagers.Store)
      ensures this.api == api && this.store == store
    {
      this.api, this.store := api, store;
    }

    /** Handles one group from the queue: rebalance and clean, or, on deletion, clean and let go. */
    method Process(nag: Object, pods: seq<Pod>) returns (ok: bool, ghost order: seq<string>, ghost done: set<string>, ghost accepted: bool)
      requires api.Valid() && (!nag.deleting ==> Sized(api.nodes))
      requires nag.group.name in store.objects && store.objects[nag.group.name] == nag
      modifies api`nodes, api`calls, store
      ensures var before := State(old(store.objects), old(api.nodes));
              var step := PackLeftStep(nag.group.name, order, FullnessOf(old(api.nodes), pods), done, accepted);
              Enabled(before, step) && State(store.objects, api.nodes) == Next(before, step)
      ensures nag.deleting && ok ==> accepted && done == CleanAllTarget(nag.group, old(api.nodes)).Keys
      ensures NoFault(api.down) && !nag.deleting ==>
                IsListing(api.order, old(api.nodes)) && api.nodes == Packed(nag.group, api.order, old(api.nodes), FullnessOf(old(api.nodes), pods))
    {
      hide Packed, CleanAllTarget, Overlay, FullnessOf, Sized, Distinct, HasTrace, NoFault;
      var plm := new PackLeftManagers.Manager(api, api.nodes, pods);
      order, accepted := api.order, false;
      ListedNodes();
      if nag.deleting {
        ok, done := plm.CleanAllNodes(nag.group);
        if ok {
          ok := RemoveFinalizer(nag.group.name);
          accepted := ok;
        }
      } else {
        accepted := EnsureFinalizer(nag);
        done, order := plm.RebalanceAndClean(nag.group);
        ok := true;
      }
    }

    lemma {:induction false} ListedNodes()
      requires api.Valid()
      ensures IsListing(api.order, api.nodes)
    {
    }

    method EnsureFinalizer(nag: Object) returns (ok: bool)
      requires nag.group.name in store.objects && store.objects[nag.group.name] == nag
      modifies store
      ensures store.objects == old(store.objects)[nag.group.name := nag.(finalizers := WithFinalizer(nag.finalizers, PACKLEFT_FINALIZER, ok))]
    {
      for i := 0 to |nag.finalizers|
        invariant PACKLEFT_FINALIZER !in nag.finalizers[..i]
      {
        if nag.finalizers[i] == PACKLEFT_FINALIZER {
          return true;
        }
      }
      var result := store.objects[nag.group.name];
      ok := store.Update(result.(finalizers := result.finalizers + [PACKLEFT_FINALIZER]));
    }

    method RemoveFinalizer(name: string) returns (ok: bool)
      requires name in store.objects && store.objects[name].group.name == name
      modifies store
      ensures var o := old(store.objects)[name];
              store.objects == old(store.objects)[name := if ok then o.(finalizers := Without(o.finalizers, PACKLEFT_FINALIZER)) else o]
    {
      var result := store.objects[name];
      var finalizers := FilterValues(result.finalizers, (v: string) => v != PACKLEFT_FINALIZER);
      NagManagers.WithoutIsFilter(result.finalizers, PACKLEFT_FINALIZER);
      ok := store.Update(result.(finalizers := finalizers));
    }
  }
}

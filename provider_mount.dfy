/** Mounting a DialogProvider (src/components/Dialog/DialogProvider.tsx): its
    first render creates the store, and its mount effect writes the store's
    three mutators into the global binding. The effect has no cleanup, so
    unmounting never clears the binding. */
module ProviderMount {
  import opened Base
  import opened DialogModel
  import opened Provider
  import opened GlobalDialog
  import Root
  import Renderer

  /** Mount a provider with the given `defaultZIndex` prop and run its binding
      effect; `ids` is the process-wide id source every store draws from. */
  method MountProvider(defaultZIndex: Option<int>, ids: IdSource, binding: DialogBinding) returns (store: DialogStore)
    modifies binding
    ensures fresh(store) && store.ids == ids
    ensures store.defaultZIndex == defaultZIndex.GetOr(DefaultZIndex)
    ensures store.dialogs == [] && store.committed == [] && store.Valid()
    ensures binding.context == store
  {
    store := new DialogStore(defaultZIndex, ids);
    binding.SetDialogContext(store);
  }

  /** A second provider silently rebinds the global gateway: dialog() then
      adds to the second store, and the first one stays empty. */
  method SecondProviderTakesOver(o: DialogOptions) returns (first: seq<DialogInstance>, second: seq<DialogInstance>)
    ensures first == [] && |second| == 1 && second[0].open
  {
    var ids := new IdSource();
    var binding := new DialogBinding();
    var p1 := MountProvider(None, ids, binding);
    var p2 := MountProvider(None, ids, binding);
    var r := binding.Dialog(o);
    first, second := p1.dialogs, p2.dialogs;
  }

  /** The whole path: a provider mounts, dialog() opens an instance on the
      empty store (open, z-index 50), the renderer mounts its root, a click on
      that root's overlay asks to close, the renderer removes the instance and
      calls the caller's onOpenChange once, with false. */
  method OpenThenDismissByOverlay(o: DialogOptions)
    returns (shown: seq<DialogInstance>, afterDismiss: seq<DialogInstance>, invoked: Option<Renderer.Invocation>)
    requires o.zIndex.None? && o.closeOnOverlayClick.None?
    ensures |shown| == 1 && shown[0].open && shown[0].zIndex == Some(DefaultZIndex)
    ensures afterDismiss == []
    ensures invoked == if o.onOpenChange.Some? then Some(Renderer.Invocation(o.onOpenChange.value, false)) else None
  {
    var binding := new DialogBinding();
    var ids := new IdSource();
    var store := MountProvider(None, ids, binding);
    var r := binding.Dialog(o);
    store.Commit();
    shown := store.dialogs;
    Renderer.OneRootPerInstance(shown);
    var root := Renderer.RenderDialogs(shown)[0];
    var request := Root.OverlayClick(root.props, true);
    invoked := Renderer.HandleOpenChange(store, shown[0], request.value);
    assert shown[1..] == [];
    afterDismiss := store.dialogs;
  }
}

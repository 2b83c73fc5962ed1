/** The hook gateway (src/hooks/useDialog.ts): the same capability as the
    global dialog(), taken from the nearest provider's context. The hook's
    `dialog` and `close` act on the store that context holds. */
module HookGateway {
  import opened Base
  import opened DialogModel
  import opened Provider
  import GlobalDialog

  /** useDialog(): throws outside a provider; otherwise the provider's own
      store, whose removeDialog and updateDialog it passes through. */
  method UseDialog(context: Option<DialogStore>) returns (r: Result<DialogStore>)
    ensures r.Err? <==> context.None?
    ensures r.Err? ==> r.error == NotWithinProvider
    ensures r.Ok? ==> r.value == context.value
  {
    r := UseDialogContext(context);
  }

  /** The hook's dialog(): one addDialog call with `open: true` and the
      options, returning the id addDialog produced. The record it builds is
      field for field the one the global dialog() builds, so both gateways
      share `GlobalDialog.GlobalPayload`. */
  method Open(store: DialogStore, o: DialogOptions) returns (h: DialogHandle)
    modifies store, store.ids
    ensures h.id == old(store.ids.next) && store.ids.next == old(store.ids.next) + 1
    ensures store.dialogs == old(store.dialogs)
              + [Instantiate(GlobalDialog.GlobalPayload(o), h.id, AssignedZIndex(o.zIndex, store.defaultZIndex, |old(store.committed)|))]
    ensures store.committed == old(store.committed)
    ensures old(store.Valid()) ==> store.Valid()
  {
    var id := store.AddDialog(GlobalDialog.GlobalPayload(o));
    h := DialogHandle(id);
  }

  /** The hook's close(): remove exactly that id. */
  method Close(store: DialogStore, h: DialogHandle)
    modifies store
    ensures store.dialogs == Without(old(store.dialogs), h.id)
    ensures store.committed == old(store.committed)
    ensures old(store.Valid()) ==> store.Valid()
  {
    store.RemoveDialog(h.id);
  }

  /** The two gateways are interchangeable: opening the same options on two
      equal fresh stores that draw from one id source, one through each
      gateway, gives records that are equal apart from their distinct ids. */
  method GatewaysOpenAlike(o: DialogOptions, defaultZIndex: Option<int>)
    returns (viaGlobal: seq<DialogInstance>, viaHook: seq<DialogInstance>)
    ensures |viaGlobal| == 1 && |viaHook| == 1
    ensures viaGlobal[0].id != viaHook[0].id
    ensures viaGlobal[0] == viaHook[0].(id := viaGlobal[0].id)
  {
    var ids := new IdSource();
    var first := new DialogStore(defaultZIndex, ids);
    var second := new DialogStore(defaultZIndex, ids);
    var binding := new GlobalDialog.DialogBinding();
    binding.SetDialogContext(first);
    var r := binding.Dialog(o);
    viaGlobal := first.dialogs;
    var h := Open(second, o);
    viaHook := second.dialogs;
  }
}

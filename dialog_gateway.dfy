/** The imperative gateway (src/dialog.ts): a process-wide binding to the
    mounted provider's mutators, which may be null, and the free-standing
    `dialog()` that opens a dialog through it.

    The binding `{ addDialog, removeDialog, updateDialog }` is modelled by a
    reference to the store those three functions close over. The `close`
    closure `dialog()` returns is `Close(handle)`: it reads the binding at
    the time it is called. */
module GlobalDialog {
  import opened Base
  import opened DialogModel
  import opened Provider

  /** The record dialog() passes to addDialog: `open: true`, every option copied. */
  function GlobalPayload(o: DialogOptions): (r: NewDialog)
    ensures r.open && OptionsOf(r) == o
  {
    NewDialog(o.content, true, o.zIndex, o.onOpenChange, o.closeOnOverlayClick, o.closeOnEscape,
              o.overlayClassName, o.contentClassName)
  }

  /** The module-level `dialogContextInstance`. */
  class DialogBinding {
    var context: DialogStore?

    /** At module load the binding is null. */
    constructor ()
      ensures context == null
    {
      context := null;
    }

    /** setDialogContext: the last writer wins. */
    method SetDialogContext(c: DialogStore?)
      modifies this
      ensures context == c
    {
      context := c;
    }

    /** dialog(): the configuration error while nothing is bound (and no
        change); otherwise one addDialog call with the options and
        `open: true`, returning the id addDialog produced. */
    method Dialog(o: DialogOptions) returns (r: Result<DialogHandle>)
      modifies if context == null then {} else {context, context.ids}
      ensures context == old(context)
      ensures context == null ==> r == Err(ProviderNotMounted)
      ensures context != null ==>
                && r.Ok? && r.value.id == old(context.ids.next)
                && context.ids.next == old(context.ids.next) + 1
                && context.committed == old(context.committed)
                && context.dialogs == old(context.dialogs)
                     + [Instantiate(GlobalPayload(o), r.value.id,
                                    AssignedZIndex(o.zIndex, context.defaultZIndex, |old(context.committed)|))]
                && (old(context.Valid()) ==> context.Valid())
    {
      if context == null {
        return Err(ProviderNotMounted);
      }
      var id := context.AddDialog(GlobalPayload(o));
      r := Ok(DialogHandle(id));
    }

    /** The returned `close`: remove that id from whatever store is bound
        now; nothing when the binding is null. */
    method Close(h: DialogHandle)
      modifies context
      ensures context == old(context)
      ensures context != null ==>
                && context.dialogs == Without(old(context.dialogs), h.id)
                && context.committed == old(context.committed)
                && (old(context.Valid()) ==> context.Valid())
    {
      if context != null {
        context.RemoveDialog(h.id);
      }
    }
  }

  /** Before any provider is bound, dialog() fails and nothing is opened. */
  method DialogBeforeProviderFails(o: DialogOptions) returns (r: Result<DialogHandle>)
    ensures r == Err(ProviderNotMounted)
  {
    var binding := new DialogBinding();
    r := binding.Dialog(o);
  }

  /** close() acts on the binding of the moment it is called: after the
      gateway is rebound, closing leaves the first store alone; with a null
      binding it does nothing. */
  method CloseUsesCurrentBinding(o: DialogOptions) returns (first: seq<DialogInstance>, second: seq<DialogInstance>)
    ensures |first| == 1 && second == []
  {
    var ids := new IdSource();
    var a := new DialogStore(None, ids);
    var b := new DialogStore(None, ids);
    var binding := new DialogBinding();
    binding.SetDialogContext(a);
    var r := binding.Dialog(o);
    binding.SetDialogContext(b);
    binding.Close(r.value);
    binding.SetDialogContext(null);
    binding.Close(r.value);
    first, second := a.dialogs, b.dialogs;
  }

  /** Ids come from one process-wide source, so a handle issued by one store
      never names another store's dialog: after a rebind, closing the old
      handle leaves the dialog opened through the new store in place. */
  method StaleHandleSparesNewStore(o: DialogOptions) returns (first: seq<DialogInstance>, second: seq<DialogInstance>)
    ensures |first| == 1 && |second| == 1 && second[0].open
    ensures first[0].id != second[0].id
  {
    var ids := new IdSource();
    var a := new DialogStore(None, ids);
    var b := new DialogStore(None, ids);
    var binding := new DialogBinding();
    binding.SetDialogContext(a);
    var stale := binding.Dialog(o);
    binding.SetDialogContext(b);
    var current := binding.Dialog(o);
    binding.Close(stale.value);
    first, second := a.dialogs, b.dialogs;
  }

  /** Open on an empty store with default stacking: one open instance with
      z-index 50 and the returned id; close() empties the store; a second
      close() leaves it empty. */
  method OpenAndCloseTwice(o: DialogOptions) returns (afterOpen: seq<DialogInstance>, afterClose: seq<DialogInstance>, afterSecondClose: seq<DialogInstance>, id: Id)
    requires o.zIndex.None?
    ensures |afterOpen| == 1 && afterOpen[0].id == id && afterOpen[0].open && afterOpen[0].zIndex == Some(DefaultZIndex)
    ensures afterClose == [] && afterSecondClose == []
  {
    var ids := new IdSource();
    var store := new DialogStore(None, ids);
    var binding := new DialogBinding();
    binding.SetDialogContext(store);
    var r := binding.Dialog(o);
    id := r.value.id;
    afterOpen := store.dialogs;
    binding.Close(r.value);
    afterClose := store.dialogs;
    assert afterOpen[1..] == [];
    binding.Close(r.value);
    afterSecondClose := store.dialogs;
  }
}

/** The dialog records and the context guard (src/components/Dialog/DialogContext.tsx).

    An optional property of the source is an `Option`. A `Partial` update keeps
    each property's own optionality one level up: `None` means the key is
    absent from the patch, `Some(v)` that the patch sets it (for an optional
    property `v` may itself be `None`, an explicit `undefined`).

    Ids are naturals handed out by the store's counter; the `content` payload
    and the caller's `onOpenChange` callback are opaque values the core never
    inspects. */
module DialogModel {
  import opened Base

  type Id = nat
  type Content = string
  type CallbackId = nat

  /** DialogInstance: `id` and `open` are required, everything else optional. */
  datatype DialogInstance = DialogInstance(
    id: Id,
    content: Content,
    open: bool,
    zIndex: Option<int>,
    onOpenChange: Option<CallbackId>,
    closeOnOverlayClick: Option<bool>,
    closeOnEscape: Option<bool>,
    overlayClassName: Option<string>,
    contentClassName: Option<string>)

  /** Omit<DialogInstance, 'id'>: what addDialog receives. */
  datatype NewDialog = NewDialog(
    content: Content,
    open: bool,
    zIndex: Option<int>,
    onOpenChange: Option<CallbackId>,
    closeOnOverlayClick: Option<bool>,
    closeOnEscape: Option<bool>,
    overlayClassName: Option<string>,
    contentClassName: Option<string>)

  /** Partial<DialogInstance>: what updateDialog receives. */
  datatype Patch = Patch(
    id: Option<Id>,
    content: Option<Content>,
    open: Option<bool>,
    zIndex: Option<Option<int>>,
    onOpenChange: Option<Option<CallbackId>>,
    closeOnOverlayClick: Option<Option<bool>>,
    closeOnEscape: Option<Option<bool>>,
    overlayClassName: Option<Option<string>>,
    contentClassName: Option<Option<string>>)

  /** The patch with no keys. */
  const EmptyPatch: Patch := Patch(None, None, None, None, None, None, None, None, None)

  /** DialogOptions, the argument of both dialog() functions (declared
      identically in src/dialog.ts and src/hooks/useDialog.ts). */
  datatype DialogOptions = DialogOptions(
    content: Content,
    zIndex: Option<int>,
    closeOnOverlayClick: Option<bool>,
    closeOnEscape: Option<bool>,
    overlayClassName: Option<string>,
    contentClassName: Option<string>,
    onOpenChange: Option<CallbackId>)

  /** `{ id, close }`, what both dialog() functions return; `close` is a
      method of the gateway that produced the handle. */
  datatype DialogHandle = DialogHandle(id: Id)

  /** The options a new-dialog record was built from (everything but `open`). */
  function OptionsOf(d: NewDialog): DialogOptions {
    DialogOptions(d.content, d.zIndex, d.closeOnOverlayClick, d.closeOnEscape,
                  d.overlayClassName, d.contentClassName, d.onOpenChange)
  }

  /** useDialogContext: the nearest provider's value, or the missing-provider
      error when the context still holds its default `null`. */
  function UseDialogContext<V>(context: Option<V>): (r: Result<V>)
    ensures r.Err? <==> context.None?
    ensures r.Err? ==> r.error == NotWithinProvider
    ensures r.Ok? ==> r.value == context.value
  {
    match context
    case None => Err(NotWithinProvider)
    case Some(v) => Ok(v)
  }
}

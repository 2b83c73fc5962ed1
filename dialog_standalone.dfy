/** The standalone, provider-free Dialog (src/components/Dialog/index.tsx).
    It differs from DialogRoot in three ways: `open` is optional and defaults
    to false; the z-index styles are set only for a truthy `zIndex`, so 0
    counts as absent; and its content's trap always receives `handleEscape`,
    which itself tests `closeOnEscape`. That trap is DialogContent's own,
    whose effect runs when the Portal has mounted the content, so Escape is
    heard from the first open commit on, where a DialogRoot needs a second
    commit. */
module Standalone {
  import opened Base
  import Overlay
  import FocusTrapping
  import Root

  datatype DialogProps = DialogProps(
    open: Option<bool>,
    hasOnOpenChange: bool,
    closeOnOverlayClick: Option<bool>,
    closeOnEscape: Option<bool>,
    overlayClassName: Option<string>,
    contentClassName: Option<string>,
    zIndex: Option<int>)

  /** `open = false` */
  function IsOpen(p: DialogProps): bool {
    p.open.GetOr(false)
  }

  /** `zIndex ? { zIndex } : undefined` and `zIndex ? { zIndex: zIndex + 1 } : undefined` */
  function TruthyLayers(zIndex: Option<int>): Root.Layers {
    if zIndex.Some? && zIndex.value != 0 then Root.Layers(Some(zIndex.value), Some(zIndex.value + 1))
    else Root.Layers(None, None)
  }

  function RenderDialog(p: DialogProps): Root.View {
    if !IsOpen(p) then Root.NotRendered
    else Root.Rendered(TruthyLayers(p.zIndex), Root.FlagOrTrue(p.closeOnOverlayClick), true,
                       p.overlayClassName, p.contentClassName)
  }

  /** useScrollLock(open) */
  function HoldsScrollLock(p: DialogProps): bool {
    IsOpen(p)
  }

  function OverlayClick(p: DialogProps, targetIsOverlay: bool): Option<bool> {
    if !IsOpen(p) then None
    else if Overlay.HandleClick(targetIsOverlay, Root.FlagOrTrue(p.closeOnOverlayClick)) == 1
    then Root.HandleClose(p.hasOnOpenChange)
    else None
  }

  /** DialogContent's trap is enabled whenever it is rendered, with `handleEscape`. */
  function KeyDown(p: DialogProps, key: string): Option<bool> {
    if IsOpen(p) && FocusTrapping.HandleEscapeKey(key, true) == 1
    then Root.HandleEscape(Root.FlagOrTrue(p.closeOnEscape), p.hasOnOpenChange)
    else None
  }

  /** The root props that mean the same dialog. */
  function AsRootProps(p: DialogProps): Root.RootProps {
    Root.RootProps(IsOpen(p), p.hasOnOpenChange, p.zIndex, p.closeOnOverlayClick, p.closeOnEscape,
                   p.overlayClassName, p.contentClassName)
  }

  /** Without an `open` prop nothing is rendered and no lock is taken. */
  lemma ClosedByDefault(p: DialogProps, targetIsOverlay: bool, key: string)
    requires p.open.None?
    ensures RenderDialog(p) == Root.NotRendered && !HoldsScrollLock(p)
    ensures OverlayClick(p, targetIsOverlay) == None && KeyDown(p, key) == None
  {
  }

  /** The truthiness test: a z-index of 0 is treated as absent. */
  lemma TruthyZIndexLayers(zIndex: Option<int>)
    ensures TruthyLayers(zIndex).overlay.Some? <==> zIndex.Some? && zIndex.value != 0
    ensures TruthyLayers(zIndex).overlay.Some? ==>
              TruthyLayers(zIndex) == Root.Layers(zIndex, Some(zIndex.value + 1))
    ensures TruthyLayers(Some(0)) == Root.Layers(None, None)
  {
  }

  /** The two components agree on the layers for every z-index except 0. */
  lemma LayersDifferOnlyAtZero(zIndex: Option<int>)
    ensures TruthyLayers(zIndex) == Root.RootLayers(zIndex) <==> zIndex != Some(0)
  {
  }

  /** Dismissal: the standalone dialog closes on exactly the same events as a
      settled root with the same props, although its escape test sits in
      handleEscape. */
  lemma DismissesLikeRoot(p: DialogProps, targetIsOverlay: bool, key: string)
    ensures OverlayClick(p, targetIsOverlay) == Root.OverlayClick(AsRootProps(p), targetIsOverlay)
    ensures KeyDown(p, key) == Root.KeyDown(AsRootProps(p), true, key)
    ensures HoldsScrollLock(p) == Root.HoldsScrollLock(AsRootProps(p))
  {
  }

  /** Where the two differ: right after the commit that opens them, Escape
      closes the standalone dialog but not a root with the same props. */
  lemma HeardBeforeAnyRootIs(p: DialogProps)
    requires IsOpen(p) && p.hasOnOpenChange && p.closeOnEscape.None?
    ensures KeyDown(p, FocusTrapping.Escape) == Some(false)
    ensures Root.KeyDown(AsRootProps(p), false, FocusTrapping.Escape) == None
  {
  }

  /** With the flags at their defaults an overlay click and Escape both close
      an open dialog that has a callback; with no callback nothing happens. */
  lemma DefaultFlagsDismiss(p: DialogProps, key: string)
    requires IsOpen(p) && p.closeOnOverlayClick.None? && p.closeOnEscape.None?
    ensures OverlayClick(p, true) == (if p.hasOnOpenChange then Some(false) else None)
    ensures KeyDown(p, FocusTrapping.Escape) == (if p.hasOnOpenChange then Some(false) else None)
  {
  }
}

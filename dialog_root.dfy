/** DialogRoot (src/components/Dialog/DialogRoot.tsx): the per-instance dialog
    the renderer mounts. It holds the scroll lock and the focus trap while
    `open`, renders nothing while closed, turns an overlay click or Escape
    into `onOpenChange(false)` according to its two flags (both default to
    true), and derives the overlay and content z-indices from `zIndex` with
    an `!== undefined` test.

    Two focus traps sit on the content: the root's own (enabled while
    `open`, with `handleEscape` as onEscape when `closeOnEscape`) and the one
    DialogContent runs on the same container (always enabled, no onEscape).
    The root's Portal renders nothing until its own mount effect has run, so
    at the commit that opens the root the content does not exist yet and the
    root's trap effect bails out; it registers its listeners only when it
    re-runs at a later commit. A root is `settled` when it was already
    rendered open at its previous commit: only then can Escape reach
    `handleEscape`. The class `RootInstance` follows one root across its
    commits and shows where that comes from.

    A dismissal is given as the value `onOpenChange` is called with, or
    `None` when it is not called. */
module Root {
  import opened Base
  import Overlay
  import FocusTrapping

  datatype RootProps = RootProps(
    open: bool,
    hasOnOpenChange: bool,
    zIndex: Option<int>,
    closeOnOverlayClick: Option<bool>,
    closeOnEscape: Option<bool>,
    overlayClassName: Option<string>,
    contentClassName: Option<string>)

  /** A boolean prop whose destructuring default is `true`. */
  function FlagOrTrue(f: Option<bool>): bool {
    f.GetOr(true)
  }

  /** The z-index of the overlay's and of the content's style, if any. */
  datatype Layers = Layers(overlay: Option<int>, content: Option<int>)

  /** The `zIndex !== undefined` spreads into the two styles. */
  function RootLayers(zIndex: Option<int>): Layers {
    if zIndex.Some? then Layers(Some(zIndex.value), Some(zIndex.value + 1)) else Layers(None, None)
  }

  /** What a dialog component renders: nothing, or the overlay (with or
      without a click handler) and the content (whose trap has or has not an
      escape handler). */
  datatype View =
    | NotRendered
    | Rendered(layers: Layers, overlayHasOnClick: bool, trapHasOnEscape: bool,
               overlayClassName: Option<string>, contentClassName: Option<string>)

  function RenderRoot(p: RootProps): View {
    if !p.open then NotRendered
    else Rendered(RootLayers(p.zIndex), FlagOrTrue(p.closeOnOverlayClick), FlagOrTrue(p.closeOnEscape),
                  p.overlayClassName, p.contentClassName)
  }

  /** useScrollLock(open) */
  function HoldsScrollLock(p: RootProps): bool {
    p.open
  }

  /** useFocusTrap(contentRef, open, ...) */
  function TrapEnabled(p: RootProps): bool {
    p.open
  }

  /** handleClose */
  function HandleClose(hasOnOpenChange: bool): Option<bool> {
    if hasOnOpenChange then Some(false) else None
  }

  /** handleEscape */
  function HandleEscape(closeOnEscape: bool, hasOnOpenChange: bool): Option<bool> {
    if closeOnEscape then HandleClose(hasOnOpenChange) else None
  }

  /** A click that reaches the rendered overlay. */
  function OverlayClick(p: RootProps, targetIsOverlay: bool): Option<bool> {
    if !p.open then None
    else if Overlay.HandleClick(targetIsOverlay, FlagOrTrue(p.closeOnOverlayClick)) == 1 then HandleClose(p.hasOnOpenChange)
    else None
  }

  /** A keydown reaching the document; `settled` says whether the root was
      already rendered open at its previous commit. */
  function KeyDown(p: RootProps, settled: bool, key: string): Option<bool> {
    if TrapEnabled(p) && settled && FocusTrapping.HandleEscapeKey(key, FlagOrTrue(p.closeOnEscape)) == 1
    then HandleEscape(FlagOrTrue(p.closeOnEscape), p.hasOnOpenChange)
    else None
  }

  /** A defined z-index, 0 included, goes to the overlay and one more to the
      content; an undefined one gives neither style a z-index. */
  lemma DefinedZIndexLayers(zIndex: Option<int>)
    ensures RootLayers(zIndex).overlay.Some? <==> zIndex.Some?
    ensures RootLayers(zIndex).content.Some? <==> zIndex.Some?
    ensures zIndex.Some? ==> RootLayers(zIndex).overlay == zIndex && RootLayers(zIndex).content == Some(zIndex.value + 1)
    ensures RootLayers(Some(0)) == Layers(Some(0), Some(1))
  {
  }

  /** While closed a root renders nothing, holds no lock, traps nothing and ignores every event. */
  lemma ClosedRootIsInert(p: RootProps, settled: bool, targetIsOverlay: bool, key: string)
    requires !p.open
    ensures RenderRoot(p) == NotRendered && !HoldsScrollLock(p) && !TrapEnabled(p)
    ensures OverlayClick(p, targetIsOverlay) == None && KeyDown(p, settled, key) == None
  {
  }

  /** Lock and trap are engaged exactly while open. */
  lemma EngagedExactlyWhileOpen(p: RootProps)
    ensures HoldsScrollLock(p) <==> p.open
    ensures TrapEnabled(p) <==> p.open
    ensures RenderRoot(p).Rendered? <==> p.open
  {
  }

  /** Every dismissal asks to close, never to open. */
  lemma DismissalsOnlyClose(p: RootProps, settled: bool, targetIsOverlay: bool, key: string)
    ensures OverlayClick(p, targetIsOverlay) in {None, Some(false)}
    ensures KeyDown(p, settled, key) in {None, Some(false)}
  {
  }

  /** An overlay click closes exactly when the root is open, the click is on
      the overlay itself, `closeOnOverlayClick` is on (default) and there is a callback. */
  lemma OverlayClickClosesIff(p: RootProps, targetIsOverlay: bool)
    ensures OverlayClick(p, targetIsOverlay) == Some(false)
            <==> p.open && targetIsOverlay && FlagOrTrue(p.closeOnOverlayClick) && p.hasOnOpenChange
  {
  }

  /** Escape closes exactly when the root is open and settled, `closeOnEscape`
      is on (default) and there is a callback; a root opened by the last
      commit ignores every key, and with the flag off the trap has no escape
      handler at all. */
  lemma EscapeClosesIff(p: RootProps, settled: bool, key: string)
    ensures KeyDown(p, settled, key) == Some(false)
            <==> p.open && settled && key == FocusTrapping.Escape && FlagOrTrue(p.closeOnEscape) && p.hasOnOpenChange
    ensures !settled ==> KeyDown(p, settled, key) == None
    ensures RenderRoot(p).Rendered? ==> (RenderRoot(p).trapHasOnEscape <==> FlagOrTrue(p.closeOnEscape))
  {
  }

  /** Whether the root's trap effect runs again at a commit with props `p`
      after one with props `last`: its dependencies are `open`, the (stable)
      content ref and `closeOnEscape ? handleEscape : undefined`, where
      `handleEscape` is a new closure at every render. */
  function EffectReruns(last: RootProps, p: RootProps): bool {
    p.open != last.open || FlagOrTrue(p.closeOnEscape) || FlagOrTrue(last.closeOnEscape)
  }

  /** One mounted DialogRoot across its commits. */
  class RootInstance {
    const contentTrap: FocusTrapping.FocusTrap  // DialogContent's trap on the content
    const rootTrap: FocusTrapping.FocusTrap     // the root's own trap on the same content
    var committed: bool                         // at least one commit has happened
    var props: RootProps                        // props of the last commit
    var settled: bool                           // rendered open at the commit before the last
    var portalMounted: bool                     // the Portal's `mounted` state

    /** The root's trap holds a document listener that calls handleEscape. */
    predicate Armed()
      reads this, rootTrap
    {
      rootTrap.listening && rootTrap.hasOnEscape
    }

    predicate Valid()
      reads this, contentTrap, rootTrap
    {
      && contentTrap != rootTrap
      && (portalMounted <==> committed && props.open)
      && contentTrap.listening == portalMounted && !contentTrap.hasOnEscape
      && (rootTrap.listening ==> portalMounted && rootTrap.hasOnEscape == FlagOrTrue(props.closeOnEscape))
      && (Armed() <==> props.open && settled && FlagOrTrue(props.closeOnEscape))
    }

    /** Before the first commit nothing listens. */
    constructor ()
      ensures Valid() && !committed && !Armed() && !contentTrap.listening
      ensures fresh(contentTrap) && fresh(rootTrap)
      ensures contentTrap.focusCalls == [] && rootTrap.focusCalls == []
      ensures contentTrap.escapeCalls == 0 && rootTrap.escapeCalls == 0
    {
      contentTrap := new FocusTrapping.FocusTrap();
      rootTrap := new FocusTrapping.FocusTrap();
      committed, settled, portalMounted := false, false, false;
      props := RootProps(false, false, None, None, None, None, None);
    }

    /** One commit with props `p`: a closed root unmounts its Portal and with
        it the content's trap; the root's trap effect re-runs when its
        dependencies changed, and can register only if the content already
        exists; a Portal that has just mounted renders the content in a
        follow-up render, whose trap focuses the first of its `focusable`
        elements. The root's trap focuses that element again at every re-run. */
    method Render(p: RootProps, focusable: nat)
      requires Valid()
      modifies this, contentTrap, rootTrap
      ensures Valid()
      ensures committed && props == p && portalMounted == p.open
      ensures settled == old(committed && props.open)
      ensures Armed() <==> p.open && old(committed && props.open) && FlagOrTrue(p.closeOnEscape)
      ensures contentTrap.listening <==> p.open
      ensures rootTrap.focusCalls == old(rootTrap.focusCalls)
                + (if (!old(committed) || EffectReruns(old(props), p)) && p.open && old(portalMounted) && focusable > 0
                   then [0] else [])
      ensures contentTrap.focusCalls == old(contentTrap.focusCalls)
                + (if p.open && !old(portalMounted) && focusable > 0 then [0] else [])
      ensures rootTrap.escapeCalls == old(rootTrap.escapeCalls) && contentTrap.escapeCalls == old(contentTrap.escapeCalls)
    {
      var rerun := !committed || EffectReruns(props, p);
      if !p.open && portalMounted {
        contentTrap.Cleanup();
      }
      if rerun {
        rootTrap.Cleanup();
        rootTrap.Activate(p.open, p.open && portalMounted, focusable, FlagOrTrue(p.closeOnEscape));
      }
      if p.open && !portalMounted {
        contentTrap.Activate(true, true, focusable, false);
      }
      settled := portalMounted;
      portalMounted := p.open;
      committed := true;
      props := p;
    }

    /** One keydown: DialogContent's Tab listener (registered first), then
        the root's on the focus the first one left, and the document Escape
        listeners. `request` is the onOpenChange call it causes. */
    method Dispatch(key: string, shift: bool, active: Option<nat>) returns (prevented: bool, request: Option<bool>)
      requires Valid()
      modifies contentTrap, rootTrap
      ensures Valid()
      ensures request == KeyDown(props, settled, key)
      ensures rootTrap.escapeCalls == old(rootTrap.escapeCalls) + (if Armed() && key == FocusTrapping.Escape then 1 else 0)
      ensures contentTrap.escapeCalls == old(contentTrap.escapeCalls)
      ensures key != FocusTrapping.Tab || !contentTrap.listening ==>
                !prevented && contentTrap.focusCalls == old(contentTrap.focusCalls)
                && rootTrap.focusCalls == old(rootTrap.focusCalls)
      ensures var first := FocusTrapping.HandleTabKey(key, shift, active, contentTrap.size);
              contentTrap.listening && rootTrap.size == contentTrap.size ==>
                && prevented == first.preventDefault
                && contentTrap.focusCalls == old(contentTrap.focusCalls) + FocusTrapping.FocusCalls(first)
                && forall i :: |old(rootTrap.focusCalls)| <= i < |rootTrap.focusCalls| ==>
                     Some(rootTrap.focusCalls[i]) == first.focusTo
    {
      var first := FocusTrapping.HandleTabKey(key, shift, active, contentTrap.size);
      var byContent := contentTrap.KeyDown(key, shift, active);
      var activeNow := if contentTrap.listening && first.focusTo.Some? then first.focusTo else active;
      FocusTrapping.SecondTabListenerAgrees(key, shift, active, contentTrap.size);
      var before := rootTrap.escapeCalls;
      var byRoot := rootTrap.KeyDown(key, shift, activeNow);
      prevented := byContent || byRoot;
      request := if rootTrap.escapeCalls > before
                 then HandleEscape(FlagOrTrue(props.closeOnEscape), props.hasOnOpenChange)
                 else None;
    }

    /** Unmounting runs every cleanup: neither trap listens afterwards. */
    method Unmount()
      requires Valid()
      modifies contentTrap, rootTrap
      ensures !contentTrap.listening && !rootTrap.listening && !Armed()
      ensures contentTrap.focusCalls == old(contentTrap.focusCalls) && rootTrap.focusCalls == old(rootTrap.focusCalls)
      ensures contentTrap.escapeCalls == old(contentTrap.escapeCalls) && rootTrap.escapeCalls == old(rootTrap.escapeCalls)
    {
      contentTrap.Cleanup();
      rootTrap.Cleanup();
    }
  }

  /** An open root with default flags and a callback: right after the commit
      that opens it, Escape does nothing (only the content's trap listens, and
      it has no onEscape); after one more commit with the same props the
      root's trap listens and Escape asks to close. The first element is
      focused by the content's trap on mount and again by the root's trap at
      the second commit. */
  method EscapeNeedsSecondCommit(p: RootProps) returns (afterOpen: Option<bool>, afterRerender: Option<bool>, focused: seq<nat>)
    requires p.open && p.hasOnOpenChange && p.closeOnEscape.None?
    ensures afterOpen == None && afterRerender == Some(false)
    ensures focused == [0, 0]
  {
    var root := new RootInstance();
    root.Render(p, 2);
    var prevented;
    assert FocusTrapping.Escape != FocusTrapping.Tab;
    prevented, afterOpen := root.Dispatch(FocusTrapping.Escape, false, None);
    root.Render(p, 2);
    prevented, afterRerender := root.Dispatch(FocusTrapping.Escape, false, None);
    focused := root.contentTrap.focusCalls + root.rootTrap.focusCalls;
  }
}

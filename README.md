# react-headless-overlay: a verified model of the dialog core

This project models the core of react-headless-overlay, a headless React dialog
library, in Dafny.

- **Scroll lock.** A process-wide, reference-counted scroll lock manager. The first
  lock saves the body's `overflow` and `paddingRight`, hides overflow and pads by
  the scrollbar width. The last unlock restores what was saved. `useScrollLock` is
  an effect keyed on `locked` that takes one lock and releases it in its cleanup.
- **Focus trap.** On activation it focuses the first focusable element. Tab wraps
  around at the two ends of the focusable list, and Escape calls `onEscape`.
  Inside a `DialogRoot` two traps share the content: the root's own and the
  one `DialogContent` runs.
- **Dialog store.** The provider's dialog store: `addDialog`, `removeDialog`,
  `updateDialog`. The automatic z-index is `defaultZIndex` plus the committed list
  length. The provider publishes the three mutators to a module-level binding.
- **Gateways.** Two ways to open a dialog: the global `dialog()`, which fails while
  no provider is bound, and the `useDialog` hook, which fails outside a provider.
  Both open with `open: true` and return an id and a `close`.
- **Renderer and roots.** The renderer mounts one `DialogRoot` per instance, in
  list order. Its `onOpenChange` removes the instance on `false`, re-marks it open
  on `true`, and forwards the call to the caller's callback. A `DialogRoot` holds
  the lock and the trap while open, and closes on an overlay click or Escape
  according to two flags that default to true. The overlay only reacts to clicks
  on itself. The root renders through a `Portal` that shows nothing until its
  own mount effect has run.
- **Standalone dialog.** The provider-free `Dialog`: closed by default, and its
  z-index styles apply only to a truthy `zIndex`.

## How the model is built

Each core file is one module, with two exceptions:
- `Base` models no file. It holds the optional value and the error result that
  every module shares.
- `src/components/Dialog/DialogProvider.tsx` is split into two modules:
  - `Provider` holds the store.
  - `ProviderMount` holds the mount effect that binds the global gateway.

  The mount effect needs `GlobalDialog` (`src/dialog.ts`), which itself needs
  the store. One module for both would make a module cycle.

Every module is imported by name. There are no nested modules.

State that the source mutates in place is a class. The methods of each class are
specified against pure functions on values, and the promised properties are
lemmas about those functions:

- `ScrollLockManager` holds the lock count, the saved styles and the body's two
  styles. Its methods are specified against `Lock`, `Unlock`, `Reset` and `Run`.
- `ScrollLockHook` holds the key of the last effect run.
- `FocusTrap` holds whether its listeners are registered, and records the focus
  and `onEscape` calls it made.
- `IdSource` is one process-wide id counter standing for `crypto.randomUUID`;
  every store draws from it, so ids are unique across stores.
- `DialogStore` holds the dialog list, the committed list (`dialogsRef.current`)
  and the id source. Its methods are specified against `Without` and `Updated`.
- `RootInstance` follows one mounted `DialogRoot` across its commits: both focus
  traps, the props of the last commit and the Portal's `mounted` state.
- `DialogBinding` holds the nullable global binding.

Event handlers and render decisions are functions. A handler that calls a
callback returns the value it calls the callback with, or `None` when it makes no
call.

Five behaviours of the code differ from its stated design. The model follows the
code:

- **Automatic stacking is not monotone.**
  - The automatic z-index reads `dialogsRef.current.length`. That ref only catches
    up with the list in the effect after a commit.
  - Two dialogs opened before a commit both get `defaultZIndex`
    (`Provider.OpenTwiceBeforeCommit`).
  - After removals, a newer dialog can sit below an older one
    (`Provider.NewerDialogCanStackBelowOlder`).
  - Dialogs opened one by one with a commit in between do stack up
    (`Provider.OpenedInTurnStackUp`).
- **A dialog opened through the store ignores its first Escape.**
  - At the commit that opens a root, its Portal has not mounted the content yet,
    so the root's trap effect finds no container and bails out. The content's own
    trap then registers, but it has no `onEscape`.
  - The root's trap re-runs, and registers `handleEscape`, only at the next
    commit, because `handleEscape` is a new closure at every render
    (`Root.EscapeNeedsSecondCommit`, `Root.RootInstance.Render`). Each such
    re-run also moves focus back to the first element.
  - So Escape reaches only roots that were already rendered open at the previous
    commit. The model calls such a root settled (`Root.EscapeClosesIff`,
    `Renderer.FreshDialogIgnoresEscape`). The
    standalone `Dialog` hears it from the start (`Standalone.HeardBeforeAnyRootIs`).
- **Escape is not scoped to the top dialog.** The design asks for an escape
  stack, where only the topmost open overlay handles Escape. In the code, every
  settled root's trap registers its own `document` keydown listener, so one
  Escape press dismisses every one of them whose escape flag is on
  (`Renderer.EscapeDismissesEverySettledDialog`).
  With a dialog B just opened from A, one Escape closes A and leaves B open
  (`Renderer.NestedEscapeClosesOnlyTheOuter`).
- **An unmounted provider stays bound.** The provider's binding effect has no
  cleanup, so after the provider unmounts `dialog()` still reaches the old store.
  A second provider silently takes over the binding
  (`ProviderMount.SecondProviderTakesOver`).
- **`close()` does not notify.** The `close` that `dialog()` returns only removes
  the instance (`GlobalDialog.DialogBinding.Close`). It never calls the caller's
  `onOpenChange`; only a dismissal through the renderer does
  (`Renderer.HandleOpenChange`).

The store, the gateways and the renderer keep the code's behaviour. Two intended
rules are defined beside them, with their properties proved (see "## Findings"):
- on-top stacking (`Provider.OnTopZIndex`);
- Escape scoped to the top open dialog (`Renderer.ScopedEscapeTargets`).

## Model

| member | source | states |
|---|---|---|
| ScrollLocking.DecimalDigits | src/utils/scrollLockManager.ts:27 | the scrollbar width is written as canonical decimal digits, with no leading zero except for 0 itself, whose value is the width |
| ScrollLocking.PixelLength | src/utils/scrollLockManager.ts:27 | the padding written for a width is exactly the width's canonical decimal digits followed by "px" |
| ScrollLocking.CanonicalIsDecimalDigits | src/utils/scrollLockManager.ts:27 | every canonical digit string is the formatting of its own value, so the formatting is one-to-one |
| ScrollLocking.Lock | src/utils/scrollLockManager.ts:4-29 | the state after lockScroll; its properties are stated by FirstLockSavesAndHides, LaterLocksOnlyCount, WithoutDocumentNothingChanges and UnlockUndoesLock |
| ScrollLocking.Unlock | src/utils/scrollLockManager.ts:31-47 | the state after unlockScroll; its properties are stated by LastUnlockRestores, StrayUnlockChangesNothing and UnlockUndoesLock |
| ScrollLocking.Reset | src/utils/scrollLockManager.ts:49-56 | the state after resetScrollLock; its properties are stated by ResetUnlocks and OperationsKeepConsistent |
| ScrollLocking.Initial | src/utils/scrollLockManager.ts:1-2 | at module load nothing is locked or saved, and the lock invariant holds with or without a document |
| ScrollLocking.FirstLockSavesAndHides | src/utils/scrollLockManager.ts:9-28 | the first lock counts 1, saves the body's two styles, hides overflow, and pads by the width only when the width is positive |
| ScrollLocking.LaterLocksOnlyCount | src/utils/scrollLockManager.ts:9-14 | a lock while already locked only increments the count |
| ScrollLocking.LastUnlockRestores | src/utils/scrollLockManager.ts:36-46 | releasing the last lock restores the saved styles and forgets them |
| ScrollLocking.StrayUnlockChangesNothing | src/utils/scrollLockManager.ts:36-41 | an unlock with nothing held keeps the count at zero and changes no style |
| ScrollLocking.WithoutDocumentNothingChanges | src/utils/scrollLockManager.ts:5-7 | without a document, lock and unlock (same guard at lines 32-34) leave the state exactly as it was |
| ScrollLocking.ResetUnlocks | src/utils/scrollLockManager.ts:49-56 | reset zeroes the count, and restores and forgets the saved styles exactly when there is a document and styles were saved |
| ScrollLocking.OperationsKeepConsistent | src/utils/scrollLockManager.ts:4-56 | lock, unlock and reset keep the invariant: styles are saved exactly while a lock is held, the body is hidden while locked, and nothing is locked without a document |
| ScrollLocking.UnlockUndoesLock | src/utils/scrollLockManager.ts:4-47 | from any consistent state an unlock exactly undoes the lock before it |
| ScrollLocking.NestedLocksStayHidden | src/utils/scrollLockManager.ts:9-46 | lock, lock, unlock leaves the page locked once and hidden; the next unlock gives back the state before the first lock |
| ScrollLocking.RunKeepsConsistent | src/utils/scrollLockManager.ts:4-47 | any sequence of manager calls keeps the invariant |
| ScrollLocking.CountTracksHeldLocks | src/utils/scrollLockManager.ts:4-47 | started unlocked, calls that never over-release leave the count equal to locks minus unlocks: hidden with the original styles saved while it is positive, the initial state when it is zero |
| ScrollLocking.WithoutDocumentRunChangesNothing | src/utils/scrollLockManager.ts:5-7 | without a document no sequence of calls changes anything |
| ScrollLocking.ScrollLockManager.constructor | src/utils/scrollLockManager.ts:1-2 | the manager starts in the initial state over the given body styles |
| ScrollLocking.ScrollLockManager.LockScroll | src/utils/scrollLockManager.ts:4-29 | the new state is `Lock` of the old one, and the invariant is kept |
| ScrollLocking.ScrollLockManager.UnlockScroll | src/utils/scrollLockManager.ts:31-47 | the new state is `Unlock` of the old one, and the invariant is kept |
| ScrollLocking.ScrollLockManager.ResetScrollLock | src/utils/scrollLockManager.ts:49-56 | the new state is `Reset` of the old one, and the invariant is kept |
| ScrollLockEffect.CommitCalls | src/utils/useScrollLock.ts:6-15 | the manager calls of one commit; stated by CommitMovesCountByKey and HookHoldsOneLockWhileLocked |
| ScrollLockEffect.UnmountCalls | src/utils/useScrollLock.ts:9-11 | the manager calls of an unmount; stated by MountedLifetimeIsBalanced |
| ScrollLockEffect.CommitMovesCountByKey | src/utils/useScrollLock.ts:6-15 | one commit moves the count by the change of the effect key: minus one for a pending cleanup, plus one for a locked effect, nothing when the key is unchanged |
| ScrollLockEffect.HookHoldsOneLockWhileLocked | src/utils/useScrollLock.ts:5-16 | over any sequence of renders, the hook holds exactly one lock while its latest `locked` is true and none otherwise |
| ScrollLockEffect.MountedLifetimeIsBalanced | src/utils/useScrollLock.ts:9-11 | renders followed by unmount leave the lock count where it was |
| ScrollLockEffect.ScrollLockHook.constructor | src/utils/useScrollLock.ts:5 | a new hook has run no effect |
| ScrollLockEffect.ScrollLockHook.Commit | src/utils/useScrollLock.ts:6-15 | the manager's new state is the old one after the commit's calls (cleanup, then lock, only when the key changed) |
| ScrollLockEffect.ScrollLockHook.Unmount | src/utils/useScrollLock.ts:9-11 | unmounting runs the pending cleanup, if there is one |
| ScrollLockEffect.NestedDialogsKeepPageLocked | src/utils/useScrollLock.ts:5-16 | closing an inner dialog keeps the page locked and hidden; closing the outer one restores the initial styles |
| FocusTrapping.HandleEscapeKey | src/utils/useFocusTrap.ts:40-44 | `onEscape` is called at most once, and exactly when the key is Escape and a handler exists |
| FocusTrapping.HandleTabKey | src/utils/useFocusTrap.ts:22-38 | the Tab listener's decision; stated by TabWrapsExactlyAtTheEnds, OtherKeysPassThrough, SingleElementKeepsFocus and ThreeElements |
| FocusTrapping.TabWrapsExactlyAtTheEnds | src/utils/useFocusTrap.ts:22-38 | the Tab listener intervenes exactly on Tab from the last element or Shift+Tab from the first, and then focuses the opposite end |
| FocusTrapping.OtherKeysPassThrough | src/utils/useFocusTrap.ts:23-25 | keys other than Tab are neither prevented nor refocused |
| FocusTrapping.SingleElementKeepsFocus | src/utils/useFocusTrap.ts:22-38 | with one focusable element, Tab and Shift+Tab keep focus on it |
| FocusTrapping.ThreeElements | src/utils/useFocusTrap.ts:22-38 | with three elements, Tab wraps from the last to the first and Shift+Tab from the first to the last; Tab in the middle passes through |
| FocusTrapping.SecondTabListenerAgrees | src/utils/useFocusTrap.ts:22-38 | a second Tab listener over the same elements, run on the focus the first one left, never prevents a key the first let through and never focuses anything the first did not |
| FocusTrapping.FocusTrap.constructor | src/utils/useFocusTrap.ts:4 | a new trap listens to nothing and has made no call |
| FocusTrapping.FocusTrap.Activate | src/utils/useFocusTrap.ts:6-47 | disabled or unmounted changes nothing; otherwise the first element is focused when one exists and both listeners are registered |
| FocusTrapping.FocusTrap.KeyDown | src/utils/useFocusTrap.ts:22-47 | while listening, one keydown prevents and refocuses as the Tab rule says and calls `onEscape` as the Escape rule says; otherwise it does nothing |
| FocusTrapping.FocusTrap.Cleanup | src/utils/useFocusTrap.ts:49-52 | cleanup removes both listeners and changes nothing else |
| FocusTrapping.TrapLifecycle | src/utils/useFocusTrap.ts:5-53 | activation focuses the first element, Tab on the last wraps back to it, Escape calls onEscape once, and after cleanup no key is prevented |
| DialogModel.UseDialogContext | src/components/Dialog/DialogContext.tsx:24-30 | the missing-provider error exactly when no provider value is present; otherwise the provider's value unchanged |
| Provider.Instantiate | src/components/Dialog/DialogProvider.tsx:47 | the appended record: the payload with the new id and the assigned z-index; stated by DialogStore.AddDialog and RemoveUndoesAdd |
| Provider.Without | src/components/Dialog/DialogProvider.tsx:55 | the filter of removeDialog; stated by WithoutKeepsExactlyOthers, WithoutDistributes, WithoutAbsentId, RemoveIsIdempotent and RemovalsCommute |
| Provider.Merge | src/components/Dialog/DialogProvider.tsx:59 | the spread `{ ...dialog, ...updates }`; stated by MergeLaws |
| Provider.Updated | src/components/Dialog/DialogProvider.tsx:59 | the map of updateDialog; stated by UpdatedPointwise, UpdateAbsentIdChangesNothing, UpdateIsIdempotent and UpdateKeepsIds |
| Provider.AssignedZIndex | src/components/Dialog/DialogProvider.tsx:45 | an explicit z-index, 0 included, is kept; otherwise the default plus the committed list length |
| Provider.WithoutKeepsExactlyOthers | src/components/Dialog/DialogProvider.tsx:55 | removal keeps exactly the instances with another id |
| Provider.WithoutDistributes | src/components/Dialog/DialogProvider.tsx:55 | removal distributes over concatenation, so survivors keep their order |
| Provider.WithoutAbsentId | src/components/Dialog/DialogProvider.tsx:55 | removing an id that no instance has changes nothing |
| Provider.RemoveIsIdempotent | src/components/Dialog/DialogProvider.tsx:54-56 | removing the same id twice equals removing it once |
| Provider.RemovalsCommute | src/components/Dialog/DialogProvider.tsx:54-56 | two removals give the same list in either order |
| Provider.RemoveUndoesAdd | src/components/Dialog/DialogProvider.tsx:42-56 | removing the instance just appended under a fresh id gives back the previous list |
| Provider.WithoutKeepsIdsValid | src/components/Dialog/DialogProvider.tsx:54-56 | removal keeps ids unique and below the counter |
| Provider.WithoutKeepsUnique | src/components/Dialog/DialogProvider.tsx:55 | removal keeps ids unique |
| Provider.UpdatedPointwise | src/components/Dialog/DialogProvider.tsx:59 | update keeps the length and order, merges the patch into the instances with that id, and leaves every other instance untouched |
| Provider.MergeLaws | src/components/Dialog/DialogProvider.tsx:59 | each of the nine keys present in the patch wins and each absent one keeps the instance's value; the empty patch changes nothing; merging the same patch twice equals merging it once |
| Provider.UpdateAbsentIdChangesNothing | src/components/Dialog/DialogProvider.tsx:58-60 | updating an absent id changes nothing |
| Provider.UpdateIsIdempotent | src/components/Dialog/DialogProvider.tsx:58-60 | repeating any update, one that moves the id included, changes nothing more |
| Provider.UpdateKeepsIds | src/components/Dialog/DialogProvider.tsx:58-60 | an update whose patch sets no id keeps every id in place |
| Provider.OpenedInTurnStackUp | src/components/Dialog/DialogProvider.tsx:42-52 | dialogs opened one by one, each followed by a commit, get consecutive z-indices from the default plus the list length and consecutive ids; earlier instances are untouched |
| Provider.DialogStore.constructor | src/components/Dialog/DialogProvider.tsx:34-36 | the store starts empty with default z-index 50 unless one is given |
| Provider.DialogStore.Commit | src/components/Dialog/DialogProvider.tsx:38-40 | after a commit the ref holds the current list, and nothing else changes |
| Provider.DialogStore.AddDialog | src/components/Dialog/DialogProvider.tsx:42-52 | a fresh id is returned and one instance is appended with that id and the z-index rule applied; ids stay unique |
| Provider.DialogStore.RemoveDialog | src/components/Dialog/DialogProvider.tsx:54-56 | the list becomes `Without` of the old one, and ids stay valid |
| Provider.DialogStore.UpdateDialog | src/components/Dialog/DialogProvider.tsx:58-60 | the list becomes `Updated` of the old one; ids stay valid when the patch sets no id |
| Provider.OpenTwiceBeforeCommit | src/components/Dialog/DialogProvider.tsx:45 | two dialogs opened without a commit in between both get z-index 50 |
| Provider.NewerDialogCanStackBelowOlder | src/components/Dialog/DialogProvider.tsx:36-47 | after removals, a newer automatic dialog gets a lower z-index (51) than an older one (52) |
| Provider.TopZIndex | src/components/Dialog/DialogProvider.tsx:45 | the highest z-index of a list: present exactly when some instance has one, an upper bound of all of them, and attained |
| Provider.OnTopZIndex | src/components/Dialog/DialogProvider.tsx:45 | the corrected rule: an explicit z-index wins; otherwise at least the default and above every dialog already in the list, queued ones included |
| Provider.OpenOnTop | src/components/Dialog/DialogProvider.tsx:42-52 | dialogs opened one after another under the corrected rule; stated by OnTopStacksConsecutively |
| Provider.OnTopStacksConsecutively | src/components/Dialog/DialogProvider.tsx:45 | under the corrected rule, automatic dialogs get strictly consecutive z-indices from the default, with or without a commit in between |
| Provider.OnTopOpenTwiceBeforeCommit | src/components/Dialog/DialogProvider.tsx:45 | under the corrected rule, two dialogs opened before a commit get 50 and 51 |
| Provider.OnTopNewerDialogStaysAbove | src/components/Dialog/DialogProvider.tsx:45 | under the corrected rule, the removals that put a newer dialog below an older one leave it above |
| Provider.IdSource.constructor | src/components/Dialog/DialogProvider.tsx:44 | the process-wide id source starts at 0 |
| Provider.IdSource.Fresh | src/components/Dialog/DialogProvider.tsx:44 | each call returns an id never returned before, to any store |
| Provider.ForeignIdChangesNothing | src/components/Dialog/DialogProvider.tsx:54-60 | an id a store never issued removes and updates nothing there |
| Provider.DialogStore.AddDialogOnTop | src/components/Dialog/DialogProvider.tsx:42-52 | the corrected addDialog: a fresh id, one instance appended with the on-top z-index, ids stay valid |
| Provider.OpenEachInTurn | src/components/Dialog/DialogProvider.tsx:38-52 | opening dialogs through addDialog with a commit after each leaves the store holding exactly OpenInTurn of its old list, with the ids issued in turn |
| Provider.OpenEachOnTop | src/components/Dialog/DialogProvider.tsx:42-52 | opening dialogs through the corrected add with no commit leaves the store holding exactly OpenOnTop of its old list, with the ids issued in turn |
| Provider.InTurnStoreStacksUp | src/components/Dialog/DialogProvider.tsx:38-52 | on an empty store, automatic dialogs each followed by a commit get 50, 51, ... and the ids issued in turn |
| Provider.OnTopStoreStacksConsecutively | src/components/Dialog/DialogProvider.tsx:45 | on an empty store, automatic dialogs opened through the corrected add get 50, 51, ... with no commit in between |
| GlobalDialog.GlobalPayload | src/dialog.ts:59-68 | dialog() asks for an open instance carrying exactly the given options |
| GlobalDialog.DialogBinding.constructor | src/dialog.ts:5-9 | the binding starts null |
| GlobalDialog.DialogBinding.SetDialogContext | src/dialog.ts:11-13 | the last write wins |
| GlobalDialog.DialogBinding.Dialog | src/dialog.ts:54-78 | with no binding it returns the not-mounted error and changes nothing; otherwise it appends one open instance to the bound store and returns its fresh id |
| GlobalDialog.DialogBinding.Close | src/dialog.ts:70-72 | close removes that id from the store bound at call time, and does nothing when unbound |
| GlobalDialog.DialogBeforeProviderFails | src/dialog.ts:55-57 | dialog() before any provider is bound fails |
| GlobalDialog.CloseUsesCurrentBinding | src/dialog.ts:70-72 | after a rebind, close() leaves the first store's dialog alone; with a null binding it does nothing |
| GlobalDialog.StaleHandleSparesNewStore | src/dialog.ts:70-72 | after a rebind, close() with the old handle leaves the dialog opened through the new store in place |
| GlobalDialog.OpenAndCloseTwice | src/dialog.ts:54-78 | open on an empty store gives one open instance with z-index 50; close empties the store; a second close keeps it empty |
| HookGateway.UseDialog | src/hooks/useDialog.ts:15-16 | outside a provider the hook fails with the provider error; inside one it acts on that provider's store |
| HookGateway.Open | src/hooks/useDialog.ts:18-38 | one open instance carrying exactly the options (the same record as the global dialog()) is appended under a fresh id, which is returned |
| HookGateway.Close | src/hooks/useDialog.ts:30-32 | close removes exactly that id |
| HookGateway.GatewaysOpenAlike | src/hooks/useDialog.ts:18-38 | on two equal fresh stores drawing from one id source, the two gateways give records that are equal apart from their distinct ids |
| ProviderMount.MountProvider | src/components/Dialog/DialogProvider.tsx:62-64 | a mounted provider creates a fresh empty store and binds the global gateway to it |
| ProviderMount.SecondProviderTakesOver | src/components/Dialog/DialogProvider.tsx:62-64 | after a second provider mounts, dialog() adds to the second store and the first stays empty |
| ProviderMount.OpenThenDismissByOverlay | src/components/Dialog/DialogRenderer.tsx:33-39 | dialog(), then an overlay click on the rendered root: the store is empty again and the caller's onOpenChange (if any) is called once, with false |
| Overlay.HandleClick | src/components/Dialog/DialogOverlay.tsx:10-14 | onClick is called at most once, and exactly for a click whose target is the overlay element itself when a handler exists |
| Root.RootLayers | src/components/Dialog/DialogRoot.tsx:50-69 | the overlay and content z-indices; stated by DefinedZIndexLayers and Standalone.LayersDifferOnlyAtZero |
| Root.RenderRoot | src/components/Dialog/DialogRoot.tsx:46-82 | what a root renders; stated by ClosedRootIsInert, EngagedExactlyWhileOpen and EscapeClosesIff |
| Root.HandleClose | src/components/Dialog/DialogRoot.tsx:31-35 | the onOpenChange(false) call an enabled dismissal makes; stated by DismissalsOnlyClose |
| Root.HandleEscape | src/components/Dialog/DialogRoot.tsx:37-41 | handleEscape tests the flag before closing; stated by EscapeClosesIff |
| Root.OverlayClick | src/components/Dialog/DialogRoot.tsx:73-77 | a click on a root's overlay; stated by OverlayClickClosesIff and ClosedRootIsInert |
| Root.KeyDown | src/components/Dialog/DialogRoot.tsx:37-44 | a keydown at a root that is or is not settled; stated by EscapeClosesIff and linked to the mounted root by RootInstance.Dispatch |
| Root.DefinedZIndexLayers | src/components/Dialog/DialogRoot.tsx:50-69 | a defined z-index, 0 included, goes to the overlay and one more to the content; an undefined one sets neither |
| Root.ClosedRootIsInert | src/components/Dialog/DialogRoot.tsx:43-48 | a closed root renders nothing, holds no lock, traps nothing and ignores clicks and keys |
| Root.EngagedExactlyWhileOpen | src/components/Dialog/DialogRoot.tsx:43-48 | the lock, the trap and rendering are on exactly while open |
| Root.DismissalsOnlyClose | src/components/Dialog/DialogRoot.tsx:31-41 | a dismissal only ever calls onOpenChange(false) |
| Root.OverlayClickClosesIff | src/components/Dialog/DialogRoot.tsx:73-77 | an overlay click closes exactly when the root is open, the click is on the overlay itself, the flag is on (default true) and a callback exists |
| Root.EscapeClosesIff | src/components/Dialog/DialogRoot.tsx:37-44 | Escape closes exactly when the root is open and was already rendered open at its previous commit, the flag is on (default true) and a callback exists; a root opened by the last commit ignores every key; with the flag off the trap gets no escape handler |
| Root.EffectReruns | src/utils/useFocusTrap.ts:53 | the dependency comparison of the root's trap effect, with `handleEscape` new at every render; stated through RootInstance.Render |
| Root.RootInstance.constructor | src/components/Dialog/DialogRoot.tsx:29 | before its first commit a root listens to nothing and has made no call |
| Root.RootInstance.Render | src/components/Dialog/DialogRoot.tsx:43-82 | after one commit the root listens for Escape exactly when it is open now and was open at the previous commit with the flag on; the content's trap listens exactly while open and focuses the first element when it mounts; the root's trap focuses it again at each re-run; no Escape call is made |
| Root.RootInstance.Dispatch | src/utils/useFocusTrap.ts:22-47 | a keydown asks to close exactly as KeyDown says for the last props and the settled flag; keys other than Tab move no focus; with equal element lists the two Tab listeners prevent and focus as one |
| Root.RootInstance.Unmount | src/utils/useFocusTrap.ts:49-52 | after unmounting neither trap listens |
| Root.EscapeNeedsSecondCommit | src/components/Dialog/DialogRoot.tsx:44 | a root opened by one commit ignores Escape; after a second commit with the same props Escape closes it; the first element was focused twice |
| Standalone.TruthyLayers | src/components/Dialog/index.tsx:48-49 | the truthiness test on `zIndex`; stated by TruthyZIndexLayers and LayersDifferOnlyAtZero |
| Standalone.RenderDialog | src/components/Dialog/index.tsx:44-62 | what the standalone dialog renders; stated by ClosedByDefault |
| Standalone.OverlayClick | src/components/Dialog/index.tsx:32-36 | a click on its overlay; stated by DismissesLikeRoot and DefaultFlagsDismiss |
| Standalone.KeyDown | src/components/Dialog/index.tsx:38-58 | a keydown at the standalone dialog; stated by DismissesLikeRoot, HeardBeforeAnyRootIs and DefaultFlagsDismiss |
| Standalone.ClosedByDefault | src/components/Dialog/index.tsx:20-46 | without an `open` prop the dialog renders nothing, takes no lock and ignores events |
| Standalone.TruthyZIndexLayers | src/components/Dialog/index.tsx:48-49 | z-index styles are set only for a non-zero z-index |
| Standalone.LayersDifferOnlyAtZero | src/components/Dialog/index.tsx:48-49 | the standalone dialog and DialogRoot agree on layers exactly when the z-index is not 0 |
| Standalone.DismissesLikeRoot | src/components/Dialog/index.tsx:30-58 | overlay clicks, Escape and the scroll lock behave exactly as for a settled DialogRoot with the same props |
| Standalone.HeardBeforeAnyRootIs | src/components/Dialog/index.tsx:58 | right after opening, Escape closes the standalone dialog but not a DialogRoot with the same props |
| Standalone.DefaultFlagsDismiss | src/components/Dialog/index.tsx:24-25 | with default flags, an overlay click and Escape both close an open dialog that has a callback |
| Renderer.RootFor | src/components/Dialog/DialogRenderer.tsx:30-48 | the root of one instance; stated by OneRootPerInstance |
| Renderer.RenderDialogs | src/components/Dialog/DialogRenderer.tsx:29-49 | the renderer's list of roots; stated by OneRootPerInstance and RenderingFollowsOrder |
| Renderer.OneRootPerInstance | src/components/Dialog/DialogRenderer.tsx:29-48 | one root per instance, in order, keyed by id, with every prop and the content forwarded unchanged |
| Renderer.RenderingFollowsOrder | src/components/Dialog/DialogRenderer.tsx:29 | rendering distributes over concatenation, so a new dialog renders after every existing one |
| Renderer.ReopenChangesOnlyThatInstance | src/components/Dialog/DialogRenderer.tsx:36-38 | onOpenChange(true) sets `open` on that instance and leaves every other instance, the order and the ids unchanged |
| Renderer.HandleOpenChange | src/components/Dialog/DialogRenderer.tsx:33-40 | false removes the instance, true re-marks it open, and the caller's callback is then called once with the same value |
| Renderer.SettledIds | src/components/Dialog/DialogRenderer.tsx:29-49 | a root is settled exactly when its id is open in both the previous and the current list |
| Renderer.EscapeTargets | src/components/Dialog/DialogRoot.tsx:37-44 | the roots answering one Escape press are exactly the instances whose root closes on Escape given which roots are settled |
| Renderer.WithoutAllKeepsExactlyOthers | src/components/Dialog/DialogRenderer.tsx:34-35 | after removing a list of ids, exactly the instances with other ids remain |
| Renderer.EscapeDismissesEverySettledDialog | src/utils/useFocusTrap.ts:40-47 | one Escape press removes exactly the open, settled instances whose escape flag is on, and keeps all others |
| Renderer.FreshDialogIgnoresEscape | src/components/Dialog/DialogRoot.tsx:44 | at the commit that first shows a dialog, Escape removes nothing |
| Renderer.NestedEscapeClosesOnlyTheOuter | src/components/Dialog/DialogRoot.tsx:44 | with A settled and B just opened, one Escape closes A and keeps B |
| Renderer.NestedRootsOnEscape | src/components/Dialog/DialogRoot.tsx:44 | the same case on two mounted roots: only A's root asks to close |
| Renderer.LastOpen | src/components/Dialog/DialogRenderer.tsx:29 | the top of the stack: a position holding an open instance with no open instance after it in list order (so painted above every other open one), or none exactly when no instance is open |
| Renderer.ScopedEscapeTargets | src/components/Dialog/DialogRoot.tsx:44 | the intended rule: only the top open instance hears Escape, and only with its flag on; stated by ScopedEscapeClosesOnlyTheTop |
| Renderer.ScopedEscapeClosesOnlyTheTop | src/components/Dialog/DialogRoot.tsx:44 | under the intended rule one press removes at most one instance, the top open one when its flag is on, and keeps every other instance, open ones below it included |
| Renderer.ScopedEscapeClosesOnlyTheInner | src/components/Dialog/DialogRoot.tsx:44 | under the intended rule, with A open and B opened from it, one Escape closes B and leaves A |

## Findings

| source | as written | input that shows it | evidently intended | confidence | as-written member | corrected member |
|---|---|---|---|---|---|---|
| src/components/Dialog/DialogProvider.tsx:45 | the automatic z-index is the default plus the length of the committed list | two dialog() calls before a commit both get 50; open A, B and C with a commit after each, remove A and B, commit, open D: D gets 51, below C's 52 | a new automatic dialog stacks above every dialog in the list | not executed | Provider.NewerDialogCanStackBelowOlder | Provider.OnTopStacksConsecutively |
| src/components/Dialog/DialogRoot.tsx:44 | the root's trap registers its Escape listener only when its effect re-runs after the Portal has mounted the content | dialog() then Escape: nothing happens; with A open, open B from it, then Escape: A closes and B stays | one Escape closes only the topmost open dialog, when its flag is on | not executed | Renderer.NestedEscapeClosesOnlyTheOuter | Renderer.ScopedEscapeClosesOnlyTheInner |

## Left out

- DOM details are not modelled:
  - the focusable-element selector;
  - `document.activeElement`, reduced to a position in the focusable list;
  - how the scrollbar width is measured, which is a parameter;
  - the style properties other than z-index;
  - roles and aria attributes.
- `src/utils/portal.tsx` is modelled only through its `mounted` state in `Root.RootInstance`. Rendering into `document.body`, and the missing `document` case, are not modelled.
- The standalone `Dialog`'s focus trap is modelled by its Escape decision only. Its re-focusing of the first element at every re-render is not modelled.
- `Root.RootInstance.Render`: the Portal's follow-up render is taken to happen before the root's next commit, and the focusable elements are counted once per commit.
- The Drawer component, `constants.ts`, the demo application and the build configuration are not part of this model.
- React scheduling is reduced to explicit steps:
  - queued updaters are applied in call order;
  - `Commit()` re-syncs the ref;
  - effects and cleanups are explicit method calls.
- `FocusTrap.Activate`: a re-run of the effect without the preceding cleanup is not modelled, because React always runs the cleanup first.
- `Provider.IdSource.Fresh`: ids come from one process-wide counter instead of `crypto.randomUUID`. A random UUID is unique with overwhelming probability; the counter makes it certain.
- `Provider.DialogStore.UpdateDialog`: a partial patch that sets a required property (`content`, `open`, `id`) to `undefined` is not modelled. A present key always carries a value.
- Content (`ReactNode`) is an opaque string and a callback is an opaque identifier. A callback call is returned as a value instead of being executed.
- Unmounting the provider is not modelled separately: its binding effect has no cleanup, so unmounting changes no state in the model.
- JavaScript numbers are modelled as integers. `NaN`, infinities and fractional z-indices or scrollbar widths are not covered.

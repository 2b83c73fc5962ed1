/** The focus trap (src/utils/useFocusTrap.ts).

    The container's focusable descendants are abstracted to the list of their
    positions 0 .. n-1 in document order; the element that has focus is given
    as `Some(i)` for position i, or `None` (or a position outside the list)
    when focus is elsewhere. The key decisions are functions; activation,
    key presses and cleanup act on the class `FocusTrap`, which records the
    positions the trap moved focus to and how often it called `onEscape`. */
module FocusTrapping {
  import opened Base

  const Tab: string := "Tab"
  const Escape: string := "Escape"

  /** What the Tab listener does with one keydown: whether it prevents the
      default action, and which position it moves focus to, if any. */
  datatype TabOutcome = TabOutcome(preventDefault: bool, focusTo: Option<nat>)

  /** handleTabKey: Shift+Tab on the first element wraps to the last, Tab on
      the last wraps to the first; everything else passes through. */
  function HandleTabKey(key: string, shift: bool, active: Option<nat>, n: nat): TabOutcome {
    if key != Tab then TabOutcome(false, None)
    else if shift then
      (if n > 0 && active == Some(0) then TabOutcome(true, Some(n - 1)) else TabOutcome(false, None))
    else
      (if n > 0 && active == Some(n - 1) then TabOutcome(true, Some(0)) else TabOutcome(false, None))
  }

  /** handleEscape: the number of `onEscape` calls one keydown causes. */
  function HandleEscapeKey(key: string, hasOnEscape: bool): (calls: nat)
    ensures calls <= 1
    ensures calls == 1 <==> key == Escape && hasOnEscape
  {
    if key == Escape && hasOnEscape then 1 else 0
  }

  /** The wrap rule in both directions: the trap intervenes exactly on Tab
      from the last element and Shift+Tab from the first, and then moves focus
      to the opposite end of the list. */
  lemma TabWrapsExactlyAtTheEnds(key: string, shift: bool, active: Option<nat>, n: nat)
    ensures var r := HandleTabKey(key, shift, active, n);
            && (r.preventDefault <==> r.focusTo.Some?)
            && (r.preventDefault <==>
                  key == Tab && n > 0 && (if shift then active == Some(0) else active == Some(n - 1)))
            && (r.preventDefault ==> r.focusTo == Some(if shift then n - 1 else 0) && r.focusTo.value < n)
  {
  }

  /** Keys other than Tab never cause a prevention or a focus change. */
  lemma OtherKeysPassThrough(key: string, shift: bool, active: Option<nat>, n: nat)
    requires key != Tab
    ensures HandleTabKey(key, shift, active, n) == TabOutcome(false, None)
  {
  }

  /** With a single focusable element, Tab and Shift+Tab both keep focus on it. */
  lemma SingleElementKeepsFocus(shift: bool)
    ensures HandleTabKey(Tab, shift, Some(0), 1) == TabOutcome(true, Some(0))
  {
  }

  /** With three focusable elements: Tab on the last goes to the first,
      Shift+Tab on the first goes to the last, Tab in the middle passes. */
  lemma ThreeElements()
    ensures HandleTabKey(Tab, false, Some(2), 3).focusTo == Some(0)
    ensures HandleTabKey(Tab, true, Some(0), 3).focusTo == Some(2)
    ensures HandleTabKey(Tab, false, Some(1), 3) == TabOutcome(false, None)
  {
  }

  /** A second Tab listener over the same elements, run on the focus the
      first one left, never prevents a key the first let through and never
      moves focus anywhere but where the first moved it: two traps on one
      container act as one. */
  lemma SecondTabListenerAgrees(key: string, shift: bool, active: Option<nat>, n: nat)
    ensures var first := HandleTabKey(key, shift, active, n);
            var second := HandleTabKey(key, shift, if first.focusTo.Some? then first.focusTo else active, n);
            && (second.preventDefault ==> first.preventDefault)
            && (second.focusTo.Some? ==> second.focusTo == first.focusTo)
  {
  }

  /** The focus the tab listener moves, as a (possibly empty) list of positions. */
  function FocusCalls(o: TabOutcome): seq<nat> {
    if o.focusTo.Some? then [o.focusTo.value] else []
  }

  /** One useFocusTrap effect on one container. */
  class FocusTrap {
    var listening: bool       // both keydown listeners are registered
    var size: nat             // focusable elements found on activation
    var hasOnEscape: bool     // an onEscape handler was supplied
    var focusCalls: seq<nat>  // positions passed to .focus(), in order
    var escapeCalls: nat      // calls of onEscape

    constructor ()
      ensures !listening && size == 0 && !hasOnEscape && focusCalls == [] && escapeCalls == 0
    {
      listening, size, hasOnEscape, focusCalls, escapeCalls := false, 0, false, [], 0;
    }

    /** The effect body: when enabled and the container is mounted, focus the
        first focusable element (if any) and register both listeners. */
    method Activate(enabled: bool, containerMounted: bool, focusable: nat, onEscape: bool)
      modifies this
      ensures !enabled || !containerMounted ==>
                listening == old(listening) && size == old(size) && hasOnEscape == old(hasOnEscape)
                && focusCalls == old(focusCalls) && escapeCalls == old(escapeCalls)
      ensures enabled && containerMounted ==>
                listening && size == focusable && hasOnEscape == onEscape && escapeCalls == old(escapeCalls)
                && focusCalls == old(focusCalls) + (if focusable > 0 then [0] else [])
    {
      if !enabled || !containerMounted {
        return;
      }
      size := focusable;
      hasOnEscape := onEscape;
      if focusable > 0 {
        focusCalls := focusCalls + [0];
      }
      listening := true;
    }

    /** One keydown: both listeners see it while registered. */
    method KeyDown(key: string, shift: bool, active: Option<nat>) returns (prevented: bool)
      modifies this
      ensures listening == old(listening) && size == old(size) && hasOnEscape == old(hasOnEscape)
      ensures !listening ==> !prevented && focusCalls == old(focusCalls) && escapeCalls == old(escapeCalls)
      ensures listening ==>
                && prevented == HandleTabKey(key, shift, active, size).preventDefault
                && focusCalls == old(focusCalls) + FocusCalls(HandleTabKey(key, shift, active, size))
                && escapeCalls == old(escapeCalls) + HandleEscapeKey(key, hasOnEscape)
    {
      prevented := false;
      if !listening {
        return;
      }
      var outcome := HandleTabKey(key, shift, active, size);
      prevented := outcome.preventDefault;
      focusCalls := focusCalls + FocusCalls(outcome);
      escapeCalls := escapeCalls + HandleEscapeKey(key, hasOnEscape);
    }

    /** The effect cleanup: both listeners are removed. */
    method Cleanup()
      modifies this
      ensures !listening && size == old(size) && hasOnEscape == old(hasOnEscape)
      ensures focusCalls == old(focusCalls) && escapeCalls == old(escapeCalls)
    {
      listening := false;
    }
  }

  /** A trap with three elements: activation focuses the first, Tab on the
      last wraps to the first, Escape calls onEscape once, and after cleanup
      no key has any effect. */
  method TrapLifecycle(key: string, shift: bool, active: Option<nat>)
    returns (focused: seq<nat>, escapes: nat, preventedAfterCleanup: bool)
    ensures focused == [0, 0]
    ensures escapes == 1
    ensures !preventedAfterCleanup
  {
    var trap := new FocusTrap();
    trap.Activate(true, true, 3, true);
    var p := trap.KeyDown(Tab, false, Some(2));
    p := trap.KeyDown(Escape, false, Some(1));
    trap.Cleanup();
    preventedAfterCleanup := trap.KeyDown(key, shift, active);
    focused, escapes := trap.focusCalls, trap.escapeCalls;
  }
}

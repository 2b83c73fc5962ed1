/** The useScrollLock hook (src/utils/useScrollLock.ts): an effect keyed on
    `locked` that calls lockScroll when `locked` is true and returns a cleanup
    that calls unlockScroll.

    The framework re-runs an effect only when its key changed, and runs the
    previous effect's cleanup first; once unmounted, the last cleanup runs.
    `ScrollLockHook` models one mounted hook: `last` is the `locked` value its
    latest effect ran with, so a cleanup is pending exactly when it is `Some(true)`. */
module ScrollLockEffect {
  import opened Base
  import opened ScrollLocking

  /** The manager calls one commit of useScrollLock(locked) issues. */
  function CommitCalls(last: Option<bool>, locked: bool, scrollbarWidth: int): seq<LockCall> {
    if last == Some(locked) then []
    else (if last == Some(true) then [UnlockCall] else []) + (if locked then [LockCall(scrollbarWidth)] else [])
  }

  /** The manager calls unmounting the hook issues: the pending cleanup, if any. */
  function UnmountCalls(last: Option<bool>): seq<LockCall> {
    if last == Some(true) then [UnlockCall] else []
  }

  /** The number of locks a hook holds after its effect ran with `last`. */
  function Engaged(last: Option<bool>): nat {
    if last == Some(true) then 1 else 0
  }

  /** One render of the component that owns the hook. */
  datatype Render = Render(locked: bool, scrollbarWidth: int)

  /** Every manager call a hook issues over a sequence of renders. */
  function LifetimeCalls(last: Option<bool>, renders: seq<Render>): seq<LockCall>
    decreases |renders|
  {
    if renders == [] then []
    else CommitCalls(last, renders[0].locked, renders[0].scrollbarWidth)
         + LifetimeCalls(Some(renders[0].locked), renders[1..])
  }

  /** The key of the latest effect after a sequence of renders. */
  function LastKey(last: Option<bool>, renders: seq<Render>): Option<bool> {
    if renders == [] then last else Some(renders[|renders| - 1].locked)
  }

  lemma {:induction false} CommitMovesCountByKey(s: LockState, last: Option<bool>, locked: bool, w: int)
    requires Consistent(s, true) && s.count >= Engaged(last)
    ensures Run(s, true, CommitCalls(last, locked, w)).count == s.count - Engaged(last) + Engaged(Some(locked))
    ensures Consistent(Run(s, true, CommitCalls(last, locked, w)), true)
  {
    var calls := CommitCalls(last, locked, w);
    RunKeepsConsistent(s, true, calls);
    if last != Some(locked) && last == Some(true) {
      assert calls == [UnlockCall] && !locked;
      assert calls[..0] == [];
    } else if last != Some(locked) && locked {
      assert calls == [LockCall(w)];
      assert calls[..0] == [];
    }
  }

  /** A hook adds one to the lock count while its latest `locked` is true and
      nothing while it is false, whatever the sequence of renders. */
  lemma {:induction false} HookHoldsOneLockWhileLocked(s: LockState, last: Option<bool>, renders: seq<Render>)
    requires Consistent(s, true) && s.count >= Engaged(last)
    ensures Run(s, true, LifetimeCalls(last, renders)).count
            == s.count - Engaged(last) + Engaged(LastKey(last, renders))
    ensures Consistent(Run(s, true, LifetimeCalls(last, renders)), true)
    decreases |renders|
  {
    if renders != [] {
      var first := CommitCalls(last, renders[0].locked, renders[0].scrollbarWidth);
      var rest := LifetimeCalls(Some(renders[0].locked), renders[1..]);
      RunAppend(s, true, first, rest);
      CommitMovesCountByKey(s, last, renders[0].locked, renders[0].scrollbarWidth);
      HookHoldsOneLockWhileLocked(Run(s, true, first), Some(renders[0].locked), renders[1..]);
      if |renders| > 1 {
        assert renders[1..][|renders[1..]| - 1] == renders[|renders| - 1];
      }
    }
  }

  /** Locks and unlocks stay balanced: a hook that is rendered any number of
      times and then unmounted leaves the lock count where it found it. */
  lemma {:induction false} MountedLifetimeIsBalanced(s: LockState, renders: seq<Render>)
    requires Consistent(s, true)
    ensures Run(s, true, LifetimeCalls(None, renders) + UnmountCalls(LastKey(None, renders))).count == s.count
  {
    var lifetime := LifetimeCalls(None, renders);
    var unmount := UnmountCalls(LastKey(None, renders));
    HookHoldsOneLockWhileLocked(s, None, renders);
    RunAppend(s, true, lifetime, unmount);
    if unmount != [] {
      assert unmount[..0] == [];
    }
  }

  /** One mounted useScrollLock hook, bound to the process's lock manager. */
  class ScrollLockHook {
    const manager: ScrollLockManager
    var last: Option<bool>

    constructor (manager: ScrollLockManager)
      ensures this.manager == manager && last == None
    {
      this.manager := manager;
      last := None;
    }

    /** A commit of the owning component with the given `locked`. */
    method Commit(locked: bool, scrollbarWidth: int)
      modifies this, manager
      ensures last == Some(locked)
      ensures manager.State() == Run(old(manager.State()), manager.hasDocument, CommitCalls(old(last), locked, scrollbarWidth))
    {
      ghost var s := manager.State();
      ghost var calls := CommitCalls(last, locked, scrollbarWidth);
      if last != Some(locked) {
        if last == Some(true) {
          manager.UnlockScroll();
        }
        last := Some(locked);
        if locked {
          manager.LockScroll(scrollbarWidth);
        }
        if calls != [] {
          assert calls[..0] == [];
        }
      }
    }

    /** Unmounting the owning component: the pending cleanup runs. */
    method Unmount()
      modifies this, manager
      ensures last == None
      ensures manager.State() == Run(old(manager.State()), manager.hasDocument, UnmountCalls(old(last)))
    {
      if last == Some(true) {
        manager.UnlockScroll();
        assert UnmountCalls(old(last))[..0] == [];
      }
      last := None;
    }
  }

  /** Dialog A is open and opens dialog B; B closes: the page stays locked and
      hidden. When A closes too, the body's styles are those of before A. */
  method NestedDialogsKeepPageLocked(overflow: string, paddingRight: string, scrollbarWidth: int)
    returns (afterInnerClose: LockState, afterOuterClose: LockState)
    ensures afterInnerClose.count == 1 && afterInnerClose.body.overflow == Hidden
    ensures afterOuterClose == Initial(BodyStyle(overflow, paddingRight))
  {
    var manager := new ScrollLockManager(true, overflow, paddingRight);
    var outer := new ScrollLockHook(manager);
    var inner := new ScrollLockHook(manager);
    outer.Commit(true, scrollbarWidth);
    inner.Commit(true, scrollbarWidth);
    inner.Unmount();
    afterInnerClose := manager.State();
    outer.Commit(false, scrollbarWidth);
    afterOuterClose := manager.State();
  }
}

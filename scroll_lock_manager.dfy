/** The process-wide, reference-counted scroll lock (src/utils/scrollLockManager.ts).

    The module state of the source (`lockCount`, `originalStyles`) and the two
    inline styles of `document.body` it touches are the fields of the class
    `ScrollLockManager`. Each of its three methods is specified by a function on
    the value `LockState`, and the properties the source promises are lemmas
    about those functions. Whether a document exists is fixed for the lifetime
    of the process, so it is a constant of the manager. */
module ScrollLocking {
  import opened Base

  /** The two inline styles of the document body that the lock saves and overrides. */
  datatype BodyStyle = BodyStyle(overflow: string, paddingRight: string)

  /** The manager's state: the lock count, the saved styles and the body's current styles. */
  datatype LockState = LockState(count: nat, snapshot: Option<BodyStyle>, body: BodyStyle)

  /** The overflow value that hides the page's scrollbar. */
  const Hidden: string := "hidden"

  /** The value of one decimal digit character. */
  function DigitValue(c: char): nat {
    if '0' <= c <= '9' then c as int - '0' as int else 0
  }

  /** The number a string of decimal digits denotes, most significant digit first. */
  function DigitsValue(s: string): nat
    decreases |s|
  {
    if s == [] then 0 else DigitsValue(s[..|s| - 1]) * 10 + DigitValue(s[|s| - 1])
  }

  /** A canonical decimal numeral: non-empty, digits only, no leading zero
      unless it is the single digit 0. */
  predicate Canonical(s: string) {
    && |s| >= 1
    && (forall i :: 0 <= i < |s| ==> '0' <= s[i] <= '9')
    && (|s| > 1 ==> s[0] != '0')
  }

  /** `${n}` for a natural number: the canonical numeral whose value is n. */
  function DecimalDigits(n: nat): (s: string)
    ensures Canonical(s) && DigitsValue(s) == n
    ensures s[0] == '0' <==> n == 0
    decreases n
  {
    var last := [(48 + n % 10) as char];
    if n < 10 then last
    else
      var init := DecimalDigits(n / 10);
      assert (init + last)[..|init + last| - 1] == init;
      init + last
  }

  /** A numeral whose first digit is not 0 denotes a positive number. */
  lemma {:induction false} LeadingDigitMakesPositive(s: string)
    requires Canonical(s) && s[0] != '0'
    ensures DigitsValue(s) >= 1
    decreases |s|
  {
    if |s| > 1 {
      var init := s[..|s| - 1];
      assert init[0] == s[0];
      LeadingDigitMakesPositive(init);
    }
  }

  /** The other half of the round trip: every canonical numeral is what
      DecimalDigits writes for its value, so the representation is unique. */
  lemma {:induction false} CanonicalIsDecimalDigits(s: string)
    requires Canonical(s)
    ensures DecimalDigits(DigitsValue(s)) == s
    decreases |s|
  {
    if |s| > 1 {
      var init := s[..|s| - 1];
      assert init[0] == s[0];
      assert Canonical(init);
      LeadingDigitMakesPositive(init);
      CanonicalIsDecimalDigits(init);
      var v := DigitsValue(s);
      assert v / 10 == DigitsValue(init) && v % 10 == DigitValue(s[|s| - 1]);
      assert s == init + [s[|s| - 1]];
    }
  }

  /** The CSS length `${width}px` written for a positive scrollbar width: the
      width's canonical numeral followed by the unit. */
  function PixelLength(width: nat): (s: string)
    ensures |s| >= 3 && s[|s| - 2..] == "px"
    ensures Canonical(s[..|s| - 2]) && DigitsValue(s[..|s| - 2]) == width
  {
    var digits := DecimalDigits(width);
    assert (digits + "px")[..|digits + "px"| - 2] == digits;
    digits + "px"
  }

  /** lockScroll: count one more lock; on the first lock only, save the body's
      styles, hide overflow and pad by the scrollbar width when it is positive. */
  function Lock(s: LockState, hasDocument: bool, scrollbarWidth: int): LockState {
    if !hasDocument then s
    else if s.count + 1 > 1 then s.(count := s.count + 1)
    else
      LockState(1, Some(s.body),
                BodyStyle(Hidden, if scrollbarWidth > 0 then PixelLength(scrollbarWidth) else s.body.paddingRight))
  }

  /** unlockScroll: count one lock less, never below zero; when none is left,
      restore the saved styles (if any were saved) and forget them. */
  function Unlock(s: LockState, hasDocument: bool): LockState {
    if !hasDocument then s
    else if s.count - 1 <= 0 then
      (if s.snapshot.Some? then LockState(0, None, s.snapshot.value) else s.(count := 0))
    else s.(count := s.count - 1)
  }

  /** resetScrollLock: force the count to zero; with a document, restore and
      forget any saved styles. */
  function Reset(s: LockState, hasDocument: bool): LockState {
    if hasDocument && s.snapshot.Some? then LockState(0, None, s.snapshot.value)
    else s.(count := 0)
  }

  /** The invariant the three operations keep: styles are saved exactly while
      at least one lock is held, the body is hidden while locked, and without a
      document nothing is ever locked. */
  predicate Consistent(s: LockState, hasDocument: bool) {
    && (s.snapshot.Some? <==> s.count >= 1)
    && (s.count >= 1 ==> s.body.overflow == Hidden)
    && (!hasDocument ==> s.count == 0)
  }

  /** The unlocked state of a fresh process. */
  function Initial(body: BodyStyle): (s: LockState)
    ensures Consistent(s, true) && Consistent(s, false) && s.count == 0 && s.body == body
  {
    LockState(0, None, body)
  }

  lemma FirstLockSavesAndHides(s: LockState, scrollbarWidth: int)
    requires s.count == 0
    ensures Lock(s, true, scrollbarWidth).count == 1
    ensures Lock(s, true, scrollbarWidth).snapshot == Some(s.body)
    ensures Lock(s, true, scrollbarWidth).body.overflow == Hidden
    ensures scrollbarWidth > 0 ==> Lock(s, true, scrollbarWidth).body.paddingRight == PixelLength(scrollbarWidth)
    ensures scrollbarWidth <= 0 ==> Lock(s, true, scrollbarWidth).body.paddingRight == s.body.paddingRight
  {
  }

  lemma LaterLocksOnlyCount(s: LockState, scrollbarWidth: int)
    requires s.count >= 1
    ensures Lock(s, true, scrollbarWidth) == s.(count := s.count + 1)
  {
  }

  lemma LastUnlockRestores(s: LockState)
    requires Consistent(s, true) && s.count == 1
    ensures Unlock(s, true) == LockState(0, None, s.snapshot.value)
  {
  }

  lemma StrayUnlockChangesNothing(s: LockState)
    requires Consistent(s, true) && s.count == 0
    ensures Unlock(s, true) == s
  {
  }

  lemma WithoutDocumentNothingChanges(s: LockState, scrollbarWidth: int)
    ensures Lock(s, false, scrollbarWidth) == s
    ensures Unlock(s, false) == s
  {
  }

  lemma ResetUnlocks(s: LockState, hasDocument: bool)
    ensures Reset(s, hasDocument).count == 0
    ensures hasDocument && s.snapshot.Some? ==>
              Reset(s, hasDocument).body == s.snapshot.value && Reset(s, hasDocument).snapshot.None?
    ensures !(hasDocument && s.snapshot.Some?) ==>
              Reset(s, hasDocument).body == s.body && Reset(s, hasDocument).snapshot == s.snapshot
  {
  }

  lemma OperationsKeepConsistent(s: LockState, hasDocument: bool, scrollbarWidth: int)
    requires Consistent(s, hasDocument)
    ensures Consistent(Lock(s, hasDocument, scrollbarWidth), hasDocument)
    ensures Consistent(Unlock(s, hasDocument), hasDocument)
    ensures Consistent(Reset(s, hasDocument), hasDocument)
  {
  }

  /** An unlock undoes the lock just before it, whatever the count was. */
  lemma UnlockUndoesLock(s: LockState, hasDocument: bool, scrollbarWidth: int)
    requires Consistent(s, hasDocument)
    ensures Unlock(Lock(s, hasDocument, scrollbarWidth), hasDocument) == s
  {
  }

  /** Nested dialogs: lock, lock, unlock keeps the page locked and hidden; the
      following unlock gives back exactly the styles of before the first lock. */
  lemma NestedLocksStayHidden(s: LockState, outerWidth: int, innerWidth: int)
    requires Consistent(s, true) && s.count == 0
    ensures var afterInner := Unlock(Lock(Lock(s, true, outerWidth), true, innerWidth), true);
            && afterInner.count == 1
            && afterInner.body.overflow == Hidden
            && Unlock(afterInner, true) == s
  {
  }

  /** One call into the manager. */
  datatype LockCall = LockCall(scrollbarWidth: int) | UnlockCall

  function Apply(s: LockState, hasDocument: bool, c: LockCall): LockState {
    match c
    case LockCall(w) => Lock(s, hasDocument, w)
    case UnlockCall => Unlock(s, hasDocument)
  }

  /** The state after a sequence of calls, in order. */
  function Run(s: LockState, hasDocument: bool, calls: seq<LockCall>): LockState
    decreases |calls|
  {
    if calls == [] then s
    else Apply(Run(s, hasDocument, calls[..|calls| - 1]), hasDocument, calls[|calls| - 1])
  }

  /** Locks minus unlocks in a sequence of calls. */
  function Held(calls: seq<LockCall>): int
    decreases |calls|
  {
    if calls == [] then 0
    else Held(calls[..|calls| - 1]) + (if calls[|calls| - 1].LockCall? then 1 else -1)
  }

  /** No prefix of the calls releases more locks than it took. */
  predicate NeverOverReleased(calls: seq<LockCall>) {
    forall k :: 0 <= k <= |calls| ==> Held(calls[..k]) >= 0
  }

  lemma {:induction false} RunAppend(s: LockState, hasDocument: bool, a: seq<LockCall>, b: seq<LockCall>)
    ensures Run(s, hasDocument, a + b) == Run(Run(s, hasDocument, a), hasDocument, b)
    decreases |b|
  {
    if b == [] {
      assert a + b == a;
    } else {
      assert (a + b)[..|a + b| - 1] == a + b[..|b| - 1];
      RunAppend(s, hasDocument, a, b[..|b| - 1]);
    }
  }

  lemma {:induction false} RunKeepsConsistent(s: LockState, hasDocument: bool, calls: seq<LockCall>)
    requires Consistent(s, hasDocument)
    ensures Consistent(Run(s, hasDocument, calls), hasDocument)
    decreases |calls|
  {
    if calls != [] {
      RunKeepsConsistent(s, hasDocument, calls[..|calls| - 1]);
      var c := calls[|calls| - 1];
      OperationsKeepConsistent(Run(s, hasDocument, calls[..|calls| - 1]), hasDocument,
                               if c.LockCall? then c.scrollbarWidth else 0);
    }
  }

  /** The reference count: started unlocked, any sequence of calls that never
      releases more than it took leaves exactly (locks - unlocks) held; while
      one is held the body is hidden and the saved styles are those of before
      the first lock; when none is held the state is the initial one again. */
  lemma {:induction false} CountTracksHeldLocks(s: LockState, calls: seq<LockCall>)
    requires Consistent(s, true) && s.count == 0
    requires NeverOverReleased(calls)
    ensures Run(s, true, calls).count == Held(calls)
    ensures Held(calls) == 0 ==> Run(s, true, calls) == s
    ensures Held(calls) >= 1 ==>
              Run(s, true, calls).snapshot == Some(s.body) && Run(s, true, calls).body.overflow == Hidden
    decreases |calls|
  {
    if calls != [] {
      var init := calls[..|calls| - 1];
      forall k | 0 <= k <= |init|
        ensures Held(init[..k]) >= 0
      {
        assert init[..k] == calls[..k];
      }
      CountTracksHeldLocks(s, init);
      assert calls[..|calls|] == calls;
    }
  }

  /** Without a document no sequence of calls changes anything. */
  lemma {:induction false} WithoutDocumentRunChangesNothing(s: LockState, calls: seq<LockCall>)
    ensures Run(s, false, calls) == s
    decreases |calls|
  {
    if calls != [] {
      WithoutDocumentRunChangesNothing(s, calls[..|calls| - 1]);
    }
  }

  /** The module state of scrollLockManager.ts together with the body's inline styles. */
  class ScrollLockManager {
    const hasDocument: bool
    var count: nat
    var snapshot: Option<BodyStyle>
    var overflow: string
    var paddingRight: string

    function State(): LockState
      reads this
    {
      LockState(count, snapshot, BodyStyle(overflow, paddingRight))
    }

    ghost predicate Valid()
      reads this
    {
      Consistent(State(), hasDocument)
    }

    /** The state at module load: no lock, nothing saved, the body's styles as given. */
    constructor (hasDocument: bool, overflow: string, paddingRight: string)
      ensures this.hasDocument == hasDocument
      ensures State() == Initial(BodyStyle(overflow, paddingRight))
      ensures Valid()
    {
      this.hasDocument := hasDocument;
      count := 0;
      snapshot := None;
      this.overflow := overflow;
      this.paddingRight := paddingRight;
    }

    method LockScroll(scrollbarWidth: int)
      modifies this
      ensures State() == Lock(old(State()), hasDocument, scrollbarWidth)
      ensures old(Valid()) ==> Valid()
    {
      if !hasDocument {
        return;
      }
      count := count + 1;
      if count > 1 {
        return;
      }
      snapshot := Some(BodyStyle(overflow, paddingRight));
      overflow := Hidden;
      if scrollbarWidth > 0 {
        paddingRight := PixelLength(scrollbarWidth);
      }
    }

    method UnlockScroll()
      modifies this
      ensures State() == Unlock(old(State()), hasDocument)
      ensures old(Valid()) ==> Valid()
    {
      if !hasDocument {
        return;
      }
      var decremented := count - 1;
      if decremented <= 0 {
        count := 0;
        if snapshot.Some? {
          overflow := snapshot.value.overflow;
          paddingRight := snapshot.value.paddingRight;
          snapshot := None;
        }
      } else {
        count := decremented;
      }
    }

    method ResetScrollLock()
      modifies this
      ensures State() == Reset(old(State()), hasDocument)
      ensures old(Valid()) ==> Valid()
    {
      count := 0;
      if hasDocument && snapshot.Some? {
        overflow := snapshot.value.overflow;
        paddingRight := snapshot.value.paddingRight;
        snapshot := None;
      }
    }
  }
}

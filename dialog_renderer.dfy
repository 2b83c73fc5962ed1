/** DialogRenderer (src/components/Dialog/DialogRenderer.tsx): one DialogRoot
    per instance of the store, keyed by id, in list order, with the instance's
    props forwarded unchanged, and an `onOpenChange` that removes the instance
    on `false`, re-marks it open on `true`, and then calls the instance's own
    callback with the same value. A callback call is returned as an
    `Invocation` value. */
module Renderer {
  import opened Base
  import opened DialogModel
  import opened Provider
  import Root
  import FocusTrapping

  /** One mounted DialogRoot: its key, its props and its children. */
  datatype RenderedRoot = RenderedRoot(key: Id, props: Root.RootProps, content: Content)

  /** The renderer always supplies an onOpenChange. */
  function RootFor(d: DialogInstance): RenderedRoot {
    RenderedRoot(d.id,
                 Root.RootProps(d.open, true, d.zIndex, d.closeOnOverlayClick, d.closeOnEscape,
                                d.overlayClassName, d.contentClassName),
                 d.content)
  }

  /** `dialogs.map((dialog) => <DialogRoot key={dialog.id} ... />)` */
  function RenderDialogs(ds: seq<DialogInstance>): seq<RenderedRoot>
    decreases |ds|
  {
    if ds == [] then [] else [RootFor(ds[0])] + RenderDialogs(ds[1..])
  }

  /** One root per instance, in list order, keyed by the instance's id and
      carrying its props and content unchanged. */
  lemma {:induction false} OneRootPerInstance(ds: seq<DialogInstance>)
    ensures |RenderDialogs(ds)| == |ds|
    ensures forall i :: 0 <= i < |ds| ==>
              && RenderDialogs(ds)[i].key == ds[i].id
              && RenderDialogs(ds)[i].content == ds[i].content
              && RenderDialogs(ds)[i].props.open == ds[i].open
              && RenderDialogs(ds)[i].props.hasOnOpenChange
              && RenderDialogs(ds)[i].props.zIndex == ds[i].zIndex
              && RenderDialogs(ds)[i].props.closeOnOverlayClick == ds[i].closeOnOverlayClick
              && RenderDialogs(ds)[i].props.closeOnEscape == ds[i].closeOnEscape
              && RenderDialogs(ds)[i].props.overlayClassName == ds[i].overlayClassName
              && RenderDialogs(ds)[i].props.contentClassName == ds[i].contentClassName
    decreases |ds|
  {
    if ds != [] {
      OneRootPerInstance(ds[1..]);
    }
  }

  /** Rendering follows concatenation, so a newly added dialog is rendered
      after, and painted over, every dialog already there. */
  lemma {:induction false} RenderingFollowsOrder(a: seq<DialogInstance>, b: seq<DialogInstance>)
    ensures RenderDialogs(a + b) == RenderDialogs(a) + RenderDialogs(b)
    decreases |a|
  {
    if a == [] {
      assert a + b == b;
    } else {
      assert (a + b)[1..] == a[1..] + b;
      RenderingFollowsOrder(a[1..], b);
    }
  }

  /** A call of an instance's own onOpenChange callback. */
  datatype Invocation = Invocation(callback: CallbackId, open: bool)

  /** `{ open }` */
  function OpenPatch(open: bool): Patch {
    EmptyPatch.(open := Some(open))
  }

  /** Re-marking an instance open removes nothing, keeps the order and the
      ids, sets `open` on the instances with that id and touches no other. */
  lemma ReopenChangesOnlyThatInstance(ds: seq<DialogInstance>, id: Id)
    ensures |Updated(ds, id, OpenPatch(true))| == |ds|
    ensures forall i :: 0 <= i < |ds| ==>
              && Updated(ds, id, OpenPatch(true))[i].id == ds[i].id
              && (ds[i].id == id ==> Updated(ds, id, OpenPatch(true))[i] == ds[i].(open := true))
              && (ds[i].id != id ==> Updated(ds, id, OpenPatch(true))[i] == ds[i])
  {
    UpdatedPointwise(ds, id, OpenPatch(true));
  }

  /** The `onOpenChange` the renderer gives the root of instance `d`. */
  method HandleOpenChange(store: DialogStore, d: DialogInstance, open: bool) returns (invoked: Option<Invocation>)
    modifies store
    ensures !open ==> store.dialogs == Without(old(store.dialogs), d.id)
    ensures open ==> store.dialogs == Updated(old(store.dialogs), d.id, OpenPatch(true))
    ensures store.committed == old(store.committed)
    ensures old(store.Valid()) ==> store.Valid()
    ensures invoked == if d.onOpenChange.Some? then Some(Invocation(d.onOpenChange.value, open)) else None
  {
    if !open {
      store.RemoveDialog(d.id);
    } else {
      store.UpdateDialog(d.id, OpenPatch(open));
    }
    invoked := if d.onOpenChange.Some? then Some(Invocation(d.onOpenChange.value, open)) else None;
  }

  // ----- one Escape press across the whole stack -----

  /** The ids of the open instances. */
  function OpenIds(ds: seq<DialogInstance>): set<Id> {
    set i | 0 <= i < |ds| && ds[i].open :: ds[i].id
  }

  /** The settled roots after the renderer committed `cur` following `prev`:
      every root is re-rendered at each commit and keyed by id, so a root was
      already rendered open one commit earlier exactly when its id is open in
      both lists. */
  function SettledIds(prev: seq<DialogInstance>, cur: seq<DialogInstance>): (ids: set<Id>)
    ensures forall id :: id in ids <==>
              (exists i :: 0 <= i < |prev| && prev[i].id == id && prev[i].open)
              && (exists j :: 0 <= j < |cur| && cur[j].id == id && cur[j].open)
  {
    OpenIds(prev) * OpenIds(cur)
  }

  /** Whether the root of this instance answers an Escape keydown with onOpenChange(false). */
  predicate ClosesOnEscape(d: DialogInstance, settled: set<Id>) {
    Root.KeyDown(RootFor(d).props, d.id in settled, FocusTrapping.Escape) == Some(false)
  }

  /** The ids whose roots call onOpenChange(false) on one Escape keydown:
      each root has its own document listener, so every one that hears it. */
  function EscapeTargets(ds: seq<DialogInstance>, settled: set<Id>): (ids: seq<Id>)
    ensures forall id :: id in ids <==> exists i :: 0 <= i < |ds| && ds[i].id == id && ClosesOnEscape(ds[i], settled)
    decreases |ds|
  {
    if ds == [] then []
    else
      var rest := EscapeTargets(ds[1..], settled);
      assert forall i :: 1 <= i < |ds| ==> ds[i] == ds[1..][i - 1];
      (if ClosesOnEscape(ds[0], settled) then [ds[0].id] else []) + rest
  }

  /** The list after the renderer removed every id in turn. */
  function WithoutAll(ds: seq<DialogInstance>, ids: seq<Id>): seq<DialogInstance>
    decreases |ids|
  {
    if ids == [] then ds else WithoutAll(Without(ds, ids[0]), ids[1..])
  }

  lemma {:induction false} WithoutAllKeepsExactlyOthers(ds: seq<DialogInstance>, ids: seq<Id>)
    ensures forall x :: x in WithoutAll(ds, ids) <==> x in ds && x.id !in ids
    decreases |ids|
  {
    if ids != [] {
      WithoutKeepsExactlyOthers(ds, ids[0]);
      WithoutAllKeepsExactlyOthers(Without(ds, ids[0]), ids[1..]);
      assert forall id :: id in ids <==> id == ids[0] || id in ids[1..];
    }
  }

  /** Escape is not stacked: one press dismisses every open, settled dialog
      whose escape flag is on (default), nested ones and their parents
      alike, and keeps every other instance. */
  lemma EscapeDismissesEverySettledDialog(ds: seq<DialogInstance>, settled: set<Id>)
    requires UniqueIds(ds)
    ensures forall x :: x in WithoutAll(ds, EscapeTargets(ds, settled)) <==>
              x in ds && !(x.open && x.id in settled && Root.FlagOrTrue(x.closeOnEscape))
  {
    WithoutAllKeepsExactlyOthers(ds, EscapeTargets(ds, settled));
    forall x | x in ds
      ensures x.id in EscapeTargets(ds, settled) <==> x.open && x.id in settled && Root.FlagOrTrue(x.closeOnEscape)
    {
      var k :| 0 <= k < |ds| && ds[k] == x;
      if x.id in EscapeTargets(ds, settled) {
        var i :| 0 <= i < |ds| && ds[i].id == x.id && ClosesOnEscape(ds[i], settled);
        assert i == k;
      } else {
        assert !ClosesOnEscape(ds[k], settled);
      }
    }
  }

  /** The first Escape after dialog() is lost: at the commit that shows a new
      dialog its root is not settled, so the key changes nothing. */
  lemma FreshDialogIgnoresEscape(a: DialogInstance)
    requires a.open
    ensures EscapeTargets([a], SettledIds([], [a])) == []
    ensures WithoutAll([a], EscapeTargets([a], SettledIds([], [a]))) == [a]
  {
    assert SettledIds([], [a]) == {};
    assert [a][1..] == [];
  }

  /** Nested dialogs as written: A is open and settled, B is opened from it.
      At the commit that shows B only A's root listens, so one Escape closes
      the outer dialog and leaves the inner one open. */
  lemma NestedEscapeClosesOnlyTheOuter(a: DialogInstance, b: DialogInstance)
    requires a.id != b.id && a.open && b.open && a.closeOnEscape.None? && b.closeOnEscape.None?
    ensures SettledIds([a], [a, b]) == {a.id}
    ensures WithoutAll([a, b], EscapeTargets([a, b], SettledIds([a], [a, b]))) == [b]
  {
    var settled := SettledIds([a], [a, b]);
    assert a.id in settled;
    assert settled == {a.id};
    assert [a, b][1..] == [b] && [b][1..] == [];
    assert ClosesOnEscape(a, settled) && !ClosesOnEscape(b, settled);
    assert EscapeTargets([b], settled) == [];
    assert EscapeTargets([a, b], settled) == [a.id];
    assert Without([b], a.id) == [b] + Without([], a.id);
    assert Without([a, b], a.id) == [b];
    assert WithoutAll([a, b], [a.id]) == WithoutAll([b], []);
  }

  /** The same nested case on two mounted roots: the renderer commits [a],
      then [a, b], re-rendering A's root; one Escape reaches the document
      listeners of both roots and only A's asks to close. */
  method NestedRootsOnEscape(a: DialogInstance, b: DialogInstance) returns (fromA: Option<bool>, fromB: Option<bool>)
    requires a.open && b.open && a.closeOnEscape.None? && b.closeOnEscape.None?
    ensures fromA == Some(false) && fromB == None
  {
    var rootA := new Root.RootInstance();
    rootA.Render(RootFor(a).props, 1);
    var rootB := new Root.RootInstance();
    rootA.Render(RootFor(a).props, 1);
    rootB.Render(RootFor(b).props, 1);
    var prevented;
    prevented, fromA := rootA.Dispatch(FocusTrapping.Escape, false, None);
    prevented, fromB := rootB.Dispatch(FocusTrapping.Escape, false, None);
  }

  /** The position of the last open instance in list order, the one
      painted above every other open one, if any is open. */
  function LastOpen(ds: seq<DialogInstance>): (k: Option<nat>)
    ensures k.Some? ==> k.value < |ds| && ds[k.value].open && forall j :: k.value < j < |ds| ==> !ds[j].open
    ensures k.None? ==> forall j :: 0 <= j < |ds| ==> !ds[j].open
    decreases |ds|
  {
    if ds == [] then None
    else if ds[|ds| - 1].open then Some(|ds| - 1)
    else
      var k := LastOpen(ds[..|ds| - 1]);
      assert forall j :: 0 <= j < |ds| - 1 ==> ds[j] == ds[..|ds| - 1][j];
      k
  }

  /** As intended, Escape is scoped to the top of the stack: only the last
      open instance hears it, and only when its escape flag is on. */
  function ScopedEscapeTargets(ds: seq<DialogInstance>): seq<Id> {
    match LastOpen(ds)
    case None => []
    case Some(k) => if Root.FlagOrTrue(ds[k].closeOnEscape) then [ds[k].id] else []
  }

  /** Under the scoped rule one press removes at most one instance: the top
      open one when its flag is on (default), and every other instance stays,
      open ones below it included. */
  lemma ScopedEscapeClosesOnlyTheTop(ds: seq<DialogInstance>)
    requires UniqueIds(ds)
    ensures |ScopedEscapeTargets(ds)| <= 1
    ensures forall x :: x in WithoutAll(ds, ScopedEscapeTargets(ds)) <==>
              x in ds && !(LastOpen(ds).Some? && x == ds[LastOpen(ds).value] && Root.FlagOrTrue(x.closeOnEscape))
  {
    var targets := ScopedEscapeTargets(ds);
    WithoutAllKeepsExactlyOthers(ds, targets);
    forall x | x in ds
      ensures x.id in targets <==> LastOpen(ds).Some? && x == ds[LastOpen(ds).value] && Root.FlagOrTrue(x.closeOnEscape)
    {
      var i :| 0 <= i < |ds| && ds[i] == x;
      if LastOpen(ds).Some? {
        var k := LastOpen(ds).value;
        assert ds[k].id == x.id ==> i == k;
      }
    }
  }

  /** As intended, nested dialogs A and B, both open, B's flag at its default:
      one Escape closes the inner dialog B and leaves A open. */
  lemma ScopedEscapeClosesOnlyTheInner(a: DialogInstance, b: DialogInstance)
    requires a.id != b.id && a.open && b.open && b.closeOnEscape.None?
    ensures WithoutAll([a, b], ScopedEscapeTargets([a, b])) == [a]
  {
    assert LastOpen([a, b]) == Some(1);
    assert ScopedEscapeTargets([a, b]) == [b.id];
    assert [a, b][1..] == [b] && [b][1..] == [];
    assert Without([b], b.id) == [];
    assert Without([a, b], b.id) == [a] + Without([b], b.id);
    assert [b.id][1..] == [];
    assert WithoutAll([a, b], [b.id]) == WithoutAll([a], []);
  }
}

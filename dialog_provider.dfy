/** The dialog instance store (src/components/Dialog/DialogProvider.tsx).

    Of the three updaters the provider hands to `setDialogs`, the append is a
    sequence concatenation and the other two are the functions `Without` and
    `Updated` on the list; the store itself is the
    class `DialogStore`. Its field `dialogs` is the list after every queued
    updater has been applied (the updaters are functional, so they compose in
    call order); `committed` is `dialogsRef.current`, re-synced only by the
    effect that runs after a commit, modelled by `Commit()`. The random UUID
    is replaced by one process-wide counter, `IdSource`, shared by every
    store, so an id is never handed out twice in the process. */
module Provider {
  import opened Base
  import opened DialogModel

  /** The provider's `defaultZIndex` when none is given. */
  const DefaultZIndex: int := 50

  /** `dialog.zIndex ?? defaultZIndex + dialogsRef.current.length`: an
      explicit z-index (0 included) wins, otherwise the committed length
      is added to the default. */
  function AssignedZIndex(requested: Option<int>, defaultZIndex: int, committedLength: nat): (z: int)
    ensures requested.Some? ==> z == requested.value
    ensures requested.None? ==> z == defaultZIndex + committedLength
  {
    match requested
    case Some(v) => v
    case None => defaultZIndex + committedLength
  }

  /** `{ ...dialog, id, zIndex }` */
  function Instantiate(d: NewDialog, id: Id, zIndex: int): DialogInstance {
    DialogInstance(id, d.content, d.open, Some(zIndex), d.onOpenChange, d.closeOnOverlayClick,
                   d.closeOnEscape, d.overlayClassName, d.contentClassName)
  }

  /** The ids of a list, in order. */
  function Ids(ds: seq<DialogInstance>): (r: seq<Id>)
    ensures |r| == |ds|
    ensures forall i :: 0 <= i < |ds| ==> r[i] == ds[i].id
  {
    seq(|ds|, i requires 0 <= i < |ds| => ds[i].id)
  }

  predicate UniqueIds(ds: seq<DialogInstance>) {
    forall i, j :: 0 <= i < j < |ds| ==> ds[i].id != ds[j].id
  }

  predicate IdsBelow(ds: seq<DialogInstance>, bound: Id) {
    forall i :: 0 <= i < |ds| ==> ds[i].id < bound
  }

  /** removeDialog's updater: `prev.filter((dialog) => dialog.id !== id)` */
  function Without(ds: seq<DialogInstance>, id: Id): seq<DialogInstance>
    decreases |ds|
  {
    if ds == [] then []
    else (if ds[0].id != id then [ds[0]] else []) + Without(ds[1..], id)
  }

  /** `{ ...dialog, ...updates }`: every key present in the patch overrides. */
  function Merge(d: DialogInstance, p: Patch): DialogInstance {
    DialogInstance(
      p.id.GetOr(d.id),
      p.content.GetOr(d.content),
      p.open.GetOr(d.open),
      p.zIndex.GetOr(d.zIndex),
      p.onOpenChange.GetOr(d.onOpenChange),
      p.closeOnOverlayClick.GetOr(d.closeOnOverlayClick),
      p.closeOnEscape.GetOr(d.closeOnEscape),
      p.overlayClassName.GetOr(d.overlayClassName),
      p.contentClassName.GetOr(d.contentClassName))
  }

  /** updateDialog's updater: merge the patch into the instances with that id. */
  function Updated(ds: seq<DialogInstance>, id: Id, p: Patch): seq<DialogInstance>
    decreases |ds|
  {
    if ds == [] then []
    else [if ds[0].id == id then Merge(ds[0], p) else ds[0]] + Updated(ds[1..], id, p)
  }

  // ----- removeDialog -----

  /** What survives a removal: exactly the instances with another id. */
  lemma {:induction false} WithoutKeepsExactlyOthers(ds: seq<DialogInstance>, id: Id)
    ensures forall x :: x in Without(ds, id) <==> x in ds && x.id != id
    decreases |ds|
  {
    if ds != [] {
      WithoutKeepsExactlyOthers(ds[1..], id);
      assert ds == [ds[0]] + ds[1..];
    }
  }

  /** Removal preserves the relative order of the survivors: it distributes over concatenation. */
  lemma {:induction false} WithoutDistributes(a: seq<DialogInstance>, b: seq<DialogInstance>, id: Id)
    ensures Without(a + b, id) == Without(a, id) + Without(b, id)
    decreases |a|
  {
    if a == [] {
      assert a + b == b;
    } else {
      assert (a + b)[1..] == a[1..] + b;
      WithoutDistributes(a[1..], b, id);
    }
  }

  /** Removing an id no instance has leaves the list unchanged. */
  lemma {:induction false} WithoutAbsentId(ds: seq<DialogInstance>, id: Id)
    requires forall i :: 0 <= i < |ds| ==> ds[i].id != id
    ensures Without(ds, id) == ds
    decreases |ds|
  {
    if ds != [] {
      WithoutAbsentId(ds[1..], id);
    }
  }

  /** A second removal of the same id changes nothing (close() twice is safe). */
  lemma RemoveIsIdempotent(ds: seq<DialogInstance>, id: Id)
    ensures Without(Without(ds, id), id) == Without(ds, id)
  {
    var once := Without(ds, id);
    WithoutKeepsExactlyOthers(ds, id);
    forall i | 0 <= i < |once|
      ensures once[i].id != id
    {
      assert once[i] in once;
    }
    WithoutAbsentId(once, id);
  }

  /** Removals commute. */
  lemma {:induction false} RemovalsCommute(ds: seq<DialogInstance>, a: Id, b: Id)
    ensures Without(Without(ds, a), b) == Without(Without(ds, b), a)
    decreases |ds|
  {
    if ds != [] {
      var head, tail := [ds[0]], ds[1..];
      assert ds == head + tail;
      WithoutDistributes(head, tail, a);
      WithoutDistributes(head, tail, b);
      WithoutDistributes(Without(head, a), Without(tail, a), b);
      WithoutDistributes(Without(head, b), Without(tail, b), a);
      assert head[1..] == [];
      RemovalsCommute(tail, a, b);
    }
  }

  /** Removing the instance just appended under a fresh id gives back the list before. */
  lemma {:induction false} RemoveUndoesAdd(ds: seq<DialogInstance>, d: NewDialog, id: Id, zIndex: int)
    requires forall i :: 0 <= i < |ds| ==> ds[i].id != id
    ensures Without(ds + [Instantiate(d, id, zIndex)], id) == ds
  {
    WithoutDistributes(ds, [Instantiate(d, id, zIndex)], id);
    WithoutAbsentId(ds, id);
    assert [Instantiate(d, id, zIndex)][1..] == [];
  }

  lemma WithoutKeepsIdsValid(ds: seq<DialogInstance>, id: Id, bound: Id)
    requires UniqueIds(ds) && IdsBelow(ds, bound)
    ensures UniqueIds(Without(ds, id)) && IdsBelow(Without(ds, id), bound)
  {
    WithoutKeepsExactlyOthers(ds, id);
    WithoutKeepsUnique(ds, id);
  }

  /** Removal keeps ids unique. */
  lemma {:induction false} WithoutKeepsUnique(ds: seq<DialogInstance>, id: Id)
    requires UniqueIds(ds)
    ensures UniqueIds(Without(ds, id))
    decreases |ds|
  {
    if ds != [] {
      WithoutKeepsUnique(ds[1..], id);
      WithoutKeepsExactlyOthers(ds[1..], id);
      var rest := Without(ds[1..], id);
      if ds[0].id != id {
        forall j | 0 <= j < |rest|
          ensures rest[j].id != ds[0].id
        {
          assert rest[j] in ds[1..];
        }
      }
    }
  }

  // ----- updateDialog -----

  /** The update, instance by instance: same length and order, the patch merged
      into the instances with that id and every other instance untouched. */
  lemma {:induction false} UpdatedPointwise(ds: seq<DialogInstance>, id: Id, p: Patch)
    ensures |Updated(ds, id, p)| == |ds|
    ensures forall i :: 0 <= i < |ds| ==>
              Updated(ds, id, p)[i] == if ds[i].id == id then Merge(ds[i], p) else ds[i]
    decreases |ds|
  {
    if ds != [] {
      UpdatedPointwise(ds[1..], id, p);
    }
  }

  /** Merging: every key present in the patch wins, every absent key keeps
      the instance's value, the empty patch changes nothing, and a second
      merge of the same patch changes nothing more. */
  lemma MergeLaws(d: DialogInstance, p: Patch)
    ensures Merge(d, EmptyPatch) == d
    ensures Merge(Merge(d, p), p) == Merge(d, p)
    ensures Merge(d, p).id == if p.id.Some? then p.id.value else d.id
    ensures Merge(d, p).content == if p.content.Some? then p.content.value else d.content
    ensures Merge(d, p).open == if p.open.Some? then p.open.value else d.open
    ensures Merge(d, p).zIndex == if p.zIndex.Some? then p.zIndex.value else d.zIndex
    ensures Merge(d, p).onOpenChange == if p.onOpenChange.Some? then p.onOpenChange.value else d.onOpenChange
    ensures Merge(d, p).closeOnOverlayClick
            == if p.closeOnOverlayClick.Some? then p.closeOnOverlayClick.value else d.closeOnOverlayClick
    ensures Merge(d, p).closeOnEscape == if p.closeOnEscape.Some? then p.closeOnEscape.value else d.closeOnEscape
    ensures Merge(d, p).overlayClassName
            == if p.overlayClassName.Some? then p.overlayClassName.value else d.overlayClassName
    ensures Merge(d, p).contentClassName
            == if p.contentClassName.Some? then p.contentClassName.value else d.contentClassName
  {
  }

  lemma UpdateAbsentIdChangesNothing(ds: seq<DialogInstance>, id: Id, p: Patch)
    requires forall i :: 0 <= i < |ds| ==> ds[i].id != id
    ensures Updated(ds, id, p) == ds
  {
    UpdatedPointwise(ds, id, p);
  }

  /** Repeating an update changes nothing more, also for a patch that moves
      the instances to another id. */
  lemma UpdateIsIdempotent(ds: seq<DialogInstance>, id: Id, p: Patch)
    ensures Updated(Updated(ds, id, p), id, p) == Updated(ds, id, p)
  {
    UpdatedPointwise(ds, id, p);
    UpdatedPointwise(Updated(ds, id, p), id, p);
  }

  /** A patch without an `id` key keeps every id in place. */
  lemma UpdateKeepsIds(ds: seq<DialogInstance>, id: Id, p: Patch)
    requires p.id.None?
    ensures Ids(Updated(ds, id, p)) == Ids(ds)
  {
    UpdatedPointwise(ds, id, p);
  }

  // ----- the stacking rule as evidently intended -----

  /** The highest z-index in a list, if any instance has one. */
  function TopZIndex(ds: seq<DialogInstance>): (top: Option<int>)
    ensures top.Some? <==> exists i :: 0 <= i < |ds| && ds[i].zIndex.Some?
    ensures top.Some? ==> forall i :: 0 <= i < |ds| && ds[i].zIndex.Some? ==> ds[i].zIndex.value <= top.value
    ensures top.Some? ==> exists i :: 0 <= i < |ds| && ds[i].zIndex == top
    decreases |ds|
  {
    if ds == [] then None
    else
      var rest := TopZIndex(ds[1..]);
      assert forall i :: 1 <= i < |ds| ==> ds[i] == ds[1..][i - 1];
      if ds[0].zIndex.None? then rest
      else if rest.Some? && rest.value >= ds[0].zIndex.value then rest
      else ds[0].zIndex
  }

  /** An automatic z-index that puts a new dialog above every dialog already
      in the list (queued updates included), and at least at the default:
      what "stacks automatically" promises. An explicit z-index still wins. */
  function OnTopZIndex(requested: Option<int>, defaultZIndex: int, pending: seq<DialogInstance>): (z: int)
    ensures requested.Some? ==> z == requested.value
    ensures requested.None? ==> z >= defaultZIndex
    ensures requested.None? ==>
              forall i :: 0 <= i < |pending| && pending[i].zIndex.Some? ==> pending[i].zIndex.value < z
  {
    match requested
    case Some(v) => v
    case None =>
      match TopZIndex(pending)
      case None => defaultZIndex
      case Some(t) => if t + 1 > defaultZIndex then t + 1 else defaultZIndex
  }

  /** Dialogs opened one after another under the on-top rule, with or
      without commits in between (the rule does not read the ref). */
  function OpenOnTop(ds: seq<DialogInstance>, defaultZIndex: int, nextId: Id, news: seq<NewDialog>): seq<DialogInstance>
    decreases |news|
  {
    if news == [] then ds
    else OpenOnTop(ds + [Instantiate(news[0], nextId, OnTopZIndex(news[0].zIndex, defaultZIndex, ds))],
                   defaultZIndex, nextId + 1, news[1..])
  }

  /** A list whose z-indices climb by one from the default. */
  predicate Staircase(ds: seq<DialogInstance>, defaultZIndex: int) {
    forall i :: 0 <= i < |ds| ==> ds[i].zIndex == Some(defaultZIndex + i)
  }

  /** Under the on-top rule, automatic dialogs opened into a staircase (the
      empty list included) get strictly consecutive z-indices, whether or not
      a commit comes between them. */
  lemma {:induction false} OnTopStacksConsecutively(ds: seq<DialogInstance>, defaultZIndex: int, nextId: Id, news: seq<NewDialog>)
    requires Staircase(ds, defaultZIndex)
    requires forall k :: 0 <= k < |news| ==> news[k].zIndex.None?
    ensures |OpenOnTop(ds, defaultZIndex, nextId, news)| == |ds| + |news|
    ensures Staircase(OpenOnTop(ds, defaultZIndex, nextId, news), defaultZIndex)
    decreases |news|
  {
    if news != [] {
      var z := OnTopZIndex(news[0].zIndex, defaultZIndex, ds);
      if ds != [] {
        assert ds[|ds| - 1].zIndex.Some?;
        var top := TopZIndex(ds);
        assert top.value >= defaultZIndex + |ds| - 1;
        var i :| 0 <= i < |ds| && ds[i].zIndex == top;
        assert top.value <= defaultZIndex + |ds| - 1;
      }
      assert z == defaultZIndex + |ds|;
      var ds' := ds + [Instantiate(news[0], nextId, z)];
      assert Staircase(ds', defaultZIndex);
      OnTopStacksConsecutively(ds', defaultZIndex, nextId + 1, news[1..]);
    }
  }

  // ----- addDialog and the z-index -----

  /** Dialogs opened one after another, each followed by a commit, into a
      list `ds`, with ids counted from `nextId`. */
  function OpenInTurn(ds: seq<DialogInstance>, defaultZIndex: int, nextId: Id, news: seq<NewDialog>): seq<DialogInstance>
    decreases |news|
  {
    if news == [] then ds
    else OpenInTurn(ds + [Instantiate(news[0], nextId, AssignedZIndex(news[0].zIndex, defaultZIndex, |ds|))],
                    defaultZIndex, nextId + 1, news[1..])
  }

  /** Auto stacking: dialogs opened one after another with no removal and a
      commit in between get consecutive z-indices from `defaultZIndex + |ds|`
      and consecutive ids, and the instances already there are untouched. */
  lemma {:induction false} OpenedInTurnStackUp(ds: seq<DialogInstance>, defaultZIndex: int, nextId: Id, news: seq<NewDialog>)
    requires forall k :: 0 <= k < |news| ==> news[k].zIndex.None?
    ensures |OpenInTurn(ds, defaultZIndex, nextId, news)| == |ds| + |news|
    ensures OpenInTurn(ds, defaultZIndex, nextId, news)[..|ds|] == ds
    ensures forall j :: |ds| <= j < |ds| + |news| ==>
              && OpenInTurn(ds, defaultZIndex, nextId, news)[j].zIndex == Some(defaultZIndex + j)
              && OpenInTurn(ds, defaultZIndex, nextId, news)[j].id == nextId + (j - |ds|)
    decreases |news|
  {
    if news != [] {
      var ds' := ds + [Instantiate(news[0], nextId, AssignedZIndex(news[0].zIndex, defaultZIndex, |ds|))];
      OpenedInTurnStackUp(ds', defaultZIndex, nextId + 1, news[1..]);
      var r := OpenInTurn(ds, defaultZIndex, nextId, news);
      assert r == OpenInTurn(ds', defaultZIndex, nextId + 1, news[1..]);
      assert r[..|ds|] == r[..|ds'|][..|ds|];
      assert r[|ds|] == r[..|ds'|][|ds|];
    }
  }

  /** `crypto.randomUUID`: the process-wide source of fresh ids, a counter
      that only grows. */
  class IdSource {
    var next: Id

    constructor ()
      ensures next == 0
    {
      next := 0;
    }

    method Fresh() returns (id: Id)
      modifies this
      ensures id == old(next) && next == old(next) + 1
    {
      id := next;
      next := next + 1;
    }
  }

  /** An id drawn after every id of a list has been drawn is none of them, so
      removing it from that list (a close() meant for another store) changes
      nothing. */
  lemma ForeignIdChangesNothing(ds: seq<DialogInstance>, bound: Id, id: Id)
    requires IdsBelow(ds, bound) && id >= bound
    ensures Without(ds, id) == ds
    ensures Updated(ds, id, EmptyPatch.(open := Some(true))) == ds
  {
    WithoutAbsentId(ds, id);
    UpdateAbsentIdChangesNothing(ds, id, EmptyPatch.(open := Some(true)));
  }

  /** The provider's state. */
  class DialogStore {
    const defaultZIndex: int
    const ids: IdSource
    var dialogs: seq<DialogInstance>
    var committed: seq<DialogInstance>

    /** Ids are unique and all drawn already, so the next drawn id is fresh. */
    ghost predicate Valid()
      reads this, ids
    {
      UniqueIds(dialogs) && IdsBelow(dialogs, ids.next)
    }

    /** The provider's first render: `defaultZIndex = 50` unless given, an empty list. */
    constructor (defaultZIndex: Option<int>, ids: IdSource)
      ensures this.defaultZIndex == defaultZIndex.GetOr(DefaultZIndex) && this.ids == ids
      ensures dialogs == [] && committed == []
      ensures Valid()
    {
      this.defaultZIndex := defaultZIndex.GetOr(DefaultZIndex);
      this.ids := ids;
      dialogs, committed := [], [];
    }

    /** The effect after a commit: `dialogsRef.current = dialogs`. */
    method Commit()
      modifies this
      ensures committed == dialogs
      ensures dialogs == old(dialogs)
    {
      committed := dialogs;
    }

    /** addDialog: a fresh id, the z-index rule on the committed length, one
        instance appended at the end; returns the id. */
    method AddDialog(d: NewDialog) returns (id: Id)
      modifies this, ids
      ensures id == old(ids.next) && ids.next == old(ids.next) + 1
      ensures dialogs == old(dialogs) + [Instantiate(d, id, AssignedZIndex(d.zIndex, defaultZIndex, |committed|))]
      ensures committed == old(committed)
      ensures old(Valid()) ==> Valid() && forall i :: 0 <= i < |old(dialogs)| ==> old(dialogs)[i].id != id
    {
      id := ids.Fresh();
      var zIndex := AssignedZIndex(d.zIndex, defaultZIndex, |committed|);
      dialogs := dialogs + [Instantiate(d, id, zIndex)];
    }

    /** addDialog with the on-top rule in place of line 45: the automatic
        z-index is read from the list with every queued update applied. */
    method AddDialogOnTop(d: NewDialog) returns (id: Id)
      modifies this, ids
      ensures id == old(ids.next) && ids.next == old(ids.next) + 1
      ensures dialogs == old(dialogs) + [Instantiate(d, id, OnTopZIndex(d.zIndex, defaultZIndex, old(dialogs)))]
      ensures committed == old(committed)
      ensures old(Valid()) ==> Valid()
    {
      id := ids.Fresh();
      dialogs := dialogs + [Instantiate(d, id, OnTopZIndex(d.zIndex, defaultZIndex, dialogs))];
    }

    /** removeDialog */
    method RemoveDialog(id: Id)
      modifies this
      ensures dialogs == Without(old(dialogs), id)
      ensures committed == old(committed)
      ensures old(Valid()) ==> Valid()
    {
      if Valid() {
        WithoutKeepsIdsValid(dialogs, id, ids.next);
      }
      dialogs := Without(dialogs, id);
    }

    /** updateDialog */
    method UpdateDialog(id: Id, p: Patch)
      modifies this
      ensures dialogs == Updated(old(dialogs), id, p)
      ensures committed == old(committed)
      ensures old(Valid()) && p.id.None? ==> Valid()
    {
      if p.id.None? {
        UpdateKeepsIds(dialogs, id, p);
        assert forall i :: 0 <= i < |dialogs| ==> Updated(dialogs, id, p)[i].id == Ids(Updated(dialogs, id, p))[i];
      }
      dialogs := Updated(dialogs, id, p);
    }
  }

  /** Two dialogs opened with no commit in between read the same committed
      length, so both get the default z-index. */
  method OpenTwiceBeforeCommit(a: NewDialog, b: NewDialog) returns (first: Option<int>, second: Option<int>)
    requires a.zIndex.None? && b.zIndex.None?
    ensures first == Some(DefaultZIndex) && second == Some(DefaultZIndex)
  {
    var ids := new IdSource();
    var store := new DialogStore(None, ids);
    var idA := store.AddDialog(a);
    var idB := store.AddDialog(b);
    first, second := store.dialogs[0].zIndex, store.dialogs[1].zIndex;
  }

  /** The auto z-index follows the committed length, not creation order:
      open A, B and C (committing after each), close A and B, commit, open D;
      D is the newest dialog yet sits below C. */
  method NewerDialogCanStackBelowOlder(a: NewDialog, b: NewDialog, c: NewDialog, d: NewDialog)
    returns (older: Option<int>, newer: Option<int>)
    requires a.zIndex.None? && b.zIndex.None? && c.zIndex.None? && d.zIndex.None?
    ensures older == Some(DefaultZIndex + 2) && newer == Some(DefaultZIndex + 1)
  {
    var ids := new IdSource();
    var store := new DialogStore(None, ids);
    var idA := store.AddDialog(a);
    store.Commit();
    var idB := store.AddDialog(b);
    store.Commit();
    var idC := store.AddDialog(c);
    store.Commit();
    store.RemoveDialog(idA);
    store.RemoveDialog(idB);
    store.Commit();
    var idD := store.AddDialog(d);
    ghost var iA, iB, iC := Instantiate(a, idA, DefaultZIndex), Instantiate(b, idB, DefaultZIndex + 1),
                            Instantiate(c, idC, DefaultZIndex + 2);
    assert idA == 0 && idB == 1 && idC == 2;
    assert [iA, iB, iC][1..] == [iB, iC] && [iB, iC][1..] == [iC] && [iC][1..] == [];
    assert Without([iC], idA) == [iC];
    assert Without([iC], idB) == [iC] + Without([], idB);
    assert Without([iB, iC], idA) == [iB, iC];
    assert Without([iA, iB, iC], idA) == [iB, iC];
    assert Without([iB, iC], idB) == [iC];
    assert store.dialogs == [iC, Instantiate(d, idD, DefaultZIndex + 1)];
    older, newer := store.dialogs[0].zIndex, store.dialogs[1].zIndex;
  }

  /** The scenario of OpenTwiceBeforeCommit under the on-top rule: 50 and 51. */
  method OnTopOpenTwiceBeforeCommit(a: NewDialog, b: NewDialog) returns (first: Option<int>, second: Option<int>)
    requires a.zIndex.None? && b.zIndex.None?
    ensures first == Some(DefaultZIndex) && second == Some(DefaultZIndex + 1)
  {
    var ids := new IdSource();
    var store := new DialogStore(None, ids);
    var idA := store.AddDialogOnTop(a);
    assert TopZIndex(store.dialogs) == Some(DefaultZIndex) by {
      assert store.dialogs[1..] == [];
    }
    var idB := store.AddDialogOnTop(b);
    first, second := store.dialogs[0].zIndex, store.dialogs[1].zIndex;
  }

  /** The scenario of NewerDialogCanStackBelowOlder under the on-top rule:
      D is opened above C. */
  method OnTopNewerDialogStaysAbove(a: NewDialog, b: NewDialog, c: NewDialog, d: NewDialog)
    returns (older: Option<int>, newer: Option<int>)
    requires a.zIndex.None? && b.zIndex.None? && c.zIndex.None? && d.zIndex.None?
    ensures older.Some? && newer.Some? && older.value < newer.value
  {
    var ids := new IdSource();
    var store := new DialogStore(None, ids);
    var idA := store.AddDialogOnTop(a);
    var idB := store.AddDialogOnTop(b);
    var idC := store.AddDialogOnTop(c);
    var cInstance := store.dialogs[|store.dialogs| - 1];
    assert cInstance.id == idC && cInstance.zIndex.Some?;
    assert idA < idC && idB < idC;
    var withC := store.dialogs;
    assert cInstance in withC;
    store.RemoveDialog(idA);
    WithoutKeepsExactlyOthers(withC, idA);
    var withoutA := store.dialogs;
    assert cInstance in withoutA;
    store.RemoveDialog(idB);
    WithoutKeepsExactlyOthers(withoutA, idB);
    assert cInstance in store.dialogs;
    store.Commit();
    var k :| 0 <= k < |store.dialogs| && store.dialogs[k] == cInstance;
    var before := store.dialogs;
    var idD := store.AddDialogOnTop(d);
    assert store.dialogs[k] == before[k];
    older, newer := store.dialogs[k].zIndex, store.dialogs[|store.dialogs| - 1].zIndex;
  }


  /** Dialogs opened through the store one by one, each followed by a
      commit: the store ends with exactly the list `OpenInTurn` describes, so
      `OpenedInTurnStackUp` speaks about `AddDialog` and `Commit`. */
  method OpenEachInTurn(store: DialogStore, news: seq<NewDialog>) returns (ids: seq<Id>)
    requires store.committed == store.dialogs
    modifies store, store.ids
    ensures store.dialogs == OpenInTurn(old(store.dialogs), store.defaultZIndex, old(store.ids.next), news)
    ensures store.committed == store.dialogs
    ensures |ids| == |news| && forall k :: 0 <= k < |ids| ==> ids[k] == old(store.ids.next) + k
  {
    ids := [];
    var i := 0;
    while i < |news|
      invariant 0 <= i <= |news|
      invariant store.committed == store.dialogs
      invariant store.ids.next == old(store.ids.next) + i
      invariant |ids| == i && forall k :: 0 <= k < i ==> ids[k] == old(store.ids.next) + k
      invariant OpenInTurn(store.dialogs, store.defaultZIndex, store.ids.next, news[i..])
                == OpenInTurn(old(store.dialogs), store.defaultZIndex, old(store.ids.next), news)
    {
      assert news[i..][1..] == news[i + 1..];
      var id := store.AddDialog(news[i]);
      store.Commit();
      ids := ids + [id];
      i := i + 1;
    }
    assert news[i..] == [];
  }

  /** Dialogs opened through the corrected add one by one, with no commit in
      between: the store ends with exactly the list `OpenOnTop` describes, so
      `OnTopStacksConsecutively` speaks about `AddDialogOnTop`. */
  method OpenEachOnTop(store: DialogStore, news: seq<NewDialog>) returns (ids: seq<Id>)
    modifies store, store.ids
    ensures store.dialogs == OpenOnTop(old(store.dialogs), store.defaultZIndex, old(store.ids.next), news)
    ensures store.committed == old(store.committed)
    ensures |ids| == |news| && forall k :: 0 <= k < |ids| ==> ids[k] == old(store.ids.next) + k
  {
    ids := [];
    var i := 0;
    while i < |news|
      invariant 0 <= i <= |news|
      invariant store.committed == old(store.committed)
      invariant store.ids.next == old(store.ids.next) + i
      invariant |ids| == i && forall k :: 0 <= k < i ==> ids[k] == old(store.ids.next) + k
      invariant OpenOnTop(store.dialogs, store.defaultZIndex, store.ids.next, news[i..])
                == OpenOnTop(old(store.dialogs), store.defaultZIndex, old(store.ids.next), news)
    {
      assert news[i..][1..] == news[i + 1..];
      var id := store.AddDialogOnTop(news[i]);
      ids := ids + [id];
      i := i + 1;
    }
    assert news[i..] == [];
  }

  /** On an empty store, automatic dialogs opened through the corrected add
      get 50, 51, ... with no commit in between. */
  method OnTopStoreStacksConsecutively(news: seq<NewDialog>) returns (shown: seq<DialogInstance>)
    requires forall k :: 0 <= k < |news| ==> news[k].zIndex.None?
    ensures |shown| == |news|
    ensures forall k :: 0 <= k < |shown| ==> shown[k].zIndex == Some(DefaultZIndex + k)
  {
    var ids := new IdSource();
    var store := new DialogStore(None, ids);
    var issued := OpenEachOnTop(store, news);
    OnTopStacksConsecutively([], DefaultZIndex, 0, news);
    shown := store.dialogs;
  }

  /** On an empty store, automatic dialogs each followed by a commit get 50,
      51, ... and the ids the shared source hands out in turn. */
  method InTurnStoreStacksUp(news: seq<NewDialog>) returns (shown: seq<DialogInstance>, issued: seq<Id>)
    requires forall k :: 0 <= k < |news| ==> news[k].zIndex.None?
    ensures |shown| == |news| && |issued| == |news|
    ensures forall k :: 0 <= k < |shown| ==> shown[k].zIndex == Some(DefaultZIndex + k) && shown[k].id == issued[k]
  {
    var ids := new IdSource();
    var store := new DialogStore(None, ids);
    issued := OpenEachInTurn(store, news);
    OpenedInTurnStackUp([], DefaultZIndex, 0, news);
    shown := store.dialogs;
  }
}

/**
 Writes to the access control list through its cluster: single items by their list
 index, whole lists item by item, and what runs of them do to the fabrics.
 */
module AccessControls {
  import opened Bytes
  import opened Tlv
  import opened TlvParser
  import Schema
  import opened Derive
  import opened DecodeTypes
  import opened Acls
  import opened AclStores

  datatype ListOp = AddItem | EditItem(index: nat) | DeleteItem(index: nat) | DeleteList

  /** The status codes a failed write can have. */
  datatype Code = ConstraintError | ResourceExhausted

  datatype Done = Done(entries: Entries, failure: Option<Code>)

  /** `AclEntry::from_tlv`. */
  function DecodeEntry(e: Element): Result<AclEntry, Error> {
    match Decode(ACL_ENTRY, e)
    case Ok(v) => Ok(EntryOf(v))
    case Err(err) => Err(err)
  }

  function CodeOf(r: Outcome): Option<Code> {
    if r.Pass? then None else if r.error == NoSpace then Some(ResourceExhausted) else Some(ConstraintError)
  }

  /** The change is made in memory before it is stored: when storing fails, the write
      fails but the change stays. */
  function Finish(c: Changed, store: Entries -> Outcome): Done {
    if c.r.Fail? then Done(c.entries, CodeOf(c.r)) else Done(c.entries, CodeOf(store(c.entries)))
  }

  /** `write_acl_attr`: the entry belongs to the accessing fabric whatever it says,
      and a list index is cut to a byte. */
  function WriteAcl(entries: Entries, op: ListOp, data: Element, fab: nat, store: Entries -> Outcome): Done {
    match op
    case AddItem =>
      (match DecodeEntry(data)
       case Err(_) => Done(entries, Some(ConstraintError))
       case Ok(e) => Finish(Add(entries, e.(fabIdx := Some(fab))), store))
    case EditItem(index) =>
      (match DecodeEntry(data)
       case Err(_) => Done(entries, Some(ConstraintError))
       case Ok(e) => Finish(Edit(entries, index % 256, Some(fab), e.(fabIdx := Some(fab))), store))
    case DeleteItem(index) => Finish(Delete(entries, index % 256, Some(fab)), store)
    case DeleteList => Finish(Changed(DeleteForFabric(entries, Some(fab)), Pass), store)
  }

  function AddEach(entries: Entries, es: seq<Element>, fab: nat, store: Entries -> Outcome): Done
    decreases |es|
  {
    if es == [] then Done(entries, None)
    else
      var d := WriteAcl(entries, AddItem, es[0], fab, store);
      if d.failure.Some? then d else AddEach(d.entries, es[1..], fab, store)
  }

  /** `attr_list_write`: a list index edits or deletes an item, an array replaces the
      list, and anything else is added to it. */
  function ListWrite(entries: Entries, index: Option<nat>, data: Element, fab: nat, store: Entries -> Outcome): Done {
    match index
    case Some(i) => WriteAcl(entries, if data.val.Null? then DeleteItem(i) else EditItem(i), data, fab, store)
    case None =>
      if IsKind(data, Array) then
        var d := WriteAcl(entries, DeleteList, data, fab, store);
        if d.failure.Some? then d else AddEach(d.entries, Children(Enter(data.val.body)), fab, store)
      else WriteAcl(entries, AddItem, data, fab, store)
  }

  // ---------------------------------------------------------------- whole lists

  /** The entry an element stands for when a fabric writes it. */
  function Own(e: Element, fab: nat): Option<AclEntry> {
    match DecodeEntry(e)
    case Ok(x) => Some(x.(fabIdx := Some(fab)))
    case Err(_) => None
  }

  predicate AllOwn(es: seq<Element>, fab: nat) {
    hide Own;
    forall i :: 0 <= i < |es| ==> Own(es[i], fab).Some?
  }

  function Owned(es: seq<Element>, fab: nat): (r: seq<AclEntry>)
    requires AllOwn(es, fab)
    ensures |r| == |es|
  {
    hide Own;
    if es == [] then [] else [Own(es[0], fab).value] + Owned(es[1..], fab)
  }

  /** The first `n` items were taken over in order, behind what was there. */
  ghost predicate TookOver(entries: Entries, d: Done, es: seq<Element>, n: nat, fab: nat) {
    n <= |es| && AllOwn(es[..n], fab)
    && View(d.entries, Some(fab)) == View(entries, Some(fab)) + Owned(es[..n], fab)
  }

  lemma AddItemTakesOver(entries: Entries, e: Element, fab: nat, store: Entries -> Outcome)
    requires FreeBehind(entries, Some(fab))
    ensures var d := WriteAcl(entries, AddItem, e, fab, store);
            FreeBehind(d.entries, Some(fab))
            && (if d.entries == entries then d.failure.Some?
                else Own(e, fab).Some? && View(d.entries, Some(fab)) == View(entries, Some(fab)) + [Own(e, fab).value])
  {
    hide DecodeEntry;
    if DecodeEntry(e).Ok? {
      var x := DecodeEntry(e).value.(fabIdx := Some(fab));
      AddActsOnView(entries, x, None);
    }
  }

  /** Adding a list item by item takes over a first part of it, all of it on success. */
  lemma {:induction false} AddEachTakesOver(entries: Entries, es: seq<Element>, fab: nat, store: Entries -> Outcome) returns (n: nat)
    requires FreeBehind(entries, Some(fab))
    ensures TookOver(entries, AddEach(entries, es, fab, store), es, n, fab)
    ensures AddEach(entries, es, fab, store).failure.None? ==> n == |es|
    decreases |es|
  {
    hide WriteAcl, Own, FreeBehind, TookOver;
    if es == [] {
      n := 0;
      TookNothing(entries, Done(entries, None), es, fab);
    } else {
      var d := WriteAcl(entries, AddItem, es[0], fab, store);
      AddItemTakesOver(entries, es[0], fab, store);
      if d.failure.Some? {
        if d.entries == entries {
          n := 0;
          TookNothing(entries, d, es, fab);
        } else {
          n := 1;
          TookNothing(d.entries, d, es[1..], fab);
          TookNext(entries, d.entries, d, es, 0, fab);
        }
      } else {
        n := AddEachTakesOver(d.entries, es[1..], fab, store);
        TookNext(entries, d.entries, AddEach(d.entries, es[1..], fab, store), es, n, fab);
        n := n + 1;
      }
    }
  }

  lemma TookNothing(entries: Entries, d: Done, es: seq<Element>, fab: nat)
    requires d.entries == entries
    ensures TookOver(entries, d, es, 0, fab)
  {
    hide View, Own;
    assert View(entries, Some(fab)) + [] == View(entries, Some(fab));
  }

  lemma TookNext(entries: Entries, after: Entries, d: Done, es: seq<Element>, n: nat, fab: nat)
    requires es != [] && Own(es[0], fab).Some? && TookOver(after, d, es[1..], n, fab)
    requires View(after, Some(fab)) == View(entries, Some(fab)) + [Own(es[0], fab).value]
    ensures TookOver(entries, d, es, n + 1, fab)
  {
    hide Own, View;
    var more, rest := es[..n + 1], es[1..][..n];
    assert more[0] == es[0] && more[1..] == rest;
    assert AllOwn(more, fab) by {
      forall i | 0 <= i < |more|
        ensures Own(more[i], fab).Some?
      {
        assert i > 0 ==> more[i] == rest[i - 1];
      }
    }
    assert Owned(more, fab) == [Own(es[0], fab).value] + Owned(rest, fab);
  }

  lemma DeleteListClears(entries: Entries, data: Element, fab: nat, store: Entries -> Outcome)
    ensures var d := WriteAcl(entries, DeleteList, data, fab, store);
            View(d.entries, Some(fab)) == [] && FreeBehind(d.entries, Some(fab))
  {
    DeleteForFabricClears(entries, Some(fab), None);
  }

  /** After a successful write of a whole list, the fabric's entries are exactly that
      list, in order, wherever they went. A write that fails on the way leaves a first
      part of the new list; the old list is gone. */
  lemma WholeListTakesOver(entries: Entries, data: Element, fab: nat, store: Entries -> Outcome) returns (n: nat)
    requires IsKind(data, Array)
    ensures var es := Children(Enter(data.val.body)); var d := ListWrite(entries, None, data, fab, store);
            n <= |es| && AllOwn(es[..n], fab)
            && View(d.entries, Some(fab)) == Owned(es[..n], fab) && (d.failure.None? ==> n == |es|)
  {
    hide WriteAcl, AddEach, Children, Own, FreeBehind;
    var es := Children(Enter(data.val.body));
    var d := WriteAcl(entries, DeleteList, data, fab, store);
    DeleteListClears(entries, data, fab, store);
    if d.failure.Some? {
      n := 0;
    } else {
      n := AddEachTakesOver(d.entries, es, fab, store);
      assert [] + Owned(es[..n], fab) == Owned(es[..n], fab);
    }
  }

  // ---------------------------------------------------------------- when a whole list is taken

  /** Slots without an entry. */
  function Free(entries: Entries): (n: nat)
    ensures n <= |entries|
  {
    if entries == [] then 0 else (if entries[0].None? then 1 else 0) + Free(entries[1..])
  }

  /** The slots after every one of `xs` was added. */
  function AddAll(entries: Entries, xs: seq<AclEntry>): Entries
    decreases |xs|
  {
    if xs == [] then entries else AddAll(Add(entries, xs[0]).entries, xs[1..])
  }

  /** The store takes the slots after each addition. */
  predicate StoresEach(entries: Entries, xs: seq<AclEntry>, store: Entries -> Outcome)
    decreases |xs|
  {
    xs == [] || (var next := Add(entries, xs[0]).entries; store(next).Pass? && StoresEach(next, xs[1..], store))
  }

  lemma {:induction false} FreeSlot(entries: Entries, k: nat, e: AclEntry)
    requires k < |entries| && entries[k].None?
    ensures Free(entries[k := Some(e)]) + 1 == Free(entries)
  {
    if k > 0 {
      FreeSlot(entries[1..], k - 1, e);
      assert entries[k := Some(e)][1..] == entries[1..][k - 1 := Some(e)];
    } else {
      assert entries[0 := Some(e)][1..] == entries[1..];
    }
  }

  lemma {:induction false} NoFree(entries: Entries)
    ensures Free(entries) == 0 <==> forall i :: 0 <= i < |entries| ==> entries[i].Some?
  {
    if entries != [] {
      NoFree(entries[1..]);
      assert forall i :: 1 <= i < |entries| ==> entries[i] == entries[1..][i - 1];
    }
  }

  /** An entry is added exactly if its fabric has fewer than three and a slot is free. */
  lemma AddPasses(entries: Entries, e: AclEntry)
    ensures var c := Add(entries, e);
            (c.r.Pass? <==> |View(entries, e.fabIdx)| < ENTRIES_PER_FABRIC && Free(entries) > 0)
            && (c.r.Pass? ==> Free(c.entries) + 1 == Free(entries) && |View(c.entries, e.fabIdx)| == |View(entries, e.fabIdx)| + 1)
  {
    NoFree(entries);
    AddActsOnView(entries, e, if e.fabIdx.None? then Some(0) else None);
    var k := Position(entries, (x: Option<AclEntry>) => x.None?);
    if k.Some? {
      FreeSlot(entries, k.value, e);
    }
  }

  /** The items of a list are taken exactly if all of them decode, the fabric has room
      for them, slots are free for them, and every step can be stored. */
  lemma {:induction false} AddEachPassesIff(entries: Entries, es: seq<Element>, fab: nat, store: Entries -> Outcome)
    ensures AddEach(entries, es, fab, store).failure.None?
       <==> AllOwn(es, fab) && (es == [] || |View(entries, Some(fab))| + |es| <= ENTRIES_PER_FABRIC) && |es| <= Free(entries)
            && StoresEach(entries, Owned(es, fab), store)
    ensures AddEach(entries, es, fab, store).failure.None? ==>
              AddEach(entries, es, fab, store).entries == AddAll(entries, Owned(es, fab))
    decreases |es|
  {
    hide DecodeEntry, View, Free, Own, Add;
    if es != [] {
      var d := WriteAcl(entries, AddItem, es[0], fab, store);
      AllOwnParts(es, fab);
      AddItemPasses(entries, es[0], fab, store);
      if Own(es[0], fab).Some? {
        var x := Own(es[0], fab).value;
        OwnIsOurs(es[0], fab);
        AddPasses(entries, x);
        if d.failure.None? {
          AddEachPassesIff(d.entries, es[1..], fab, store);
        }
        if AllOwn(es, fab) {
          assert Owned(es, fab)[1..] == Owned(es[1..], fab);
        }
      }
    }
  }

  lemma OwnIsOurs(e: Element, fab: nat)
    ensures Own(e, fab).Some? ==> Own(e, fab).value.fabIdx == Some(fab)
  {
  }

  lemma AllOwnParts(es: seq<Element>, fab: nat)
    requires es != []
    ensures AllOwn(es, fab) <==> Own(es[0], fab).Some? && AllOwn(es[1..], fab)
  {
    hide Own;
    if Own(es[0], fab).Some? && AllOwn(es[1..], fab) {
      forall i | 0 <= i < |es|
        ensures Own(es[i], fab).Some?
      {
        assert i > 0 ==> es[i] == es[1..][i - 1];
      }
    }
    if AllOwn(es, fab) {
      forall i | 0 <= i < |es[1..]|
        ensures Own(es[1..][i], fab).Some?
      {
        assert es[1..][i] == es[i + 1];
      }
    }
  }

  lemma AddItemPasses(entries: Entries, e: Element, fab: nat, store: Entries -> Outcome)
    ensures var d := WriteAcl(entries, AddItem, e, fab, store);
            (d.failure.None? <==> Own(e, fab).Some? && Add(entries, Own(e, fab).value).r.Pass?
                                  && store(Add(entries, Own(e, fab).value).entries).Pass?)
            && (d.failure.None? ==> d.entries == Add(entries, Own(e, fab).value).entries)
  {
    hide DecodeEntry, Add;
  }

  /** A whole list is taken exactly if every item decodes, there are at most three, the
      slots left when the fabric's own are cleared are enough, and all of it can be
      stored; nothing depends on what the fabric had before. */
  lemma WholeListTakenIff(entries: Entries, data: Element, fab: nat, store: Entries -> Outcome)
    requires IsKind(data, Array)
    ensures var es := Children(Enter(data.val.body)); var cleared := DeleteForFabric(entries, Some(fab));
            ListWrite(entries, None, data, fab, store).failure.None?
            <==> AllOwn(es, fab) && |es| <= ENTRIES_PER_FABRIC && |es| <= Free(cleared)
                 && store(cleared).Pass? && StoresEach(cleared, Owned(es, fab), store)
  {
    hide AddEach, Children, AllOwn, Owned, StoresEach, Free, View;
    var es, cleared := Children(Enter(data.val.body)), DeleteForFabric(entries, Some(fab));
    DeleteForFabricClears(entries, Some(fab), None);
    AddEachPassesIff(cleared, es, fab, store);
  }

  lemma {:induction false} AllStored(entries: Entries, xs: seq<AclEntry>, store: Entries -> Outcome)
    requires forall x :: store(x) == Pass
    ensures StoresEach(entries, xs, store)
    decreases |xs|
  {
    if xs != [] {
      AllStored(Add(entries, xs[0]).entries, xs[1..], store);
    }
  }

  /** With a store that takes everything, the condition is one on the request and on the
      slots other fabrics leave. */
  lemma WholeListTakenIfStored(entries: Entries, data: Element, fab: nat, store: Entries -> Outcome)
    requires IsKind(data, Array) && forall x :: store(x) == Pass
    ensures var es := Children(Enter(data.val.body));
            ListWrite(entries, None, data, fab, store).failure.None?
            <==> AllOwn(es, fab) && |es| <= ENTRIES_PER_FABRIC && |es| <= Free(DeleteForFabric(entries, Some(fab)))
  {
    hide ListWrite, Children, AllOwn, StoresEach, Free, DeleteForFabric;
    var es := Children(Enter(data.val.body));
    WholeListTakenIff(entries, data, fab, store);
    if AllOwn(es, fab) {
      AllStored(DeleteForFabric(entries, Some(fab)), Owned(es, fab), store);
    }
  }

  /** One good item in front of one that does not decode: the write fails, the fabric's
      old entries are gone, and the good item is there instead. */
  lemma FailedWriteLosesTheList(entries: Entries, data: Element, fab: nat, store: Entries -> Outcome)
    requires IsKind(data, Array) && (forall x :: store(x) == Pass) && View(entries, Some(fab)) != []
    requires var es := Children(Enter(data.val.body)); |es| == 2 && Own(es[0], fab).Some? && Own(es[1], fab).None?
    ensures var es := Children(Enter(data.val.body)); var d := ListWrite(entries, None, data, fab, store);
            d.failure == Some(ConstraintError) && View(d.entries, Some(fab)) == [Own(es[0], fab).value]
  {
    hide DecodeEntry, Children, View, Add, FreeBehind, Free;
    var es := Children(Enter(data.val.body));
    var d := WriteAcl(entries, DeleteList, data, fab, store);
    DeleteListClears(entries, data, fab, store);
    ClearedIsFree(entries, Some(fab));
    AddItemTakesOver(d.entries, es[0], fab, store);
    OwnIsOurs(es[0], fab);
    AddPasses(d.entries, Own(es[0], fab).value);
    AddItemPasses(d.entries, es[0], fab, store);
    var e := WriteAcl(d.entries, AddItem, es[0], fab, store);
    assert e.entries != d.entries;
    assert AddEach(e.entries, es[1..], fab, store) == Done(e.entries, Some(ConstraintError));
  }

  lemma ClearedIsFree(entries: Entries, fab: Option<nat>)
    requires View(entries, fab) != []
    ensures Free(DeleteForFabric(entries, fab)) > 0
  {
    var e := View(entries, fab)[0];
    InView(entries, fab, e);
    var i :| 0 <= i < |entries| && entries[i] == Some(e);
    NoFree(DeleteForFabric(entries, fab));
    assert DeleteForFabric(entries, fab)[i].None?;
  }

  // ---------------------------------------------------------------- list indexes

  /** What a list index means: the position in the list of the fabric's entries, which is
      the position in the list it reads. */
  predicate ActsOnPosition(entries: Entries, after: Entries, index: nat, replacement: Option<AclEntry>, fab: nat, failed: bool) {
    var (v, w) := (View(entries, Some(fab)), View(after, Some(fab)));
    if index >= |v| then failed && w == v
    else if replacement.Some? then w == v[index := replacement.value]
    else w == v[..index] + v[index + 1..]
  }

  /** Editing or deleting by list index acts on that position of the fabric's list, if the
      index is below 256 or the cut index is outside of the list too. */
  lemma IndexActsOnPosition(entries: Entries, index: nat, data: Element, fab: nat, store: Entries -> Outcome)
    requires data.val.Null? || Own(data, fab).Some?
    requires |View(entries, Some(fab))| <= ENTRIES_PER_FABRIC && index < 0x1_0000
    requires index < 256 || index % 256 >= |View(entries, Some(fab))|
    ensures var d := ListWrite(entries, Some(index), data, fab, store);
            ActsOnPosition(entries, d.entries, index, if data.val.Null? then None else Own(data, fab), fab, d.failure.Some?)
            && (index >= |View(entries, Some(fab))| ==> d.failure == Some(ConstraintError))
  {
    hide Own, View, Edit, Delete, ListWrite;
    if data.val.Null? {
      DeletesByByte(entries, index, data, fab, store);
      DeleteActsOnView(entries, index % 256, Some(fab), None);
    } else {
      EditsByByte(entries, index, data, fab, store);
      OwnIsOurs(data, fab);
      EditActsOnView(entries, index % 256, Some(fab), Own(data, fab).value, None);
    }
  }

  lemma EditsByByte(entries: Entries, index: nat, data: Element, fab: nat, store: Entries -> Outcome)
    requires !data.val.Null? && Own(data, fab).Some?
    ensures var d := ListWrite(entries, Some(index), data, fab, store);
            var c := Edit(entries, index % 256, Some(fab), Own(data, fab).value);
            d.entries == c.entries && (c.r == Fail(NotFound) ==> d.failure == Some(ConstraintError))
            && (c.r.Pass? ==> d.failure == CodeOf(store(c.entries)))
  {
    hide View, Edit, DecodeEntry;
  }

  /** Otherwise an item is deleted that the index does not name: index 256 deletes the
      first one. So deletion follows the list exactly under that condition. */
  lemma DeletesThePositionIff(entries: Entries, index: nat, data: Element, fab: nat, store: Entries -> Outcome)
    requires data.val.Null? && |View(entries, Some(fab))| <= ENTRIES_PER_FABRIC && index < 0x1_0000
    ensures var d := ListWrite(entries, Some(index), data, fab, store);
            ActsOnPosition(entries, d.entries, index, None, fab, d.failure.Some?)
            <==> index < 256 || index % 256 >= |View(entries, Some(fab))|
  {
    hide View, ListWrite, ActsOnPosition, Own;
    if index < 256 || index % 256 >= |View(entries, Some(fab))| {
      IndexActsOnPosition(entries, index, data, fab, store);
    } else {
      DeletesAnother(entries, index, data, fab, store);
    }
  }

  lemma DeletesAnother(entries: Entries, index: nat, data: Element, fab: nat, store: Entries -> Outcome)
    requires data.val.Null? && index % 256 < |View(entries, Some(fab))| <= index
    ensures var d := ListWrite(entries, Some(index), data, fab, store);
            !ActsOnPosition(entries, d.entries, index, None, fab, d.failure.Some?)
  {
    hide View, Delete, ListWrite;
    DeletesByByte(entries, index, data, fab, store);
    DeleteActsOnView(entries, index % 256, Some(fab), None);
  }

  lemma DeletesByByte(entries: Entries, index: nat, data: Element, fab: nat, store: Entries -> Outcome)
    requires data.val.Null?
    ensures var d := ListWrite(entries, Some(index), data, fab, store); var c := Delete(entries, index % 256, Some(fab));
            d.entries == c.entries && (c.r == Fail(NotFound) ==> d.failure == Some(ConstraintError))
            && (c.r.Pass? ==> d.failure == CodeOf(store(c.entries)))
  {
    hide View, Delete;
  }

  /** The same for edits. The one edit by a wrong index that goes unnoticed is one that
      is not stored and puts the item there that was there. */
  lemma EditsThePositionIff(entries: Entries, index: nat, data: Element, fab: nat, store: Entries -> Outcome)
    requires !data.val.Null? && Own(data, fab).Some?
    requires |View(entries, Some(fab))| <= ENTRIES_PER_FABRIC && index < 0x1_0000
    ensures var d := ListWrite(entries, Some(index), data, fab, store); var v := View(entries, Some(fab)); var i := index % 256;
            ActsOnPosition(entries, d.entries, index, Own(data, fab), fab, d.failure.Some?)
            <==> index < 256 || i >= |v| || (v[i] == Own(data, fab).value && store(entries).Fail?)
  {
    hide Own, View, Edit, ListWrite;
    var i, x := index % 256, Own(data, fab).value;
    EditsByByte(entries, index, data, fab, store);
    OwnIsOurs(data, fab);
    EditActsOnView(entries, i, Some(fab), x, None);
    if i < |View(entries, Some(fab))| && View(entries, Some(fab))[i] == x {
      EditsNothing(entries, i, Some(fab), x);
    }
  }

  /** Replacing an item by itself leaves the slots as they are. */
  lemma EditsNothing(entries: Entries, index: nat, fab: Option<nat>, e: AclEntry)
    requires index < |View(entries, fab)| && View(entries, fab)[index] == e
    ensures Edit(entries, index, fab, e) == Changed(entries, Pass)
  {
    hide View, SlotOf;
    SlotOfPosition(entries, fab, index);
  }

  /** List index 256 overwrites the first entry. */
  lemma WrongIndexEdits(entries: Entries, data: Element, fab: nat, store: Entries -> Outcome)
    requires !data.val.Null? && Own(data, fab).Some? && View(entries, Some(fab)) != []
    ensures View(ListWrite(entries, Some(256), data, fab, store).entries, Some(fab))
         == View(entries, Some(fab))[0 := Own(data, fab).value]
  {
    hide Own, View, Edit, ListWrite;
    EditsByByte(entries, 256, data, fab, store);
    OwnIsOurs(data, fab);
    EditActsOnView(entries, 0, Some(fab), Own(data, fab).value, None);
  }

  lemma WrongIndexDeletes(e: AclEntry, data: Element, store: Entries -> Outcome)
    requires data.val.Null?
    ensures var entries: Entries := [Some(e.(fabIdx := Some(1)))];
            View(entries, Some(1)) == [e.(fabIdx := Some(1))] && View(ListWrite(entries, Some(256), data, 1, store).entries, Some(1)) == []
  {
    var entries: Entries := [Some(e.(fabIdx := Some(1)))];
    assert entries[1..] == [];
    DeleteActsOnView(entries, 0, Some(1), None);
  }

  // ---------------------------------------------------------------- changes that cannot be stored

  /** A write that is reported as failed and changed the list of its fabric all the same. */
  predicate FailedButChanged(entries: Entries, d: Done, fab: nat) {
    d.failure.Some? && View(d.entries, Some(fab)) != View(entries, Some(fab))
  }

  /** The change itself goes well, puts something new into the list or takes something
      out of it, and what comes of it cannot be stored. */
  predicate ChangesUnstored(entries: Entries, op: ListOp, data: Element, fab: nat, store: Entries -> Outcome) {
    var v := View(entries, Some(fab));
    match op
    case AddItem =>
      Own(data, fab).Some? && |v| < ENTRIES_PER_FABRIC && Free(entries) > 0 && store(Add(entries, Own(data, fab).value).entries).Fail?
    case EditItem(index) =>
      Own(data, fab).Some? && index % 256 < |v| && v[index % 256] != Own(data, fab).value
      && store(Edit(entries, index % 256, Some(fab), Own(data, fab).value).entries).Fail?
    case DeleteItem(index) => index % 256 < |v| && store(Delete(entries, index % 256, Some(fab)).entries).Fail?
    case DeleteList => v != [] && store(DeleteForFabric(entries, Some(fab))).Fail?
  }

  /** A failed write leaves the fabric's list as it was unless the change went well and
      could not be stored. */
  lemma FailedButChangedIff(entries: Entries, op: ListOp, data: Element, fab: nat, store: Entries -> Outcome)
    ensures FailedButChanged(entries, WriteAcl(entries, op, data, fab, store), fab)
       <==> ChangesUnstored(entries, op, data, fab, store)
  {
    match op {
      case AddItem => AddFailedIff(entries, data, fab, store);
      case EditItem(index) => EditFailedIff(entries, index, data, fab, store);
      case DeleteItem(index) =>
        hide View, Delete;
        DeleteActsOnView(entries, index % 256, Some(fab), None);
      case DeleteList =>
        hide View, DeleteForFabric;
        DeleteForFabricClears(entries, Some(fab), None);
    }
  }

  lemma AddFailedIff(entries: Entries, data: Element, fab: nat, store: Entries -> Outcome)
    ensures FailedButChanged(entries, WriteAcl(entries, AddItem, data, fab, store), fab)
       <==> ChangesUnstored(entries, AddItem, data, fab, store)
  {
    hide View, Add, DecodeEntry, Free;
    if Own(data, fab).Some? {
      var x := Own(data, fab).value;
      AddPasses(entries, x);
      AddActsOnView(entries, x, None);
    }
  }

  lemma EditFailedIff(entries: Entries, index: nat, data: Element, fab: nat, store: Entries -> Outcome)
    ensures FailedButChanged(entries, WriteAcl(entries, EditItem(index), data, fab, store), fab)
       <==> ChangesUnstored(entries, EditItem(index), data, fab, store)
  {
    hide View, Edit, DecodeEntry;
    if Own(data, fab).Some? {
      EditActsOnView(entries, index % 256, Some(fab), Own(data, fab).value, None);
    }
  }

  /** The list write with an index, and the one with a single item, are such writes. */
  lemma FailedListWriteIff(entries: Entries, index: Option<nat>, data: Element, fab: nat, store: Entries -> Outcome)
    requires index.None? ==> !IsKind(data, Array)
    ensures var op := if index.None? then AddItem
                      else if data.val.Null? then DeleteItem(index.value) else EditItem(index.value);
            FailedButChanged(entries, ListWrite(entries, index, data, fab, store), fab)
            <==> ChangesUnstored(entries, op, data, fab, store)
  {
    hide WriteAcl, ChangesUnstored, FailedButChanged;
    FailedButChangedIff(entries, if index.None? then AddItem
                                 else if data.val.Null? then DeleteItem(index.value) else EditItem(index.value), data, fab, store);
  }

  /** At a store that takes nothing: an entry is added to an empty slot, deleted again,
      and both writes are reported as failed. */
  lemma UnstoredStays(data: Element, fab: nat, store: Entries -> Outcome)
    requires Own(data, fab).Some? && forall x :: store(x).Fail?
    ensures var x := Own(data, fab).value;
            var d := WriteAcl([None], AddItem, data, fab, store); var e := WriteAcl([Some(x)], DeleteItem(0), data, fab, store);
            d.failure.Some? && View([None], Some(fab)) == [] && View(d.entries, Some(fab)) == [x]
            && e.failure.Some? && View([Some(x)], Some(fab)) == [x] && View(e.entries, Some(fab)) == []
  {
    hide DecodeEntry;
    var x := Own(data, fab).value;
    OneSlot(x, fab);
    assert WriteAcl([None], AddItem, data, fab, store).entries == [Some(x)];
    assert WriteAcl([Some(x)], DeleteItem(0), data, fab, store).entries == [None];
  }

  lemma OneSlot(x: AclEntry, fab: nat)
    requires x.fabIdx == Some(fab)
    ensures View([None], Some(fab)) == [] && View([Some(x)], Some(fab)) == [x]
    ensures Add([None], x) == Changed([Some(x)], Pass) && Delete([Some(x)], 0, Some(fab)) == Changed([None], Pass)
  {
    assert [Some(x)][1..] == [];
    assert SlotOf([Some(x)], Some(fab), 0) == Some(0);
    var none: Entries := [None];
    assert none[1..] == [] && none[0 := Some(x)] == [Some(x)] && [Some(x)][0 := None] == none;
    assert Position(none, (y: Option<AclEntry>) => y.None?) == Some(0);
  }

  /** The code a store's answer becomes. */
  lemma StoreCodes(r: Outcome)
    ensures CodeOf(r) == match r
                         case Pass => None
                         case Fail(NoSpace) => Some(ResourceExhausted)
                         case Fail(_) => Some(ConstraintError)
  {
  }

  /** How a write ends, exactly: an item that does not decode or a position that is not
      there is a constraint error, a fabric with three entries or a list without a free
      slot has exhausted its resources, and otherwise the store decides. */
  lemma WriteEnds(entries: Entries, op: ListOp, data: Element, fab: nat, store: Entries -> Outcome)
    ensures var d := WriteAcl(entries, op, data, fab, store); var v := View(entries, Some(fab));
            match op
            case AddItem =>
              if Own(data, fab) == None then d.failure == Some(ConstraintError)
              else if |v| >= 3 || Free(entries) == 0 then d.failure == Some(ResourceExhausted)
              else d.failure == CodeOf(store(d.entries))
            case EditItem(index) =>
              if Own(data, fab) == None || index % 256 >= |v| then d.failure == Some(ConstraintError)
              else d.failure == CodeOf(store(d.entries))
            case DeleteItem(index) =>
              if index % 256 >= |v| then d.failure == Some(ConstraintError) else d.failure == CodeOf(store(d.entries))
            case DeleteList => d.failure == CodeOf(store(d.entries))
  {
    match op {
      case AddItem => AddEnds(entries, data, fab, store);
      case EditItem(index) => EditEnds(entries, index, data, fab, store);
      case DeleteItem(index) =>
        hide View, Delete;
        DeleteActsOnView(entries, index % 256, Some(fab), None);
      case DeleteList =>
        hide View, DeleteForFabric;
    }
  }

  lemma AddEnds(entries: Entries, data: Element, fab: nat, store: Entries -> Outcome)
    ensures var d := WriteAcl(entries, AddItem, data, fab, store); var v := View(entries, Some(fab));
            if Own(data, fab) == None then d.failure == Some(ConstraintError)
            else if |v| >= 3 || Free(entries) == 0 then d.failure == Some(ResourceExhausted)
            else d.failure == CodeOf(store(d.entries))
  {
    hide View, Add, DecodeEntry, Free;
    if Own(data, fab).Some? {
      AddPasses(entries, Own(data, fab).value);
      AddActsOnView(entries, Own(data, fab).value, None);
    }
  }

  lemma EditEnds(entries: Entries, index: nat, data: Element, fab: nat, store: Entries -> Outcome)
    ensures var d := WriteAcl(entries, EditItem(index), data, fab, store); var v := View(entries, Some(fab));
            if Own(data, fab) == None || index % 256 >= |v| then d.failure == Some(ConstraintError)
            else d.failure == CodeOf(store(d.entries))
  {
    hide View, Edit, DecodeEntry;
    if Own(data, fab).Some? {
      EditActsOnView(entries, index % 256, Some(fab), Own(data, fab).value, None);
    }
  }

  // ---------------------------------------------------------------- other fabrics

  /** Slots of other fabrics are the same before and after. */
  predicate Outside(a: Entries, b: Entries, fab: nat) {
    |a| == |b| && forall k :: 0 <= k < |a| ==> a[k] == b[k] || (Ours(a[k], fab) && Ours(b[k], fab))
  }

  predicate Ours(slot: Option<AclEntry>, fab: nat) {
    slot.None? || slot.value.fabIdx == Some(fab)
  }

  lemma {:induction false} OutsideViews(a: Entries, b: Entries, fab: nat, other: Option<nat>)
    requires Outside(a, b, fab) && other != Some(fab)
    ensures View(a, other) == View(b, other)
  {
    if a != [] {
      assert forall k :: 0 <= k < |a[1..]| ==> a[1..][k] == a[k + 1] && b[1..][k] == b[k + 1];
      OutsideViews(a[1..], b[1..], fab, other);
    }
  }

  predicate Bounded(entries: Entries, fab: Option<nat>) {
    |View(entries, fab)| <= ENTRIES_PER_FABRIC
  }

  /** One slot of ours, and then none or one of ours, is a change of ours. */
  lemma SlotKeeps(entries: Entries, k: nat, x: Option<AclEntry>, fab: nat)
    requires k < |entries| && Ours(entries[k], fab) && Ours(x, fab)
    ensures Outside(entries, entries[k := x], fab)
  {
  }

  lemma ChangeKeeps(entries: Entries, index: nat, e: AclEntry, fab: nat)
    requires e.fabIdx == Some(fab)
    ensures Outside(entries, Add(entries, e).entries, fab) && Outside(entries, Edit(entries, index, Some(fab), e).entries, fab)
    ensures Outside(entries, Delete(entries, index, Some(fab)).entries, fab)
    ensures Outside(entries, DeleteForFabric(entries, Some(fab)), fab)
  {
    hide View, SlotOf;
    if SlotOf(entries, Some(fab), index).Some? {
      SlotKeeps(entries, SlotOf(entries, Some(fab), index).value, Some(e), fab);
      SlotKeeps(entries, SlotOf(entries, Some(fab), index).value, None, fab);
    }
  }

  lemma ChangeBounded(entries: Entries, index: nat, e: AclEntry, fab: nat)
    requires e.fabIdx == Some(fab) && Bounded(entries, Some(fab))
    ensures Bounded(Add(entries, e).entries, Some(fab)) && Bounded(Edit(entries, index, Some(fab), e).entries, Some(fab))
    ensures Bounded(Delete(entries, index, Some(fab)).entries, Some(fab))
    ensures Bounded(DeleteForFabric(entries, Some(fab)), Some(fab))
  {
    hide View, Add, Edit, Delete;
    AddActsOnView(entries, e, None);
    EditActsOnView(entries, index, Some(fab), e, None);
    DeleteActsOnView(entries, index, Some(fab), None);
    DeleteForFabricClears(entries, Some(fab), None);
  }

  /** One write keeps to its fabric and to the limit of that fabric. */
  lemma WriteKeeps(entries: Entries, op: ListOp, data: Element, fab: nat, store: Entries -> Outcome)
    ensures var d := WriteAcl(entries, op, data, fab, store);
            Outside(entries, d.entries, fab) && (Bounded(entries, Some(fab)) ==> Bounded(d.entries, Some(fab)))
  {
    hide DecodeEntry, Add, Edit, Delete, Bounded;
    var e := if DecodeEntry(data).Ok? then DecodeEntry(data).value.(fabIdx := Some(fab))
             else AclEntry(0, 0, [], [], Some(fab));
    var i := match op case EditItem(index) => index % 256 case DeleteItem(index) => index % 256 case _ => 0;
    ChangeKeeps(entries, i, e, fab);
    if Bounded(entries, Some(fab)) {
      ChangeBounded(entries, i, e, fab);
    }
  }

  lemma {:induction false} AddEachKeeps(entries: Entries, es: seq<Element>, fab: nat, store: Entries -> Outcome)
    ensures var d := AddEach(entries, es, fab, store);
            Outside(entries, d.entries, fab) && (Bounded(entries, Some(fab)) ==> Bounded(d.entries, Some(fab)))
    decreases |es|
  {
    hide WriteAcl, Bounded;
    if es != [] {
      WriteKeeps(entries, AddItem, es[0], fab, store);
      var d := WriteAcl(entries, AddItem, es[0], fab, store);
      AddEachKeeps(d.entries, es[1..], fab, store);
    }
  }

  lemma ListWriteKeeps(entries: Entries, index: Option<nat>, data: Element, fab: nat, store: Entries -> Outcome)
    ensures var d := ListWrite(entries, index, data, fab, store);
            Outside(entries, d.entries, fab) && (Bounded(entries, Some(fab)) ==> Bounded(d.entries, Some(fab)))
  {
    hide WriteAcl, AddEach, Bounded, Children;
    if index.Some? {
      WriteKeeps(entries, if data.val.Null? then DeleteItem(index.value) else EditItem(index.value), data, fab, store);
    } else if IsKind(data, Array) {
      WriteKeeps(entries, DeleteList, data, fab, store);
      AddEachKeeps(WriteAcl(entries, DeleteList, data, fab, store).entries, Children(Enter(data.val.body)), fab, store);
    } else {
      WriteKeeps(entries, AddItem, data, fab, store);
    }
  }

  /** What one fabric can do: add an entry when it is commissioned, and write the
      attribute. */
  datatype Request = Commission(e: AclEntry) | Write(index: Option<nat>, data: Element, store: Entries -> Outcome)

  function Serve(entries: Entries, q: Request, fab: nat): Entries {
    match q
    case Commission(e) => Add(entries, e.(fabIdx := Some(fab))).entries
    case Write(index, data, store) => ListWrite(entries, index, data, fab, store).entries
  }

  function ServeAll(entries: Entries, qs: seq<Request>, fab: nat): Entries
    decreases |qs|
  {
    if qs == [] then entries else ServeAll(Serve(entries, qs[0], fab), qs[1..], fab)
  }

  /** Over any run of requests of one fabric, the slots of all others stay as they
      are, and no fabric comes to hold more than three entries. */
  lemma {:induction false} RunKeepsToFabric(entries: Entries, qs: seq<Request>, fab: nat)
    ensures Outside(entries, ServeAll(entries, qs, fab), fab)
    ensures Bounded(entries, Some(fab)) ==> Bounded(ServeAll(entries, qs, fab), Some(fab))
    decreases |qs|
  {
    hide Bounded, ListWrite, Add;
    if qs != [] {
      match qs[0] {
        case Commission(e) =>
          ChangeKeeps(entries, 0, e.(fabIdx := Some(fab)), fab);
          if Bounded(entries, Some(fab)) {
            ChangeBounded(entries, 0, e.(fabIdx := Some(fab)), fab);
          }
        case Write(index, data, store) => ListWriteKeeps(entries, index, data, fab, store);
      }
      RunKeepsToFabric(Serve(entries, qs[0], fab), qs[1..], fab);
    }
  }

  /** So no decision about an accessor of another fabric changes, and neither does
      the number of entries of any other fabric. */
  lemma RunKeepsOtherDecisions(entries: Entries, qs: seq<Request>, fab: nat, a: Accessor, desc: AccessDesc)
    requires a.fabIdx != fab
    ensures Allow(ServeAll(entries, qs, fab), a, desc) == Allow(entries, a, desc)
    ensures View(ServeAll(entries, qs, fab), Some(a.fabIdx)) == View(entries, Some(a.fabIdx))
  {
    hide Outside, ServeAll, EntryAllows;
    RunKeepsToFabric(entries, qs, fab);
    OutsideViews(entries, ServeAll(entries, qs, fab), fab, Some(a.fabIdx));
    DecidedByView(entries, a, desc);
    DecidedByView(ServeAll(entries, qs, fab), a, desc);
  }

  /** Adding an entry never takes an access away. */
  lemma AddNeverRevokes(entries: Entries, e: AclEntry, a: Accessor, desc: AccessDesc)
    ensures Allow(entries, a, desc) ==> Allow(Add(entries, e).entries, a, desc)
  {
    hide EntryAllows;
    if a.authMode != PASE && Allow(entries, a, desc) {
      var i :| 0 <= i < |entries| && entries[i].Some? && EntryAllows(entries[i].value, a, desc);
      assert Add(entries, e).entries[i] == entries[i];
    }
  }
}

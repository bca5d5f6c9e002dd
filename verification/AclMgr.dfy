/**
 The access control manager and its cluster as objects: slots changed in place,
 stored after every change, and loaded at the start. The key-value store is a byte
 string that a store replaces or leaves alone.
 */
module AclMgrs {
  import opened Bytes
  import opened Tlv
  import opened TlvParser
  import opened TlvWriter
  import opened WriteBufs
  import opened Schema
  import opened Derive
  import opened DecodeTypes
  import DeriveCodec
  import opened Acls
  import opened AclStores
  import opened AclRestarts
  import opened AccessControls
  import opened AclReads

  const ACL_KV_MAX_SIZE := 300

  /** How storing ends: the encoded slots must fit the buffer, and the key-value
      store must take them. */
  function StoreOutcome(entries: Entries, psm: Outcome): Outcome
    requires AllTyped(entries)
  {
    if |Stored(entries)| > 300 then Fail(NoSpace) else psm
  }

  /** The manager as a value: its slots, and what the key-value store holds. */
  datatype Device = Device(entries: Entries, stored: Option<seq<byte>>)

  datatype Kept = Kept(device: Device, r: Outcome)

  /** What every change does to the manager: the slots become those of the change, and
      when the change itself went well they are stored. */
  function Keep(psmSupport: bool, stored: Option<seq<byte>>, c: Changed, psm: Outcome): Kept
    requires AllTyped(c.entries)
  {
    var r := if c.r.Fail? then c.r else if psmSupport then StoreOutcome(c.entries, psm) else Pass;
    Kept(Device(c.entries, if psmSupport && r.Pass? then Some(Stored(c.entries)) else stored), r)
  }

  lemma AppendedToNothing(after: seq<byte>, bytes: seq<byte>, room: nat, r: Outcome)
    requires Appended([], after, bytes, room, r)
    ensures if |bytes| <= room then r == Pass && after == bytes else r == Fail(NoSpace)
  {
    assert [] + bytes == bytes;
  }

  /** Changing one slot to a typed entry, or to none, keeps the slots typed. */
  lemma StaysTyped(entries: Entries, k: nat, x: Option<AclEntry>)
    requires AllTyped(entries) && k < |entries| && (x.Some? ==> Typed(x.value))
    ensures AllTyped(entries[k := x])
  {
  }

  /** Nine empty slots. */
  function NoEntries(): (s: Entries)
    ensures |s| == MAX_ACL_ENTRIES && forall i :: 0 <= i < |s| ==> s[i].None?
  {
    seq(MAX_ACL_ENTRIES, i => None)
  }

  /** The slots a manager starts with: what loads, and none when nothing does. */
  function Started(psmSupport: bool, found: Option<seq<byte>>): Entries {
    if psmSupport && found.Some? && Load(found.value).Ok? then Load(found.value).value else NoEntries()
  }

  /** A restart of a manager that could store its slots: the next one starts with all of
      them or with none, so every index of every fabric means the restored entry, or no
      fabric has any. */
  lemma RestartAfterStore(entries: Entries, fab: Option<nat>)
    requires AllTyped(entries)
    ensures Started(true, Some(Stored(entries))) == if AllRestorable(entries) then Restarted(entries) else NoEntries()
    ensures View(Started(true, Some(Stored(entries))), fab)
         == if AllRestorable(entries) then RestoredAll(View(entries, fab)) else []
  {
    hide Load, Stored, View;
    SurvivesIff(entries);
    RestartKeepsViews(entries, fab);
    NoneOfFabric(NoEntries(), fab);
    if AllRestorable(entries) {
      LoadAfterStore(entries);
    }
  }

  /** Whatever is loaded is nine slots of typed entries. */
  lemma LoadTyped(bytes: seq<byte>)
    requires Load(bytes).Ok?
    ensures |Load(bytes).value| == 9 && AllTyped(Load(bytes).value)
  {
    hide ReadElement, Decode, HasType, Typed;
    EntriesSensible();
    BytesDecodeTyped(ENTRIES, bytes);
    var v := Decode(ENTRIES, ReadElement(bytes).elem.value).value;
    TypedSlots(v);
  }

  lemma TypedSlots(v: Val)
    requires HasType(ENTRIES, v)
    ensures AllTyped(EntriesOf(v))
  {
    hide HasType, Typed, AllHaveType, EntryOf;
    TypedSeq(MAX_ACL_ENTRIES, TOption(ACL_ENTRY), v);
    forall i | 0 <= i < |v.vs| && EntriesOf(v)[i].Some?
      ensures Typed(EntriesOf(v)[i].value)
    {
      TypedOptions(ACL_ENTRY, v.vs, i);
      EntryValBack(v.vs[i].v);
    }
  }

  lemma TypedSeq(n: nat, slot: Ty, v: Val)
    requires HasType(TSlots(n, slot), v)
    ensures v.VSeq? && |v.vs| == n && AllHaveType(slot, v.vs)
  {
  }

  lemma SlotStep(s: Entries, fab: Option<nat>, i: nat, n: nat)
    requires i < |s|
    ensures SlotOf(s[i..], fab, n)
         == if OfFabric(s[i], fab) && n == 0 then Some(0)
            else
              var k := SlotOf(s[i + 1..], fab, if OfFabric(s[i], fab) then n - 1 else n);
              if k.None? then None else Some(k.value + 1)
  {
    assert s[i..][1..] == s[i + 1..];
  }

  lemma NoSlot(s: Entries, fab: Option<nat>, n: nat)
    requires s == []
    ensures SlotOf(s, fab, n) == None
  {
  }

  class AclMgr {
    const entries: array<Option<AclEntry>>
    const psmSupport: bool
    var stored: Option<seq<byte>> // what the key-value store holds

    ghost predicate Valid()
      reads this, entries
    {
      entries.Length == MAX_ACL_ENTRIES && AllTyped(entries[..])
    }

    /** `new_with`: nothing stored, or stored bytes that cannot be loaded, make an
        empty list. */
    constructor NewWith(psmSupport: bool, found: Option<seq<byte>>)
      ensures Valid() && fresh(entries) && this.psmSupport == psmSupport && stored == found
      ensures entries[..] == Started(psmSupport, found)
    {
      hide Load, Typed;
      var loaded := NoEntries();
      if psmSupport && found.Some? {
        var l := Load(found.value);
        if l.Ok? {
          LoadTyped(found.value);
          loaded := l.value;
        }
      }
      entries := new Option<AclEntry>[MAX_ACL_ENTRIES](i requires 0 <= i < MAX_ACL_ENTRIES => loaded[i]);
      this.psmSupport, stored := psmSupport, found;
      new;
      assert entries[..] == loaded;
    }

    /** `store`: encodes the slots into a buffer of 300 bytes and hands them over. */
    method Store(psm: Outcome) returns (r: Outcome)
      requires Valid()
      modifies this`stored
      ensures r == if psmSupport then StoreOutcome(entries[..], psm) else Pass
      ensures stored == if psmSupport && r.Pass? then Some(Stored(entries[..])) else old(stored)
    {
      if !psmSupport {
        return Pass;
      }
      hide DeriveCodec.Written, HasType, AllTyped, Appended;
      EntriesTyped(entries[..]);
      var buf := new byte[ACL_KV_MAX_SIZE];
      var wb := new WriteBuf(buf, ACL_KV_MAX_SIZE);
      var tw := new TLVWriter(wb);
      assert wb.Contents() == [];
      r := DeriveCodec.ToTlv(tw, ENTRIES, EntriesVal(entries[..]), Anonymous);
      AppendedToNothing(wb.Contents(), Stored(entries[..]), ACL_KV_MAX_SIZE, r);
      if r.Fail? {
        return;
      }
      if psm.Fail? {
        return psm;
      }
      stored := Some(buf[wb.start..wb.end]);
    }

    ghost function Value(): Device
      reads this, entries
    {
      Device(entries[..], stored)
    }

    /** The manager did the change `c`. */
    twostate predicate Did(c: Changed, psm: Outcome, r: Outcome)
      reads this, entries
    {
      Valid() && AllTyped(c.entries) && Kept(Value(), r) == Keep(psmSupport, old(stored), c, psm)
    }

    method Add(entry: AclEntry, psm: Outcome) returns (r: Outcome)
      requires Valid() && Typed(entry)
      modifies this`stored, entries
      ensures Did(Acls.Add(old(entries[..]), entry), psm, r)
    {
      hide Typed, Stored;
      var cnt := |View(entries[..], entry.fabIdx)|;
      if cnt >= ENTRIES_PER_FABRIC {
        return Fail(NoSpace);
      }
      var index := Position(entries[..], (x: Option<AclEntry>) => x.None?);
      if index.None? {
        return Fail(NoSpace);
      }
      StaysTyped(entries[..], index.value, Some(entry));
      entries[index.value] := Some(entry);
      r := Store(psm);
    }

    /** `for_index_in_fabric`. */
    method ForIndexInFabric(index: nat, fab: nat) returns (k: Option<nat>)
      requires Valid()
      ensures k == SlotOf(entries[..], Some(fab), index)
    {
      hide SlotOf, AllTyped, Typed;
      var s := entries[..];
      var curr := 0;
      assert s[0..] == s;
      for i := 0 to |s|
        invariant curr <= index
        invariant var rest := SlotOf(s[i..], Some(fab), index - curr);
                  SlotOf(s, Some(fab), index) == if rest.None? then None else Some(rest.value + i)
      {
        SlotStep(s, Some(fab), i, index - curr);
        if OfFabric(s[i], Some(fab)) {
          if curr == index {
            return Some(i);
          }
          curr := curr + 1;
        }
      }
      NoSlot(s[|s|..], Some(fab), index - curr);
      return None;
    }

    method Edit(index: nat, fab: nat, entry: AclEntry, psm: Outcome) returns (r: Outcome)
      requires Valid() && Typed(entry)
      modifies this`stored, entries
      ensures Did(Acls.Edit(old(entries[..]), index, Some(fab), entry), psm, r)
    {
      hide Typed, Stored, SlotOf;
      var slot := ForIndexInFabric(index, fab);
      if slot.None? {
        return Fail(NotFound);
      }
      StaysTyped(entries[..], slot.value, Some(entry));
      entries[slot.value] := Some(entry);
      r := Store(psm);
    }

    method Delete(index: nat, fab: nat, psm: Outcome) returns (r: Outcome)
      requires Valid()
      modifies this`stored, entries
      ensures Did(Acls.Delete(old(entries[..]), index, Some(fab)), psm, r)
    {
      hide Typed, Stored, SlotOf;
      var slot := ForIndexInFabric(index, fab);
      if slot.None? {
        return Fail(NotFound);
      }
      StaysTyped(entries[..], slot.value, None);
      entries[slot.value] := None;
      r := Store(psm);
    }

    method DeleteForFabric(fab: nat, psm: Outcome) returns (r: Outcome)
      requires Valid()
      modifies this`stored, entries
      ensures Did(Changed(Acls.DeleteForFabric(old(entries[..]), Some(fab)), Pass), psm, r)
    {
      hide Typed, Stored;
      for i := 0 to MAX_ACL_ENTRIES
        invariant Valid() && stored == old(stored)
        invariant forall k :: 0 <= k < MAX_ACL_ENTRIES ==>
                    entries[k] == if k < i && OfFabric(old(entries[k]), Some(fab)) then None else old(entries[k])
      {
        if OfFabric(entries[i], Some(fab)) {
          entries[i] := None;
        }
      }
      assert entries[..] == Acls.DeleteForFabric(old(entries[..]), Some(fab));
      r := Store(psm);
    }

    /** A failure to store the empty list is only logged. */
    method EraseAll(psm: Outcome)
      requires Valid()
      modifies this`stored, entries
      ensures Valid() && Value() == Keep(psmSupport, old(stored), Changed(NoEntries(), Pass), psm).device
    {
      hide Typed, Stored;
      for i := 0 to MAX_ACL_ENTRIES
        invariant Valid() && stored == old(stored) && forall k :: 0 <= k < i ==> entries[k].None?
      {
        entries[i] := None;
      }
      assert entries[..] == NoEntries();
      var _ := Store(psm);
    }

    method Allow(a: Accessor, desc: AccessDesc) returns (b: bool)
      requires Valid()
      ensures b == Acls.Allow(entries[..], a, desc)
    {
      hide MatchAccessor, MatchAccessDesc, Typed;
      if a.authMode == PASE {
        return true;
      }
      for i := 0 to MAX_ACL_ENTRIES
        invariant forall k :: 0 <= k < i ==> entries[k].Some? ==> !EntryAllows(entries[k].value, a, desc)
      {
        if entries[i].Some? {
          var matches := MatchesAccessor(entries[i].value, a);
          if matches {
            matches := MatchesAccessDesc(entries[i].value, desc);
          }
          if matches {
            assert entries[..][i] == entries[i];
            return true;
          }
        }
      }
      return false;
    }
  }

  /** How a manager stores, as the cluster sees it. */
  function Persist(psmSupport: bool, psm: Entries -> Outcome): Entries -> Outcome {
    (entries: Entries) =>
      if !psmSupport then Pass else if AllTyped(entries) then StoreOutcome(entries, psm(entries)) else Fail(Invalid)
  }

  /** The cluster in front of the manager. */
  class AccessControlCluster {
    const aclMgr: AclMgr
    var dataVer: nat

    constructor (aclMgr: AclMgr, dataVer: nat)
      ensures this.aclMgr == aclMgr && this.dataVer == dataVer
    {
      this.aclMgr, this.dataVer := aclMgr, dataVer;
    }

    /** The decoded entry, made to belong to the accessing fabric. */
    static method OwnEntry(data: Element, fab: nat) returns (own: Option<AclEntry>)
      requires ValidElement(data) && fab < 256
      ensures own == Own(data, fab) && (own.Some? ==> Typed(own.value))
    {
      hide Decode, Typed;
      var v := DeriveCodec.FromTlv(ACL_ENTRY, data);
      if v.Err? {
        return None;
      }
      DecodedTyped(data, fab);
      var entry := EntryOf(v.value);
      return Some(entry.(fabIdx := Some(fab)));
    }

    method WriteAclAttr(op: ListOp, data: Element, fab: nat, psm: Entries -> Outcome) returns (failure: Option<Code>)
      requires aclMgr.Valid() && ValidElement(data) && fab < 256
      modifies aclMgr`stored, aclMgr.entries
      ensures aclMgr.Valid()
      ensures Done(aclMgr.entries[..], failure)
           == WriteAcl(old(aclMgr.entries[..]), op, data, fab, Persist(aclMgr.psmSupport, psm))
    {
      hide Decode, Typed, Stored, SlotOf, View;
      var result: Outcome;
      match op {
        case DeleteItem(index) =>
          result := aclMgr.Delete(index % 256, fab, psm(Acls.Delete(aclMgr.entries[..], index % 256, Some(fab)).entries));
        case DeleteList =>
          result := aclMgr.DeleteForFabric(fab, psm(Acls.DeleteForFabric(aclMgr.entries[..], Some(fab))));
        case EditItem(index) =>
          var own := OwnEntry(data, fab);
          if own.None? {
            return Some(ConstraintError);
          }
          result := aclMgr.Edit(index % 256, fab, own.value,
                                psm(Acls.Edit(aclMgr.entries[..], index % 256, Some(fab), own.value).entries));
        case AddItem =>
          var own := OwnEntry(data, fab);
          if own.None? {
            return Some(ConstraintError);
          }
          result := aclMgr.Add(own.value, psm(Acls.Add(aclMgr.entries[..], own.value).entries));
      }
      return CodeOf(result);
    }

    /** `write_attribute` for the list: `attr_list_write`, and a new data version when
        all of it went well. */
    method WriteAttribute(listIndex: Option<nat>, data: Element, fab: nat, psm: Entries -> Outcome)
      returns (failure: Option<Code>)
      requires aclMgr.Valid() && ValidElement(data) && fab < 256
      modifies this`dataVer, aclMgr`stored, aclMgr.entries
      ensures aclMgr.Valid()
      ensures Done(aclMgr.entries[..], failure)
           == ListWrite(old(aclMgr.entries[..]), listIndex, data, fab, Persist(aclMgr.psmSupport, psm))
      ensures dataVer == if failure.None? then (old(dataVer) + 1) % 0x1_0000_0000 else old(dataVer)
    {
      hide WriteAcl, AddEach, Typed, AllTyped;
      if listIndex.Some? {
        if data.val.Null? {
          failure := WriteAclAttr(DeleteItem(listIndex.value), data, fab, psm);
        } else {
          failure := WriteAclAttr(EditItem(listIndex.value), data, fab, psm);
        }
      } else if IsKind(data, Array) {
        failure := WriteAclAttr(DeleteList, data, fab, psm);
        if failure.None? {
          failure := AddItems(data, fab, psm);
        }
      } else {
        failure := WriteAclAttr(AddItem, data, fab, psm);
      }
      if failure.None? {
        dataVer := (dataVer + 1) % 0x1_0000_0000;
      }
    }

    /** The read of the attribute: an array of the entries, with the filter only those of
        one fabric. Whatever does not fit the buffer any more is silently left out. */
    method ReadAclAttr(tw: TLVWriter, tag: Tag, filter: Option<nat>)
      requires aclMgr.Valid() && tw.wb.Valid() && tag.Valid()
      modifies tw.wb, tw.wb.buf
      ensures tw.wb.Valid() && tw.wb.start == old(tw.wb.start)
      ensures old(tw.wb.Contents()) <= tw.wb.Contents()
      ensures EachTypedEntry(Shown(aclMgr.entries[..], filter))
      ensures var bytes := ListBytes(Shown(aclMgr.entries[..], filter), tag);
              |bytes| <= old(tw.wb.Room()) ==> tw.wb.Contents() == old(tw.wb.Contents()) + bytes
    {
      hide DeriveCodec.Written, HasType, Typed, Shown, TokenBytes, ListBytes, ShownBytes, EachTypedEntry, AllTyped, Appended, Wrote,
        ACL_ENTRY, EntryVal;
      ghost var s := aclMgr.entries[..];
      ShownTyped(s, filter);
      ghost var bytes, c0, room := ListBytes(Shown(s, filter), tag), tw.wb.Contents(), tw.wb.Room();
      ghost var open := TokenBytes(tag, Container(Array, []));
      ListBytesParts(s, filter, tag, 0);
      NothingWrote(c0, |bytes|, room);
      var r := tw.StartContainer(tag, Array);
      AppendedPart(c0, c0, tw.wb.Contents(), [], open, |bytes|, room, room, r);
      assert [] + open == open && open + [] == open;
      for i := 0 to MAX_ACL_ENTRIES
        invariant tw.wb.Valid() && tw.wb.start == old(tw.wb.start) && aclMgr.entries[..] == s && aclMgr.Valid()
        invariant Wrote(c0, tw.wb.Contents(), open + ShownBytes(s, filter, i), |bytes|, room, tw.wb.Room())
      {
        ListBytesParts(s, filter, tag, i + 1);
        ShownStep(s, filter, i);
        var entry := aclMgr.entries[i];
        if entry.Some? && (filter.None? || filter == entry.value.fabIdx) {
          SlotTyped(s, i);
          ghost var here := DeriveCodec.Written(ACL_ENTRY, EntryVal(entry.value), Anonymous);
          assert open + ShownBytes(s, filter, i) + here == open + (ShownBytes(s, filter, i) + here);
          PutEntry(tw, entry.value, c0, open + ShownBytes(s, filter, i), |bytes|, room);
        }
      }
      ghost var before, was := tw.wb.Contents(), tw.wb.Room();
      r := tw.EndContainer();
      AppendedPart(c0, before, tw.wb.Contents(), open + ShownBytes(s, filter, MAX_ACL_ENTRIES), END, |bytes|, room, was, r);
      WroteAll(c0, tw.wb.Contents(), bytes, |bytes|, room, tw.wb.Room());
    }

    /** One entry; whether it fitted is ignored. */
    static method PutEntry(tw: TLVWriter, entry: AclEntry, ghost c0: seq<byte>, ghost part: seq<byte>, ghost total: nat, ghost room: nat)
      requires tw.wb.Valid() && HasType(ACL_ENTRY, EntryVal(entry))
      requires Wrote(c0, tw.wb.Contents(), part, total, room, tw.wb.Room())
      requires |part + DeriveCodec.Written(ACL_ENTRY, EntryVal(entry), Anonymous)| <= total
      modifies tw.wb, tw.wb.buf
      ensures tw.wb.Valid() && tw.wb.start == old(tw.wb.start)
      ensures Wrote(c0, tw.wb.Contents(), part + DeriveCodec.Written(ACL_ENTRY, EntryVal(entry), Anonymous), total, room, tw.wb.Room())
    {
      hide DeriveCodec.Written, HasType, Appended, Wrote, ACL_ENTRY, EntryVal;
      ghost var before, was := tw.wb.Contents(), tw.wb.Room();
      var r := DeriveCodec.ToTlv(tw, ACL_ENTRY, EntryVal(entry), Anonymous);
      AppendedPart(c0, before, tw.wb.Contents(), part,
                   DeriveCodec.Written(ACL_ENTRY, EntryVal(entry), Anonymous), total, room, was, r);
    }

    /** Item by item, until one fails. */
    method AddItems(data: Element, fab: nat, psm: Entries -> Outcome) returns (failure: Option<Code>)
      requires aclMgr.Valid() && data.val.Container? && fab < 256
      modifies aclMgr`stored, aclMgr.entries
      ensures aclMgr.Valid()
      ensures Done(aclMgr.entries[..], failure)
           == AddEach(old(aclMgr.entries[..]), Children(Enter(data.val.body)), fab, Persist(aclMgr.psmSupport, psm))
    {
      hide WriteAcl, NextChild, Typed, AllTyped, ValidElement;
      ghost var store := Persist(aclMgr.psmSupport, psm);
      ghost var all := Children(Enter(data.val.body));
      ChildrenValid(Enter(data.val.body));
      var container := new TLVContainerIterator.EnterSlice(data.val.body);
      var d := container.Next();
      while d.Some?
        invariant aclMgr.Valid() && container.Valid() && fresh(container) && fresh(container.listIter)
        invariant AllValid(DeriveCodec.Ahead(d, container))
        invariant AddEach(old(aclMgr.entries[..]), all, fab, store)
               == AddEach(aclMgr.entries[..], DeriveCodec.Ahead(d, container), fab, store)
        decreases |DeriveCodec.Ahead(d, container)|
      {
        ghost var before := DeriveCodec.Ahead(d, container);
        assert before[0] == d.value && ValidElement(before[0]);
        failure := WriteAclAttr(AddItem, d.value, fab, psm);
        if failure.Some? {
          return;
        }
        d := container.Next();
        assert before[1..] == DeriveCodec.Ahead(d, container);
        RestValid(before);
      }
      return None;
    }
  }

  lemma RestValid(es: seq<Element>)
    requires es != [] && AllValid(es)
    ensures AllValid(es[1..])
  {
  }
}

/**
 The fabric-filtered read of the access control list, as the bytes of its entries,
 and what a fabric reads back of a list it wrote.
 */
module AclReads {
  import opened Bytes
  import opened Tlv
  import opened TlvParser
  import opened TlvWriter
  import opened WriteBufs
  import opened Schema
  import opened Derive
  import opened DecodeTypes
  import opened DeriveCodec
  import opened Acls
  import opened AclStores
  import opened AclRestarts
  import opened AclDecisions
  import opened AccessControls

  /** What a reader takes the attribute for. */
  const ENTRY_LIST: Ty := TVec(ACL_ENTRY)

  function EntryVals(es: seq<AclEntry>): (vs: seq<Val>)
    ensures |vs| == |es| && forall i :: 0 <= i < |es| ==> vs[i] == EntryVal(es[i])
  {
    if es == [] then [] else [EntryVal(es[0])] + EntryVals(es[1..])
  }

  predicate EachTypedEntry(es: seq<AclEntry>) {
    forall i :: 0 <= i < |es| ==> Typed(es[i])
  }

  predicate EachRestorable(es: seq<AclEntry>) {
    forall i :: 0 <= i < |es| ==> Restorable(es[i])
  }

  /** The entries a read shows: with the filter, those of one fabric. */
  function Shown(entries: Entries, filter: Option<nat>): seq<AclEntry> {
    if filter.None? then Somes(entries) else View(entries, filter)
  }

  /** The bytes a read writes for these entries. */
  function ListBytes(es: seq<AclEntry>, tag: Tag): seq<byte>
    requires EachTypedEntry(es)
  {
    EntryValsTyped(es);
    Written(ENTRY_LIST, VSeq(EntryVals(es)), tag)
  }

  /** What a reader makes of bytes. */
  function ReadList(bytes: seq<byte>): Result<seq<AclEntry>, Error> {
    match ReadElement(bytes).elem
    case None => Err(Invalid)
    case Some(e) =>
      match Decode(ENTRY_LIST, e)
      case Err(err) => Err(err)
      case Ok(v) => Ok(EntriesIn(Parts(v)))
  }

  function EntriesIn(vs: seq<Val>): (es: seq<AclEntry>)
    ensures |es| == |vs| && forall i :: 0 <= i < |vs| ==> es[i] == EntryOf(vs[i])
  {
    if vs == [] then [] else [EntryOf(vs[0])] + EntriesIn(vs[1..])
  }

  lemma {:induction false} AllTypedVals(es: seq<AclEntry>)
    requires EachTypedEntry(es)
    ensures AllHaveType(ACL_ENTRY, EntryVals(es))
  {
    hide EntryVal, ACL_ENTRY;
    if es != [] {
      TypedIs(es[0]);
      AllTypedVals(es[1..]);
      assert EntryVals(es)[1..] == EntryVals(es[1..]);
    }
  }

  lemma EntryValsTyped(es: seq<AclEntry>)
    requires EachTypedEntry(es)
    ensures HasType(ENTRY_LIST, VSeq(EntryVals(es)))
  {
    AllTypedVals(es);
  }

  // ---------------------------------------------------------------- what is read

  function Normals(es: seq<AclEntry>): (r: seq<AclEntry>)
    ensures |r| == |es| && forall i :: 0 <= i < |es| ==> r[i] == Normal(es[i])
  {
    if es == [] then [] else [Normal(es[0])] + Normals(es[1..])
  }

  /** OPERATE and MANAGE entries are written alike. */
  lemma {:induction false} ElementsWrittenAlike(es: seq<AclEntry>)
    requires EachTypedEntry(es) && EachRestorable(es)
    ensures AllHaveType(ACL_ENTRY, EntryVals(es)) && AllHaveType(ACL_ENTRY, EntryVals(Normals(es)))
    ensures ElementTrees(ACL_ENTRY, EntryVals(es)) == ElementTrees(ACL_ENTRY, EntryVals(Normals(es)))
    ensures EachTypedEntry(Normals(es))
  {
    hide EntryVal, ACL_ENTRY, Normal, Restorable, Unchanging, Typed, Trees, HasType;
    if es != [] {
      ElementsWrittenAlike(es[1..]);
      NormalIsWrittenAlike(es[0], Anonymous);
      TypedIs(es[0]);
      TypedIs(Normal(es[0]));
      assert EntryVals(es)[1..] == EntryVals(es[1..]);
      assert Normals(es)[1..] == Normals(es[1..]);
      assert EntryVals(Normals(es))[1..] == EntryVals(Normals(es[1..]));
    }
  }

  lemma ListWrittenAlike(es: seq<AclEntry>, tag: Tag)
    requires EachTypedEntry(es) && EachRestorable(es)
    ensures EachTypedEntry(Normals(es)) && HasType(ENTRY_LIST, VSeq(EntryVals(es)))
    ensures HasType(ENTRY_LIST, VSeq(EntryVals(Normals(es))))
    ensures Trees(ENTRY_LIST, VSeq(EntryVals(es)), tag) == Trees(ENTRY_LIST, VSeq(EntryVals(Normals(es))), tag)
  {
    hide EntryVals, ACL_ENTRY, Normals, EachTypedEntry, EachRestorable;
    ElementsWrittenAlike(es);
  }

  lemma {:induction false} EntriesFitAll(es: seq<AclEntry>)
    requires EachTypedEntry(es)
    ensures AllHaveType(ACL_ENTRY, EntryVals(es)) && AllFit(ACL_ENTRY, EntryVals(es))
    ensures (forall i :: 0 <= i < |es| ==> Unchanging(es[i])) ==> AllLossless(ACL_ENTRY, EntryVals(es))
  {
    hide EntryVal, ACL_ENTRY, Unchanging, HasType, Fits, Lossless;
    if es != [] {
      EntriesFitAll(es[1..]);
      EntryFits(es[0]);
      TypedIs(es[0]);
      assert EntryVals(es)[1..] == EntryVals(es[1..]);
    }
  }

  lemma ListFits(es: seq<AclEntry>)
    requires EachTypedEntry(es)
    ensures HasType(ENTRY_LIST, VSeq(EntryVals(es))) && Fits(ENTRY_LIST, VSeq(EntryVals(es)))
    ensures (forall i :: 0 <= i < |es| ==> Unchanging(es[i])) ==> Lossless(ENTRY_LIST, VSeq(EntryVals(es)))
  {
    hide EntryVals, ACL_ENTRY, Unchanging, EachTypedEntry, HasType, Fits, Lossless, AllHaveType, AllFit, AllLossless;
    EntriesFitAll(es);
    VecFits(ACL_ENTRY, EntryVals(es));
  }

  lemma VecFits(elem: Ty, vs: seq<Val>)
    requires AllHaveType(elem, vs)
    ensures HasType(TVec(elem), VSeq(vs)) && Fits(TVec(elem), VSeq(vs)) == AllFit(elem, vs)
    ensures Lossless(TVec(elem), VSeq(vs)) == AllLossless(elem, vs)
  {
  }

  function Compacted(es: seq<AclEntry>): (r: seq<AclEntry>)
    ensures |r| == |es| && forall i :: 0 <= i < |es| ==> r[i] == CompactEntry(es[i])
  {
    if es == [] then [] else [CompactEntry(es[0])] + Compacted(es[1..])
  }

  lemma {:induction false} CompactedEach(es: seq<AclEntry>)
    requires EachTypedEntry(es)
    ensures AllHaveType(ACL_ENTRY, EntryVals(es))
    ensures CompactEach(ACL_ENTRY, EntryVals(es)) == EntryVals(Compacted(es))
  {
    hide EntryVal, ACL_ENTRY, CompactEntry, HasType, Compact, Typed;
    AllTypedVals(es);
    if es != [] {
      CompactedEach(es[1..]);
      EntryCompact(es[0]);
      TypedIs(es[0]);
      assert EntryVals(es)[1..] == EntryVals(es[1..]);
      assert EntryVals(Compacted(es)) == [EntryVal(CompactEntry(es[0]))] + EntryVals(Compacted(es[1..]));
    }
  }

  lemma ListCompact(es: seq<AclEntry>)
    requires EachTypedEntry(es)
    ensures HasType(ENTRY_LIST, VSeq(EntryVals(es)))
    ensures Compact(ENTRY_LIST, VSeq(EntryVals(es))) == VSeq(EntryVals(Compacted(es)))
  {
    hide EntryVals, ACL_ENTRY, EachTypedEntry, Compacted, HasType, Compact, AllHaveType, CompactEach;
    CompactedEach(es);
    VecCompact(ACL_ENTRY, EntryVals(es));
  }

  lemma VecCompact(elem: Ty, vs: seq<Val>)
    requires AllHaveType(elem, vs)
    ensures HasType(TVec(elem), VSeq(vs)) && Compact(TVec(elem), VSeq(vs)) == VSeq(CompactEach(elem, vs))
  {
  }

  lemma ListDecodable()
    ensures Decodable(ENTRY_LIST)
  {
    EntriesDecodable();
    hide ENTRY_FIELDS;
  }

  lemma EntriesInBack(es: seq<AclEntry>)
    ensures EntriesIn(EntryVals(es)) == es
  {
    forall i | 0 <= i < |es|
      ensures EntriesIn(EntryVals(es))[i] == es[i]
    {
      EntryBack(es[i]);
    }
  }

  /** Whatever follows them, the bytes of a read are decoded to the entries that were
      shown, in order, OPERATE turned into MANAGE. */
  lemma ReadsRestored(es: seq<AclEntry>, tag: Tag, rest: seq<byte>)
    requires EachTypedEntry(es) && EachRestorable(es) && tag.Valid()
    ensures ReadList(ListBytes(es, tag) + rest) == Ok(RestoredAll(es))
  {
    hide ListBytes, ReadList, Trees, EncodeForest, ENTRY_LIST, RestoredAll, EachRestorable, Normals;
    ListBytesAre(es, tag);
    RestoredIs(es);
    DecodesRestored(es, tag, rest);
  }

  /** The tree of a read. */
  function ListTree(es: seq<AclEntry>, tag: Tag): seq<Tree>
    requires EachTypedEntry(es)
  {
    EntryValsTyped(es);
    Trees(ENTRY_LIST, VSeq(EntryVals(es)), tag)
  }

  lemma ListBytesAre(es: seq<AclEntry>, tag: Tag)
    requires EachTypedEntry(es) && tag.Valid()
    ensures ValidForest(ListTree(es, tag)) && ListBytes(es, tag) == EncodeForest(ListTree(es, tag))
  {
    hide ENTRY_LIST, Trees, Written, EncodeForest, Fits, HasType, EntryVals, EachTypedEntry, Lossless;
    ListFits(es);
    WrittenIsEncoding(ENTRY_LIST, VSeq(EntryVals(es)), tag);
  }

  lemma RestoredIs(es: seq<AclEntry>)
    ensures Compacted(Normals(es)) == RestoredAll(es)
  {
  }

  lemma DecodesRestored(es: seq<AclEntry>, tag: Tag, rest: seq<byte>)
    requires EachTypedEntry(es) && EachRestorable(es) && tag.Valid() && ValidForest(ListTree(es, tag))
    ensures ReadList(EncodeForest(ListTree(es, tag)) + rest) == Ok(Compacted(Normals(es)))
  {
    hide ENTRY_LIST, Trees, ReadElement, Decode, Compact, EntryVals, EncodeForest, Lossless, Fits, HasType, Decodable,
      Compacted, Normal, Restorable, Unchanging, Typed, ValidForest;
    var normals := Normals(es);
    NormalsUnchanging(es);
    ListWrittenAlike(es, tag);
    ListFits(normals);
    ListDecodable();
    OneListElement();
    CodecRoundTrip(ENTRY_LIST, VSeq(EntryVals(normals)), tag, rest);
    ListCompact(normals);
    EntriesInBack(Compacted(normals));
  }

  lemma NormalsUnchanging(es: seq<AclEntry>)
    requires EachTypedEntry(es) && EachRestorable(es)
    ensures forall i :: 0 <= i < |es| ==> Unchanging(Normals(es)[i])
  {
    hide Typed, Unchanging, Restorable, Normal;
    forall i | 0 <= i < |es|
      ensures Unchanging(Normals(es)[i])
    {
      NormalIsWrittenAlike(es[i], Anonymous);
    }
  }

  lemma OneListElement()
    ensures OneElement(ENTRY_LIST)
  {
  }

  // ---------------------------------------------------------------- the bytes of a read, entry by entry

  /** After some calls whose results are ignored: something was appended, and exactly
      `part` when all of it, `total` bytes, was going to fit. */
  ghost predicate Wrote(c0: seq<byte>, c: seq<byte>, part: seq<byte>, total: nat, room0: nat, room: nat) {
    c0 <= c && room + |c| == room0 + |c0| && (total <= room0 ==> c == c0 + part)
  }

  lemma NothingWrote(c: seq<byte>, total: nat, room: nat)
    ensures Wrote(c, c, [], total, room, room)
  {
    assert c + [] == c;
  }

  lemma WroteAll(c0: seq<byte>, c: seq<byte>, all: seq<byte>, total: nat, room0: nat, room: nat)
    requires Wrote(c0, c, all, total, room0, room)
    ensures c0 <= c && (total <= room0 ==> c == c0 + all)
  {
  }

  lemma AppendedPart(c0: seq<byte>, c: seq<byte>, d: seq<byte>, part: seq<byte>, more: seq<byte>, total: nat,
                     room0: nat, room: nat, r: Outcome)
    requires Wrote(c0, c, part, total, room0, room) && Appended(c, d, more, room, r) && |part + more| <= total
    requires |d| <= |c| + room
    ensures Wrote(c0, d, part + more, total, room0, room + |c| - |d|)
  {
    assert c0 + part + more == c0 + (part + more);
  }

  lemma SlotTyped(s: Entries, i: nat)
    requires AllTyped(s) && i < |s| && s[i].Some?
    ensures Typed(s[i].value) && HasType(ACL_ENTRY, EntryVal(s[i].value))
  {
    hide ACL_ENTRY;
    TypedIs(s[i].value);
  }

  predicate SlotsTyped(s: Entries) {
    forall i :: 0 <= i < |s| ==> s[i].Some? ==> Typed(s[i].value)
  }

  lemma {:induction false} SomesTyped(s: Entries, filter: Option<nat>)
    requires SlotsTyped(s)
    ensures EachTypedEntry(Shown(s, filter))
  {
    hide Typed;
    if s != [] {
      assert forall i :: 0 <= i < |s[1..]| ==> s[1..][i] == s[i + 1];
      SomesTyped(s[1..], filter);
    }
  }

  lemma ShownTyped(s: Entries, filter: Option<nat>)
    requires AllTyped(s)
    ensures EachTypedEntry(Shown(s, filter))
  {
    hide Typed;
    SomesTyped(s, filter);
  }

  /** What a read writes for the first `i` slots. */
  ghost function ShownBytes(s: Entries, filter: Option<nat>, i: nat): seq<byte>
    requires AllTyped(s) && i <= |s|
  {
    SomesTyped(s[..i], filter);
    AllTypedVals(Shown(s[..i], filter));
    WrittenElements(ACL_ENTRY, EntryVals(Shown(s[..i], filter)))
  }

  lemma {:induction false} ShownConcat(a: Entries, b: Entries, filter: Option<nat>)
    ensures Shown(a + b, filter) == Shown(a, filter) + Shown(b, filter)
  {
    if filter.Some? {
      ViewConcat(a, b, filter);
    } else {
      SomesConcat(a, b);
    }
  }

  lemma {:induction false} SomesConcat<T>(a: seq<Option<T>>, b: seq<Option<T>>)
    ensures Somes(a + b) == Somes(a) + Somes(b)
  {
    if a == [] {
      assert a + b == b;
    } else {
      assert (a + b)[0] == a[0] && (a + b)[1..] == a[1..] + b;
      SomesConcat(a[1..], b);
    }
  }

  lemma {:induction false} WrittenConcat(ty: Ty, us: seq<Val>, vs: seq<Val>)
    requires AllHaveType(ty, us) && AllHaveType(ty, vs)
    ensures AllHaveType(ty, us + vs)
    ensures WrittenElements(ty, us + vs) == WrittenElements(ty, us) + WrittenElements(ty, vs)
  {
    hide HasType, Written;
    if us == [] {
      assert us + vs == vs;
    } else {
      assert (us + vs)[0] == us[0] && (us + vs)[1..] == us[1..] + vs;
      WrittenConcat(ty, us[1..], vs);
    }
  }

  lemma ElementsConcat(xs: seq<AclEntry>, ys: seq<AclEntry>)
    requires EachTypedEntry(xs) && EachTypedEntry(ys)
    ensures AllHaveType(ACL_ENTRY, EntryVals(xs)) && AllHaveType(ACL_ENTRY, EntryVals(ys))
    ensures AllHaveType(ACL_ENTRY, EntryVals(xs + ys))
    ensures WrittenElements(ACL_ENTRY, EntryVals(xs + ys))
         == WrittenElements(ACL_ENTRY, EntryVals(xs)) + WrittenElements(ACL_ENTRY, EntryVals(ys))
  {
    hide EachTypedEntry, EntryVals, ACL_ENTRY, AllHaveType, WrittenElements;
    AllTypedVals(xs);
    AllTypedVals(ys);
    WrittenConcat(ACL_ENTRY, EntryVals(xs), EntryVals(ys));
    assert EntryVals(xs + ys) == EntryVals(xs) + EntryVals(ys);
  }

  lemma OneWritten(e: AclEntry)
    requires Typed(e)
    ensures HasType(ACL_ENTRY, EntryVal(e)) && AllHaveType(ACL_ENTRY, EntryVals([e]))
    ensures WrittenElements(ACL_ENTRY, EntryVals([e])) == Written(ACL_ENTRY, EntryVal(e), Anonymous)
  {
    hide EntryVal, ACL_ENTRY, HasType, Written, Typed;
    TypedIs(e);
    assert EntryVals([e]) == [EntryVal(e)] && [EntryVal(e)][1..] == [];
    OneElementWritten(ACL_ENTRY, EntryVal(e));
  }

  lemma OneElementWritten(ty: Ty, v: Val)
    requires HasType(ty, v)
    ensures AllHaveType(ty, [v]) && WrittenElements(ty, [v]) == Written(ty, v, Anonymous)
  {
    hide HasType, Written;
    assert [v][1..] == [];
    assert Written(ty, v, Anonymous) + [] == Written(ty, v, Anonymous);
  }

  /** One slot more. */
  lemma ShownStep(s: Entries, filter: Option<nat>, i: nat)
    requires AllTyped(s) && i < |s|
    ensures s[i].Some? ==> HasType(ACL_ENTRY, EntryVal(s[i].value))
    ensures ShownBytes(s, filter, i + 1)
         == if s[i].Some? && (filter.None? || filter == s[i].value.fabIdx)
            then ShownBytes(s, filter, i) + Written(ACL_ENTRY, EntryVal(s[i].value), Anonymous)
            else ShownBytes(s, filter, i)
  {
    hide Typed, EntryVal, ACL_ENTRY, HasType, Written, WrittenElements, EntryVals, AllHaveType;
    SomesTyped(s[..i], filter);
    SomesTyped([s[i]], filter);
    assert s[..i + 1] == s[..i] + [s[i]];
    ShownConcat(s[..i], [s[i]], filter);
    ElementsConcat(Shown(s[..i], filter), Shown([s[i]], filter));
    ShownOne(s[i], filter);
    if s[i].Some? {
      SlotTyped(s, i);
      OneWritten(s[i].value);
    }
    if Shown([s[i]], filter) == [] {
      assert Shown(s[..i], filter) + [] == Shown(s[..i], filter);
    }
  }

  lemma ShownOne(slot: Option<AclEntry>, filter: Option<nat>)
    ensures Shown([slot], filter)
         == if slot.Some? && (filter.None? || filter == slot.value.fabIdx) then [slot.value] else []
  {
    var none := [slot][1..];
    assert none == [] && View(none, filter) == [] && Somes(none) == [];
    assert View([slot], filter) == if OfFabric(slot, filter) then [slot.value] else [];
    assert Somes([slot]) == if slot.Some? then [slot.value] else [];
  }

  /** The bytes of the first slots are a first part of all. */
  lemma ListBytesParts(s: Entries, filter: Option<nat>, tag: Tag, i: nat)
    requires AllTyped(s) && i <= |s|
    ensures EachTypedEntry(Shown(s, filter)) && ShownBytes(s, filter, 0) == []
    ensures ListBytes(Shown(s, filter), tag) == TokenBytes(tag, Container(Array, [])) + ShownBytes(s, filter, |s|) + END
    ensures |ShownBytes(s, filter, i)| <= |ShownBytes(s, filter, |s|)|
  {
    hide ShownBytes, ListBytes, TokenBytes, AllTyped, EachTypedEntry, Shown;
    ShownTyped(s, filter);
    AllShown(s, filter, tag);
    FirstShown(s, filter, i);
  }

  lemma AllShown(s: Entries, filter: Option<nat>, tag: Tag)
    requires AllTyped(s) && EachTypedEntry(Shown(s, filter))
    ensures ListBytes(Shown(s, filter), tag) == TokenBytes(tag, Container(Array, [])) + ShownBytes(s, filter, |s|) + END
    ensures ShownBytes(s, filter, 0) == []
  {
    hide Typed, EntryVal, ACL_ENTRY, HasType, WrittenElements, EntryVals, AllHaveType, TokenBytes, ListBytes;
    assert s[..|s|] == s && s[..0] == [];
    NoElements();
    assert Shown([], filter) == [];
    ListBytesAreBracketed(Shown(s, filter), tag);
  }

  lemma FirstShown(s: Entries, filter: Option<nat>, i: nat)
    requires AllTyped(s) && i <= |s|
    ensures |ShownBytes(s, filter, i)| <= |ShownBytes(s, filter, |s|)|
  {
    hide Typed, EntryVal, ACL_ENTRY, HasType, WrittenElements, EntryVals, AllHaveType;
    SomesTyped(s[..i], filter);
    SomesTyped(s[i..], filter);
    assert s[..i] + s[i..] == s && s[..|s|] == s;
    ShownConcat(s[..i], s[i..], filter);
    ElementsConcat(Shown(s[..i], filter), Shown(s[i..], filter));
  }

  lemma NoElements()
    ensures EntryVals([]) == [] && AllHaveType(ACL_ENTRY, []) && WrittenElements(ACL_ENTRY, []) == []
  {
  }

  lemma ListBytesAreBracketed(es: seq<AclEntry>, tag: Tag)
    requires EachTypedEntry(es)
    ensures AllHaveType(ACL_ENTRY, EntryVals(es))
    ensures ListBytes(es, tag) == TokenBytes(tag, Container(Array, [])) + WrittenElements(ACL_ENTRY, EntryVals(es)) + END
  {
    hide ACL_ENTRY, EntryVals, TokenBytes, WrittenElements, EachTypedEntry;
    AllTypedVals(es);
  }

  // ---------------------------------------------------------------- which field goes under which tag

  function OptionalNumber(tag: nat, n: Option<nat>): seq<Tree> {
    if n.None? then [] else [UintLeaf(Context(tag), n.value)]
  }

  function SubjectElements(s: seq<Option<nat>>): seq<Tree> {
    if s == [] then [] else (if s[0].None? then [] else [UintLeaf(Anonymous, s[0].value)]) + SubjectElements(s[1..])
  }

  function TargetElements(ts: seq<Option<Target>>): seq<Tree> {
    if ts == [] then [] else (if ts[0].None? then [] else [TargetElement(ts[0].value)]) + TargetElements(ts[1..])
  }

  function TargetElement(t: Target): Tree {
    Node(Anonymous, Struct, OptionalNumber(0, t.cluster) + OptionalNumber(1, t.endpoint) + OptionalNumber(2, t.deviceType))
  }

  /** An entry as elements: privilege, authentication mode, subjects and targets under the
      tags 1 to 4, the fabric index under 254; the cluster, the endpoint and the device type
      of a target under 0 to 2. */
  function EntryElements(e: AclEntry): seq<Tree>
    requires e.privilege < 16
  {
    [Leaf(Context(1), UInt(0, PrivilegeNumber(e.privilege)))]
    + (if e.authMode == 4 then [] else [Leaf(Context(2), UInt(0, e.authMode))])
    + [Node(Context(3), Array, SubjectElements(e.subjects)), Node(Context(4), Array, TargetElements(e.targets))]
    + OptionalNumber(254, e.fabIdx)
  }

  lemma {:induction false} SubjectsWritten(s: seq<Option<nat>>)
    requires AllHaveType(TOption(TUint(3)), OptionVals(s, NatVal))
    ensures ElementTrees(TOption(TUint(3)), OptionVals(s, NatVal)) == SubjectElements(s)
  {
    if s != [] {
      assert OptionVals(s, NatVal)[1..] == OptionVals(s[1..], NatVal);
      SubjectsWritten(s[1..]);
    }
  }

  lemma OptionalWritten(tag: nat, k: nat, n: Option<nat>)
    requires HasType(TOption(TUint(k)), OptionVal(n, NatVal))
    ensures Trees(TOption(TUint(k)), OptionVal(n, NatVal), Context(tag)) == OptionalNumber(tag, n)
  {
  }

  lemma TargetWritten(t: Target)
    requires HasType(TARGET, TargetVal(t))
    ensures Trees(TARGET, TargetVal(t), Anonymous) == [TargetElement(t)]
  {
    hide HasType, Trees, OptionVal, OptionalNumber;
    var vs := TargetVal(t).vs;
    TargetFieldsTyped(vs);
    NoMoreFields();
    var f2 := Field(2, TOption(TUint(2)), NoFields);
    var f1 := Field(1, TOption(TUint(1)), f2);
    NextField(2, TOption(TUint(2)), NoFields, vs[2], []);
    NextField(1, TOption(TUint(1)), f2, vs[1], [vs[2]] + []);
    NextField(0, TOption(TUint(2)), f1, vs[0], [vs[1]] + ([vs[2]] + []));
    OptionalWritten(0, 2, t.cluster);
    OptionalWritten(1, 1, t.endpoint);
    OptionalWritten(2, 2, t.deviceType);
    assert [vs[0]] + ([vs[1]] + ([vs[2]] + [])) == vs;
    StructTree(Struct, Field(0, TOption(TUint(2)), f1), vs, Anonymous);
    ThreeJoined(OptionalNumber(0, t.cluster), OptionalNumber(1, t.endpoint), OptionalNumber(2, t.deviceType));
  }

  lemma TargetFieldsTyped(vs: seq<Val>)
    requires HasType(TARGET, VSeq(vs))
    ensures |vs| == 3 && HasType(TOption(TUint(2)), vs[0]) && HasType(TOption(TUint(1)), vs[1]) && HasType(TOption(TUint(2)), vs[2])
  {
    ThreeFields(0, TOption(TUint(2)), 1, TOption(TUint(1)), 2, TOption(TUint(2)), vs);
  }

  lemma ThreeJoined(a: seq<Tree>, b: seq<Tree>, c: seq<Tree>)
    ensures a + (b + (c + [])) == a + b + c
  {
  }

  lemma {:induction false} TargetsWritten(ts: seq<Option<Target>>)
    requires AllHaveType(TOption(TARGET), OptionVals(ts, TargetVal))
    ensures ElementTrees(TOption(TARGET), OptionVals(ts, TargetVal)) == TargetElements(ts)
  {
    hide TargetVal, TARGET, TargetElement;
    if ts != [] {
      assert OptionVals(ts, TargetVal)[1..] == OptionVals(ts[1..], TargetVal);
      TargetsWritten(ts[1..]);
      if ts[0].Some? {
        TargetWritten(ts[0].value);
      }
    }
  }

  lemma SlotTrees(n: nat, slot: Ty, vs: seq<Val>, tag: Tag)
    requires HasType(TSlots(n, slot), VSeq(vs))
    ensures AllHaveType(slot, vs) && Trees(TSlots(n, slot), VSeq(vs), tag) == [Node(tag, Array, ElementTrees(slot, vs))]
  {
  }

  lemma ScalarsWritten(privilege: nat, mode: nat)
    requires HasType(TPrivilege, VUint(privilege)) && HasType(TAuthMode, VUint(mode))
    ensures privilege < 16
    ensures Trees(TPrivilege, VUint(privilege), Context(1)) == [Leaf(Context(1), UInt(0, PrivilegeNumber(privilege)))]
    ensures Trees(TAuthMode, VUint(mode), Context(2)) == if mode == 4 then [] else [Leaf(Context(2), UInt(0, mode))]
  {
  }

  /** What is on the wire for an entry: every field under its own tag. */
  lemma EntryWritten(e: AclEntry, tag: Tag)
    requires Typed(e)
    ensures e.privilege < 16 && Trees(ACL_ENTRY, EntryVal(e), tag) == [Node(tag, Struct, EntryElements(e))]
  {
    hide HasType, Trees, OptionVal, OptionVals, OptionalNumber, SubjectElements, TargetElements, PrivilegeNumber, ElementTrees;
    var vs := EntryVal(e).vs;
    EntryParts(EntryVal(e));
    ScalarsWritten(e.privilege, e.authMode);
    SlotTrees(SUBJECTS_PER_ENTRY, TOption(TUint(3)), OptionVals(e.subjects, NatVal), Context(3));
    SubjectsWritten(e.subjects);
    SlotTrees(TARGETS_PER_ENTRY, TOption(TARGET), OptionVals(e.targets, TargetVal), Context(4));
    TargetsWritten(e.targets);
    OptionalWritten(254, 0, e.fabIdx);
    NoMoreFields();
    var f254 := Field(0xFE, TOption(TUint(0)), NoFields);
    var f4 := Field(4, TARGETS, f254);
    NextField(0xFE, TOption(TUint(0)), NoFields, vs[4], []);
    NextField(4, TARGETS, f254, vs[3], [vs[4]] + []);
    NextField(3, SUBJECTS, f4, vs[2], [vs[3]] + ([vs[4]] + []));
    NextField(2, TAuthMode, TAIL_FIELDS, vs[1], [vs[2]] + ([vs[3]] + ([vs[4]] + [])));
    NextField(1, TPrivilege, Field(2, TAuthMode, TAIL_FIELDS), vs[0], [vs[1]] + ([vs[2]] + ([vs[3]] + ([vs[4]] + []))));
    assert [vs[0]] + ([vs[1]] + ([vs[2]] + ([vs[3]] + ([vs[4]] + [])))) == vs;
    StructTree(Struct, ENTRY_FIELDS, vs, tag);
    FiveJoined(e);
  }

  lemma FiveJoined(e: AclEntry)
    requires e.privilege < 16
    ensures EntryElements(e)
         == [Leaf(Context(1), UInt(0, PrivilegeNumber(e.privilege)))]
            + ((if e.authMode == 4 then [] else [Leaf(Context(2), UInt(0, e.authMode))])
            + ([Node(Context(3), Array, SubjectElements(e.subjects))]
            + ([Node(Context(4), Array, TargetElements(e.targets))] + (OptionalNumber(254, e.fabIdx) + []))))
  {
    hide OptionalNumber, SubjectElements, TargetElements, PrivilegeNumber;
  }

  // ---------------------------------------------------------------- the bytes of one entry

  lemma NumberBytes(t: byte, u: byte)
    ensures Context(t).Valid() && UInt(0, u).Valid() && TokenBytes(Context(t), UInt(0, u)) == [36, t, u]
  {
    Pow256Values();
    assert Le(t, 1) == [t] && Le(u, 1) == [u];
    assert [36] + [t] == [36, t] && [36, t] + [u] == [36, t, u];
  }

  lemma ContainerBytes(t: byte)
    ensures TokenBytes(Context(t), Container(Array, [])) == [54, t] && TokenBytes(Anonymous, Container(Struct, [])) == [21]
    ensures END == [24]
  {
    assert Le(t, 1) == [t] && Le(0, 0) == [];
    assert [54] + [t] == [54, t] && [54, t] + [] == [54, t] && [21] + [] == [21];
  }

  lemma EmptyArrayBytes(t: byte)
    ensures ValidTree(Node(Context(t), Array, [])) && Encode(Node(Context(t), Array, [])) == [54, t, 24]
  {
    hide TokenBytes;
    NumberBytes(t, 0);
    ContainerBytes(t);
    EncodeNode(Node(Context(t), Array, []));
    assert [54, t] + [] + [24] == [54, t, 24];
  }

  lemma LeafBytes(t: byte, u: byte)
    ensures ValidTree(Leaf(Context(t), UInt(0, u))) && Encode(Leaf(Context(t), UInt(0, u))) == [36, t, u]
  {
    NumberBytes(t, u);
  }

  lemma ConsBytes(t: Tree, ts: seq<Tree>)
    requires ValidTree(t) && ValidForest(ts)
    ensures ValidForest([t] + ts) && EncodeForest([t] + ts) == Encode(t) + EncodeForest(ts)
  {
    assert ([t] + ts)[1..] == ts;
  }

  lemma NoBytes()
    ensures ValidForest([]) && EncodeForest([]) == []
  {
  }

  function PlainFields(fab: byte): seq<Tree> {
    [Leaf(Context(1), UInt(0, 1)), Leaf(Context(2), UInt(0, 2)), Node(Context(3), Array, []), Node(Context(4), Array, []),
     Leaf(Context(254), UInt(0, fab))]
  }

  lemma PlainBytes(fab: byte)
    ensures ValidForest(PlainFields(fab))
    ensures EncodeForest(PlainFields(fab)) == [36, 1, 1, 36, 2, 2, 54, 3, 24, 54, 4, 24, 36, 254, fab]
  {
    hide EncodeForest, ValidForest, ValidTree, Encode;
    var ts := PlainFields(fab);
    LeafBytes(1, 1);
    LeafBytes(2, 2);
    EmptyArrayBytes(3);
    EmptyArrayBytes(4);
    LeafBytes(254, fab);
    NoBytes();
    ConsBytes(ts[4], []);
    ConsBytes(ts[3], [ts[4]] + []);
    ConsBytes(ts[2], [ts[3]] + ([ts[4]] + []));
    ConsBytes(ts[1], [ts[2]] + ([ts[3]] + ([ts[4]] + [])));
    ConsBytes(ts[0], [ts[1]] + ([ts[2]] + ([ts[3]] + ([ts[4]] + []))));
    assert ts == [ts[0]] + ([ts[1]] + ([ts[2]] + ([ts[3]] + ([ts[4]] + []))));
  }

  /** A read of one VIEW entry for CASE of fabric `fab`, byte by byte. */
  lemma OneEntryBytes(fab: byte)
    ensures var e := AclEntry(1, 2, NO_SUBJECTS, NO_TARGETS, Some(fab));
            Typed(e) && EachTypedEntry([e])
            && ListBytes([e], Context(2))
               == [54, 2, 21, 36, 1, 1, 36, 2, 2, 54, 3, 24, 54, 4, 24, 36, 254, fab, 24, 24]
  {
    hide ListBytes, EncodeForest, ValidForest, Typed, PlainFields, EntryElements;
    var e := AclEntry(1, 2, NO_SUBJECTS, NO_TARGETS, Some(fab));
    PlainEntryTyped(fab);
    PlainElements(fab);
    PlainBytes(fab);
    OneEntryList(e, PlainFields(fab));
  }

  lemma PlainEntryTyped(fab: byte)
    ensures Typed(AclEntry(1, 2, NO_SUBJECTS, NO_TARGETS, Some(fab)))
  {
    Pow256Values();
    var e := AclEntry(1, 2, NO_SUBJECTS, NO_TARGETS, Some(fab));
    OptionsTyped(TUint(3), NO_SUBJECTS, NatVal);
    OptionsTyped(TARGET, NO_TARGETS, TargetVal);
    MakeEntryTyped(VUint(1), VUint(2), VSeq(OptionVals(NO_SUBJECTS, NatVal)), VSeq(OptionVals(NO_TARGETS, TargetVal)), VSome(VUint(fab)));
  }

  lemma PlainElements(fab: byte)
    ensures EntryElements(AclEntry(1, 2, NO_SUBJECTS, NO_TARGETS, Some(fab))) == PlainFields(fab)
  {
    Pow256Values();
    assert SubjectElements(NO_SUBJECTS[1..][1..][1..]) == [] && SubjectElements(NO_SUBJECTS[1..][1..]) == [];
    assert SubjectElements(NO_SUBJECTS[1..]) == [] && SubjectElements(NO_SUBJECTS) == [];
    assert TargetElements(NO_TARGETS[1..][1..]) == [] && TargetElements(NO_TARGETS[1..]) == [] && TargetElements(NO_TARGETS) == [];
  }

  lemma OneEntryList(e: AclEntry, inner: seq<Tree>)
    requires Typed(e) && e.privilege < 16 && inner == EntryElements(e) && ValidForest(inner)
    ensures EachTypedEntry([e])
    ensures ListBytes([e], Context(2)) == [54, 2, 21] + EncodeForest(inner) + [24, 24]
  {
    hide Typed, EntryElements, ListBytes, ListTree, EncodeForest, ValidForest, TokenBytes, Written, ACL_ENTRY, EntryVal, WrittenElements, EntryVals, HasType;
    var t := Node(Anonymous, Struct, inner);
    assert ValidTree(t);
    EncodeNode(t);
    EntryWritten(e, Anonymous);
    EntryFits(e);
    TypedIs(e);
    WrittenIsEncoding(ACL_ENTRY, EntryVal(e), Anonymous);
    EncodeOne(t);
    ContainerBytes(2);
    ListBytesAreBracketed([e], Context(2));
    OneWritten(e);
    assert [54, 2] + ([21] + EncodeForest(inner) + [24]) + [24] == [54, 2, 21] + EncodeForest(inner) + [24, 24];
  }

  // ---------------------------------------------------------------- what arrives in a write

  lemma EntriesSensible()
    ensures Sensible(ENTRIES) && Sensible(ACL_ENTRY)
  {
    assert Sensible(TARGET);
    assert SensibleFields(TAIL_FIELDS);
    assert SensibleFields(ENTRY_FIELDS);
  }

  lemma DecodedTyped(data: Element, fab: nat)
    requires ValidElement(data) && Decode(ACL_ENTRY, data).Ok? && fab < 256
    ensures Typed(EntryOf(Decode(ACL_ENTRY, data).value).(fabIdx := Some(fab)))
  {
    hide Decode, HasType, Typed;
    EntriesSensible();
    DecodeTyped(ACL_ENTRY, data);
    EntryValBack(Decode(ACL_ENTRY, data).value);
    StillTyped(EntryOf(Decode(ACL_ENTRY, data).value), fab, 0);
  }

  /** Occupied slots come first. */
  predicate Packed<T>(s: seq<Option<T>>) {
    forall i, j :: 0 <= i < j < |s| && s[j].Some? ==> s[i].Some?
  }

  lemma {:induction false} PackedIsFront<T>(s: seq<Option<T>>)
    requires Packed(s)
    ensures Front(s) == s
  {
    if s != [] {
      var rest := s[1..];
      assert forall i :: 0 <= i < |rest| ==> rest[i] == s[i + 1];
      PackedIsFront(rest);
      if s[0].Some? {
        assert forall i :: 0 < i < |s| ==> Front(s)[i] == Front(rest)[i - 1];
      } else {
        NoSomesOf(s);
      }
    }
  }

  lemma {:induction false} NoSomesOf<T>(s: seq<Option<T>>)
    requires forall i :: 0 <= i < |s| ==> s[i].None?
    ensures Somes(s) == []
  {
    if s != [] {
      NoSomesOf(s[1..]);
    }
  }

  lemma {:induction false} DecodedOptions(ty: Ty, es: seq<Element>)
    requires DecodeEach(TOption(ty), es).Ok?
    ensures forall i :: 0 <= i < |es| ==> DecodeEach(TOption(ty), es).value[i].VSome?
  {
    if es != [] {
      DecodedOptions(ty, es[1..]);
    }
  }

  /** Slots are filled from the front. */
  lemma DecodedPacked<T>(n: nat, ty: Ty, e: Element, f: Val -> T)
    requires Decode(TSlots(n, TOption(ty)), e).Ok?
    ensures Packed(OptionsOf(Parts(Decode(TSlots(n, TOption(ty)), e).value), f))
  {
    hide Packed, OptionsOf, Padded, Children, DecodeEach;
    var es := Cut(Children(Enter(e.val.body)), n);
    DecodedOptions(ty, es);
    PaddedPacked(DecodeEach(TOption(ty), es).value, n, f);
  }

  lemma PaddedPacked<T>(vs: seq<Val>, n: nat, f: Val -> T)
    requires forall i :: 0 <= i < |vs| ==> vs[i].VSome?
    ensures Packed(OptionsOf(Padded(vs, n), f))
  {
    hide OptionsOf;
    var ws := Padded(vs, n);
    assert forall i :: 0 <= i < |ws| ==> (ws[i].VSome? <==> i < |vs|);
  }

  /** One field of a structure: its own element was decoded, or there was none. */
  lemma HeadDecoded(tag: nat, ty: Ty, rest: Fields, es: seq<Element>) returns (e: Option<Element>, es': seq<Element>)
    requires DecodeFields(Field(tag, ty, rest), es).Ok?
    ensures var vs := DecodeFields(Field(tag, ty, rest), es).value; var r := DecodeFields(rest, es');
            vs != [] && (if e.Some? then Decode(ty, e.value) else NotFoundValue(ty)) == Ok(vs[0])
            && r.Ok? && vs[1..] == r.value
  {
    hide Decode;
    var here := es != [] && es[0].tag == Context(tag);
    e := if here then Some(es[0]) else None;
    es' := if here then es[1..] else es;
    var vs := DecodeFields(rest, es').value;
    assert DecodeFields(Field(tag, ty, rest), es).value[1..] == vs;
  }

  lemma FieldsOfEntry(es: seq<Element>)
    requires DecodeFields(ENTRY_FIELDS, es).Ok?
    ensures var vs := DecodeFields(ENTRY_FIELDS, es).value;
            |vs| >= 4 && (exists e :: Decode(TPrivilege, e) == Ok(vs[0])) && (exists e :: Decode(TAuthMode, e) == Ok(vs[1]))
            && (exists e :: Decode(SUBJECTS, e) == Ok(vs[2])) && (exists e :: Decode(TARGETS, e) == Ok(vs[3]))
  {
    hide Decode, DecodeFields;
    var vs := DecodeFields(ENTRY_FIELDS, es).value;
    var last := Field(0xFE, TOption(TUint(0)), NoFields);
    var e0, es1 := HeadDecoded(1, TPrivilege, Field(2, TAuthMode, TAIL_FIELDS), es);
    var e1, es2 := HeadDecoded(2, TAuthMode, TAIL_FIELDS, es1);
    var e2, es3 := HeadDecoded(3, SUBJECTS, Field(4, TARGETS, last), es2);
    var e3, es4 := HeadDecoded(4, TARGETS, last, es3);
    assert vs[1..][0] == vs[1] && vs[1..][1..] == vs[2..] && vs[2..][0] == vs[2] && vs[2..][1..] == vs[3..] && vs[3..][0] == vs[3];
    assert Decode(TPrivilege, e0.value) == Ok(vs[0]) && Decode(TAuthMode, e1.value) == Ok(vs[1]);
    assert Decode(SUBJECTS, e2.value) == Ok(vs[2]) && Decode(TARGETS, e3.value) == Ok(vs[3]);
  }

  lemma DecodedScalars(privilege: Val, mode: Val)
    requires exists e :: Decode(TPrivilege, e) == Ok(privilege)
    requires exists e :: Decode(TAuthMode, e) == Ok(mode)
    ensures NatOf(privilege) in {1, 3, 7, 15} && 1 <= NatOf(mode) <= 3
  {
  }

  /** A written entry has one of the four named privileges, a real mode, and its
      subjects and targets in front. */
  lemma Arrives(e: Element, fab: nat)
    requires Own(e, fab).Some?
    ensures var x := Own(e, fab).value; Named(x) && Restorable(x) && CompactEntry(x) == x
  {
    hide Decode, DecodeFields, Front, OptionsOf, Children;
    assert Decode(ACL_ENTRY, e).Ok?;
    var es := EntryChildrenOf(e);
    var vs := Decode(ACL_ENTRY, e).value.vs;
    FieldsOfEntry(es);
    DecodedScalars(vs[0], vs[1]);
    var s :| Decode(SUBJECTS, s) == Ok(vs[2]);
    DecodedPacked(SUBJECTS_PER_ENTRY, TUint(3), s, NatOf);
    PackedIsFront(OptionsOf(Parts(vs[2]), NatOf));
    var t :| Decode(TARGETS, t) == Ok(vs[3]);
    DecodedPacked(TARGETS_PER_ENTRY, TARGET, t, TargetOf);
    PackedIsFront(OptionsOf(Parts(vs[3]), TargetOf));
  }

  lemma EntryChildrenOf(e: Element) returns (es: seq<Element>)
    requires Decode(ACL_ENTRY, e).Ok?
    ensures DecodeFields(ENTRY_FIELDS, es).Ok? && Decode(ACL_ENTRY, e).value == VSeq(DecodeFields(ENTRY_FIELDS, es).value)
  {
    hide DecodeFields, Children, ENTRY_FIELDS;
    es := Children(Enter(e.val.body));
  }

  /** Of the entries that can arrive, a read changes exactly those with OPERATE. */
  lemma ReadChanges(x: AclEntry)
    requires Named(x) && CompactEntry(x) == x
    ensures Restored(x) == x <==> x.privilege != 3
    ensures x.privilege == 3 ==> Restored(x).privilege == 7
  {
    hide Front;
    NormalPrivilege(x.privilege);
    assert Restored(x).privilege == RestoredPrivilege(x.privilege);
    if x.privilege != 3 {
      assert Normal(x) == x;
    }
  }

  /** Some item of the written list has OPERATE. */
  predicate WritesOperate(es: seq<Element>, fab: nat) {
    hide Own;
    exists i :: 0 <= i < |es| && Own(es[i], fab).Some? && Own(es[i], fab).value.privilege == 3
  }

  lemma {:induction false} OwnedAt(es: seq<Element>, fab: nat, i: nat)
    requires AllOwn(es, fab) && i < |es|
    ensures Owned(es, fab)[i] == Own(es[i], fab).value
  {
    hide Own;
    if i > 0 {
      OwnedAt(es[1..], fab, i - 1);
    }
  }

  lemma OwnedArrives(es: seq<Element>, fab: nat)
    requires AllOwn(es, fab) && AllValid(es) && fab < 256
    ensures EachTypedEntry(Owned(es, fab)) && EachRestorable(Owned(es, fab))
    ensures RestoredAll(Owned(es, fab)) == Owned(es, fab) <==> !WritesOperate(es, fab)
    ensures forall i :: 0 <= i < |es| && Owned(es, fab)[i].privilege == 3 ==> RestoredAll(Owned(es, fab))[i].privilege == 7
  {
    hide Own, Typed, Restorable, CompactEntry, Restored, ValidElement, Named;
    var xs := Owned(es, fab);
    forall i | 0 <= i < |es|
      ensures Typed(xs[i]) && Restorable(xs[i]) && (Restored(xs[i]) == xs[i] <==> xs[i].privilege != 3)
      ensures Own(es[i], fab) == Some(xs[i]) && (xs[i].privilege == 3 ==> Restored(xs[i]).privilege == 7)
    {
      OwnedAt(es, fab, i);
      Arrives(es[i], fab);
      OwnTyped(es[i], fab);
      ReadChanges(xs[i]);
    }
    if !WritesOperate(es, fab) {
      assert forall i :: 0 <= i < |es| ==> RestoredAll(xs)[i] == xs[i];
    } else {
      var i :| 0 <= i < |es| && Own(es[i], fab).Some? && Own(es[i], fab).value.privilege == 3;
      assert RestoredAll(xs)[i] == Restored(xs[i]) != xs[i];
    }
  }

  lemma OwnTyped(e: Element, fab: nat)
    requires ValidElement(e) && Own(e, fab).Some? && fab < 256
    ensures Typed(Own(e, fab).value)
  {
    hide Typed, Decode;
    DecodedTyped(e, fab);
  }

  // ---------------------------------------------------------------- runs of requests

  /** Everything in the slots is typed, named and can be loaded again. */
  predicate AllArrived(entries: Entries) {
    AllTyped(entries) && AllRestorable(entries) && AllNamed(entries)
  }

  predicate Arrived(e: AclEntry) {
    Typed(e) && Restorable(e) && Named(e)
  }

  lemma ChangeArrived(entries: Entries, k: nat, x: Option<AclEntry>)
    requires AllArrived(entries) && k < |entries| && (x.Some? ==> Arrived(x.value))
    ensures AllArrived(entries[k := x])
  {
    hide Typed, Restorable, Named;
  }

  lemma ClearArrived(entries: Entries, fab: Option<nat>)
    requires AllArrived(entries)
    ensures AllArrived(DeleteForFabric(entries, fab))
  {
    hide Typed, Restorable, Named;
  }

  lemma OwnArrived(data: Element, fab: nat)
    requires ValidElement(data) && fab < 256 && Own(data, fab).Some?
    ensures Arrived(Own(data, fab).value)
  {
    hide Own, Typed;
    Arrives(data, fab);
    OwnTyped(data, fab);
  }

  lemma AddArrived(entries: Entries, e: AclEntry)
    requires AllArrived(entries) && Arrived(e)
    ensures AllArrived(Add(entries, e).entries)
  {
    hide AllArrived, Arrived, View;
    if Add(entries, e).r.Pass? {
      ChangeArrived(entries, Position(entries, (x: Option<AclEntry>) => x.None?).value, Some(e));
    }
  }

  lemma WriteArrived(entries: Entries, op: ListOp, data: Element, fab: nat, store: Entries -> Outcome)
    requires AllArrived(entries) && ValidElement(data) && fab < 256
    ensures AllArrived(WriteAcl(entries, op, data, fab, store).entries)
  {
    hide AllArrived, Arrived, ValidElement, View, SlotOf, DecodeEntry, Add, DeleteForFabric;
    if Own(data, fab).Some? {
      OwnArrived(data, fab);
      AddArrived(entries, Own(data, fab).value);
    }
    ClearArrived(entries, Some(fab));
    var index := match op case EditItem(i) => i % 256 case DeleteItem(i) => i % 256 case _ => 0;
    if SlotOf(entries, Some(fab), index).Some? {
      var k := SlotOf(entries, Some(fab), index).value;
      ChangeArrived(entries, k, None);
      if Own(data, fab).Some? {
        ChangeArrived(entries, k, Some(Own(data, fab).value));
      }
    }
  }

  lemma {:induction false} AddEachArrived(entries: Entries, es: seq<Element>, fab: nat, store: Entries -> Outcome)
    requires AllArrived(entries) && AllValid(es) && fab < 256
    ensures AllArrived(AddEach(entries, es, fab, store).entries)
    decreases |es|
  {
    hide AllArrived, WriteAcl, ValidElement;
    if es != [] {
      WriteArrived(entries, AddItem, es[0], fab, store);
      AddEachArrived(WriteAcl(entries, AddItem, es[0], fab, store).entries, es[1..], fab, store);
    }
  }

  lemma ListWriteArrived(entries: Entries, index: Option<nat>, data: Element, fab: nat, store: Entries -> Outcome)
    requires AllArrived(entries) && ValidElement(data) && fab < 256
    ensures AllArrived(ListWrite(entries, index, data, fab, store).entries)
  {
    hide AllArrived, WriteAcl, AddEach, ValidElement, Children, AllValid;
    if index.Some? {
      WriteArrived(entries, if data.val.Null? then DeleteItem(index.value) else EditItem(index.value), data, fab, store);
    } else if IsKind(data, Array) {
      WriteArrived(entries, DeleteList, data, fab, store);
      ChildrenValid(Enter(data.val.body));
      AddEachArrived(WriteAcl(entries, DeleteList, data, fab, store).entries, Children(Enter(data.val.body)), fab, store);
    } else {
      WriteArrived(entries, AddItem, data, fab, store);
    }
  }

  /** A request and the fabric it comes from. */
  datatype From = From(fab: nat, q: Request)

  /** What can come: well-formed elements, and entries with a named privilege and a real
      mode when a fabric is commissioned. */
  predicate CanCome(f: From) {
    f.fab < 256 && match f.q
    case Commission(e) => Arrived(e.(fabIdx := Some(f.fab)))
    case Write(_, data, _) => ValidElement(data)
  }

  function ServeFrom(entries: Entries, fs: seq<From>): Entries
    decreases |fs|
  {
    if fs == [] then entries else ServeFrom(Serve(entries, fs[0].q, fs[0].fab), fs[1..])
  }

  lemma {:induction false} RunArrived(entries: Entries, fs: seq<From>)
    requires AllArrived(entries) && forall i :: 0 <= i < |fs| ==> CanCome(fs[i])
    ensures AllArrived(ServeFrom(entries, fs))
    decreases |fs|
  {
    hide AllArrived, Arrived, ValidElement, ListWrite, Add;
    if fs != [] {
      match fs[0].q {
        case Commission(e) => AddArrived(entries, e.(fabIdx := Some(fs[0].fab)));
        case Write(index, data, store) => ListWriteArrived(entries, index, data, fs[0].fab, store);
      }
      RunArrived(Serve(entries, fs[0].q, fs[0].fab), fs[1..]);
    }
  }

  /** After any run of requests, of whatever fabrics, what would be stored can be loaded,
      and loading it gives the restored entries of all fabrics. */
  lemma RequestsSurvive(entries: Entries, fs: seq<From>)
    requires AllArrived(entries) && forall i :: 0 <= i < |fs| ==> CanCome(fs[i])
    ensures AllTyped(ServeFrom(entries, fs))
    ensures Load(Stored(ServeFrom(entries, fs))) == Ok(Restarted(ServeFrom(entries, fs)))
  {
    hide Load, Stored, Restarted, ServeFrom, Typed, Restorable, Named, CanCome;
    RunArrived(entries, fs);
    LoadAfterStore(ServeFrom(entries, fs));
  }

  // ---------------------------------------------------------------- whole lists

  /** After a successful write of a whole list, the fabric-filtered read decodes to the
      written entries, in order and wherever they went, with MANAGE in place of OPERATE.
      So the list reads back as it was written exactly if no item has OPERATE. */
  lemma WholeListReadsBack(entries: Entries, data: Element, fab: nat, store: Entries -> Outcome, tag: Tag, rest: seq<byte>)
    requires IsKind(data, Array) && ValidElement(data) && fab < 256 && tag.Valid()
    requires ListWrite(entries, None, data, fab, store).failure.None?
    ensures var es := Children(Enter(data.val.body)); var d := ListWrite(entries, None, data, fab, store);
            var shown := Shown(d.entries, Some(fab));
            AllOwn(es, fab) && EachTypedEntry(shown) &&
            var back := ReadList(ListBytes(shown, tag) + rest);
            back == Ok(RestoredAll(Owned(es, fab)))
            && (back == Ok(Owned(es, fab)) <==> !WritesOperate(es, fab))
  {
    hide ListWrite, Children, AllOwn, Owned, ReadList, ListBytes, EachTypedEntry, EachRestorable, WritesOperate, RestoredAll, AllValid;
    var es := Children(Enter(data.val.body));
    ChildrenValid(Enter(data.val.body));
    var n := WholeListTakesOver(entries, data, fab, store);
    assert es[..n] == es;
    OwnedArrives(es, fab);
    ReadsRestored(Owned(es, fab), tag, rest);
  }

  // ---------------------------------------------------------------- requests

  const NO_SUBJECTS: seq<Option<nat>> := [None, None, None, None]
  const NO_TARGETS: seq<Option<Target>> := [None, None, None]

  /** An item of a written list: an entry for CASE, everybody and everything. */
  function Item(number: nat): Tree {
    Node(Anonymous, Struct, [Leaf(Context(1), UInt(0, number)), Leaf(Context(2), UInt(0, 2)),
                             Node(Context(3), Array, []), Node(Context(4), Array, [])])
  }

  lemma FourValid(a: Tree, b: Tree, c: Tree, d: Tree)
    requires ValidTree(a) && ValidTree(b) && ValidTree(c) && ValidTree(d)
    ensures ValidForest([a, b, c, d])
  {
    hide ValidTree;
    assert [a, b, c, d][1..] == [b, c, d] && [b, c, d][1..] == [c, d] && [c, d][1..] == [d] && [d][1..] == [];
    assert ValidForest([d]) && ValidForest([c, d]) && ValidForest([b, c, d]);
  }

  lemma ItemValid(number: nat)
    requires number < 256
    ensures ValidTree(Item(number)) && ValidForest(Item(number).children)
  {
    Pow256Values();
    var ts := Item(number).children;
    FourValid(ts[0], ts[1], ts[2], ts[3]);
  }

  lemma FourDenoted(es: seq<Element>, a: Tree, b: Tree, c: Tree, d: Tree)
    requires ValidTree(a) && ValidTree(b) && ValidTree(c) && ValidTree(d)
    requires ValidForest([a, b, c, d]) && DenoteAll(es, [a, b, c, d])
    ensures |es| == 4 && Denotes(es[0], a) && Denotes(es[1], b) && Denotes(es[2], c) && Denotes(es[3], d)
  {
    hide ValidTree, Denotes;
    assert [a, b, c, d][1..] == [b, c, d] && [b, c, d][1..] == [c, d] && [c, d][1..] == [d];
    assert ValidForest([d]) && ValidForest([c, d]) && ValidForest([b, c, d]);
    assert DenoteAll(es[1..], [b, c, d]) && DenoteAll(es[1..][1..], [c, d]) && DenoteAll(es[1..][1..][1..], [d]);
    assert es[1..][0] == es[1] && es[1..][1..][0] == es[2] && es[1..][1..][1..][0] == es[3];
  }

  lemma EmptySlots(n: nat, slot: Ty, e: Element, tag: Tag)
    requires ValidTree(Node(tag, Array, [])) && Denotes(e, Node(tag, Array, []))
    ensures Decode(TSlots(n, slot), e) == Ok(VSeq(Padded([], n)))
  {
    hide Children, Denotes;
    ContainerBack(e, Node(tag, Array, []));
    assert Children(Enter(e.val.body)) == [];
    assert Decode(TSlots(n, slot), e) == match DecodeEach(slot, Cut([], n)) case Ok(vs) => Ok(VSeq(Padded(vs, n))) case Err(err) => Err(err);
  }

  lemma FieldHere(tag: nat, ty: Ty, rest: Fields, es: seq<Element>, v: Val)
    requires es != [] && es[0].tag == Context(tag) && Decode(ty, es[0]) == Ok(v) && DecodeFields(rest, es[1..]).Ok?
    ensures DecodeFields(Field(tag, ty, rest), es) == Ok([v] + DecodeFields(rest, es[1..]).value)
  {
    hide Decode;
  }

  lemma FabricMissing()
    ensures DecodeFields(Field(0xFE, TOption(TUint(0)), NoFields), []) == Ok([VNone])
  {
    assert DecodeFields(NoFields, []) == Ok([]);
    assert [VNone] + [] == [VNone];
  }

  lemma {:induction false} TwoFieldsHere(c: Element, d: Element, s: Val, t: Val)
    requires c.tag == Context(3) && d.tag == Context(4) && Decode(SUBJECTS, c) == Ok(s) && Decode(TARGETS, d) == Ok(t)
    ensures DecodeFields(TAIL_FIELDS, [c, d]) == Ok([s, t, VNone])
  {
    hide Decode, DecodeFields;
    var last := Field(0xFE, TOption(TUint(0)), NoFields);
    FabricMissing();
    assert [c, d][1..] == [d] && [d][1..] == [];
    FieldHere(4, TARGETS, last, [d], t);
    FieldHere(3, SUBJECTS, Field(4, TARGETS, last), [c, d], s);
    assert [s] + ([t] + [VNone]) == [s, t, VNone];
  }

  lemma {:induction false} FourFieldsHere(a: Element, b: Element, c: Element, d: Element, p: Val, m: Val, s: Val, t: Val)
    requires a.tag == Context(1) && b.tag == Context(2) && c.tag == Context(3) && d.tag == Context(4)
    requires Decode(TPrivilege, a) == Ok(p) && Decode(TAuthMode, b) == Ok(m)
    requires Decode(SUBJECTS, c) == Ok(s) && Decode(TARGETS, d) == Ok(t)
    ensures DecodeFields(ENTRY_FIELDS, [a, b, c, d]) == Ok([p, m, s, t, VNone])
  {
    hide Decode, DecodeFields, TAIL_FIELDS;
    TwoFieldsHere(c, d, s, t);
    assert [a, b, c, d][1..] == [b, c, d] && [b, c, d][1..] == [c, d];
    FieldHere(2, TAuthMode, TAIL_FIELDS, [b, c, d], m);
    FieldHere(1, TPrivilege, Field(2, TAuthMode, TAIL_FIELDS), [a, b, c, d], p);
    assert [p] + ([m] + [s, t, VNone]) == [p, m, s, t, VNone];
  }

  /** What the item of a request is decoded to. */
  lemma ItemDecoded(e: Element, number: nat, fab: nat)
    requires number < 256 && PrivilegeOf(number).Ok? && ValidTree(Item(number)) && Denotes(e, Item(number))
    ensures Own(e, fab) == Some(AclEntry(PrivilegeOf(number).value, 2, NO_SUBJECTS, NO_TARGETS, Some(fab)))
  {
    hide Denotes, Children, ValidTree, Decode, DecodeFields, ENTRY_FIELDS, OptionsOf, Padded, PrivilegeOf, Item;
    var a, b, c, d := ItemElements(e, number);
    var p := PrivilegeOf(number).value;
    var subjects, targets := VSeq(Padded([], SUBJECTS_PER_ENTRY)), VSeq(Padded([], TARGETS_PER_ENTRY));
    FourFieldsHere(a, b, c, d, VUint(p), VUint(2), subjects, targets);
    EntryDecoded(e, [a, b, c, d], VSeq([VUint(p), VUint(2), subjects, targets, VNone]));
    EntryForAll(p);
  }

  lemma EntryForAll(p: nat)
    ensures EntryOf(VSeq([VUint(p), VUint(2), VSeq(Padded([], SUBJECTS_PER_ENTRY)), VSeq(Padded([], TARGETS_PER_ENTRY)), VNone]))
         == AclEntry(p, 2, NO_SUBJECTS, NO_TARGETS, None)
  {
    hide OptionsOf, Padded;
    NothingIn(SUBJECTS_PER_ENTRY, NatOf);
    NothingIn(TARGETS_PER_ENTRY, TargetOf);
    assert seq(SUBJECTS_PER_ENTRY, i => None) == NO_SUBJECTS && seq(TARGETS_PER_ENTRY, i => None) == NO_TARGETS;
  }

  lemma NothingIn<T>(n: nat, f: Val -> T)
    ensures OptionsOf(Padded([], n), f) == seq(n, i => None)
  {
    var vs := Padded([], n);
    assert |vs| == n;
    forall i | 0 <= i < n
      ensures OptionsOf(vs, f)[i] == None
    {
      assert vs[i] == VNone;
    }
  }

  lemma EntryDecoded(e: Element, es: seq<Element>, v: Val)
    requires v.VSeq? && IsKind(e, Struct) && Children(Enter(e.val.body)) == es && DecodeFields(ENTRY_FIELDS, es) == Ok(v.vs)
    ensures DecodeEntry(e) == Ok(EntryOf(v))
  {
    hide DecodeFields, ENTRY_FIELDS, EntryOf, Children;
  }

  lemma ItemElements(e: Element, number: nat) returns (a: Element, b: Element, c: Element, d: Element)
    requires number < 256 && PrivilegeOf(number).Ok? && ValidTree(Item(number)) && Denotes(e, Item(number))
    ensures IsKind(e, Struct) && [a, b, c, d] == Children(Enter(e.val.body))
    ensures a.tag == Context(1) && Decode(TPrivilege, a) == Ok(VUint(PrivilegeOf(number).value))
    ensures b.tag == Context(2) && Decode(TAuthMode, b) == Ok(VUint(2))
    ensures c.tag == Context(3) && Decode(SUBJECTS, c) == Ok(VSeq(Padded([], SUBJECTS_PER_ENTRY)))
    ensures d.tag == Context(4) && Decode(TARGETS, d) == Ok(VSeq(Padded([], TARGETS_PER_ENTRY)))
  {
    hide Children, DenoteAll, Decode, Denotes, ValidTree, ValidForest, PrivilegeOf, Padded;
    var ts := Item(number).children;
    ItemValid(number);
    ItemPartsValid(number);
    ContainerBack(e, Item(number));
    var es := Children(Enter(e.val.body));
    FourDenoted(es, ts[0], ts[1], ts[2], ts[3]);
    a, b, c, d := es[0], es[1], es[2], es[3];
    assert es == [a, b, c, d];
    NumbersDecoded(a, b, number);
    EmptySlots(SUBJECTS_PER_ENTRY, TOption(TUint(3)), c, Context(3));
    EmptySlots(TARGETS_PER_ENTRY, TOption(TARGET), d, Context(4));
    DenotesTag(c, ts[2]);
    DenotesTag(d, ts[3]);
  }

  lemma ItemPartsValid(number: nat)
    requires number < 256
    ensures var ts := Item(number).children; ValidTree(ts[0]) && ValidTree(ts[1]) && ValidTree(ts[2]) && ValidTree(ts[3])
  {
    Pow256Values();
  }

  lemma NumbersDecoded(a: Element, b: Element, number: nat)
    requires PrivilegeOf(number).Ok?
    requires ValidTree(Leaf(Context(1), UInt(0, number))) && Denotes(a, Leaf(Context(1), UInt(0, number)))
    requires ValidTree(Leaf(Context(2), UInt(0, 2))) && Denotes(b, Leaf(Context(2), UInt(0, 2)))
    ensures a.tag == Context(1) && Decode(TPrivilege, a) == Ok(VUint(PrivilegeOf(number).value))
    ensures b.tag == Context(2) && Decode(TAuthMode, b) == Ok(VUint(2))
  {
  }

  /** A request that writes one entry with OPERATE succeeds, and the fabric reads MANAGE. */
  lemma OperateReadsAsManage(entries: Entries, data: Element, fab: nat, store: Entries -> Outcome, tag: Tag, rest: seq<byte>)
    requires ValidElement(data) && fab < 256 && tag.Valid() && (forall x :: store(x) == Pass)
    requires Free(DeleteForFabric(entries, Some(fab))) > 0
    requires IsKind(data, Array) && ValidForest([Item(3)]) && DenoteAll(Children(Enter(data.val.body)), [Item(3)])
    ensures var d := ListWrite(entries, None, data, fab, store); var shown := Shown(d.entries, Some(fab));
            d.failure.None? && EachTypedEntry(shown)
            && Owned(Children(Enter(data.val.body)), fab) == [AclEntry(3, 2, NO_SUBJECTS, NO_TARGETS, Some(fab))]
            && ReadList(ListBytes(shown, tag) + rest) == Ok([AclEntry(7, 2, NO_SUBJECTS, NO_TARGETS, Some(fab))])
  {
    hide ListWrite, Children, ReadList, ListBytes, EachTypedEntry, Own, Restored, DeleteForFabric, Free, ValidElement, Item;
    var es := Children(Enter(data.val.body));
    DenoteOne(es, [Item(3)]);
    ItemDecoded(es[0], 3, fab);
    WholeListTakenIfStored(entries, data, fab, store);
    WholeListReadsBack(entries, data, fab, store, tag, rest);
    OperateRestored(fab);
    assert es == [es[0]] && [es[0]][1..] == [];
    assert Owned(es, fab) == [AclEntry(3, 2, NO_SUBJECTS, NO_TARGETS, Some(fab))];
  }

  lemma OperateRestored(fab: nat)
    ensures var x := AclEntry(3, 2, NO_SUBJECTS, NO_TARGETS, Some(fab));
            RestoredAll([x]) == [AclEntry(7, 2, NO_SUBJECTS, NO_TARGETS, Some(fab))]
  {
    var x := AclEntry(3, 2, NO_SUBJECTS, NO_TARGETS, Some(fab));
    NormalPrivilege(3);
    PackedIsFront(NO_SUBJECTS);
    PackedIsFront(NO_TARGETS);
    assert Restored(x) == AclEntry(7, 2, NO_SUBJECTS, NO_TARGETS, Some(fab));
  }

  /** A request with one good item and a null: the fabric's old list is lost to it. */
  lemma NullItemLosesTheList(entries: Entries, data: Element, fab: nat, store: Entries -> Outcome)
    requires (forall x :: store(x) == Pass) && View(entries, Some(fab)) != []
    requires IsKind(data, Array) && ValidForest([Item(1), Leaf(Anonymous, Null)])
    requires DenoteAll(Children(Enter(data.val.body)), [Item(1), Leaf(Anonymous, Null)])
    ensures var d := ListWrite(entries, None, data, fab, store);
            d.failure == Some(ConstraintError) && View(d.entries, Some(fab)) == [AclEntry(1, 2, NO_SUBJECTS, NO_TARGETS, Some(fab))]
  {
    hide ListWrite, Children, View, Item, Own;
    var es := Children(Enter(data.val.body));
    TwoDenoted(es, Item(1), Leaf(Anonymous, Null));
    ItemDecoded(es[0], 1, fab);
    NullDecodesNot(es[1], fab);
    FailedWriteLosesTheList(entries, data, fab, store);
  }

  lemma TwoDenoted(es: seq<Element>, a: Tree, b: Tree)
    requires ValidForest([a, b]) && DenoteAll(es, [a, b])
    ensures |es| == 2 && ValidTree(a) && ValidTree(b) && Denotes(es[0], a) && Denotes(es[1], b)
  {
    hide ValidTree, Denotes;
    assert [a, b][1..] == [b];
    assert ValidForest([b]) && DenoteAll(es[1..], [b]) && es[1..][0] == es[1];
  }

  lemma NullDecodesNot(e: Element, fab: nat)
    requires e.val.Null?
    ensures Own(e, fab).None?
  {
  }

  /** Such requests exist: these are their bytes. */
  lemma RequestExists(items: seq<Tree>, tag: Tag) returns (data: Element)
    requires ValidForest(items) && tag.Valid()
    ensures IsKind(data, Array) && ValidElement(data) && DenoteAll(Children(Enter(data.val.body)), items)
    ensures ReadElement(Encode(Node(tag, Array, items))).elem == Some(data)
  {
    hide Children, ReadElement, Encode, ValidElement, Denotes;
    var t := Node(tag, Array, items);
    assert ValidTree(t);
    ReadFirst(t, []);
    assert Encode(t) + [] == Encode(t);
    data := ReadElement(Encode(t)).elem.value;
    ContainerBack(data, t);
    Sound(Encode(t));
  }

  lemma Sound(s: seq<byte>)
    requires ReadElement(s).elem.Some?
    ensures ValidElement(ReadElement(s).elem.value)
  {
    hide ReadElement;
    TokenOfRead(s);
  }
}

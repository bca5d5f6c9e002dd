/**
 A restart: what loading makes of the stored slots, and which entries survive it.
 */
module AclRestarts {
  import opened Bytes
  import opened Tlv
  import opened TlvParser
  import opened Schema
  import opened Derive
  import opened DeriveCodec
  import opened Acls
  import opened AclStores

  // ---------------------------------------------------------------- slots moved to the front

  function Somes<T>(s: seq<Option<T>>): (r: seq<T>)
    ensures |r| <= |s|
  {
    if s == [] then [] else (if s[0].Some? then [s[0].value] else []) + Somes(s[1..])
  }

  /** `xs` in the first slots of `n`. */
  function Slots<T>(xs: seq<T>, n: nat): (s: seq<Option<T>>)
    ensures |s| == n
    ensures forall i :: 0 <= i < n ==> s[i] == if i < |xs| then Some(xs[i]) else None
  {
    seq(n, i requires 0 <= i => if i < |xs| then Some(xs[i]) else None)
  }

  function Front<T>(s: seq<Option<T>>): seq<Option<T>> {
    Slots(Somes(s), |s|)
  }

  function MapSome<T, U>(s: seq<Option<T>>, f: T -> U): (r: seq<Option<U>>)
    ensures |r| == |s|
    ensures forall i :: 0 <= i < |s| ==> r[i] == if s[i].Some? then Some(f(s[i].value)) else None
  {
    if s == [] then [] else [if s[0].Some? then Some(f(s[0].value)) else None] + MapSome(s[1..], f)
  }

  lemma {:induction false} InSomes<T>(s: seq<Option<T>>, x: T)
    ensures x in Somes(s) <==> Some(x) in s
  {
    if s != [] {
      InSomes(s[1..], x);
      assert s == [s[0]] + s[1..];
    }
  }

  /** Moving to the front keeps exactly the same values. */
  lemma InFront<T>(s: seq<Option<T>>, x: T)
    ensures Some(x) in Front(s) <==> Some(x) in s
  {
    var xs := Somes(s);
    InSomes(s, x);
    if x in xs {
      var i :| 0 <= i < |xs| && xs[i] == x;
      assert Front(s)[i] == Some(x);
    }
    if Some(x) in Front(s) {
      var i :| 0 <= i < |s| && Front(s)[i] == Some(x);
      assert x == xs[i];
    }
  }

  // ---------------------------------------------------------------- what comes back

  /** OPERATE comes back as MANAGE. */
  function RestoredPrivilege(p: nat): nat {
    if p < 16 && PrivilegeOf(PrivilegeNumber(p)).Ok? then PrivilegeOf(PrivilegeNumber(p)).value else p
  }

  function Restored(e: AclEntry): AclEntry {
    CompactEntry(Normal(e))
  }

  function Normal(e: AclEntry): AclEntry {
    e.(privilege := RestoredPrivilege(e.privilege))
  }

  function CompactEntry(e: AclEntry): AclEntry {
    e.(subjects := Front(e.subjects), targets := Front(e.targets))
  }

  function Restarted(entries: Entries): Entries {
    Front(MapSome(entries, Restored))
  }

  /** The entry can be read again: it has the VIEW bit and a real authentication mode. */
  predicate Restorable(e: AclEntry) {
    e.privilege % 2 == 1 && e.authMode != 4
  }

  /** Its privilege is the one that was written. */
  predicate Unchanging(e: AclEntry) {
    e.privilege in {1, 7, 15} && e.authMode != 4
  }

  predicate AllRestorable(entries: Entries) {
    forall i :: 0 <= i < |entries| ==> entries[i].Some? ==> Restorable(entries[i].value)
  }

  function Stored(entries: Entries): seq<byte>
    requires AllTyped(entries)
  {
    EntriesTyped(entries);
    Written(ENTRIES, EntriesVal(entries), Anonymous)
  }

  /** `AclMgrInner::load` on the bytes that were found. */
  function Load(bytes: seq<byte>): Result<Entries, Error> {
    match ReadElement(bytes).elem
    case None => Err(Invalid)
    case Some(e) =>
      match Decode(ENTRIES, e)
      case Ok(v) => Ok(EntriesOf(v))
      case Err(err) => Err(err)
  }

  // ---------------------------------------------------------------- compaction of the values

  lemma {:induction false} CompactOptions<T>(ty: Ty, s: seq<Option<T>>, f: T -> Val, h: T -> T)
    requires forall i :: 0 <= i < |s| ==> s[i].Some? ==>
               HasType(ty, f(s[i].value)) && Compact(ty, f(s[i].value)) == f(h(s[i].value))
    ensures AllHaveType(TOption(ty), OptionVals(s, f))
    ensures CompactEach(TOption(ty), OptionVals(s, f)) == OptionVals(MapSome(s, h), f)
  {
    hide HasType, Compact, AllHaveType, CompactEach;
    if s == [] {
      NothingCompact(ty);
    } else {
      var rest := s[1..];
      assert forall i :: 0 <= i < |rest| ==> rest[i] == s[i + 1];
      CompactOptions(ty, rest, f, h);
      assert OptionVals(s, f) == [OptionVal(s[0], f)] + OptionVals(rest, f);
      OneCompact(ty, OptionVal(s[0], f), OptionVals(rest, f));
    }
  }

  lemma NothingCompact(ty: Ty)
    ensures AllHaveType(TOption(ty), []) && CompactEach(TOption(ty), []) == []
  {
  }

  lemma OneCompact(ty: Ty, v: Val, vs: seq<Val>)
    requires v.VNone? || (v.VSome? && HasType(ty, v.v))
    requires AllHaveType(TOption(ty), vs)
    ensures AllHaveType(TOption(ty), [v] + vs)
    ensures CompactEach(TOption(ty), [v] + vs)
         == [if v.VNone? then VNone else VSome(Compact(ty, v.v))] + CompactEach(TOption(ty), vs)
  {
    assert ([v] + vs)[1..] == vs;
  }

  function SomeVals<T>(xs: seq<T>, f: T -> Val): (vs: seq<Val>)
    ensures |vs| == |xs| && forall i :: 0 <= i < |xs| ==> vs[i] == VSome(f(xs[i]))
  {
    if xs == [] then [] else [VSome(f(xs[0]))] + SomeVals(xs[1..], f)
  }

  lemma {:induction false} PresentOptions<T>(s: seq<Option<T>>, f: T -> Val)
    ensures Present(OptionVals(s, f)) == SomeVals(Somes(s), f)
  {
    if s != [] {
      var rest := s[1..];
      PresentOptions(rest, f);
      assert OptionVals(s, f) == [OptionVal(s[0], f)] + OptionVals(rest, f);
      hide OptionVals;
      OnePresent(OptionVal(s[0], f), OptionVals(rest, f));
      if s[0].Some? {
        assert Somes(s)[1..] == Somes(rest);
      } else {
        assert Somes(s) == Somes(rest);
      }
    }
  }

  lemma OnePresent(v: Val, vs: seq<Val>)
    ensures Present([v] + vs) == if v.VNone? then Present(vs) else [v] + Present(vs)
  {
    assert ([v] + vs)[1..] == vs;
  }

  lemma PaddedOptions<T>(s: seq<Option<T>>, f: T -> Val)
    ensures Padded(Present(OptionVals(s, f)), |s|) == OptionVals(Front(s), f)
  {
    hide Present, OptionVals, Somes;
    PresentOptions(s, f);
    PaddedSlots(Somes(s), |s|, f);
  }

  lemma PaddedSlots<T>(xs: seq<T>, n: nat, f: T -> Val)
    requires |xs| <= n
    ensures Padded(SomeVals(xs, f), n) == OptionVals(Slots(xs, n), f)
  {
    hide SomeVals, OptionVals, Slots;
    var vs, ws := Padded(SomeVals(xs, f), n), OptionVals(Slots(xs, n), f);
    assert |vs| == n == |ws|;
    forall i | 0 <= i < n
      ensures vs[i] == ws[i]
    {
      assert ws[i] == OptionVal(Slots(xs, n)[i], f);
    }
  }

  lemma CompactSlots<T>(n: nat, ty: Ty, s: seq<Option<T>>, f: T -> Val, h: T -> T)
    requires |s| == n && forall i :: 0 <= i < |s| ==> s[i].Some? ==>
               HasType(ty, f(s[i].value)) && Compact(ty, f(s[i].value)) == f(h(s[i].value))
    ensures HasType(TSlots(n, TOption(ty)), VSeq(OptionVals(s, f)))
    ensures Compact(TSlots(n, TOption(ty)), VSeq(OptionVals(s, f))) == VSeq(OptionVals(Front(MapSome(s, h)), f))
  {
    CompactOptions(ty, s, f, h);
    PaddedOptions(MapSome(s, h), f);
  }

  function Same<T>(x: T): T {
    x
  }

  lemma MapSomeSame<T>(s: seq<Option<T>>)
    ensures MapSome(s, Same) == s
  {
  }

  lemma TargetCompact(t: Target)
    requires HasType(TARGET, TargetVal(t))
    ensures Compact(TARGET, TargetVal(t)) == TargetVal(t)
  {
    var vs := TargetVal(t).vs;
    ThreeFields(0, TOption(TUint(2)), 1, TOption(TUint(1)), 2, TOption(TUint(2)), vs);
    assert vs[1..][1..] == vs[2..] && vs[2..][1..] == [];
    assert CompactFields(Field(2, TOption(TUint(2)), NoFields), vs[2..]) == vs[2..];
    assert CompactFields(Field(1, TOption(TUint(1)), Field(2, TOption(TUint(2)), NoFields)), vs[1..]) == vs[1..];
  }

  lemma SlotValues<T>(n: nat, ty: Ty, s: seq<Option<T>>, f: T -> Val)
    requires HasType(TSlots(n, TOption(ty)), VSeq(OptionVals(s, f)))
    ensures |s| == n && forall i :: 0 <= i < |s| ==> s[i].Some? ==> HasType(ty, f(s[i].value))
  {
    hide HasType, OptionVals, AllHaveType;
    SlotsParts(n, TOption(ty), OptionVals(s, f));
    forall i | 0 <= i < |s| && s[i].Some?
      ensures HasType(ty, f(s[i].value))
    {
      SlotValue(ty, s, f, i);
    }
  }

  lemma SlotValue<T>(ty: Ty, s: seq<Option<T>>, f: T -> Val, i: nat)
    requires AllHaveType(TOption(ty), OptionVals(s, f)) && i < |s| && s[i].Some?
    ensures HasType(ty, f(s[i].value))
  {
    hide HasType, OptionVals, AllHaveType;
    var vs := OptionVals(s, f);
    assert vs[i] == VSome(f(s[i].value));
    TypedOptions(ty, vs, i);
  }

  lemma SlotsParts(n: nat, slot: Ty, vs: seq<Val>)
    requires HasType(TSlots(n, slot), VSeq(vs))
    ensures |vs| == n && AllHaveType(slot, vs)
  {
  }

  lemma SubjectsCompact(s: seq<Option<nat>>)
    requires HasType(SUBJECTS, VSeq(OptionVals(s, NatVal)))
    ensures Compact(SUBJECTS, VSeq(OptionVals(s, NatVal))) == VSeq(OptionVals(Front(s), NatVal))
  {
    SlotValues(SUBJECTS_PER_ENTRY, TUint(3), s, NatVal);
    CompactSlots(SUBJECTS_PER_ENTRY, TUint(3), s, NatVal, Same);
    MapSomeSame(s);
  }

  lemma TargetsCompact(s: seq<Option<Target>>)
    requires HasType(TARGETS, VSeq(OptionVals(s, TargetVal)))
    ensures Compact(TARGETS, VSeq(OptionVals(s, TargetVal))) == VSeq(OptionVals(Front(s), TargetVal))
  {
    SlotValues(TARGETS_PER_ENTRY, TARGET, s, TargetVal);
    forall i | 0 <= i < |s| && s[i].Some?
      ensures Compact(TARGET, TargetVal(s[i].value)) == TargetVal(s[i].value)
    {
      TargetCompact(s[i].value);
    }
    CompactSlots(TARGETS_PER_ENTRY, TARGET, s, TargetVal, Same);
    MapSomeSame(s);
  }

  lemma FieldCompact(tag: nat, ty: Ty, rest: Fields, v: Val, vs: seq<Val>)
    requires tag < 256 && HasType(ty, v) && HasFields(rest, vs)
    ensures HasFields(Field(tag, ty, rest), [v] + vs)
    ensures CompactFields(Field(tag, ty, rest), [v] + vs) == [Compact(ty, v)] + CompactFields(rest, vs)
  {
    assert ([v] + vs)[1..] == vs;
  }

  lemma ScalarsCompact(v0: Val, v1: Val, v4: Val)
    requires HasType(TPrivilege, v0) && HasType(TAuthMode, v1) && HasType(TOption(TUint(0)), v4)
    ensures Compact(TPrivilege, v0) == v0 && Compact(TAuthMode, v1) == v1 && Compact(TOption(TUint(0)), v4) == v4
    ensures HasFields(NoFields, []) && CompactFields(NoFields, []) == []
  {
  }

  lemma StructCompact(kind: Kind, fields: Fields, vs: seq<Val>)
    requires HasFields(fields, vs)
    ensures HasType(TStruct(kind, fields), VSeq(vs))
    ensures Compact(TStruct(kind, fields), VSeq(vs)) == VSeq(CompactFields(fields, vs))
  {
  }

  lemma CompactFive(v0: Val, v1: Val, v2: Val, v3: Val, v4: Val)
    requires HasType(TPrivilege, v0) && HasType(TAuthMode, v1)
    requires HasType(SUBJECTS, v2) && HasType(TARGETS, v3) && HasType(TOption(TUint(0)), v4)
    ensures HasType(ACL_ENTRY, VSeq([v0, v1, v2, v3, v4]))
    ensures Compact(ACL_ENTRY, VSeq([v0, v1, v2, v3, v4])) == VSeq([v0, v1, Compact(SUBJECTS, v2), Compact(TARGETS, v3), v4])
  {
    hide HasType, HasFields, Compact, CompactFields;
    ScalarsCompact(v0, v1, v4);
    var last := Field(0xFE, TOption(TUint(0)), NoFields);
    FieldCompact(0xFE, TOption(TUint(0)), NoFields, v4, []);
    FieldCompact(4, TARGETS, last, v3, [v4] + []);
    FieldCompact(3, SUBJECTS, Field(4, TARGETS, last), v2, [v3] + ([v4] + []));
    FieldCompact(2, TAuthMode, TAIL_FIELDS, v1, [v2] + ([v3] + ([v4] + [])));
    FieldCompact(1, TPrivilege, Field(2, TAuthMode, TAIL_FIELDS), v0, [v1] + ([v2] + ([v3] + ([v4] + []))));
    assert [v0] + ([v1] + ([v2] + ([v3] + ([v4] + [])))) == [v0, v1, v2, v3, v4];
    StructCompact(Struct, ENTRY_FIELDS, [v0, v1, v2, v3, v4]);
  }

  lemma EntryCompact(e: AclEntry)
    requires Typed(e)
    ensures Compact(ACL_ENTRY, EntryVal(e)) == EntryVal(CompactEntry(e))
  {
    hide HasType, Compact, OptionVals, Front;
    var vs := EntryVal(e).vs;
    EntryParts(EntryVal(e));
    CompactFive(vs[0], vs[1], vs[2], vs[3], vs[4]);
    SubjectsCompact(e.subjects);
    TargetsCompact(e.targets);
  }

  lemma EntriesCompact(entries: Entries)
    requires AllTyped(entries)
    ensures HasType(ENTRIES, EntriesVal(entries))
    ensures Compact(ENTRIES, EntriesVal(entries)) == EntriesVal(Front(MapSome(entries, CompactEntry)))
  {
    hide HasType, Compact, OptionVals, EntryVal, CompactEntry;
    forall i | 0 <= i < |entries| && entries[i].Some?
      ensures Compact(ACL_ENTRY, EntryVal(entries[i].value)) == EntryVal(CompactEntry(entries[i].value))
    {
      EntryCompact(entries[i].value);
    }
    CompactSlots(MAX_ACL_ENTRIES, ACL_ENTRY, entries, EntryVal, CompactEntry);
  }

  // ---------------------------------------------------------------- what is on the wire

  /** OPERATE and MANAGE are written alike, so an entry is written like its normal form. */
  lemma NormalIsWrittenAlike(e: AclEntry, tag: Tag)
    requires Typed(e) && Restorable(e)
    ensures Typed(Normal(e)) && Unchanging(Normal(e))
    ensures Trees(ACL_ENTRY, EntryVal(e), tag) == Trees(ACL_ENTRY, EntryVal(Normal(e)), tag)
  {
    var n := Normal(e);
    EntryParts(EntryVal(e));
    NormalPrivilege(e.privilege);
    StillTyped(e, 0, n.privilege);
    var vs, ws := EntryVal(e).vs, EntryVal(n).vs;
    assert vs[1..] == ws[1..];
    assert Trees(TPrivilege, vs[0], Context(1)) == Trees(TPrivilege, ws[0], Context(1));
  }

  lemma NormalPrivilege(p: nat)
    requires p < 16 && p % 2 == 1
    ensures RestoredPrivilege(p) in {1, 7, 15} && PrivilegeNumber(RestoredPrivilege(p)) == PrivilegeNumber(p)
    ensures p in {1, 7, 15} ==> RestoredPrivilege(p) == p
    ensures p == 3 ==> RestoredPrivilege(p) == 7
  {
    assert p in {1, 3, 5, 7, 9, 11, 13, 15};
  }

  lemma {:induction false} NormalsAreWrittenAlike(s: Entries)
    requires forall i :: 0 <= i < |s| ==> s[i].Some? ==> Typed(s[i].value) && Restorable(s[i].value)
    ensures AllHaveType(TOption(ACL_ENTRY), OptionVals(s, EntryVal))
    ensures AllHaveType(TOption(ACL_ENTRY), OptionVals(MapSome(s, Normal), EntryVal))
    ensures ElementTrees(TOption(ACL_ENTRY), OptionVals(s, EntryVal))
         == ElementTrees(TOption(ACL_ENTRY), OptionVals(MapSome(s, Normal), EntryVal))
  {
    hide EntryVal, ACL_ENTRY, Normal, Trees, HasType, Restorable, Unchanging;
    if s != [] {
      NormalsAreWrittenAlike(s[1..]);
      OneWrittenAlike(s[0]);
      assert OptionVals(s, EntryVal)[1..] == OptionVals(s[1..], EntryVal);
      assert MapSome(s, Normal)[1..] == MapSome(s[1..], Normal);
      assert OptionVals(MapSome(s, Normal), EntryVal)[1..] == OptionVals(MapSome(s[1..], Normal), EntryVal);
    }
  }

  lemma OneWrittenAlike(o: Option<AclEntry>)
    requires o.Some? ==> Typed(o.value) && Restorable(o.value)
    ensures var n := if o.Some? then Some(Normal(o.value)) else None;
            HasType(TOption(ACL_ENTRY), OptionVal(o, EntryVal)) && HasType(TOption(ACL_ENTRY), OptionVal(n, EntryVal))
            && Trees(TOption(ACL_ENTRY), OptionVal(o, EntryVal), Anonymous)
            == Trees(TOption(ACL_ENTRY), OptionVal(n, EntryVal), Anonymous)
  {
    hide EntryVal, ACL_ENTRY, Normal;
    if o.Some? {
      NormalIsWrittenAlike(o.value, Anonymous);
      TypedIs(o.value);
      TypedIs(Normal(o.value));
    }
  }

  lemma TypedIs(e: AclEntry)
    ensures Typed(e) == HasType(ACL_ENTRY, EntryVal(e))
  {
  }

  /** There are no octet strings in a list of entries, so everything fits and nothing
      but privileges and modes is lost. */
  lemma EntryFits(e: AclEntry)
    requires Typed(e)
    ensures Fits(ACL_ENTRY, EntryVal(e)) && (Unchanging(e) ==> Lossless(ACL_ENTRY, EntryVal(e)))
  {
    EntryParts(EntryVal(e));
    var vs := EntryVal(e).vs;
    SlotNatsFit(SUBJECTS_PER_ENTRY, 3, vs[2]);
    TargetSlotsFit(vs[3]);
    assert vs[1..][1..] == vs[2..] && vs[2..][1..] == vs[3..] && vs[3..][1..] == vs[4..] && vs[4..][1..] == [];
    var f4 := Field(4, TARGETS, Field(0xFE, TOption(TUint(0)), NoFields));
    assert FieldsFit(Field(0xFE, TOption(TUint(0)), NoFields), vs[4..]) && FieldsFit(f4, vs[3..]);
    assert LosslessFields(Field(0xFE, TOption(TUint(0)), NoFields), vs[4..]) && LosslessFields(f4, vs[3..]);
    assert FieldsFit(TAIL_FIELDS, vs[2..]) && LosslessFields(TAIL_FIELDS, vs[2..]);
    assert FieldsFit(Field(2, TAuthMode, TAIL_FIELDS), vs[1..]);
    assert Unchanging(e) ==> LosslessFields(Field(2, TAuthMode, TAIL_FIELDS), vs[1..]);
  }

  lemma SlotNatsFit(n: nat, k: nat, v: Val)
    requires HasType(TSlots(n, TOption(TUint(k))), v)
    ensures Fits(TSlots(n, TOption(TUint(k))), v) && Lossless(TSlots(n, TOption(TUint(k))), v)
  {
    OptionNatsFit(k, v.vs);
  }

  lemma {:induction false} OptionNatsFit(k: nat, vs: seq<Val>)
    requires AllHaveType(TOption(TUint(k)), vs)
    ensures AllFit(TOption(TUint(k)), vs) && AllLossless(TOption(TUint(k)), vs)
  {
    if vs != [] {
      OptionNatsFit(k, vs[1..]);
    }
  }

  lemma TargetSlotsFit(v: Val)
    requires HasType(TARGETS, v)
    ensures Fits(TARGETS, v) && Lossless(TARGETS, v)
  {
    TargetsFit(v.vs);
  }

  lemma {:induction false} TargetsFit(vs: seq<Val>)
    requires AllHaveType(TOption(TARGET), vs)
    ensures AllFit(TOption(TARGET), vs) && AllLossless(TOption(TARGET), vs)
  {
    if vs != [] {
      TargetsFit(vs[1..]);
      if vs[0].VSome? {
        TargetFits(vs[0].v);
      }
    }
  }

  lemma TargetFits(v: Val)
    requires HasType(TARGET, v)
    ensures Fits(TARGET, v) && Lossless(TARGET, v)
  {
    ThreeFields(0, TOption(TUint(2)), 1, TOption(TUint(1)), 2, TOption(TUint(2)), v.vs);
    var f2 := Field(2, TOption(TUint(2)), NoFields);
    assert v.vs[1..][1..] == v.vs[2..] && v.vs[2..][1..] == [];
    assert FieldsFit(f2, v.vs[2..]) && LosslessFields(f2, v.vs[2..]);
    assert FieldsFit(Field(1, TOption(TUint(1)), f2), v.vs[1..]) && LosslessFields(Field(1, TOption(TUint(1)), f2), v.vs[1..]);
  }

  lemma {:induction false} EntriesFit(s: Entries)
    requires forall i :: 0 <= i < |s| ==> s[i].Some? ==> Typed(s[i].value)
    ensures AllHaveType(TOption(ACL_ENTRY), OptionVals(s, EntryVal)) && AllFit(TOption(ACL_ENTRY), OptionVals(s, EntryVal))
    ensures (forall i :: 0 <= i < |s| ==> s[i].Some? ==> Unchanging(s[i].value)) ==>
              AllLossless(TOption(ACL_ENTRY), OptionVals(s, EntryVal))
  {
    hide EntryVal, ACL_ENTRY, Unchanging;
    if s != [] {
      EntriesFit(s[1..]);
      assert forall i :: 0 <= i < |s[1..]| ==> s[1..][i] == s[i + 1];
      assert OptionVals(s, EntryVal)[1..] == OptionVals(s[1..], EntryVal);
      if s[0].Some? {
        EntryFits(s[0].value);
        TypedIs(s[0].value);
      }
    }
  }

  lemma EntriesDecodable()
    ensures Decodable(ENTRIES)
  {
    assert Decodable(TARGET);
    assert Tags(TAIL_FIELDS) == {3, 4, 0xFE};
    assert DecodableFields(TAIL_FIELDS);
    assert DecodableFields(ENTRY_FIELDS);
  }

  /** Loading what was stored gives the entries that were there, in order and moved
      to the front, OPERATE turned into MANAGE. */
  lemma LoadAfterStore(entries: Entries)
    requires AllTyped(entries) && AllRestorable(entries)
    ensures Load(Stored(entries)) == Ok(Restarted(entries))
  {
    hide Trees, Written, ReadElement, Decode, Compact, OptionVals, Front, EncodeForest, Lossless, Fits, HasType, Decodable;
    var normals := MapSome(entries, Normal);
    forall i | 0 <= i < |entries| && entries[i].Some?
      ensures Typed(Normal(entries[i].value)) && Unchanging(Normal(entries[i].value))
    {
      NormalIsWrittenAlike(entries[i].value, Anonymous);
    }
    EntriesTyped(entries);
    SlotsFit(entries);
    SlotsFit(normals);
    SlotsWrittenAlike(entries);
    WrittenIsEncoding(ENTRIES, EntriesVal(entries), Anonymous);
    EntriesDecodable();
    CodecRoundTrip(ENTRIES, EntriesVal(normals), Anonymous, []);
    EntriesCompact(normals);
    MapTwice(entries);
    EntriesBack(Restarted(entries));
    assert Stored(entries) + [] == Stored(entries);
  }

  lemma MapTwice(entries: Entries)
    ensures MapSome(MapSome(entries, Normal), CompactEntry) == MapSome(entries, Restored)
  {
  }

  lemma SlotsFit(entries: Entries)
    requires AllTyped(entries)
    ensures HasType(ENTRIES, EntriesVal(entries)) && Fits(ENTRIES, EntriesVal(entries))
    ensures (forall i :: 0 <= i < |entries| ==> entries[i].Some? ==> Unchanging(entries[i].value)) ==>
              Lossless(ENTRIES, EntriesVal(entries))
  {
    hide OptionVals;
    EntriesFit(entries);
  }

  lemma SlotsWrittenAlike(entries: Entries)
    requires AllTyped(entries) && AllRestorable(entries) && AllTyped(MapSome(entries, Normal))
    ensures HasType(ENTRIES, EntriesVal(entries)) && HasType(ENTRIES, EntriesVal(MapSome(entries, Normal)))
    ensures Trees(ENTRIES, EntriesVal(entries), Anonymous) == Trees(ENTRIES, EntriesVal(MapSome(entries, Normal)), Anonymous)
  {
    hide OptionVals;
    NormalsAreWrittenAlike(entries);
  }

  // ---------------------------------------------------------------- entries that cannot be read again

  /** An entry without the VIEW bit, or with the invalid mode, is not decoded. */
  lemma BadEntryFails(e: AclEntry, el: Element)
    requires Typed(e) && !Restorable(e)
    requires ValidTree(Trees(ACL_ENTRY, EntryVal(e), Anonymous)[0]) && Denotes(el, Trees(ACL_ENTRY, EntryVal(e), Anonymous)[0])
    ensures Decode(ACL_ENTRY, el).Err?
  {
    hide Denotes, Children, ValidTree, DenoteAll, SUBJECTS, TARGETS, DecodeFields;
    var t := Trees(ACL_ENTRY, EntryVal(e), Anonymous)[0];
    ContainerBack(el, t);
    EntryParts(EntryVal(e));
    EntryChildren(e);
    var es := Children(Enter(el.val.body));
    FirstTwo(es, t.children);
    BadFieldsFail(e.privilege, e.authMode, es);
  }

  lemma BadFieldsFail(privilege: nat, authMode: nat, es: seq<Element>)
    requires privilege < 16 && (privilege % 2 == 0 || authMode == 4) && |es| >= 2
    requires es[0].tag == Context(1) && es[0].val == UInt(0, PrivilegeNumber(privilege))
    requires authMode == 4 ==> es[1].tag == Context(3)
    ensures DecodeFields(ENTRY_FIELDS, es).Err?
  {
    hide SUBJECTS, TARGETS, GetUnsigned, PrivilegeNumber;
    if privilege % 2 == 0 {
      EvenPrivilegeFails(es[0], privilege);
    } else {
      assert es[1..][0] == es[1];
      assert DecodeFields(Field(2, TAuthMode, TAIL_FIELDS), es[1..]).Err?;
    }
  }

  lemma EntryChildren(e: AclEntry)
    requires Typed(e)
    ensures var ts := Trees(ACL_ENTRY, EntryVal(e), Anonymous)[0].children;
            |ts| >= 2 && ts[0] == Leaf(Context(1), UInt(0, PrivilegeNumber(e.privilege)))
            && (e.authMode == 4 ==> ts[1].tag == Context(3))
  {
    EntryParts(EntryVal(e));
    var vs := EntryVal(e).vs;
    assert vs[1..][0] == vs[1] && vs[1..][1..] == vs[2..] && vs[2..][0] == vs[2];
    var ts := FieldTrees(ENTRY_FIELDS, vs);
    assert ts == Trees(TPrivilege, vs[0], Context(1)) + FieldTrees(Field(2, TAuthMode, TAIL_FIELDS), vs[1..]);
    assert FieldTrees(Field(2, TAuthMode, TAIL_FIELDS), vs[1..])
        == Trees(TAuthMode, vs[1], Context(2)) + FieldTrees(TAIL_FIELDS, vs[2..]);
    assert FieldTrees(TAIL_FIELDS, vs[2..])[0].tag == Context(3);
  }

  lemma FirstTwo(es: seq<Element>, ts: seq<Tree>)
    requires ValidForest(ts) && DenoteAll(es, ts) && |ts| >= 2
    ensures |es| == |ts| && ValidTree(ts[0]) && ValidTree(ts[1]) && Denotes(es[0], ts[0]) && Denotes(es[1], ts[1])
    ensures es[0].tag == ts[0].tag && es[1].tag == ts[1].tag
    ensures ts[0].Leaf? ==> es[0].val == ts[0].val
  {
    assert es[1..][0] == es[1] && ts[1..][0] == ts[1];
    assert DenoteAll(es[1..], ts[1..]);
  }

  lemma EvenPrivilegeFails(el: Element, p: nat)
    requires p < 16 && p % 2 == 0 && el.val == UInt(0, PrivilegeNumber(p))
    ensures Decode(TPrivilege, el).Err?
  {
    PrivilegeBack(p);
  }

  /** One entry that cannot be read is enough to fail the whole list. */
  lemma {:induction false} BadListFails(s: Entries, es: seq<Element>, i: nat)
    requires forall j :: 0 <= j < |s| ==> s[j].Some? ==> Typed(s[j].value)
    requires i < |s| && s[i].Some? && !Restorable(s[i].value)
    requires AllHaveType(TOption(ACL_ENTRY), OptionVals(s, EntryVal))
    requires var ts := ElementTrees(TOption(ACL_ENTRY), OptionVals(s, EntryVal)); ValidForest(ts) && DenoteAll(es, ts)
    ensures DecodeEach(TOption(ACL_ENTRY), es).Err?
  {
    hide EntryVal, ACL_ENTRY, Denotes, ValidTree, Decode, Restorable, Typed, HasType, AllHaveType, Trees, ElementTrees;
    var rest := s[1..];
    assert forall j :: 0 <= j < |rest| ==> rest[j] == s[j + 1];
    FirstElement(s);
    if s[0].None? {
      BadListFails(rest, es, i - 1);
    } else {
      FirstDenotes(es, s[0].value, ElementTrees(TOption(ACL_ENTRY), OptionVals(rest, EntryVal)));
      if i == 0 {
        BadEntryFails(s[0].value, es[0]);
        OptionFails(ACL_ENTRY, es[0]);
      } else {
        BadListFails(rest, es[1..], i - 1);
      }
    }
  }

  lemma FirstElement(s: Entries)
    requires s != [] && AllHaveType(TOption(ACL_ENTRY), OptionVals(s, EntryVal))
    ensures AllHaveType(TOption(ACL_ENTRY), OptionVals(s[1..], EntryVal))
    ensures s[0].Some? ==> HasType(ACL_ENTRY, EntryVal(s[0].value))
    ensures var there := ElementTrees(TOption(ACL_ENTRY), OptionVals(s[1..], EntryVal));
            ElementTrees(TOption(ACL_ENTRY), OptionVals(s, EntryVal))
            == if s[0].Some? then Trees(ACL_ENTRY, EntryVal(s[0].value), Anonymous) + there else there
  {
    hide EntryVal, ACL_ENTRY, AllHaveType, HasType, Trees, ElementTrees;
    var there := OptionVals(s[1..], EntryVal);
    assert OptionVals(s, EntryVal) == [OptionVal(s[0], EntryVal)] + there;
    OptionElement(ACL_ENTRY, OptionVal(s[0], EntryVal), there);
  }

  lemma OptionElement(ty: Ty, v: Val, vs: seq<Val>)
    requires AllHaveType(TOption(ty), [v] + vs)
    ensures AllHaveType(TOption(ty), vs) && (v.VNone? || (v.VSome? && HasType(ty, v.v)))
    ensures ElementTrees(TOption(ty), [v] + vs)
         == if v.VSome? then Trees(ty, v.v, Anonymous) + ElementTrees(TOption(ty), vs) else ElementTrees(TOption(ty), vs)
  {
    assert ([v] + vs)[1..] == vs;
    assert [] + ElementTrees(TOption(ty), vs) == ElementTrees(TOption(ty), vs);
  }

  lemma FirstDenotes(es: seq<Element>, e: AclEntry, rest: seq<Tree>)
    requires Typed(e)
    requires var ts := Trees(ACL_ENTRY, EntryVal(e), Anonymous) + rest; ValidForest(ts) && DenoteAll(es, ts)
    ensures es != [] && |Trees(ACL_ENTRY, EntryVal(e), Anonymous)| == 1
    ensures var t := Trees(ACL_ENTRY, EntryVal(e), Anonymous)[0]; ValidTree(t) && Denotes(es[0], t)
    ensures ValidForest(rest) && DenoteAll(es[1..], rest)
  {
    hide Denotes, ValidTree;
    OneEntryTree(e);
    var here := Trees(ACL_ENTRY, EntryVal(e), Anonymous);
    assert (here + rest)[0] == here[0] && (here + rest)[1..] == rest;
  }

  lemma OptionFails(ty: Ty, e: Element)
    requires Decode(ty, e).Err?
    ensures Decode(TOption(ty), e).Err?
  {
  }

  lemma OneEntryTree(e: AclEntry)
    requires Typed(e)
    ensures HasType(TOption(ACL_ENTRY), VSome(EntryVal(e)))
    ensures Trees(TOption(ACL_ENTRY), VSome(EntryVal(e)), Anonymous) == Trees(ACL_ENTRY, EntryVal(e), Anonymous)
    ensures |Trees(ACL_ENTRY, EntryVal(e), Anonymous)| == 1
  {
  }

  lemma {:induction false} FewTrees(s: Entries)
    requires AllHaveType(TOption(ACL_ENTRY), OptionVals(s, EntryVal))
    ensures |ElementTrees(TOption(ACL_ENTRY), OptionVals(s, EntryVal))| <= |s|
  {
    if s != [] {
      assert OptionVals(s, EntryVal)[1..] == OptionVals(s[1..], EntryVal);
      FewTrees(s[1..]);
    }
  }

  lemma {:induction false} SameLength(es: seq<Element>, ts: seq<Tree>)
    requires ValidForest(ts) && DenoteAll(es, ts)
    ensures |es| == |ts|
  {
    if ts != [] {
      SameLength(es[1..], ts[1..]);
    }
  }

  /** When one entry cannot be read again, loading fails, and the source starts
      with an empty list. */
  lemma LoadFails(entries: Entries)
    requires AllTyped(entries) && !AllRestorable(entries)
    ensures Load(Stored(entries)).Err?
  {
    hide Trees, Written, ReadElement, Decode, OptionVals, EncodeForest, Fits, HasType, Decodable, Restorable, Denotes, Typed;
    EntriesTyped(entries);
    SlotsFit(entries);
    WrittenIsEncoding(ENTRIES, EntriesVal(entries), Anonymous);
    TreesValid(ENTRIES, EntriesVal(entries), Anonymous);
    SlotsTree(entries);
    var ts := Trees(ENTRIES, EntriesVal(entries), Anonymous);
    assert ts == [ts[0]];
    EncodeOne(ts[0]);
    ReadFirst(ts[0], []);
    assert Encode(ts[0]) + [] == Encode(ts[0]);
    BadSlotsFail(entries, ReadElement(Stored(entries)).elem.value);
  }

  lemma SlotsTree(entries: Entries)
    requires AllTyped(entries)
    ensures HasType(ENTRIES, EntriesVal(entries)) && AllHaveType(TOption(ACL_ENTRY), OptionVals(entries, EntryVal))
    ensures Trees(ENTRIES, EntriesVal(entries), Anonymous)
         == [Node(Anonymous, Array, ElementTrees(TOption(ACL_ENTRY), OptionVals(entries, EntryVal)))]
  {
    hide OptionVals;
    EntriesTyped(entries);
  }

  lemma BadSlotsFail(entries: Entries, e: Element)
    requires AllTyped(entries) && !AllRestorable(entries) && HasType(ENTRIES, EntriesVal(entries))
    requires var t := Trees(ENTRIES, EntriesVal(entries), Anonymous); t != [] && ValidTree(t[0]) && Denotes(e, t[0])
    ensures Decode(ENTRIES, e).Err?
  {
    hide Trees, OptionVals, HasType, Restorable, Denotes, Typed, Children, DenoteAll, ElementTrees, DecodeEach;
    SlotsTree(entries);
    var ts := ElementTrees(TOption(ACL_ENTRY), OptionVals(entries, EntryVal));
    ContainerBack(e, Node(Anonymous, Array, ts));
    var es := Children(Enter(e.val.body));
    FewTrees(entries);
    SameLength(es, ts);
    var i :| 0 <= i < |entries| && entries[i].Some? && !Restorable(entries[i].value);
    BadListFails(entries, es, i);
  }

  // ---------------------------------------------------------------- views after a restart

  lemma {:induction false} ViewOfSomes(s: Entries, fab: Option<nat>)
    ensures View(s, fab) == ViewOf(Somes(s), fab)
  {
    if s != [] {
      ViewOfSomes(s[1..], fab);
      if s[0].Some? {
        assert Somes(s)[1..] == Somes(s[1..]);
      } else {
        assert Somes(s) == Somes(s[1..]);
      }
    }
  }

  /** The entries of a fabric among entries without gaps. */
  function ViewOf(es: seq<AclEntry>, fab: Option<nat>): seq<AclEntry> {
    if es == [] then [] else (if es[0].fabIdx == fab then [es[0]] else []) + ViewOf(es[1..], fab)
  }

  lemma {:induction false} SomesOfSlots<T>(xs: seq<T>, n: nat)
    requires |xs| <= n
    ensures Somes(Slots(xs, n)) == xs
    decreases n
  {
    if n > 0 {
      if xs == [] {
        assert Slots(xs, n)[1..] == Slots(xs, n - 1);
        SomesOfSlots(xs, n - 1);
      } else {
        assert Slots(xs, n)[1..] == Slots(xs[1..], n - 1);
        SomesOfSlots(xs[1..], n - 1);
      }
    }
  }

  function RestoredAll(es: seq<AclEntry>): (r: seq<AclEntry>)
    ensures |r| == |es| && forall i :: 0 <= i < |r| ==> r[i] == Restored(es[i])
  {
    if es == [] then [] else [Restored(es[0])] + RestoredAll(es[1..])
  }

  lemma {:induction false} RestoredViews(s: Entries, fab: Option<nat>)
    ensures View(MapSome(s, Restored), fab) == RestoredAll(View(s, fab))
  {
    if s != [] {
      RestoredViews(s[1..], fab);
      assert MapSome(s, Restored)[1..] == MapSome(s[1..], Restored);
      if OfFabric(s[0], fab) {
        assert View(s, fab)[1..] == View(s[1..], fab);
      }
    }
  }

  /** After a restart every fabric sees its own entries in the same order, so every
      index means the same entry. */
  lemma RestartKeepsViews(entries: Entries, fab: Option<nat>)
    ensures View(Restarted(entries), fab) == RestoredAll(View(entries, fab))
  {
    var s := MapSome(entries, Restored);
    ViewOfSomes(Front(s), fab);
    SomesOfSlots(Somes(s), |s|);
    ViewOfSomes(s, fab);
    RestoredViews(entries, fab);
  }

  /** The slots survive exactly when every stored entry can be read again. */
  lemma SurvivesIff(entries: Entries)
    requires AllTyped(entries)
    ensures Load(Stored(entries)).Ok? <==> AllRestorable(entries)
  {
    hide Load, Stored;
    if AllRestorable(entries) {
      LoadAfterStore(entries);
    } else {
      LoadFails(entries);
    }
  }
}

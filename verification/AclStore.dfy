/**
 The persisted form of the access control list: the schema of its entries, and what
 a restart makes of the slots.
 */
module AclStores {
  import opened Bytes
  import opened Tlv
  import opened TlvParser
  import opened Schema
  import opened Derive
  import opened DecodeTypes
  import DeriveCodec
  import opened Acls

  const TARGET: Ty := TStruct(Struct,
    Field(0, TOption(TUint(2)), Field(1, TOption(TUint(1)), Field(2, TOption(TUint(2)), NoFields))))

  const SUBJECTS: Ty := TSlots(SUBJECTS_PER_ENTRY, TOption(TUint(3)))
  const TARGETS: Ty := TSlots(TARGETS_PER_ENTRY, TOption(TARGET))

  const TAIL_FIELDS: Fields := Field(3, SUBJECTS, Field(4, TARGETS, Field(0xFE, TOption(TUint(0)), NoFields)))
  const ENTRY_FIELDS: Fields := Field(1, TPrivilege, Field(2, TAuthMode, TAIL_FIELDS))
  const ACL_ENTRY: Ty := TStruct(Struct, ENTRY_FIELDS)
  const ENTRIES: Ty := TSlots(MAX_ACL_ENTRIES, TOption(ACL_ENTRY))

  // ---------------------------------------------------------------- entries as values

  function OptionVals<T>(s: seq<Option<T>>, f: T -> Val): (vs: seq<Val>)
    ensures |vs| == |s|
    ensures forall i :: 0 <= i < |s| ==> vs[i] == OptionVal(s[i], f)
  {
    if s == [] then [] else [OptionVal(s[0], f)] + OptionVals(s[1..], f)
  }

  function NatVal(n: nat): Val {
    VUint(n)
  }

  function TargetVal(t: Target): Val {
    VSeq([OptionVal(t.cluster, NatVal), OptionVal(t.endpoint, NatVal), OptionVal(t.deviceType, NatVal)])
  }

  function EntryVal(e: AclEntry): Val {
    VSeq([VUint(e.privilege), VUint(e.authMode), VSeq(OptionVals(e.subjects, NatVal)),
          VSeq(OptionVals(e.targets, TargetVal)), OptionVal(e.fabIdx, NatVal)])
  }

  function EntriesVal(entries: Entries): Val {
    VSeq(OptionVals(entries, EntryVal))
  }

  // The other way round; the defaults are for values of other types.

  function NatOf(v: Val): nat {
    if v.VUint? then v.u else 0
  }

  function OptionOf<T>(v: Val, f: Val -> T): Option<T> {
    if v.VSome? then Some(f(v.v)) else None
  }

  function OptionsOf<T>(vs: seq<Val>, f: Val -> T): (s: seq<Option<T>>)
    ensures |s| == |vs| && forall i :: 0 <= i < |s| ==> s[i] == OptionOf(vs[i], f)
  {
    if vs == [] then [] else [OptionOf(vs[0], f)] + OptionsOf(vs[1..], f)
  }

  function Parts(v: Val): seq<Val> {
    if v.VSeq? then v.vs else []
  }

  function Part(v: Val, i: nat): Val {
    if i < |Parts(v)| then Parts(v)[i] else VNone
  }

  function TargetOf(v: Val): Target {
    Target(OptionOf(Part(v, 0), NatOf), OptionOf(Part(v, 1), NatOf), OptionOf(Part(v, 2), NatOf))
  }

  function EntryOf(v: Val): AclEntry {
    AclEntry(NatOf(Part(v, 0)), NatOf(Part(v, 1)), OptionsOf(Parts(Part(v, 2)), NatOf),
             OptionsOf(Parts(Part(v, 3)), TargetOf), OptionOf(Part(v, 4), NatOf))
  }

  function EntriesOf(v: Val): Entries {
    OptionsOf(Parts(v), EntryOf)
  }

  lemma TargetBack(t: Target)
    ensures TargetOf(TargetVal(t)) == t
  {
  }

  lemma OptionsBack<T>(s: seq<Option<T>>, f: T -> Val, g: Val -> T)
    requires forall i :: 0 <= i < |s| ==> s[i].Some? ==> g(f(s[i].value)) == s[i].value
    ensures OptionsOf(OptionVals(s, f), g) == s
  {
    hide OptionsOf, OptionVals;
    var r := OptionsOf(OptionVals(s, f), g);
    forall i | 0 <= i < |s|
      ensures r[i] == s[i]
    {
    }
  }

  lemma EntryBack(e: AclEntry)
    ensures EntryOf(EntryVal(e)) == e
  {
    hide OptionVals, OptionsOf;
    OptionsBack(e.subjects, NatVal, NatOf);
    forall i | 0 <= i < |e.targets| && e.targets[i].Some?
      ensures TargetOf(TargetVal(e.targets[i].value)) == e.targets[i].value
    {
      TargetBack(e.targets[i].value);
    }
    OptionsBack(e.targets, TargetVal, TargetOf);
  }

  lemma EntriesBack(entries: Entries)
    ensures EntriesOf(EntriesVal(entries)) == entries
  {
    hide OptionVals, OptionsOf, EntryOf, EntryVal;
    forall i | 0 <= i < |entries| && entries[i].Some?
      ensures EntryOf(EntryVal(entries[i].value)) == entries[i].value
    {
      EntryBack(entries[i].value);
    }
    OptionsBack(entries, EntryVal, EntryOf);
  }

  /** The numbers are within the widths of the source's fields. */
  predicate Typed(e: AclEntry) {
    HasType(ACL_ENTRY, EntryVal(e))
  }

  predicate AllTyped(entries: Entries) {
    |entries| == MAX_ACL_ENTRIES && forall i :: 0 <= i < |entries| ==> entries[i].Some? ==> Typed(entries[i].value)
  }

  // ---------------------------------------------------------------- values of the schema's types

  lemma {:induction false} OptionsTyped<T>(ty: Ty, s: seq<Option<T>>, f: T -> Val)
    requires forall i :: 0 <= i < |s| ==> s[i].Some? ==> HasType(ty, f(s[i].value))
    ensures AllHaveType(TOption(ty), OptionVals(s, f))
  {
    if s != [] {
      OptionsTyped(ty, s[1..], f);
      assert OptionVals(s, f)[1..] == OptionVals(s[1..], f);
    }
  }

  lemma EntriesTyped(entries: Entries)
    requires AllTyped(entries)
    ensures HasType(ENTRIES, EntriesVal(entries))
  {
    OptionsTyped(ACL_ENTRY, entries, EntryVal);
  }

  lemma {:induction false} TypedOptions(ty: Ty, vs: seq<Val>, i: nat)
    requires AllHaveType(TOption(ty), vs) && i < |vs|
    ensures vs[i].VNone? || (vs[i].VSome? && HasType(ty, vs[i].v))
  {
    if i > 0 {
      TypedOptions(ty, vs[1..], i - 1);
    }
  }

  lemma OptionNatsBack(k: nat, vs: seq<Val>)
    requires AllHaveType(TOption(TUint(k)), vs)
    ensures OptionVals(OptionsOf(vs, NatOf), NatVal) == vs
  {
    forall i | 0 <= i < |vs|
      ensures OptionVal(OptionOf(vs[i], NatOf), NatVal) == vs[i]
    {
      TypedOptions(TUint(k), vs, i);
    }
  }

  lemma ThreeFields(a: nat, x: Ty, b: nat, y: Ty, c: nat, z: Ty, vs: seq<Val>)
    requires HasFields(Field(a, x, Field(b, y, Field(c, z, NoFields))), vs)
    ensures |vs| == 3 && HasType(x, vs[0]) && HasType(y, vs[1]) && HasType(z, vs[2])
  {
    assert HasFields(Field(b, y, Field(c, z, NoFields)), vs[1..]);
    assert HasFields(Field(c, z, NoFields), vs[1..][1..]);
    assert HasFields(NoFields, vs[1..][1..][1..]);
  }

  lemma TargetValBack(v: Val)
    requires HasType(TARGET, v)
    ensures TargetVal(TargetOf(v)) == v
  {
    ThreeFields(0, TOption(TUint(2)), 1, TOption(TUint(1)), 2, TOption(TUint(2)), v.vs);
    assert TargetVal(TargetOf(v)).vs == v.vs;
  }

  lemma TargetsBack(vs: seq<Val>)
    requires AllHaveType(TOption(TARGET), vs)
    ensures OptionVals(OptionsOf(vs, TargetOf), TargetVal) == vs
  {
    forall i | 0 <= i < |vs|
      ensures OptionVal(OptionOf(vs[i], TargetOf), TargetVal) == vs[i]
    {
      TypedOptions(TARGET, vs, i);
      if vs[i].VSome? {
        TargetValBack(vs[i].v);
      }
    }
  }

  lemma EntryParts(v: Val)
    requires HasType(ACL_ENTRY, v)
    ensures v.VSeq? && |v.vs| == 5
    ensures HasType(TPrivilege, v.vs[0]) && HasType(TAuthMode, v.vs[1])
    ensures HasType(SUBJECTS, v.vs[2]) && HasType(TARGETS, v.vs[3]) && HasType(TOption(TUint(0)), v.vs[4])
  {
    var vs := v.vs;
    assert HasFields(Field(2, TAuthMode, TAIL_FIELDS), vs[1..]);
    assert vs[1..][1..] == vs[2..] && vs[1..][0] == vs[1];
    ThreeFields(3, SUBJECTS, 4, TARGETS, 0xFE, TOption(TUint(0)), vs[2..]);
    assert vs[2..][0] == vs[2] && vs[2..][1] == vs[3] && vs[2..][2] == vs[4];
  }

  /** A value of the entry's type is the value of exactly one entry. */
  lemma EntryValBack(v: Val)
    requires HasType(ACL_ENTRY, v)
    ensures EntryVal(EntryOf(v)) == v && Typed(EntryOf(v))
  {
    hide HasType, OptionVals, OptionsOf, OptionVal, OptionOf, NatOf;
    EntryParts(v);
    var vs := v.vs;
    NatsBack(vs[0], vs[1], vs[4]);
    SlotsBack(vs[2], vs[3]);
    var e := EntryOf(v);
    assert EntryVal(e).vs == [vs[0], vs[1], vs[2], vs[3], vs[4]];
    assert vs == [vs[0], vs[1], vs[2], vs[3], vs[4]];
  }

  lemma NatsBack(privilege: Val, authMode: Val, fabIdx: Val)
    requires HasType(TPrivilege, privilege) && HasType(TAuthMode, authMode) && HasType(TOption(TUint(0)), fabIdx)
    ensures VUint(NatOf(privilege)) == privilege && VUint(NatOf(authMode)) == authMode
    ensures OptionVal(OptionOf(fabIdx, NatOf), NatVal) == fabIdx
  {
  }

  lemma SlotsBack(subjects: Val, targets: Val)
    requires HasType(SUBJECTS, subjects) && HasType(TARGETS, targets)
    ensures subjects.VSeq? && OptionVals(OptionsOf(subjects.vs, NatOf), NatVal) == subjects.vs
    ensures targets.VSeq? && OptionVals(OptionsOf(targets.vs, TargetOf), TargetVal) == targets.vs
  {
    OptionNatsBack(3, subjects.vs);
    TargetsBack(targets.vs);
  }

  lemma MakeEntryTyped(v0: Val, v1: Val, v2: Val, v3: Val, v4: Val)
    requires HasType(TPrivilege, v0) && HasType(TAuthMode, v1)
    requires HasType(SUBJECTS, v2) && HasType(TARGETS, v3) && HasType(TOption(TUint(0)), v4)
    ensures HasType(ACL_ENTRY, VSeq([v0, v1, v2, v3, v4]))
  {
    var vs := [v0, v1, v2, v3, v4];
    assert vs[1..] == [v1, v2, v3, v4] && vs[1..][1..] == [v2, v3, v4] && vs[1..][1..][1..] == [v3, v4];
    assert [v3, v4][1..] == [v4] && [v4][1..] == [];
    assert HasFields(Field(0xFE, TOption(TUint(0)), NoFields), [v4]);
    assert HasFields(TAIL_FIELDS, [v2, v3, v4]);
    assert HasFields(Field(2, TAuthMode, TAIL_FIELDS), [v1, v2, v3, v4]);
  }

  /** Another fabric index or privilege leaves an entry typed. */
  lemma StillTyped(e: AclEntry, fab: nat, privilege: nat)
    requires Typed(e) && fab < 256 && privilege < 16
    ensures Typed(e.(fabIdx := Some(fab))) && Typed(e.(privilege := privilege))
  {
    hide HasType;
    var vs := EntryVal(e).vs;
    EntryParts(EntryVal(e));
    SmallTyped(fab, privilege);
    MakeEntryTyped(vs[0], vs[1], vs[2], vs[3], VSome(VUint(fab)));
    MakeEntryTyped(VUint(privilege), vs[1], vs[2], vs[3], vs[4]);
  }

  lemma SmallTyped(fab: nat, privilege: nat)
    requires fab < 256 && privilege < 16
    ensures HasType(TOption(TUint(0)), VSome(VUint(fab))) && HasType(TPrivilege, VUint(privilege))
  {
    Pow256Values();
  }
}

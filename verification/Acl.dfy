/**
 The access control list: nine slots shared by all fabrics, the view each fabric has
 of its own entries, and the decisions that follow from them.
 */
module Acls {
  import opened Bytes

  datatype Target = Target(cluster: Option<nat>, endpoint: Option<nat>, deviceType: Option<nat>)

  /** The privilege is given by its four bits and the authentication mode by its
      number: 1 PASE, 2 CASE, 3 group, 4 invalid. */
  datatype AclEntry = AclEntry(
    privilege: nat,
    authMode: nat,
    subjects: seq<Option<nat>>,
    targets: seq<Option<Target>>,
    fabIdx: Option<nat>)

  type Entries = seq<Option<AclEntry>>

  const SUBJECTS_PER_ENTRY := 4
  const TARGETS_PER_ENTRY := 3
  const ENTRIES_PER_FABRIC := 3
  const MAX_ACL_ENTRIES := 9
  const PASE := 1

  // ---------------------------------------------------------------- decisions

  datatype Accessor = Accessor(fabIdx: nat, id: nat, authMode: nat)

  datatype AccessDesc = AccessDesc(endpoint: Option<nat>, cluster: Option<nat>, perms: Option<bv16>, operation: bv16)

  const READ: bv16 := 0x0010
  const WRITE: bv16 := 0x0020

  /** `Access::is_ok`: some privilege the operation asks for is held, and the object
      allows the operation at all. */
  predicate AccessOk(perms: bv16, operation: bv16, privilege: nat) {
    var required := if operation & READ == READ then perms & 0x000f
                    else if operation & WRITE == WRITE then perms & 0x000e
                    else 0;
    required != 0 && privilege < 16 && (privilege as bv16) & required != 0 && perms & operation == operation
  }

  /** Reading needs one of the privilege bits the object asks for, writing one of them
      other than VIEW, and the object must allow the operation. */
  lemma AccessOkMeans(perms: bv16, p: nat)
    requires p < 16
    ensures AccessOk(perms, READ, p)
       <==> perms & READ != 0 && (Both(perms, p, 1) || Both(perms, p, 2) || Both(perms, p, 4) || Both(perms, p, 8))
    ensures AccessOk(perms, WRITE, p)
       <==> perms & WRITE != 0 && (Both(perms, p, 2) || Both(perms, p, 4) || Both(perms, p, 8))
  {
    var q := p as bv16;
    AccessBits(perms, q);
  }

  predicate Both(perms: bv16, p: nat, bit: bv16)
    requires p < 16
  {
    perms & bit != 0 && (p as bv16) & bit != 0
  }

  lemma AccessBits(perms: bv16, q: bv16)
    ensures q & (perms & 0x000f) != 0
       <==> (perms & 1 != 0 && q & 1 != 0) || (perms & 2 != 0 && q & 2 != 0) || (perms & 4 != 0 && q & 4 != 0)
            || (perms & 8 != 0 && q & 8 != 0)
    ensures q & (perms & 0x000e) != 0
       <==> (perms & 2 != 0 && q & 2 != 0) || (perms & 4 != 0 && q & 4 != 0) || (perms & 8 != 0 && q & 8 != 0)
    ensures perms & READ == READ <==> perms & READ != 0
    ensures perms & WRITE == WRITE <==> perms & WRITE != 0
  {
  }

  /** MANAGE grants whatever OPERATE does. */
  lemma ManageCoversOperate(perms: bv16, operation: bv16)
    ensures AccessOk(perms, operation, 3) ==> AccessOk(perms, operation, 7)
  {
    assert 3 as bv16 == 3 && 7 as bv16 == 7;
  }

  predicate Names(subjects: seq<Option<nat>>, id: nat) {
    (forall i :: 0 <= i < |subjects| ==> subjects[i].None?) || exists i :: 0 <= i < |subjects| && subjects[i] == Some(id)
  }

  predicate MatchAccessor(e: AclEntry, a: Accessor) {
    e.authMode == a.authMode && Names(e.subjects, a.id) && e.fabIdx == Some(a.fabIdx)
  }

  predicate Aims(t: Option<Target>, desc: AccessDesc) {
    t.Some? && (t.value.endpoint.None? || t.value.endpoint == desc.endpoint)
    && (t.value.cluster.None? || t.value.cluster == desc.cluster)
  }

  predicate Covers(targets: seq<Option<Target>>, desc: AccessDesc) {
    (forall i :: 0 <= i < |targets| ==> targets[i].None?) || exists i :: 0 <= i < |targets| && Aims(targets[i], desc)
  }

  predicate MatchAccessDesc(e: AclEntry, desc: AccessDesc) {
    Covers(e.targets, desc) && desc.perms.Some? && AccessOk(desc.perms.value, desc.operation, e.privilege)
  }

  predicate EntryAllows(e: AclEntry, a: Accessor, desc: AccessDesc) {
    MatchAccessor(e, a) && MatchAccessDesc(e, desc)
  }

  /** Accessors over PASE are always granted access. */
  predicate Allow(entries: Entries, a: Accessor, desc: AccessDesc) {
    a.authMode == PASE || exists i :: 0 <= i < |entries| && entries[i].Some? && EntryAllows(entries[i].value, a, desc)
  }

  // ---------------------------------------------------------------- views

  predicate OfFabric(slot: Option<AclEntry>, fab: Option<nat>) {
    slot.Some? && slot.value.fabIdx == fab
  }

  /** The entries of one fabric, in slot order. */
  function View(entries: Entries, fab: Option<nat>): (v: seq<AclEntry>)
    ensures forall e :: e in v ==> e.fabIdx == fab
  {
    if entries == [] then []
    else (if OfFabric(entries[0], fab) then [entries[0].value] else []) + View(entries[1..], fab)
  }

  lemma {:induction false} ViewConcat(a: Entries, b: Entries, fab: Option<nat>)
    ensures View(a + b, fab) == View(a, fab) + View(b, fab)
  {
    if a == [] {
      assert a + b == b && [] + View(b, fab) == View(b, fab);
    } else {
      var rest := a[1..];
      assert (a + b)[1..] == rest + b && (a + b)[0] == a[0];
      ViewConcat(rest, b, fab);
      var head := if OfFabric(a[0], fab) then [a[0].value] else [];
      assert head + (View(rest, fab) + View(b, fab)) == head + View(rest, fab) + View(b, fab);
    }
  }

  /** The view around one slot. */
  lemma ViewAt(entries: Entries, k: nat, x: Option<AclEntry>, fab: Option<nat>)
    requires k < |entries|
    ensures View(entries[k := x], fab)
         == View(entries[..k], fab) + (if OfFabric(x, fab) then [x.value] else []) + View(entries[k + 1..], fab)
  {
    assert entries[k := x] == entries[..k] + ([x] + entries[k + 1..]);
    ViewConcat(entries[..k], [x] + entries[k + 1..], fab);
    assert ([x] + entries[k + 1..])[1..] == entries[k + 1..];
  }

  lemma {:induction false} InView(entries: Entries, fab: Option<nat>, e: AclEntry)
    ensures e in View(entries, fab) <==> exists i :: 0 <= i < |entries| && entries[i] == Some(e) && e.fabIdx == fab
  {
    if entries != [] {
      InView(entries[1..], fab, e);
      assert forall i :: 1 <= i < |entries| ==> entries[i] == entries[1..][i - 1];
      if e in View(entries[1..], fab) {
        var i :| 0 <= i < |entries[1..]| && entries[1..][i] == Some(e) && e.fabIdx == fab;
        assert entries[i + 1] == Some(e);
      }
    }
  }

  /** A decision depends only on the view of the accessor's own fabric. */
  lemma DecidedByView(entries: Entries, a: Accessor, desc: AccessDesc)
    ensures Allow(entries, a, desc)
       <==> a.authMode == PASE || exists e :: e in View(entries, Some(a.fabIdx)) && EntryAllows(e, a, desc)
  {
    hide MatchAccessDesc;
    if exists i :: 0 <= i < |entries| && entries[i].Some? && EntryAllows(entries[i].value, a, desc) {
      var i :| 0 <= i < |entries| && entries[i].Some? && EntryAllows(entries[i].value, a, desc);
      InView(entries, Some(a.fabIdx), entries[i].value);
    }
    if exists e :: e in View(entries, Some(a.fabIdx)) && EntryAllows(e, a, desc) {
      var e :| e in View(entries, Some(a.fabIdx)) && EntryAllows(e, a, desc);
      InView(entries, Some(a.fabIdx), e);
    }
  }

  // ---------------------------------------------------------------- decisions by the fields of the entries

  ghost predicate ForSubject(e: AclEntry, id: nat) {
    (forall i :: 0 <= i < |e.subjects| ==> e.subjects[i] == None) || Some(id) in e.subjects
  }

  /** The endpoint and the cluster the target names, if it names them, are the object's. */
  predicate NamesObject(t: Target, endpoint: Option<nat>, cluster: Option<nat>) {
    (t.endpoint != None ==> t.endpoint == endpoint) && (t.cluster != None ==> t.cluster == cluster)
  }

  ghost predicate ForObject(e: AclEntry, endpoint: Option<nat>, cluster: Option<nat>) {
    (forall i :: 0 <= i < |e.targets| ==> e.targets[i] == None)
    || exists t :: Some(t) in e.targets && NamesObject(t, endpoint, cluster)
  }

  /** The object can be read, or written, and asks for a privilege bit that is held.
      Writing is never granted by VIEW. */
  predicate HoldsBit(perms: bv16, operation: bv16, p: nat) {
    p < 16 && perms & operation != 0
    && ((operation == 0x0010 && Both(perms, p, 1)) || Both(perms, p, 2) || Both(perms, p, 4) || Both(perms, p, 8))
  }

  ghost predicate GrantsByFields(e: AclEntry, a: Accessor, desc: AccessDesc) {
    e.fabIdx == Some(a.fabIdx) && e.authMode == a.authMode && ForSubject(e, a.id)
    && ForObject(e, desc.endpoint, desc.cluster) && desc.perms != None && HoldsBit(desc.perms.value, desc.operation, e.privilege)
  }

  /** An accessor is allowed to read or write exactly if it came over PASE, or some entry
      of its fabric has its authentication mode, lists no subject or the accessor, lists
      no target or one that names nothing but the object's endpoint and cluster, and
      holds a privilege bit that is asked for. */
  lemma AllowIff(entries: Entries, a: Accessor, desc: AccessDesc)
    requires desc.operation == 0x0010 || desc.operation == 0x0020
    ensures Allow(entries, a, desc)
       <==> a.authMode == 1 || exists e :: Some(e) in entries && GrantsByFields(e, a, desc)
  {
    hide EntryAllows, GrantsByFields;
    forall e: AclEntry
      ensures EntryAllows(e, a, desc) == GrantsByFields(e, a, desc)
    {
      EntryByFields(e, a, desc);
    }
    if i :| 0 <= i < |entries| && entries[i].Some? && EntryAllows(entries[i].value, a, desc) {
      assert entries[i] in entries;
    }
    if e :| Some(e) in entries && GrantsByFields(e, a, desc) {
      var i :| 0 <= i < |entries| && entries[i] == Some(e);
    }
  }

  lemma EntryByFields(e: AclEntry, a: Accessor, desc: AccessDesc)
    requires desc.operation == 0x0010 || desc.operation == 0x0020
    ensures EntryAllows(e, a, desc) == GrantsByFields(e, a, desc)
  {
    hide AccessOk, HoldsBit, Names, Covers, ForSubject, ForObject;
    SubjectsByFields(e, a.id);
    TargetsByFields(e, desc);
    if desc.perms.Some? {
      BitsByFields(desc.perms.value, desc.operation, e.privilege);
    }
  }

  lemma SubjectsByFields(e: AclEntry, id: nat)
    ensures Names(e.subjects, id) == ForSubject(e, id)
  {
  }

  lemma TargetsByFields(e: AclEntry, desc: AccessDesc)
    ensures Covers(e.targets, desc) == ForObject(e, desc.endpoint, desc.cluster)
  {
    var ts := e.targets;
    if i :| 0 <= i < |ts| && Aims(ts[i], desc) {
      assert ts[i] in ts && NamesObject(ts[i].value, desc.endpoint, desc.cluster);
    }
    if t :| Some(t) in ts && NamesObject(t, desc.endpoint, desc.cluster) {
      var i :| 0 <= i < |ts| && ts[i] == Some(t);
      assert Aims(ts[i], desc);
    }
  }

  lemma BitsByFields(perms: bv16, operation: bv16, p: nat)
    requires operation == 0x0010 || operation == 0x0020
    ensures AccessOk(perms, operation, p) == HoldsBit(perms, operation, p)
  {
    if p < 16 {
      AccessOkMeans(perms, p);
    }
  }

  /** Nothing is allowed on an object whose permissions are not known. */
  lemma NoPermissionsRefused(entries: Entries, a: Accessor, desc: AccessDesc)
    requires desc.perms.None?
    ensures Allow(entries, a, desc) <==> a.authMode == PASE
  {
  }

  /** An accessor none of whose entries lists it is refused. */
  lemma OtherSubjectsRefused(entries: Entries, a: Accessor, desc: AccessDesc)
    requires a.authMode != PASE && (desc.operation == READ || desc.operation == WRITE)
    requires forall e :: Some(e) in entries && e.fabIdx == Some(a.fabIdx) ==>
               (exists id :: Some(id) in e.subjects) && Some(a.id) !in e.subjects
    ensures !Allow(entries, a, desc)
  {
    AllowIff(entries, a, desc);
  }

  /** So is one all of whose entries list targets of other clusters only. */
  lemma OtherClustersRefused(entries: Entries, a: Accessor, desc: AccessDesc)
    requires a.authMode != PASE && (desc.operation == READ || desc.operation == WRITE)
    requires forall e :: Some(e) in entries && e.fabIdx == Some(a.fabIdx) ==>
               (exists t :: Some(t) in e.targets) && forall t :: Some(t) in e.targets ==> t.cluster.Some? && t.cluster != desc.cluster
    ensures !Allow(entries, a, desc)
  {
    AllowIff(entries, a, desc);
  }

  /** And one all of whose entries list targets on other endpoints only. */
  lemma OtherEndpointsRefused(entries: Entries, a: Accessor, desc: AccessDesc)
    requires a.authMode != PASE && (desc.operation == READ || desc.operation == WRITE)
    requires forall e :: Some(e) in entries && e.fabIdx == Some(a.fabIdx) ==>
               (exists t :: Some(t) in e.targets) && forall t :: Some(t) in e.targets ==> t.endpoint.Some? && t.endpoint != desc.endpoint
    ensures !Allow(entries, a, desc)
  {
    AllowIff(entries, a, desc);
  }

  // ---------------------------------------------------------------- the operations in memory

  datatype Changed = Changed(entries: Entries, r: Outcome)

  /** A fabric has three entries at most; the new one goes into the first free slot. */
  function Add(entries: Entries, e: AclEntry): Changed {
    if |View(entries, e.fabIdx)| >= ENTRIES_PER_FABRIC then Changed(entries, Fail(NoSpace))
    else
      match Position(entries, (x: Option<AclEntry>) => x.None?)
      case None => Changed(entries, Fail(NoSpace))
      case Some(k) => Changed(entries[k := Some(e)], Pass)
  }

  /** `for_index_in_fabric`: the slot of the entry with this index in the view. */
  function SlotOf(entries: Entries, fab: Option<nat>, index: nat): (k: Option<nat>)
    ensures k.Some? ==> k.value < |entries| && OfFabric(entries[k.value], fab)
  {
    if entries == [] then None
    else if OfFabric(entries[0], fab) && index == 0 then Some(0)
    else
      match SlotOf(entries[1..], fab, if OfFabric(entries[0], fab) then index - 1 else index)
      case None => None
      case Some(k) => Some(k + 1)
  }

  function Edit(entries: Entries, index: nat, fab: Option<nat>, entry: AclEntry): Changed {
    match SlotOf(entries, fab, index)
    case None => Changed(entries, Fail(NotFound))
    case Some(k) => Changed(entries[k := Some(entry)], Pass)
  }

  function Delete(entries: Entries, index: nat, fab: Option<nat>): Changed {
    match SlotOf(entries, fab, index)
    case None => Changed(entries, Fail(NotFound))
    case Some(k) => Changed(entries[k := None], Pass)
  }

  function DeleteForFabric(entries: Entries, fab: Option<nat>): (r: Entries)
    ensures |r| == |entries|
    ensures forall k :: 0 <= k < |r| ==> r[k] == if OfFabric(entries[k], fab) then None else entries[k]
  {
    seq(|entries|, k requires 0 <= k < |entries| => if OfFabric(entries[k], fab) then None else entries[k])
  }

  // ---------------------------------------------------------------- indexes are positions in the view

  /** The slot of an index holds the entry at that position of the view. */
  lemma {:induction false} SlotOfPosition(entries: Entries, fab: Option<nat>, index: nat)
    ensures SlotOf(entries, fab, index).Some? <==> index < |View(entries, fab)|
    ensures SlotOf(entries, fab, index).Some? ==>
              var k := SlotOf(entries, fab, index).value;
              entries[k] == Some(View(entries, fab)[index]) && |View(entries[..k], fab)| == index
  {
    if entries == [] {
    } else if OfFabric(entries[0], fab) && index == 0 {
    } else {
      var rest := entries[1..];
      var i := if OfFabric(entries[0], fab) then index - 1 else index;
      SlotOfPosition(rest, fab, i);
      if SlotOf(rest, fab, i).Some? {
        var k := SlotOf(rest, fab, i).value;
        assert entries[..k + 1][1..] == rest[..k] && entries[..k + 1][0] == entries[0];
      }
    }
  }

  /** Replacing the entry at an index replaces that position of the view and changes
      no other view; it fails exactly for an index outside the view. */
  lemma EditActsOnView(entries: Entries, index: nat, fab: Option<nat>, e: AclEntry, other: Option<nat>)
    requires e.fabIdx == fab && other != fab
    ensures var c := Edit(entries, index, fab, e); var v := View(entries, fab);
            c.r == (if index < |v| then Pass else Fail(NotFound))
            && View(c.entries, fab) == (if index < |v| then v[index := e] else v)
            && View(c.entries, other) == View(entries, other)
  {
    hide View, SlotOf;
    SlotOfPosition(entries, fab, index);
    if SlotOf(entries, fab, index).Some? {
      var k := SlotOf(entries, fab, index).value;
      ViewAt(entries, k, Some(e), fab);
      ViewAt(entries, k, Some(e), other);
      ViewAt(entries, k, entries[k], fab);
      ViewAt(entries, k, entries[k], other);
      assert entries[k := entries[k]] == entries;
    }
  }

  /** Deleting an index takes that position out of the view. */
  lemma DeleteActsOnView(entries: Entries, index: nat, fab: Option<nat>, other: Option<nat>)
    requires other != fab
    ensures var c := Delete(entries, index, fab); var v := View(entries, fab);
            c.r == (if index < |v| then Pass else Fail(NotFound))
            && View(c.entries, fab) == (if index < |v| then v[..index] + v[index + 1..] else v)
            && View(c.entries, other) == View(entries, other)
  {
    hide View, SlotOf;
    SlotOfPosition(entries, fab, index);
    if SlotOf(entries, fab, index).Some? {
      var k := SlotOf(entries, fab, index).value;
      ViewAt(entries, k, None, fab);
      ViewAt(entries, k, None, other);
      ViewAt(entries, k, entries[k], fab);
      ViewAt(entries, k, entries[k], other);
      assert entries[k := entries[k]] == entries;
      var v := View(entries, fab);
      assert v[..index] == View(entries[..k], fab) && v[index + 1..] == View(entries[k + 1..], fab);
    }
  }

  lemma {:induction false} DeleteForFabricClears(entries: Entries, fab: Option<nat>, other: Option<nat>)
    requires other != fab
    ensures View(DeleteForFabric(entries, fab), fab) == []
    ensures View(DeleteForFabric(entries, fab), other) == View(entries, other)
  {
    if entries != [] {
      DeleteForFabricClears(entries[1..], fab, other);
      assert DeleteForFabric(entries, fab)[1..] == DeleteForFabric(entries[1..], fab);
    }
  }

  /** No free slot lies in front of an entry of the fabric. */
  predicate FreeBehind(entries: Entries, fab: Option<nat>) {
    forall i, j :: 0 <= i < j < |entries| && OfFabric(entries[j], fab) ==> entries[i].Some?
  }

  /** Adding puts one entry into the view, and at its end when the free slots lie
      behind the fabric's entries; it changes no other view. */
  lemma AddActsOnView(entries: Entries, e: AclEntry, other: Option<nat>)
    requires other != e.fabIdx
    ensures var c := Add(entries, e); var v := View(entries, e.fabIdx);
            (c.r.Fail? ==> c.entries == entries && c.r == Fail(NoSpace))
            && (c.r.Pass? ==>
                |View(c.entries, e.fabIdx)| == |v| + 1 <= ENTRIES_PER_FABRIC
                && e in View(c.entries, e.fabIdx) && (forall x :: x in v ==> x in View(c.entries, e.fabIdx))
                && (FreeBehind(entries, e.fabIdx) ==> View(c.entries, e.fabIdx) == v + [e] && FreeBehind(c.entries, e.fabIdx)))
            && View(c.entries, other) == View(entries, other)
  {
    hide View, FreeBehind;
    if Add(entries, e).r.Pass? {
      var k := Position(entries, (x: Option<AclEntry>) => x.None?).value;
      FillActsOnView(entries, k, e, other);
      if FreeBehind(entries, e.fabIdx) {
        FillAtEnd(entries, k, e);
      }
    }
  }

  lemma FillActsOnView(entries: Entries, k: nat, e: AclEntry, other: Option<nat>)
    requires k < |entries| && entries[k].None? && other != e.fabIdx
    ensures var (a, b) := (View(entries[..k], e.fabIdx), View(entries[k + 1..], e.fabIdx));
            View(entries, e.fabIdx) == a + b && View(entries[k := Some(e)], e.fabIdx) == a + [e] + b
    ensures View(entries[k := Some(e)], other) == View(entries, other)
  {
    hide View;
    ViewAt(entries, k, Some(e), e.fabIdx);
    ViewAt(entries, k, Some(e), other);
    ViewAt(entries, k, None, e.fabIdx);
    ViewAt(entries, k, None, other);
    assert entries[k := None] == entries;
    assert forall v: seq<AclEntry> {:trigger v + []} :: v + [] == v;
  }

  lemma FillAtEnd(entries: Entries, k: nat, e: AclEntry)
    requires k < |entries| && entries[k].None? && FreeBehind(entries, e.fabIdx)
    requires forall i :: 0 <= i < k ==> entries[i].Some?
    ensures View(entries[k + 1..], e.fabIdx) == [] && FreeBehind(entries[k := Some(e)], e.fabIdx)
  {
    NoneOfFabric(entries[k + 1..], e.fabIdx);
  }

  lemma {:induction false} NoneOfFabric(entries: Entries, fab: Option<nat>)
    requires forall i :: 0 <= i < |entries| ==> !OfFabric(entries[i], fab)
    ensures View(entries, fab) == []
  {
    if entries != [] {
      NoneOfFabric(entries[1..], fab);
    }
  }

  // ---------------------------------------------------------------- the loops of the source

  method MatchesAccessor(e: AclEntry, a: Accessor) returns (b: bool)
    ensures b == MatchAccessor(e, a)
  {
    if e.authMode != a.authMode {
      return false;
    }
    var allow, entriesExist := false, false;
    for i := 0 to |e.subjects|
      invariant entriesExist <==> exists j :: 0 <= j < i && e.subjects[j].Some?
      invariant allow <==> exists j :: 0 <= j < i && e.subjects[j] == Some(a.id)
    {
      if e.subjects[i].Some? {
        entriesExist := true;
        if a.id == e.subjects[i].value {
          allow := true;
        }
      }
    }
    if !entriesExist {
      allow := true;
    }
    return allow && e.fabIdx == Some(a.fabIdx);
  }

  method MatchesAccessDesc(e: AclEntry, desc: AccessDesc) returns (b: bool)
    ensures b == MatchAccessDesc(e, desc)
  {
    hide AccessOk;
    var allow, entriesExist := false, false;
    for i := 0 to |e.targets|
      invariant entriesExist <==> exists j :: 0 <= j < i && e.targets[j].Some?
      invariant allow <==> exists j :: 0 <= j < i && Aims(e.targets[j], desc)
    {
      if e.targets[i].Some? {
        entriesExist := true;
        if Aims(e.targets[i], desc) {
          allow := true;
        }
      }
    }
    if !entriesExist {
      allow := true;
    }
    if allow {
      if desc.perms.Some? {
        return AccessOk(desc.perms.value, desc.operation, e.privilege);
      }
      return false;
    }
    return false;
  }
}

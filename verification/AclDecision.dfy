/**
 The decisions before and after a restart: which of them OPERATE, written with the
 number of MANAGE, changes.
 */
module AclDecisions {
  import opened Bytes
  import opened Acls
  import opened AclStores
  import opened AclRestarts

  /** The four privileges of the source; nothing else is decoded or given out. */
  predicate Named(e: AclEntry) {
    e.privilege in {1, 3, 7, 15}
  }

  predicate AllNamed(entries: Entries) {
    forall i :: 0 <= i < |entries| ==> entries[i].Some? ==> Named(entries[i].value)
  }

  // ---------------------------------------------------------------- slots moved to the front decide alike

  lemma FrontNames(s: seq<Option<nat>>, id: nat)
    ensures Names(Front(s), id) == Names(s, id)
  {
    FrontSome(s);
    InFront(s, id);
    assert Some(id) in s <==> exists i :: 0 <= i < |s| && s[i] == Some(id);
    assert Some(id) in Front(s) <==> exists i :: 0 <= i < |s| && Front(s)[i] == Some(id);
  }

  /** Moving to the front leaves some value if there was one. */
  lemma FrontSome<T>(s: seq<Option<T>>)
    ensures (forall i :: 0 <= i < |s| ==> Front(s)[i].None?) <==> (forall i :: 0 <= i < |s| ==> s[i].None?)
  {
    if i :| 0 <= i < |s| && s[i].Some? {
      InFront(s, s[i].value);
      assert s[i] in s;
    }
    if i :| 0 <= i < |s| && Front(s)[i].Some? {
      InFront(s, Front(s)[i].value);
      assert Front(s)[i] in Front(s);
    }
  }

  lemma FrontCovers(s: seq<Option<Target>>, desc: AccessDesc)
    ensures Covers(Front(s), desc) == Covers(s, desc)
  {
    FrontSome(s);
    if i :| 0 <= i < |s| && Aims(s[i], desc) {
      InFront(s, s[i].value);
      assert s[i] in s;
    }
    if i :| 0 <= i < |s| && Aims(Front(s)[i], desc) {
      InFront(s, Front(s)[i].value);
      assert Front(s)[i] in Front(s);
    }
  }

  /** The entry is for this accessor and this object, whatever its privilege. */
  predicate Concerns(e: AclEntry, a: Accessor, desc: AccessDesc) {
    MatchAccessor(e, a) && Covers(e.targets, desc)
  }

  predicate Granted(privilege: nat, desc: AccessDesc) {
    desc.perms.Some? && AccessOk(desc.perms.value, desc.operation, privilege)
  }

  /** Of an entry's decisions a restart can change only what its privilege grants. */
  lemma RestoredConcerns(e: AclEntry, a: Accessor, desc: AccessDesc)
    ensures Concerns(Restored(e), a, desc) == Concerns(e, a, desc)
    ensures EntryAllows(e, a, desc) == (Concerns(e, a, desc) && Granted(e.privilege, desc))
    ensures EntryAllows(Restored(e), a, desc) == (Concerns(e, a, desc) && Granted(RestoredPrivilege(e.privilege), desc))
  {
    hide Front, Names, Covers, AccessOk;
    FrontNames(e.subjects, a.id);
    FrontCovers(e.targets, desc);
  }

  // ---------------------------------------------------------------- one entry

  /** An object that asks for MANAGE, or for ADMIN, to be read or written. */
  function Asking(privilege: nat, operation: bv16): bv16 {
    operation | if privilege == 7 then 4 else 8
  }

  /** What a privilege grants is the same after a restart exactly for VIEW, MANAGE and
      ADMIN. An object that asks for MANAGE tells OPERATE from what it becomes. */
  lemma GrantsAlikeIff(p: nat)
    requires p < 16 && p % 2 == 1
    ensures (forall perms, operation :: AccessOk(perms, operation, p) == AccessOk(perms, operation, RestoredPrivilege(p)))
       <==> p in {1, 7, 15}
    ensures p == 3 ==> RestoredPrivilege(p) == 7
  {
    NormalPrivilege(p);
    if p == 3 {
      OperateTold(READ);
    } else if p !in {1, 7, 15} {
      UnnamedPrivilegeShrinks(p);
    }
  }

  lemma OperateTold(operation: bv16)
    requires operation == READ || operation == WRITE
    ensures !AccessOk(Asking(7, operation), operation, 3) && AccessOk(Asking(7, operation), operation, 7)
  {
    assert 3 as bv16 == 3 && 7 as bv16 == 7;
  }

  /** VIEW and another bit without all those below it do not survive: some access
      they allow is refused after the restart. */
  lemma UnnamedPrivilegeShrinks(p: nat)
    requires p in {5, 9, 11, 13}
    ensures var perms := Asking(if p == 5 then 7 else 15, READ);
            AccessOk(perms, READ, p) && !AccessOk(perms, READ, RestoredPrivilege(p))
  {
    assert RestoredPrivilege(p) == if p == 11 then 7 else 1;
    assert 1 as bv16 == 1 && 5 as bv16 == 5 && 7 as bv16 == 7;
    assert 9 as bv16 == 9 && 11 as bv16 == 11 && 13 as bv16 == 13;
  }

  /** Somebody the entry is for. */
  function SomeAccessor(e: AclEntry): Accessor
    requires e.fabIdx.Some?
  {
    var ids := Somes(e.subjects);
    Accessor(e.fabIdx.value, if ids == [] then 0 else ids[0], e.authMode)
  }

  /** Something the entry is about. */
  function SomeDesc(e: AclEntry, perms: bv16, operation: bv16): AccessDesc {
    var ts := Somes(e.targets);
    if ts == [] then AccessDesc(None, None, Some(perms), operation)
    else AccessDesc(ts[0].endpoint, ts[0].cluster, Some(perms), operation)
  }

  lemma ConcernsSome(e: AclEntry, perms: bv16, operation: bv16)
    requires e.fabIdx.Some?
    ensures Concerns(e, SomeAccessor(e), SomeDesc(e, perms, operation))
  {
    SomeNamed(e.subjects);
    SomeCovered(e, perms, operation);
  }

  lemma {:induction false} NoSomes<T>(s: seq<Option<T>>)
    requires Somes(s) == []
    ensures forall i :: 0 <= i < |s| ==> s[i].None?
  {
    if s != [] {
      NoSomes(s[1..]);
    }
  }

  lemma SomeNamed(s: seq<Option<nat>>)
    ensures Names(s, if Somes(s) == [] then 0 else Somes(s)[0])
  {
    if Somes(s) != [] {
      InSomes(s, Somes(s)[0]);
    } else {
      NoSomes(s);
    }
  }

  lemma SomeCovered(e: AclEntry, perms: bv16, operation: bv16)
    ensures Covers(e.targets, SomeDesc(e, perms, operation))
  {
    var s := e.targets;
    if Somes(s) != [] {
      InSomes(s, Somes(s)[0]);
      var i :| 0 <= i < |s| && s[i] == Some(Somes(s)[0]);
      assert Aims(s[i], SomeDesc(e, perms, operation));
    } else {
      NoSomes(s);
    }
  }

  /** An entry decides the same after a restart, for every accessor and every object,
      exactly if its privilege is VIEW, MANAGE or ADMIN. */
  lemma EntryDecidesAlikeIff(e: AclEntry)
    requires Typed(e) && Restorable(e) && e.fabIdx.Some?
    ensures (forall a, desc :: EntryAllows(Restored(e), a, desc) == EntryAllows(e, a, desc)) <==> e.privilege in {1, 7, 15}
  {
    hide AccessOk, EntryAllows, Concerns, Restored, SomeAccessor, SomeDesc;
    EntryParts(EntryVal(e));
    GrantsAlikeIff(e.privilege);
    if e.privilege in {1, 7, 15} {
      forall a, desc
        ensures EntryAllows(Restored(e), a, desc) == EntryAllows(e, a, desc)
      {
        RestoredConcerns(e, a, desc);
      }
    } else {
      var perms, operation :| AccessOk(perms, operation, e.privilege) != AccessOk(perms, operation, RestoredPrivilege(e.privilege));
      ConcernsSome(e, perms, operation);
      SomeDescAsks(e, perms, operation);
      RestoredConcerns(e, SomeAccessor(e), SomeDesc(e, perms, operation));
    }
  }

  lemma SomeDescAsks(e: AclEntry, perms: bv16, operation: bv16)
    ensures SomeDesc(e, perms, operation).perms == Some(perms) && SomeDesc(e, perms, operation).operation == operation
  {
  }

  // ---------------------------------------------------------------- the whole list

  /** The access an OPERATE entry gains. */
  predicate Gains(e: AclEntry, a: Accessor, desc: AccessDesc) {
    e.privilege == 3 && Concerns(e, a, desc) && Granted(7, desc)
  }

  lemma RestoredNamed(e: AclEntry, a: Accessor, desc: AccessDesc)
    requires Named(e)
    ensures EntryAllows(Restored(e), a, desc) <==> EntryAllows(e, a, desc) || Gains(e, a, desc)
  {
    hide AccessOk, EntryAllows, Concerns, Restored;
    RestoredConcerns(e, a, desc);
    NormalPrivilege(e.privilege);
    if e.privilege == 3 && desc.perms.Some? {
      ManageCoversOperate(desc.perms.value, desc.operation);
    }
  }

  /** After a restart exactly those requests are allowed that were allowed before, and
      those that some OPERATE entry of the accessor's fabric would allow if it were MANAGE. */
  lemma RestartDecides(entries: Entries, a: Accessor, desc: AccessDesc)
    requires AllTyped(entries) && AllRestorable(entries) && AllNamed(entries)
    ensures Load(Stored(entries)).Ok?
    ensures Allow(Load(Stored(entries)).value, a, desc)
       <==> Allow(entries, a, desc) || exists e :: e in View(entries, Some(a.fabIdx)) && Gains(e, a, desc)
  {
    hide Load, Stored, Typed, EntryAllows, Gains, Restored;
    LoadAfterStore(entries);
    var fab := Some(a.fabIdx);
    var v := View(entries, fab);
    RestartKeepsViews(entries, fab);
    DecidedByView(entries, a, desc);
    DecidedByView(Restarted(entries), a, desc);
    forall i | 0 <= i < |v|
      ensures EntryAllows(RestoredAll(v)[i], a, desc) <==> EntryAllows(v[i], a, desc) || Gains(v[i], a, desc)
    {
      InView(entries, fab, v[i]);
      RestoredNamed(v[i], a, desc);
    }
    EitherExists(v, RestoredAll(v), a, desc);
  }

  lemma EitherExists(v: seq<AclEntry>, w: seq<AclEntry>, a: Accessor, desc: AccessDesc)
    requires |v| == |w|
    requires forall i :: 0 <= i < |v| ==> (EntryAllows(w[i], a, desc) <==> EntryAllows(v[i], a, desc) || Gains(v[i], a, desc))
    ensures (exists e :: e in w && EntryAllows(e, a, desc))
       <==> (exists e :: e in v && EntryAllows(e, a, desc)) || (exists e :: e in v && Gains(e, a, desc))
  {
    hide EntryAllows, Gains;
    if e :| e in v && (EntryAllows(e, a, desc) || Gains(e, a, desc)) {
      var i :| 0 <= i < |v| && v[i] == e;
      assert w[i] in w;
    }
    if e :| e in w && EntryAllows(e, a, desc) {
      var i :| 0 <= i < |w| && w[i] == e;
      assert v[i] in v;
    }
  }

  /** Whoever and whatever the entry concerns, a MANAGE or ADMIN entry concerns too. */
  ghost predicate Shadowed(e: AclEntry, entries: Entries) {
    forall a, desc :: Concerns(e, a, desc) ==>
      exists i :: 0 <= i < |entries| && entries[i].Some? && entries[i].value.privilege in {7, 15} && Concerns(entries[i].value, a, desc)
  }

  /** Every decision, for every accessor and every object, is the same after a restart
      exactly if each OPERATE entry is shadowed by MANAGE and ADMIN entries. Entries for
      PASE, or of no fabric, decide nothing. */
  lemma RestartKeepsDecisionsIff(entries: Entries)
    requires AllTyped(entries) && AllRestorable(entries) && AllNamed(entries)
    ensures Load(Stored(entries)).Ok?
    ensures (forall a, desc :: Allow(Load(Stored(entries)).value, a, desc) == Allow(entries, a, desc))
       <==> forall i :: 0 <= i < |entries| && entries[i].Some? && entries[i].value.privilege == 3
                        && entries[i].value.authMode != PASE && entries[i].value.fabIdx.Some? ==>
              Shadowed(entries[i].value, entries)
  {
    hide Load, Stored, AllTyped, AllRestorable, AllNamed, Allow, Shadowed;
    LoadAfterStore(entries);
    var after := Load(Stored(entries)).value;
    if forall a, desc :: Allow(after, a, desc) == Allow(entries, a, desc) {
      forall i | 0 <= i < |entries| && entries[i].Some? && entries[i].value.privilege == 3
                 && entries[i].value.authMode != PASE && entries[i].value.fabIdx.Some?
        ensures Shadowed(entries[i].value, entries)
      {
        UnchangedShadows(entries, i);
      }
    }
    if forall i :: 0 <= i < |entries| && entries[i].Some? && entries[i].value.privilege == 3
                   && entries[i].value.authMode != PASE && entries[i].value.fabIdx.Some? ==>
         Shadowed(entries[i].value, entries) {
      forall a, desc
        ensures Allow(after, a, desc) == Allow(entries, a, desc)
      {
        ShadowedUnchanged(entries, a, desc);
      }
    }
  }

  /** If no decision changes, whatever an OPERATE entry concerns was MANAGE's before. */
  lemma UnchangedShadows(entries: Entries, i: nat)
    requires AllTyped(entries) && AllRestorable(entries) && AllNamed(entries) && Load(Stored(entries)).Ok?
    requires forall a, desc :: Allow(Load(Stored(entries)).value, a, desc) == Allow(entries, a, desc)
    requires i < |entries| && entries[i].Some? && entries[i].value.privilege == 3 && entries[i].value.authMode != PASE
    ensures Shadowed(entries[i].value, entries)
  {
    hide Load, Stored, AllTyped, AllRestorable, AccessOk, Covers;
    var e := entries[i].value;
    forall a, desc | Concerns(e, a, desc)
      ensures exists i :: 0 <= i < |entries| && entries[i].Some? && entries[i].value.privilege in {7, 15}
                          && Concerns(entries[i].value, a, desc)
    {
      var asking := desc.(perms := Some(Asking(7, READ)), operation := READ);
      AimsAlike(e, desc, asking);
      OperateTold(READ);
      ManageOnly();
      RestartDecides(entries, a, asking);
      InView(entries, Some(a.fabIdx), e);
      assert Gains(e, a, asking);
      var k :| 0 <= k < |entries| && entries[k].Some? && EntryAllows(entries[k].value, a, asking);
      AimsAlike(entries[k].value, desc, asking);
    }
  }

  lemma AimsAlike(e: AclEntry, desc: AccessDesc, other: AccessDesc)
    requires desc.endpoint == other.endpoint && desc.cluster == other.cluster
    ensures Covers(e.targets, desc) == Covers(e.targets, other)
  {
    assert forall i :: 0 <= i < |e.targets| ==> Aims(e.targets[i], desc) == Aims(e.targets[i], other);
  }

  /** Of the four privileges, only MANAGE and ADMIN grant what asks for MANAGE. */
  lemma ManageOnly()
    ensures forall p :: p in {1, 3, 7, 15} ==> (AccessOk(Asking(7, READ), READ, p) <==> p in {7, 15})
  {
    assert 1 as bv16 == 1 && 3 as bv16 == 3 && 7 as bv16 == 7 && 15 as bv16 == 15;
  }

  lemma ShadowedUnchanged(entries: Entries, a: Accessor, desc: AccessDesc)
    requires AllTyped(entries) && AllRestorable(entries) && AllNamed(entries) && Load(Stored(entries)).Ok?
    requires forall i :: 0 <= i < |entries| && entries[i].Some? && entries[i].value.privilege == 3
                         && entries[i].value.authMode != PASE && entries[i].value.fabIdx.Some? ==>
               Shadowed(entries[i].value, entries)
    ensures Allow(Load(Stored(entries)).value, a, desc) == Allow(entries, a, desc)
  {
    hide Load, Stored, AllTyped, AllRestorable, AllNamed, AccessOk, Covers;
    RestartDecides(entries, a, desc);
    if a.authMode != PASE {
      if e :| e in View(entries, Some(a.fabIdx)) && Gains(e, a, desc) {
        InView(entries, Some(a.fabIdx), e);
        assert Shadowed(e, entries);
        var i :| 0 <= i < |entries| && entries[i].Some? && entries[i].value.privilege in {7, 15} && Concerns(entries[i].value, a, desc);
        AdminCoversManage(desc.perms.value, desc.operation);
        assert EntryAllows(entries[i].value, a, desc);
      }
    }
  }

  lemma AdminCoversManage(perms: bv16, operation: bv16)
    ensures AccessOk(perms, operation, 7) ==> AccessOk(perms, operation, 15)
  {
    assert 7 as bv16 == 7 && 15 as bv16 == 15;
  }

  /** In particular nothing changes without OPERATE entries. */
  lemma RestartKeepsDecisions(entries: Entries, a: Accessor, desc: AccessDesc)
    requires AllTyped(entries)
    requires forall i :: 0 <= i < |entries| ==> entries[i].Some? ==> Unchanging(entries[i].value)
    ensures Load(Stored(entries)).Ok?
    ensures Allow(Load(Stored(entries)).value, a, desc) == Allow(entries, a, desc)
  {
    hide Load, Stored, Typed, Allow, Shadowed;
    RestartKeepsDecisionsIff(entries);
  }

  /** A list with one entry. */
  function Alone(e: AclEntry): Entries {
    seq(MAX_ACL_ENTRIES, i => if i == 0 then Some(e) else None)
  }

  /** Alone in the list, an OPERATE entry gains access by a restart: reading and writing
      an object that asks for MANAGE was refused before and is allowed afterwards. */
  lemma OperateEscalates(e: AclEntry, operation: bv16)
    requires Typed(e) && Restorable(e) && e.privilege == 3 && e.authMode != PASE && e.fabIdx.Some?
    requires operation == READ || operation == WRITE
    ensures var desc := SomeDesc(e, Asking(7, operation), operation); var l := Load(Stored(Alone(e)));
            !Allow(Alone(e), SomeAccessor(e), desc) && l.Ok? && Allow(l.value, SomeAccessor(e), desc)
  {
    hide Load, Stored, Typed, AccessOk, Covers, SomeDesc;
    var desc, a, entries := SomeDesc(e, Asking(7, operation), operation), SomeAccessor(e), Alone(e);
    SomeDescAsks(e, Asking(7, operation), operation);
    ConcernsSome(e, Asking(7, operation), operation);
    OperateTold(operation);
    RestartDecides(entries, a, desc);
    assert entries[0] == Some(e);
    InView(entries, Some(a.fabIdx), e);
  }
}

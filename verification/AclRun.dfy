/**
 Runs of the access control manager whose changes may fail to be stored, and what a
 restart after them gives.
 */
module AclRuns {
  import opened Bytes
  import opened Acls
  import opened AclStores
  import opened AclRestarts
  import opened AclMgrs

  /** An operation of the manager, with how the key-value store answers. */
  datatype Op = Op(act: Act, psm: Outcome)

  datatype Act =
    | AddEntry(e: AclEntry)
    | EditEntry(index: nat, fab: nat, e: AclEntry)
    | DeleteEntry(index: nat, fab: nat)
    | DeleteFabric(fab: nat)
    | EraseAll

  predicate Sensible(act: Act) {
    match act
    case AddEntry(e) => Typed(e)
    case EditEntry(_, _, e) => Typed(e)
    case _ => true
  }

  function ChangeOf(entries: Entries, act: Act): Changed {
    match act
    case AddEntry(e) => Add(entries, e)
    case EditEntry(index, fab, e) => Edit(entries, index, Some(fab), e)
    case DeleteEntry(index, fab) => Delete(entries, index, Some(fab))
    case DeleteFabric(fab) => Changed(DeleteForFabric(entries, Some(fab)), Pass)
    case EraseAll => Changed(NoEntries(), Pass)
  }

  lemma ChangeTyped(entries: Entries, act: Act)
    requires AllTyped(entries) && Sensible(act)
    ensures AllTyped(ChangeOf(entries, act).entries)
  {
    hide Typed, View, SlotOf;
  }

  function AfterOp(d: Device, op: Op): Kept
    requires AllTyped(d.entries) && Sensible(op.act)
  {
    ChangeTyped(d.entries, op.act);
    Keep(true, d.stored, ChangeOf(d.entries, op.act), op.psm)
  }

  predicate AllSensible(ops: seq<Op>) {
    forall i :: 0 <= i < |ops| ==> Sensible(ops[i].act)
  }

  lemma OpTyped(d: Device, op: Op)
    requires AllTyped(d.entries) && Sensible(op.act)
    ensures AllTyped(AfterOp(d, op).device.entries)
  {
    hide AllTyped, ChangeOf;
    ChangeTyped(d.entries, op.act);
  }

  function Final(d: Device, ops: seq<Op>): Device
    requires AllTyped(d.entries) && AllSensible(ops)
    decreases |ops|
  {
    if ops == [] then d
    else
      OpTyped(d, ops[0]);
      Final(AfterOp(d, ops[0]).device, ops[1..])
  }

  /** The slots as of the last time they were stored. */
  function LastStored(d: Device, ops: seq<Op>, before: Option<Entries>): Option<Entries>
    requires AllTyped(d.entries) && AllSensible(ops)
    decreases |ops|
  {
    if ops == [] then before
    else
      OpTyped(d, ops[0]);
      var k := AfterOp(d, ops[0]);
      LastStored(k.device, ops[1..], if k.r.Pass? then Some(k.device.entries) else before)
  }

  /** The last change that went well in memory was stored too. */
  predicate UpToDate(d: Device, ops: seq<Op>, before: bool)
    requires AllTyped(d.entries) && AllSensible(ops)
    decreases |ops|
  {
    if ops == [] then before
    else
      OpTyped(d, ops[0]);
      var k := AfterOp(d, ops[0]);
      UpToDate(k.device, ops[1..], if ChangeOf(d.entries, ops[0].act).r.Fail? then before else k.r.Pass?)
  }

  /** The key-value store holds the encoding of these slots, or nothing. */
  predicate Holds(stored: Option<seq<byte>>, last: Option<Entries>) {
    if last.None? then stored.None? else AllTyped(last.value) && stored == Some(Stored(last.value))
  }

  lemma OpHolds(d: Device, op: Op, before: Option<Entries>)
    requires AllTyped(d.entries) && Sensible(op.act) && Holds(d.stored, before)
    ensures var k := AfterOp(d, op); AllTyped(k.device.entries) && Holds(k.device.stored, if k.r.Pass? then Some(k.device.entries) else before)
  {
    hide AllTyped, ChangeOf, Stored;
    ChangeTyped(d.entries, op.act);
  }

  /** After any run, whichever of its changes could not be stored, the key-value store
      holds the slots as of the last change that could. */
  lemma {:induction false} StoreHoldsLast(d: Device, ops: seq<Op>, before: Option<Entries>)
    requires AllTyped(d.entries) && AllSensible(ops) && Holds(d.stored, before)
    ensures Holds(Final(d, ops).stored, LastStored(d, ops, before))
    decreases |ops|
  {
    hide AllTyped, Holds, AfterOp, Sensible;
    if ops != [] {
      OpTyped(d, ops[0]);
      OpHolds(d, ops[0], before);
      var k := AfterOp(d, ops[0]);
      StoreHoldsLast(k.device, ops[1..], if k.r.Pass? then Some(k.device.entries) else before);
    }
  }

  /** What a restart gives after any run: each fabric has the restored entries of that
      moment at the same indexes, or, when they cannot be loaded or nothing was ever
      stored, none. */
  lemma RestartAfterRun(d: Device, ops: seq<Op>, before: Option<Entries>, fab: Option<nat>)
    requires AllTyped(d.entries) && AllSensible(ops) && Holds(d.stored, before)
    ensures var last := LastStored(d, ops, before);
            View(Started(true, Final(d, ops).stored), fab)
            == if last.Some? && AllRestorable(last.value) then RestoredAll(View(last.value, fab)) else []
  {
    hide AllTyped, AllRestorable, Final, LastStored, View, Stored, Load, Restarted;
    StoreHoldsLast(d, ops, before);
    var last := LastStored(d, ops, before);
    if last.Some? {
      RestartAfterStore(last.value, fab);
    } else {
      NoneOfFabric(NoEntries(), fab);
    }
  }

  lemma OpKeeps(d: Device, op: Op)
    requires AllTyped(d.entries) && Sensible(op.act) && ChangeOf(d.entries, op.act).r.Fail?
    ensures AfterOp(d, op).device == d && AfterOp(d, op).r.Fail?
  {
    hide AllTyped, View, SlotOf, Stored;
    ChangeTyped(d.entries, op.act);
  }

  /** That moment is now when the last change that went well in memory was stored. */
  lemma {:induction false} UpToDateMeans(d: Device, ops: seq<Op>, before: Option<Entries>, now: bool)
    requires AllTyped(d.entries) && AllSensible(ops) && (now ==> before == Some(d.entries))
    ensures UpToDate(d, ops, now) ==> LastStored(d, ops, before) == Some(Final(d, ops).entries)
    decreases |ops|
  {
    hide AllTyped, AfterOp, Sensible, ChangeOf;
    if ops != [] {
      OpTyped(d, ops[0]);
      var k := AfterOp(d, ops[0]);
      var failed := ChangeOf(d.entries, ops[0].act).r.Fail?;
      if failed {
        OpKeeps(d, ops[0]);
      }
      UpToDateMeans(k.device, ops[1..], if k.r.Pass? then Some(k.device.entries) else before, if failed then now else k.r.Pass?);
    }
  }

  /** So after a run that is up to date a restart gives the restored entries of memory. */
  lemma RestartGivesMemory(d: Device, ops: seq<Op>, before: Option<Entries>, fab: Option<nat>)
    requires AllTyped(d.entries) && AllSensible(ops) && Holds(d.stored, before)
    requires UpToDate(d, ops, before == Some(d.entries)) && AllRestorable(Final(d, ops).entries)
    ensures View(Started(true, Final(d, ops).stored), fab) == RestoredAll(View(Final(d, ops).entries, fab))
  {
    hide AllTyped, AllRestorable, Final, LastStored, UpToDate, View, RestoredAll;
    UpToDateMeans(d, ops, before, before == Some(d.entries));
    RestartAfterRun(d, ops, before, fab);
  }

  /** And after one that is not, a restart can take an entry away: one that is added while
      the store fails is in memory and is gone with the restart. */
  lemma UnstoredIsLost(e: AclEntry, fab: nat, error: Error)
    requires Typed(e) && e.fabIdx == Some(fab)
    ensures var d := Device(NoEntries(), None); var ops := [Op(AddEntry(e), Fail(error))];
            AllTyped(d.entries) && AllSensible(ops)
            && View(Final(d, ops).entries, Some(fab)) == [e] && View(Started(true, Final(d, ops).stored), Some(fab)) == []
  {
    hide Typed, Stored, Load, View;
    var d, op := Device(NoEntries(), None), Op(AddEntry(e), Fail(error));
    NoneOfFabric(NoEntries(), Some(fab));
    AddActsOnView(NoEntries(), e, None);
    ChangeTyped(d.entries, op.act);
    var k := AfterOp(d, op);
    assert [op][1..] == [];
    assert Final(d, [op]) == Final(k.device, []) == k.device;
    assert k.device.stored == None;
    OneEntry(View(k.device.entries, Some(fab)), e);
  }

  lemma OneEntry(v: seq<AclEntry>, e: AclEntry)
    requires |v| == 1 && e in v
    ensures v == [e]
  {
  }
}

/**
 The exchange manager: a table of at most eight exchanges, each of which uses a
 slot of the session table. Its operations are steps on both tables; what the
 network, the buffers and the decryption do are parameters of a step.
 */
module Exchanges {
  import opened Bytes
  import opened Mrps
  import opened Sessions

  datatype Role = Initiator | Responder

  datatype Exchange = Exchange(id: nat, sessIdx: nat, role: Role, isOpen: bool, mrp: Mrp) {
    predicate IsPurgeable() {
      !isOpen && mrp.IsEmpty()
    }
  }

  const MAX_EXCHANGES := 8

  /** Both tables. The order in which the source's map lists its entries is not kept. */
  datatype Tables = Tables(slots: Slots, exchanges: map<nat, Exchange>)

  ghost predicate Inv(t: Tables) {
    |t.slots| == MAX_SESSIONS && |t.exchanges| <= MAX_EXCHANGES
    && forall id :: id in t.exchanges ==> Placed(t, id, t.exchanges[id])
  }

  /** The exchange is stored under its own id and uses an occupied slot. */
  predicate Placed(t: Tables, id: nat, e: Exchange) {
    e.id == id && e.sessIdx < |t.slots| && t.slots[e.sessIdx].Some?
  }

  /** What happens outside: whether there is a network interface, and how building,
      encoding and sending a packet end. */
  datatype Io = Io(network: bool, build: Outcome, encode: Outcome, send: Outcome)

  datatype Done = Done(t: Tables, r: Outcome)

  // ---------------------------------------------------------------- sending

  const CTR_RANGE := 0x1_0000_0000

  function Stamp(s: Session): Session {
    s.(msgCtr := (s.msgCtr + 1) % CTR_RANGE)
  }

  function SendResult(io: Io): Outcome {
    if io.encode.Fail? then io.encode else if !io.network then Fail(NoNetworkInterface) else io.send
  }

  /** `Exchange::send`: the session's counter is used up, the reliability protocol
      has its say, and only then is the session marked as used and the packet sent. */
  function SendOn(t: Tables, id: nat, reliable: bool, now: nat, io: Io): (d: Done)
    requires id in t.exchanges && Placed(t, id, t.exchanges[id])
  {
    var e := t.exchanges[id];
    var s := t.slots[e.sessIdx].value;
    var sent := AfterSend(e.mrp, s.msgCtr, reliable);
    var s' := if sent.r.Fail? then Stamp(s) else Stamp(s).(lastUse := now);
    Done(Tables(t.slots[e.sessIdx := Some(s')], t.exchanges[id := e.(mrp := sent.mrp)]),
         if sent.r.Fail? then sent.r else SendResult(io))
  }

  function Send(t: Tables, id: nat, reliable: bool, now: nat, io: Io): Done
    requires Inv(t)
  {
    if id !in t.exchanges then Done(t, Fail(NoExchange)) else SendOn(t, id, reliable, now, io)
  }

  // ---------------------------------------------------------------- eviction

  /** The exchanges that use a slot. */
  function UsersOf(exchanges: map<nat, Exchange>, index: nat): set<nat> {
    set id | id in exchanges && exchanges[id].sessIdx == index
  }

  function WithoutSession(t: Tables, index: nat): Tables
    requires index < |t.slots|
  {
    Tables(t.slots[index := None], t.exchanges - UsersOf(t.exchanges, index))
  }

  /** `evict_session`: a close message goes out on `first`, one of the exchanges of
      the session, if it has any; when that fails nothing is removed. */
  function Evict(t: Tables, index: nat, first: nat, now: nat, io: Io): Done
    requires Inv(t) && index < MAX_SESSIONS
    requires UsersOf(t.exchanges, index) == {} || first in UsersOf(t.exchanges, index)
  {
    if io.build.Fail? then Done(t, io.build)
    else if UsersOf(t.exchanges, index) == {} then Done(WithoutSession(t, index), Pass)
    else
      var d := SendOn(t, first, false, now, io);
      if d.r.Fail? then d else Done(WithoutSession(d.t, index), Pass)
  }

  // ---------------------------------------------------------------- receiving

  /** A received packet: its plain header, and what decrypting and decoding the
      rest of it gives. */
  datatype Packet = Packet(hdr: Plain, proto: Result<Proto, Error>)

  datatype Proto = Proto(exchId: nat, initiator: bool, rx: Rx)

  datatype Got = Got(exchanges: map<nat, Exchange>, r: Outcome)

  /** `_get`: makes an exchange only when asked to; one that is there must have the
      same role and session. */
  function Get(exchanges: map<nat, Exchange>, sessIdx: nat, id: nat, role: Role, create: bool): Got {
    if id !in exchanges then
      if create && |exchanges| < MAX_EXCHANGES
      then Got(exchanges[id := Exchange(id, sessIdx, role, true, NEW)], Pass)
      else Got(exchanges, Fail(NoSpace))
    else if exchanges[id].role == role && exchanges[id].sessIdx == sessIdx then Got(exchanges, Pass)
    else Got(exchanges, Fail(NoExchange))
  }

  /** What a receive hands on: the exchange of the message, if it is still open. */
  datatype Heard = Heard(t: Tables, r: Result<Option<nat>, Error>)

  /** The part of `recv` behind the look-up of the session. */
  function Deliver(t: Tables, index: nat, p: Packet, now: nat, clockOk: bool): Heard
    requires index < |t.slots| && t.slots[index].Some?
  {
    var slots := t.slots[index := Some(t.slots[index].value.(lastUse := now))];
    match p.proto
    case Err(e) => Heard(Tables(slots, t.exchanges), Err(e))
    case Ok(proto) =>
      var got := Get(t.exchanges, index, proto.exchId, if proto.initiator then Responder else Initiator, proto.initiator);
      if got.r.Fail? then Heard(Tables(slots, got.exchanges), Err(got.r.error))
      else
        var e := got.exchanges[proto.exchId];
        var heard := AfterRecv(e.mrp, proto.rx, clockOk);
        Heard(Tables(slots, got.exchanges[proto.exchId := e.(mrp := heard.mrp)]),
              if heard.r.Fail? then Err(heard.r.error) else Ok(if e.isOpen then Some(proto.exchId) else None))
  }

  /** `recv`, for a packet that came in: a full session table costs the least
      recently used session its place. */
  function Recv(t: Tables, p: Packet, first: nat, random: nat, now: nat, clockOk: bool, io: Io): Heard
    requires Inv(t)
    requires var lru := Lru(t.slots, now); UsersOf(t.exchanges, lru) == {} || first in UsersOf(t.exchanges, lru)
  {
    LruIsOldest(t.slots, now);
    PostRecvMatches(t.slots, p.hdr, random, now);
    var a := AfterPostRecv(t.slots, p.hdr, random, now);
    match a.r
    case Err(e) => Heard(Tables(a.slots, t.exchanges), Err(e))
    case Ok(Some(index)) => Deliver(Tables(a.slots, t.exchanges), index, p, now, clockOk)
    case Ok(None) =>
      var d := Evict(t, Lru(t.slots, now), first, now, io);
      if d.r.Fail? then Heard(d.t, Err(d.r.error))
      else
        PostRecvMatches(d.t.slots, p.hdr, random, now);
        var b := AfterPostRecv(d.t.slots, p.hdr, random, now);
        match b.r
        case Err(e) => Heard(Tables(b.slots, d.t.exchanges), Err(e))
        case Ok(None) => Heard(Tables(b.slots, d.t.exchanges), Err(Invalid))
        case Ok(Some(index)) => Deliver(Tables(b.slots, d.t.exchanges), index, p, now, clockOk)
  }

  // ---------------------------------------------------------------- the other operations

  function Purge(t: Tables): Tables {
    t.(exchanges := t.exchanges - (set id | id in t.exchanges && t.exchanges[id].IsPurgeable()))
  }

  /** A protocol handler closes the exchange it was given. */
  function Close(t: Tables, id: nat): Tables {
    if id !in t.exchanges then t else t.(exchanges := t.exchanges[id := t.exchanges[id].(isOpen := false)])
  }

  datatype Joined = Joined(t: Tables, r: Result<nat, Error>)

  /** `add_session` for a session cloned from another. */
  function Join(t: Tables, s: Session, first: nat, now: nat, io: Io): Joined
    requires Inv(t)
    requires var lru := Lru(t.slots, now); UsersOf(t.exchanges, lru) == {} || first in UsersOf(t.exchanges, lru)
  {
    LruIsOldest(t.slots, now);
    var a := AfterAddSession(t.slots, s);
    match a.r
    case Ok(i) => Joined(Tables(a.slots, t.exchanges), Ok(i))
    case Err(NoSpace) =>
      var d := Evict(t, Lru(t.slots, now), first, now, io);
      if d.r.Fail? then Joined(d.t, Err(d.r.error))
      else
        var b := AfterAddSession(d.t.slots, s);
        Joined(Tables(b.slots, d.t.exchanges), b.r)
    case Err(e) => Joined(Tables(a.slots, t.exchanges), Err(e))
  }

  // ---------------------------------------------------------------- one step

  /** Only the counter and the time of last use of a session change. */
  predicate SameSession(a: Option<Session>, b: Option<Session>) {
    a.Some? && b.Some? && b.value.(msgCtr := a.value.msgCtr, lastUse := a.value.lastUse) == a.value
  }

  predicate SameTable(a: Slots, b: Slots) {
    |a| == |b| && forall i :: 0 <= i < |a| ==> a[i] == b[i] || SameSession(a[i], b[i])
  }

  predicate SameExchange(e: Exchange, f: Exchange) {
    f.id == e.id && f.sessIdx == e.sessIdx && f.role == e.role
  }

  lemma SendOnKeeps(t: Tables, id: nat, reliable: bool, now: nat, io: Io)
    requires Inv(t) && id in t.exchanges
    ensures var d := SendOn(t, id, reliable, now, io);
            Inv(d.t) && SameTable(t.slots, d.t.slots) && d.t.exchanges.Keys == t.exchanges.Keys
            && SameExchange(t.exchanges[id], d.t.exchanges[id])
            && d.t.exchanges[id].isOpen == t.exchanges[id].isOpen
            && (forall k :: k in t.exchanges && k != id ==> d.t.exchanges[k] == t.exchanges[k])
            && d.t.slots[t.exchanges[id].sessIdx := None] == t.slots[t.exchanges[id].sessIdx := None]
  {
    var d := SendOn(t, id, reliable, now, io);
    assert d.t.exchanges.Keys == t.exchanges.Keys;
    assert |d.t.exchanges| == |d.t.exchanges.Keys| == |t.exchanges.Keys|;
  }

  lemma FewerKeys(m: map<nat, Exchange>, gone: set<nat>)
    ensures |m - gone| <= |m|
  {
    assert (m - gone).Keys <= m.Keys;
    SubsetSize((m - gone).Keys, m.Keys);
    assert |m - gone| == |(m - gone).Keys| && |m| == |m.Keys|;
  }

  lemma {:induction false} SubsetSize(a: set<nat>, b: set<nat>)
    requires a <= b
    ensures |a| <= |b|
  {
    if a != {} {
      var x :| x in a;
      SubsetSize(a - {x}, b - {x});
    }
  }

  lemma WithoutSessionKeeps(t: Tables, index: nat)
    requires Inv(t) && index < MAX_SESSIONS
    ensures Inv(WithoutSession(t, index))
  {
    var users := UsersOf(t.exchanges, index);
    FewerKeys(t.exchanges, users);
    var w := WithoutSession(t, index);
    forall id | id in w.exchanges
      ensures Placed(w, id, w.exchanges[id])
    {
      assert id !in users && Placed(t, id, t.exchanges[id]);
    }
  }

  lemma SameUsers(a: map<nat, Exchange>, b: map<nat, Exchange>, index: nat)
    requires a.Keys == b.Keys && forall k :: k in a ==> a[k].sessIdx == b[k].sessIdx
    requires forall k :: k in a && a[k].sessIdx != index ==> a[k] == b[k]
    ensures UsersOf(a, index) == UsersOf(b, index) && a - UsersOf(a, index) == b - UsersOf(b, index)
  {
    assert UsersOf(a, index) == UsersOf(b, index);
  }

  /** Nothing removed, and nothing changed but counters and what they count. */
  ghost predicate OnlyCounted(t: Tables, u: Tables) {
    SameTable(t.slots, u.slots) && u.exchanges.Keys == t.exchanges.Keys
    && forall k :: k in t.exchanges ==> SameExchange(t.exchanges[k], u.exchanges[k])
  }

  lemma NothingCounted(t: Tables)
    ensures OnlyCounted(t, t)
  {
  }

  lemma EvictWithClose(t: Tables, index: nat, first: nat, now: nat, io: Io)
    requires Inv(t) && index < MAX_SESSIONS && first in UsersOf(t.exchanges, index)
    ensures var d := SendOn(t, first, false, now, io);
            Inv(d.t) && OnlyCounted(t, d.t) && WithoutSession(d.t, index) == WithoutSession(t, index)
  {
    hide SendOn, SameTable, SameSession;
    SendOnKeeps(t, first, false, now, io);
    SameUsers(t.exchanges, SendOn(t, first, false, now, io).t.exchanges, index);
  }

  /** A successful eviction frees exactly that slot and removes exactly the
      exchanges that use it; one that fails removes nothing. */
  lemma EvictExact(t: Tables, index: nat, first: nat, now: nat, io: Io)
    requires Inv(t) && index < MAX_SESSIONS
    requires UsersOf(t.exchanges, index) == {} || first in UsersOf(t.exchanges, index)
    ensures var d := Evict(t, index, first, now, io);
            Inv(d.t) && if d.r.Pass? then d.t == WithoutSession(t, index) else OnlyCounted(t, d.t)
  {
    hide SendOn, Inv, OnlyCounted, UsersOf, WithoutSession;
    WithoutSessionKeeps(t, index);
    NothingCounted(t);
    if UsersOf(t.exchanges, index) != {} {
      EvictWithClose(t, index, first, now, io);
    }
  }

  // ---------------------------------------------------------------- the retried insertion

  /** In a table whose only free slot is `i`, a session goes there. */
  lemma OneHole(slots: Slots, i: nat, s: Session)
    requires i < |slots| && slots[i].None? && forall j :: 0 <= j < |slots| && j != i ==> slots[j].Some?
    ensures AfterAddSession(slots, s) == Added(slots[i := Some(s)], Ok(i))
  {
  }

  predicate Full(slots: Slots) {
    forall i :: 0 <= i < |slots| ==> slots[i].Some?
  }

  /** After the eviction the new session always finds room, in the slot of the
      session that had to go; a join fails only when the eviction does. */
  lemma JoinFindsRoom(t: Tables, s: Session, first: nat, now: nat, io: Io)
    requires Inv(t)
    requires var lru := Lru(t.slots, now); UsersOf(t.exchanges, lru) == {} || first in UsersOf(t.exchanges, lru)
    ensures var j := Join(t, s, first, now, io); var lru := Lru(t.slots, now);
            lru < MAX_SESSIONS
            && (!Full(t.slots) ==>
                j.r.Ok? && j.r.value < MAX_SESSIONS && t.slots[j.r.value].None?
                && j.t == Tables(t.slots[j.r.value := Some(s)], t.exchanges))
            && (Full(t.slots) ==>
                var d := Evict(t, lru, first, now, io);
                if d.r.Pass? then
                  j == Joined(Tables(t.slots[lru := Some(s)], t.exchanges - UsersOf(t.exchanges, lru)), Ok(lru))
                else j == Joined(d.t, Err(d.r.error)))
  {
    hide Evict, UsersOf, Lru, Join, AfterAddSession, Inv;
    var lru := Lru(t.slots, now);
    SlotCount(t);
    LruIsOldest(t.slots, now);
    if Full(t.slots) {
      JoinEvicts(t, s, first, now, io);
    } else {
      JoinFills(t, s, first, now, io);
    }
  }

  lemma JoinFills(t: Tables, s: Session, first: nat, now: nat, io: Io)
    requires Inv(t) && !Full(t.slots)
    requires var lru := Lru(t.slots, now); UsersOf(t.exchanges, lru) == {} || first in UsersOf(t.exchanges, lru)
    ensures var j := Join(t, s, first, now, io);
            j.r.Ok? && j.r.value < |t.slots| && t.slots[j.r.value].None?
            && j.t == Tables(t.slots[j.r.value := Some(s)], t.exchanges)
  {
    hide Evict, UsersOf, Lru, Inv;
  }

  lemma JoinEvicts(t: Tables, s: Session, first: nat, now: nat, io: Io)
    requires Inv(t) && Full(t.slots)
    requires var lru := Lru(t.slots, now); UsersOf(t.exchanges, lru) == {} || first in UsersOf(t.exchanges, lru)
    ensures var j := Join(t, s, first, now, io); var lru := Lru(t.slots, now);
            lru < MAX_SESSIONS &&
            var d := Evict(t, lru, first, now, io);
            if d.r.Pass? then j == Joined(Tables(t.slots[lru := Some(s)], t.exchanges - UsersOf(t.exchanges, lru)), Ok(lru))
            else j == Joined(d.t, Err(d.r.error))
  {
    hide Evict, UsersOf, Lru, Inv;
    var lru := Lru(t.slots, now);
    SlotCount(t);
    LruIsOldest(t.slots, now);
    EvictExact(t, lru, first, now, io);
    NoRoom(t.slots, s);
    OneHole(t.slots[lru := None], lru, s);
    assert t.slots[lru := None][lru := Some(s)] == t.slots[lru := Some(s)];
  }

  lemma NoRoom(slots: Slots, s: Session)
    requires Full(slots)
    ensures AfterAddSession(slots, s) == Added(slots, Err(NoSpace))
  {
  }

  /** The same for a packet that needs a new session. */
  lemma PostRecvFindsRoom(slots: Slots, lru: nat, hdr: Plain, random: nat, now: nat)
    requires AfterPostRecv(slots, hdr, random, now).r == Ok(None) && lru < |slots|
    ensures AfterPostRecv(slots[lru := None], hdr, random, now)
         == PostRecvd(slots[lru := Some(NewSession(hdr.peer, hdr.src, random, now))], Ok(Some(lru)))
  {
    PostRecvMatches(slots, hdr, random, now);
    var hole := slots[lru := None];
    assert AfterGetOrAdd(slots, hdr, random, now).r == Err(NoSpace);
    var s := NewSession(hdr.peer, hdr.src, random, now);
    assert forall i :: 0 <= i < |slots| ==> !Matches(slots[i], hdr) by {
      var found := Position(slots, x => Matches(x, hdr));
    }
    assert Position(hole, x => Matches(x, hdr)).None?;
    OneHole(hole, lru, s);
    assert hole[lru := Some(s)] == slots[lru := Some(s)];
  }

  /** A packet is turned away for want of a session only when the eviction fails;
      `Invalid` never comes from the second look-up. */
  lemma RecvFindsRoom(t: Tables, p: Packet, first: nat, random: nat, now: nat, clockOk: bool, io: Io)
    requires Inv(t)
    requires var lru := Lru(t.slots, now); UsersOf(t.exchanges, lru) == {} || first in UsersOf(t.exchanges, lru)
    requires AfterPostRecv(t.slots, p.hdr, random, now).r == Ok(None)
    ensures var lru := Lru(t.slots, now); var h := Recv(t, p, first, random, now, clockOk, io);
            lru < MAX_SESSIONS &&
            var d := Evict(t, lru, first, now, io);
            if d.r.Fail? then h == Heard(d.t, Err(d.r.error))
            else h == Deliver(Replaced(t, lru, NewSession(p.hdr.peer, p.hdr.src, random, now)), lru, p, now, clockOk)
  {
    hide Evict, UsersOf, Lru, Deliver, Matches;
    var lru := Lru(t.slots, now);
    LruIsOldest(t.slots, now);
    EvictExact(t, lru, first, now, io);
    PostRecvFindsRoom(t.slots, lru, p.hdr, random, now);
  }

  /** The tables after the session in slot `i` and its exchanges made room for `s`. */
  function Replaced(t: Tables, i: nat, s: Session): Tables
    requires i < |t.slots|
  {
    Tables(t.slots[i := Some(s)], t.exchanges - UsersOf(t.exchanges, i))
  }

  // ---------------------------------------------------------------- what a step does to one exchange

  /** The exchange is still there, on the same session, and its reliability state
      went through `es`. */
  ghost predicate Kept(t: Tables, u: Tables, id: nat, es: seq<Event>) {
    id in t.exchanges && id in u.exchanges && Placed(t, id, t.exchanges[id])
    && SameExchange(t.exchanges[id], u.exchanges[id])
    && |u.slots| == |t.slots| && SameSession(t.slots[t.exchanges[id].sessIdx], u.slots[t.exchanges[id].sessIdx])
    && u.exchanges[id].mrp == Run(t.exchanges[id].mrp, es)
  }

  lemma KeptAsIs(t: Tables, id: nat)
    requires Inv(t) && id in t.exchanges
    ensures Kept(t, t, id, [])
  {
    assert Placed(t, id, t.exchanges[id]);
  }

  lemma KeptThen(t: Tables, u: Tables, v: Tables, id: nat, es: seq<Event>, fs: seq<Event>)
    requires Kept(t, u, id, es) && Kept(u, v, id, fs)
    ensures Kept(t, v, id, es + fs)
  {
    RunConcat(t.exchanges[id].mrp, es, fs);
  }

  /** The events of a message sent on `on`, seen from `id`. */
  function SendEvents(t: Tables, on: nat, reliable: bool, id: nat): seq<Event>
    requires on in t.exchanges && Placed(t, on, t.exchanges[on])
  {
    if on == id then [Event.Send(t.slots[t.exchanges[on].sessIdx].value.msgCtr, reliable)] else []
  }

  lemma SendKept(t: Tables, on: nat, reliable: bool, now: nat, io: Io, id: nat)
    requires Inv(t) && on in t.exchanges && id in t.exchanges
    ensures Kept(t, SendOn(t, on, reliable, now, io).t, id, SendEvents(t, on, reliable, id))
  {
    assert Placed(t, id, t.exchanges[id]) && Placed(t, on, t.exchanges[on]);
    var e := t.exchanges[on];
    var s := t.slots[e.sessIdx].value;
    var send := Event.Send(s.msgCtr, reliable);
    assert [send][1..] == [];
    assert Run(e.mrp, [send]) == Run(Step(e.mrp, send), []) == AfterSend(e.mrp, s.msgCtr, reliable).mrp;
  }

  lemma WithoutSessionKept(t: Tables, index: nat, id: nat)
    requires Inv(t) && index < MAX_SESSIONS && id in t.exchanges && t.exchanges[id].sessIdx != index
    ensures Kept(t, WithoutSession(t, index), id, [])
  {
    assert Placed(t, id, t.exchanges[id]);
  }

  function EvictEvents(t: Tables, index: nat, first: nat, io: Io, id: nat): seq<Event>
    requires Inv(t) && (UsersOf(t.exchanges, index) == {} || first in UsersOf(t.exchanges, index))
  {
    if io.build.Fail? || UsersOf(t.exchanges, index) == {} then [] else SendEvents(t, first, false, id)
  }

  lemma EvictKept(t: Tables, index: nat, first: nat, now: nat, io: Io, id: nat)
    requires Inv(t) && index < MAX_SESSIONS && id in t.exchanges
    requires UsersOf(t.exchanges, index) == {} || first in UsersOf(t.exchanges, index)
    requires Evict(t, index, first, now, io).r.Pass? ==> t.exchanges[id].sessIdx != index
    ensures Kept(t, Evict(t, index, first, now, io).t, id, EvictEvents(t, index, first, io, id))
  {
    if io.build.Fail? {
      KeptAsIs(t, id);
    } else if UsersOf(t.exchanges, index) == {} {
      WithoutSessionKept(t, index, id);
    } else {
      assert first in t.exchanges && t.exchanges[first].sessIdx == index;
      SendKept(t, first, false, now, io, id);
      if SendOn(t, first, false, now, io).r.Pass? {
        EvictWithClose(t, index, first, now, io);
        WithoutSessionKept(t, index, id);
      }
    }
  }

  /** A session put into a free slot touches no exchange. */
  lemma FillKept(t: Tables, i: nat, s: Session, id: nat)
    requires Inv(t) && i < MAX_SESSIONS && t.slots[i].None? && id in t.exchanges
    ensures Kept(t, Tables(t.slots[i := Some(s)], t.exchanges), id, [])
  {
    assert Placed(t, id, t.exchanges[id]);
  }

  lemma ReplacedKept(t: Tables, i: nat, s: Session, id: nat)
    requires Inv(t) && i < MAX_SESSIONS && id in t.exchanges && t.exchanges[id].sessIdx != i
    ensures Inv(Replaced(t, i, s)) && Kept(t, Replaced(t, i, s), id, [])
  {
    ReplacedKeeps(t, i, s);
    assert Placed(t, id, t.exchanges[id]);
  }

  lemma ReplacedKeeps(t: Tables, i: nat, s: Session)
    requires Inv(t) && i < MAX_SESSIONS
    ensures Inv(Replaced(t, i, s))
  {
    WithoutSessionKeeps(t, i);
    var u, w := Replaced(t, i, s), WithoutSession(t, i);
    forall id | id in u.exchanges
      ensures Placed(u, id, u.exchanges[id])
    {
      assert Placed(w, id, w.exchanges[id]);
    }
  }

  function DeliverEvents(exchanges: map<nat, Exchange>, index: nat, p: Packet, clockOk: bool, id: nat): seq<Event> {
    if p.proto.Ok? && p.proto.value.exchId == id
       && Get(exchanges, index, id, if p.proto.value.initiator then Responder else Initiator, p.proto.value.initiator).r.Pass?
    then [Event.Recv(p.proto.value.rx, clockOk)]
    else []
  }

  lemma DeliverKept(t: Tables, index: nat, p: Packet, now: nat, clockOk: bool, id: nat)
    requires Inv(t) && index < MAX_SESSIONS && t.slots[index].Some? && id in t.exchanges
    ensures Kept(t, Deliver(t, index, p, now, clockOk).t, id, DeliverEvents(t.exchanges, index, p, clockOk, id))
  {
    assert Placed(t, id, t.exchanges[id]);
    if p.proto.Ok? {
      var recv := Event.Recv(p.proto.value.rx, clockOk);
      var m := t.exchanges[id].mrp;
      assert [recv][1..] == [];
      assert Run(m, [recv]) == Run(Step(m, recv), []) == AfterRecv(m, recv.rx, clockOk).mrp;
    }
  }

  lemma DeliverKeeps(t: Tables, index: nat, p: Packet, now: nat, clockOk: bool)
    requires Inv(t) && index < MAX_SESSIONS && t.slots[index].Some?
    ensures var h := Deliver(t, index, p, now, clockOk);
            Inv(h.t) && t.exchanges.Keys <= h.t.exchanges.Keys
  {
    hide Inv, Get, AfterRecv;
    SlotCount(t);
    var used := Tables(t.slots[index := Some(t.slots[index].value.(lastUse := now))], t.exchanges);
    UseKeeps(t, index, now);
    if p.proto.Ok? {
      var id := p.proto.value.exchId;
      var role := if p.proto.value.initiator then Responder else Initiator;
      var got := Get(t.exchanges, index, id, role, p.proto.value.initiator);
      GetKeeps(used, index, id, role, p.proto.value.initiator);
      if got.r.Pass? {
        MrpKeeps(Tables(used.slots, got.exchanges), id, AfterRecv(got.exchanges[id].mrp, p.proto.value.rx, clockOk).mrp);
      }
    }
  }

  lemma SlotCount(t: Tables)
    requires Inv(t)
    ensures |t.slots| == MAX_SESSIONS
  {
  }

  lemma UseKeeps(t: Tables, index: nat, now: nat)
    requires Inv(t) && index < MAX_SESSIONS && t.slots[index].Some?
    ensures var u := Tables(t.slots[index := Some(t.slots[index].value.(lastUse := now))], t.exchanges);
            Inv(u) && u.slots[index].Some? && |u.slots| == MAX_SESSIONS
  {
    var u := Tables(t.slots[index := Some(t.slots[index].value.(lastUse := now))], t.exchanges);
    forall k | k in u.exchanges
      ensures Placed(u, k, u.exchanges[k])
    {
      assert Placed(t, k, t.exchanges[k]);
    }
  }

  lemma MrpKeeps(t: Tables, id: nat, m: Mrp)
    requires Inv(t) && id in t.exchanges
    ensures Inv(t.(exchanges := t.exchanges[id := t.exchanges[id].(mrp := m)]))
    ensures t.exchanges[id := t.exchanges[id].(mrp := m)].Keys == t.exchanges.Keys
  {
    var u := t.(exchanges := t.exchanges[id := t.exchanges[id].(mrp := m)]);
    assert u.exchanges.Keys == t.exchanges.Keys;
    assert |u.exchanges| == |u.exchanges.Keys| && |t.exchanges| == |t.exchanges.Keys|;
    forall k | k in u.exchanges
      ensures Placed(u, k, u.exchanges[k])
    {
      assert Placed(t, k, t.exchanges[k]);
    }
  }

  lemma GetKeeps(t: Tables, index: nat, id: nat, role: Role, create: bool)
    requires Inv(t) && index < MAX_SESSIONS && t.slots[index].Some?
    ensures var got := Get(t.exchanges, index, id, role, create);
            Inv(Tables(t.slots, got.exchanges)) && t.exchanges.Keys <= got.exchanges.Keys
            && (got.r.Pass? ==> id in got.exchanges && got.exchanges[id].sessIdx == index && got.exchanges[id].role == role)
  {
    var got := Get(t.exchanges, index, id, role, create);
    if id !in t.exchanges && got.r.Pass? {
      assert got.exchanges.Keys == t.exchanges.Keys + {id};
      assert |got.exchanges| == |got.exchanges.Keys| && |t.exchanges| == |t.exchanges.Keys|;
    }
  }

  /** A message is handed on for an exchange of its own session, with the role that
      answers the sender's; a new exchange is begun only for an initiator, and only
      while there is room. */
  lemma DeliveredToItsExchange(t: Tables, index: nat, p: Packet, now: nat, clockOk: bool)
    requires Inv(t) && index < MAX_SESSIONS && t.slots[index].Some?
    ensures var h := Deliver(t, index, p, now, clockOk);
            (h.r.Ok? ==>
              p.proto.Ok? &&
              var proto := p.proto.value;
              proto.exchId in h.t.exchanges &&
              var e := h.t.exchanges[proto.exchId];
              e.sessIdx == index && e.role == (if proto.initiator then Responder else Initiator)
              && h.r.value == (if e.isOpen then Some(proto.exchId) else None)
              && (proto.exchId !in t.exchanges ==> proto.initiator && e.isOpen && |t.exchanges| < MAX_EXCHANGES))
            && (forall id :: id in h.t.exchanges && id !in t.exchanges ==> p.proto.Ok? && id == p.proto.value.exchId)
            && (p.proto.Ok? && p.proto.value.exchId in t.exchanges
                && (t.exchanges[p.proto.value.exchId].sessIdx != index
                    || t.exchanges[p.proto.value.exchId].role != (if p.proto.value.initiator then Responder else Initiator)) ==>
                h.r == Err(NoExchange) && h.t.exchanges == t.exchanges)
  {
    hide Inv, AfterRecv;
    if p.proto.Ok? {
      GetKeeps(t, index, p.proto.value.exchId, if p.proto.value.initiator then Responder else Initiator, p.proto.value.initiator);
    }
  }

  // ---------------------------------------------------------------- steps and runs

  /** A step with everything that happens outside. `first` is the exchange the
      source's map lists first among those of an evicted session. */
  datatype Move =
    | MRecv(p: Packet, first: nat, random: nat, now: nat, clockOk: bool, io: Io)
    | MSend(id: nat, reliable: bool, now: nat, io: Io)
    | MClose(id: nat)
    | MPurge
    | MEvict(index: nat, first: nat, now: nat, io: Io)
    | MJoin(s: Session, first: nat, now: nat, io: Io)

  predicate ListedFirst(t: Tables, index: nat, first: nat) {
    UsersOf(t.exchanges, index) == {} || first in UsersOf(t.exchanges, index)
  }

  predicate Enabled(t: Tables, m: Move) {
    match m
    case MRecv(_, first, _, now, _, _) => ListedFirst(t, Lru(t.slots, now), first)
    case MEvict(index, first, _, _) => index < MAX_SESSIONS && ListedFirst(t, index, first)
    case MJoin(_, first, now, _) => ListedFirst(t, Lru(t.slots, now), first)
    case _ => true
  }

  function After(t: Tables, m: Move): Tables
    requires Inv(t) && Enabled(t, m)
  {
    match m
    case MRecv(p, first, random, now, clockOk, io) => Recv(t, p, first, random, now, clockOk, io).t
    case MSend(id, reliable, now, io) => Send(t, id, reliable, now, io).t
    case MClose(id) => Close(t, id)
    case MPurge => Purge(t)
    case MEvict(index, first, now, io) => Evict(t, index, first, now, io).t
    case MJoin(s, first, now, io) => Join(t, s, first, now, io).t
  }

  /** The slot whose session and exchanges a step gives up. */
  function Evicted(t: Tables, m: Move): Option<nat>
    requires Inv(t) && Enabled(t, m)
  {
    match m
    case MRecv(p, first, random, now, _, io) =>
      LruIsOldest(t.slots, now);
      if AfterPostRecv(t.slots, p.hdr, random, now).r == Ok(None) && Evict(t, Lru(t.slots, now), first, now, io).r.Pass?
      then Some(Lru(t.slots, now))
      else None
    case MEvict(index, first, now, io) => if Evict(t, index, first, now, io).r.Pass? then Some(index) else None
    case MJoin(_, first, now, io) =>
      LruIsOldest(t.slots, now);
      if Full(t.slots) && Evict(t, Lru(t.slots, now), first, now, io).r.Pass? then Some(Lru(t.slots, now)) else None
    case _ => None
  }

  /** The step leaves the exchange in the table. */
  ghost predicate Spares(t: Tables, m: Move, id: nat)
    requires Inv(t) && Enabled(t, m)
  {
    id in t.exchanges && Evicted(t, m) != Some(t.exchanges[id].sessIdx) && !(m.MPurge? && t.exchanges[id].IsPurgeable())
  }

  /** What a step means for the reliability state of an exchange it spares. */
  function EventsOf(t: Tables, m: Move, id: nat): seq<Event>
    requires Inv(t) && Enabled(t, m)
  {
    match m
    case MRecv(p, first, random, now, clockOk, io) =>
      PostRecvMatches(t.slots, p.hdr, random, now);
      var r := AfterPostRecv(t.slots, p.hdr, random, now).r;
      if r.Err? then []
      else if r.value.Some? then DeliverEvents(t.exchanges, r.value.value, p, clockOk, id)
      else
        LruIsOldest(t.slots, now);
        var lru := Lru(t.slots, now);
        if Evict(t, lru, first, now, io).r.Fail? then EvictEvents(t, lru, first, io, id)
        else DeliverEvents(t.exchanges - UsersOf(t.exchanges, lru), lru, p, clockOk, id)
    case MSend(on, reliable, _, _) => if on in t.exchanges then SendEvents(t, on, reliable, id) else []
    case MEvict(index, first, now, io) => if Evict(t, index, first, now, io).r.Pass? then [] else EvictEvents(t, index, first, io, id)
    case MJoin(_, first, now, io) =>
      LruIsOldest(t.slots, now);
      if Full(t.slots) && Evict(t, Lru(t.slots, now), first, now, io).r.Fail?
      then EvictEvents(t, Lru(t.slots, now), first, io, id)
      else []
    case _ => []
  }

  lemma PurgeKeeps(t: Tables)
    requires Inv(t)
    ensures Inv(Purge(t))
  {
    FewerKeys(t.exchanges, set id | id in t.exchanges && t.exchanges[id].IsPurgeable());
    forall k | k in Purge(t).exchanges
      ensures Placed(Purge(t), k, Purge(t).exchanges[k])
    {
      assert Placed(t, k, t.exchanges[k]);
    }
  }

  lemma CloseKeeps(t: Tables, id: nat)
    requires Inv(t)
    ensures Inv(Close(t, id)) && Close(t, id).exchanges.Keys == t.exchanges.Keys
  {
    if id in t.exchanges {
      var u := Close(t, id);
      assert u.exchanges.Keys == t.exchanges.Keys;
      assert |u.exchanges| == |u.exchanges.Keys| && |t.exchanges| == |t.exchanges.Keys|;
      forall k | k in u.exchanges
        ensures Placed(u, k, u.exchanges[k])
      {
        assert Placed(t, k, t.exchanges[k]);
      }
    }
  }

  lemma FillKeeps(t: Tables, i: nat, s: Session)
    requires Inv(t) && i < MAX_SESSIONS
    ensures Inv(Tables(t.slots[i := Some(s)], t.exchanges))
  {
    var u := Tables(t.slots[i := Some(s)], t.exchanges);
    forall k | k in u.exchanges
      ensures Placed(u, k, u.exchanges[k])
    {
      assert Placed(t, k, t.exchanges[k]);
    }
  }

  /** The session look-up without eviction: nothing changes, or a free slot is filled. */
  lemma PostRecvKeeps(t: Tables, hdr: Plain, random: nat, now: nat)
    requires Inv(t)
    ensures var a := AfterPostRecv(t.slots, hdr, random, now);
            Inv(Tables(a.slots, t.exchanges)) && forall id :: id in t.exchanges ==> Kept(t, Tables(a.slots, t.exchanges), id, [])
  {
    hide AfterPostRecv, Kept;
    var a := AfterPostRecv(t.slots, hdr, random, now);
    PostRecvMatches(t.slots, hdr, random, now);
    forall id | id in t.exchanges
      ensures Kept(t, Tables(a.slots, t.exchanges), id, [])
    {
      KeptAsIs(t, id);
      if a.slots != t.slots {
        var i := a.r.value.value;
        FillKept(t, i, a.slots[i].value, id);
      }
    }
    if a.slots != t.slots {
      FillKeeps(t, a.r.value.value, a.slots[a.r.value.value].value);
    }
  }

  /** Every step keeps the invariant. */
  lemma InvKept(t: Tables, m: Move)
    requires Inv(t) && Enabled(t, m)
    ensures Inv(After(t, m))
  {
    hide Inv, Evict, SendOn, Deliver, AfterPostRecv, Lru, Purge, Close;
    match m
    case MRecv(p, first, random, now, clockOk, io) => RecvKeeps(t, p, first, random, now, clockOk, io);
    case MSend(id, reliable, now, io) =>
      if id in t.exchanges {
        SendOnKeeps(t, id, reliable, now, io);
      }
    case MClose(id) => CloseKeeps(t, id);
    case MPurge => PurgeKeeps(t);
    case MEvict(index, first, now, io) => EvictExact(t, index, first, now, io);
    case MJoin(s, first, now, io) => JoinKeeps(t, s, first, now, io);
  }

  lemma JoinKeeps(t: Tables, s: Session, first: nat, now: nat, io: Io)
    requires Inv(t) && ListedFirst(t, Lru(t.slots, now), first)
    ensures Inv(Join(t, s, first, now, io).t)
  {
    hide Inv, Join, Evict, Lru, UsersOf;
    var lru := Lru(t.slots, now);
    JoinFindsRoom(t, s, first, now, io);
    if !Full(t.slots) {
      FillKeeps(t, Join(t, s, first, now, io).r.value, s);
    } else {
      EvictExact(t, lru, first, now, io);
      ReplacedKeeps(t, lru, s);
    }
  }

  lemma RecvKeeps(t: Tables, p: Packet, first: nat, random: nat, now: nat, clockOk: bool, io: Io)
    requires Inv(t) && ListedFirst(t, Lru(t.slots, now), first)
    ensures Inv(Recv(t, p, first, random, now, clockOk, io).t)
  {
    hide Inv, Evict, Lru, UsersOf, Deliver, Matches, AfterPostRecv;
    var lru := Lru(t.slots, now);
    var a := AfterPostRecv(t.slots, p.hdr, random, now);
    PostRecvMatches(t.slots, p.hdr, random, now);
    PostRecvKeeps(t, p.hdr, random, now);
    SlotCount(t);
    if a.r == Ok(None) {
      RecvFindsRoom(t, p, first, random, now, clockOk, io);
      EvictExact(t, lru, first, now, io);
      var s := NewSession(p.hdr.peer, p.hdr.src, random, now);
      ReplacedKeeps(t, lru, s);
      if Evict(t, lru, first, now, io).r.Pass? {
        DeliverKeeps(Replaced(t, lru, s), lru, p, now, clockOk);
      }
    } else if a.r.Ok? {
      MatchedIsSession(a.slots[a.r.value.value], p.hdr);
      DeliverKeeps(Tables(a.slots, t.exchanges), a.r.value.value, p, now, clockOk);
    }
  }

  lemma MatchedIsSession(slot: Option<Session>, hdr: Plain)
    requires Matches(slot, hdr)
    ensures slot.Some?
  {
  }

  /** A step leaves an exchange it spares in place: same session, same role, and a
      reliability state that only its own messages moved. */
  lemma SparedIsKept(t: Tables, m: Move, id: nat)
    requires Inv(t) && Enabled(t, m) && Spares(t, m, id)
    ensures Kept(t, After(t, m), id, EventsOf(t, m, id))
  {
    match m {
      case MRecv(p, first, random, now, clockOk, io) => RecvKept(t, p, first, random, now, clockOk, io, id);
      case MSend(on, reliable, now, io) =>
        if on in t.exchanges {
          SendKept(t, on, reliable, now, io, id);
        } else {
          KeptAsIs(t, id);
        }
      case MEvict(index, first, now, io) =>
        EvictKept(t, index, first, now, io, id);
        OthersNotFirst(t, index, first, io, id);
      case MJoin(s, first, now, io) => JoinKept(t, s, first, now, io, id);
      case _ => KeptAsIs(t, id);
    }
  }

  /** The closing message goes out on an exchange of the evicted session. */
  lemma OthersNotFirst(t: Tables, index: nat, first: nat, io: Io, id: nat)
    requires Inv(t) && ListedFirst(t, index, first) && id in t.exchanges
    ensures t.exchanges[id].sessIdx != index ==> EvictEvents(t, index, first, io, id) == []
  {
  }

  lemma JoinKept(t: Tables, s: Session, first: nat, now: nat, io: Io, id: nat)
    requires Inv(t) && Enabled(t, MJoin(s, first, now, io)) && Spares(t, MJoin(s, first, now, io), id)
    ensures Kept(t, Join(t, s, first, now, io).t, id, EventsOf(t, MJoin(s, first, now, io), id))
  {
    hide Inv, Join, Evict, Lru, UsersOf, EvictEvents, Kept;
    SlotCount(t);
    var lru := Lru(t.slots, now);
    JoinFindsRoom(t, s, first, now, io);
    if !Full(t.slots) {
      FillKept(t, Join(t, s, first, now, io).r.value, s, id);
    } else if Evict(t, lru, first, now, io).r.Pass? {
      ReplacedKept(t, lru, s, id);
    } else {
      EvictKept(t, lru, first, now, io, id);
    }
  }

  lemma RecvKept(t: Tables, p: Packet, first: nat, random: nat, now: nat, clockOk: bool, io: Io, id: nat)
    requires var m := MRecv(p, first, random, now, clockOk, io); Inv(t) && Enabled(t, m) && Spares(t, m, id)
    ensures var m := MRecv(p, first, random, now, clockOk, io);
            Kept(t, Recv(t, p, first, random, now, clockOk, io).t, id, EventsOf(t, m, id))
  {
    hide Inv, Evict, Lru, UsersOf, Deliver, Matches, AfterPostRecv, EvictEvents, DeliverEvents, Kept;
    SlotCount(t);
    var lru := Lru(t.slots, now);
    var a := AfterPostRecv(t.slots, p.hdr, random, now);
    PostRecvMatches(t.slots, p.hdr, random, now);
    PostRecvKeeps(t, p.hdr, random, now);
    if a.r == Ok(None) {
      RecvFindsRoom(t, p, first, random, now, clockOk, io);
      if Evict(t, lru, first, now, io).r.Fail? {
        EvictKept(t, lru, first, now, io, id);
      } else {
        var s := NewSession(p.hdr.peer, p.hdr.src, random, now);
        ReplacedKept(t, lru, s, id);
        ThenDelivered(t, Replaced(t, lru, s), lru, p, now, clockOk, id);
      }
    } else if a.r.Ok? {
      MatchedIsSession(a.slots[a.r.value.value], p.hdr);
      ThenDelivered(t, Tables(a.slots, t.exchanges), a.r.value.value, p, now, clockOk, id);
    }
  }

  lemma ThenDelivered(t: Tables, u: Tables, index: nat, p: Packet, now: nat, clockOk: bool, id: nat)
    requires Inv(u) && Kept(t, u, id, []) && index < MAX_SESSIONS && u.slots[index].Some?
    ensures Kept(t, Deliver(u, index, p, now, clockOk).t, id, DeliverEvents(u.exchanges, index, p, clockOk, id))
  {
    hide Inv, Deliver;
    SlotCount(u);
    var v := Deliver(u, index, p, now, clockOk).t;
    DeliverKept(u, index, p, now, clockOk, id);
    KeptThen(t, u, v, id, [], DeliverEvents(u.exchanges, index, p, clockOk, id));
    assert [] + DeliverEvents(u.exchanges, index, p, clockOk, id) == DeliverEvents(u.exchanges, index, p, clockOk, id);
  }

  /** The moves can be made one after the other. The invariant is asked of the first
      state only: every step keeps it. */
  ghost predicate Runs(t: Tables, ms: seq<Move>)
    requires Inv(t)
    decreases |ms|
  {
    ms == [] || (Enabled(t, ms[0]) && (InvKept(t, ms[0]); Runs(After(t, ms[0]), ms[1..])))
  }

  /** Where a run ends. */
  ghost function End(t: Tables, ms: seq<Move>): Tables
    requires Inv(t) && Runs(t, ms)
    decreases |ms|
  {
    if ms == [] then t
    else
      InvKept(t, ms[0]);
      End(After(t, ms[0]), ms[1..])
  }

  ghost predicate SparesAll(t: Tables, ms: seq<Move>, id: nat)
    requires Inv(t) && Runs(t, ms)
    decreases |ms|
  {
    if ms == [] then id in t.exchanges
    else
      InvKept(t, ms[0]);
      Spares(t, ms[0], id) && SparesAll(After(t, ms[0]), ms[1..], id)
  }

  /** What a run means for the reliability state of one exchange. */
  ghost function History(t: Tables, ms: seq<Move>, id: nat): seq<Event>
    requires Inv(t) && Runs(t, ms)
    decreases |ms|
  {
    if ms == [] then []
    else
      InvKept(t, ms[0]);
      EventsOf(t, ms[0], id) + History(After(t, ms[0]), ms[1..], id)
  }

  /** A run that starts in a state with the invariant ends in one. The states a run
      goes through are the ends of its first parts. */
  lemma {:induction false} InvAlways(t: Tables, ms: seq<Move>)
    requires Inv(t) && Runs(t, ms)
    ensures Inv(End(t, ms))
    decreases |ms|
  {
    hide Inv, Enabled, After;
    if ms != [] {
      InvKept(t, ms[0]);
      InvAlways(After(t, ms[0]), ms[1..]);
    }
  }

  /** A first part of a run is a run, and the moves behind it run from where it ends. */
  lemma {:induction false} RunParts(t: Tables, ms: seq<Move>, k: nat)
    requires Inv(t) && Runs(t, ms) && k <= |ms|
    ensures Runs(t, ms[..k]) && Inv(End(t, ms[..k]))
    ensures Runs(End(t, ms[..k]), ms[k..]) && End(End(t, ms[..k]), ms[k..]) == End(t, ms)
    decreases k
  {
    hide Inv, Enabled, After;
    if k == 0 {
      assert ms[..0] == [] && ms[0..] == ms;
    } else {
      var first := ms[..k];
      InvKept(t, ms[0]);
      RunParts(After(t, ms[0]), ms[1..], k - 1);
      assert first[0] == ms[0] && first[1..] == ms[1..][..k - 1] && ms[1..][k - 1..] == ms[k..];
    }
  }

  /** Over a run that spares it, an exchange never moves to another session, and its
      reliability state is that of a run of the protocol. */
  lemma {:induction false} ExchangesStayPut(t: Tables, ms: seq<Move>, id: nat)
    requires Inv(t) && Runs(t, ms) && SparesAll(t, ms, id)
    ensures Kept(t, End(t, ms), id, History(t, ms, id))
    decreases |ms|
  {
    hide Inv, Kept, Enabled, Spares, After, EventsOf;
    if ms == [] {
      KeptAsIs(t, id);
    } else {
      InvKept(t, ms[0]);
      var u := After(t, ms[0]);
      SparedIsKept(t, ms[0], id);
      ExchangesStayPut(u, ms[1..], id);
      KeptThen(t, u, End(t, ms), id, EventsOf(t, ms[0], id), History(u, ms[1..], id));
    }
  }

  /** An exchange that a step does not spare is one that was purged, settled, or
      its session was evicted; then it is gone, unless the packet that evicted it
      began a new exchange of that id. */
  lemma NotSparedIsGone(t: Tables, m: Move, id: nat)
    requires Inv(t) && Enabled(t, m) && id in t.exchanges && !Spares(t, m, id)
    ensures m.MPurge? || Evicted(t, m) == Some(t.exchanges[id].sessIdx)
    ensures id in After(t, m).exchanges ==>
              m.MRecv? && m.p.proto.Ok? && m.p.proto.value.exchId == id && m.p.proto.value.initiator
              && After(t, m).exchanges[id].isOpen && After(t, m).exchanges[id].role == Responder
  {
    hide Inv, Lru, Matches, AfterPostRecv, AfterRecv;
    match m {
      case MRecv(p, first, random, now, clockOk, io) =>
        var s := NewSession(p.hdr.peer, p.hdr.src, random, now);
        RecvFindsRoom(t, p, first, random, now, clockOk, io);
      case MEvict(index, first, now, io) => EvictExact(t, index, first, now, io);
      case MJoin(s, first, now, io) => JoinFindsRoom(t, s, first, now, io);
      case _ =>
    }
  }

  // ---------------------------------------------------------------- the life of an exchange

  /** The tables a program starts with. */
  ghost function Empty(): (t: Tables)
    ensures Inv(t) && t.exchanges == map[] && forall i :: 0 <= i < MAX_SESSIONS ==> t.slots[i].None?
  {
    Tables(seq(MAX_SESSIONS, i => None), map[])
  }

  /** A run of the program: it starts with empty tables. */
  ghost predicate FromEmpty(ms: seq<Move>) {
    Runs(Empty(), ms)
  }

  ghost function Reached(ms: seq<Move>): Tables
    requires FromEmpty(ms)
  {
    End(Empty(), ms)
  }

  /** In every state of a run from empty tables, each exchange is stored under its own
      id and uses an occupied slot, there are at most eight, and every enabled step
      leads to such a state again. */
  lemma ReachedInv(ms: seq<Move>, k: nat)
    requires FromEmpty(ms) && k <= |ms|
    ensures FromEmpty(ms[..k])
    ensures var t := Reached(ms[..k]);
            |t.slots| == 16 && |t.exchanges| <= 8
            && (forall id :: id in t.exchanges ==>
                 t.exchanges[id].id == id && t.exchanges[id].sessIdx < 16 && t.slots[t.exchanges[id].sessIdx].Some?)
            && Inv(t) && forall m :: Enabled(t, m) ==> Inv(After(t, m))
  {
    hide Runs, End, Enabled, After;
    RunParts(Empty(), ms, k);
    var t := Reached(ms[..k]);
    forall m | Enabled(t, m)
      ensures Inv(After(t, m))
    {
      InvKept(t, m);
    }
    forall id | id in t.exchanges
      ensures t.exchanges[id].id == id && t.exchanges[id].sessIdx < 16 && t.slots[t.exchanges[id].sessIdx].Some?
    {
      assert Placed(t, id, t.exchanges[id]);
    }
  }

  lemma DeliverBegins(t: Tables, index: nat, p: Packet, now: nat, clockOk: bool, id: nat)
    requires index < |t.slots| && t.slots[index].Some?
    requires id !in t.exchanges && id in Deliver(t, index, p, now, clockOk).t.exchanges
    ensures p.proto.Ok? && p.proto.value.exchId == id
    ensures Deliver(t, index, p, now, clockOk).t.exchanges[id].mrp == Run(NEW, [Event.Recv(p.proto.value.rx, clockOk)])
  {
    assert p.proto.Ok?;
    var recv := Event.Recv(p.proto.value.rx, clockOk);
    assert [recv][1..] == [];
    assert Run(NEW, [recv]) == Run(Step(NEW, recv), []) == AfterRecv(NEW, recv.rx, clockOk).mrp;
  }

  /** An exchange that is in the table after a step which spared none of its id was
      begun by the packet of that step, and has heard nothing else. */
  lemma BegunByPacket(t: Tables, m: Move, id: nat)
    requires Inv(t) && Enabled(t, m) && !Spares(t, m, id) && id in After(t, m).exchanges
    ensures m.MRecv? && m.p.proto.Ok? && m.p.proto.value.exchId == id
    ensures After(t, m).exchanges[id].mrp == Run(NEW, [Event.Recv(m.p.proto.value.rx, m.clockOk)])
  {
    hide Inv, Lru, Matches, AfterPostRecv, Deliver, Run, Evict, SendOn, UsersOf;
    SlotCount(t);
    if id in t.exchanges {
      NotSparedIsGone(t, m, id);
    }
    match m {
      case MRecv(p, first, random, now, clockOk, io) => PacketBegins(t, p, first, random, now, clockOk, io, id);
      case MSend(on, reliable, now, io) =>
        if on in t.exchanges {
          SendOnKeeps(t, on, reliable, now, io);
        }
      case MClose(on) =>
      case MPurge =>
      case MEvict(index, first, now, io) => EvictExact(t, index, first, now, io);
      case MJoin(s, first, now, io) =>
        JoinFindsRoom(t, s, first, now, io);
        EvictExact(t, Lru(t.slots, now), first, now, io);
    }
  }

  lemma PacketBegins(t: Tables, p: Packet, first: nat, random: nat, now: nat, clockOk: bool, io: Io, id: nat)
    requires var m := MRecv(p, first, random, now, clockOk, io);
             Inv(t) && Enabled(t, m) && !Spares(t, m, id) && id in After(t, m).exchanges
    ensures p.proto.Ok? && p.proto.value.exchId == id
    ensures Recv(t, p, first, random, now, clockOk, io).t.exchanges[id].mrp == Run(NEW, [Event.Recv(p.proto.value.rx, clockOk)])
  {
    hide Inv, Lru, Matches, AfterPostRecv, Deliver, Run, Evict;
    SlotCount(t);
    var lru := Lru(t.slots, now);
    var a := AfterPostRecv(t.slots, p.hdr, random, now);
    PostRecvMatches(t.slots, p.hdr, random, now);
    if a.r == Ok(None) {
      RecvFindsRoom(t, p, first, random, now, clockOk, io);
      EvictExact(t, lru, first, now, io);
      if Evict(t, lru, first, now, io).r.Pass? {
        DeliverBegins(Replaced(t, lru, NewSession(p.hdr.peer, p.hdr.src, random, now)), lru, p, now, clockOk, id);
      }
    } else if a.r.Ok? {
      MatchedIsSession(a.slots[a.r.value.value], p.hdr);
      DeliverBegins(Tables(a.slots, t.exchanges), a.r.value.value, p, now, clockOk, id);
    }
  }

  /** The events of the exchange that has an id at the end of a run, since it was begun. */
  ghost function Life(t: Tables, ms: seq<Move>, id: nat, es: seq<Event>): seq<Event>
    requires Inv(t) && Runs(t, ms)
    decreases |ms|
  {
    if ms == [] then es
    else
      InvKept(t, ms[0]);
      Life(After(t, ms[0]), ms[1..], id, LifeStep(t, ms[0], id, es))
  }

  ghost function LifeStep(t: Tables, m: Move, id: nat, es: seq<Event>): seq<Event>
    requires Inv(t) && Enabled(t, m)
  {
    if Spares(t, m, id) then es + EventsOf(t, m, id)
    else if m.MRecv? && m.p.proto.Ok? then [Event.Recv(m.p.proto.value.rx, m.clockOk)]
    else []
  }

  /** The exchange's reliability state is the one the protocol is in after `es`. */
  ghost predicate Lived(t: Tables, id: nat, es: seq<Event>) {
    id in t.exchanges ==> t.exchanges[id].mrp == Run(NEW, es)
  }

  lemma LivesOn(t: Tables, m: Move, id: nat, es: seq<Event>)
    requires Inv(t) && Enabled(t, m) && Lived(t, id, es)
    ensures Lived(After(t, m), id, LifeStep(t, m, id, es))
  {
    hide Inv, Enabled, Spares, After, EventsOf, Run;
    if id in After(t, m).exchanges {
      if Spares(t, m, id) {
        SparedIsThere(t, m, id);
        SparedIsKept(t, m, id);
        RunConcat(NEW, es, EventsOf(t, m, id));
      } else {
        BegunByPacket(t, m, id);
      }
    }
  }

  lemma SparedIsThere(t: Tables, m: Move, id: nat)
    requires Inv(t) && Enabled(t, m) && Spares(t, m, id)
    ensures id in t.exchanges
  {
  }

  lemma {:induction false} LivesThrough(t: Tables, ms: seq<Move>, id: nat, es: seq<Event>)
    requires Inv(t) && Runs(t, ms) && Lived(t, id, es)
    ensures Lived(End(t, ms), id, Life(t, ms, id, es))
    decreases |ms|
  {
    hide Inv, Enabled, After, Lived, LifeStep;
    if ms != [] {
      InvKept(t, ms[0]);
      LivesOn(t, ms[0], id, es);
      LivesThrough(After(t, ms[0]), ms[1..], id, LifeStep(t, ms[0], id, es));
    }
  }

  /** The events of an exchange of a run from empty tables, since it was begun. */
  ghost function LifeOf(ms: seq<Move>, id: nat): seq<Event>
    requires FromEmpty(ms)
  {
    Life(Empty(), ms, id, [])
  }

  /** After any run from empty tables, every exchange is in the state of a run of the
      reliability protocol that began when the exchange did. */
  lemma ExchangesRunTheProtocol(ms: seq<Move>, id: nat)
    requires FromEmpty(ms) && id in Reached(ms).exchanges
    ensures Reached(ms).exchanges[id].mrp == Run(NEW, LifeOf(ms, id))
  {
    LivesThrough(Empty(), ms, id, []);
  }

  /** When a purge drops an exchange, all reliable messages it ever accepted have been
      acknowledged, and nothing it sent is awaited. */
  lemma PurgedIsSettled(ms: seq<Move>, id: nat)
    requires FromEmpty(ms)
    requires id in Reached(ms).exchanges && id !in Purge(Reached(ms)).exchanges
    ensures var es := LifeOf(ms, id);
            Accepted(NEW, es) == Stamped(NEW, es) && forall c: nat :: !AwaitedIn(es, c)
  {
    hide Life, Runs, End, Accepted, Stamped, AwaitedIn, Run;
    ExchangesRunTheProtocol(ms, id);
    EmptyMeansSettled(LifeOf(ms, id));
  }

  /** A purge drops an exchange while a message it sent is outstanding exactly if an
      acknowledgement of another counter has left that message unanswered; it never
      does when no acknowledgement the exchange heard strays. */
  lemma PurgedUnansweredIff(ms: seq<Move>, id: nat)
    requires FromEmpty(ms)
    requires id in Reached(ms).exchanges && id !in Purge(Reached(ms)).exchanges
    ensures var es := LifeOf(ms, id);
            (forall c: nat :: Outstanding(es, c) <==> LeftUnanswered(es, c))
            && ((forall k :: 0 <= k < |es| ==> !Strays(Run(NEW, es[..k]), es[k])) ==> forall c: nat :: !Outstanding(es, c))
  {
    hide Life, Runs, End, Outstanding, Run, Strays;
    var es := LifeOf(ms, id);
    ExchangesRunTheProtocol(ms, id);
    forall c: nat
      ensures Outstanding(es, c) <==> LeftUnanswered(es, c)
    {
      EmptyUnansweredIff(es, c);
    }
  }

  // ---------------------------------------------------------------- what a purge drops

  /** The exchange goes through the step: it is there before and after, and its session is
      not the one that was evicted for a new one. */
  ghost predicate LivesThroughStep(t: Tables, m: Move, id: nat)
    requires Inv(t) && Enabled(t, m)
  {
    id in t.exchanges && id in After(t, m).exchanges && Evicted(t, m) != Some(t.exchanges[id].sessIdx)
  }

  /** Its handler has closed the exchange since it was begun: such a move came, and it has
      lived through all moves since. */
  ghost predicate ClosedSince(t: Tables, ms: seq<Move>, id: nat, closed: bool)
    requires Inv(t) && Runs(t, ms)
    decreases |ms|
  {
    if ms == [] then closed
    else
      InvKept(t, ms[0]);
      ClosedSince(After(t, ms[0]), ms[1..], id, LivesThroughStep(t, ms[0], id) && (closed || ms[0] == MClose(id)))
  }

  lemma SendOnOpen(t: Tables, on: nat, reliable: bool, now: nat, io: Io, id: nat)
    requires Inv(t) && on in t.exchanges && id in t.exchanges
    ensures var u := SendOn(t, on, reliable, now, io).t;
            id in u.exchanges && u.exchanges[id].isOpen == t.exchanges[id].isOpen
  {
    assert Placed(t, on, t.exchanges[on]);
  }

  lemma EvictOpen(t: Tables, index: nat, first: nat, now: nat, io: Io, id: nat)
    requires Inv(t) && index < MAX_SESSIONS && ListedFirst(t, index, first) && id in t.exchanges
    ensures var u := Evict(t, index, first, now, io).t;
            id in u.exchanges ==> u.exchanges[id].isOpen == t.exchanges[id].isOpen
  {
    hide SendOn;
    if UsersOf(t.exchanges, index) != {} {
      SendOnOpen(t, first, false, now, io, id);
    }
  }

  /** A packet leaves the exchanges that are there open or closed as they are, and one that
      it begins is open. */
  lemma DeliverOpen(t: Tables, index: nat, p: Packet, now: nat, clockOk: bool, id: nat)
    requires index < |t.slots| && t.slots[index].Some?
    ensures var u := Deliver(t, index, p, now, clockOk).t;
            id in u.exchanges ==> u.exchanges[id].isOpen == (id !in t.exchanges || t.exchanges[id].isOpen)
  {
    hide AfterRecv;
  }

  lemma RecvOpen(t: Tables, p: Packet, first: nat, random: nat, now: nat, clockOk: bool, io: Io, id: nat)
    requires Inv(t) && ListedFirst(t, Lru(t.slots, now), first)
    ensures var u := Recv(t, p, first, random, now, clockOk, io).t; var gone := Evicted(t, MRecv(p, first, random, now, clockOk, io));
            id in u.exchanges ==>
              u.exchanges[id].isOpen == (id !in t.exchanges || gone == Some(t.exchanges[id].sessIdx) || t.exchanges[id].isOpen)
  {
    hide Inv, Evict, Lru, Deliver, Matches, AfterPostRecv;
    SlotCount(t);
    var lru := Lru(t.slots, now);
    LruIsOldest(t.slots, now);
    var a := AfterPostRecv(t.slots, p.hdr, random, now);
    PostRecvMatches(t.slots, p.hdr, random, now);
    if a.r == Ok(None) {
      RecvFindsRoom(t, p, first, random, now, clockOk, io);
      EvictExact(t, lru, first, now, io);
      if Evict(t, lru, first, now, io).r.Pass? {
        DeliverOpen(Replaced(t, lru, NewSession(p.hdr.peer, p.hdr.src, random, now)), lru, p, now, clockOk, id);
      } else if id in t.exchanges {
        EvictOpen(t, lru, first, now, io, id);
      }
    } else if a.r.Ok? {
      MatchedIsSession(a.slots[a.r.value.value], p.hdr);
      DeliverOpen(Tables(a.slots, t.exchanges), a.r.value.value, p, now, clockOk, id);
    }
  }

  lemma JoinOpen(t: Tables, s: Session, first: nat, now: nat, io: Io, id: nat)
    requires Inv(t) && ListedFirst(t, Lru(t.slots, now), first)
    ensures var u := Join(t, s, first, now, io).t;
            id in u.exchanges ==> id in t.exchanges && u.exchanges[id].isOpen == t.exchanges[id].isOpen
  {
    hide Inv, Join, Evict, Lru;
    SlotCount(t);
    var lru := Lru(t.slots, now);
    JoinFindsRoom(t, s, first, now, io);
    EvictExact(t, lru, first, now, io);
    if id in t.exchanges {
      EvictOpen(t, lru, first, now, io, id);
    }
  }

  /** A step closes an exchange only when its handler does, and begins it open. */
  lemma StepOpen(t: Tables, m: Move, id: nat, closed: bool)
    requires Inv(t) && Enabled(t, m) && (id in t.exchanges ==> t.exchanges[id].isOpen == !closed)
    ensures id in After(t, m).exchanges ==>
              After(t, m).exchanges[id].isOpen == !(LivesThroughStep(t, m, id) && (closed || m == MClose(id)))
  {
    hide Inv, Evict, SendOn, Recv, Join, Lru, AfterPostRecv;
    match m {
      case MRecv(p, first, random, now, clockOk, io) => RecvOpen(t, p, first, random, now, clockOk, io, id);
      case MSend(on, reliable, now, io) =>
        if on in t.exchanges {
          SendOnKeeps(t, on, reliable, now, io);
          if id in t.exchanges {
            SendOnOpen(t, on, reliable, now, io, id);
          }
        }
      case MEvict(index, first, now, io) =>
        EvictExact(t, index, first, now, io);
        EvictedIsGone(t, index, first, now, io, id);
        if id in t.exchanges {
          EvictOpen(t, index, first, now, io, id);
        }
      case MJoin(s, first, now, io) =>
        JoinOpen(t, s, first, now, io, id);
        if id in t.exchanges && Evicted(t, m) == Some(t.exchanges[id].sessIdx) {
          JoinFindsRoom(t, s, first, now, io);
        }
      case _ =>
    }
  }

  lemma EvictedIsGone(t: Tables, index: nat, first: nat, now: nat, io: Io, id: nat)
    requires Inv(t) && index < MAX_SESSIONS && ListedFirst(t, index, first)
    ensures id in Evict(t, index, first, now, io).t.exchanges ==>
              id in t.exchanges && (Evict(t, index, first, now, io).r.Pass? ==> t.exchanges[id].sessIdx != index)
  {
    hide Evict, Inv;
    EvictExact(t, index, first, now, io);
  }

  lemma {:induction false} RunOpen(t: Tables, ms: seq<Move>, id: nat, closed: bool)
    requires Inv(t) && Runs(t, ms) && (id in t.exchanges ==> t.exchanges[id].isOpen == !closed)
    ensures id in End(t, ms).exchanges ==> End(t, ms).exchanges[id].isOpen == !ClosedSince(t, ms, id, closed)
    decreases |ms|
  {
    hide Inv, Enabled, After, LivesThroughStep;
    if ms != [] {
      InvKept(t, ms[0]);
      StepOpen(t, ms[0], id, closed);
      RunOpen(After(t, ms[0]), ms[1..], id, LivesThroughStep(t, ms[0], id) && (closed || ms[0] == MClose(id)));
    }
  }

  /** After any run from empty tables, a purge drops an exchange exactly if its handler
      has closed it, every reliable message it accepted has been acknowledged, and nothing
      it sent is awaited. An exchange that is kept is kept as it is. */
  lemma PurgedIff(ms: seq<Move>, id: nat)
    requires FromEmpty(ms) && id in Reached(ms).exchanges
    ensures var es := LifeOf(ms, id);
            id !in Purge(Reached(ms)).exchanges
            <==> ClosedSince(Empty(), ms, id, false) && Accepted(NEW, es) == Stamped(NEW, es) && forall c: nat :: !AwaitedIn(es, c)
    ensures id in Purge(Reached(ms)).exchanges ==> Purge(Reached(ms)).exchanges[id] == Reached(ms).exchanges[id]
    ensures Purge(Reached(ms)).slots == Reached(ms).slots
  {
    hide Life, Runs, End, Accepted, Stamped, AwaitedIn, Run, ClosedSince;
    ExchangesRunTheProtocol(ms, id);
    EmptyMeansSettled(LifeOf(ms, id));
    RunOpen(Empty(), ms, id, false);
  }

  // ---------------------------------------------------------------- what a send, a packet and an eviction do, exactly

  /** A send uses up one counter of the exchange's session and changes no other session. If
      the reliability protocol refuses it, that is all; otherwise the session counts as used
      now, and the outcome is that of encoding and sending. */
  lemma SendOnExact(t: Tables, id: nat, reliable: bool, now: nat, io: Io)
    requires Inv(t) && id in t.exchanges
    ensures var d := SendOn(t, id, reliable, now, io); var e := t.exchanges[id];
            var refused := reliable && e.mrp.retrans.Some?;
            var s := t.slots[e.sessIdx].value;
            d.t.slots == t.slots[e.sessIdx := Some(s.(msgCtr := (s.msgCtr + 1) % 0x1_0000_0000,
                                                       lastUse := if refused then s.lastUse else now))]
            && d.t.exchanges == t.exchanges[id := e.(mrp := Mrp(if reliable && !refused then Some(s.msgCtr) else e.mrp.retrans, None))]
            && d.r == if refused then Fail(Invalid) else if io.encode.Fail? then io.encode
                      else if !io.network then Fail(NoNetworkInterface) else io.send
  {
    assert Placed(t, id, t.exchanges[id]);
  }

  /** An eviction goes through exactly if the close message can be built and, when some
      exchange uses the session, encoded and sent. */
  lemma EvictPassesIff(t: Tables, index: nat, first: nat, now: nat, io: Io)
    requires Inv(t) && index < MAX_SESSIONS && ListedFirst(t, index, first)
    ensures Evict(t, index, first, now, io).r.Pass?
       <==> io.build.Pass?
            && ((exists id :: id in t.exchanges && t.exchanges[id].sessIdx == index) ==>
                 io.encode.Pass? && io.network && io.send.Pass?)
  {
    hide SendOn;
    if id :| id in t.exchanges && t.exchanges[id].sessIdx == index {
      assert id in UsersOf(t.exchanges, index);
      assert first in t.exchanges;
      SendOnExact(t, first, false, now, io);
    } else {
      assert UsersOf(t.exchanges, index) == {};
    }
  }

  /** The part of a receive behind the look-up, exactly. The session counts as used now,
      whatever becomes of the packet. It is refused if it does not decode, if it is for
      an exchange of another session or role, if it would begin one without being an
      initiator's or without room, or if the reliability protocol refuses it; otherwise
      it is handed on to its exchange, unless that is closed. */
  lemma DeliverExact(t: Tables, index: nat, p: Packet, now: nat, clockOk: bool)
    requires index < |t.slots| && t.slots[index].Some?
    ensures var h := Deliver(t, index, p, now, clockOk);
            h.t.slots == t.slots[index := Some(t.slots[index].value.(lastUse := now))]
            && match p.proto
               case Err(error) => h.r == Err(error) && h.t.exchanges == t.exchanges
               case Ok(proto) =>
                 var id, role := proto.exchId, if proto.initiator then Responder else Initiator;
                 if id in t.exchanges && (t.exchanges[id].role != role || t.exchanges[id].sessIdx != index) then
                   h.r == Err(NoExchange) && h.t.exchanges == t.exchanges
                 else if id !in t.exchanges && (!proto.initiator || |t.exchanges| >= 8) then
                   h.r == Err(NoSpace) && h.t.exchanges == t.exchanges
                 else
                   var e := if id in t.exchanges then t.exchanges[id] else Exchange(id, index, Responder, true, NEW);
                   var heard := AfterRecv(e.mrp, proto.rx, clockOk);
                   h.t.exchanges == t.exchanges[id := e.(mrp := heard.mrp)]
                   && h.r == if heard.r.Fail? then Err(heard.r.error) else if e.isOpen then Ok(Some(id)) else Ok(None)
  {
  }

  // ---------------------------------------------------------------- a purge while a message is outstanding

  const NO_IO: Io := Io(true, Pass, Pass, Pass)

  /** A packet of an unsecured session, from the initiator of exchange `id`. */
  function FromInitiator(peer: nat, id: nat, rx: Rx): Packet {
    Packet(Plain(0, peer, None), Ok(Proto(id, true, rx)))
  }

  function HearsFrom(peer: nat, id: nat, rx: Rx, random: nat): Move {
    MRecv(FromInitiator(peer, id, rx), id, random, 0, true, NO_IO)
  }

  /** One session, in slot 0, whose next counter is `ctr`, and one exchange on it. */
  ghost predicate OneExchange(t: Tables, peer: nat, id: nat, ctr: nat, isOpen: bool, m: Mrp) {
    Inv(t) && t.slots[0].Some? && t.slots[0].value.(lastUse := 0) == NewSession(peer, None, ctr, 0)
    && t.exchanges == map[id := Exchange(id, 0, Responder, isOpen, m)]
  }

  lemma OneIsListed(t: Tables, peer: nat, id: nat, ctr: nat, isOpen: bool, m: Mrp, index: nat)
    requires OneExchange(t, peer, id, ctr, isOpen, m)
    ensures ListedFirst(t, index, id)
  {
  }

  /** The first packet makes the session and the exchange. */
  lemma FirstPacket(peer: nat, id: nat, rx: Rx, random: nat)
    requires !rx.reliable && !rx.isAck
    ensures var m := HearsFrom(peer, id, rx, random);
            Enabled(Empty(), m) && OneExchange(After(Empty(), m), peer, id, random, true, NEW)
            && !Spares(Empty(), m, id) && LifeStep(Empty(), m, id, []) == [Event.Recv(rx, true)]
  {
    hide Lru, Evict, AfterPostRecv, Deliver, Inv, EventsOf;
    var t, m := Empty(), HearsFrom(peer, id, rx, random);
    SlotCount(t);
    assert UsersOf(t.exchanges, Lru(t.slots, 0)) == {};
    var a := AfterPostRecv(t.slots, m.p.hdr, random, 0);
    FirstSlot(t.slots, m.p.hdr, random);
    InvKept(t, m);
    var u := Tables(a.slots, t.exchanges);
    assert After(t, m) == Deliver(u, 0, m.p, 0, true).t;
    DeliversFirst(u, peer, id, rx, random);
  }

  lemma DeliversFirst(t: Tables, peer: nat, id: nat, rx: Rx, random: nat)
    requires t.slots != [] && t.slots[0] == Some(NewSession(peer, None, random, 0)) && t.exchanges == map[]
    requires !rx.reliable && !rx.isAck
    ensures var u := Deliver(t, 0, FromInitiator(peer, id, rx), 0, true).t;
            u.slots == t.slots && u.exchanges == map[id := Exchange(id, 0, Responder, true, NEW)]
  {
  }

  lemma FirstSlot(slots: Slots, hdr: Plain, random: nat)
    requires slots != [] && hdr.sessId == 0 && forall i :: 0 <= i < |slots| ==> slots[i].None?
    ensures AfterPostRecv(slots, hdr, random, 0)
         == PostRecvd(slots[0 := Some(NewSession(hdr.peer, hdr.src, random, 0))], Ok(Some(0)))
  {
    assert Position(slots, x => Matches(x, hdr)).None?;
    assert Position(slots, (x: Option<Session>) => x.None?) == Some(0);
  }

  lemma SendsReliably(t: Tables, peer: nat, id: nat, ctr: nat)
    requires OneExchange(t, peer, id, ctr, true, NEW)
    ensures var m := MSend(id, true, 0, NO_IO);
            Enabled(t, m) && OneExchange(After(t, m), peer, id, (ctr + 1) % CTR_RANGE, true, Mrp(Some(ctr), None))
            && Spares(t, m, id) && EventsOf(t, m, id) == [Event.Send(ctr, true)]
  {
    InvKept(t, MSend(id, true, 0, NO_IO));
    assert Placed(t, id, t.exchanges[id]);
  }

  /** A later packet of the same session and exchange. */
  lemma LaterPacket(t: Tables, peer: nat, id: nat, ctr: nat, m: Mrp, rx: Rx)
    requires OneExchange(t, peer, id, ctr, true, m) && !rx.reliable
    ensures var h := HearsFrom(peer, id, rx, 0);
            Enabled(t, h) && OneExchange(After(t, h), peer, id, ctr, true, AfterRecv(m, rx, true).mrp)
            && Spares(t, h, id) && EventsOf(t, h, id) == [Event.Recv(rx, true)]
  {
    hide Lru, Evict;
    var h := HearsFrom(peer, id, rx, 0);
    OneIsListed(t, peer, id, ctr, true, m, Lru(t.slots, 0));
    assert Matches(t.slots[0], h.p.hdr);
    assert Position(t.slots, x => Matches(x, h.p.hdr)) == Some(0);
    assert AfterPostRecv(t.slots, h.p.hdr, 0, 0) == PostRecvd(t.slots, Ok(Some(0)));
    InvKept(t, h);
    assert After(t, h) == Deliver(t, 0, h.p, 0, true).t;
  }

  lemma Closes(t: Tables, peer: nat, id: nat, ctr: nat, m: Mrp)
    requires OneExchange(t, peer, id, ctr, true, m)
    ensures Enabled(t, MClose(id)) && OneExchange(After(t, MClose(id)), peer, id, ctr, false, m)
    ensures Spares(t, MClose(id), id) && EventsOf(t, MClose(id), id) == []
  {
    InvKept(t, MClose(id));
  }

  /** A peer opens an exchange, is sent a reliable message, and acknowledges another one. */
  function StrayRun(peer: nat, id: nat, random: nat, other: nat): seq<Move> {
    [HearsFrom(peer, id, Rx(0, false, false, None), random), MSend(id, true, 0, NO_IO),
     HearsFrom(peer, id, Rx(1, false, true, Some(other)), 0), MClose(id)]
  }

  /** When the handler closes it, the exchange is purged with its message outstanding. */
  lemma PurgedWhileOutstanding(peer: nat, id: nat, random: nat, other: nat)
    requires other != random
    ensures var ms := StrayRun(peer, id, random, other);
            FromEmpty(ms) && id in Reached(ms).exchanges && id !in Purge(Reached(ms)).exchanges
            && Outstanding(LifeOf(ms, id), random)
  {
    hide Inv, Enabled, After, Spares, EventsOf, Run, Outstanding, LifeStep, SentAt;
    var ms := StrayRun(peer, id, random, other);
    var hello, ack := Rx(0, false, false, None), Rx(1, false, true, Some(other));
    var t0 := Empty();
    FirstPacket(peer, id, hello, random);
    var t1 := After(t0, ms[0]);
    SendsReliably(t1, peer, id, random);
    var t2 := After(t1, ms[1]);
    LaterPacket(t2, peer, id, (random + 1) % CTR_RANGE, Mrp(Some(random), None), ack);
    var t3 := After(t2, ms[2]);
    Closes(t3, peer, id, (random + 1) % CTR_RANGE, NEW);
    var t4 := After(t3, ms[3]);
    RunOfFour(t0, ms[0], ms[1], ms[2], ms[3]);
    LifeOfFour(t0, ms[0], ms[1], ms[2], ms[3], id, [Event.Recv(hello, true)], [Event.Send(random, true)], [Event.Recv(ack, true)], []);
    StrayHistory(hello, ack, random, other);
  }

  lemma RunOfFour(t: Tables, a: Move, b: Move, c: Move, d: Move)
    requires Inv(t) && Enabled(t, a) && Inv(After(t, a)) && Enabled(After(t, a), b)
    requires Inv(After(After(t, a), b)) && Enabled(After(After(t, a), b), c)
    requires Inv(After(After(After(t, a), b), c)) && Enabled(After(After(After(t, a), b), c), d)
    ensures Runs(t, [a, b, c, d]) && End(t, [a, b, c, d]) == After(After(After(After(t, a), b), c), d)
  {
    hide Inv, Enabled, After;
    var t1 := After(t, a);
    var t2 := After(t1, b);
    var t3 := After(t2, c);
    InvKept(t3, d);
    assert [a, b, c, d][1..] == [b, c, d] && [b, c, d][1..] == [c, d] && [c, d][1..] == [d] && [d][1..] == [];
    assert Runs(After(t3, d), []) && End(After(t3, d), []) == After(t3, d);
    assert Runs(t3, [d]) && End(t3, [d]) == After(t3, d);
    assert Runs(t2, [c, d]) && End(t2, [c, d]) == After(t3, d);
    assert Runs(t1, [b, c, d]) && End(t1, [b, c, d]) == After(t3, d);
  }

  lemma LifeOfFour(t: Tables, a: Move, b: Move, c: Move, d: Move, id: nat,
                   es: seq<Event>, fs: seq<Event>, gs: seq<Event>, hs: seq<Event>)
    requires Inv(t) && Runs(t, [a, b, c, d]) && Enabled(t, a) && LifeStep(t, a, id, []) == es
    requires var t1 := After(t, a); Inv(t1) && Enabled(t1, b) && Spares(t1, b, id) && EventsOf(t1, b, id) == fs
    requires var t2 := After(After(t, a), b); Inv(t2) && Enabled(t2, c) && Spares(t2, c, id) && EventsOf(t2, c, id) == gs
    requires var t3 := After(After(After(t, a), b), c); Inv(t3) && Enabled(t3, d) && Spares(t3, d, id) && EventsOf(t3, d, id) == hs
    ensures Life(t, [a, b, c, d], id, []) == es + fs + gs + hs
  {
    hide Inv, Enabled, After, Spares, EventsOf;
    var t1 := After(t, a);
    var t2 := After(t1, b);
    var t3 := After(t2, c);
    InvKept(t3, d);
    assert [a, b, c, d][1..] == [b, c, d] && [b, c, d][1..] == [c, d] && [c, d][1..] == [d] && [d][1..] == [];
    assert Life(t3, [d], id, es + fs + gs) == es + fs + gs + hs;
    assert Life(t2, [c, d], id, es + fs) == Life(t3, [d], id, es + fs + gs);
    assert Life(t1, [b, c, d], id, es) == Life(t2, [c, d], id, es + fs);
  }

  lemma StrayHistory(hello: Rx, ack: Rx, c: nat, other: nat)
    requires !hello.reliable && !hello.isAck && !ack.reliable && ack.isAck && ack.ackCtr == Some(other) && other != c
    ensures Outstanding([Event.Recv(hello, true)] + [Event.Send(c, true)] + [Event.Recv(ack, true)] + [], c)
  {
    var x, y, z := Event.Recv(hello, true), Event.Send(c, true), Event.Recv(ack, true);
    assert [x] + [y] + [z] + [] == [x] + [y] + [z];
    assert [x][1..] == [];
    assert Run(NEW, [x]) == NEW;
    OutstandingStep([x], y, c);
    OutstandingStep([x] + [y], z, c);
  }
}

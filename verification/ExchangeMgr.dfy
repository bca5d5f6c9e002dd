/**
 The exchange manager as an object: a map of exchanges and a session table that are
 changed in place. Every method takes the step that the tables' model prescribes.
 */
module ExchangeMgrs {
  import opened Bytes
  import Mrps
  import opened Sessions
  import opened Exchanges

  class ExchangeMgr {
    var exchanges: map<nat, Exchange>
    const sessMgr: SessionMgr

    ghost function State(): Tables
      reads this, sessMgr, sessMgr.sessions
    {
      Tables(sessMgr.sessions[..], exchanges)
    }

    ghost predicate Valid()
      reads this, sessMgr, sessMgr.sessions
    {
      sessMgr.Valid() && Inv(State())
    }

    constructor (network: bool)
      ensures Valid() && State() == Empty()
    {
      exchanges := map[];
      sessMgr := new SessionMgr(network);
    }

    /** `_get`. */
    method Get(sessIdx: nat, id: nat, role: Role, createNew: bool) returns (r: Outcome)
      modifies this`exchanges
      ensures Got(exchanges, r) == Exchanges.Get(old(exchanges), sessIdx, id, role, createNew)
    {
      if id !in exchanges {
        if createNew {
          if |exchanges| >= MAX_EXCHANGES {
            return Fail(NoSpace);
          }
          exchanges := exchanges[id := Exchange(id, sessIdx, role, true, Mrps.NEW)];
        } else {
          return Fail(NoSpace);
        }
      }
      if exchanges[id].role == role && sessIdx == exchanges[id].sessIdx {
        return Pass;
      }
      return Fail(NoExchange);
    }

    /** `Exchange::send` on a stored exchange. */
    method SendOn(id: nat, reliable: bool, now: nat, io: Io) returns (r: Outcome)
      requires Valid() && id in exchanges
      modifies this`exchanges, sessMgr.sessions
      ensures sessMgr.Valid() && Done(State(), r) == Exchanges.SendOn(old(State()), id, reliable, now, io)
    {
      assert Placed(State(), id, exchanges[id]);
      var exchange := exchanges[id];
      var session := sessMgr.sessions[exchange.sessIdx].value;
      var ctr := session.msgCtr;
      session := session.(msgCtr := (session.msgCtr + 1) % CTR_RANGE);
      sessMgr.sessions[exchange.sessIdx] := Some(session);
      var sent := Mrps.AfterSend(exchange.mrp, ctr, reliable);
      exchanges := exchanges[id := exchange.(mrp := sent.mrp)];
      if sent.r.Fail? {
        return sent.r;
      }
      session := session.(lastUse := now);
      sessMgr.sessions[exchange.sessIdx] := Some(session);
      if io.encode.Fail? {
        return io.encode;
      }
      if !io.network {
        return Fail(NoNetworkInterface);
      }
      return io.send;
    }

    method Send(id: nat, reliable: bool, now: nat, io: Io) returns (r: Outcome)
      requires Valid()
      modifies this`exchanges, sessMgr.sessions
      ensures Valid() && Done(State(), r) == Exchanges.Send(old(State()), id, reliable, now, io)
    {
      hide Exchanges.SendOn;
      InvKept(State(), MSend(id, reliable, now, io));
      if id !in exchanges {
        return Fail(NoExchange);
      }
      r := SendOn(id, reliable, now, io);
    }

    method Close(id: nat)
      requires Valid()
      modifies this`exchanges
      ensures Valid() && State() == Exchanges.Close(old(State()), id)
    {
      CloseKeeps(State(), id);
      if id in exchanges {
        exchanges := exchanges[id := exchanges[id].(isOpen := false)];
      }
    }

    method Purge()
      requires Valid()
      modifies this`exchanges
      ensures Valid() && State() == Exchanges.Purge(old(State()))
    {
      PurgeKeeps(State());
      var toPurge := set id | id in exchanges && exchanges[id].IsPurgeable();
      Remove(toPurge);
    }

    /** Removes exchanges one by one. */
    method Remove(ids: set<nat>)
      modifies this`exchanges
      ensures exchanges == old(exchanges) - ids
    {
      var left := ids;
      while left != {}
        invariant left <= ids && exchanges == old(exchanges) - (ids - left)
        decreases |left|
      {
        var id :| id in left;
        exchanges := exchanges - {id};
        left := left - {id};
      }
    }

    /** `first` is the exchange the close message went out on. */
    method EvictSession(index: nat, now: nat, io: Io) returns (r: Outcome, ghost first: nat)
      requires Valid() && index < MAX_SESSIONS
      modifies this`exchanges, sessMgr.sessions
      ensures Valid() && ListedFirst(old(State()), index, first)
      ensures Done(State(), r) == Evict(old(State()), index, first, now, io)
    {
      hide Exchanges.SendOn, Inv;
      ghost var t := State();
      var users := UsersOf(exchanges, index);
      var id := 0;
      if users != {} {
        id :| id in users;
      }
      first := id;
      EvictExact(t, index, first, now, io);
      if io.build.Fail? {
        return io.build, first;
      }
      if users != {} {
        EvictWithClose(t, index, first, now, io);
        r := SendOn(id, false, now, io);
        if r.Fail? {
          return;
        }
        SameUsersAfterSend(t, State(), index, first, now, io);
      }
      users := UsersOf(exchanges, index);
      Remove(users);
      sessMgr.Remove(index);
      r := Pass;
    }

    /** `recv` of a packet. */
    method Recv(p: Packet, random: nat, now: nat, clockOk: bool, io: Io)
      returns (r: Result<Option<nat>, Error>, ghost first: nat)
      requires Valid()
      modifies this`exchanges, sessMgr.sessions
      ensures Valid() && ListedFirst(old(State()), Lru(old(State()).slots, now), first)
      ensures Heard(State(), r) == Exchanges.Recv(old(State()), p, first, random, now, clockOk, io)
    {
      hide Inv, Evict, Exchanges.Deliver, AfterPostRecv, Lru, Matches;
      ghost var t := State();
      SlotCount(t);
      first := SomeUser(t, now);
      LruIsOldest(t.slots, now);
      PostRecvMatches(t.slots, p.hdr, random, now);
      var s := sessMgr.PostRecv(p.hdr, random, now);
      var index := 0;
      match s {
        case Err(e) =>
          RecvKeeps(t, p, first, random, now, clockOk, io);
          return Err(e), first;
        case Ok(Some(i)) => index := i;
        case Ok(None) =>
          assert State() == t;
          var evictIndex := sessMgr.GetLru(now);
          var evicted: Outcome;
          evicted, first := EvictSession(evictIndex, now, io);
          RecvKeeps(t, p, first, random, now, clockOk, io);
          if evicted.Fail? {
            return Err(evicted.error), first;
          }
          EvictExact(t, evictIndex, first, now, io);
          PostRecvFindsRoom(t.slots, evictIndex, p.hdr, random, now);
          PostRecvMatches(sessMgr.sessions[..], p.hdr, random, now);
          var again := sessMgr.PostRecv(p.hdr, random, now);
          match again {
            case Ok(Some(i)) => index := i;
            case _ => assert false; // the source would pass on the error, or `Invalid`
          }
      }
      RecvKeeps(t, p, first, random, now, clockOk, io);
      MatchedIsSession(sessMgr.sessions[index], p.hdr);
      r := Deliver(index, p, now, clockOk);
    }

    method Deliver(index: nat, p: Packet, now: nat, clockOk: bool) returns (r: Result<Option<nat>, Error>)
      requires sessMgr.Valid() && index < MAX_SESSIONS && sessMgr.sessions[index].Some?
      modifies this`exchanges, sessMgr.sessions
      ensures Heard(State(), r) == Exchanges.Deliver(old(State()), index, p, now, clockOk)
    {
      var session := sessMgr.sessions[index].value;
      sessMgr.sessions[index] := Some(session.(lastUse := now));
      if p.proto.Err? {
        return Err(p.proto.error);
      }
      var proto := p.proto.value;
      var role := if proto.initiator then Responder else Initiator;
      var got := Get(index, proto.exchId, role, proto.initiator);
      if got.Fail? {
        return Err(got.error);
      }
      var exch := exchanges[proto.exchId];
      var heard := Mrps.AfterRecv(exch.mrp, proto.rx, clockOk);
      exchanges := exchanges[proto.exchId := exch.(mrp := heard.mrp)];
      if heard.r.Fail? {
        return Err(heard.r.error);
      }
      return Ok(if exch.isOpen then Some(proto.exchId) else None);
    }

    method AddSession(s: Session, now: nat, io: Io) returns (r: Result<nat, Error>, ghost first: nat)
      requires Valid()
      modifies this`exchanges, sessMgr.sessions
      ensures Valid() && ListedFirst(old(State()), Lru(old(State()).slots, now), first)
      ensures Joined(State(), r) == Join(old(State()), s, first, now, io)
    {
      hide Inv, Evict, Lru;
      ghost var t := State();
      SlotCount(t);
      LruIsOldest(t.slots, now);
      first := SomeUser(t, now);
      var a := sessMgr.AddSession(s);
      match a {
        case Ok(i) =>
          JoinKeeps(t, s, first, now, io);
          return Ok(i), first;
        case Err(NoSpace) =>
          assert State() == t;
          var evictIndex := sessMgr.GetLru(now);
          var evicted: Outcome;
          evicted, first := EvictSession(evictIndex, now, io);
          JoinKeeps(t, s, first, now, io);
          if evicted.Fail? {
            return Err(evicted.error), first;
          }
          r := sessMgr.AddSession(s);
        case Err(e) =>
          assert false;
      }
    }
  }

  /** An exchange of the least recently used session, if it has one. */
  ghost function SomeUser(t: Tables, now: nat): (first: nat)
    ensures ListedFirst(t, Lru(t.slots, now), first)
  {
    var users := UsersOf(t.exchanges, Lru(t.slots, now));
    if users == {} then 0 else var id :| id in users; id
  }

  lemma SameUsersAfterSend(t: Tables, u: Tables, index: nat, first: nat, now: nat, io: Io)
    requires Inv(t) && first in UsersOf(t.exchanges, index) && u == Exchanges.SendOn(t, first, false, now, io).t
    ensures UsersOf(u.exchanges, index) == UsersOf(t.exchanges, index)
  {
    SendOnKeeps(t, first, false, now, io);
    SameUsers(t.exchanges, u.exchanges, index);
  }
}

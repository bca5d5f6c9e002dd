/**
 The session table: sixteen slots, the allocation of session ids with wrap-around,
 the choice of the least recently used session, and the look-up of the session a
 packet belongs to. Keys are not part of the model; the clock and the random start
 of a message counter are parameters.
 */
module Sessions {
  import opened Bytes

  datatype Mode = PlainText | Pase | Case(fabIdx: nat)

  datatype Session = Session(
    peerAddr: nat,
    localNodeId: nat,
    peerNodeId: Option<nat>,
    localSessId: nat,
    peerSessId: nat,
    msgCtr: nat,
    mode: Mode,
    lastUse: nat)
  {
    predicate IsEncrypted() {
      !mode.PlainText?
    }
  }

  /** The part of a decoded plain header that a session is looked up by. A header
      with a session id is an encrypted one. */
  datatype Plain = Plain(sessId: nat, peer: nat, src: Option<nat>) {
    predicate IsEncrypted() {
      sessId != 0
    }
  }

  type Slots = seq<Option<Session>>

  const MAX_SESSIONS := 16
  const MAX_ID := 0xffff

  // ---------------------------------------------------------------- session ids

  /** The next value of the id counter: it wraps past zero. */
  function Succ(id: nat): nat {
    if id == MAX_ID then 1 else id + 1
  }

  /** The `k`-th candidate of a search that starts at `start`. */
  function Candidate(start: nat, k: nat): nat
    requires 1 <= start <= MAX_ID
  {
    1 + (start - 1 + k) % MAX_ID
  }

  lemma CandidateSteps(start: nat, k: nat)
    requires 1 <= start <= MAX_ID
    ensures Candidate(start, 0) == start && 1 <= Candidate(start, k) <= MAX_ID
    ensures Succ(Candidate(start, k)) == Candidate(start, k + 1)
    ensures k > 0 ==> Candidate(Succ(start), k - 1) == Candidate(start, k)
  {
    ModStep(start - 1 + k);
    if k > 0 && start == MAX_ID {
      assert start - 1 + k == MAX_ID + (k - 1);
      ModShift(k - 1);
    }
  }

  lemma ModStep(n: nat)
    ensures (n + 1) % MAX_ID == if n % MAX_ID == MAX_ID - 1 then 0 else n % MAX_ID + 1
  {
  }

  lemma ModShift(n: nat)
    ensures (MAX_ID + n) % MAX_ID == n % MAX_ID
  {
  }

  /** Fewer than 65535 candidates in a row are all different. */
  lemma CandidatesDistinct(start: nat, i: nat, j: nat)
    requires 1 <= start <= MAX_ID && i < j < i + MAX_ID
    ensures Candidate(start, i) != Candidate(start, j)
  {
    var a, b := start - 1 + i, start - 1 + j;
    var d := b / MAX_ID - a / MAX_ID;
    NotMultiple(b - a, d);
    assert b - a == d * MAX_ID + (b % MAX_ID - a % MAX_ID);
  }

  lemma NotMultiple(n: nat, d: int)
    requires 0 < n < MAX_ID
    ensures n != d * MAX_ID
  {
  }

  function Used(slots: Slots): (ids: set<nat>)
    ensures |ids| <= |slots|
    ensures forall id: nat :: id in ids <==> exists i :: 0 <= i < |slots| && HasId(slots[i], id)
  {
    if slots == [] then {}
    else
      var rest := Used(slots[1..]);
      assert forall id: nat, i {:trigger HasId(slots[i], id)} :: 1 <= i < |slots| ==> slots[i] == slots[1..][i - 1];
      assert forall id: nat :: id in rest ==> exists i :: 1 <= i < |slots| && HasId(slots[i], id) by {
        forall id: nat | id in rest
          ensures exists i :: 1 <= i < |slots| && HasId(slots[i], id)
        {
          var i :| 0 <= i < |slots[1..]| && HasId(slots[1..][i], id);
          assert HasId(slots[i + 1], id);
        }
      }
      assert forall id: nat, i :: 0 <= i < |slots| && HasId(slots[i], id) && i > 0 ==> HasId(slots[1..][i - 1], id);
      if slots[0].Some? then assert HasId(slots[0], slots[0].value.localSessId); {slots[0].value.localSessId} + rest
      else rest
  }

  predicate HasId(slot: Option<Session>, id: nat) {
    slot.Some? && slot.value.localSessId == id
  }

  /** How many candidates a search looks at. */
  function Rounds(start: nat, used: set<nat>): (n: nat)
    requires 1 <= start <= MAX_ID
    ensures 1 <= n <= |used| + 1
    decreases |used|
  {
    if start in used then 1 + Rounds(Succ(start), used - {start}) else 1
  }

  /** The id a search finds is the first candidate that no session uses. */
  lemma {:induction false} FindsFirstUnused(start: nat, used: set<nat>)
    requires 1 <= start <= MAX_ID && |used| < MAX_ID
    ensures var n := Rounds(start, used);
            Candidate(start, n - 1) !in used && forall k :: 0 <= k < n - 1 ==> Candidate(start, k) in used
    decreases |used|
  {
    var n := Rounds(start, used);
    CandidateSteps(start, 0);
    if start in used {
      var rest := used - {start};
      FindsFirstUnused(Succ(start), rest);
      CandidateSteps(start, n - 1);
      CandidatesDistinct(start, 0, n - 1);
      forall k | 0 <= k < n - 1
        ensures Candidate(start, k) in used
      {
        CandidateSteps(start, k);
        assert k > 0 ==> Candidate(Succ(start), k - 1) in rest;
      }
    }
  }

  /** The ids handed out one after the other, while sessions come and go: `useds[i]`
      are the ids in use at the `i`-th request. */
  function Ids(start: nat, useds: seq<set<nat>>): (ids: seq<nat>)
    requires 1 <= start <= MAX_ID
    ensures |ids| == |useds|
    decreases |useds|
  {
    if useds == [] then []
    else
      var n := Rounds(start, useds[0]);
      CandidateSteps(start, n);
      [Candidate(start, n - 1)] + Ids(Candidate(start, n), useds[1..])
  }

  /** How far the counter has gone. */
  function Travel(start: nat, useds: seq<set<nat>>): nat
    requires 1 <= start <= MAX_ID
    decreases |useds|
  {
    if useds == [] then 0
    else
      var n := Rounds(start, useds[0]);
      CandidateSteps(start, n);
      n + Travel(Candidate(start, n), useds[1..])
  }

  lemma CandidateOfCandidate(start: nat, m: nat, k: nat)
    requires 1 <= start <= MAX_ID
    ensures 1 <= Candidate(start, m) <= MAX_ID && Candidate(Candidate(start, m), k) == Candidate(start, m + k)
  {
    CandidateSteps(start, m);
    var a := start - 1 + m;
    assert a == a / MAX_ID * MAX_ID + a % MAX_ID;
    ModOfSum(a, k);
  }

  lemma ModOfSum(a: nat, k: nat)
    ensures (a % MAX_ID + k) % MAX_ID == (a + k) % MAX_ID
  {
    var q, r := a / MAX_ID, a % MAX_ID;
    var p, s := (r + k) / MAX_ID, (r + k) % MAX_ID;
    assert a + k == (q + p) * MAX_ID + s;
    DivUnique(q + p, s, a + k);
  }

  lemma DivUnique(q: nat, r: nat, n: nat)
    requires n == q * MAX_ID + r && r < MAX_ID
    ensures n % MAX_ID == r
  {
  }

  /** The `i`-th id is a candidate further on than the ids before it. */
  lemma {:induction false} IdOffset(start: nat, useds: seq<set<nat>>, i: nat) returns (k: nat)
    requires 1 <= start <= MAX_ID && i < |useds|
    ensures k < Travel(start, useds) && Ids(start, useds)[i] == Candidate(start, k)
    ensures i > 0 ==> k >= Rounds(start, useds[0])
    decreases |useds|
  {
    var n := Rounds(start, useds[0]);
    CandidateSteps(start, n);
    if i == 0 {
      k := n - 1;
    } else {
      k := IdOffset(Candidate(start, n), useds[1..], i - 1);
      CandidateOfCandidate(start, n, k);
      k := n + k;
    }
  }

  /** Until the counter has gone once round all nonzero values, no id is handed out
      twice, however many sessions come and go in between. */
  lemma {:induction false} IdsDistinct(start: nat, useds: seq<set<nat>>, i: nat, j: nat)
    requires 1 <= start <= MAX_ID && i < j < |useds| && Travel(start, useds) <= MAX_ID
    ensures Ids(start, useds)[i] != Ids(start, useds)[j]
    decreases i
  {
    var n := Rounds(start, useds[0]);
    CandidateSteps(start, n);
    if i == 0 {
      var k := IdOffset(start, useds, j);
      CandidatesDistinct(start, n - 1, k);
    } else {
      IdsDistinct(Candidate(start, n), useds[1..], i - 1, j - 1);
    }
  }

  /** Sixteen slots can slow the counter down to seventeen steps for an id: any
      3855 ids in a row are different. */
  lemma {:induction false} TravelBound(start: nat, useds: seq<set<nat>>)
    requires 1 <= start <= MAX_ID && forall i :: 0 <= i < |useds| ==> |useds[i]| <= MAX_SESSIONS
    ensures Travel(start, useds) <= 17 * |useds|
    decreases |useds|
  {
    if useds != [] {
      var n := Rounds(start, useds[0]);
      CandidateSteps(start, n);
      assert forall i :: 0 <= i < |useds[1..]| ==> useds[1..][i] == useds[i + 1];
      TravelBound(Candidate(start, n), useds[1..]);
    }
  }

  lemma ThousandsOfIdsDistinct(start: nat, useds: seq<set<nat>>, i: nat, j: nat)
    requires 1 <= start <= MAX_ID && i < j < |useds| <= 3855
    requires forall k :: 0 <= k < |useds| ==> |useds[k]| <= MAX_SESSIONS
    ensures Ids(start, useds)[i] != Ids(start, useds)[j]
  {
    TravelBound(start, useds);
    IdsDistinct(start, useds, i, j);
  }

  // ---------------------------------------------------------------- the least recently used session

  /** What the scan keeps: the index and time of the earliest use before `now` so far. */
  function LruScan(slots: Slots, now: nat, n: nat): (r: (nat, nat))
    requires n <= |slots|
    ensures r.1 <= now && (r.0 < n || r.0 == 0)
    ensures forall i :: 0 <= i < n && slots[i].Some? ==> r.1 <= slots[i].value.lastUse || r.1 == now <= slots[i].value.lastUse
    ensures if r.1 < now then r.0 < n && slots[r.0].Some? && slots[r.0].value.lastUse == r.1
            else r == (0, now)
    ensures forall i :: 0 <= i < r.0 && slots[i].Some? ==> r.1 < slots[i].value.lastUse
  {
    if n == 0 then (0, now)
    else
      var (index, ts) := LruScan(slots, now, n - 1);
      if slots[n - 1].Some? && slots[n - 1].value.lastUse < ts then (n - 1, slots[n - 1].value.lastUse) else (index, ts)
  }

  function Lru(slots: Slots, now: nat): (index: nat) {
    LruScan(slots, now, |slots|).0
  }

  /** The chosen session was not used later than any other, and is the first of
      those; without a session used before now it is slot 0. */
  lemma LruIsOldest(slots: Slots, now: nat)
    requires slots != []
    ensures var i := Lru(slots, now);
            i < |slots|
            && ((forall j :: 0 <= j < |slots| && slots[j].Some? ==> now <= slots[j].value.lastUse) ==> i == 0)
            && ((exists j :: 0 <= j < |slots| && slots[j].Some? && slots[j].value.lastUse < now) ==>
                slots[i].Some? && slots[i].value.lastUse < now
                && (forall j :: 0 <= j < |slots| && slots[j].Some? ==> slots[i].value.lastUse <= slots[j].value.lastUse)
                && (forall j :: 0 <= j < i && slots[j].Some? ==> slots[i].value.lastUse < slots[j].value.lastUse))
  {
    var r := LruScan(slots, now, |slots|);
  }

  // ---------------------------------------------------------------- the table as a value

  datatype Added = Added(slots: Slots, r: Result<nat, Error>)

  function AfterAddSession(slots: Slots, s: Session): Added {
    match Position(slots, (x: Option<Session>) => x.None?)
    case Some(i) => Added(slots[i := Some(s)], Ok(i))
    case None => Added(slots, Err(NoSpace))
  }

  function NewSession(peerAddr: nat, peerNodeId: Option<nat>, random: nat, now: nat): Session {
    Session(peerAddr, 0, peerNodeId, 0, 0, random, PlainText, now)
  }

  /** The session answers to the header: a node id counts only when both sides name one. */
  predicate Matches(slot: Option<Session>, hdr: Plain) {
    slot.Some? &&
    var s := slot.value;
    s.localSessId == hdr.sessId && s.peerAddr == hdr.peer && s.IsEncrypted() == hdr.IsEncrypted()
    && !(s.peerNodeId.Some? && hdr.src.Some? && s.peerNodeId != hdr.src)
  }

  /** `get_or_add`: only an unencrypted header of session 0 makes a new session. */
  function AfterGetOrAdd(slots: Slots, hdr: Plain, random: nat, now: nat): Added {
    match Position(slots, x => Matches(x, hdr))
    case Some(i) => Added(slots, Ok(i))
    case None =>
      if hdr.sessId == 0 && !hdr.IsEncrypted() then AfterAddSession(slots, NewSession(hdr.peer, hdr.src, random, now))
      else Added(slots, Err(NotFound))
  }

  datatype PostRecvd = PostRecvd(slots: Slots, r: Result<Option<nat>, Error>)

  /** `post_recv`: a full table is not an error but no session. */
  function AfterPostRecv(slots: Slots, hdr: Plain, random: nat, now: nat): PostRecvd {
    var a := AfterGetOrAdd(slots, hdr, random, now);
    match a.r
    case Ok(i) => PostRecvd(a.slots, Ok(Some(i)))
    case Err(NoSpace) => PostRecvd(a.slots, Ok(None))
    case Err(e) => PostRecvd(a.slots, Err(e))
  }

  /** What it takes to be the session of a packet: its session id, its peer's address,
      encryption on both sides or neither, and no two different node ids. */
  ghost predicate IsSessionOf(slot: Option<Session>, hdr: Plain) {
    exists s :: slot == Some(s) && s.localSessId == hdr.sessId && s.peerAddr == hdr.peer
                && (s.mode == PlainText <==> hdr.sessId == 0)
                && (s.peerNodeId == None || hdr.src == None || s.peerNodeId == hdr.src)
  }

  lemma MatchesMeans(slot: Option<Session>, hdr: Plain)
    ensures Matches(slot, hdr) <==> IsSessionOf(slot, hdr)
  {
  }

  /** A packet gets the first session that is one of its own. When there is none, a packet
      of an unsecured session gets a fresh one in the first free slot, with its address
      and its node id, or none in a full table, and any other packet an error. */
  lemma PostRecvExact(slots: Slots, hdr: Plain, random: nat, now: nat)
    ensures var p := AfterPostRecv(slots, hdr, random, now);
            if exists i :: 0 <= i < |slots| && IsSessionOf(slots[i], hdr) then
              p.slots == slots && p.r.Ok? && p.r.value.Some?
              && var i := p.r.value.value;
                 i < |slots| && IsSessionOf(slots[i], hdr) && forall j :: 0 <= j < i ==> !IsSessionOf(slots[j], hdr)
            else if hdr.sessId != 0 then p == PostRecvd(slots, Err(NotFound))
            else if exists i :: 0 <= i < |slots| && slots[i].None? then
              p.r.Ok? && p.r.value.Some?
              && var i := p.r.value.value;
                 i < |slots| && slots[i].None? && (forall j :: 0 <= j < i ==> slots[j].Some?)
                 && p.slots == slots[i := Some(Session(hdr.peer, 0, hdr.src, 0, 0, random, PlainText, now))]
            else p == PostRecvd(slots, Ok(None))
  {
    hide Matches, IsSessionOf;
    forall i | 0 <= i < |slots|
      ensures Matches(slots[i], hdr) <==> IsSessionOf(slots[i], hdr)
    {
      MatchesMeans(slots[i], hdr);
    }
  }

  /** The session of a packet answers to its header, and no other session changed.
      There is none only if the table is full; an encrypted packet never makes one. */
  lemma PostRecvMatches(slots: Slots, hdr: Plain, random: nat, now: nat)
    ensures var p := AfterPostRecv(slots, hdr, random, now);
            |p.slots| == |slots|
            && (p.r.Ok? && p.r.value.Some? ==>
                var i := p.r.value.value;
                i < |slots| && Matches(p.slots[i], hdr) && p.slots == slots[i := p.slots[i]]
                && (p.slots == slots || (slots[i].None? && hdr.sessId == 0)))
            && (p.r == Ok(None) ==> p.slots == slots && hdr.sessId == 0 && forall i :: 0 <= i < |slots| ==> slots[i].Some?)
            && (p.r.Err? ==> p.slots == slots && hdr.sessId != 0 && forall i :: 0 <= i < |slots| ==> !Matches(slots[i], hdr))
  {
    var found := Position(slots, x => Matches(x, hdr));
    if found.Some? {
      assert slots[found.value := slots[found.value]] == slots;
    }
  }

  // ---------------------------------------------------------------- the table as an object

  class SessionMgr {
    var nextSessId: nat
    const sessions: array<Option<Session>>
    const network: bool // whether there is a network interface

    ghost predicate Valid()
      reads this
    {
      1 <= nextSessId <= MAX_ID && sessions.Length == MAX_SESSIONS
    }

    constructor (network: bool)
      ensures Valid() && nextSessId == 1 && fresh(sessions) && this.network == network
      ensures sessions[..] == seq(MAX_SESSIONS, i => None)
    {
      nextSessId, this.network := 1, network;
      sessions := new Option<Session>[MAX_SESSIONS](i => None);
    }

    /** Searches at most seventeen rounds; the id it returns is nonzero and unused. */
    method GetNextSessId() returns (id: nat)
      requires Valid()
      modifies this`nextSessId
      ensures Valid() && 1 <= id <= MAX_ID && id !in Used(sessions[..])
      ensures var n := Rounds(old(nextSessId), Used(sessions[..]));
              n <= 17 && id == Candidate(old(nextSessId), n - 1) && nextSessId == Candidate(old(nextSessId), n)
    {
      hide Candidate, Rounds, Used;
      ghost var start, used := nextSessId, Used(sessions[..]);
      ghost var n, k := Rounds(start, used), 0;
      FindsFirstUnused(start, used);
      CandidateSteps(start, 0);
      while true
        invariant Valid() && 0 <= k < n && nextSessId == Candidate(start, k)
        decreases n - k
      {
        id := nextSessId;
        CandidateSteps(start, k);
        CandidateSteps(start, k + 1);
        nextSessId := if nextSessId == MAX_ID then 0 else nextSessId + 1;
        if nextSessId == 0 {
          nextSessId := 1;
        }
        var other := GetWithId(id);
        if other.None? {
          break;
        }
        k := k + 1;
      }
    }

    method GetWithId(id: nat) returns (r: Option<nat>)
      requires Valid()
      ensures r.Some? <==> id in Used(sessions[..])
      ensures r.Some? ==> r.value < MAX_SESSIONS && HasId(sessions[r.value], id)
    {
      r := Position(sessions[..], x => HasId(x, id));
    }

    method GetLru(now: nat) returns (lruIndex: nat)
      requires Valid()
      ensures lruIndex == Lru(sessions[..], now)
    {
      var lruTs := now;
      lruIndex := 0;
      for i := 0 to MAX_SESSIONS
        invariant (lruIndex, lruTs) == LruScan(sessions[..], now, i)
      {
        if sessions[i].Some? {
          var s := sessions[i].value;
          if s.lastUse < lruTs {
            lruTs := s.lastUse;
            lruIndex := i;
          }
        }
      }
    }

    method AddSession(s: Session) returns (r: Result<nat, Error>)
      requires Valid()
      modifies sessions
      ensures Added(sessions[..], r) == AfterAddSession(old(sessions[..]), s)
    {
      var index := Position(sessions[..], (x: Option<Session>) => x.None?);
      if index.Some? {
        sessions[index.value] := Some(s);
        return Ok(index.value);
      }
      return Err(NoSpace);
    }

    method Remove(idx: nat)
      requires Valid() && idx < MAX_SESSIONS
      modifies sessions
      ensures sessions[..] == old(sessions[..])[idx := None]
    {
      sessions[idx] := None;
    }

    method GetOrAdd(hdr: Plain, random: nat, now: nat) returns (r: Result<nat, Error>)
      requires Valid()
      modifies sessions
      ensures Added(sessions[..], r) == AfterGetOrAdd(old(sessions[..]), hdr, random, now)
    {
      var index := Position(sessions[..], x => Matches(x, hdr));
      if index.Some? {
        return Ok(index.value);
      } else if hdr.sessId == 0 && !hdr.IsEncrypted() {
        r := AddSession(NewSession(hdr.peer, hdr.src, random, now));
      } else {
        return Err(NotFound);
      }
    }

    method PostRecv(hdr: Plain, random: nat, now: nat) returns (r: Result<Option<nat>, Error>)
      requires Valid()
      modifies sessions
      ensures PostRecvd(sessions[..], r) == AfterPostRecv(old(sessions[..]), hdr, random, now)
    {
      var s := GetOrAdd(hdr, random, now);
      match s
      case Ok(i) => return Ok(Some(i));
      case Err(NoSpace) => return Ok(None);
      case Err(e) => return Err(e);
    }
  }
}

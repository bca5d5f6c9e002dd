/**
 The message reliability protocol of one exchange (section 4.11 of the Matter Core
 Specification): at most one acknowledgement is owed and at most one is awaited.
 */
module Mrps {
  import opened Bytes

  /** Counters of the message whose acknowledgement is awaited, and of the message
      that is to be acknowledged. */
  datatype Mrp = Mrp(retrans: Option<nat>, ack: Option<nat>) {
    predicate IsEmpty() {
      retrans.None? && ack.None?
    }
  }

  const NEW: Mrp := Mrp(None, None)

  /** What the protocol looks at in a received message. */
  datatype Rx = Rx(ctr: nat, reliable: bool, isAck: bool, ackCtr: Option<nat>)

  datatype Sent = Sent(mrp: Mrp, stamped: Option<nat>, r: Outcome)
  datatype Received = Received(mrp: Mrp, r: Outcome)

  /** Before a message goes out: the acknowledgement that is owed is stamped on it,
      and a reliable message must be the only one that awaits an acknowledgement. */
  function AfterSend(m: Mrp, ctr: nat, reliable: bool): Sent {
    var stampedOff := m.(ack := None);
    if !reliable then Sent(stampedOff, m.ack, Pass)
    else if m.retrans.Some? then Sent(stampedOff, m.ack, Fail(Invalid))
    else Sent(stampedOff.(retrans := Some(ctr)), m.ack, Pass)
  }

  /** After a message came in. Any acknowledgement ends the wait, whichever counter
      it names. `clockOk` says that the time-out of the new entry can be computed. */
  function AfterRecv(m: Mrp, rx: Rx, clockOk: bool): Received {
    if rx.isAck && rx.ackCtr.None? then Received(m, Fail(Invalid))
    else
      var m' := if rx.isAck then m.(retrans := None) else m;
      if !rx.reliable then Received(m', Pass)
      else if m'.ack.Some? then Received(m', Fail(Invalid))
      else if !clockOk then Received(m', Fail(Invalid))
      else Received(m'.(ack := Some(rx.ctr)), Pass)
  }

  class ReliableMessage {
    var retrans: Option<nat>
    var ack: Option<nat>

    ghost function State(): Mrp
      reads this
    {
      Mrp(retrans, ack)
    }

    constructor ()
      ensures State() == NEW
    {
      retrans, ack := None, None;
    }

    predicate IsEmpty()
      reads this
      ensures IsEmpty() == State().IsEmpty()
    {
      retrans.None? && ack.None?
    }

    method PreSend(ctr: nat, reliable: bool) returns (stamped: Option<nat>, r: Outcome)
      modifies this
      ensures Sent(State(), stamped, r) == AfterSend(old(State()), ctr, reliable)
    {
      stamped := None;
      if ack.Some? {
        stamped := ack;
        ack := None;
      }
      if !reliable {
        return stamped, Pass;
      }
      if retrans.Some? {
        return stamped, Fail(Invalid);
      }
      retrans := Some(ctr);
      return stamped, Pass;
    }

    method Recv(rx: Rx, clockOk: bool) returns (r: Outcome)
      modifies this
      ensures Received(State(), r) == AfterRecv(old(State()), rx, clockOk)
    {
      if rx.isAck {
        if rx.ackCtr.None? {
          return Fail(Invalid);
        }
        if retrans.Some? {
          retrans := None;
        }
      }
      if rx.reliable {
        if ack.Some? || !clockOk {
          return Fail(Invalid);
        }
        ack := Some(rx.ctr);
      }
      return Pass;
    }
  }

  // ---------------------------------------------------------------- runs

  datatype Event = Send(ctr: nat, reliable: bool) | Recv(rx: Rx, clockOk: bool)

  function Step(m: Mrp, e: Event): Mrp {
    match e
    case Send(ctr, reliable) => AfterSend(m, ctr, reliable).mrp
    case Recv(rx, clockOk) => AfterRecv(m, rx, clockOk).mrp
  }

  function Run(m: Mrp, es: seq<Event>): Mrp
    decreases |es|
  {
    if es == [] then m else Run(Step(m, es[0]), es[1..])
  }

  /** The reliable counters `recv` accepted, in order. */
  function Accepted(m: Mrp, es: seq<Event>): seq<nat>
    decreases |es|
  {
    if es == [] then [] else AcceptedBy(m, es[0]) + Accepted(Step(m, es[0]), es[1..])
  }

  /** The counters `pre_send` stamped on outgoing messages, in order, whether it
      then went on to fail or not. */
  function Stamped(m: Mrp, es: seq<Event>): seq<nat>
    decreases |es|
  {
    if es == [] then [] else StampedBy(m, es[0]) + Stamped(Step(m, es[0]), es[1..])
  }

  function Owed(ack: Option<nat>): seq<nat> {
    if ack.Some? then [ack.value] else []
  }

  /** What one event accepts, and what it stamps. */
  function AcceptedBy(m: Mrp, e: Event): seq<nat> {
    if e.Recv? && e.rx.reliable && AfterRecv(m, e.rx, e.clockOk).r.Pass? then [e.rx.ctr] else []
  }

  function StampedBy(m: Mrp, e: Event): seq<nat> {
    Owed(if e.Send? then AfterSend(m, e.ctr, e.reliable).stamped else None)
  }

  lemma StepAccounted(m: Mrp, e: Event)
    ensures Owed(m.ack) + AcceptedBy(m, e) == StampedBy(m, e) + Owed(Step(m, e).ack)
  {
  }

  /** Every accepted reliable message is acknowledged once, in order, or is the one
      whose acknowledgement is still owed. */
  lemma {:induction false} AcksAccounted(m: Mrp, es: seq<Event>)
    ensures Owed(m.ack) + Accepted(m, es) == Stamped(m, es) + Owed(Run(m, es).ack)
    decreases |es|
  {
    hide Owed, AcceptedBy, StampedBy, Step;
    if es == [] {
      assert Owed(m.ack) + [] == [] + Owed(m.ack);
    } else {
      var e, m', rest := es[0], Step(m, es[0]), es[1..];
      AcksAccounted(m', rest);
      StepAccounted(m, e);
      calc {
        Owed(m.ack) + (AcceptedBy(m, e) + Accepted(m', rest));
        (Owed(m.ack) + AcceptedBy(m, e)) + Accepted(m', rest);
        (StampedBy(m, e) + Owed(m'.ack)) + Accepted(m', rest);
        StampedBy(m, e) + (Owed(m'.ack) + Accepted(m', rest));
        StampedBy(m, e) + (Stamped(m', rest) + Owed(Run(m', rest).ack));
        (StampedBy(m, e) + Stamped(m', rest)) + Owed(Run(m', rest).ack);
      }
    }
  }

  /** A received message that carries an acknowledgement. */
  predicate Acknowledges(e: Event) {
    e.Recv? && e.rx.isAck && e.rx.ackCtr.Some?
  }

  predicate AcceptedSend(m: Mrp, e: Event) {
    e.Send? && e.reliable && AfterSend(m, e.ctr, e.reliable).r.Pass?
  }

  lemma {:induction false} RunConcat(m: Mrp, es: seq<Event>, fs: seq<Event>)
    ensures Run(m, es + fs) == Run(Run(m, es), fs)
    decreases |es|
  {
    if es == [] {
      assert es + fs == fs;
    } else {
      assert (es + fs)[1..] == es[1..] + fs;
      RunConcat(Step(m, es[0]), es[1..], fs);
    }
  }

  /** While nothing is acknowledged, what is awaited stays awaited. */
  lemma {:induction false} StillAwaited(m: Mrp, es: seq<Event>)
    requires m.retrans.Some? && forall i :: 0 <= i < |es| ==> !Acknowledges(es[i])
    ensures Run(m, es).retrans == m.retrans
    decreases |es|
  {
    if es != [] {
      assert !Acknowledges(es[0]);
      StillAwaited(Step(m, es[0]), es[1..]);
    }
  }

  /** Between two accepted reliable sends an acknowledgement came in. */
  lemma OneOutstanding(m: Mrp, before: seq<Event>, first: Event, between: seq<Event>, second: Event)
    requires AcceptedSend(Run(m, before), first)
    requires AcceptedSend(Run(m, before + [first] + between), second)
    ensures exists i :: 0 <= i < |between| && Acknowledges(between[i])
  {
    var sent := Run(m, before + [first]);
    RunConcat(m, before, [first]);
    assert [first][1..] == [];
    assert sent == Step(Run(m, before), first);
    RunConcat(m, before + [first], between);
    if forall i :: 0 <= i < |between| ==> !Acknowledges(between[i]) {
      StillAwaited(sent, between);
    }
  }

  /** What is awaited after a run is its last accepted reliable send, unless an
      acknowledgement came in behind it. */
  ghost predicate AwaitedIn(es: seq<Event>, c: nat) {
    exists i :: SentAt(es, i, c) && forall j :: i < j < |es| ==> !Acknowledges(es[j])
  }

  ghost predicate SentAt(es: seq<Event>, i: int, c: nat) {
    0 <= i < |es| && SendsOf(Run(NEW, es[..i]), es[i], c)
  }

  /** The event is an accepted reliable send of counter `c`. */
  predicate SendsOf(m: Mrp, e: Event, c: nat) {
    AcceptedSend(m, e) && e.ctr == c
  }

  lemma {:induction false} AwaitedIff(es: seq<Event>, c: nat)
    ensures Run(NEW, es).retrans == Some(c) <==> AwaitedIn(es, c)
    decreases |es|
  {
    if es != [] {
      var n := |es| - 1;
      var init, last := es[..n], es[n];
      assert es == init + [last];
      RunConcat(NEW, init, [last]);
      assert [last][1..] == [];
      AwaitedIff(init, c);
      assert Run(NEW, es) == Step(Run(NEW, init), last);
      if Run(NEW, es).retrans == Some(c) {
        if AcceptedSend(Run(NEW, init), last) {
          assert SentAt(es, n, c);
        } else {
          AwaitedInLonger(init, last, c);
        }
      }
      if AwaitedIn(es, c) {
        var i :| SentAt(es, i, c) && forall j :: i < j < |es| ==> !Acknowledges(es[j]);
        if i < n {
          assert es[..i] == init[..i] && SentAt(init, i, c);
          assert forall j :: i < j < n ==> init[j] == es[j];
          assert AwaitedIn(init, c) && !Acknowledges(last);
        }
      }
    }
  }

  lemma AwaitedInLonger(init: seq<Event>, last: Event, c: nat)
    requires AwaitedIn(init, c) && !Acknowledges(last)
    ensures AwaitedIn(init + [last], c)
  {
    var i :| SentAt(init, i, c) && forall j :: i < j < |init| ==> !Acknowledges(init[j]);
    var es := init + [last];
    assert es[..i] == init[..i] && SentAt(es, i, c);
    assert forall j :: i < j < |es| ==> !Acknowledges(es[j]);
  }

  /** `is_empty` after a run from the start: everything accepted was acknowledged,
      and nothing that was sent is awaited. */
  lemma EmptyMeansSettled(es: seq<Event>)
    ensures Run(NEW, es).IsEmpty() <==> Accepted(NEW, es) == Stamped(NEW, es) && forall c: nat :: !AwaitedIn(es, c)
  {
    AcksAccounted(NEW, es);
    assert [] + Accepted(NEW, es) == Accepted(NEW, es);
    var m := Run(NEW, es);
    if m.ack.Some? {
      assert |Accepted(NEW, es)| == |Stamped(NEW, es)| + 1;
    } else {
      assert Stamped(NEW, es) + [] == Stamped(NEW, es);
    }
    forall c: nat
      ensures m.retrans == Some(c) <==> AwaitedIn(es, c)
    {
      AwaitedIff(es, c);
    }
  }

  /** What a send does over a run: whatever was accepted and not yet stamped goes out
      with it, and a reliable one is accepted exactly if nothing is awaited. */
  lemma SendExact(es: seq<Event>, ctr: nat, reliable: bool)
    ensures var sent := AfterSend(Run(NEW, es), ctr, reliable);
            Accepted(NEW, es) == Stamped(NEW, es) + Owed(sent.stamped)
            && (sent.r.Pass? <==> !reliable || forall c: nat :: !AwaitedIn(es, c))
            && sent.mrp.ack == None
            && sent.mrp.retrans == if reliable && sent.r.Pass? then Some(ctr) else Run(NEW, es).retrans
  {
    hide AwaitedIn;
    AcksAccounted(NEW, es);
    assert [] + Accepted(NEW, es) == Accepted(NEW, es);
    var m := Run(NEW, es);
    forall c: nat
      ensures m.retrans == Some(c) <==> AwaitedIn(es, c)
    {
      AwaitedIff(es, c);
    }
  }

  /** What a received message does over a run: it is accepted exactly if an acknowledgement
      in it names a counter and, when it is reliable, everything accepted before has been
      acknowledged and its time-out can be computed. */
  lemma RecvExact(es: seq<Event>, rx: Rx, clockOk: bool)
    ensures var heard := AfterRecv(Run(NEW, es), rx, clockOk);
            (heard.r.Pass? <==>
              (rx.isAck ==> rx.ackCtr != None)
              && (rx.reliable ==> Accepted(NEW, es) == Stamped(NEW, es) && clockOk))
            && heard.mrp.ack == (if rx.reliable && heard.r.Pass? then Some(rx.ctr) else Run(NEW, es).ack)
            && heard.mrp.retrans == if rx.isAck && rx.ackCtr != None then None else Run(NEW, es).retrans
  {
    AcksAccounted(NEW, es);
    assert [] + Accepted(NEW, es) == Accepted(NEW, es);
    var m := Run(NEW, es);
    if m.ack.Some? {
      assert |Accepted(NEW, es)| == |Stamped(NEW, es)| + 1;
    } else {
      assert Stamped(NEW, es) + [] == Stamped(NEW, es);
    }
  }

  // ---------------------------------------------------------------- acknowledgements that name another counter

  /** The acknowledgement is one of counter `c`. */
  predicate Names(e: Event, c: nat) {
    Acknowledges(e) && e.rx.ackCtr == Some(c)
  }

  /** What the protocol means by outstanding: a reliable message was sent, and no
      acknowledgement that names it came in behind it. */
  ghost predicate Outstanding(es: seq<Event>, c: nat) {
    exists i :: SentAt(es, i, c) && forall j :: i < j < |es| ==> !Names(es[j], c)
  }

  /** The guard of the source's branch that only logs: a counter is awaited, and the
      acknowledgement names another one. */
  predicate Strays(m: Mrp, e: Event) {
    Acknowledges(e) && m.retrans.Some? && e.rx.ackCtr != m.retrans
  }

  ghost predicate StraysAt(es: seq<Event>, k: int, c: nat) {
    0 <= k < |es| && Strays(Run(NEW, es[..k]), es[k]) && Run(NEW, es[..k]).retrans == Some(c)
  }

  /** An acknowledgement of another counter ended the wait for `c`, and the right one has
      not come since. */
  ghost predicate LeftUnanswered(es: seq<Event>, c: nat) {
    exists k :: StraysAt(es, k, c) && forall j :: k < j < |es| ==> !Names(es[j], c)
  }

  lemma OutstandingStep(init: seq<Event>, last: Event, c: nat)
    ensures Outstanding(init + [last], c) <==> (Outstanding(init, c) && !Names(last, c)) || SendsOf(Run(NEW, init), last, c)
  {
    hide Run, SendsOf, Names;
    var es, n := init + [last], |init|;
    assert es[..n] == init && es[n] == last;
    assert forall i :: 0 <= i < n ==> es[i] == init[i] && es[..i] == init[..i];
    if i :| SentAt(es, i, c) && forall j :: i < j < |es| ==> !Names(es[j], c) {
      if i < n {
        assert SentAt(init, i, c);
        assert !Names(es[n], c);
      }
    }
    if Outstanding(init, c) && !Names(last, c) {
      var i :| SentAt(init, i, c) && forall j :: i < j < n ==> !Names(init[j], c);
      assert SentAt(es, i, c);
    }
    if SendsOf(Run(NEW, init), last, c) {
      assert SentAt(es, n, c);
    }
  }

  lemma UnansweredStep(init: seq<Event>, last: Event, c: nat)
    ensures LeftUnanswered(init + [last], c)
       <==> (LeftUnanswered(init, c) && !Names(last, c))
            || (Strays(Run(NEW, init), last) && Run(NEW, init).retrans == Some(c))
  {
    hide Run, Strays, Names;
    var es, n := init + [last], |init|;
    assert es[..n] == init && es[n] == last;
    assert forall i :: 0 <= i < n ==> es[i] == init[i] && es[..i] == init[..i];
    if k :| StraysAt(es, k, c) && forall j :: k < j < |es| ==> !Names(es[j], c) {
      if k < n {
        assert StraysAt(init, k, c);
        assert !Names(es[n], c);
      }
    }
    if LeftUnanswered(init, c) && !Names(last, c) {
      var k :| StraysAt(init, k, c) && forall j :: k < j < n ==> !Names(init[j], c);
      assert StraysAt(es, k, c);
    }
    if Strays(Run(NEW, init), last) && Run(NEW, init).retrans == Some(c) {
      assert StraysAt(es, n, c);
    }
  }

  /** A counter is outstanding after a run exactly if it is awaited, or a stray
      acknowledgement ended the wait for it and none that names it came later. */
  lemma {:induction false} OutstandingIff(es: seq<Event>, c: nat)
    ensures Outstanding(es, c) <==> Run(NEW, es).retrans == Some(c) || LeftUnanswered(es, c)
    decreases |es|
  {
    hide Outstanding, LeftUnanswered;
    if es == [] {
      NothingOutstanding(c);
    } else {
      var n := |es| - 1;
      var init, last := es[..n], es[n];
      assert es == init + [last];
      OutstandingIff(init, c);
      OutstandingStep(init, last, c);
      UnansweredStep(init, last, c);
      RunConcat(NEW, init, [last]);
      assert [last][1..] == [];
      assert Run(NEW, es) == Step(Run(NEW, init), last);
    }
  }

  lemma NothingOutstanding(c: nat)
    ensures !Outstanding([], c) && !LeftUnanswered([], c)
  {
  }

  /** What is awaited is what is outstanding, at every moment of a run, exactly if no
      acknowledgement of the run strays. */
  lemma AwaitsOutstandingIff(es: seq<Event>)
    ensures (forall n, c: nat :: 0 <= n <= |es| ==> (Outstanding(es[..n], c) <==> Run(NEW, es[..n]).retrans == Some(c)))
       <==> forall k :: 0 <= k < |es| ==> !Strays(Run(NEW, es[..k]), es[k])
  {
    hide Outstanding, Run;
    if forall k :: 0 <= k < |es| ==> !Strays(Run(NEW, es[..k]), es[k]) {
      forall n, c: nat | 0 <= n <= |es|
        ensures Outstanding(es[..n], c) <==> Run(NEW, es[..n]).retrans == Some(c)
      {
        OutstandingIff(es[..n], c);
        assert forall k :: 0 <= k < n ==> es[..n][..k] == es[..k] && es[..n][k] == es[k];
      }
    }
    if k :| 0 <= k < |es| && Strays(Run(NEW, es[..k]), es[k]) {
      var c, init := Run(NEW, es[..k]).retrans.value, es[..k];
      assert es[..k + 1] == init + [es[k]];
      UnansweredStep(init, es[k], c);
      OutstandingIff(es[..k + 1], c);
      StrayEndsTheWait(init, es[k]);
    }
  }

  lemma StrayEndsTheWait(init: seq<Event>, e: Event)
    requires Strays(Run(NEW, init), e)
    ensures Run(NEW, init + [e]).retrans == None
  {
    RunConcat(NEW, init, [e]);
    assert [e][1..] == [];
  }

  /** A reliable send is accepted while another message is outstanding exactly if a
      stray acknowledgement has left that one unanswered. */
  lemma OverlapIff(es: seq<Event>, second: Event, c: nat)
    requires AcceptedSend(Run(NEW, es), second)
    ensures Outstanding(es, c) <==> LeftUnanswered(es, c)
  {
    OutstandingIff(es, c);
  }

  /** An exchange is empty while a message is outstanding exactly if a stray
      acknowledgement has left that message unanswered. */
  lemma EmptyUnansweredIff(es: seq<Event>, c: nat)
    requires Run(NEW, es).IsEmpty()
    ensures Outstanding(es, c) <==> LeftUnanswered(es, c)
  {
    OutstandingIff(es, c);
  }

  /** It happens: after an acknowledgement of another counter the exchange is empty and
      takes the next reliable message, although the first one is outstanding. */
  lemma StrayAcknowledgement(c: nat, other: nat, rxCtr: nat, next: nat)
    requires other != c
    ensures var es := [Send(c, true), Recv(Rx(rxCtr, false, true, Some(other)), true)];
            Run(NEW, es).IsEmpty() && Outstanding(es, c) && AcceptedSend(Run(NEW, es), Send(next, true))
  {
    var send, ack := Send(c, true), Recv(Rx(rxCtr, false, true, Some(other)), true);
    assert [send][1..] == [] && [ack][1..] == [] && [send, ack][1..] == [ack];
    assert [] + [send] == [send] && [send] + [ack] == [send, ack];
    OutstandingStep([], send, c);
    OutstandingStep([send], ack, c);
  }
}

/**
 `Cert::as_asn1`: the encoder driving the in-place writer. Every method writes a
 run of consumer calls, and stops where the writer or the encoder fails.
 */
module CertAsn1 {
  import opened Bytes
  import opened Der
  import BitStrings
  import opened Asn1Writers
  import opened Certs

  /** All of `calls` came after `before`, or, on failure, a first part of them; it is a
      panic exactly in front of a call that panics. */
  predicate Wrote(before: seq<ConsumerCall>, log: seq<ConsumerCall>, calls: seq<ConsumerCall>, r: Outcome) {
    var all := before + calls;
    if r.Pass? then log == all
    else log <= all && (r.error.Panic? ==> log < all && Panics(all[|log|]))
  }

  predicate Clean(calls: seq<ConsumerCall>) {
    forall call :: call in calls ==> !Panics(call)
  }

  /** The calls in front of the first one that panics. */
  function Before(calls: seq<ConsumerCall>): seq<ConsumerCall> {
    if calls == [] || Panics(calls[0]) then [] else [calls[0]] + Before(calls[1..])
  }

  /** The next part of `all` is written, and what is still to come after it. */
  lemma Next(log: seq<ConsumerCall>, part: seq<ConsumerCall>, rest: seq<ConsumerCall>, all: seq<ConsumerCall>)
    requires log + (part + rest) == all
    ensures log + part + rest == all && log + part <= all
  {
    assert log + (part + rest) == log + part + rest;
  }

  /** What becomes of a whole encoding: the writer fails, or a call panics, or all of it
      is written and it ends as the trace says. */
  function RunTrace(s: Stack, cap: nat, t: Trace, date: nat -> seq<byte>): After {
    var a := Run(s, cap, ToDerAll(Before(t.calls), date));
    if a.r.Fail? then a
    else if !Clean(t.calls) then After(a.stack, Fail(Panic))
    else After(a.stack, t.end)
  }

  /** An `ASN1Writer` seen as a `CertConsumer`; `log` records the calls so far. */
  class Consumer {
    const out: ASN1Writer
    const date: nat -> seq<byte>
    ghost const start: Stack
    ghost var log: seq<ConsumerCall>

    /** The writer has done the logged calls, with outcome `r` for the last one. A panic
        comes from a call that is not done any more. */
    ghost predicate Logged(r: Outcome)
      reads this, out, out.buf, out.depth
    {
      var done := if r == Fail(Panic) then Pass else r;
      out.Valid() && (done.Pass? ==> out.currentDepth < MAX_DEPTH) && Clean(log)
      && After(out.Stack(), done) == Run(start, out.buf.Length, ToDerAll(log, date))
    }

    constructor (out: ASN1Writer, date: nat -> seq<byte>)
      requires out.Valid() && out.currentDepth < MAX_DEPTH
      ensures this.out == out && this.date == date && start == out.Stack() && log == [] && Logged(Pass)
    {
      this.out, this.date, this.start, this.log := out, date, out.Stack(), [];
    }

    method Consume(call: ConsumerCall) returns (r: Outcome)
      requires Logged(Pass)
      modifies this, out, out.buf, out.depth
      ensures Logged(r) && (r == Fail(Panic) <==> Panics(call))
      ensures log == if Panics(call) then old(log) else old(log) + [call]
    {
      hide ToDerAll, ToDer, Run, Do;
      ghost var before := out.Stack();
      r := Dispatch(call);
      if r == Fail(Panic) {
        return;
      }
      LoggedOne(start, out.buf.Length, log, before, call, date);
      PassKeepsRoom(before, out.buf.Length, ToDer(call, date));
      log := log + [call];
    }

    /** One call after the other, each failure passed on at once. */
    method ConsumeAll(calls: seq<ConsumerCall>) returns (r: Outcome)
      requires Logged(Pass)
      modifies this, out, out.buf, out.depth
      ensures Logged(r) && Wrote(old(log), log, calls, r)
    {
      hide Logged, Panics;
      for i := 0 to |calls|
        invariant Logged(Pass) && log == old(log) + calls[..i]
      {
        r := Consume(calls[i]);
        assert old(log) + calls[..i] + [calls[i]] == old(log) + calls[..i + 1];
        assert (old(log) + calls)[|old(log)| + i] == calls[i];
        if r.Fail? {
          assert old(log) + calls[..i] <= old(log) + calls[..i + 1] <= old(log) + calls;
          return;
        }
      }
      assert calls[..|calls|] == calls;
      return Pass;
    }

    /** The methods of `CertConsumer`, by call. */
    method Dispatch(call: ConsumerCall) returns (r: Outcome)
      requires out.Valid() && out.currentDepth < MAX_DEPTH
      modifies out, out.buf, out.depth
      ensures out.Valid() && (r == Fail(Panic) <==> Panics(call))
      ensures Panics(call) ==> out.Stack() == old(out.Stack()) && out.currentDepth == old(out.currentDepth)
      ensures !Panics(call) ==> After(out.Stack(), r) == Do(old(out.Stack()), out.buf.Length, ToDer(call, date))
    {
      DoNeverPanics(out.Stack(), out.buf.Length, ToDer(call, date));
      hide Do, StackOf, ValidStarts, BitStrings.Contents, BitStrings.Encodable;
      match call
      case StartSeq => r := out.AddCompound(SEQUENCE);
      case StartSet => r := out.AddCompound(SET);
      case StartCompoundOStr => r := out.AddCompound(OCTET_STRING);
      case StartCtx(id) => r := out.AddCompound(ConstructedContextTag(id));
      case EndSeq => r := out.EndCompound();
      case EndSet => r := out.EndCompound();
      case EndCompoundOStr => r := out.EndCompound();
      case EndCtx => r := out.EndCompound();
      case BitStr(truncate, s) => r := BitStr(truncate, s);
      case OutOfBounds => r := Fail(Panic);
      case _ => r := PutValue(call);
    }

    predicate IsValue(call: ConsumerCall) {
      call.Integer? || call.Utf8Str? || call.OStr? || call.Boolean? || call.Ctx? || call.Oid? || call.UtcTime?
    }

    /** The calls that write one value that is not a bit string. */
    method PutValue(call: ConsumerCall) returns (r: Outcome)
      requires out.Valid() && IsValue(call)
      modifies out, out.buf
      ensures out.Valid() && out.currentDepth == old(out.currentDepth)
      ensures After(out.Stack(), r) == Do(old(out.Stack()), out.buf.Length, ToDer(call, date))
    {
      hide Do, StackOf, ValidStarts;
      match call
      case Integer(i) => r := out.AppendTlv(0x02, i);
      case Utf8Str(s) => r := out.AppendTlv(0x0c, s);
      case OStr(s) => r := out.AppendTlv(OCTET_STRING, s);
      case Boolean(b) => r := out.AppendTlv(0x01, if b then [0xFF] else [0x00]);
      case Ctx(id, val) => r := out.AppendTlv(ContextTag(id), val);
      case Oid(oid) => r := out.AppendTlv(OID, oid);
      case UtcTime(epoch) => r := out.AppendTlv(0x17, date(epoch));
    }

    /** Drops the trailing zero bytes, and the trailing zero bits of the last byte left. An
        empty string, or one of zeros that is to be truncated, makes the index wrap. */
    method BitStr(truncate: bool, s: seq<byte>) returns (r: Outcome)
      requires out.Valid()
      modifies out, out.buf
      ensures out.Valid() && (r == Fail(Panic) <==> !BitStrings.Encodable(truncate, s))
      ensures r == Fail(Panic) ==> out.Stack() == old(out.Stack()) && out.currentDepth == old(out.currentDepth)
      ensures BitStrings.Encodable(truncate, s) ==>
                After(out.Stack(), r) == Do(old(out.Stack()), out.buf.Length, Put(0x03, BitStrings.Contents(truncate, s)))
    {
      var lastByte := |s| - 1;
      if lastByte < 0 {
        return Fail(Panic);
      }
      var numOfZero: byte := 0;
      if truncate {
        while s[lastByte] == 0
          invariant 0 <= lastByte < |s|
          invariant forall i :: lastByte < i < |s| ==> s[i] == 0
          decreases lastByte
        {
          if lastByte == 0 {
            return Fail(Panic);
          }
          lastByte := lastByte - 1;
        }
        BitStrings.TrailingZerosSmall(s[lastByte]);
        numOfZero := BitStrings.TrailingZeros(s[lastByte]);
        assert lastByte == BitStrings.LastNonZero(s);
      } else {
        assert s[..lastByte + 1] == s;
      }
      DoNeverPanics(out.Stack(), out.buf.Length, Put(0x03, [numOfZero] + s[..lastByte + 1]));
      r := out.AppendTlv(0x03, [numOfZero] + s[..lastByte + 1]);
    }
  }

  lemma DoNeverPanics(s: Stack, cap: nat, call: Call)
    ensures Do(s, cap, call).r != Fail(Panic)
  {
  }

  lemma LoggedOne(start: Stack, cap: nat, log: seq<ConsumerCall>, s: Stack, call: ConsumerCall, date: nat -> seq<byte>)
    requires Run(start, cap, ToDerAll(log, date)) == After(s, Pass)
    ensures Run(start, cap, ToDerAll(log + [call], date)) == Do(s, cap, ToDer(call, date))
  {
    ToDerConcat(log, [call], date);
    assert ToDerAll([call], date) == [ToDer(call, date)] by {
      assert [call][1..] == [];
    }
    RunConcat(start, cap, ToDerAll(log, date), [ToDer(call, date)]);
    RunOne(s, cap, ToDer(call, date));
  }

  lemma PassKeepsRoom(s: Stack, cap: nat, call: Call)
    requires Depth(s) < MAX_DEPTH
    ensures Do(s, cap, call).r.Pass? ==> Depth(Do(s, cap, call).stack) < MAX_DEPTH
  {
  }

  // ---------------------------------------------------------------- the encoder

  method EncodeDistNames(dn: seq<(nat, nat)>, w: Consumer) returns (r: Outcome)
    requires w.Logged(Pass)
    modifies w, w.out, w.out.buf, w.out.depth
    ensures w.Logged(r) && Wrote(old(w.log), w.log, DistNamesCalls(dn), r)
  {
    hide w.Logged, DnCalls, OneDnCalls;
    ghost var all := old(w.log) + DistNamesCalls(dn);
    assert [StartSeq] + (DnCalls(dn) + [EndSeq]) == DistNamesCalls(dn);
    Next(w.log, [StartSeq], DnCalls(dn) + [EndSeq], all);
    :- w.ConsumeAll([StartSeq]);
    for i := 0 to |dn|
      invariant w.Logged(Pass) && w.log + (DnCalls(dn[i..]) + [EndSeq]) == all
    {
      var (id, value) := dn[i];
      DnStep(dn, i, [EndSeq]);
      Next(w.log, OneDnCalls(id, value), DnCalls(dn[i + 1..]) + [EndSeq], all);
      :- EncodeOneDn(id, value, w);
    }
    assert dn[|dn|..] == [];
    DnCallsEmpty();
    assert w.log + [EndSeq] == all;
    r := w.ConsumeAll([EndSeq]);
  }

  lemma DnStep(dn: seq<(nat, nat)>, i: nat, rest: seq<ConsumerCall>)
    requires i < |dn|
    ensures DnCalls(dn[i..]) + rest == OneDnCalls(dn[i].0, dn[i].1) + (DnCalls(dn[i + 1..]) + rest)
  {
    assert dn[i..][1..] == dn[i + 1..];
  }

  lemma DnCallsEmpty()
    ensures DnCalls([]) + [EndSeq] == [EndSeq]
  {
  }

  method EncodeOneDn(id: nat, value: nat, w: Consumer) returns (r: Outcome)
    requires w.Logged(Pass)
    modifies w, w.out, w.out.buf, w.out.depth
    ensures w.Logged(r) && Wrote(old(w.log), w.log, OneDnCalls(id, value), r)
  {
    if 17 <= id <= NOC_CAT {
      var width := if id == NOC_CAT then 8 else 16;
      r := w.ConsumeAll([StartSet, StartSeq, Oid(MatterOid(id)), Utf8Str(Hex(value, width)), EndSeq, EndSet]);
    } else {
      r := Pass;
    }
  }

  method EncodeExtendedKeyUsage(list: seq<byte>, w: Consumer) returns (r: Outcome)
    requires w.Logged(Pass)
    modifies w, w.out, w.out.buf, w.out.depth
    ensures w.Logged(r) && Wrote(old(w.log), w.log, [StartSeq] + PurposeCalls(list) + [EndSeq], r)
  {
    hide w.Logged, PurposeCalls;
    ghost var all := old(w.log) + ([StartSeq] + PurposeCalls(list) + [EndSeq]);
    assert [StartSeq] + PurposeCalls(list) + [EndSeq] == [StartSeq] + (PurposeCalls(list) + [EndSeq]);
    Next(w.log, [StartSeq], PurposeCalls(list) + [EndSeq], all);
    :- w.ConsumeAll([StartSeq]);
    for i := 0 to |list|
      invariant w.Logged(Pass) && w.log + (PurposeCalls(list[i..]) + [EndSeq]) == all
    {
      PurposeStep(list, i, [EndSeq]);
      var t := list[i];
      if 0 < t <= 7 {
        var row := if t == 7 then OutOfBounds else Oid(KeyPurposeOid(t));
        Next(w.log, [row], PurposeCalls(list[i + 1..]) + [EndSeq], all);
        :- w.ConsumeAll([row]);
      }
    }
    assert list[|list|..] == [];
    PurposeCallsEmpty();
    assert w.log + [EndSeq] == all;
    r := w.ConsumeAll([EndSeq]);
  }

  lemma PurposeStep(list: seq<byte>, i: nat, rest: seq<ConsumerCall>)
    requires i < |list|
    ensures PurposeCalls(list[i..]) + rest
         == if 1 <= list[i] <= 6 then [Oid(KeyPurposeOid(list[i]))] + (PurposeCalls(list[i + 1..]) + rest)
            else if list[i] == 7 then [OutOfBounds] + (PurposeCalls(list[i + 1..]) + rest)
            else PurposeCalls(list[i + 1..]) + rest
  {
    assert list[i..][1..] == list[i + 1..];
  }

  lemma PurposeCallsEmpty()
    ensures PurposeCalls([]) + [EndSeq] == [EndSeq]
  {
  }

  method EncodeExtKeyUsagePart(x: Extensions, w: Consumer) returns (r: Outcome)
    requires w.Logged(Pass)
    modifies w, w.out, w.out.buf, w.out.depth
    ensures w.Logged(r) && Wrote(old(w.log), w.log, ExtKeyUsagePart(x), r)
  {
    hide w.Logged, PurposeCalls;
    if x.extKeyUsage.None? {
      return Pass;
    }
    var list := x.extKeyUsage.value;
    var first := ExtensionStart(true, OID_EXT_KEY_USAGE);
    ghost var middle := [StartSeq] + PurposeCalls(list) + [EndSeq];
    ghost var all := old(w.log) + ExtKeyUsagePart(x);
    assert ExtKeyUsagePart(x) == first + (middle + EXTENSION_END);
    Next(w.log, first, middle + EXTENSION_END, all);
    :- w.ConsumeAll(first);
    Next(w.log, middle, EXTENSION_END, all);
    :- EncodeExtendedKeyUsage(list, w);
    r := w.ConsumeAll(EXTENSION_END);
  }

  /** The critical extensions, and then the key identifiers. */
  method EncodeUsages(x: Extensions, w: Consumer) returns (r: Outcome)
    requires w.Logged(Pass)
    modifies w, w.out, w.out.buf, w.out.depth
    ensures w.Logged(r)
    ensures Wrote(old(w.log), w.log, BasicConstraintsPart(x) + (KeyUsagePart(x) + ExtKeyUsagePart(x)), r)
  {
    hide w.Logged, BasicConstraintsPart, KeyUsagePart, ExtKeyUsagePart;
    ghost var all := old(w.log) + (BasicConstraintsPart(x) + (KeyUsagePart(x) + ExtKeyUsagePart(x)));
    Next(w.log, BasicConstraintsPart(x), KeyUsagePart(x) + ExtKeyUsagePart(x), all);
    :- w.ConsumeAll(BasicConstraintsPart(x));
    Next(w.log, KeyUsagePart(x), ExtKeyUsagePart(x), all);
    :- w.ConsumeAll(KeyUsagePart(x));
    r := EncodeExtKeyUsagePart(x, w);
  }

  method EncodeKeyIds(x: Extensions, w: Consumer) returns (r: Outcome)
    requires w.Logged(Pass)
    modifies w, w.out, w.out.buf, w.out.depth
    ensures w.Logged(r) && Wrote(old(w.log), w.log, SubjKeyIdPart(x) + AuthKeyIdPart(x), r)
  {
    hide w.Logged, SubjKeyIdPart, AuthKeyIdPart;
    Next(w.log, SubjKeyIdPart(x), AuthKeyIdPart(x), old(w.log) + (SubjKeyIdPart(x) + AuthKeyIdPart(x)));
    :- w.ConsumeAll(SubjKeyIdPart(x));
    r := w.ConsumeAll(AuthKeyIdPart(x));
  }

  lemma ExtensionsRuns(x: Extensions)
    ensures ExtensionsCalls(x)
         == [StartCtx(3), StartSeq] + (BasicConstraintsPart(x) + (KeyUsagePart(x) + ExtKeyUsagePart(x))
            + (SubjKeyIdPart(x) + AuthKeyIdPart(x) + [EndSeq, EndCtx]))
  {
    hide BasicConstraintsPart, KeyUsagePart, ExtKeyUsagePart, SubjKeyIdPart, AuthKeyIdPart;
  }

  method EncodeExtensions(x: Extensions, w: Consumer) returns (r: Outcome)
    requires w.Logged(Pass)
    modifies w, w.out, w.out.buf, w.out.depth
    ensures w.Logged(r) && Wrote(old(w.log), w.log, ExtensionsCalls(x), r)
  {
    hide w.Logged, ExtensionsCalls, BasicConstraintsPart, KeyUsagePart, ExtKeyUsagePart, SubjKeyIdPart, AuthKeyIdPart;
    ghost var all := old(w.log) + ExtensionsCalls(x);
    ghost var usages := BasicConstraintsPart(x) + (KeyUsagePart(x) + ExtKeyUsagePart(x));
    ghost var ids := SubjKeyIdPart(x) + AuthKeyIdPart(x);
    ExtensionsRuns(x);
    Next(w.log, [StartCtx(3), StartSeq], usages + (ids + [EndSeq, EndCtx]), all);
    :- w.ConsumeAll([StartCtx(3), StartSeq]);
    Next(w.log, usages, ids + [EndSeq, EndCtx], all);
    :- EncodeUsages(x, w);
    Next(w.log, ids, [EndSeq, EndCtx], all);
    :- EncodeKeyIds(x, w);
    r := w.ConsumeAll([EndSeq, EndCtx]);
  }

  method EncodeMiddle(c: Cert, w: Consumer) returns (r: Outcome)
    requires w.Logged(Pass)
    modifies w, w.out, w.out.buf, w.out.depth
    ensures w.Logged(r) && Wrote(old(w.log), w.log, MiddleCalls(c), r)
  {
    hide w.Logged, DistNamesCalls;
    ghost var all := old(w.log) + MiddleCalls(c);
    ghost var r3: seq<ConsumerCall> := [StartSeq, StartSeq];
    ghost var r2 := DistNamesCalls(c.subject) + r3;
    ghost var r1 := [StartSeq, UtcTime(c.notBefore), UtcTime(c.notAfter), EndSeq] + r2;
    ghost var r0 := DistNamesCalls(c.issuer) + r1;
    assert MiddleCalls(c) == [Oid(OID_ECDSA_WITH_SHA256), EndSeq] + r0;
    Next(w.log, [Oid(OID_ECDSA_WITH_SHA256), EndSeq], r0, all);
    :- w.ConsumeAll([Oid(OID_ECDSA_WITH_SHA256), EndSeq]);
    Next(w.log, DistNamesCalls(c.issuer), r1, all);
    :- EncodeDistNames(c.issuer, w);
    Next(w.log, [StartSeq, UtcTime(c.notBefore), UtcTime(c.notAfter), EndSeq], r2, all);
    :- w.ConsumeAll([StartSeq, UtcTime(c.notBefore), UtcTime(c.notAfter), EndSeq]);
    Next(w.log, DistNamesCalls(c.subject), r3, all);
    :- EncodeDistNames(c.subject, w);
    r := w.ConsumeAll([StartSeq, StartSeq]);
  }

  method EncodeTail(c: Cert, w: Consumer) returns (r: Outcome)
    requires w.Logged(Pass)
    modifies w, w.out, w.out.buf, w.out.depth
    ensures w.Logged(r) && Wrote(old(w.log), w.log, TailCalls(c), r)
  {
    hide w.Logged, ExtensionsCalls;
    ghost var all := old(w.log) + TailCalls(c);
    var key := [Oid(OID_EC_TYPE_PRIME256V1), EndSeq, BitStr(false, c.pubkey), EndSeq];
    assert TailCalls(c) == key + (ExtensionsCalls(c.extensions) + [EndSeq]);
    Next(w.log, key, ExtensionsCalls(c.extensions) + [EndSeq], all);
    :- w.ConsumeAll(key);
    Next(w.log, ExtensionsCalls(c.extensions), [EndSeq], all);
    :- EncodeExtensions(c.extensions, w);
    r := w.ConsumeAll([EndSeq]);
  }

  /** `Cert::encode`. It stops at a call that fails, or it makes all its calls and
      ends as the trace says. */
  method EncodeCert(c: Cert, w: Consumer) returns (r: Outcome, ghost stopped: bool)
    requires w.Logged(Pass) && w.log == []
    modifies w, w.out, w.out.buf, w.out.depth
    ensures stopped ==> r.Fail? && w.Logged(r) && Wrote([], w.log, Encoding(c).calls, r)
    ensures !stopped ==> w.Logged(Pass) && w.log == Encoding(c).calls && r == Encoding(c).end
  {
    hide w.Logged, HeadCalls, MiddleCalls, TailCalls, Encoding, Panics;
    stopped := true;
    EncodingRuns(c);
    var head, oid := HeadCalls(c), [Oid(OID_PUB_KEY_ECPUBKEY)];
    assert [] + head == head;
    :- w.ConsumeAll(head);
    if c.signAlgo != 1 {
      return Fail(Invalid), false;
    }
    :- EncodeMiddle(c, w);
    if c.pubkeyAlgo != 1 {
      return Fail(Invalid), false;
    }
    :- w.ConsumeAll(oid);
    if c.ecCurveId != 1 {
      return Fail(Invalid), false;
    }
    :- EncodeTail(c, w);
    return Pass, false;
  }

  lemma EncodingRuns(c: Cert)
    ensures var calls := Encoding(c).calls; var end := Encoding(c).end;
            var (head, middle, oid) := (HeadCalls(c), MiddleCalls(c), [Oid(OID_PUB_KEY_ECPUBKEY)]);
            if c.signAlgo != 1 then calls == head && end == Fail(Invalid)
            else if c.pubkeyAlgo != 1 then head <= calls && calls == head + middle && end == Fail(Invalid)
            else
              head <= calls && head + middle <= calls && head + middle + oid <= calls
              && if c.ecCurveId != 1 then calls == head + middle + oid && end == Fail(Invalid)
                 else calls == head + middle + oid + TailCalls(c) && end == Pass
  {
    hide HeadCalls, MiddleCalls, TailCalls;
  }

  /** A first part without panics is not longer than what is in front of the first panic. */
  lemma {:induction false} CleanPart(log: seq<ConsumerCall>, calls: seq<ConsumerCall>)
    requires Clean(log) && log <= calls
    ensures log <= Before(calls)
    ensures log == calls || Panics(calls[|log|]) ==> log == Before(calls)
    ensures (log == calls ==> Clean(calls)) && (log < calls && Panics(calls[|log|]) ==> !Clean(calls))
  {
    hide Panics;
    if log != [] {
      CleanPart(log[1..], calls[1..]);
      assert calls[1..][|log| - 1..] == calls[|log|..];
      assert log[0] in log && calls[0] == log[0];
      assert log < calls ==> calls[1..][|log| - 1] == calls[|log|];
    }
  }

  lemma RunStopped(s: Stack, cap: nat, log: seq<ConsumerCall>, t: Trace, date: nat -> seq<byte>)
    requires Clean(log) && log <= t.calls && Run(s, cap, ToDerAll(log, date)).r.Fail?
    ensures RunTrace(s, cap, t, date) == Run(s, cap, ToDerAll(log, date))
  {
    CleanPart(log, t.calls);
    var front := Before(t.calls);
    var rest := front[|log|..];
    assert front == log + rest;
    ToDerConcat(log, rest, date);
    RunConcat(s, cap, ToDerAll(log, date), ToDerAll(rest, date));
  }

  // ---------------------------------------------------------------- the shape of a certificate

  /** At most `h` containers inside each other, and tags a reader can follow. */
  predicate Shaped(ts: seq<Tree>, h: nat) {
    HeightAll(ts) <= h && PrimTagsPrimitive(ts)
  }

  lemma {:induction false} ShapedConcat(a: seq<Tree>, b: seq<Tree>, h: nat)
    requires Shaped(a, h) && Shaped(b, h)
    ensures Shaped(a + b, h)
    decreases |a|
  {
    if a == [] {
      assert a + b == b;
    } else {
      assert (a + b)[1..] == a[1..] + b;
      ShapedConcat(a[1..], b, h);
    }
  }

  lemma ShapedPrim(tag: byte, content: seq<byte>)
    requires !Constructed(tag)
    ensures Shaped([Prim(tag, content)], 0)
  {
    assert [Prim(tag, content)][1..] == [];
  }

  lemma ShapedCons(tag: byte, ts: seq<Tree>, h: nat)
    requires Shaped(ts, h)
    ensures Shaped([Cons(tag, ts)], h + 1)
  {
    assert [Cons(tag, ts)][1..] == [];
  }

  lemma {:induction false} DnTreesShaped(dn: seq<(nat, nat)>)
    ensures Shaped(DnTrees(dn), 2)
  {
    if dn != [] {
      var (id, value) := dn[0];
      DnTreesShaped(dn[1..]);
      if 17 <= id <= NOC_CAT {
        OneDnShaped(id, value);
      }
      ShapedConcat(OneDnTrees(id, value), DnTrees(dn[1..]), 2);
    }
  }

  lemma OneDnShaped(id: nat, value: nat)
    requires 17 <= id <= NOC_CAT
    ensures Shaped(OneDnTrees(id, value), 2)
  {
    hide Shaped;
    var oid, text := MatterOid(id), Hex(value, if id == NOC_CAT then 8 else 16);
    PairShaped(Prim(OID, oid), Prim(0x0c, text));
    ShapedCons(SEQUENCE, [Prim(OID, oid), Prim(0x0c, text)], 0);
    ShapedCons(SET, [Cons(SEQUENCE, [Prim(OID, oid), Prim(0x0c, text)])], 1);
  }

  lemma PairShaped(t: Tree, u: Tree)
    requires t.Prim? && u.Prim? && !Constructed(t.tag) && !Constructed(u.tag)
    ensures Shaped([t, u], 0)
  {
    ShapedPrim(t.tag, t.content);
    ShapedPrim(u.tag, u.content);
    ShapedConcat([t], [u], 0);
    assert [t] + [u] == [t, u];
  }

  lemma {:induction false} PurposeTreesShaped(list: seq<byte>)
    ensures Shaped(PurposeTrees(list), 0)
  {
    if list != [] {
      PurposeTreesShaped(list[1..]);
      if 1 <= list[0] <= 6 {
        ShapedPrim(OID, KeyPurposeOid(list[0]));
        ShapedConcat([Prim(OID, KeyPurposeOid(list[0]))], PurposeTrees(list[1..]), 0);
      } else {
        assert [] + PurposeTrees(list[1..]) == PurposeTrees(list[1..]);
      }
    }
  }

  lemma ShapedMore(ts: seq<Tree>, h: nat, k: nat)
    requires Shaped(ts, h) && h <= k
    ensures Shaped(ts, k)
  {
  }

  lemma FlagShaped(b: bool)
    ensures Shaped(if b then [Prim(0x01, [0xFF])] else [], 0)
  {
    if b {
      ShapedPrim(0x01, [0xFF]);
    }
  }

  lemma ExtensionShaped(critical: bool, oid: seq<byte>, inner: Tree)
    requires Shaped([inner], 1)
    ensures Shaped([Extension(critical, oid, inner)], 3)
  {
    hide Shaped;
    var flag := if critical then [Prim(0x01, [0xFF])] else [];
    FlagShaped(critical);
    ShapedPrim(OID, oid);
    ShapedConcat([Prim(OID, oid)], flag, 0);
    ShapedMore([Prim(OID, oid)] + flag, 0, 2);
    ShapedCons(OCTET_STRING, [inner], 1);
    ShapedConcat([Prim(OID, oid)] + flag, [Cons(OCTET_STRING, [inner])], 2);
    ShapedCons(SEQUENCE, [Prim(OID, oid)] + flag + [Cons(OCTET_STRING, [inner])], 2);
  }

  lemma UsageTreesShaped(x: Extensions)
    requires x.keyUsage.Some? ==> 0 < x.keyUsage.value < 0x1_0000
    ensures Shaped(BasicConstraintsTree(x), 3) && Shaped(KeyUsageTree(x), 3) && Shaped(ExtKeyUsageTree(x), 3)
  {
    hide Shaped;
    NothingShaped();
    if x.basicConst.Some? {
      BasicConstraintsShaped(x);
    }
    if x.keyUsage.Some? {
      BitsShaped(true, OID_KEY_USAGE, KeyUsageBits(x.keyUsage.value));
    }
    if x.extKeyUsage.Some? {
      var list := PurposeTrees(x.extKeyUsage.value);
      PurposeTreesShaped(x.extKeyUsage.value);
      ShapedCons(SEQUENCE, list, 0);
      ExtensionShaped(true, OID_EXT_KEY_USAGE, Cons(SEQUENCE, list));
    }
  }

  lemma BitsShaped(critical: bool, oid: seq<byte>, s: seq<byte>)
    requires BitStrings.Encodable(true, s)
    ensures Shaped([Extension(critical, oid, BitString(true, s))], 3)
  {
    hide Shaped, BitStrings.Encodable, BitStrings.Contents;
    var t := BitString(true, s);
    ShapedPrim(t.tag, t.content);
    ShapedMore([t], 0, 1);
    ExtensionShaped(critical, oid, t);
  }

  lemma NothingShaped()
    ensures Shaped([], 3)
  {
  }

  lemma BasicConstraintsShaped(x: Extensions)
    requires x.basicConst.Some?
    ensures Shaped(BasicConstraintsTree(x), 3)
  {
    hide Shaped;
    var ts := if x.basicConst.value.isCa then [Prim(0x01, [0xFF])] else [];
    FlagShaped(x.basicConst.value.isCa);
    ShapedCons(SEQUENCE, ts, 0);
    ExtensionShaped(true, OID_BASIC_CONSTRAINTS, Cons(SEQUENCE, ts));
  }

  lemma KeyIdTreesShaped(x: Extensions)
    ensures Shaped(SubjKeyIdTree(x), 3) && Shaped(AuthKeyIdTree(x), 3)
  {
    if x.subjKeyId.Some? {
      ShapedPrim(OCTET_STRING, x.subjKeyId.value);
      ExtensionShaped(false, OID_SUBJ_KEY_IDENTIFIER, Prim(OCTET_STRING, x.subjKeyId.value));
    }
    if x.authKeyId.Some? {
      ShapedPrim(0x80, x.authKeyId.value);
      ShapedCons(SEQUENCE, [Prim(0x80, x.authKeyId.value)], 0);
      ExtensionShaped(false, OID_AUTH_KEY_ID, Cons(SEQUENCE, [Prim(0x80, x.authKeyId.value)]));
    }
  }

  lemma ExtensionTreesShaped(x: Extensions)
    requires x.keyUsage.Some? ==> 0 < x.keyUsage.value < 0x1_0000
    ensures Shaped([ExtensionList(x)], 5)
  {
    hide Shaped, BasicConstraintsTree, KeyUsageTree, ExtKeyUsageTree, SubjKeyIdTree, AuthKeyIdTree;
    UsageTreesShaped(x);
    KeyIdTreesShaped(x);
    var t1 := BasicConstraintsTree(x) + KeyUsageTree(x);
    ShapedConcat(BasicConstraintsTree(x), KeyUsageTree(x), 3);
    ShapedConcat(t1, ExtKeyUsageTree(x), 3);
    ShapedConcat(t1 + ExtKeyUsageTree(x), SubjKeyIdTree(x), 3);
    ShapedConcat(t1 + ExtKeyUsageTree(x) + SubjKeyIdTree(x), AuthKeyIdTree(x), 3);
    ShapedCons(SEQUENCE, ExtensionTrees(x), 3);
    ShapedCons(0xA3, [Cons(SEQUENCE, ExtensionTrees(x))], 4);
  }

  lemma NameShaped(dn: seq<(nat, nat)>)
    ensures Shaped([Name(dn)], 5)
  {
    DnTreesShaped(dn);
    ShapedCons(SEQUENCE, DnTrees(dn), 2);
  }

  lemma SmallPartsShaped(c: Cert, date: nat -> seq<byte>)
    requires Encodable(c)
    ensures Shaped([VERSION], 5) && Shaped([Prim(0x02, c.serialNo)], 5) && Shaped([ALGORITHM], 5)
    ensures Shaped([Validity(c, date)], 5) && Shaped([PublicKey(c)], 5)
  {
    ShapedPrim(0x02, c.serialNo);
    ShapedPrim(0x02, [2]);
    ShapedCons(0xA0, [Prim(0x02, [2])], 0);
    ShapedPrim(OID, OID_ECDSA_WITH_SHA256);
    ShapedCons(SEQUENCE, [Prim(OID, OID_ECDSA_WITH_SHA256)], 0);
    var before, after := Prim(0x17, date(c.notBefore)), Prim(0x17, date(c.notAfter));
    PairShaped(before, after);
    ShapedCons(SEQUENCE, [before, after], 0);
    PublicKeyShaped(c);
  }

  lemma PublicKeyShaped(c: Cert)
    requires Encodable(c)
    ensures Shaped([PublicKey(c)], 2)
  {
    hide Shaped;
    var x, y, key := Prim(OID, OID_PUB_KEY_ECPUBKEY), Prim(OID, OID_EC_TYPE_PRIME256V1), BitString(false, c.pubkey);
    PairShaped(x, y);
    ShapedCons(SEQUENCE, [x, y], 0);
    ShapedPrim(key.tag, key.content);
    ShapedMore([key], 0, 1);
    ShapedConcat([Cons(SEQUENCE, [x, y])], [key], 1);
    assert [Cons(SEQUENCE, [x, y])] + [key] == [Cons(SEQUENCE, [x, y]), key];
    ShapedCons(SEQUENCE, [Cons(SEQUENCE, [x, y]), key], 1);
  }

  /** At most six containers of a certificate are ever open. */
  lemma CertificateShaped(c: Cert, date: nat -> seq<byte>)
    requires Encodable(c)
    ensures Shaped([TbsCertificate(c, date)], 6)
  {
    hide Shaped, Validity, PublicKey, ExtensionList, Name;
    SmallPartsShaped(c, date);
    NameShaped(c.issuer);
    NameShaped(c.subject);
    ExtensionTreesShaped(c.extensions);
    var t := TbsCertificate(c, date).children;
    AllShaped(t, 5);
    ShapedCons(SEQUENCE, t, 5);
  }

  lemma {:induction false} AllShaped(ts: seq<Tree>, h: nat)
    requires forall t :: t in ts ==> Shaped([t], h)
    ensures Shaped(ts, h)
  {
    if ts != [] {
      AllShaped(ts[1..], h);
      ShapedConcat([ts[0]], ts[1..], h);
      assert [ts[0]] + ts[1..] == ts;
    }
  }

  /** So the depth is never the reason for a failure, and a definite-length reader
      finds in the bytes the structure that was meant. */
  lemma CertificateReadsBack(c: Cert, cap: nat, date: nat -> seq<byte>)
    requires Encodable(c)
    ensures var t := TbsCertificate(c, date);
            Height(t) <= 6
            && (Writable(Bottom([]), cap, t) <==> Small(t) && Peak(t) <= cap)
            && (Small(t) && |Encode(t)| + 12 <= cap ==> Writable(Bottom([]), cap, t))
            && (Small(t) ==> ReadAll(Encode(t)) == Some([Seen(t)]))
  {
    hide Peak, Small, Encode, Height, Seen, TbsCertificate;
    var t := TbsCertificate(c, date);
    CertificateShaped(c, date);
    OneTree(t);
    PeakBound(t);
    if Small(t) {
      ReadBack([t]);
    }
  }

  lemma OneTree(t: Tree)
    ensures HeightAll([t]) == Height(t) && EncodeAll([t]) == Encode(t) && SeenAll([t]) == [Seen(t)]
    ensures AllSmall([t]) == Small(t)
  {
    assert [t][1..] == [];
    assert Encode(t) + [] == Encode(t);
  }

  // ---------------------------------------------------------------- what stops with a panic

  lemma CleanConcat(a: seq<ConsumerCall>, b: seq<ConsumerCall>)
    ensures Clean(a + b) <==> Clean(a) && Clean(b)
  {
    hide Panics;
    assert forall call :: call in a + b <==> call in a || call in b;
  }

  lemma {:induction false} DnClean(dn: seq<(nat, nat)>)
    ensures Clean(DnCalls(dn))
  {
    if dn != [] {
      DnClean(dn[1..]);
      CleanConcat(OneDnCalls(dn[0].0, dn[0].1), DnCalls(dn[1..]));
    }
  }

  lemma DistNamesClean(dn: seq<(nat, nat)>)
    ensures Clean(DistNamesCalls(dn))
  {
    DnClean(dn);
    CleanConcat([StartSeq], DnCalls(dn));
    CleanConcat([StartSeq] + DnCalls(dn), [EndSeq]);
  }

  lemma {:induction false} PurposesClean(list: seq<byte>)
    ensures Clean(PurposeCalls(list)) <==> 7 !in list
  {
    if list != [] {
      PurposesClean(list[1..]);
      var here := if 1 <= list[0] <= 6 then [Oid(KeyPurposeOid(list[0]))] else if list[0] == 7 then [OutOfBounds] else [];
      CleanConcat(here, PurposeCalls(list[1..]));
      assert list[0] == 7 ==> here[0] in here;
      assert list == [list[0]] + list[1..];
    }
  }

  lemma Boxed(critical: bool, oid: seq<byte>, inner: seq<ConsumerCall>)
    ensures Clean(ExtensionStart(critical, oid) + inner + EXTENSION_END) <==> Clean(inner)
  {
    CleanConcat(ExtensionStart(critical, oid), inner);
    CleanConcat(ExtensionStart(critical, oid) + inner, EXTENSION_END);
  }

  lemma KeyUsageClean(usage: nat)
    ensures Clean(KeyUsageCalls(usage)) <==> 0 < usage < 0x1_0000
  {
    hide BitStrings.IntToBitString, BitStrings.Contents, BitStrings.StringBit, BitStrings.Bit, BitStrings.Length;
    if 0 < usage < 0x1_0000 {
      BitStrings.KeyUsageReadsBack(usage);
    } else {
      NoUsage();
      assert KeyUsageCalls(usage)[0] in KeyUsageCalls(usage);
    }
  }

  lemma NoUsage()
    ensures BitStrings.IntToBitString(0) == [0, 0]
  {
  }

  lemma PartsClean(x: Extensions)
    ensures Clean(BasicConstraintsPart(x)) && Clean(SubjKeyIdPart(x)) && Clean(AuthKeyIdPart(x))
    ensures Clean(KeyUsagePart(x)) <==> (x.keyUsage.Some? ==> 0 < x.keyUsage.value < 0x1_0000)
    ensures Clean(ExtKeyUsagePart(x)) <==> (x.extKeyUsage.Some? ==> 7 !in x.extKeyUsage.value)
  {
    hide Clean, ExtensionStart, PurposeCalls, KeyUsageCalls, BasicConstraintsCalls;
    OnlyStarts();
    IdsClean(x);
    if x.basicConst.Some? {
      BasicConstraintsClean(x.basicConst.value);
      Boxed(true, OID_BASIC_CONSTRAINTS, BasicConstraintsCalls(x.basicConst.value));
    }
    if x.keyUsage.Some? {
      KeyUsageClean(x.keyUsage.value);
      Boxed(true, OID_KEY_USAGE, KeyUsageCalls(x.keyUsage.value));
    }
    if x.extKeyUsage.Some? {
      var list := x.extKeyUsage.value;
      PurposesClean(list);
      CleanConcat([StartSeq], PurposeCalls(list));
      CleanConcat([StartSeq] + PurposeCalls(list), [EndSeq]);
      Boxed(true, OID_EXT_KEY_USAGE, [StartSeq] + PurposeCalls(list) + [EndSeq]);
    }
  }

  lemma BasicConstraintsClean(b: BasicConstraints)
    ensures Clean(BasicConstraintsCalls(b))
  {
  }

  lemma IdsClean(x: Extensions)
    ensures Clean(SubjKeyIdPart(x)) && Clean(AuthKeyIdPart(x)) && Clean([])
  {
  }

  lemma ExtensionsClean(x: Extensions)
    ensures Clean(ExtensionsCalls(x)) <==> EncodableExtensions(x)
  {
    hide Clean, BasicConstraintsPart, KeyUsagePart, ExtKeyUsagePart, SubjKeyIdPart, AuthKeyIdPart;
    PartsClean(x);
    ExtensionsRuns(x);
    OnlyStarts();
    var usages, ids := KeyUsagePart(x) + ExtKeyUsagePart(x), SubjKeyIdPart(x) + AuthKeyIdPart(x);
    CleanConcat(KeyUsagePart(x), ExtKeyUsagePart(x));
    CleanConcat(BasicConstraintsPart(x), usages);
    CleanConcat(SubjKeyIdPart(x), AuthKeyIdPart(x));
    CleanConcat(ids, [EndSeq, EndCtx]);
    CleanConcat(BasicConstraintsPart(x) + usages, ids + [EndSeq, EndCtx]);
    CleanConcat([StartCtx(3), StartSeq], BasicConstraintsPart(x) + usages + (ids + [EndSeq, EndCtx]));
  }

  lemma OnlyStarts()
    ensures Clean([StartCtx(3), StartSeq]) && Clean([EndSeq, EndCtx]) && Clean([StartSeq]) && Clean([EndSeq]) && Clean([Oid(OID_PUB_KEY_ECPUBKEY)])
  {
  }

  lemma PartsOfCertClean(c: Cert)
    ensures Clean(HeadCalls(c)) && Clean(MiddleCalls(c))
    ensures Clean([Oid(OID_EC_TYPE_PRIME256V1), EndSeq, BitStr(false, c.pubkey), EndSeq]) <==> c.pubkey != []
  {
    hide DistNamesCalls;
    var key := [Oid(OID_EC_TYPE_PRIME256V1), EndSeq, BitStr(false, c.pubkey), EndSeq];
    assert key[2] in key;
    DistNamesClean(c.issuer);
    DistNamesClean(c.subject);
    var m1 := [Oid(OID_ECDSA_WITH_SHA256), EndSeq];
    var m2 := [StartSeq, UtcTime(c.notBefore), UtcTime(c.notAfter), EndSeq];
    CleanConcat(m1, DistNamesCalls(c.issuer));
    CleanConcat(m1 + DistNamesCalls(c.issuer), m2);
    CleanConcat(m1 + DistNamesCalls(c.issuer) + m2, DistNamesCalls(c.subject));
    CleanConcat(m1 + DistNamesCalls(c.issuer) + m2 + DistNamesCalls(c.subject), [StartSeq, StartSeq]);
  }

  /** The encoder comes to a panic exactly for known algorithms and a certificate with an
      empty key, a key usage of zero or an extended key usage of 7. */
  lemma EncodingClean(c: Cert)
    ensures Clean(Encoding(c).calls) <==> (KnownAlgorithms(c) ==> Encodable(c))
  {
    hide Clean, HeadCalls, MiddleCalls, ExtensionsCalls, EncodableExtensions;
    var oid := [Oid(OID_PUB_KEY_ECPUBKEY)];
    var key := [Oid(OID_EC_TYPE_PRIME256V1), EndSeq, BitStr(false, c.pubkey), EndSeq];
    PartsOfCertClean(c);
    ExtensionsClean(c.extensions);
    OnlyStarts();
    CleanConcat(key, ExtensionsCalls(c.extensions));
    CleanConcat(key + ExtensionsCalls(c.extensions), [EndSeq]);
    CleanConcat(HeadCalls(c), MiddleCalls(c));
    CleanConcat(HeadCalls(c) + MiddleCalls(c), oid);
    CleanConcat(HeadCalls(c) + MiddleCalls(c) + oid, TailCalls(c));
  }

  lemma {:induction false} RunNeverPanics(s: Stack, cap: nat, calls: seq<Call>)
    ensures Run(s, cap, calls).r != Fail(Panic)
    decreases |calls|
  {
    if calls != [] {
      DoNeverPanics(s, cap, calls[0]);
      RunNeverPanics(Do(s, cap, calls[0]).stack, cap, calls[1..]);
    }
  }

  lemma CleanIsAll(calls: seq<ConsumerCall>)
    ensures Clean(calls) ==> Before(calls) == calls
  {
    if Clean(calls) {
      CleanPart(calls, calls);
    }
  }

  // ---------------------------------------------------------------- the whole certificate

  /** `Cert::as_asn1`: it succeeds exactly for known algorithms and a certificate that can
      be encoded and whose lengths and peak fit, and then the buffer begins with its
      encoding. It panics exactly for known algorithms and one that cannot be encoded,
      when there is room for all that comes in front of the panic. */
  method AsAsn1(c: Cert, buf: array<byte>, date: nat -> seq<byte>) returns (r: Result<seq<byte>, Error>)
    modifies buf
    ensures r.Ok? <==> KnownAlgorithms(c) && Encodable(c)
                       && Small(TbsCertificate(c, date)) && Peak(TbsCertificate(c, date)) <= buf.Length
    ensures r.Ok? ==> r.value == Encode(TbsCertificate(c, date)) && r.value <= buf[..]
    ensures r == Err(Panic) <==> KnownAlgorithms(c) && !Encodable(c)
                                 && Run(Bottom([]), buf.Length, ToDerAll(Before(Encoding(c).calls), date)).r.Pass?
  {
    hide Encoding, RunTrace, Run, TbsCertificate, Encodable, Small, Peak, Encode, Before;
    var out := new ASN1Writer(buf);
    var w := new Consumer(out, date);
    ghost var stopped;
    var o: Outcome;
    o, stopped := EncodeCert(c, w);
    RunTraceIs(c, w.log, out.Stack(), o, stopped, buf.Length, date);
    AsAsn1Outcome(c, buf.Length, date);
    if Encodable(c) {
      CertificateReadsBack(c, buf.Length, date);
    }
    if o.Fail? {
      return Err(o.error);
    }
    var s := out.AsSlice();
    return Ok(s);
  }

  /** What the encoder did is what the trace says. */
  lemma RunTraceIs(c: Cert, log: seq<ConsumerCall>, s: Stack, o: Outcome, stopped: bool, cap: nat, date: nat -> seq<byte>)
    requires Clean(log) && var a := Run(Bottom([]), cap, ToDerAll(log, date));
             if stopped then o.Fail? && Wrote([], log, Encoding(c).calls, o) && a == After(s, if o == Fail(Panic) then Pass else o)
             else log == Encoding(c).calls && a == After(s, Pass) && o == Encoding(c).end
    ensures RunTrace(Bottom([]), cap, Encoding(c), date) == After(s, o)
  {
    hide Encoding, Run, Panics;
    var calls := Encoding(c).calls;
    assert [] + calls == calls;
    CleanPart(log, calls);
    if stopped && o != Fail(Panic) {
      RunStopped(Bottom([]), cap, log, Encoding(c), date);
    }
  }

  lemma AsAsn1Outcome(c: Cert, cap: nat, date: nat -> seq<byte>)
    ensures var a := RunTrace(Bottom([]), cap, Encoding(c), date);
            (a.r.Pass? <==> KnownAlgorithms(c) && Encodable(c) && Writable(Bottom([]), cap, TbsCertificate(c, date)))
            && (a.r.Pass? ==> a.stack == Bottom(Encode(TbsCertificate(c, date))))
            && (a.r == Fail(Panic) <==>
                KnownAlgorithms(c) && !Encodable(c) && Run(Bottom([]), cap, ToDerAll(Before(Encoding(c).calls), date)).r.Pass?)
  {
    hide Run, Encode, Writable, TbsCertificate, HeadCalls, MiddleCalls, TailCalls, Before, Clean, Encodable;
    EncodingClean(c);
    CleanIsAll(Encoding(c).calls);
    RunNeverPanics(Bottom([]), cap, ToDerAll(Before(Encoding(c).calls), date));
    if KnownAlgorithms(c) && Encodable(c) {
      SpelledOutcome(Bottom([]), cap, Encoding(c).calls, TbsCertificate(c, date), date) by {
        EncodingSpells(c, date);
      }
      assert [] + Encode(TbsCertificate(c, date)) == Encode(TbsCertificate(c, date));
    } else if !KnownAlgorithms(c) {
      assert Encoding(c).end == Fail(Invalid);
    }
  }

  // ---------------------------------------------------------------- a panic in every buffer that is large enough

  /** The list up to the first 7. */
  function UpToSeven(list: seq<byte>): seq<byte> {
    if list == [] || list[0] == 7 then [] else [list[0]] + UpToSeven(list[1..])
  }

  /** The certificate with everything that panics put right. */
  function Repaired(c: Cert): (d: Cert)
    ensures Encodable(d) && (KnownAlgorithms(c) ==> KnownAlgorithms(d))
  {
    NoSeven(if c.extensions.extKeyUsage.Some? then c.extensions.extKeyUsage.value else []);
    c.(pubkey := if c.pubkey == [] then [4] else c.pubkey, extensions := RepairedExtensions(c.extensions))
  }

  function RepairedExtensions(x: Extensions): Extensions {
    x.(keyUsage := if x.keyUsage.Some? && !(0 < x.keyUsage.value < 0x1_0000) then Some(1) else x.keyUsage,
       extKeyUsage := if x.extKeyUsage.Some? then Some(UpToSeven(x.extKeyUsage.value)) else None)
  }

  lemma {:induction false} NoSeven(list: seq<byte>)
    ensures 7 !in UpToSeven(list)
  {
    if list != [] && list[0] != 7 {
      NoSeven(list[1..]);
    }
  }

  /** `b` does what `a` does, up to the first panic of `a`. */
  predicate Follows(a: seq<ConsumerCall>, b: seq<ConsumerCall>) {
    Before(a) <= b && (Clean(a) ==> a == b)
  }

  lemma FollowsItself(a: seq<ConsumerCall>)
    ensures Follows(a, a)
  {
    BeforeIsFirst(a);
  }

  lemma {:induction false} BeforeIsFirst(a: seq<ConsumerCall>)
    ensures Before(a) <= a
  {
    if a != [] {
      BeforeIsFirst(a[1..]);
    }
  }

  lemma {:induction false} BeforeConcat(a: seq<ConsumerCall>, b: seq<ConsumerCall>)
    ensures Before(a + b) == if Clean(a) then a + Before(b) else Before(a)
  {
    hide Panics;
    if a == [] {
      assert a + b == b && a + Before(b) == Before(b);
    } else {
      assert (a + b)[0] == a[0] && (a + b)[1..] == a[1..] + b;
      BeforeConcat(a[1..], b);
      CleanConcat([a[0]], a[1..]);
      assert a == [a[0]] + a[1..];
      assert [a[0]] + (a[1..] + Before(b)) == a + Before(b);
    }
  }

  lemma FollowsThen(a: seq<ConsumerCall>, b: seq<ConsumerCall>, c: seq<ConsumerCall>, d: seq<ConsumerCall>)
    requires Follows(a, b) && Follows(c, d)
    ensures Follows(a + c, b + d)
  {
    hide Clean, Before;
    BeforeConcat(a, c);
    CleanConcat(a, c);
    assert Clean(a) ==> a + Before(c) <= b + d;
  }

  lemma {:induction false} PurposesFollow(list: seq<byte>)
    ensures Follows(PurposeCalls(list), PurposeCalls(UpToSeven(list)))
  {
    hide Follows;
    FollowsItself([]);
    if list != [] {
      var here := if 1 <= list[0] <= 6 then [Oid(KeyPurposeOid(list[0]))] else [];
      if list[0] == 7 {
        PanicFollowed([OutOfBounds] + PurposeCalls(list[1..]), []);
      } else {
        PurposesFollow(list[1..]);
        FollowsItself(here);
        FollowsThen(here, here, PurposeCalls(list[1..]), PurposeCalls(UpToSeven(list[1..])));
        assert UpToSeven(list)[1..] == UpToSeven(list[1..]);
      }
    }
  }

  lemma PanicFollowed(a: seq<ConsumerCall>, b: seq<ConsumerCall>)
    requires a != [] && Panics(a[0])
    ensures Follows(a, b)
  {
    assert a[0] in a;
  }

  lemma BoxFollows(critical: bool, oid: seq<byte>, a: seq<ConsumerCall>, b: seq<ConsumerCall>)
    requires Follows(a, b)
    ensures Follows(ExtensionStart(critical, oid) + a + EXTENSION_END, ExtensionStart(critical, oid) + b + EXTENSION_END)
  {
    hide Follows, ExtensionStart, EXTENSION_END;
    FollowsItself(ExtensionStart(critical, oid));
    FollowsItself(EXTENSION_END);
    FollowsThen(ExtensionStart(critical, oid), ExtensionStart(critical, oid), a, b);
    FollowsThen(ExtensionStart(critical, oid) + a, ExtensionStart(critical, oid) + b, EXTENSION_END, EXTENSION_END);
  }

  lemma UsagesFollow(x: Extensions)
    ensures Follows(KeyUsagePart(x), KeyUsagePart(RepairedExtensions(x)))
    ensures Follows(ExtKeyUsagePart(x), ExtKeyUsagePart(RepairedExtensions(x)))
  {
    hide Follows, ExtensionStart, EXTENSION_END, PurposeCalls;
    FollowsItself([]);
    FollowsItself(KeyUsagePart(x));
    if x.keyUsage.Some? && !(0 < x.keyUsage.value < 0x1_0000) {
      KeyUsageClean(x.keyUsage.value);
      PanicFollowed(KeyUsageCalls(x.keyUsage.value), KeyUsageCalls(1));
      BoxFollows(true, OID_KEY_USAGE, KeyUsageCalls(x.keyUsage.value), KeyUsageCalls(1));
    }
    if x.extKeyUsage.Some? {
      var list := x.extKeyUsage.value;
      var a, b := PurposeCalls(list), PurposeCalls(UpToSeven(list));
      PurposesFollow(list);
      FollowsItself([StartSeq]);
      FollowsItself([EndSeq]);
      FollowsThen([StartSeq], [StartSeq], a, b);
      FollowsThen([StartSeq] + a, [StartSeq] + b, [EndSeq], [EndSeq]);
      BoxFollows(true, OID_EXT_KEY_USAGE, [StartSeq] + a + [EndSeq], [StartSeq] + b + [EndSeq]);
    }
  }

  lemma ExtensionsFollow(x: Extensions)
    ensures Follows(ExtensionsCalls(x), ExtensionsCalls(RepairedExtensions(x)))
  {
    hide Follows, BasicConstraintsPart, KeyUsagePart, ExtKeyUsagePart, SubjKeyIdPart, AuthKeyIdPart;
    var y := RepairedExtensions(x);
    SameParts(x);
    UsagesFollow(x);
    ExtensionsRuns(x);
    ExtensionsRuns(y);
    var ids := SubjKeyIdPart(x) + AuthKeyIdPart(x) + [EndSeq, EndCtx];
    FollowsItself(ids);
    FollowsItself(BasicConstraintsPart(x));
    FollowsItself([StartCtx(3), StartSeq]);
    var a, b := KeyUsagePart(x) + ExtKeyUsagePart(x), KeyUsagePart(y) + ExtKeyUsagePart(y);
    FollowsThen(KeyUsagePart(x), KeyUsagePart(y), ExtKeyUsagePart(x), ExtKeyUsagePart(y));
    FollowsThen(BasicConstraintsPart(x), BasicConstraintsPart(x), a, b);
    FollowsThen(BasicConstraintsPart(x) + a, BasicConstraintsPart(x) + b, ids, ids);
    FollowsThen([StartCtx(3), StartSeq], [StartCtx(3), StartSeq], BasicConstraintsPart(x) + a + ids, BasicConstraintsPart(x) + b + ids);
  }

  lemma SameParts(x: Extensions)
    ensures var y := RepairedExtensions(x);
            BasicConstraintsPart(y) == BasicConstraintsPart(x)
            && SubjKeyIdPart(y) == SubjKeyIdPart(x) && AuthKeyIdPart(y) == AuthKeyIdPart(x)
  {
  }

  lemma EncodingFollows(c: Cert)
    requires KnownAlgorithms(c)
    ensures Follows(Encoding(c).calls, Encoding(Repaired(c)).calls)
  {
    hide Follows, DistNamesCalls, ExtensionsCalls;
    var d := Repaired(c);
    var front := HeadCalls(c) + MiddleCalls(c) + [Oid(OID_PUB_KEY_ECPUBKEY)] + [Oid(OID_EC_TYPE_PRIME256V1), EndSeq];
    var a, b := [BitStr(false, c.pubkey), EndSeq], [BitStr(false, d.pubkey), EndSeq];
    var x, y := ExtensionsCalls(c.extensions), ExtensionsCalls(d.extensions);
    ExtensionsFollow(c.extensions);
    FollowsItself(front);
    FollowsItself(a);
    FollowsItself([EndSeq]);
    if c.pubkey == [] {
      PanicFollowed(a, b);
    }
    FollowsThen(front, front, a, b);
    FollowsThen(front + a, front + b, x, y);
    FollowsThen(front + a + x, front + b + y, [EndSeq], [EndSeq]);
    assert Encoding(c).calls == front + a + x + [EndSeq];
    assert Encoding(d).calls == front + b + y + [EndSeq];
  }

  lemma RunFirstPart(s: Stack, cap: nat, a: seq<ConsumerCall>, b: seq<ConsumerCall>, date: nat -> seq<byte>)
    requires a <= b && Run(s, cap, ToDerAll(b, date)).r.Pass?
    ensures Run(s, cap, ToDerAll(a, date)).r.Pass?
  {
    var rest := b[|a|..];
    assert b == a + rest;
    ToDerConcat(a, rest, date);
    RunConcat(s, cap, ToDerAll(a, date), ToDerAll(rest, date));
  }

  /** A certificate that cannot be encoded panics in every buffer that would hold it if it
      were put right. */
  lemma PanicsWithRoom(c: Cert, cap: nat, date: nat -> seq<byte>)
    requires KnownAlgorithms(c) && !Encodable(c)
    requires Writable(Bottom([]), cap, TbsCertificate(Repaired(c), date))
    ensures RunTrace(Bottom([]), cap, Encoding(c), date).r == Fail(Panic)
  {
    hide Run, Encode, Writable, TbsCertificate, Encoding, Before, Clean, Encodable, KnownAlgorithms, Repaired, RunTrace;
    EncodingFollows(c);
    EncodingSpells(Repaired(c), date);
    SpelledOutcome(Bottom([]), cap, Encoding(Repaired(c)).calls, TbsCertificate(Repaired(c), date), date);
    RunFirstPart(Bottom([]), cap, Before(Encoding(c).calls), Encoding(Repaired(c)).calls, date);
    AsAsn1Outcome(c, cap, date);
  }

  lemma SpelledOutcome(s: Stack, cap: nat, calls: seq<ConsumerCall>, t: Tree, date: nat -> seq<byte>)
    requires Spells(calls, [t], date)
    ensures var a := Run(s, cap, ToDerAll(calls, date));
            (a.r.Pass? <==> Writable(s, cap, t)) && (a.r.Pass? ==> a.stack == Add(s, Encode(t)))
  {
    hide Run, Encode, Writable, Calls;
    RunTree(s, cap, t);
    assert CallsAll([t]) == Calls(t) + [] == Calls(t);
  }
}

/**
 Matter certificates: the calls `Cert::encode` makes on its consumer, the X.509
 structure they spell (section 4.1 of RFC 5280), and the DER bytes that come out.
 The text of a date is not computed here: `date` stands for it.
 */
module Certs {
  import opened Bytes
  import opened Der
  import BitStrings
  import opened Asn1Writers

  datatype BasicConstraints = BasicConstraints(isCa: bool, path: Option<nat>)

  datatype Extensions = Extensions(
    basicConst: Option<BasicConstraints>,
    keyUsage: Option<nat>,
    extKeyUsage: Option<seq<byte>>,
    subjKeyId: Option<seq<byte>>,
    authKeyId: Option<seq<byte>>,
    futureExtensions: Option<seq<byte>>)

  datatype Cert = Cert(
    serialNo: seq<byte>,
    signAlgo: nat,
    issuer: seq<(nat, nat)>,
    notBefore: nat,
    notAfter: nat,
    subject: seq<(nat, nat)>,
    pubkeyAlgo: nat,
    ecCurveId: nat,
    pubkey: seq<byte>,
    extensions: Extensions,
    signature: seq<byte>)

  /** The methods of `CertConsumer`. */
  datatype ConsumerCall =
    | StartSeq | EndSeq
    | Integer(i: seq<byte>)
    | Utf8Str(s: seq<byte>)
    | BitStr(truncate: bool, bits: seq<byte>)
    | OStr(s: seq<byte>)
    | StartCompoundOStr | EndCompoundOStr
    | Boolean(b: bool)
    | StartSet | EndSet
    | Ctx(id: byte, val: seq<byte>)
    | StartCtx(id: byte) | EndCtx
    | Oid(oid: seq<byte>)
    | UtcTime(epoch: nat)
    | OutOfBounds // no method: the encoder reads behind the end of a table

  /** What the encoder does: calls on the consumer, and then the end of the
      structure or an error of its own. */
  datatype Trace = Trace(calls: seq<ConsumerCall>, end: Outcome)

  // ---------------------------------------------------------------- the encoder

  const OID_PUB_KEY_ECPUBKEY: seq<byte> := [0x2A, 0x86, 0x48, 0xCE, 0x3D, 0x02, 0x01]
  const OID_EC_TYPE_PRIME256V1: seq<byte> := [0x2A, 0x86, 0x48, 0xCE, 0x3D, 0x03, 0x01, 0x07]
  const OID_ECDSA_WITH_SHA256: seq<byte> := [0x2A, 0x86, 0x48, 0xCE, 0x3D, 0x04, 0x03, 0x02]
  const OID_BASIC_CONSTRAINTS: seq<byte> := [0x55, 0x1D, 0x13]
  const OID_KEY_USAGE: seq<byte> := [0x55, 0x1D, 0x0F]
  const OID_EXT_KEY_USAGE: seq<byte> := [0x55, 0x1D, 0x25]
  const OID_SUBJ_KEY_IDENTIFIER: seq<byte> := [0x55, 0x1D, 0x0E]
  const OID_AUTH_KEY_ID: seq<byte> := [0x55, 0x1D, 0x23]

  const NOC_CAT := 22

  /** The names of the Matter attributes differ in their last byte only. */
  function MatterOid(id: nat): seq<byte>
    requires 17 <= id <= NOC_CAT
  {
    [0x2B, 0x06, 0x01, 0x04, 0x01, 0x82, 0xA2, 0x7C, 0x01, id - 16]
  }

  function KeyPurposeOid(t: nat): seq<byte>
    requires 1 <= t <= 6
  {
    [0x2B, 0x06, 0x01, 0x05, 0x05, 0x07, 0x03] + [if t <= 4 then t else t + 3]
  }

  function HexDigit(d: nat): byte
    requires d < 16
  {
    if d < 10 then 0x30 + d else 0x41 + (d - 10)
  }

  /** The upper-case hexadecimal digits of `v`, at least `width` of them. */
  function Hex(v: nat, width: nat): (s: seq<byte>)
    ensures |s| >= 1 && |s| >= width
  {
    if v < 16 && width <= 1 then [HexDigit(v)]
    else Hex(v / 16, if width > 0 then width - 1 else 0) + [HexDigit(v % 16)]
  }

  function HexValue(s: seq<byte>): int {
    if s == [] then 0
    else
      var d: int := s[|s| - 1];
      HexValue(s[..|s| - 1]) * 16 + if d < 0x41 then d - 0x30 else d - 0x41 + 10
  }

  /** The text of a name reads back as the number it was made from. */
  lemma {:induction false} HexReadsBack(v: nat, width: nat)
    ensures HexValue(Hex(v, width)) == v
    decreases v, width
  {
    var s := Hex(v, width);
    if v < 16 && width <= 1 {
      assert s[..0] == [];
    } else {
      HexReadsBack(v / 16, if width > 0 then width - 1 else 0);
      assert s[..|s| - 1] == Hex(v / 16, if width > 0 then width - 1 else 0);
    }
  }

  function Pow16(n: nat): (p: nat)
    ensures p >= 1
  {
    if n == 0 then 1 else 16 * Pow16(n - 1)
  }

  /** One of the digits 0 to 9 and A to F. */
  predicate UpperHexDigit(b: byte) {
    0x30 <= b <= 0x39 || 0x41 <= b <= 0x46
  }

  /** The text of a number has exactly `width` digits when they are enough, and otherwise
      as many as it needs: it does not begin with a zero then. */
  lemma {:induction false} HexDigits(v: nat, width: nat)
    requires width > 0
    ensures forall i :: 0 <= i < |Hex(v, width)| ==> UpperHexDigit(Hex(v, width)[i])
    ensures v < Pow16(width) ==> |Hex(v, width)| == width
    ensures v >= Pow16(width) ==> |Hex(v, width)| > width && Hex(v, width)[0] != 0x30
    decreases width, v
  {
    if width > 1 {
      HexDigits(v / 16, width - 1);
    } else if v >= 16 {
      HexNeeds(v / 16);
    }
  }

  lemma {:induction false} HexNeeds(v: nat)
    requires v > 0
    ensures forall i :: 0 <= i < |Hex(v, 0)| ==> UpperHexDigit(Hex(v, 0)[i])
    ensures Hex(v, 0)[0] != 0x30
    decreases v
  {
    if v >= 16 {
      HexNeeds(v / 16);
    }
  }

  /** The text of a Matter name: 16 upper-case digits of a 64-bit number, 8 of a 32-bit one. */
  lemma NameText(v: nat, width: nat)
    requires (width == 16 && v < 0x1_0000_0000_0000_0000) || (width == 8 && v < 0x1_0000_0000)
    ensures var text := Hex(v, width);
            |text| == width && (forall i :: 0 <= i < width ==> UpperHexDigit(text[i])) && HexValue(text) == v
  {
    assert Pow16(4) == 0x1_0000;
    assert Pow16(8) == 0x1_0000_0000;
    assert Pow16(12) == 0x1_0000_0000_0000;
    assert Pow16(16) == 0x1_0000_0000_0000_0000;
    HexDigits(v, width);
    HexReadsBack(v, width);
  }

  function DnCalls(dn: seq<(nat, nat)>): seq<ConsumerCall> {
    if dn == [] then [] else OneDnCalls(dn[0].0, dn[0].1) + DnCalls(dn[1..])
  }

  /** Names that are not Matter's are skipped. */
  function OneDnCalls(id: nat, value: nat): seq<ConsumerCall> {
    if !(17 <= id <= NOC_CAT) then []
    else [StartSet, StartSeq, Oid(MatterOid(id)), Utf8Str(Hex(value, if id == NOC_CAT then 8 else 16)), EndSeq, EndSet]
  }

  function DistNamesCalls(dn: seq<(nat, nat)>): seq<ConsumerCall> {
    [StartSeq] + DnCalls(dn) + [EndSeq]
  }

  function ExtensionStart(critical: bool, oid: seq<byte>): seq<ConsumerCall> {
    [StartSeq, Oid(oid)] + (if critical then [Boolean(true)] else []) + [StartCompoundOStr]
  }

  const EXTENSION_END: seq<ConsumerCall> := [EndCompoundOStr, EndSeq]

  /** The table of purposes has seven rows, counted from 0, and 7 is let through to it. */
  function PurposeCalls(list: seq<byte>): seq<ConsumerCall> {
    if list == [] then []
    else
      (if 1 <= list[0] <= 6 then [Oid(KeyPurposeOid(list[0]))] else if list[0] == 7 then [OutOfBounds] else [])
      + PurposeCalls(list[1..])
  }

  function BasicConstraintsCalls(b: BasicConstraints): seq<ConsumerCall> {
    [StartSeq] + (if b.isCa then [Boolean(true)] else []) + [EndSeq]
  }

  function KeyUsageCalls(usage: nat): seq<ConsumerCall> {
    [BitStr(true, if usage < 0x1_0000 then BitStrings.IntToBitString(usage) else [])]
  }

  function BasicConstraintsPart(x: Extensions): seq<ConsumerCall> {
    match x.basicConst
    case None => []
    case Some(b) => ExtensionStart(true, OID_BASIC_CONSTRAINTS) + BasicConstraintsCalls(b) + EXTENSION_END
  }

  function KeyUsagePart(x: Extensions): seq<ConsumerCall> {
    match x.keyUsage
    case None => []
    case Some(usage) => ExtensionStart(true, OID_KEY_USAGE) + KeyUsageCalls(usage) + EXTENSION_END
  }

  function ExtKeyUsagePart(x: Extensions): seq<ConsumerCall> {
    match x.extKeyUsage
    case None => []
    case Some(list) =>
      ExtensionStart(true, OID_EXT_KEY_USAGE) + ([StartSeq] + PurposeCalls(list) + [EndSeq]) + EXTENSION_END
  }

  function SubjKeyIdPart(x: Extensions): seq<ConsumerCall> {
    match x.subjKeyId
    case None => []
    case Some(id) => ExtensionStart(false, OID_SUBJ_KEY_IDENTIFIER) + [OStr(id)] + EXTENSION_END
  }

  function AuthKeyIdPart(x: Extensions): seq<ConsumerCall> {
    match x.authKeyId
    case None => []
    case Some(id) => ExtensionStart(false, OID_AUTH_KEY_ID) + [StartSeq, Ctx(0, id), EndSeq] + EXTENSION_END
  }

  /** Extensions of the future are logged and left out. */
  function ExtensionsCalls(x: Extensions): seq<ConsumerCall> {
    [StartCtx(3), StartSeq]
    + BasicConstraintsPart(x) + KeyUsagePart(x) + ExtKeyUsagePart(x) + SubjKeyIdPart(x) + AuthKeyIdPart(x)
    + [EndSeq, EndCtx]
  }

  function HeadCalls(c: Cert): seq<ConsumerCall> {
    [StartSeq, StartCtx(0), Integer([2]), EndCtx, Integer(c.serialNo), StartSeq]
  }

  function MiddleCalls(c: Cert): seq<ConsumerCall> {
    [Oid(OID_ECDSA_WITH_SHA256), EndSeq]
    + DistNamesCalls(c.issuer)
    + [StartSeq, UtcTime(c.notBefore), UtcTime(c.notAfter), EndSeq]
    + DistNamesCalls(c.subject)
    + [StartSeq, StartSeq]
  }

  function TailCalls(c: Cert): seq<ConsumerCall> {
    [Oid(OID_EC_TYPE_PRIME256V1), EndSeq, BitStr(false, c.pubkey), EndSeq]
    + ExtensionsCalls(c.extensions)
    + [EndSeq]
  }

  /** `Cert::encode`: an unknown algorithm or curve ends it with an error. */
  function Encoding(c: Cert): Trace {
    if c.signAlgo != 1 then Trace(HeadCalls(c), Fail(Invalid))
    else if c.pubkeyAlgo != 1 then Trace(HeadCalls(c) + MiddleCalls(c), Fail(Invalid))
    else if c.ecCurveId != 1 then Trace(HeadCalls(c) + MiddleCalls(c) + [Oid(OID_PUB_KEY_ECPUBKEY)], Fail(Invalid))
    else Trace(HeadCalls(c) + MiddleCalls(c) + [Oid(OID_PUB_KEY_ECPUBKEY)] + TailCalls(c), Pass)
  }

  // ---------------------------------------------------------------- the structure

  const SEQUENCE: byte := 0x30
  const SET: byte := 0x31
  const OID: byte := 0x06
  const OCTET_STRING: byte := 0x04

  function DnTrees(dn: seq<(nat, nat)>): seq<Tree> {
    if dn == [] then [] else OneDnTrees(dn[0].0, dn[0].1) + DnTrees(dn[1..])
  }

  function OneDnTrees(id: nat, value: nat): seq<Tree> {
    if !(17 <= id <= NOC_CAT) then []
    else
      var text := Hex(value, if id == NOC_CAT then 8 else 16);
      [Cons(SET, [Cons(SEQUENCE, [Prim(OID, MatterOid(id)), Prim(0x0c, text)])])]
  }

  function Name(dn: seq<(nat, nat)>): Tree {
    Cons(SEQUENCE, DnTrees(dn))
  }

  function Extension(critical: bool, oid: seq<byte>, inner: Tree): Tree {
    Cons(SEQUENCE, [Prim(OID, oid)] + (if critical then [Prim(0x01, [0xFF])] else []) + [Cons(OCTET_STRING, [inner])])
  }

  function PurposeTrees(list: seq<byte>): seq<Tree> {
    if list == [] then []
    else (if 1 <= list[0] <= 6 then [Prim(OID, KeyPurposeOid(list[0]))] else []) + PurposeTrees(list[1..])
  }

  function BasicConstraintsTree(x: Extensions): seq<Tree> {
    match x.basicConst
    case None => []
    case Some(b) =>
      [Extension(true, OID_BASIC_CONSTRAINTS, Cons(SEQUENCE, if b.isCa then [Prim(0x01, [0xFF])] else []))]
  }

  function KeyUsageTree(x: Extensions): seq<Tree>
    requires x.keyUsage.Some? ==> 0 < x.keyUsage.value < 0x1_0000
  {
    match x.keyUsage
    case None => []
    case Some(usage) => [Extension(true, OID_KEY_USAGE, BitString(true, KeyUsageBits(usage)))]
  }

  function ExtKeyUsageTree(x: Extensions): seq<Tree> {
    match x.extKeyUsage
    case None => []
    case Some(list) => [Extension(true, OID_EXT_KEY_USAGE, Cons(SEQUENCE, PurposeTrees(list)))]
  }

  function SubjKeyIdTree(x: Extensions): seq<Tree> {
    match x.subjKeyId
    case None => []
    case Some(id) => [Extension(false, OID_SUBJ_KEY_IDENTIFIER, Prim(OCTET_STRING, id))]
  }

  function AuthKeyIdTree(x: Extensions): seq<Tree> {
    match x.authKeyId
    case None => []
    case Some(id) => [Extension(false, OID_AUTH_KEY_ID, Cons(SEQUENCE, [Prim(0x80, id)]))]
  }

  function ExtensionTrees(x: Extensions): seq<Tree>
    requires x.keyUsage.Some? ==> 0 < x.keyUsage.value < 0x1_0000
  {
    BasicConstraintsTree(x) + KeyUsageTree(x) + ExtKeyUsageTree(x) + SubjKeyIdTree(x) + AuthKeyIdTree(x)
  }

  function KeyUsageBits(usage: nat): (s: seq<byte>)
    requires 0 < usage < 0x1_0000
    ensures BitStrings.Encodable(true, s)
  {
    BitStrings.KeyUsageReadsBack(usage);
    BitStrings.IntToBitString(usage)
  }

  function BitString(truncate: bool, s: seq<byte>): Tree
    requires BitStrings.Encodable(truncate, s)
  {
    Prim(0x03, BitStrings.Contents(truncate, s))
  }

  /** The values the source can encode without a panic. */
  predicate Encodable(c: Cert) {
    c.pubkey != [] && EncodableExtensions(c.extensions)
  }

  predicate EncodableExtensions(x: Extensions) {
    (x.keyUsage.Some? ==> 0 < x.keyUsage.value < 0x1_0000) && (x.extKeyUsage.Some? ==> 7 !in x.extKeyUsage.value)
  }

  /** The source stops with a panic at this call. */
  predicate Panics(call: ConsumerCall) {
    call.OutOfBounds? || (call.BitStr? && !BitStrings.Encodable(call.truncate, call.bits))
  }

  predicate KnownAlgorithms(c: Cert) {
    c.signAlgo == 1 && c.pubkeyAlgo == 1 && c.ecCurveId == 1
  }

  const VERSION: Tree := Cons(0xA0, [Prim(0x02, [2])])
  const ALGORITHM: Tree := Cons(SEQUENCE, [Prim(OID, OID_ECDSA_WITH_SHA256)])

  function Validity(c: Cert, date: nat -> seq<byte>): Tree {
    Cons(SEQUENCE, [Prim(0x17, date(c.notBefore)), Prim(0x17, date(c.notAfter))])
  }

  function PublicKey(c: Cert): Tree
    requires Encodable(c)
  {
    Cons(SEQUENCE, [
      Cons(SEQUENCE, [Prim(OID, OID_PUB_KEY_ECPUBKEY), Prim(OID, OID_EC_TYPE_PRIME256V1)]),
      BitString(false, c.pubkey)])
  }

  function ExtensionList(x: Extensions): Tree
    requires x.keyUsage.Some? ==> 0 < x.keyUsage.value < 0x1_0000
  {
    Cons(0xA3, [Cons(SEQUENCE, ExtensionTrees(x))])
  }

  /** The to-be-signed certificate. */
  function TbsCertificate(c: Cert, date: nat -> seq<byte>): Tree
    requires Encodable(c)
  {
    Cons(SEQUENCE, [
      VERSION, Prim(0x02, c.serialNo), ALGORITHM, Name(c.issuer), Validity(c, date),
      Name(c.subject), PublicKey(c), ExtensionList(c.extensions)])
  }

  // ---------------------------------------------------------------- what calls spell

  /** `0x80 | id`. */
  function ContextTag(id: byte): byte {
    if id < 0x80 then 0x80 + id else id
  }

  /** `0xA0 | id`. */
  function ConstructedContextTag(id: byte): byte {
    id + (if id / 0x80 == 0 then 0x80 else 0) + (if id / 0x20 % 2 == 0 then 0x20 else 0)
  }

  /** The writer's step for a consumer call. A bit string the source cannot encode has none. */
  function ToDer(call: ConsumerCall, date: nat -> seq<byte>): Call {
    match call
    case StartSeq => Start(SEQUENCE)
    case StartSet => Start(SET)
    case StartCompoundOStr => Start(OCTET_STRING)
    case StartCtx(id) => Start(ConstructedContextTag(id))
    case Integer(i) => Put(0x02, i)
    case Utf8Str(s) => Put(0x0c, s)
    case BitStr(truncate, s) =>
      Put(0x03, if BitStrings.Encodable(truncate, s) then BitStrings.Contents(truncate, s) else [])
    case OStr(s) => Put(OCTET_STRING, s)
    case Boolean(b) => Put(0x01, if b then [0xFF] else [0x00])
    case Ctx(id, val) => Put(ContextTag(id), val)
    case Oid(oid) => Put(OID, oid)
    case UtcTime(epoch) => Put(0x17, date(epoch))
    case _ => End
  }

  function ToDerAll(calls: seq<ConsumerCall>, date: nat -> seq<byte>): (r: seq<Call>)
    ensures |r| == |calls|
  {
    if calls == [] then [] else [ToDer(calls[0], date)] + ToDerAll(calls[1..], date)
  }

  /** The calls are exactly the balanced calls that write `ts`. */
  predicate Spells(calls: seq<ConsumerCall>, ts: seq<Tree>, date: nat -> seq<byte>) {
    ToDerAll(calls, date) == CallsAll(ts)
  }

  lemma {:induction false} ToDerConcat(a: seq<ConsumerCall>, b: seq<ConsumerCall>, date: nat -> seq<byte>)
    ensures ToDerAll(a + b, date) == ToDerAll(a, date) + ToDerAll(b, date)
    decreases |a|
  {
    if a == [] {
      assert a + b == b;
    } else {
      assert (a + b)[1..] == a[1..] + b;
      ToDerConcat(a[1..], b, date);
    }
  }

  lemma {:induction false} CallsConcat(a: seq<Tree>, b: seq<Tree>)
    ensures CallsAll(a + b) == CallsAll(a) + CallsAll(b)
    decreases |a|
  {
    if a == [] {
      assert a + b == b;
    } else {
      assert (a + b)[1..] == a[1..] + b;
      CallsConcat(a[1..], b);
    }
  }

  lemma SpellsThen(a: seq<ConsumerCall>, ts: seq<Tree>, b: seq<ConsumerCall>, us: seq<Tree>, date: nat -> seq<byte>)
    requires Spells(a, ts, date) && Spells(b, us, date)
    ensures Spells(a + b, ts + us, date)
  {
    ToDerConcat(a, b, date);
    CallsConcat(ts, us);
  }

  lemma SpellsPrim(call: ConsumerCall, date: nat -> seq<byte>)
    requires ToDer(call, date).Put?
    ensures Spells([call], [Prim(ToDer(call, date).tag, ToDer(call, date).content)], date)
  {
    var t := Prim(ToDer(call, date).tag, ToDer(call, date).content);
    assert [call][1..] == [] && [t][1..] == [];
  }

  lemma SpellsCons(open: ConsumerCall, inner: seq<ConsumerCall>, close: ConsumerCall, ts: seq<Tree>, date: nat -> seq<byte>)
    requires Spells(inner, ts, date) && ToDer(open, date).Start? && ToDer(close, date).End?
    ensures Spells([open] + inner + [close], [Cons(ToDer(open, date).tag, ts)], date)
  {
    var t := Cons(ToDer(open, date).tag, ts);
    ToDerConcat([open] + inner, [close], date);
    ToDerConcat([open], inner, date);
    assert [open][1..] == [] && [close][1..] == [] && [t][1..] == [];
    assert CallsAll([t]) == Calls(t) + [];
  }

  lemma {:induction false} DnSpells(dn: seq<(nat, nat)>, date: nat -> seq<byte>)
    ensures Spells(DnCalls(dn), DnTrees(dn), date)
  {
    if dn != [] {
      var (id, value) := dn[0];
      DnSpells(dn[1..], date);
      OneDnSpells(id, value, date);
      SpellsThen(OneDnCalls(id, value), OneDnTrees(id, value), DnCalls(dn[1..]), DnTrees(dn[1..]), date);
    }
  }

  lemma OneDnSpells(id: nat, value: nat, date: nat -> seq<byte>)
    ensures Spells(OneDnCalls(id, value), OneDnTrees(id, value), date)
  {
    if 17 <= id <= NOC_CAT {
      hide Spells;
      var oid, text := MatterOid(id), Hex(value, if id == NOC_CAT then 8 else 16);
      SpellsPrim(Oid(oid), date);
      SpellsPrim(Utf8Str(text), date);
      SpellsThen([Oid(oid)], [Prim(OID, oid)], [Utf8Str(text)], [Prim(0x0c, text)], date);
      SpellsCons(StartSeq, [Oid(oid), Utf8Str(text)], EndSeq, [Prim(OID, oid), Prim(0x0c, text)], date);
      var inner := [StartSeq, Oid(oid), Utf8Str(text), EndSeq];
      assert [StartSeq] + [Oid(oid), Utf8Str(text)] + [EndSeq] == inner;
      SpellsCons(StartSet, inner, EndSet, [Cons(SEQUENCE, [Prim(OID, oid), Prim(0x0c, text)])], date);
      assert [StartSet] + inner + [EndSet] == OneDnCalls(id, value);
    }
  }

  lemma NameSpells(dn: seq<(nat, nat)>, date: nat -> seq<byte>)
    ensures Spells(DistNamesCalls(dn), [Name(dn)], date)
  {
    DnSpells(dn, date);
    SpellsCons(StartSeq, DnCalls(dn), EndSeq, DnTrees(dn), date);
  }

  lemma {:induction false} PurposesSpell(list: seq<byte>, date: nat -> seq<byte>)
    requires 7 !in list
    ensures Spells(PurposeCalls(list), PurposeTrees(list), date)
  {
    if list != [] {
      PurposesSpell(list[1..], date);
      if 1 <= list[0] <= 6 {
        SpellsPrim(Oid(KeyPurposeOid(list[0])), date);
        SpellsThen([Oid(KeyPurposeOid(list[0]))], [Prim(OID, KeyPurposeOid(list[0]))],
                   PurposeCalls(list[1..]), PurposeTrees(list[1..]), date);
      } else {
        assert [] + PurposeCalls(list[1..]) == PurposeCalls(list[1..]);
        assert [] + PurposeTrees(list[1..]) == PurposeTrees(list[1..]);
      }
    }
  }

  /** An optional flag: present as TRUE or not there at all. */
  lemma FlagSpells(b: bool, date: nat -> seq<byte>)
    ensures Spells(if b then [Boolean(true)] else [], if b then [Prim(0x01, [0xFF])] else [], date)
  {
    if b {
      SpellsPrim(Boolean(true), date);
    }
  }

  lemma ExtensionSpells(critical: bool, oid: seq<byte>, inner: seq<ConsumerCall>, t: Tree, date: nat -> seq<byte>)
    requires Spells(inner, [t], date)
    ensures Spells(ExtensionStart(critical, oid) + inner + EXTENSION_END, [Extension(critical, oid, t)], date)
  {
    hide Spells;
    var flagCalls: seq<ConsumerCall> := if critical then [Boolean(true)] else [];
    var flagTrees := if critical then [Prim(0x01, [0xFF])] else [];
    SpellsPrim(Oid(oid), date);
    FlagSpells(critical, date);
    SpellsThen([Oid(oid)], [Prim(OID, oid)], flagCalls, flagTrees, date);
    SpellsCons(StartCompoundOStr, inner, EndCompoundOStr, [t], date);
    var boxed := [StartCompoundOStr] + inner + [EndCompoundOStr];
    SpellsThen([Oid(oid)] + flagCalls, [Prim(OID, oid)] + flagTrees, boxed, [Cons(OCTET_STRING, [t])], date);
    SpellsCons(StartSeq, [Oid(oid)] + flagCalls + boxed, EndSeq,
               [Prim(OID, oid)] + flagTrees + [Cons(OCTET_STRING, [t])], date);
    assert ExtensionStart(critical, oid) + inner + EXTENSION_END
        == [StartSeq] + ([Oid(oid)] + flagCalls + boxed) + [EndSeq];
  }

  lemma BasicConstraintsSpell(b: BasicConstraints, date: nat -> seq<byte>)
    ensures Spells(BasicConstraintsCalls(b), [Cons(SEQUENCE, if b.isCa then [Prim(0x01, [0xFF])] else [])], date)
  {
    FlagSpells(b.isCa, date);
    SpellsCons(StartSeq, if b.isCa then [Boolean(true)] else [], EndSeq, if b.isCa then [Prim(0x01, [0xFF])] else [], date);
  }

  lemma AuthKeySpells(id: seq<byte>, date: nat -> seq<byte>)
    ensures Spells([StartSeq, Ctx(0, id), EndSeq], [Cons(SEQUENCE, [Prim(0x80, id)])], date)
  {
    hide Spells;
    SpellsPrim(Ctx(0, id), date);
    SpellsCons(StartSeq, [Ctx(0, id)], EndSeq, [Prim(0x80, id)], date);
    assert [StartSeq] + [Ctx(0, id)] + [EndSeq] == [StartSeq, Ctx(0, id), EndSeq];
  }

  /** Each optional part spells its extension, or nothing when it is missing. */
  lemma PartsSpell(x: Extensions, date: nat -> seq<byte>)
    requires EncodableExtensions(x)
    ensures Spells(BasicConstraintsPart(x), BasicConstraintsTree(x), date)
    ensures Spells(KeyUsagePart(x), KeyUsageTree(x), date)
    ensures Spells(ExtKeyUsagePart(x), ExtKeyUsageTree(x), date)
    ensures Spells(SubjKeyIdPart(x), SubjKeyIdTree(x), date)
    ensures Spells(AuthKeyIdPart(x), AuthKeyIdTree(x), date)
  {
    hide Spells;
    SpellsNothing(date);
    if x.basicConst.Some? {
      var b := x.basicConst.value;
      BasicConstraintsSpell(b, date);
      ExtensionSpells(true, OID_BASIC_CONSTRAINTS, BasicConstraintsCalls(b),
                      Cons(SEQUENCE, if b.isCa then [Prim(0x01, [0xFF])] else []), date);
    }
    if x.keyUsage.Some? {
      var usage := x.keyUsage.value;
      SpellsPrim(BitStr(true, KeyUsageBits(usage)), date);
      ExtensionSpells(true, OID_KEY_USAGE, KeyUsageCalls(usage), BitString(true, KeyUsageBits(usage)), date);
    }
    if x.extKeyUsage.Some? {
      var list := x.extKeyUsage.value;
      PurposesSpell(list, date);
      SpellsCons(StartSeq, PurposeCalls(list), EndSeq, PurposeTrees(list), date);
      ExtensionSpells(true, OID_EXT_KEY_USAGE, [StartSeq] + PurposeCalls(list) + [EndSeq],
                      Cons(SEQUENCE, PurposeTrees(list)), date);
    }
    if x.subjKeyId.Some? {
      var id := x.subjKeyId.value;
      SpellsPrim(OStr(id), date);
      ExtensionSpells(false, OID_SUBJ_KEY_IDENTIFIER, [OStr(id)], Prim(OCTET_STRING, id), date);
    }
    if x.authKeyId.Some? {
      var id := x.authKeyId.value;
      AuthKeySpells(id, date);
      ExtensionSpells(false, OID_AUTH_KEY_ID, [StartSeq, Ctx(0, id), EndSeq], Cons(SEQUENCE, [Prim(0x80, id)]), date);
    }
  }

  lemma ExtensionsSpell(x: Extensions, date: nat -> seq<byte>)
    requires EncodableExtensions(x)
    ensures Spells(ExtensionsCalls(x), [ExtensionList(x)], date)
  {
    hide Spells, BasicConstraintsPart, KeyUsagePart, ExtKeyUsagePart, SubjKeyIdPart, AuthKeyIdPart;
    hide BasicConstraintsTree, KeyUsageTree, ExtKeyUsageTree, SubjKeyIdTree, AuthKeyIdTree;
    PartsSpell(x, date);
    var c1, t1 := BasicConstraintsPart(x) + KeyUsagePart(x), BasicConstraintsTree(x) + KeyUsageTree(x);
    SpellsThen(BasicConstraintsPart(x), BasicConstraintsTree(x), KeyUsagePart(x), KeyUsageTree(x), date);
    var c2, t2 := c1 + ExtKeyUsagePart(x), t1 + ExtKeyUsageTree(x);
    SpellsThen(c1, t1, ExtKeyUsagePart(x), ExtKeyUsageTree(x), date);
    var c3, t3 := c2 + SubjKeyIdPart(x), t2 + SubjKeyIdTree(x);
    SpellsThen(c2, t2, SubjKeyIdPart(x), SubjKeyIdTree(x), date);
    var calls, trees := c3 + AuthKeyIdPart(x), t3 + AuthKeyIdTree(x);
    SpellsThen(c3, t3, AuthKeyIdPart(x), AuthKeyIdTree(x), date);
    SpellsCons(StartSeq, calls, EndSeq, trees, date);
    SpellsCons(StartCtx(3), [StartSeq] + calls + [EndSeq], EndCtx, [Cons(SEQUENCE, trees)], date);
    assert ExtensionsCalls(x) == [StartCtx(3)] + ([StartSeq] + calls + [EndSeq]) + [EndCtx];
  }

  lemma SpellsNothing(date: nat -> seq<byte>)
    ensures Spells([], [], date)
  {
  }

  function ValidityCalls(c: Cert): seq<ConsumerCall> {
    [StartSeq, UtcTime(c.notBefore), UtcTime(c.notAfter), EndSeq]
  }

  function KeyCalls(c: Cert): seq<ConsumerCall> {
    [StartSeq, StartSeq, Oid(OID_PUB_KEY_ECPUBKEY), Oid(OID_EC_TYPE_PRIME256V1), EndSeq, BitStr(false, c.pubkey), EndSeq]
  }

  lemma VersionSpells(date: nat -> seq<byte>)
    ensures Spells([StartCtx(0), Integer([2]), EndCtx], [VERSION], date)
  {
    hide Spells;
    SpellsPrim(Integer([2]), date);
    SpellsCons(StartCtx(0), [Integer([2])], EndCtx, [Prim(0x02, [2])], date);
    assert [StartCtx(0)] + [Integer([2])] + [EndCtx] == [StartCtx(0), Integer([2]), EndCtx];
  }

  lemma ValiditySpells(c: Cert, date: nat -> seq<byte>)
    ensures Spells(ValidityCalls(c), [Validity(c, date)], date)
  {
    hide Spells;
    var before, after := UtcTime(c.notBefore), UtcTime(c.notAfter);
    var t, u := Prim(0x17, date(c.notBefore)), Prim(0x17, date(c.notAfter));
    SpellsPrim(before, date);
    SpellsPrim(after, date);
    SpellsThen([before], [t], [after], [u], date);
    assert [before] + [after] == [before, after] && [t] + [u] == [t, u];
    SpellsCons(StartSeq, [before, after], EndSeq, [t, u], date);
    assert [StartSeq] + [before, after] + [EndSeq] == ValidityCalls(c);
  }

  lemma KeySpells(c: Cert, date: nat -> seq<byte>)
    requires Encodable(c)
    ensures Spells(KeyCalls(c), [PublicKey(c)], date)
  {
    hide Spells;
    var x, y, key := Oid(OID_PUB_KEY_ECPUBKEY), Oid(OID_EC_TYPE_PRIME256V1), BitStr(false, c.pubkey);
    var t, u, v := Prim(OID, OID_PUB_KEY_ECPUBKEY), Prim(OID, OID_EC_TYPE_PRIME256V1), BitString(false, c.pubkey);
    SpellsPrim(x, date);
    SpellsPrim(y, date);
    SpellsPrim(key, date);
    SpellsThen([x], [t], [y], [u], date);
    assert [x] + [y] == [x, y] && [t] + [u] == [t, u];
    SpellsCons(StartSeq, [x, y], EndSeq, [t, u], date);
    var inner := [StartSeq, x, y, EndSeq];
    assert [StartSeq] + [x, y] + [EndSeq] == inner;
    SpellsThen(inner, [Cons(SEQUENCE, [t, u])], [key], [v], date);
    assert [Cons(SEQUENCE, [t, u])] + [v] == [Cons(SEQUENCE, [t, u]), v];
    SpellsCons(StartSeq, inner + [key], EndSeq, [Cons(SEQUENCE, [t, u]), v], date);
    assert [StartSeq] + (inner + [key]) + [EndSeq] == KeyCalls(c);
  }

  function AlgorithmCalls(): seq<ConsumerCall> {
    [StartSeq, Oid(OID_ECDSA_WITH_SHA256), EndSeq]
  }

  lemma AlgorithmSpells(date: nat -> seq<byte>)
    ensures Spells(AlgorithmCalls(), [ALGORITHM], date)
  {
    hide Spells;
    var oid := Oid(OID_ECDSA_WITH_SHA256);
    SpellsPrim(oid, date);
    SpellsCons(StartSeq, [oid], EndSeq, [Prim(OID, OID_ECDSA_WITH_SHA256)], date);
    assert [StartSeq] + [oid] + [EndSeq] == AlgorithmCalls();
  }

  /** The calls for the first five members, and for the last three. */
  function FrontCalls(c: Cert): seq<ConsumerCall> {
    [StartCtx(0), Integer([2]), EndCtx] + [Integer(c.serialNo)] + AlgorithmCalls()
    + DistNamesCalls(c.issuer) + ValidityCalls(c)
  }

  function BackCalls(c: Cert): seq<ConsumerCall> {
    DistNamesCalls(c.subject) + KeyCalls(c) + ExtensionsCalls(c.extensions)
  }

  lemma FrontSpells(c: Cert, date: nat -> seq<byte>)
    ensures Spells(FrontCalls(c), [VERSION] + [Prim(0x02, c.serialNo)] + [ALGORITHM] + [Name(c.issuer)] + [Validity(c, date)], date)
  {
    hide Spells, DistNamesCalls, Name, Validity, ValidityCalls, AlgorithmCalls;
    VersionSpells(date);
    SpellsPrim(Integer(c.serialNo), date);
    AlgorithmSpells(date);
    NameSpells(c.issuer, date);
    ValiditySpells(c, date);
    var c1, t1 := [StartCtx(0), Integer([2]), EndCtx], [VERSION];
    var c2, t2 := c1 + [Integer(c.serialNo)], t1 + [Prim(0x02, c.serialNo)];
    SpellsThen(c1, t1, [Integer(c.serialNo)], [Prim(0x02, c.serialNo)], date);
    var c3, t3 := c2 + AlgorithmCalls(), t2 + [ALGORITHM];
    SpellsThen(c2, t2, AlgorithmCalls(), [ALGORITHM], date);
    SpellsThen(c3, t3, DistNamesCalls(c.issuer), [Name(c.issuer)], date);
    SpellsThen(c3 + DistNamesCalls(c.issuer), t3 + [Name(c.issuer)], ValidityCalls(c), [Validity(c, date)], date);
  }

  lemma BackSpells(c: Cert, date: nat -> seq<byte>)
    requires Encodable(c)
    ensures Spells(BackCalls(c), [Name(c.subject)] + [PublicKey(c)] + [ExtensionList(c.extensions)], date)
  {
    hide Spells, DistNamesCalls, ExtensionsCalls, Name, KeyCalls, PublicKey, ExtensionList;
    NameSpells(c.subject, date);
    KeySpells(c, date);
    ExtensionsSpell(c.extensions, date);
    SpellsThen(DistNamesCalls(c.subject), [Name(c.subject)], KeyCalls(c), [PublicKey(c)], date);
    SpellsThen(DistNamesCalls(c.subject) + KeyCalls(c), [Name(c.subject)] + [PublicKey(c)],
               ExtensionsCalls(c.extensions), [ExtensionList(c.extensions)], date);
  }

  lemma EncodingParts(c: Cert)
    requires KnownAlgorithms(c)
    ensures Encoding(c).end == Pass && Encoding(c).calls == [StartSeq] + (FrontCalls(c) + BackCalls(c)) + [EndSeq]
  {
    hide DistNamesCalls, ExtensionsCalls;
    var head: seq<ConsumerCall> := [StartSeq, StartCtx(0), Integer([2]), EndCtx, Integer(c.serialNo), StartSeq];
    var oid := Oid(OID_ECDSA_WITH_SHA256);
    assert HeadCalls(c) + [oid, EndSeq] == [StartSeq] + ([StartCtx(0), Integer([2]), EndCtx] + [Integer(c.serialNo)] + AlgorithmCalls());
    assert [StartSeq, StartSeq] + [Oid(OID_PUB_KEY_ECPUBKEY)] + [Oid(OID_EC_TYPE_PRIME256V1), EndSeq, BitStr(false, c.pubkey), EndSeq]
        == KeyCalls(c);
  }

  /** For every certificate the source can encode, with known algorithms, the calls
      are balanced and spell the to-be-signed structure, names in stored order. */
  lemma EncodingSpells(c: Cert, date: nat -> seq<byte>)
    requires Encodable(c) && KnownAlgorithms(c)
    ensures Encoding(c).end == Pass && Spells(Encoding(c).calls, [TbsCertificate(c, date)], date)
  {
    hide Spells, FrontCalls, BackCalls, Encoding, Name, PublicKey, ExtensionList, Validity;
    FrontSpells(c, date);
    BackSpells(c, date);
    var t := [VERSION] + [Prim(0x02, c.serialNo)] + [ALGORITHM] + [Name(c.issuer)] + [Validity(c, date)];
    var u := [Name(c.subject)] + [PublicKey(c)] + [ExtensionList(c.extensions)];
    SpellsThen(FrontCalls(c), t, BackCalls(c), u, date);
    assert t + u == TbsCertificate(c, date).children;
    SpellsCons(StartSeq, FrontCalls(c) + BackCalls(c), EndSeq, t + u, date);
    EncodingParts(c);
  }

  // ---------------------------------------------------------------- the names of a certificate

  /** The Matter names among distinguished names, in stored order. */
  function MatterNames(dn: seq<(nat, nat)>): seq<(nat, nat)> {
    if dn == [] then [] else (if 17 <= dn[0].0 <= 22 then [dn[0]] else []) + MatterNames(dn[1..])
  }

  predicate NamesInRange(dn: seq<(nat, nat)>) {
    forall i :: 0 <= i < |dn| ==> dn[i].1 < (if dn[i].0 == 22 then 0x1_0000_0000 else 0x1_0000_0000_0000_0000)
  }

  /** A set of one attribute: the object identifier 1.3.6.1.4.1.37244.1.n, n from 1 for a
      node id to 6 for a CASE authenticated tag, and the value as 16 or 8 upper-case
      hexadecimal digits in a UTF-8 string. */
  ghost predicate SpellsName(t: Tree, name: (nat, nat)) {
    exists text: seq<byte> :: t == Cons(0x31, [Cons(0x30, [
        Prim(0x06, [0x2B, 0x06, 0x01, 0x04, 0x01, 0x82, 0xA2, 0x7C, 0x01, if 17 <= name.0 <= 22 then name.0 - 16 else 0]),
        Prim(0x0c, text)])])
      && |text| == (if name.0 == 22 then 8 else 16)
      && (forall i :: 0 <= i < |text| ==> UpperHexDigit(text[i])) && HexValue(text) == name.1
  }

  lemma {:induction false} NamesSpelled(dn: seq<(nat, nat)>)
    requires NamesInRange(dn)
    ensures |DnTrees(dn)| == |MatterNames(dn)|
    ensures forall k :: 0 <= k < |MatterNames(dn)| ==> SpellsName(DnTrees(dn)[k], MatterNames(dn)[k])
  {
    hide SpellsName;
    if dn != [] {
      assert NamesInRange(dn[1..]) by {
        assert forall i :: 0 <= i < |dn[1..]| ==> dn[1..][i] == dn[i + 1];
      }
      NamesSpelled(dn[1..]);
      if 17 <= dn[0].0 <= 22 {
        NameSpelled(dn[0]);
      }
    }
  }

  lemma NameSpelled(name: (nat, nat))
    requires 17 <= name.0 <= 22 && NamesInRange([name])
    ensures |OneDnTrees(name.0, name.1)| == 1 && SpellsName(OneDnTrees(name.0, name.1)[0], name)
  {
    assert [name][0] == name;
    NameText(name.1, if name.0 == 22 then 8 else 16);
  }

  /** In the to-be-signed certificate the issuer and the subject are the Matter names that
      are stored, in order, each spelled with its own number of digits. */
  lemma CertificateNames(c: Cert, date: nat -> seq<byte>)
    requires Encodable(c) && NamesInRange(c.issuer) && NamesInRange(c.subject)
    ensures var ts := TbsCertificate(c, date).children;
            ts[3].Cons? && |ts[3].children| == |MatterNames(c.issuer)|
            && (forall k :: 0 <= k < |ts[3].children| ==> SpellsName(ts[3].children[k], MatterNames(c.issuer)[k]))
            && ts[5].Cons? && |ts[5].children| == |MatterNames(c.subject)|
            && (forall k :: 0 <= k < |ts[5].children| ==> SpellsName(ts[5].children[k], MatterNames(c.subject)[k]))
  {
    hide SpellsName, DnTrees, PublicKey, Validity, ExtensionList;
    NamesSpelled(c.issuer);
    NamesSpelled(c.subject);
  }

  /** An extension is a sequence of its identifier, a true flag if it is critical, and an
      octet string around its value (section 4.1 of RFC 5280); the key of a certificate is
      a bit string without unused bits. */
  lemma ExtensionSyntax(critical: bool, oid: seq<byte>, inner: Tree, key: seq<byte>)
    requires key != []
    ensures Extension(critical, oid, inner)
         == Cons(0x30, (if critical then [Prim(0x06, oid), Prim(0x01, [0xFF])] else [Prim(0x06, oid)]) + [Cons(0x04, [inner])])
    ensures BitString(false, key) == Prim(0x03, [0] + key)
  {
  }

  // ---------------------------------------------------------------- object identifiers

  /** A number in base 128, every octet but the last with its high bit set
      (section 8.19.2 of ITU-T X.690). */
  function Base128(n: nat, last: bool): seq<byte> {
    var digit: byte := n % 128 + if last then 0 else 128;
    if n < 128 then [digit] else Base128(n / 128, false) + [digit]
  }

  function ArcBytes(arcs: seq<nat>): seq<byte> {
    if arcs == [] then [] else Base128(arcs[0], true) + ArcBytes(arcs[1..])
  }

  /** The contents octets of an object identifier: its first two arcs share one number. */
  function OidBytes(first: nat, second: nat, arcs: seq<nat>): seq<byte> {
    Base128(first * 40 + second, true) + ArcBytes(arcs)
  }

  lemma SmallArc(n: nat, arcs: seq<nat>)
    requires n < 128
    ensures ArcBytes([n] + arcs) == [n] + ArcBytes(arcs) && Base128(n, true) == [n]
  {
    assert ([n] + arcs)[1..] == arcs;
  }

  lemma LargeArc(n: nat, arcs: seq<nat>)
    requires 128 <= n < 128 * 128
    ensures ArcBytes([n] + arcs) == [128 + n / 128, n % 128] + ArcBytes(arcs)
  {
    assert ([n] + arcs)[1..] == arcs;
    assert Base128(n / 128, false) == [n / 128 + 128];
  }

  lemma HugeArc(n: nat, arcs: seq<nat>)
    requires 128 * 128 <= n < 128 * 128 * 128
    ensures ArcBytes([n] + arcs) == [128 + n / 128 / 128, 128 + n / 128 % 128, n % 128] + ArcBytes(arcs)
  {
    assert ([n] + arcs)[1..] == arcs;
    assert Base128(n / 128 / 128, false) == [n / 128 / 128 + 128];
    assert Base128(n / 128, false) == [n / 128 / 128 + 128, n / 128 % 128 + 128];
  }

  lemma OneArc(n: nat)
    requires n < 128
    ensures ArcBytes([n]) == [n]
  {
    assert [n] + [] == [n];
    SmallArc(n, []);
  }

  /** The certificate extensions of RFC 5280 are 2.5.29.n. */
  lemma ExtensionIdentifiers()
    ensures OID_BASIC_CONSTRAINTS == OidBytes(2, 5, [29, 19]) && OID_KEY_USAGE == OidBytes(2, 5, [29, 15])
    ensures OID_EXT_KEY_USAGE == OidBytes(2, 5, [29, 37]) && OID_SUBJ_KEY_IDENTIFIER == OidBytes(2, 5, [29, 14])
    ensures OID_AUTH_KEY_ID == OidBytes(2, 5, [29, 35])
  {
    hide OidBytes;
    ExtensionArcs(19);
    ExtensionArcs(15);
    ExtensionArcs(37);
    ExtensionArcs(14);
    ExtensionArcs(35);
  }

  lemma ExtensionArcs(n: byte)
    requires n < 128
    ensures OidBytes(2, 5, [29, n]) == [0x55, 0x1D, n]
  {
    hide ArcBytes, Base128;
    SmallArc(85, []);
    TwoArcs(29, n);
    assert [85] + [29, n] == [85, 29, n];
  }

  lemma AnsiArcs(arcs: seq<nat>)
    ensures ArcBytes([840] + ([10045] + arcs)) == [0x86, 0x48] + ([0xCE, 0x3D] + ArcBytes(arcs))
  {
    LargeArc(840, [10045] + arcs);
    LargeArc(10045, arcs);
  }

  lemma AnsiPrefix(arcs: seq<nat>)
    ensures OidBytes(1, 2, [840, 10045] + arcs) == [0x2A, 0x86, 0x48, 0xCE, 0x3D] + ArcBytes(arcs)
  {
    hide ArcBytes, Base128;
    SmallArc(42, []);
    AnsiArcs(arcs);
    assert [840, 10045] + arcs == [840] + ([10045] + arcs);
    Prefixed(ArcBytes(arcs));
  }

  lemma Prefixed(tail: seq<byte>)
    ensures [42] + ([0x86, 0x48] + ([0xCE, 0x3D] + tail)) == [0x2A, 0x86, 0x48, 0xCE, 0x3D] + tail
  {
  }

  /** The key, curve and signature algorithms of ANSI X9.62: 1.2.840.10045.2.1,
      1.2.840.10045.3.1.7 and 1.2.840.10045.4.3.2. */
  lemma AlgorithmIdentifiers()
    ensures OID_PUB_KEY_ECPUBKEY == OidBytes(1, 2, [840, 10045, 2, 1])
    ensures OID_EC_TYPE_PRIME256V1 == OidBytes(1, 2, [840, 10045, 3, 1, 7])
    ensures OID_ECDSA_WITH_SHA256 == OidBytes(1, 2, [840, 10045, 4, 3, 2])
  {
    TwoArcs(2, 1);
    ThreeArcs(3, 1, 7);
    ThreeArcs(4, 3, 2);
    AnsiPrefix([2, 1]);
    AnsiPrefix([3, 1, 7]);
    AnsiPrefix([4, 3, 2]);
    assert [840, 10045] + [2, 1] == [840, 10045, 2, 1];
    assert [840, 10045] + [3, 1, 7] == [840, 10045, 3, 1, 7];
    assert [840, 10045] + [4, 3, 2] == [840, 10045, 4, 3, 2];
  }

  lemma TwoArcs(a: nat, b: nat)
    requires a < 128 && b < 128
    ensures ArcBytes([a, b]) == [a, b]
  {
    OneArc(b);
    SmallArc(a, [b]);
    assert [a] + [b] == [a, b];
  }

  lemma ThreeArcs(a: nat, b: nat, c: nat)
    requires a < 128 && b < 128 && c < 128
    ensures ArcBytes([a, b, c]) == [a, b, c]
  {
    TwoArcs(b, c);
    SmallArc(a, [b, c]);
    assert [a] + [b, c] == [a, b, c];
  }

  /** Matter's name attributes are 1.3.6.1.4.1.37244.1.n. */
  lemma NameIdentifiers(id: nat)
    requires 17 <= id <= 22
    ensures MatterOid(id) == OidBytes(1, 3, [6, 1, 4, 1, 37244, 1, id - 16])
  {
    var tail := [1, id - 16];
    TwoArcs(1, id - 16);
    HugeArc(37244, tail);
    SmallArc(1, [37244] + tail);
    SmallArc(4, [1] + ([37244] + tail));
    SmallArc(1, [4] + ([1] + ([37244] + tail)));
    SmallArc(6, [1] + ([4] + ([1] + ([37244] + tail))));
    assert [6] + ([1] + ([4] + ([1] + ([37244] + tail)))) == [6, 1, 4, 1, 37244, 1, id - 16];
  }

  lemma PurposeArcs(n: byte)
    requires n < 128
    ensures OidBytes(1, 3, [6, 1, 5, 5, 7, 3, n]) == [0x2B, 0x06, 0x01, 0x05, 0x05, 0x07, 0x03, n]
  {
    hide ArcBytes, Base128;
    SmallArc(43, []);
    ThreeArcs(7, 3, n);
    SmallArc(5, [7, 3, n]);
    SmallArc(5, [5, 7, 3, n]);
    SmallArc(1, [5, 5, 7, 3, n]);
    SmallArc(6, [1, 5, 5, 7, 3, n]);
    assert [5] + [7, 3, n] == [5, 7, 3, n] && [5] + [5, 7, 3, n] == [5, 5, 7, 3, n];
    assert [1] + [5, 5, 7, 3, n] == [1, 5, 5, 7, 3, n] && [6] + [1, 5, 5, 7, 3, n] == [6, 1, 5, 5, 7, 3, n];
  }

  /** The six key purposes of section 4.2.1.12 of RFC 5280 are 1.3.6.1.5.5.7.3.n: server and
      client authentication, code signing, e-mail protection, time stamping, OCSP signing. */
  lemma KeyPurposes(t: nat)
    requires 1 <= t <= 6
    ensures KeyPurposeOid(t) == OidBytes(1, 3, [6, 1, 5, 5, 7, 3, [1, 2, 3, 4, 8, 9][t - 1]])
  {
    hide OidBytes;
    PurposeArcs([1, 2, 3, 4, 8, 9][t - 1]);
    assert t in {1, 2, 3, 4, 5, 6};
  }
}

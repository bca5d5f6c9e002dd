/**
 A Matter certificate on the wire: the schema that the derives on `Cert`,
 `Extensions` and `BasicConstraints` stand for, and the way from a certificate to
 its TLV and back.
 */
module CertTlv {
  import opened Bytes
  import opened Tlv
  import opened TlvParser
  import opened Schema
  import opened Derive
  import opened Certs

  const BASIC_CONSTRAINTS: Ty := TStruct(Struct, Field(1, TBool, Field(2, TOption(TUint(0)), NoFields)))

  const EXTENSION_FIELDS: Fields :=
    Field(1, TOption(BASIC_CONSTRAINTS),
    Field(2, TOption(TUint(1)),
    Field(3, TOption(TVec(TUint(0))),
    Field(4, TOption(TOctets),
    Field(5, TOption(TOctets),
    Field(6, TOption(TOctets), NoFields))))))

  const EXTENSIONS: Ty := TStruct(List, EXTENSION_FIELDS)

  const KEY_FIELDS: Fields :=
    Field(6, TDistNames,
    Field(7, TUint(0),
    Field(8, TUint(0),
    Field(9, TOctets,
    Field(10, EXTENSIONS,
    Field(11, TOctets, NoFields))))))

  const CERT_FIELDS: Fields :=
    Field(1, TOctets,
    Field(2, TUint(0),
    Field(3, TDistNames,
    Field(4, TUint(2),
    Field(5, TUint(2), KEY_FIELDS)))))

  const CERT: Ty := TStruct(Struct, CERT_FIELDS)

  // ---------------------------------------------------------------- certificates as values

  function BasicVal(b: BasicConstraints): Val {
    VSeq([VBool(b.isCa), OptionVal(b.path, p => VUint(p))])
  }

  function UintVals(s: seq<nat>): (vs: seq<Val>)
    ensures |vs| == |s| && forall i :: 0 <= i < |s| ==> vs[i] == VUint(s[i])
  {
    if s == [] then [] else [VUint(s[0])] + UintVals(s[1..])
  }

  function ExtensionsVal(x: Extensions): Val {
    VSeq([OptionVal(x.basicConst, b => BasicVal(b)),
          OptionVal(x.keyUsage, u => VUint(u)),
          OptionVal(x.extKeyUsage, (l: seq<byte>) => VSeq(UintVals(l))),
          OptionVal(x.subjKeyId, s => VOctets(s)),
          OptionVal(x.authKeyId, s => VOctets(s)),
          OptionVal(x.futureExtensions, s => VOctets(s))])
  }

  function CertVal(c: Cert): Val {
    VSeq([VOctets(c.serialNo), VUint(c.signAlgo), VNames(c.issuer), VUint(c.notBefore), VUint(c.notAfter)]
       + [VNames(c.subject), VUint(c.pubkeyAlgo), VUint(c.ecCurveId), VOctets(c.pubkey),
          ExtensionsVal(c.extensions), VOctets(c.signature)])
  }

  /** Different certificates are different values. */
  lemma CertValInjective(c: Cert, d: Cert)
    requires CertVal(c) == CertVal(d)
    ensures c == d
  {
    var v, w := CertVal(c).vs, CertVal(d).vs;
    assert forall i :: 0 <= i < 11 ==> v[i] == w[i];
    assert v[0] == w[0] && v[1] == w[1] && v[2] == w[2] && v[3] == w[3] && v[4] == w[4] && v[5] == w[5];
    assert v[6] == w[6] && v[7] == w[7] && v[8] == w[8] && v[9] == w[9] && v[10] == w[10];
    ExtensionsValInjective(c.extensions, d.extensions);
  }

  lemma ExtensionsValInjective(x: Extensions, y: Extensions)
    requires ExtensionsVal(x) == ExtensionsVal(y)
    ensures x == y
  {
    var v, w := ExtensionsVal(x).vs, ExtensionsVal(y).vs;
    assert v[0] == w[0] && v[1] == w[1] && v[2] == w[2] && v[3] == w[3] && v[4] == w[4] && v[5] == w[5];
    if x.basicConst.Some? {
      BasicValInjective(x.basicConst.value, y.basicConst.value);
    }
    if x.extKeyUsage.Some? {
      var l, m := x.extKeyUsage.value, y.extKeyUsage.value;
      assert UintVals(l) == UintVals(m);
      assert forall i :: 0 <= i < |l| ==> UintVals(l)[i] == UintVals(m)[i] && l[i] == m[i];
      assert l == m;
    }
  }

  lemma BasicValInjective(b: BasicConstraints, a: BasicConstraints)
    requires BasicVal(b) == BasicVal(a)
    ensures b == a
  {
    var v, w := BasicVal(b).vs, BasicVal(a).vs;
    assert v[0] == w[0] && v[1] == w[1];
  }

  /** The numbers are within the widths of the source's fields, and no string is
      longer than a length field can say. */
  predicate InRange(c: Cert) {
    |c.serialNo| <= 0xffff && c.signAlgo < 256 && ValidNames(c.issuer)
    && c.notBefore < 0x1_0000_0000 && c.notAfter < 0x1_0000_0000
    && ValidNames(c.subject) && c.pubkeyAlgo < 256 && c.ecCurveId < 256
    && |c.pubkey| <= 0xffff && ExtensionsInRange(c.extensions) && |c.signature| <= 0xffff
  }

  predicate ExtensionsInRange(x: Extensions) {
    (x.basicConst.Some? && x.basicConst.value.path.Some? ==> x.basicConst.value.path.value < 256)
    && (x.keyUsage.Some? ==> x.keyUsage.value < 0x1_0000)
    && (x.subjKeyId.Some? ==> |x.subjKeyId.value| <= 0xffff)
    && (x.authKeyId.Some? ==> |x.authKeyId.value| <= 0xffff)
    && (x.futureExtensions.Some? ==> |x.futureExtensions.value| <= 0xffff)
  }

  // ---------------------------------------------------------------- values that survive

  /** A value of its type that is written in full and comes back unchanged. */
  predicate Kept(ty: Ty, v: Val) {
    HasType(ty, v) && Lossless(ty, v) && Fits(ty, v) && Compact(ty, v) == v
  }

  predicate FieldsKept(fields: Fields, vs: seq<Val>) {
    HasFields(fields, vs) && LosslessFields(fields, vs) && FieldsFit(fields, vs) && CompactFields(fields, vs) == vs
  }

  lemma FieldKept(tag: nat, ty: Ty, rest: Fields, v: Val, vs: seq<Val>)
    requires tag < 256 && Kept(ty, v) && FieldsKept(rest, vs)
    ensures FieldsKept(Field(tag, ty, rest), [v] + vs)
  {
    assert ([v] + vs)[1..] == vs;
  }

  lemma NoFieldsKept()
    ensures FieldsKept(NoFields, [])
  {
  }

  lemma OptionKept(ty: Ty, v: Val)
    requires v.VNone? || (v.VSome? && Kept(ty, v.v))
    ensures Kept(TOption(ty), v)
  {
  }

  lemma UintKept(k: nat, u: nat)
    requires k < 4 && u < Pow256(Width(k))
    ensures Kept(TUint(k), VUint(u))
  {
  }

  lemma {:induction false} UintsKept(s: seq<nat>)
    requires forall i :: 0 <= i < |s| ==> s[i] < 256
    ensures Kept(TVec(TUint(0)), VSeq(UintVals(s)))
  {
    var vs := UintVals(s);
    if s != [] {
      assert forall i :: 0 <= i < |s[1..]| ==> s[1..][i] == s[i + 1];
      UintsKept(s[1..]);
      Pow256Values();
      UintKept(0, s[0]);
      assert vs[1..] == UintVals(s[1..]);
      assert vs == [vs[0]] + vs[1..];
    }
  }

  lemma BasicKept(b: BasicConstraints)
    requires b.path.Some? ==> b.path.value < 256
    ensures Kept(BASIC_CONSTRAINTS, BasicVal(b))
  {
    Pow256Values();
    var path := OptionVal(b.path, p => VUint(p));
    if b.path.Some? {
      UintKept(0, b.path.value);
    }
    OptionKept(TUint(0), path);
    NoFieldsKept();
    FieldKept(2, TOption(TUint(0)), NoFields, path, []);
    FieldKept(1, TBool, Field(2, TOption(TUint(0)), NoFields), VBool(b.isCa), [path] + []);
    assert [VBool(b.isCa)] + ([path] + []) == BasicVal(b).vs;
  }

  lemma OctetsKept(s: seq<byte>)
    requires |s| <= 0xffff
    ensures Kept(TOctets, VOctets(s))
  {
  }

  lemma ExtensionsKept(x: Extensions)
    requires ExtensionsInRange(x)
    ensures Kept(EXTENSIONS, ExtensionsVal(x))
  {
    hide Kept, FieldsKept;
    var vs := ExtensionsVal(x).vs;
    ExtensionFieldsKept(x);
    NoFieldsKept();
    var f6 := Field(6, TOption(TOctets), NoFields);
    var f5 := Field(5, TOption(TOctets), f6);
    var f4 := Field(4, TOption(TOctets), f5);
    var f3 := Field(3, TOption(TVec(TUint(0))), f4);
    var f2 := Field(2, TOption(TUint(1)), f3);
    FieldKept(6, TOption(TOctets), NoFields, vs[5], []);
    FieldKept(5, TOption(TOctets), f6, vs[4], [vs[5]] + []);
    FieldKept(4, TOption(TOctets), f5, vs[3], [vs[4]] + ([vs[5]] + []));
    FieldKept(3, TOption(TVec(TUint(0))), f4, vs[2], [vs[3]] + ([vs[4]] + ([vs[5]] + [])));
    FieldKept(2, TOption(TUint(1)), f3, vs[1], [vs[2]] + ([vs[3]] + ([vs[4]] + ([vs[5]] + []))));
    FieldKept(1, TOption(BASIC_CONSTRAINTS), f2, vs[0], [vs[1]] + ([vs[2]] + ([vs[3]] + ([vs[4]] + ([vs[5]] + [])))));
    assert vs == [vs[0]] + ([vs[1]] + ([vs[2]] + ([vs[3]] + ([vs[4]] + ([vs[5]] + [])))));
    StructKept(List, EXTENSION_FIELDS, vs);
  }

  lemma StructKept(kind: Kind, fields: Fields, vs: seq<Val>)
    requires FieldsKept(fields, vs)
    ensures Kept(TStruct(kind, fields), VSeq(vs))
  {
  }

  lemma ExtensionFieldsKept(x: Extensions)
    requires ExtensionsInRange(x)
    ensures var vs := ExtensionsVal(x).vs;
            Kept(TOption(BASIC_CONSTRAINTS), vs[0]) && Kept(TOption(TUint(1)), vs[1])
            && Kept(TOption(TVec(TUint(0))), vs[2]) && Kept(TOption(TOctets), vs[3])
            && Kept(TOption(TOctets), vs[4]) && Kept(TOption(TOctets), vs[5])
  {
    hide Kept;
    var vs := ExtensionsVal(x).vs;
    if x.basicConst.Some? {
      BasicKept(x.basicConst.value);
    }
    if x.keyUsage.Some? {
      Pow256Values();
      UintKept(1, x.keyUsage.value);
    }
    if x.extKeyUsage.Some? {
      UintsKept(x.extKeyUsage.value);
    }
    OptionKept(BASIC_CONSTRAINTS, vs[0]);
    OptionKept(TUint(1), vs[1]);
    OptionKept(TVec(TUint(0)), vs[2]);
    OptionalOctetsKept(x.subjKeyId);
    OptionalOctetsKept(x.authKeyId);
    OptionalOctetsKept(x.futureExtensions);
  }

  lemma OptionalOctetsKept(o: Option<seq<byte>>)
    requires o.Some? ==> |o.value| <= 0xffff
    ensures Kept(TOption(TOctets), OptionVal(o, s => VOctets(s)))
  {
    if o.Some? {
      OctetsKept(o.value);
    }
    OptionKept(TOctets, OptionVal(o, s => VOctets(s)));
  }

  lemma NamesKept(dn: seq<(nat, nat)>)
    requires ValidNames(dn)
    ensures Kept(TDistNames, VNames(dn))
  {
  }

  lemma KeyFieldsKept(c: Cert)
    requires InRange(c)
    ensures FieldsKept(KEY_FIELDS, CertVal(c).vs[5..])
  {
    hide Kept, FieldsKept;
    var vs := CertVal(c).vs;
    Pow256Values();
    NamesKept(c.subject);
    UintKept(0, c.pubkeyAlgo);
    UintKept(0, c.ecCurveId);
    OctetsKept(c.pubkey);
    ExtensionsKept(c.extensions);
    OctetsKept(c.signature);
    NoFieldsKept();
    var f11 := Field(11, TOctets, NoFields);
    var f10 := Field(10, EXTENSIONS, f11);
    var f9 := Field(9, TOctets, f10);
    var f8 := Field(8, TUint(0), f9);
    var f7 := Field(7, TUint(0), f8);
    FieldKept(11, TOctets, NoFields, vs[10], []);
    FieldKept(10, EXTENSIONS, f11, vs[9], [vs[10]] + []);
    FieldKept(9, TOctets, f10, vs[8], [vs[9]] + ([vs[10]] + []));
    FieldKept(8, TUint(0), f9, vs[7], [vs[8]] + ([vs[9]] + ([vs[10]] + [])));
    FieldKept(7, TUint(0), f8, vs[6], [vs[7]] + ([vs[8]] + ([vs[9]] + ([vs[10]] + []))));
    FieldKept(6, TDistNames, f7, vs[5], [vs[6]] + ([vs[7]] + ([vs[8]] + ([vs[9]] + ([vs[10]] + [])))));
    assert vs[5..] == [vs[5]] + ([vs[6]] + ([vs[7]] + ([vs[8]] + ([vs[9]] + ([vs[10]] + [])))));
  }

  lemma CertKept(c: Cert)
    requires InRange(c)
    ensures Kept(CERT, CertVal(c))
  {
    hide Kept, FieldsKept;
    var vs := CertVal(c).vs;
    Pow256Values();
    KeyFieldsKept(c);
    OctetsKept(c.serialNo);
    UintKept(0, c.signAlgo);
    NamesKept(c.issuer);
    UintKept(2, c.notBefore);
    UintKept(2, c.notAfter);
    var f5 := Field(5, TUint(2), KEY_FIELDS);
    var f4 := Field(4, TUint(2), f5);
    var f3 := Field(3, TDistNames, f4);
    var f2 := Field(2, TUint(0), f3);
    var key := vs[5..];
    FieldKept(5, TUint(2), KEY_FIELDS, vs[4], key);
    FieldKept(4, TUint(2), f5, vs[3], [vs[4]] + key);
    FieldKept(3, TDistNames, f4, vs[2], [vs[3]] + ([vs[4]] + key));
    FieldKept(2, TUint(0), f3, vs[1], [vs[2]] + ([vs[3]] + ([vs[4]] + key)));
    FieldKept(1, TOctets, f2, vs[0], [vs[1]] + ([vs[2]] + ([vs[3]] + ([vs[4]] + key))));
    assert vs == [vs[0]] + ([vs[1]] + ([vs[2]] + ([vs[3]] + ([vs[4]] + key))));
    StructKept(Struct, CERT_FIELDS, vs);
  }

  /** Fields that can be decoded and whose tags begin at `n`. */
  predicate Ready(fields: Fields, n: nat) {
    DecodableFields(fields) && forall t :: t in Tags(fields) ==> n <= t
  }

  lemma FieldReady(tag: nat, ty: Ty, rest: Fields)
    requires Decodable(ty) && Ready(rest, tag + 1)
    ensures Ready(Field(tag, ty, rest), tag)
  {
  }

  lemma SimpleDecodable(k: nat)
    ensures Decodable(TUint(k)) && Decodable(TOption(TUint(k))) && Decodable(TOption(TVec(TUint(k))))
    ensures Decodable(TBool) && Decodable(TOctets) && Decodable(TOption(TOctets)) && Decodable(TDistNames)
  {
  }

  lemma StructDecodable(kind: Kind, fields: Fields, n: nat)
    requires Ready(fields, n)
    ensures Decodable(TStruct(kind, fields)) && Decodable(TOption(TStruct(kind, fields)))
  {
  }

  lemma NothingReady(n: nat)
    ensures Ready(NoFields, n)
  {
  }

  lemma ExtensionsDecodable()
    ensures Decodable(EXTENSIONS)
  {
    hide Decodable, Ready;
    SimpleDecodable(0);
    SimpleDecodable(1);
    NothingReady(3);
    FieldReady(2, TOption(TUint(0)), NoFields);
    FieldReady(1, TBool, Field(2, TOption(TUint(0)), NoFields));
    StructDecodable(Struct, Field(1, TBool, Field(2, TOption(TUint(0)), NoFields)), 1);
    NothingReady(7);
    var f6 := Field(6, TOption(TOctets), NoFields);
    var f5 := Field(5, TOption(TOctets), f6);
    var f4 := Field(4, TOption(TOctets), f5);
    var f3 := Field(3, TOption(TVec(TUint(0))), f4);
    FieldReady(6, TOption(TOctets), NoFields);
    FieldReady(5, TOption(TOctets), f6);
    FieldReady(4, TOption(TOctets), f5);
    FieldReady(3, TOption(TVec(TUint(0))), f4);
    FieldReady(2, TOption(TUint(1)), f3);
    FieldReady(1, TOption(BASIC_CONSTRAINTS), Field(2, TOption(TUint(1)), f3));
    StructDecodable(List, EXTENSION_FIELDS, 1);
  }

  lemma CertDecodable()
    ensures Decodable(CERT)
  {
    hide Decodable, Ready;
    SimpleDecodable(0);
    SimpleDecodable(2);
    ExtensionsDecodable();
    NothingReady(12);
    var f11 := Field(11, TOctets, NoFields);
    var f10 := Field(10, EXTENSIONS, f11);
    var f9 := Field(9, TOctets, f10);
    var f8 := Field(8, TUint(0), f9);
    FieldReady(11, TOctets, NoFields);
    FieldReady(10, EXTENSIONS, f11);
    FieldReady(9, TOctets, f10);
    FieldReady(8, TUint(0), f9);
    FieldReady(7, TUint(0), f8);
    FieldReady(6, TDistNames, Field(7, TUint(0), f8));
    var f5 := Field(5, TUint(2), KEY_FIELDS);
    var f4 := Field(4, TUint(2), f5);
    var f3 := Field(3, TDistNames, f4);
    FieldReady(5, TUint(2), KEY_FIELDS);
    FieldReady(4, TUint(2), f5);
    FieldReady(3, TDistNames, f4);
    FieldReady(2, TUint(0), f3);
    FieldReady(1, TOctets, Field(2, TUint(0), f3));
    StructDecodable(Struct, CERT_FIELDS, 1);
  }

  /** Reading the TLV of a certificate gives the value of that certificate, and of
      no other, whatever bytes follow it. */
  lemma CertRoundTrip(c: Cert, tag: Tag, rest: seq<byte>)
    requires InRange(c) && tag.Valid()
    ensures HasType(CERT, CertVal(c)) && ValidForest(Trees(CERT, CertVal(c), tag))
    ensures var r := ReadElement(EncodeForest(Trees(CERT, CertVal(c), tag)) + rest);
            r.elem.Some? && Decode(CERT, r.elem.value) == Ok(CertVal(c))
  {
    CertKept(c);
    CertDecodable();
    CodecRoundTrip(CERT, CertVal(c), tag, rest);
  }

  /** Certificates the source cannot encode do arrive: with any other certificate, the
      same one with a key usage of zero is read from the bytes it is written as. */
  lemma UnencodableArrives(c: Cert, tag: Tag, rest: seq<byte>)
    requires InRange(c) && tag.Valid()
    ensures var d := c.(extensions := c.extensions.(keyUsage := Some(0)));
            !Encodable(d) && (KnownAlgorithms(c) ==> KnownAlgorithms(d))
            && HasType(CERT, CertVal(d)) && ValidForest(Trees(CERT, CertVal(d), tag))
            && var r := ReadElement(EncodeForest(Trees(CERT, CertVal(d), tag)) + rest);
               r.elem.Some? && Decode(CERT, r.elem.value) == Ok(CertVal(d))
  {
    hide HasType, Trees, ReadElement, Decode, CertVal, EncodeForest, ValidForest;
    CertRoundTrip(c.(extensions := c.extensions.(keyUsage := Some(0))), tag, rest);
  }

  // ---------------------------------------------------------------- which field goes under which tag

  function Octets(tag: nat, s: seq<byte>): Tree {
    Leaf(Context(tag), Str(if |s| <= 0xff then 1 else 2, s))
  }

  function OptionalOctets(tag: nat, s: Option<seq<byte>>): seq<Tree> {
    if s.None? then [] else [Octets(tag, s.value)]
  }

  function NumberLeaves(s: seq<byte>): seq<Tree> {
    if s == [] then [] else [UintLeaf(Anonymous, s[0])] + NumberLeaves(s[1..])
  }

  function BasicTree(b: BasicConstraints): Tree {
    Node(Context(1), Struct, [Leaf(Context(1), Bool(b.isCa))]
                             + if b.path.None? then [] else [UintLeaf(Context(2), b.path.value)])
  }

  /** The extensions as elements: each optional one under its own tag. */
  function ExtensionElements(x: Extensions): seq<Tree> {
    (if x.basicConst.None? then [] else [BasicTree(x.basicConst.value)])
    + (if x.keyUsage.None? then [] else [UintLeaf(Context(2), x.keyUsage.value)])
    + (if x.extKeyUsage.None? then [] else [Node(Context(3), Array, NumberLeaves(x.extKeyUsage.value))])
    + OptionalOctets(4, x.subjKeyId) + OptionalOctets(5, x.authKeyId) + OptionalOctets(6, x.futureExtensions)
  }

  /** A certificate as elements: serial number, signature algorithm, issuer, validity,
      subject, key algorithm, curve, key, extensions and signature under the tags 1 to 11. */
  function CertElements(c: Cert): seq<Tree> {
    [Octets(1, c.serialNo), UintLeaf(Context(2), c.signAlgo), Node(Context(3), List, NameTrees(c.issuer)),
     UintLeaf(Context(4), c.notBefore), UintLeaf(Context(5), c.notAfter), Node(Context(6), List, NameTrees(c.subject)),
     UintLeaf(Context(7), c.pubkeyAlgo), UintLeaf(Context(8), c.ecCurveId), Octets(9, c.pubkey),
     Node(Context(10), List, ExtensionElements(c.extensions)), Octets(11, c.signature)]
  }

  lemma {:induction false} NumbersWritten(s: seq<byte>)
    ensures AllHaveType(TUint(0), UintVals(s)) && ElementTrees(TUint(0), UintVals(s)) == NumberLeaves(s)
  {
    Pow256Values();
    if s != [] {
      NumbersWritten(s[1..]);
      assert UintVals(s)[1..] == UintVals(s[1..]);
    }
  }

  lemma BasicWritten(b: BasicConstraints)
    requires b.path.Some? ==> b.path.value < 256
    ensures HasType(BASIC_CONSTRAINTS, BasicVal(b)) && Trees(BASIC_CONSTRAINTS, BasicVal(b), Context(1)) == [BasicTree(b)]
  {
    Pow256Values();
    NoMoreFields();
    var path, ca := BasicVal(b).vs[1], BasicVal(b).vs[0];
    var f2 := Field(2, TOption(TUint(0)), NoFields);
    NextField(2, TOption(TUint(0)), NoFields, path, []);
    NextField(1, TBool, f2, ca, [path] + []);
    assert [ca] + ([path] + []) == BasicVal(b).vs;
    StructTree(Struct, Field(1, TBool, f2), BasicVal(b).vs, Context(1));
    assert FieldTrees(f2, [path] + []) == if b.path.None? then [] else [UintLeaf(Context(2), b.path.value)];
  }

  lemma OptionalOctetsWritten(tag: nat, s: Option<seq<byte>>, v: Val)
    requires v == match s case None => VNone case Some(x) => VSome(VOctets(x))
    ensures HasType(TOption(TOctets), v) && Trees(TOption(TOctets), v, Context(tag)) == OptionalOctets(tag, s)
  {
  }

  lemma ConstraintsWritten(x: Extensions)
    requires ExtensionsInRange(x)
    ensures var v := ExtensionsVal(x).vs[0]; var ty := TOption(BASIC_CONSTRAINTS);
            HasType(ty, v) && (Trees(ty, v, Context(1)) == if x.basicConst.None? then [] else [BasicTree(x.basicConst.value)])
  {
    if x.basicConst.Some? {
      BasicWritten(x.basicConst.value);
    }
  }

  lemma UsageWritten(x: Extensions)
    requires ExtensionsInRange(x)
    ensures var v := ExtensionsVal(x).vs[1]; var ty := TOption(TUint(1));
            HasType(ty, v) && (Trees(ty, v, Context(2)) == if x.keyUsage.None? then [] else [UintLeaf(Context(2), x.keyUsage.value)])
  {
    Pow256Values();
  }

  lemma PurposesWritten(x: Extensions)
    ensures var v := ExtensionsVal(x).vs[2]; var ty := TOption(TVec(TUint(0)));
            HasType(ty, v)
            && (Trees(ty, v, Context(3))
                == if x.extKeyUsage.None? then [] else [Node(Context(3), Array, NumberLeaves(x.extKeyUsage.value))])
  {
    if x.extKeyUsage.Some? {
      NumbersWritten(x.extKeyUsage.value);
    }
  }

  const ID_FIELDS: Fields := Field(4, TOption(TOctets), Field(5, TOption(TOctets), Field(6, TOption(TOctets), NoFields)))

  lemma IdsWritten(x: Extensions)
    ensures var vs := ExtensionsVal(x).vs[3..];
            HasFields(ID_FIELDS, vs)
            && FieldTrees(ID_FIELDS, vs) == OptionalOctets(4, x.subjKeyId) + OptionalOctets(5, x.authKeyId) + OptionalOctets(6, x.futureExtensions)
  {
    hide HasType, Trees, OptionalOctets;
    var vs := ExtensionsVal(x).vs;
    OptionalOctetsWritten(4, x.subjKeyId, vs[3]);
    OptionalOctetsWritten(5, x.authKeyId, vs[4]);
    OptionalOctetsWritten(6, x.futureExtensions, vs[5]);
    NoMoreFields();
    var f6 := Field(6, TOption(TOctets), NoFields);
    var f5 := Field(5, TOption(TOctets), f6);
    NextField(6, TOption(TOctets), NoFields, vs[5], []);
    NextField(5, TOption(TOctets), f6, vs[4], [vs[5]] + []);
    NextField(4, TOption(TOctets), f5, vs[3], [vs[4]] + ([vs[5]] + []));
    assert [vs[3]] + ([vs[4]] + ([vs[5]] + [])) == vs[3..];
  }

  lemma ExtensionsWritten(x: Extensions)
    requires ExtensionsInRange(x)
    ensures HasType(EXTENSIONS, ExtensionsVal(x))
    ensures Trees(EXTENSIONS, ExtensionsVal(x), Context(10)) == [Node(Context(10), List, ExtensionElements(x))]
  {
    hide HasType, Trees, OptionalOctets, BasicTree, NumberLeaves, ID_FIELDS, ExtensionsVal, BASIC_CONSTRAINTS;
    var v := ExtensionsVal(x);
    SixValues(x);
    var vs := v.vs;
    ConstraintsWritten(x);
    UsageWritten(x);
    PurposesWritten(x);
    IdsWritten(x);
    var f3 := Field(3, TOption(TVec(TUint(0))), ID_FIELDS);
    var f2 := Field(2, TOption(TUint(1)), f3);
    NextField(3, TOption(TVec(TUint(0))), ID_FIELDS, vs[2], vs[3..]);
    NextField(2, TOption(TUint(1)), f3, vs[1], [vs[2]] + vs[3..]);
    NextField(1, TOption(BASIC_CONSTRAINTS), f2, vs[0], [vs[1]] + ([vs[2]] + vs[3..]));
    assert [vs[0]] + ([vs[1]] + ([vs[2]] + vs[3..])) == vs;
    SixFields();
    StructTree(List, EXTENSION_FIELDS, vs, Context(10));
    SixElements(x);
  }

  lemma SixElements(x: Extensions)
    ensures ExtensionElements(x)
         == (if x.basicConst.None? then [] else [BasicTree(x.basicConst.value)])
            + ((if x.keyUsage.None? then [] else [UintLeaf(Context(2), x.keyUsage.value)])
            + ((if x.extKeyUsage.None? then [] else [Node(Context(3), Array, NumberLeaves(x.extKeyUsage.value))])
            + (OptionalOctets(4, x.subjKeyId) + OptionalOctets(5, x.authKeyId) + OptionalOctets(6, x.futureExtensions))))
  {
    hide BasicTree, NumberLeaves, OptionalOctets;
  }

  lemma SixValues(x: Extensions)
    ensures ExtensionsVal(x).VSeq? && |ExtensionsVal(x).vs| == 6
  {
  }

  lemma SixFields()
    ensures EXTENSION_FIELDS
         == Field(1, TOption(BASIC_CONSTRAINTS), Field(2, TOption(TUint(1)), Field(3, TOption(TVec(TUint(0))), ID_FIELDS)))
  {
  }

  lemma SimpleWritten(tag: nat, u: nat, s: seq<byte>, dn: seq<(nat, nat)>, k: nat)
    requires k < 4
    ensures u < Pow256(Width(k)) ==> HasType(TUint(k), VUint(u)) && Trees(TUint(k), VUint(u), Context(tag)) == [UintLeaf(Context(tag), u)]
    ensures HasType(TOctets, VOctets(s)) && Trees(TOctets, VOctets(s), Context(tag)) == [Octets(tag, s)]
    ensures ValidNames(dn) ==> HasType(TDistNames, VNames(dn)) && Trees(TDistNames, VNames(dn), Context(tag)) == [Node(Context(tag), List, NameTrees(dn))]
  {
  }

  lemma KeyFieldsWritten(c: Cert)
    requires InRange(c)
    ensures var vs := [VNames(c.subject), VUint(c.pubkeyAlgo), VUint(c.ecCurveId), VOctets(c.pubkey), ExtensionsVal(c.extensions), VOctets(c.signature)];
            HasFields(KEY_FIELDS, vs) && FieldTrees(KEY_FIELDS, vs) == CertElements(c)[5..]
  {
    hide HasType, Trees, ExtensionsVal, ExtensionElements, EXTENSIONS, NameTrees, UintLeaf, Octets;
    Pow256Values();
    NoMoreFields();
    SimpleWritten(11, 0, c.signature, [], 0);
    ExtensionsWritten(c.extensions);
    SimpleWritten(9, 0, c.pubkey, [], 0);
    SimpleWritten(8, c.ecCurveId, [], [], 0);
    SimpleWritten(7, c.pubkeyAlgo, [], [], 0);
    SimpleWritten(6, 0, [], c.subject, 0);
    var f11 := Field(11, TOctets, NoFields);
    var f10 := Field(10, EXTENSIONS, f11);
    var f9 := Field(9, TOctets, f10);
    var f8 := Field(8, TUint(0), f9);
    var f7 := Field(7, TUint(0), f8);
    var v11 := [VOctets(c.signature)] + [];
    var v10 := [ExtensionsVal(c.extensions)] + v11;
    var v9 := [VOctets(c.pubkey)] + v10;
    var v8 := [VUint(c.ecCurveId)] + v9;
    var v7 := [VUint(c.pubkeyAlgo)] + v8;
    NextField(11, TOctets, NoFields, VOctets(c.signature), []);
    NextField(10, EXTENSIONS, f11, ExtensionsVal(c.extensions), v11);
    NextField(9, TOctets, f10, VOctets(c.pubkey), v10);
    NextField(8, TUint(0), f9, VUint(c.ecCurveId), v9);
    NextField(7, TUint(0), f8, VUint(c.pubkeyAlgo), v8);
    NextField(6, TDistNames, f7, VNames(c.subject), v7);
    assert [VNames(c.subject)] + v7
        == [VNames(c.subject), VUint(c.pubkeyAlgo), VUint(c.ecCurveId), VOctets(c.pubkey), ExtensionsVal(c.extensions), VOctets(c.signature)];
  }

  /** What is on the wire for a certificate: every field under its own tag. */
  lemma CertWritten(c: Cert, tag: Tag)
    requires InRange(c)
    ensures HasType(CERT, CertVal(c)) && Trees(CERT, CertVal(c), tag) == [Node(tag, Struct, CertElements(c))]
  {
    hide HasType, Trees, KEY_FIELDS, ExtensionsVal, ExtensionElements, NameTrees, UintLeaf, Octets;
    Pow256Values();
    KeyFieldsWritten(c);
    SimpleWritten(1, 0, c.serialNo, [], 0);
    SimpleWritten(2, c.signAlgo, [], [], 0);
    SimpleWritten(3, 0, [], c.issuer, 0);
    SimpleWritten(4, c.notBefore, [], [], 2);
    SimpleWritten(5, c.notAfter, [], [], 2);
    var v6 := [VNames(c.subject), VUint(c.pubkeyAlgo), VUint(c.ecCurveId), VOctets(c.pubkey), ExtensionsVal(c.extensions), VOctets(c.signature)];
    var f5 := Field(5, TUint(2), KEY_FIELDS);
    var f4 := Field(4, TUint(2), f5);
    var f3 := Field(3, TDistNames, f4);
    var f2 := Field(2, TUint(0), f3);
    var v5 := [VUint(c.notAfter)] + v6;
    var v4 := [VUint(c.notBefore)] + v5;
    var v3 := [VNames(c.issuer)] + v4;
    var v2 := [VUint(c.signAlgo)] + v3;
    NextField(5, TUint(2), KEY_FIELDS, VUint(c.notAfter), v6);
    NextField(4, TUint(2), f5, VUint(c.notBefore), v5);
    NextField(3, TDistNames, f4, VNames(c.issuer), v4);
    NextField(2, TUint(0), f3, VUint(c.signAlgo), v3);
    NextField(1, TOctets, f2, VOctets(c.serialNo), v2);
    assert [VOctets(c.serialNo)] + v2 == CertVal(c).vs;
    StructTree(Struct, CERT_FIELDS, [VOctets(c.serialNo)] + v2, tag);
    EveryElement(c);
  }

  lemma EveryElement(c: Cert)
    ensures CertElements(c)
         == [Octets(1, c.serialNo)] + ([UintLeaf(Context(2), c.signAlgo)] + ([Node(Context(3), List, NameTrees(c.issuer))]
            + ([UintLeaf(Context(4), c.notBefore)] + ([UintLeaf(Context(5), c.notAfter)] + CertElements(c)[5..]))))
  {
  }
}

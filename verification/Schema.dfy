/**
 The types the derived TLV codecs work on, as data: a schema says which fields a
 structure has and which tags they carry, and `Trees` is what its derived
 `to_tlv` writes. The derive macro itself is replaced by this description.
 */
module Schema {
  import opened Bytes
  import opened Tlv
  import opened TlvParser
  import opened TlvWriter

  /** The fields of a structure in declaration order, each with its context tag. */
  datatype Fields = NoFields | Field(tag: nat, ty: Ty, rest: Fields)

  datatype Ty =
    | TUint(k: nat)                              // u8, u16, u32, u64
    | TBool
    | TOctets                                    // OctetStr, Vec<u8>
    | TStruct(kind: Kind, fields: Fields)    // derive on a struct; kind is its `datatype` argument
    | TEnum(start: nat, variants: seq<Ty>)       // derive on an enum
    | TVec(elem: Ty)                             // TLVArrayOwned<T>
    | TSlots(n: nat, slot: Ty)                   // [Option<T>; N]
    | TOption(inner: Ty)
    | TNullable(inner: Ty)
    | TPrivilege
    | TAuthMode
    | TDistNames

  datatype Val =
    | VUint(u: nat)
    | VBool(b: bool)
    | VOctets(s: seq<byte>)
    | VSeq(vs: seq<Val>)                         // fields of a struct, elements of an array
    | VVariant(i: nat, v: Val)
    | VNone
    | VSome(v: Val)
    | VNull
    | VNotNull(v: Val)
    | VNames(dn: seq<(nat, nat)>)

  function OptionVal<T>(o: Option<T>, f: T -> Val): Val {
    match o
    case None => VNone
    case Some(x) => VSome(f(x))
  }

  /** `v` is a value of the Rust type `ty` stands for. A privilege is its four
      bits; an authentication mode is its number, 4 being `Invalid`. */
  predicate HasType(ty: Ty, v: Val)
    decreases ty, 1, 0
  {
    match ty
    case TUint(k) => k < 4 && v.VUint? && v.u < Pow256(Width(k))
    case TBool => v.VBool?
    case TOctets => v.VOctets?
    case TStruct(_, fields) => v.VSeq? && HasFields(fields, v.vs)
    case TEnum(start, variants) =>
      v.VVariant? && start + |variants| <= 256 && v.i < |variants| && HasType(variants[v.i], v.v)
    case TVec(elem) => v.VSeq? && AllHaveType(elem, v.vs)
    case TSlots(n, slot) => v.VSeq? && |v.vs| == n && AllHaveType(slot, v.vs)
    case TOption(inner) => v.VNone? || (v.VSome? && HasType(inner, v.v))
    case TNullable(inner) => v.VNull? || (v.VNotNull? && HasType(inner, v.v))
    case TPrivilege => v.VUint? && v.u < 16
    case TAuthMode => v.VUint? && 1 <= v.u <= 4
    case TDistNames => v.VNames? && ValidNames(v.dn)
  }

  predicate HasFields(fields: Fields, vs: seq<Val>)
    decreases fields, 0, 0
  {
    match fields
    case NoFields => vs == []
    case Field(tag, ty, rest) => tag < 256 && vs != [] && HasType(ty, vs[0]) && HasFields(rest, vs[1..])
  }

  predicate AllHaveType(ty: Ty, vs: seq<Val>)
    decreases ty, 2, |vs|
  {
    vs == [] || (HasType(ty, vs[0]) && AllHaveType(ty, vs[1..]))
  }

  predicate ValidNames(dn: seq<(nat, nat)>) {
    dn == [] || (dn[0].0 < 256 && dn[0].1 < Pow256(8) && ValidNames(dn[1..]))
  }

  /** The number a privilege is written as. */
  function PrivilegeNumber(bits: nat): nat
    requires bits < 16
  {
    if Contains(bits, 15) then 5
    else if Contains(bits, 3) then 4
    else if Contains(bits, 7) then 3
    else if Contains(bits, 1) then 1
    else 0
  }

  /** Every bit of `part` is set in `bits`. */
  predicate Contains(bits: nat, part: nat)
    requires bits < 16 && part < 16
  {
    (part % 2 == 1 ==> bits % 2 == 1) && (part / 2 % 2 == 1 ==> bits / 2 % 2 == 1) &&
    (part / 4 % 2 == 1 ==> bits / 4 % 2 == 1) && (part / 8 == 1 ==> bits / 8 == 1)
  }

  /** The privilege bits a number is read as. */
  function PrivilegeOf(number: nat): Result<nat, Error> {
    match number
    case 1 => Ok(1)
    case 3 => Ok(3)
    case 4 => Ok(7)
    case 5 => Ok(15)
    case _ => Err(Invalid)
  }

  /** The numbers of VIEW, OPERATE, MANAGE and ADMIN, and what numbers are read as: the
      source writes OPERATE with the number of MANAGE, and knows no ProxyView. */
  lemma PrivilegeNumbers(number: nat)
    ensures PrivilegeNumber(1) == 1 && PrivilegeNumber(3) == 4 && PrivilegeNumber(7) == 4 && PrivilegeNumber(15) == 5
    ensures PrivilegeOf(number).Ok? <==> number in {1, 3, 4, 5}
    ensures PrivilegeOf(1) == Ok(1) && PrivilegeOf(3) == Ok(3) && PrivilegeOf(4) == Ok(7) && PrivilegeOf(5) == Ok(15)
  {
  }

  /** Writing and reading a privilege keeps it exactly for VIEW, MANAGE and ADMIN.
      OPERATE comes back as MANAGE, and bits without V do not come back at all. */
  lemma PrivilegeBack(bits: nat)
    requires bits < 16
    ensures PrivilegeOf(PrivilegeNumber(bits)) == Ok(bits) <==> bits in {1, 7, 15}
    ensures PrivilegeOf(PrivilegeNumber(3)) == Ok(7)
    ensures PrivilegeOf(PrivilegeNumber(bits)).Err? <==> bits % 2 == 0
  {
    assert bits in {0, 1, 2, 3, 4, 5, 6, 7, 8, 9, 10, 11, 12, 13, 14, 15};
  }

  // ---------------------------------------------------------------- what is written

  /** The elements `to_tlv` writes for `v` under `tag`: none for a missing option
      and for the invalid authentication mode, one in every other case. */
  function Trees(ty: Ty, v: Val, tag: Tag): (ts: seq<Tree>)
    requires HasType(ty, v)
    decreases ty, 1, 0
  {
    match ty
    case TUint(k) => [UintLeaf(tag, v.u)]
    case TBool => [Leaf(tag, Bool(v.b))]
    case TOctets => [Leaf(tag, StringElement(16, v.s))]
    case TStruct(kind, fields) => [Node(tag, kind, FieldTrees(fields, v.vs))]
    case TEnum(start, variants) => [Node(tag, Struct, Trees(variants[v.i], v.v, Context(start + v.i)))]
    case TVec(elem) => [Node(tag, Array, ElementTrees(elem, v.vs))]
    case TSlots(_, slot) => [Node(tag, Array, ElementTrees(slot, v.vs))]
    case TOption(inner) => if v.VNone? then [] else Trees(inner, v.v, tag)
    case TNullable(inner) => if v.VNull? then [Leaf(tag, Null)] else Trees(inner, v.v, tag)
    case TPrivilege => [Leaf(tag, UInt(0, PrivilegeNumber(v.u)))]
    case TAuthMode => if v.u == 4 then [] else [Leaf(tag, UInt(0, v.u))]
    case TDistNames => [Node(tag, List, NameTrees(v.dn))]
  }

  function UintLeaf(tag: Tag, u: nat): Tree {
    Leaf(tag, UInt(if u < Pow256(8) then MinWidth(u) else 3, u))
  }

  function FieldTrees(fields: Fields, vs: seq<Val>): seq<Tree>
    requires HasFields(fields, vs)
    decreases fields, 0, 0
  {
    match fields
    case NoFields => []
    case Field(tag, ty, rest) => Trees(ty, vs[0], Context(tag)) + FieldTrees(rest, vs[1..])
  }

  function ElementTrees(ty: Ty, vs: seq<Val>): seq<Tree>
    requires AllHaveType(ty, vs)
    decreases ty, 2, |vs|
  {
    if vs == [] then [] else Trees(ty, vs[0], Anonymous) + ElementTrees(ty, vs[1..])
  }

  function NameTrees(dn: seq<(nat, nat)>): seq<Tree> {
    if dn == [] then [] else [UintLeaf(Context(dn[0].0), dn[0].1)] + NameTrees(dn[1..])
  }

  lemma NextField(tag: nat, ty: Ty, rest: Fields, v: Val, vs: seq<Val>)
    requires tag < 256 && HasType(ty, v) && HasFields(rest, vs)
    ensures HasFields(Field(tag, ty, rest), [v] + vs)
    ensures FieldTrees(Field(tag, ty, rest), [v] + vs) == Trees(ty, v, Context(tag)) + FieldTrees(rest, vs)
  {
    assert ([v] + vs)[1..] == vs;
  }

  lemma NoMoreFields()
    ensures HasFields(NoFields, []) && FieldTrees(NoFields, []) == []
  {
  }

  lemma StructTree(kind: Kind, fields: Fields, vs: seq<Val>, tag: Tag)
    requires HasFields(fields, vs)
    ensures HasType(TStruct(kind, fields), VSeq(vs))
    ensures Trees(TStruct(kind, fields), VSeq(vs), tag) == [Node(tag, kind, FieldTrees(fields, vs))]
  {
  }

  // ---------------------------------------------------------------- strings that fit

  /** No string in the value is longer than a two-byte length can say. */
  predicate Fits(ty: Ty, v: Val)
    requires HasType(ty, v)
    decreases ty, 1, 0
  {
    match ty
    case TOctets => |v.s| <= 0xffff
    case TStruct(_, fields) => FieldsFit(fields, v.vs)
    case TEnum(_, variants) => Fits(variants[v.i], v.v)
    case TVec(elem) => AllFit(elem, v.vs)
    case TSlots(_, slot) => AllFit(slot, v.vs)
    case TOption(inner) => v.VSome? ==> Fits(inner, v.v)
    case TNullable(inner) => v.VNotNull? ==> Fits(inner, v.v)
    case _ => true
  }

  predicate FieldsFit(fields: Fields, vs: seq<Val>)
    requires HasFields(fields, vs)
    decreases fields, 0, 0
  {
    match fields
    case NoFields => true
    case Field(_, ty, rest) => Fits(ty, vs[0]) && FieldsFit(rest, vs[1..])
  }

  predicate AllFit(ty: Ty, vs: seq<Val>)
    requires AllHaveType(ty, vs)
    decreases ty, 2, |vs|
  {
    vs == [] || (Fits(ty, vs[0]) && AllFit(ty, vs[1..]))
  }

  /** What is written for a value whose strings fit is made of valid trees. */
  lemma {:induction false} TreesValid(ty: Ty, v: Val, tag: Tag)
    requires HasType(ty, v) && Fits(ty, v) && tag.Valid()
    ensures ValidForest(Trees(ty, v, tag))
    decreases ty, 1, 0
  {
    Pow256Values();
    match ty {
    case TUint(k) => WidthsOrdered(k);
    case TOctets => StringToken(tag, 16, v.s);
    case TStruct(_, fields) => FieldTreesValid(fields, v.vs);
    case TEnum(start, variants) => TreesValid(variants[v.i], v.v, Context(start + v.i));
    case TVec(elem) => ElementTreesValid(elem, v.vs);
    case TSlots(_, slot) => ElementTreesValid(slot, v.vs);
    case TOption(inner) =>
      if v.VSome? {
        TreesValid(inner, v.v, tag);
      }
    case TNullable(inner) =>
      if v.VNotNull? {
        TreesValid(inner, v.v, tag);
      }
    case TDistNames => NameTreesValid(v.dn);
    case _ =>
    }
    if !ty.TOption? && (!ty.TNullable? || v.VNull?) {
      OneValid(Trees(ty, v, tag));
    }
  }

  lemma OneValid(ts: seq<Tree>)
    requires |ts| <= 1 && (ts != [] ==> ValidTree(ts[0]))
    ensures ValidForest(ts)
  {
    assert ts != [] ==> ts[1..] == [];
  }

  lemma WidthsOrdered(k: nat)
    requires k < 4
    ensures Pow256(Width(k)) <= Pow256(8)
  {
    Pow256Values();
  }

  lemma {:induction false} FieldTreesValid(fields: Fields, vs: seq<Val>)
    requires HasFields(fields, vs) && FieldsFit(fields, vs)
    ensures ValidForest(FieldTrees(fields, vs))
    decreases fields, 0, 0
  {
    Pow256Values();
    match fields
    case NoFields =>
    case Field(tag, ty, rest) =>
      TreesValid(ty, vs[0], Context(tag));
      FieldTreesValid(rest, vs[1..]);
      ValidForestConcat(Trees(ty, vs[0], Context(tag)), FieldTrees(rest, vs[1..]));
  }

  lemma {:induction false} ElementTreesValid(ty: Ty, vs: seq<Val>)
    requires AllHaveType(ty, vs) && AllFit(ty, vs)
    ensures ValidForest(ElementTrees(ty, vs))
    decreases ty, 2, |vs|
  {
    if vs != [] {
      TreesValid(ty, vs[0], Anonymous);
      ElementTreesValid(ty, vs[1..]);
      ValidForestConcat(Trees(ty, vs[0], Anonymous), ElementTrees(ty, vs[1..]));
    }
  }

  lemma {:induction false} NameTreesValid(dn: seq<(nat, nat)>)
    requires ValidNames(dn)
    ensures ValidForest(NameTrees(dn))
  {
    if dn != [] {
      Pow256Values();
      NameTreesValid(dn[1..]);
      assert NameTrees(dn)[1..] == NameTrees(dn[1..]);
    }
  }
}

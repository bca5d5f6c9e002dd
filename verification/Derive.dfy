/**
 The derived decoders: the one-pass decoder with a look-ahead of one element,
 the decoder that looks every tag up, and the theorems that tie both to what
 the derived encoder writes.
 */
module Derive {
  import opened Bytes
  import opened Tlv
  import opened TlvParser
  import opened TlvWriter
  import opened WriteBufs
  import opened Schema

  // ---------------------------------------------------------------- decoding

  /** `from_tlv` for the type `ty`. */
  function Decode(ty: Ty, e: Element): Result<Val, Error>
    decreases ty, 1, 0
  {
    match ty
    case TUint(k) =>
      (match GetUnsigned(e, k) case Ok(u) => Ok(VUint(u)) case Err(err) => Err(err))
    case TBool =>
      (match GetBool(e) case Ok(b) => Ok(VBool(b)) case Err(err) => Err(err))
    case TOctets =>
      (match GetSlice(e) case Ok(s) => Ok(VOctets(s)) case Err(err) => Err(err))
    case TStruct(kind, fields) =>
      if !IsKind(e, kind) then Err(TLVTypeMismatch)
      else
        (match DecodeFields(fields, Children(Enter(e.val.body))) case Ok(vs) => Ok(VSeq(vs)) case Err(err) => Err(err))
    case TEnum(start, variants) =>
      if !IsKind(e, Struct) then Err(TLVTypeMismatch)
      else
        var es := Children(Enter(e.val.body));
        if es == [] then Err(Invalid)
        else if !es[0].tag.Context? then Err(TLVTypeMismatch)
        else
          var i := es[0].tag.v - start;
          if !(0 <= i < |variants|) then Err(Invalid)
          else (match Decode(variants[i], es[0]) case Ok(v) => Ok(VVariant(i, v)) case Err(err) => Err(err))
    case TVec(elem) =>
      if !IsKind(e, Array) then Err(TLVTypeMismatch)
      else
        (match DecodeEach(elem, Children(Enter(e.val.body))) case Ok(vs) => Ok(VSeq(vs)) case Err(err) => Err(err))
    case TSlots(n, slot) =>
      if !IsKind(e, Array) then Err(TLVTypeMismatch)
      else
        (match DecodeEach(slot, Cut(Children(Enter(e.val.body)), n))
         case Ok(vs) => Ok(VSeq(Padded(vs, n)))
         case Err(err) => Err(err))
    case TOption(inner) =>
      (match Decode(inner, e) case Ok(v) => Ok(VSome(v)) case Err(err) => Err(err))
    case TNullable(inner) =>
      if e.val.Null? then Ok(VNull)
      else (match Decode(inner, e) case Ok(v) => Ok(VNotNull(v)) case Err(err) => Err(err))
    case TPrivilege =>
      (match GetUnsigned(e, 2)
       case Ok(u) => (match PrivilegeOf(u) case Ok(bits) => Ok(VUint(bits)) case Err(err) => Err(err))
       case Err(err) => Err(err))
    case TAuthMode =>
      (match GetUnsigned(e, 2)
       case Ok(u) => if 1 <= u <= 3 then Ok(VUint(u)) else Err(Invalid)
       case Err(err) => Err(err))
    case TDistNames =>
      if !IsKind(e, List) then Err(TLVTypeMismatch)
      else
        (match DecodeNames(Children(Enter(e.val.body))) case Ok(dn) => Ok(VNames(dn)) case Err(err) => Err(err))
  }

  predicate IsKind(e: Element, kind: Kind) {
    e.val.Container? && e.val.kind == kind
  }

  /** The one-pass decoder: one element of look-ahead, taken when its tag is the
      field's own and left for a later field otherwise. */
  function DecodeFields(fields: Fields, es: seq<Element>): Result<seq<Val>, Error>
    decreases fields, 0, 0
  {
    match fields
    case NoFields => Ok([])
    case Field(tag, ty, rest) =>
      var here := es != [] && es[0].tag == Context(tag);
      match (if here then Decode(ty, es[0]) else NotFoundValue(ty))
      case Err(err) => Err(err)
      case Ok(v) =>
        match DecodeFields(rest, if here then es[1..] else es)
        case Err(err) => Err(err)
        case Ok(vs) => Ok([v] + vs)
  }

  /** The decoder for structures declared unordered: it looks every tag up. */
  function DecodeByTag(fields: Fields, es: seq<Element>): Result<seq<Val>, Error>
    decreases fields, 0, 0
  {
    match fields
    case NoFields => Ok([])
    case Field(tag, ty, rest) =>
      var found := if tag < 256 then FirstTagged(es, tag) else None;
      match (if found.Some? then Decode(ty, found.value) else NotFoundValue(ty))
      case Err(err) => Err(err)
      case Ok(v) =>
        match DecodeByTag(rest, es)
        case Err(err) => Err(err)
        case Ok(vs) => Ok([v] + vs)
  }

  /** `tlv_not_found`: only an option may be missing. */
  function NotFoundValue(ty: Ty): Result<Val, Error> {
    if ty.TOption? then Ok(VNone) else Err(TLVNotFound)
  }

  function DecodeEach(ty: Ty, es: seq<Element>): (r: Result<seq<Val>, Error>)
    ensures r.Ok? ==> |r.value| == |es|
    decreases ty, 2, |es|
  {
    if es == [] then Ok([])
    else
      match Decode(ty, es[0])
      case Err(err) => Err(err)
      case Ok(v) =>
        match DecodeEach(ty, es[1..])
        case Err(err) => Err(err)
        case Ok(vs) => Ok([v] + vs)
  }

  /** The first `n` elements, or all when there are fewer. */
  function Cut<T>(s: seq<T>, n: nat): seq<T> {
    if |s| <= n then s else s[..n]
  }

  function Padded(vs: seq<Val>, n: nat): (r: seq<Val>) {
    if |vs| < n then vs + seq(n - |vs|, i => VNone) else vs
  }

  function DecodeNames(es: seq<Element>): Result<seq<(nat, nat)>, Error> {
    if es == [] then Ok([])
    else if !es[0].tag.Context? then DecodeNames(es[1..])
    else
      match GetUnsigned(es[0], 3)
      case Err(err) => Err(err)
      case Ok(u) =>
        match DecodeNames(es[1..])
        case Err(err) => Err(err)
        case Ok(dn) => Ok([(es[0].tag.v, u)] + dn)
  }

  // ---------------------------------------------------------------- schemas that can be decoded

  /** A value of `ty` that is present is written as exactly one element. */
  predicate OneElement(ty: Ty) {
    match ty
    case TOption(_) => false
    case TNullable(inner) => OneElement(inner)
    case _ => true
  }

  /** A null written by the inner type would be mistaken for the outer null. */
  predicate NeverNull(ty: Ty) {
    !ty.TNullable? && !ty.TOption?
  }

  predicate Decodable(ty: Ty)
    decreases ty, 1
  {
    match ty
    case TStruct(_, fields) => DecodableFields(fields)
    case TEnum(_, variants) => forall i :: 0 <= i < |variants| ==> OneElement(variants[i]) && Decodable(variants[i])
    case TVec(elem) => OneElement(elem) && Decodable(elem)
    case TSlots(_, slot) => slot.TOption? && Decodable(slot)
    case TOption(inner) => OneElement(inner) && Decodable(inner)
    case TNullable(inner) => NeverNull(inner) && Decodable(inner)
    case _ => true
  }

  predicate DecodableFields(fields: Fields)
    decreases fields, 0
  {
    match fields
    case NoFields => true
    case Field(tag, ty, rest) => Decodable(ty) && tag !in Tags(rest) && DecodableFields(rest)
  }

  function Tags(fields: Fields): set<nat> {
    match fields
    case NoFields => {}
    case Field(tag, _, rest) => {tag} + Tags(rest)
  }

  /** Every privilege is VIEW, MANAGE or ADMIN and every authentication mode is a
      real one: the values that are not changed or lost by being written. */
  predicate Lossless(ty: Ty, v: Val)
    requires HasType(ty, v)
    decreases ty, 1, 0
  {
    match ty
    case TStruct(_, fields) => LosslessFields(fields, v.vs)
    case TEnum(_, variants) => Lossless(variants[v.i], v.v)
    case TVec(elem) => AllLossless(elem, v.vs)
    case TSlots(_, slot) => AllLossless(slot, v.vs)
    case TOption(inner) => v.VSome? ==> Lossless(inner, v.v)
    case TNullable(inner) => v.VNotNull? ==> Lossless(inner, v.v)
    case TPrivilege => v.u in {1, 7, 15}
    case TAuthMode => v.u != 4
    case _ => true
  }

  predicate LosslessFields(fields: Fields, vs: seq<Val>)
    requires HasFields(fields, vs)
    decreases fields, 0, 0
  {
    match fields
    case NoFields => true
    case Field(_, ty, rest) => Lossless(ty, vs[0]) && LosslessFields(rest, vs[1..])
  }

  predicate AllLossless(ty: Ty, vs: seq<Val>)
    requires AllHaveType(ty, vs)
    decreases ty, 2, |vs|
  {
    vs == [] || (Lossless(ty, vs[0]) && AllLossless(ty, vs[1..]))
  }

  /** The value a reader gets back: the occupied slots of an array move to its front. */
  function Compact(ty: Ty, v: Val): Val
    requires HasType(ty, v)
    decreases ty, 1, 0
  {
    match ty
    case TStruct(_, fields) => VSeq(CompactFields(fields, v.vs))
    case TEnum(_, variants) => VVariant(v.i, Compact(variants[v.i], v.v))
    case TVec(elem) => VSeq(CompactEach(elem, v.vs))
    case TSlots(n, slot) => VSeq(Padded(Present(CompactEach(slot, v.vs)), n))
    case TOption(inner) => if v.VNone? then VNone else VSome(Compact(inner, v.v))
    case TNullable(inner) => if v.VNull? then VNull else VNotNull(Compact(inner, v.v))
    case _ => v
  }

  function CompactFields(fields: Fields, vs: seq<Val>): seq<Val>
    requires HasFields(fields, vs)
    decreases fields, 0, 0
  {
    match fields
    case NoFields => []
    case Field(_, ty, rest) => [Compact(ty, vs[0])] + CompactFields(rest, vs[1..])
  }

  function CompactEach(ty: Ty, vs: seq<Val>): (r: seq<Val>)
    requires AllHaveType(ty, vs)
    ensures |r| == |vs|
    decreases ty, 2, |vs|
  {
    if vs == [] then [] else [Compact(ty, vs[0])] + CompactEach(ty, vs[1..])
  }

  /** The values that are not `None`, in order. */
  function Present(vs: seq<Val>): (r: seq<Val>)
    ensures |r| <= |vs|
  {
    if vs == [] then []
    else if vs[0].VNone? then Present(vs[1..])
    else [vs[0]] + Present(vs[1..])
  }

  // ---------------------------------------------------------------- the round trip

  /** One element is written, under the tag it was given, unless an option is missing. */
  lemma {:induction false} OneTree(ty: Ty, v: Val, tag: Tag)
    requires HasType(ty, v) && Decodable(ty) && Lossless(ty, v)
    ensures var ts := Trees(ty, v, tag);
            if ty.TOption? && v.VNone? then ts == [] else |ts| == 1 && ts[0].tag == tag
    ensures NeverNull(ty) && Trees(ty, v, tag) != [] && Trees(ty, v, tag)[0].Leaf? ==> !Trees(ty, v, tag)[0].val.Null?
    decreases ty
  {
    match ty
    case TOption(inner) =>
      if v.VSome? {
        OneTree(inner, v.v, tag);
      }
    case TNullable(inner) =>
      if v.VNotNull? {
        OneTree(inner, v.v, tag);
      }
    case _ =>
  }

  /** Entering an element that denotes a node yields elements that denote its children. */
  lemma ContainerChildren(e: Element, t: Tree)
    requires ValidTree(t) && t.Node? && Denotes(e, t)
    ensures DenoteAll(Children(Enter(e.val.body)), t.children)
  {
    var tail := e.val.body[|EncodeForest(t.children) + END|..];
    assert e.val.body == EncodeForest(t.children) + END + tail;
    IteratorYieldsChildren(t.children, tail, 0);
  }

  /** The derived codec round-trips: the decoder applied to what the encoder wrote
      returns the value, its slot arrays compacted. */
  lemma {:induction false} DecodesBack(ty: Ty, v: Val, tag: Tag, e: Element)
    requires HasType(ty, v) && Decodable(ty) && Lossless(ty, v) && Fits(ty, v) && tag.Valid()
    requires Trees(ty, v, tag) != [] && ValidTree(Trees(ty, v, tag)[0]) && Denotes(e, Trees(ty, v, tag)[0])
    ensures Decode(ty, e) == Ok(Compact(ty, v))
    decreases ty, 1, 1
  {
    hide Denotes, Children, ValidTree, DenoteAll, Width, ReadElement, FieldTrees, ElementTrees, NameTrees, DecodeFields, DecodeEach, DecodeNames;
    match ty {
      case TUint(k) =>
        UintBack(k, v.u, tag, e);
        assert Decode(ty, e) == Ok(v);
      case TEnum(start, variants) =>
        ContainerBack(e, Trees(ty, v, tag)[0]);
        var inner := Context(start + v.i);
        Pow256Values();
        OneTree(variants[v.i], v.v, inner);
        var es := Children(Enter(e.val.body));
        DenoteOne(es, Trees(ty, v, tag)[0].children);
        DecodesBack(variants[v.i], v.v, inner, es[0]);
      case TOption(inner) => DecodesBack(inner, v.v, tag, e);
      case TNullable(inner) => NullableBack(inner, v, tag, e);
      case TBool => LeafBack(ty, v, tag, e);
      case TOctets => LeafBack(ty, v, tag, e);
      case TPrivilege => LeafBack(ty, v, tag, e);
      case TAuthMode => LeafBack(ty, v, tag, e);
      case _ => NodeBack(ty, v, tag, e);
    }
  }

  lemma {:induction false} NodeBack(ty: Ty, v: Val, tag: Tag, e: Element)
    requires ty.TStruct? || ty.TVec? || ty.TSlots? || ty.TDistNames?
    requires HasType(ty, v) && Decodable(ty) && Lossless(ty, v) && Fits(ty, v)
    requires ValidTree(Trees(ty, v, tag)[0]) && Denotes(e, Trees(ty, v, tag)[0])
    ensures Decode(ty, e) == Ok(Compact(ty, v))
    decreases ty, 1, 0
  {
    hide Denotes, Children, DenoteAll, ValidTree, Cut, Padded, Present;
    ContainerBack(e, Trees(ty, v, tag)[0]);
    var es := Children(Enter(e.val.body));
    match ty {
      case TStruct(_, fields) =>
        FieldsBack(fields, v.vs, es, []);
        assert es + [] == es;
      case TVec(elem) => ElementsBack(elem, v.vs, es);
      case TSlots(n, slot) =>
        ElementsBack(slot, v.vs, es);
        FewEnough(slot, es, n);
      case TDistNames => NamesBack(v.dn, es);
    }
  }

  lemma FewEnough(ty: Ty, es: seq<Element>, n: nat)
    requires DecodeEach(ty, es).Ok? && |DecodeEach(ty, es).value| <= n
    ensures Cut(es, n) == es
  {
  }

  lemma ContainerBack(e: Element, t: Tree)
    requires ValidTree(t) && t.Node? && Denotes(e, t)
    ensures IsKind(e, t.kind) && ValidForest(t.children) && DenoteAll(Children(Enter(e.val.body)), t.children)
  {
    ContainerChildren(e, t);
  }

  lemma DenoteOne(es: seq<Element>, ts: seq<Tree>)
    requires ValidForest(ts) && DenoteAll(es, ts) && |ts| == 1
    ensures |es| == 1 && ValidTree(ts[0]) && Denotes(es[0], ts[0]) && es[0].tag == ts[0].tag
  {
  }

  lemma DenotesTag(e: Element, t: Tree)
    requires ValidTree(t) && Denotes(e, t)
    ensures e.tag == t.tag
  {
  }

  lemma UintBack(k: nat, u: nat, tag: Tag, e: Element)
    requires k < 4 && u < Pow256(Width(k)) && ValidTree(UintLeaf(tag, u)) && Denotes(e, UintLeaf(tag, u))
    ensures GetUnsigned(e, k) == Ok(u)
  {
    WidthsOrdered(k);
    if k < MinWidth(u) {
      MinWidthIsLeast(u, k);
    }
  }

  lemma LeafBack(ty: Ty, v: Val, tag: Tag, e: Element)
    requires HasType(ty, v) && Lossless(ty, v)
    requires ty.TBool? || ty.TOctets? || ty.TPrivilege? || ty.TAuthMode?
    requires Trees(ty, v, tag) != [] && ValidTree(Trees(ty, v, tag)[0]) && Denotes(e, Trees(ty, v, tag)[0])
    ensures Decode(ty, e) == Ok(v)
  {
    if ty.TPrivilege? {
      PrivilegeBack(v.u);
    }
  }

  lemma {:induction false} NullableBack(inner: Ty, v: Val, tag: Tag, e: Element)
    requires HasType(TNullable(inner), v) && Decodable(TNullable(inner)) && Lossless(TNullable(inner), v)
    requires Fits(TNullable(inner), v) && tag.Valid()
    requires var ts := Trees(TNullable(inner), v, tag); ts != [] && ValidTree(ts[0]) && Denotes(e, ts[0])
    ensures Decode(TNullable(inner), e) == Ok(Compact(TNullable(inner), v))
    decreases inner, 3, 0
  {
    if v.VNotNull? {
      OneTree(inner, v.v, tag);
      DecodesBack(inner, v.v, tag, e);
    }
  }

  /** The one-pass decoder on the fields that were written, whatever elements with
      other tags come behind them: those are ignored. */
  lemma {:induction false} FieldsBack(fields: Fields, vs: seq<Val>, es: seq<Element>, foreign: seq<Element>)
    requires HasFields(fields, vs) && DecodableFields(fields) && LosslessFields(fields, vs) && FieldsFit(fields, vs)
    requires ValidForest(FieldTrees(fields, vs)) && DenoteAll(es, FieldTrees(fields, vs))
    requires AllForeign(foreign, Tags(fields))
    ensures DecodeFields(fields, es + foreign) == Ok(CompactFields(fields, vs))
    decreases fields, 0, 0
  {
    hide Denotes, Trees, Decode, Lossless, Fits, Decodable, HasType, ValidForest, DenoteAll, DecodeFields, AllForeign;
    match fields
    case NoFields => NothingDecoded(es, foreign);
    case Field(tag, ty, rest) =>
      var here, there := Trees(ty, vs[0], Context(tag)), FieldTrees(rest, vs[1..]);
      FieldParts(tag, ty, rest, vs, es);
      ForeignToFewer(foreign, Tags(fields), Tags(rest));
      if here == [] {
        HeadTagIsOneOf(rest, vs[1..], es);
        FieldsBack(rest, vs[1..], es, foreign);
        FieldMissing(tag, ty, rest, es, foreign);
        OneTree(ty, vs[0], Context(tag));
      } else {
        Pow256Values();
        DecodesBack(ty, vs[0], Context(tag), es[0]);
        FieldsBack(rest, vs[1..], es[1..], foreign);
        FieldFound(tag, ty, rest, es, foreign);
      }
  }

  lemma NothingDecoded(es: seq<Element>, foreign: seq<Element>)
    ensures DecodeFields(NoFields, es + foreign) == Ok([])
  {
  }

  /** The elements of a structure are that of its first field, if it is there, and those
      of the others. */
  lemma FieldParts(tag: nat, ty: Ty, rest: Fields, vs: seq<Val>, es: seq<Element>)
    requires HasFields(Field(tag, ty, rest), vs) && Decodable(ty) && Lossless(ty, vs[0])
    requires var ts := FieldTrees(Field(tag, ty, rest), vs); ValidForest(ts) && DenoteAll(es, ts)
    ensures var here, there := Trees(ty, vs[0], Context(tag)), FieldTrees(rest, vs[1..]);
            ValidForest(there)
            && if here == [] then DenoteAll(es, there)
               else es != [] && ValidTree(here[0]) && Denotes(es[0], here[0]) && es[0].tag == Context(tag) && DenoteAll(es[1..], there)
  {
    hide Denotes, Trees, Lossless, Decodable, HasType;
    var here, there := Trees(ty, vs[0], Context(tag)), FieldTrees(rest, vs[1..]);
    ValidForestConcat(here, there);
    OneTree(ty, vs[0], Context(tag));
    if here == [] {
      assert here + there == there;
    } else {
      assert (here + there)[0] == here[0] && (here + there)[1..] == there;
      DenotesTag(es[0], here[0]);
    }
  }

  lemma FieldMissing(tag: nat, ty: Ty, rest: Fields, es: seq<Element>, foreign: seq<Element>)
    requires tag !in Tags(rest) && AllForeign(foreign, Tags(Field(tag, ty, rest)))
    requires es != [] ==> es[0].tag.Context? && es[0].tag.v in Tags(rest)
    requires DecodeFields(rest, es + foreign).Ok?
    ensures DecodeFields(Field(tag, ty, rest), es + foreign)
         == if ty.TOption? then Ok([VNone] + DecodeFields(rest, es + foreign).value) else Err(TLVNotFound)
  {
    hide Decode;
    var all := es + foreign;
    assert all != [] ==> all[0] == if es != [] then es[0] else foreign[0];
  }

  lemma FieldFound(tag: nat, ty: Ty, rest: Fields, es: seq<Element>, foreign: seq<Element>)
    requires es != [] && es[0].tag == Context(tag) && Decode(ty, es[0]).Ok? && DecodeFields(rest, es[1..] + foreign).Ok?
    ensures DecodeFields(Field(tag, ty, rest), es + foreign)
         == Ok([Decode(ty, es[0]).value] + DecodeFields(rest, es[1..] + foreign).value)
  {
    hide Decode;
    assert (es + foreign)[1..] == es[1..] + foreign;
  }

  /** No element of `es` carries a context tag in `tags`. */
  predicate AllForeign(es: seq<Element>, tags: set<nat>) {
    forall i :: 0 <= i < |es| ==> es[i].tag.Context? ==> es[i].tag.v !in tags
  }

  lemma ForeignToFewer(es: seq<Element>, tags: set<nat>, fewer: set<nat>)
    requires AllForeign(es, tags) && fewer <= tags
    ensures AllForeign(es, fewer)
  {
  }

  /** The first element in front of the decoder belongs to one of the fields. */
  lemma {:induction false} HeadTagIsOneOf(fields: Fields, vs: seq<Val>, es: seq<Element>)
    requires HasFields(fields, vs) && DecodableFields(fields) && LosslessFields(fields, vs)
    requires ValidForest(FieldTrees(fields, vs)) && DenoteAll(es, FieldTrees(fields, vs))
    ensures es != [] ==> es[0].tag.Context? && es[0].tag.v in Tags(fields)
    decreases fields
  {
    match fields
    case NoFields =>
    case Field(tag, ty, rest) =>
      var here := Trees(ty, vs[0], Context(tag));
      var there := FieldTrees(rest, vs[1..]);
      ValidForestConcat(here, there);
      OneTree(ty, vs[0], Context(tag));
      if here == [] {
        assert FieldTrees(fields, vs) == there;
        HeadTagIsOneOf(rest, vs[1..], es);
      } else {
        DenotesTag(es[0], here[0]);
      }
  }

  lemma {:induction false} ElementsBack(ty: Ty, vs: seq<Val>, es: seq<Element>)
    requires AllHaveType(ty, vs) && Decodable(ty) && AllLossless(ty, vs) && AllFit(ty, vs)
    requires OneElement(ty) || ty.TOption?
    requires ValidForest(ElementTrees(ty, vs)) && DenoteAll(es, ElementTrees(ty, vs))
    ensures DecodeEach(ty, es) == Ok(if ty.TOption? then Present(CompactEach(ty, vs)) else CompactEach(ty, vs))
    decreases ty, 2, |vs|
  {
    hide Denotes;
    if vs != [] {
      var here := Trees(ty, vs[0], Anonymous);
      var there := ElementTrees(ty, vs[1..]);
      ValidForestConcat(here, there);
      OneTree(ty, vs[0], Anonymous);
      assert CompactEach(ty, vs)[1..] == CompactEach(ty, vs[1..]);
      if here == [] {
        assert ElementTrees(ty, vs) == there;
        ElementsBack(ty, vs[1..], es);
      } else {
        assert ElementTrees(ty, vs)[0] == here[0] && ElementTrees(ty, vs)[1..] == there;
        DecodesBack(ty, vs[0], Anonymous, es[0]);
        ElementsBack(ty, vs[1..], es[1..]);
      }
    }
  }

  lemma {:induction false} NamesBack(dn: seq<(nat, nat)>, es: seq<Element>)
    requires ValidNames(dn) && ValidForest(NameTrees(dn)) && DenoteAll(es, NameTrees(dn))
    ensures DecodeNames(es) == Ok(dn)
  {
    if dn != [] {
      assert NameTrees(dn)[1..] == NameTrees(dn[1..]);
      UintBack(3, dn[0].1, Context(dn[0].0), es[0]);
      NamesBack(dn[1..], es[1..]);
      assert dn == [(dn[0].0, dn[0].1)] + dn[1..];
    }
  }

  /** From bytes to bytes: decoding the first element of the encoding of `v`,
      whatever follows it, returns `v` with its slot arrays compacted. */
  lemma CodecRoundTrip(ty: Ty, v: Val, tag: Tag, rest: seq<byte>)
    requires HasType(ty, v) && Decodable(ty) && Lossless(ty, v) && Fits(ty, v) && tag.Valid()
    requires OneElement(ty)
    ensures ValidForest(Trees(ty, v, tag))
    ensures var r := ReadElement(EncodeForest(Trees(ty, v, tag)) + rest);
            r.elem.Some? && Decode(ty, r.elem.value) == Ok(Compact(ty, v))
  {
    hide ReadElement, Denotes, Decode, Encode;
    TreesValid(ty, v, tag);
    OneTree(ty, v, tag);
    var ts := Trees(ty, v, tag);
    assert ts == [ts[0]];
    EncodeOne(ts[0]);
    ReadFirst(ts[0], rest);
    DecodesBack(ty, v, tag, ReadElement(EncodeForest(ts) + rest).elem.value);
  }

  // ---------------------------------------------------------------- the two decoders

  /** The schema-tagged elements of `es` appear at most once and in schema order,
      before any element that is foreign to the whole schema `all`. */
  predicate InSchemaOrder(fields: Fields, es: seq<Element>, all: set<nat>) {
    if es == [] then true
    else
      match fields
      case NoFields => AllForeign(es, all)
      case Field(tag, _, rest) =>
        InSchemaOrder(rest, if es[0].tag == Context(tag) then es[1..] else es, all)
  }

  predicate DistinctTags(fields: Fields) {
    match fields
    case NoFields => true
    case Field(tag, _, rest) => tag < 256 && tag !in Tags(rest) && DistinctTags(rest)
  }

  /** Elements in schema order carry no tag of the schema but those of the fields still ahead. */
  lemma {:induction false} OnlyAhead(fields: Fields, es: seq<Element>, all: set<nat>, tag: byte)
    requires InSchemaOrder(fields, es, all) && tag in all && tag !in Tags(fields)
    ensures FirstTagged(es, tag) == None
    decreases fields, |es|
  {
    if es != [] {
      match fields
      case NoFields => NoneTagged(es, all, tag);
      case Field(t, _, rest) =>
        if es[0].tag == Context(t) {
          OnlyAhead(rest, es[1..], all, tag);
        } else {
          OnlyAhead(rest, es, all, tag);
        }
    }
  }

  lemma {:induction false} NoneTagged(es: seq<Element>, tags: set<nat>, tag: byte)
    requires AllForeign(es, tags) && tag in tags
    ensures FirstTagged(es, tag) == None
  {
    if es != [] {
      assert es[0].tag != Context(tag);
      NoneTagged(es[1..], tags, tag);
    }
  }

  lemma {:induction false} FirstTaggedSkips(pre: seq<Element>, es: seq<Element>, tag: byte)
    requires FirstTagged(pre, tag) == None
    ensures FirstTagged(pre + es, tag) == FirstTagged(es, tag)
  {
    if pre == [] {
      assert pre + es == es;
    } else {
      assert (pre + es)[1..] == pre[1..] + es;
      FirstTaggedSkips(pre[1..], es, tag);
    }
  }

  /** Both decoders return the same value or the same error on a structure whose
      schema-tagged children come at most once, in schema order, before any
      foreign element. `pre` is what the one-pass decoder has consumed. */
  lemma {:induction false} DecodersAgreeFrom(fields: Fields, pre: seq<Element>, es: seq<Element>, all: set<nat>)
    requires DistinctTags(fields) && Tags(fields) <= all && InSchemaOrder(fields, es, all)
    requires forall tag: byte :: tag in Tags(fields) ==> FirstTagged(pre, tag) == None
    ensures DecodeFields(fields, es) == DecodeByTag(fields, pre + es)
    decreases fields
  {
    match fields
    case NoFields =>
    case Field(tag, ty, rest) =>
      FirstTaggedSkips(pre, es, tag);
      if es != [] && es[0].tag == Context(tag) {
        forall t: byte | t in Tags(rest)
          ensures FirstTagged(pre + [es[0]], t) == None
        {
          FirstTaggedSkips(pre, [es[0]], t);
        }
        assert pre + es == pre + [es[0]] + es[1..];
        DecodersAgreeFrom(rest, pre + [es[0]], es[1..], all);
      } else {
        if es != [] {
          OnlyAhead(rest, es, all, tag);
        }
        DecodersAgreeFrom(rest, pre, es, all);
      }
  }

  lemma DecodersAgree(fields: Fields, es: seq<Element>)
    requires DistinctTags(fields) && InSchemaOrder(fields, es, Tags(fields))
    ensures DecodeFields(fields, es) == DecodeByTag(fields, es)
  {
    DecodersAgreeFrom(fields, [], es, Tags(fields));
    assert [] + es == es;
  }

  /** Out of schema order they differ, whatever the fields: with the elements of two
      required fields swapped, the one-pass decoder misses the first one and the other
      decoder finds both. */
  lemma OrderMatters(tag0: byte, ty0: Ty, tag1: byte, ty1: Ty, e0: Element, e1: Element)
    requires tag0 != tag1 && !ty0.TOption?
    requires e0.tag == Context(tag0) && e1.tag == Context(tag1) && Decode(ty0, e0).Ok? && Decode(ty1, e1).Ok?
    ensures var fields := Field(tag0, ty0, Field(tag1, ty1, NoFields));
            DecodeFields(fields, [e1, e0]) == Err(TLVNotFound)
            && DecodeByTag(fields, [e1, e0]) == Ok([Decode(ty0, e0).value, Decode(ty1, e1).value])
            && DecodeFields(fields, [e0, e1]) == DecodeByTag(fields, [e1, e0])
  {
    hide Decode;
    var es, last := [e1, e0], Field(tag1, ty1, NoFields);
    var v0, v1 := Decode(ty0, e0).value, Decode(ty1, e1).value;
    assert es[1..] == [e0] && [e0, e1][1..] == [e1] && [e1][1..] == [];
    assert FirstTagged(es, tag0) == Some(e0) && FirstTagged(es, tag1) == Some(e1);
    assert [v1] + [] == [v1] && [v0] + [v1] == [v0, v1];
    assert DecodeByTag(NoFields, es) == Ok([]) && DecodeByTag(last, es) == Ok([v1]);
    assert DecodeFields(NoFields, []) == Ok([]) && DecodeFields(last, [e1]) == Ok([v1]);
  }

  /** Elements with unknown tags behind the fields change nothing. */
  lemma {:induction false} TrailingIgnored(fields: Fields, es: seq<Element>, foreign: seq<Element>)
    requires AllForeign(foreign, Tags(fields))
    ensures DecodeFields(fields, es + foreign) == DecodeFields(fields, es)
    decreases fields
  {
    match fields
    case NoFields =>
    case Field(tag, ty, rest) =>
      ForeignToFewer(foreign, Tags(fields), Tags(rest));
      var all := es + foreign;
      if es != [] && es[0].tag == Context(tag) {
        assert all[1..] == es[1..] + foreign;
        TrailingIgnored(rest, es[1..], foreign);
        assert DecodeFields(rest, all[1..]) == DecodeFields(rest, es[1..]);
      } else {
        assert all != [] ==> all[0].tag != Context(tag);
        TrailingIgnored(rest, es, foreign);
        assert DecodeFields(rest, all) == DecodeFields(rest, es);
      }
  }
}

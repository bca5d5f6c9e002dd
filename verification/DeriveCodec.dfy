/**
 The generated encoders and decoders as the source runs them: appending to the
 write buffer, and advancing an iterator element by element.
 */
module DeriveCodec {
  import opened Bytes
  import opened Tlv
  import opened TlvParser
  import opened TlvWriter
  import opened WriteBufs
  import opened Schema
  import opened Derive

  // ---------------------------------------------------------------- encoding

  /** The bytes `to_tlv` puts on the wire for any value, over-long strings included. */
  function Written(ty: Ty, v: Val, tag: Tag): seq<byte>
    requires HasType(ty, v)
    decreases ty, 1, 0
  {
    match ty
    case TUint(k) => UintBytes(tag, v.u)
    case TBool => TokenBytes(tag, Bool(v.b))
    case TOctets => LongBytes(tag, 16, v.s)
    case TStruct(kind, fields) => Bracketed(tag, kind, WrittenFields(fields, v.vs))
    case TEnum(start, variants) => Bracketed(tag, Struct, Written(variants[v.i], v.v, Context(start + v.i)))
    case TVec(elem) => Bracketed(tag, Array, WrittenElements(elem, v.vs))
    case TSlots(_, slot) => Bracketed(tag, Array, WrittenElements(slot, v.vs))
    case TOption(inner) => if v.VNone? then [] else Written(inner, v.v, tag)
    case TNullable(inner) => if v.VNull? then TokenBytes(tag, Null) else Written(inner, v.v, tag)
    case TPrivilege => UintBytes(tag, PrivilegeNumber(v.u))
    case TAuthMode => if v.u == 4 then [] else UintBytes(tag, v.u)
    case TDistNames => Bracketed(tag, List, WrittenNames(v.dn))
  }

  function UintBytes(tag: Tag, u: nat): seq<byte> {
    if u < Pow256(8) then TokenBytes(tag, UInt(MinWidth(u), u)) else []
  }

  function Bracketed(tag: Tag, kind: Kind, inner: seq<byte>): seq<byte> {
    TokenBytes(tag, Container(kind, [])) + inner + END
  }

  function WrittenFields(fields: Fields, vs: seq<Val>): seq<byte>
    requires HasFields(fields, vs)
    decreases fields, 0, 0
  {
    match fields
    case NoFields => []
    case Field(tag, ty, rest) => Written(ty, vs[0], Context(tag)) + WrittenFields(rest, vs[1..])
  }

  function WrittenElements(ty: Ty, vs: seq<Val>): seq<byte>
    requires AllHaveType(ty, vs)
    decreases ty, 2, |vs|
  {
    if vs == [] then [] else Written(ty, vs[0], Anonymous) + WrittenElements(ty, vs[1..])
  }

  function WrittenNames(dn: seq<(nat, nat)>): seq<byte> {
    if dn == [] then [] else UintBytes(Context(dn[0].0), dn[0].1) + WrittenNames(dn[1..])
  }

  /** When every string fits, these bytes are the encoding of the value's trees. */
  lemma {:induction false} WrittenIsEncoding(ty: Ty, v: Val, tag: Tag)
    requires HasType(ty, v) && Fits(ty, v) && tag.Valid()
    ensures ValidForest(Trees(ty, v, tag)) && Written(ty, v, tag) == EncodeForest(Trees(ty, v, tag))
    decreases ty, 1, 1
  {
    hide TokenBytes;
    TreesValid(ty, v, tag);
    match ty {
      case TOption(inner) =>
        if v.VSome? {
          WrittenIsEncoding(inner, v.v, tag);
        }
      case TNullable(inner) =>
        if v.VNotNull? {
          WrittenIsEncoding(inner, v.v, tag);
        } else {
          EncodeOne(Leaf(tag, Null));
        }
      case TAuthMode =>
        if v.u != 4 {
          Pow256Values();
          EncodeOne(Trees(ty, v, tag)[0]);
        }
      case _ => OneIsEncoded(ty, v, tag);
    }
  }

  lemma {:induction false} OneIsEncoded(ty: Ty, v: Val, tag: Tag)
    requires HasType(ty, v) && Fits(ty, v) && tag.Valid() && ValidForest(Trees(ty, v, tag))
    requires !ty.TOption? && !ty.TNullable? && !ty.TAuthMode?
    ensures Written(ty, v, tag) == EncodeForest(Trees(ty, v, tag))
    decreases ty, 1, 0
  {
    hide TokenBytes, Encode, HasType, Fits;
    if IsNode(ty) {
      hide Trees, Written, InnerWritten, Inside;
      NodeWritten(ty, v, tag);
      NodeTree(ty, v, tag);
      var t := Node(tag, NodeKind(ty), Inside(ty, v));
      EncodeOne(t);
      InsideIsEncoded(ty, v);
      EncodeNode(t);
    } else {
      var t := Trees(ty, v, tag)[0];
      assert Trees(ty, v, tag) == [t];
      EncodeOne(t);
      LeafIsEncoded(ty, v, tag);
    }
  }

  /** The children of the one node written for a container type. */
  function Inside(ty: Ty, v: Val): seq<Tree>
    requires HasType(ty, v) && IsNode(ty)
  {
    match ty
    case TStruct(_, fields) => FieldTrees(fields, v.vs)
    case TEnum(start, variants) => Trees(variants[v.i], v.v, Context(start + v.i))
    case TVec(elem) => ElementTrees(elem, v.vs)
    case TSlots(_, slot) => ElementTrees(slot, v.vs)
    case TDistNames => NameTrees(v.dn)
  }

  lemma NodeTree(ty: Ty, v: Val, tag: Tag)
    requires HasType(ty, v) && IsNode(ty)
    ensures Trees(ty, v, tag) == [Node(tag, NodeKind(ty), Inside(ty, v))]
  {
  }

  lemma EncodeNode(t: Tree)
    requires ValidTree(t) && t.Node?
    ensures Encode(t) == TokenBytes(t.tag, Container(t.kind, [])) + EncodeForest(t.children) + END
  {
  }

  lemma LeafIsEncoded(ty: Ty, v: Val, tag: Tag)
    requires HasType(ty, v) && Fits(ty, v) && tag.Valid()
    requires ty.TUint? || ty.TBool? || ty.TOctets? || ty.TPrivilege?
    requires ValidTree(Trees(ty, v, tag)[0])
    ensures Written(ty, v, tag) == Encode(Trees(ty, v, tag)[0])
  {
    hide TokenBytes, LongBytes;
    Pow256Values();
    match ty {
      case TUint(k) => WidthsOrdered(k);
      case TOctets => StringToken(tag, 16, v.s);
      case _ =>
    }
  }

  lemma {:induction false} InsideIsEncoded(ty: Ty, v: Val)
    requires HasType(ty, v) && Fits(ty, v) && IsNode(ty)
    ensures ValidForest(Inside(ty, v)) && InnerWritten(ty, v) == EncodeForest(Inside(ty, v))
    decreases ty, 0, 0
  {
    hide EncodeForest;
    match ty {
      case TStruct(_, fields) => WrittenFieldsAreEncoded(fields, v.vs);
      case TEnum(start, variants) =>
        Pow256Values();
        WrittenIsEncoding(variants[v.i], v.v, Context(start + v.i));
      case TVec(elem) => WrittenElementsAreEncoded(elem, v.vs);
      case TSlots(_, slot) => WrittenElementsAreEncoded(slot, v.vs);
      case TDistNames => WrittenNamesAreEncoded(v.dn);
    }
  }

  lemma {:induction false} WrittenFieldsAreEncoded(fields: Fields, vs: seq<Val>)
    requires HasFields(fields, vs) && FieldsFit(fields, vs)
    ensures ValidForest(FieldTrees(fields, vs)) && WrittenFields(fields, vs) == EncodeForest(FieldTrees(fields, vs))
    decreases fields, 0, 0
  {
    FieldTreesValid(fields, vs);
    match fields
    case NoFields =>
    case Field(tag, ty, rest) =>
      Pow256Values();
      WrittenIsEncoding(ty, vs[0], Context(tag));
      WrittenFieldsAreEncoded(rest, vs[1..]);
      EncodeForestConcat(Trees(ty, vs[0], Context(tag)), FieldTrees(rest, vs[1..]));
  }

  lemma {:induction false} WrittenElementsAreEncoded(ty: Ty, vs: seq<Val>)
    requires AllHaveType(ty, vs) && AllFit(ty, vs)
    ensures ValidForest(ElementTrees(ty, vs)) && WrittenElements(ty, vs) == EncodeForest(ElementTrees(ty, vs))
    decreases ty, 2, |vs|
  {
    ElementTreesValid(ty, vs);
    if vs != [] {
      WrittenIsEncoding(ty, vs[0], Anonymous);
      WrittenElementsAreEncoded(ty, vs[1..]);
      EncodeForestConcat(Trees(ty, vs[0], Anonymous), ElementTrees(ty, vs[1..]));
    }
  }

  lemma {:induction false} WrittenNamesAreEncoded(dn: seq<(nat, nat)>)
    requires ValidNames(dn)
    ensures ValidForest(NameTrees(dn)) && WrittenNames(dn) == EncodeForest(NameTrees(dn))
  {
    NameTreesValid(dn);
    if dn != [] {
      WrittenNamesAreEncoded(dn[1..]);
      assert NameTrees(dn)[1..] == NameTrees(dn[1..]);
    }
  }

  /** `to_tlv`: appends the bytes of the value, or stops at the first part that
      does not fit the buffer. */
  method ToTlv(tw: TLVWriter, ty: Ty, v: Val, tag: Tag) returns (r: Outcome)
    requires tw.wb.Valid() && HasType(ty, v) && tag.Valid()
    modifies tw.wb, tw.wb.buf
    ensures tw.wb.Valid() && tw.wb.start == old(tw.wb.start)
    ensures Appended(old(tw.wb.Contents()), tw.wb.Contents(), Written(ty, v, tag), old(tw.wb.Room()), r)
    decreases ty, 1, 1
  {
    hide Appended, TokenBytes;
    Pow256Values();
    match ty {
      case TUint(k) => r := PutUnsigned(tw, k, v.u, tag);
      case TBool => r := tw.NoVal(tag, Bool(v.b));
      case TOctets => r := tw.Str16(tag, v.s);
      case TOption(inner) =>
        if v.VNone? {
          NothingAppended(tw.wb.Contents(), tw.wb.Room());
          r := Pass;
        } else {
          r := ToTlv(tw, inner, v.v, tag);
        }
      case TNullable(inner) =>
        if v.VNull? {
          r := tw.NoVal(tag, Null);
        } else {
          r := ToTlv(tw, inner, v.v, tag);
        }
      case TPrivilege =>
        assert MinWidth(PrivilegeNumber(v.u)) == 0;
        r := tw.U8(tag, PrivilegeNumber(v.u));
      case TAuthMode =>
        if v.u == 4 {
          NothingAppended(tw.wb.Contents(), tw.wb.Room());
          r := Pass;
        } else {
          assert MinWidth(v.u) == 0;
          r := tw.U8(tag, v.u);
        }
      case _ => r := NodeToTlv(tw, ty, v, tag);
    }
  }

  method PutUnsigned(tw: TLVWriter, k: nat, u: nat, tag: Tag) returns (r: Outcome)
    requires tw.wb.Valid() && k < 4 && u < Pow256(Width(k)) && tag.Valid()
    modifies tw.wb, tw.wb.buf
    ensures tw.wb.Valid() && tw.wb.start == old(tw.wb.start)
    ensures Appended(old(tw.wb.Contents()), tw.wb.Contents(), UintBytes(tag, u), old(tw.wb.Room()), r)
  {
    Pow256Values();
    match k {
      case 0 => r := tw.U8(tag, u);
      case 1 => r := tw.U16(tag, u);
      case 2 => r := tw.U32(tag, u);
      case _ => r := tw.U64(tag, u);
    }
  }

  /** A container: its start, what is inside, its end marker. */
  method NodeToTlv(tw: TLVWriter, ty: Ty, v: Val, tag: Tag) returns (r: Outcome)
    requires tw.wb.Valid() && HasType(ty, v) && tag.Valid() && IsNode(ty)
    modifies tw.wb, tw.wb.buf
    ensures tw.wb.Valid() && tw.wb.start == old(tw.wb.start)
    ensures Appended(old(tw.wb.Contents()), tw.wb.Contents(), Written(ty, v, tag), old(tw.wb.Room()), r)
    decreases ty, 1, 0
  {
    hide Appended, TokenBytes, InnerWritten, HasType;
    var kind := NodeKind(ty);
    ghost var c0, room := tw.wb.Contents(), tw.wb.Room();
    ghost var open, inner := TokenBytes(tag, Container(kind, [])), InnerWritten(ty, v);
    NodeWritten(ty, v, tag);
    r := tw.StartContainer(tag, kind);
    if r.Fail? {
      CutTwice(c0, tw.wb.Contents(), open, inner, END, room, r);
      return;
    }
    ghost var c1 := tw.wb.Contents();
    RoomAfter(c0, c1, open, room);
    r := InnerToTlv(tw, ty, v);
    AppendedThen(c0, c1, tw.wb.Contents(), open, inner, room, r);
    if r.Fail? {
      AppendedCut(c0, tw.wb.Contents(), open + inner, END, room, r);
      return;
    }
    ghost var c2 := tw.wb.Contents();
    RoomAfter(c0, c2, open + inner, room);
    r := tw.EndContainer();
    AppendedThen(c0, c2, tw.wb.Contents(), open + inner, END, room, r);
  }

  predicate IsNode(ty: Ty) {
    ty.TStruct? || ty.TEnum? || ty.TVec? || ty.TSlots? || ty.TDistNames?
  }

  function NodeKind(ty: Ty): Kind {
    match ty
    case TStruct(kind, _) => kind
    case TEnum(_, _) => Struct
    case TDistNames => List
    case _ => Array
  }

  function InnerWritten(ty: Ty, v: Val): seq<byte>
    requires HasType(ty, v) && IsNode(ty)
  {
    match ty
    case TStruct(_, fields) => WrittenFields(fields, v.vs)
    case TEnum(start, variants) => Written(variants[v.i], v.v, Context(start + v.i))
    case TVec(elem) => WrittenElements(elem, v.vs)
    case TSlots(_, slot) => WrittenElements(slot, v.vs)
    case TDistNames => WrittenNames(v.dn)
  }

  lemma NodeWritten(ty: Ty, v: Val, tag: Tag)
    requires HasType(ty, v) && IsNode(ty)
    ensures Written(ty, v, tag) == TokenBytes(tag, Container(NodeKind(ty), [])) + InnerWritten(ty, v) + END
  {
  }

  method InnerToTlv(tw: TLVWriter, ty: Ty, v: Val) returns (r: Outcome)
    requires tw.wb.Valid() && HasType(ty, v) && IsNode(ty)
    modifies tw.wb, tw.wb.buf
    ensures tw.wb.Valid() && tw.wb.start == old(tw.wb.start)
    ensures Appended(old(tw.wb.Contents()), tw.wb.Contents(), InnerWritten(ty, v), old(tw.wb.Room()), r)
    decreases ty, 0, 0
  {
    hide Appended;
    Pow256Values();
    match ty {
      case TStruct(_, fields) => r := FieldsToTlv(tw, fields, v.vs);
      case TEnum(start, variants) => r := ToTlv(tw, variants[v.i], v.v, Context(start + v.i));
      case TVec(elem) => r := ElementsToTlv(tw, elem, v.vs);
      case TSlots(_, slot) => r := ElementsToTlv(tw, slot, v.vs);
      case TDistNames => r := NamesToTlv(tw, v.dn);
    }
  }

  lemma CutTwice(a: seq<byte>, b: seq<byte>, x: seq<byte>, y: seq<byte>, z: seq<byte>, room: nat, r: Outcome)
    requires r.Fail? && Appended(a, b, x, room, r)
    ensures Appended(a, b, x + y + z, room, r)
  {
    AppendedCut(a, b, x, y, room, r);
    AppendedCut(a, b, x + y, z, room, r);
  }

  method FieldsToTlv(tw: TLVWriter, fields: Fields, vs: seq<Val>) returns (r: Outcome)
    requires tw.wb.Valid() && HasFields(fields, vs)
    modifies tw.wb, tw.wb.buf
    ensures tw.wb.Valid() && tw.wb.start == old(tw.wb.start)
    ensures Appended(old(tw.wb.Contents()), tw.wb.Contents(), WrittenFields(fields, vs), old(tw.wb.Room()), r)
    decreases fields, 0, 0
  {
    hide Appended, Written;
    Pow256Values();
    ghost var c0, room := tw.wb.Contents(), tw.wb.Room();
    match fields
    case NoFields =>
      NothingAppended(c0, room);
      r := Pass;
    case Field(tag, ty, rest) =>
      ghost var here, there := Written(ty, vs[0], Context(tag)), WrittenFields(rest, vs[1..]);
      r := ToTlv(tw, ty, vs[0], Context(tag));
      if r.Fail? {
        AppendedCut(c0, tw.wb.Contents(), here, there, room, r);
        return;
      }
      ghost var c1 := tw.wb.Contents();
      RoomAfter(c0, c1, here, room);
      r := FieldsToTlv(tw, rest, vs[1..]);
      AppendedThen(c0, c1, tw.wb.Contents(), here, there, room, r);
  }

  method ElementsToTlv(tw: TLVWriter, ty: Ty, vs: seq<Val>) returns (r: Outcome)
    requires tw.wb.Valid() && AllHaveType(ty, vs)
    modifies tw.wb, tw.wb.buf
    ensures tw.wb.Valid() && tw.wb.start == old(tw.wb.start)
    ensures Appended(old(tw.wb.Contents()), tw.wb.Contents(), WrittenElements(ty, vs), old(tw.wb.Room()), r)
    decreases ty, 2, |vs|
  {
    hide Appended, Written;
    ghost var c0, room := tw.wb.Contents(), tw.wb.Room();
    if vs == [] {
      NothingAppended(c0, room);
      return Pass;
    }
    ghost var here, there := Written(ty, vs[0], Anonymous), WrittenElements(ty, vs[1..]);
    r := ToTlv(tw, ty, vs[0], Anonymous);
    if r.Fail? {
      AppendedCut(c0, tw.wb.Contents(), here, there, room, r);
      return;
    }
    ghost var c1 := tw.wb.Contents();
    RoomAfter(c0, c1, here, room);
    r := ElementsToTlv(tw, ty, vs[1..]);
    AppendedThen(c0, c1, tw.wb.Contents(), here, there, room, r);
  }

  method NamesToTlv(tw: TLVWriter, dn: seq<(nat, nat)>) returns (r: Outcome)
    requires tw.wb.Valid() && ValidNames(dn)
    modifies tw.wb, tw.wb.buf
    ensures tw.wb.Valid() && tw.wb.start == old(tw.wb.start)
    ensures Appended(old(tw.wb.Contents()), tw.wb.Contents(), WrittenNames(dn), old(tw.wb.Room()), r)
    decreases |dn|
  {
    hide Appended, TokenBytes;
    Pow256Values();
    ghost var c0, room := tw.wb.Contents(), tw.wb.Room();
    if dn == [] {
      NothingAppended(c0, room);
      return Pass;
    }
    ghost var here, there := UintBytes(Context(dn[0].0), dn[0].1), WrittenNames(dn[1..]);
    r := tw.U64(Context(dn[0].0), dn[0].1);
    if r.Fail? {
      AppendedCut(c0, tw.wb.Contents(), here, there, room, r);
      return;
    }
    ghost var c1 := tw.wb.Contents();
    RoomAfter(c0, c1, here, room);
    r := NamesToTlv(tw, dn[1..]);
    AppendedThen(c0, c1, tw.wb.Contents(), here, there, room, r);
  }

  // ---------------------------------------------------------------- decoding

  /** What a decoder still has to see: its look-ahead element and the iterator's rest. */
  ghost function Ahead(item: Option<Element>, iter: TLVContainerIterator): seq<Element>
    requires iter.Valid()
    reads iter, iter.listIter
  {
    if item.None? then [] else [item.value] + Children(iter.State())
  }

  /** Puts what was decoded first in front of what is decoded later. */
  function Prepend(vs: seq<Val>, r: Result<seq<Val>, Error>): Result<seq<Val>, Error> {
    if r.Ok? then Ok(vs + r.value) else r
  }

  lemma PrependNothing(r: Result<seq<Val>, Error>)
    ensures Prepend([], r) == r
  {
    assert r.Ok? ==> [] + r.value == r.value;
  }

  /** One value was decoded: it moves from what is later to what is done. */
  lemma PrependOne(vs: seq<Val>, v: Val, later: Result<seq<Val>, Error>)
    ensures Prepend(vs, Prepend([v], later)) == Prepend(vs + [v], later)
  {
    assert later.Ok? ==> vs + ([v] + later.value) == vs + [v] + later.value;
  }

  lemma FieldsStep(fields: Fields, es: seq<Element>)
    requires fields.Field?
    ensures var here := es != [] && es[0].tag == Context(fields.tag);
            var v := if here then Decode(fields.ty, es[0]) else NotFoundValue(fields.ty);
            DecodeFields(fields, es)
            == if v.Err? then Err(v.error) else Prepend([v.value], DecodeFields(fields.rest, if here then es[1..] else es))
  {
  }

  lemma ByTagStep(fields: Fields, es: seq<Element>)
    requires fields.Field? && fields.tag < 256
    ensures var found := FirstTagged(es, fields.tag);
            var v := if found.Some? then Decode(fields.ty, found.value) else NotFoundValue(fields.ty);
            DecodeByTag(fields, es) == if v.Err? then Err(v.error) else Prepend([v.value], DecodeByTag(fields.rest, es))
  {
  }

  lemma EachStep(ty: Ty, es: seq<Element>)
    requires es != []
    ensures var v := Decode(ty, es[0]);
            DecodeEach(ty, es) == if v.Err? then Err(v.error) else Prepend([v.value], DecodeEach(ty, es[1..]))
  {
  }

  lemma FoundOrNot(e: Element, tag: byte)
    ensures var found := FirstTagged(if e.val.Container? then Children(Enter(e.val.body)) else [], tag);
            found == match FindTag(e, tag) case Ok(a) => Some(a) case Err(_) => None
  {
    hide Children;
  }

  lemma PrependError(vs: seq<Val>, error: Error)
    ensures Prepend(vs, Err(error)) == Err(error)
  {
  }

  lemma PrependToNothing(vs: seq<Val>)
    ensures Prepend(vs, Ok([])) == Ok(vs)
  {
    assert vs + [] == vs;
  }

  method FromTlv(ty: Ty, e: Element) returns (r: Result<Val, Error>)
    ensures r == Decode(ty, e)
    decreases ty, 1, 0
  {
    match ty {
      case TStruct(kind, fields) =>
        if !IsKind(e, kind) {
          return Err(TLVTypeMismatch);
        }
        var vs := FieldsFromTlv(fields, e);
        r := if vs.Ok? then Ok(VSeq(vs.value)) else Err(vs.error);
      case TEnum(start, variants) =>
        r := EnumFromTlv(start, variants, e);
      case TVec(elem) =>
        if !IsKind(e, Array) {
          return Err(TLVTypeMismatch);
        }
        var vs := VecFromTlv(elem, e);
        r := if vs.Ok? then Ok(VSeq(vs.value)) else Err(vs.error);
      case TSlots(n, slot) =>
        if !IsKind(e, Array) {
          return Err(TLVTypeMismatch);
        }
        var vs := SlotsFromTlv(n, slot, e);
        r := if vs.Ok? then Ok(VSeq(vs.value)) else Err(vs.error);
      case TOption(inner) =>
        var v := FromTlv(inner, e);
        r := if v.Ok? then Ok(VSome(v.value)) else v;
      case TNullable(inner) =>
        if e.val.Null? {
          return Ok(VNull);
        }
        var v := FromTlv(inner, e);
        r := if v.Ok? then Ok(VNotNull(v.value)) else v;
      case TDistNames =>
        if !IsKind(e, List) {
          return Err(TLVTypeMismatch);
        }
        var dn := NamesFromTlv(e);
        r := if dn.Ok? then Ok(VNames(dn.value)) else Err(dn.error);
      case _ => r := Decode(ty, e);
    }
  }

  /** The one-pass decoder: `item` is the one element of look-ahead. */
  method FieldsFromTlv(fields: Fields, e: Element) returns (r: Result<seq<Val>, Error>)
    requires e.val.Container?
    ensures r == DecodeFields(fields, Children(Enter(e.val.body)))
    decreases fields, 0, 0
  {
    hide Decode, NextChild, Prepend;
    ghost var all := Children(Enter(e.val.body));
    var iter := new TLVContainerIterator.EnterSlice(e.val.body);
    var item := iter.Next();
    var todo, vs := fields, [];
    PrependNothing(DecodeFields(fields, all));
    while todo.Field?
      invariant iter.Valid() && fresh(iter) && fresh(iter.listIter)
      invariant todo == fields || todo < fields
      invariant DecodeFields(fields, all) == Prepend(vs, DecodeFields(todo, Ahead(item, iter)))
      decreases todo
    {
      var Field(tag, ty, rest) := todo;
      var v;
      ghost var before := Ahead(item, iter);
      FieldsStep(todo, before);
      if item.Some? && item.value.tag == Context(tag) {
        var backup := item.value;
        item := iter.Next();
        assert before[1..] == Ahead(item, iter);
        v := FromTlv(ty, backup);
      } else {
        v := NotFoundValue(ty);
      }
      if v.Err? {
        PrependError(vs, v.error);
        return Err(v.error);
      }
      PrependOne(vs, v.value, DecodeFields(rest, Ahead(item, iter)));
      todo, vs := rest, vs + [v.value];
    }
    PrependToNothing(vs);
    return Ok(vs);
  }

  /** The decoder of unordered structures: one lookup for every field. */
  method FieldsByTag(fields: Fields, e: Element) returns (r: Result<seq<Val>, Error>)
    requires DistinctTags(fields)
    ensures r == DecodeByTag(fields, if e.val.Container? then Children(Enter(e.val.body)) else [])
  {
    hide Decode, Prepend, DecodeByTag, FindTag, Children, FirstTagged;
    ghost var all := if e.val.Container? then Children(Enter(e.val.body)) else [];
    var todo, vs := fields, [];
    PrependNothing(DecodeByTag(fields, all));
    while todo.Field?
      invariant DistinctTags(todo) && (todo == fields || todo < fields)
      invariant DecodeByTag(fields, all) == Prepend(vs, DecodeByTag(todo, all))
      decreases todo
    {
      var Field(tag, ty, rest) := todo;
      var found := FindTagInElement(e, tag);
      var v;
      FoundOrNot(e, tag);
      ByTagStep(todo, all);
      if found.Ok? {
        v := FromTlv(ty, found.value);
      } else {
        v := NotFoundValue(ty);
      }
      if v.Err? {
        PrependError(vs, v.error);
        return Err(v.error);
      }
      PrependOne(vs, v.value, DecodeByTag(rest, all));
      todo, vs := rest, vs + [v.value];
    }
    assert DecodeByTag(NoFields, all) == Ok([]) by {
      NoFieldsByTag(all);
    }
    PrependToNothing(vs);
    return Ok(vs);
  }

  lemma NoFieldsByTag(es: seq<Element>)
    ensures DecodeByTag(NoFields, es) == Ok([])
  {
  }

  method EnumFromTlv(start: nat, variants: seq<Ty>, e: Element) returns (r: Result<Val, Error>)
    ensures r == Decode(TEnum(start, variants), e)
    decreases variants, 0, 0
  {
    hide NextChild;
    if !IsKind(e, Struct) {
      return Err(TLVTypeMismatch);
    }
    var iter := new TLVContainerIterator.EnterSlice(e.val.body);
    var item := iter.Next();
    if item.None? {
      return Err(Invalid);
    }
    if !item.value.tag.Context? {
      return Err(TLVTypeMismatch);
    }
    var i := item.value.tag.v - start;
    if !(0 <= i < |variants|) {
      return Err(Invalid);
    }
    var v := FromTlv(variants[i], item.value);
    r := if v.Ok? then Ok(VVariant(i, v.value)) else v;
  }

  method VecFromTlv(elem: Ty, e: Element) returns (r: Result<seq<Val>, Error>)
    requires e.val.Container?
    ensures r == DecodeEach(elem, Children(Enter(e.val.body)))
    decreases elem, 2, 0
  {
    hide Decode, NextChild, Prepend;
    ghost var all := Children(Enter(e.val.body));
    var iter := new TLVContainerIterator.EnterSlice(e.val.body);
    var element := iter.Next();
    var vs := [];
    PrependNothing(DecodeEach(elem, all));
    while element.Some?
      invariant iter.Valid() && fresh(iter) && fresh(iter.listIter)
      invariant DecodeEach(elem, all) == Prepend(vs, DecodeEach(elem, Ahead(element, iter)))
      decreases |Ahead(element, iter)|
    {
      ghost var before := Ahead(element, iter);
      EachStep(elem, before);
      var v := FromTlv(elem, element.value);
      if v.Err? {
        PrependError(vs, v.error);
        return Err(v.error);
      }
      element := iter.Next();
      assert before[1..] == Ahead(element, iter);
      PrependOne(vs, v.value, DecodeEach(elem, Ahead(element, iter)));
      vs := vs + [v.value];
    }
    PrependToNothing(vs);
    return Ok(vs);
  }

  /** Fills the slots from the front and stops when they are full. */
  method SlotsFromTlv(n: nat, slot: Ty, e: Element) returns (r: Result<seq<Val>, Error>)
    requires e.val.Container?
    ensures r == match DecodeEach(slot, Cut(Children(Enter(e.val.body)), n))
                 case Ok(vs) => Ok(Padded(vs, n))
                 case Err(err) => Err(err)
    decreases slot, 2, 0
  {
    hide Decode, NextChild, Prepend, DecodeEach, Cut;
    ghost var all := Children(Enter(e.val.body));
    var iter := new TLVContainerIterator.EnterSlice(e.val.body);
    var element := iter.Next();
    var vs := [];
    PrependNothing(DecodeEach(slot, Cut(all, n)));
    while element.Some? && |vs| < n
      invariant iter.Valid() && fresh(iter) && fresh(iter.listIter) && |vs| <= n
      invariant DecodeEach(slot, Cut(all, n)) == Prepend(vs, DecodeEach(slot, Cut(Ahead(element, iter), n - |vs|)))
      decreases n - |vs|
    {
      ghost var before := Ahead(element, iter);
      CutStep(before, n - |vs|);
      EachStep(slot, Cut(before, n - |vs|));
      var v := FromTlv(slot, element.value);
      if v.Err? {
        PrependError(vs, v.error);
        return Err(v.error);
      }
      element := iter.Next();
      assert before[1..] == Ahead(element, iter);
      PrependOne(vs, v.value, DecodeEach(slot, Cut(Ahead(element, iter), n - 1 - |vs|)));
      vs := vs + [v.value];
    }
    CutToNothing(Ahead(element, iter), n - |vs|);
    NothingLeft(slot);
    PrependToNothing(vs);
    return Ok(Padded(vs, n));
  }

  lemma CutStep<T>(s: seq<T>, n: nat)
    requires s != [] && n > 0
    ensures Cut(s, n) != [] && Cut(s, n)[0] == s[0] && Cut(s, n)[1..] == Cut(s[1..], n - 1)
  {
  }

  lemma CutToNothing<T>(s: seq<T>, n: nat)
    requires s == [] || n == 0
    ensures Cut(s, n) == []
  {
  }

  lemma NothingLeft(ty: Ty)
    ensures DecodeEach(ty, []) == Ok([])
  {
  }

  method NamesFromTlv(e: Element) returns (r: Result<seq<(nat, nat)>, Error>)
    requires e.val.Container?
    ensures r == DecodeNames(Children(Enter(e.val.body)))
  {
    hide NextChild;
    ghost var all := Children(Enter(e.val.body));
    var iter := new TLVContainerIterator.EnterSlice(e.val.body);
    var t := iter.Next();
    var dn := [];
    assert DecodeNames(all).Ok? ==> dn + DecodeNames(all).value == DecodeNames(all).value;
    while t.Some?
      invariant iter.Valid() && fresh(iter) && fresh(iter.listIter)
      invariant var later := DecodeNames(Ahead(t, iter));
                DecodeNames(all) == if later.Ok? then Ok(dn + later.value) else later
      decreases |Ahead(t, iter)|
    {
      ghost var before := Ahead(t, iter);
      var element := t.value;
      t := iter.Next();
      assert before[1..] == Ahead(t, iter);
      if element.tag.Context? {
        var value := GetUnsigned(element, 3);
        if value.Err? {
          return Err(value.error);
        }
        ghost var later := DecodeNames(Ahead(t, iter));
        assert later.Ok? ==> dn + ([(element.tag.v, value.value)] + later.value) == dn + [(element.tag.v, value.value)] + later.value;
        dn := dn + [(element.tag.v, value.value)];
      }
    }
    assert dn + [] == dn;
    return Ok(dn);
  }
}

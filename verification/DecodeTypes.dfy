/**
 Type soundness of the decoders: whatever bytes arrive, what a decoder returns is a
 value of its type.
 */
module DecodeTypes {
  import opened Bytes
  import opened Tlv
  import opened TlvParser
  import opened Schema
  import opened Derive

  predicate ValidElement(e: Element) {
    e.tag.Valid() && e.val.Valid()
  }

  predicate AllValid(es: seq<Element>) {
    forall i :: 0 <= i < |es| ==> ValidElement(es[i])
  }

  lemma {:induction false} SkipValid(s: seq<byte>, nest: nat)
    ensures Skip(s, nest).elem.Some? ==> ValidElement(Skip(s, nest).elem.value)
    decreases |s|
  {
    hide ReadElement;
    var r := ReadElement(s);
    var left := s[r.used..];
    if r.elem.Some? {
      if r.elem.value.val.EndCnt? {
        if nest == 0 {
          if ReadElement(left).elem.Some? {
            TokenOfRead(left);
          }
        } else {
          ReadUses(s);
          SkipValid(left, nest - 1);
        }
      } else {
        ReadUses(s);
        SkipValid(left, if r.elem.value.val.Container? then nest + 1 else nest);
      }
    }
  }

  lemma ReadUses(s: seq<byte>)
    ensures ReadElement(s).elem.Some? ==> 1 <= ReadElement(s).used <= |s|
  {
  }

  /** Every child a container iterator yields is a well-formed element. */
  lemma {:induction false} ChildrenValid(c: Cursor)
    ensures AllValid(Children(c))
    decreases |c.left|
  {
    hide ReadElement, Skip;
    var n := NextChild(c);
    if n.0.Some? {
      ChildrenValid(n.1);
      if c.prevContainer {
        SkipValid(c.left, 0);
      } else {
        TokenOfRead(c.left);
      }
    }
  }

  /** The schema is one a derive can be written for. */
  predicate Sensible(ty: Ty)
    decreases ty, 1
  {
    match ty
    case TUint(k) => k < 4
    case TStruct(_, fields) => SensibleFields(fields)
    case TEnum(start, variants) => start + |variants| <= 256 && forall i :: 0 <= i < |variants| ==> Sensible(variants[i])
    case TVec(elem) => Sensible(elem)
    case TSlots(_, slot) => slot.TOption? && Sensible(slot)
    case TOption(inner) => Sensible(inner)
    case TNullable(inner) => Sensible(inner)
    case _ => true
  }

  predicate SensibleFields(fields: Fields)
    decreases fields, 0
  {
    match fields
    case NoFields => true
    case Field(tag, ty, rest) => tag < 256 && Sensible(ty) && SensibleFields(rest)
  }

  lemma UnsignedInRange(e: Element, k: nat)
    requires ValidElement(e) && k < 4 && GetUnsigned(e, k).Ok?
    ensures 0 <= GetUnsigned(e, k).value < Pow256(Width(k))
  {
    Pow256Values();
  }

  lemma {:induction false} DecodeTyped(ty: Ty, e: Element)
    requires Sensible(ty) && ValidElement(e) && Decode(ty, e).Ok?
    ensures HasType(ty, Decode(ty, e).value)
    decreases ty, 1, 0
  {
    hide Children, ReadElement, GetSlice, GetBool;
    match ty {
      case TUint(k) => UnsignedInRange(e, k);
      case TStruct(_, fields) =>
        ChildrenValid(Enter(e.val.body));
        FieldsTyped(fields, Children(Enter(e.val.body)));
      case TEnum(start, variants) =>
        ChildrenValid(Enter(e.val.body));
        var es := Children(Enter(e.val.body));
        DecodeTyped(variants[es[0].tag.v - start], es[0]);
      case TVec(elem) =>
        ChildrenValid(Enter(e.val.body));
        EachTyped(elem, Children(Enter(e.val.body)));
      case TSlots(n, slot) =>
        ChildrenValid(Enter(e.val.body));
        var es := Cut(Children(Enter(e.val.body)), n);
        EachTyped(slot, es);
        PaddedTyped(slot, DecodeEach(slot, es).value, n);
      case TOption(inner) => DecodeTyped(inner, e);
      case TNullable(inner) =>
        if !e.val.Null? {
          DecodeTyped(inner, e);
        }
      case TDistNames =>
        ChildrenValid(Enter(e.val.body));
        NamesTyped(Children(Enter(e.val.body)));
      case _ =>
    }
  }

  lemma {:induction false} FieldsTyped(fields: Fields, es: seq<Element>)
    requires SensibleFields(fields) && AllValid(es) && DecodeFields(fields, es).Ok?
    ensures HasFields(fields, DecodeFields(fields, es).value)
    decreases fields, 0, 0
  {
    hide Decode;
    match fields
    case NoFields =>
    case Field(tag, ty, rest) =>
      var here := es != [] && es[0].tag == Context(tag);
      if here {
        DecodeTyped(ty, es[0]);
      }
      var es' := if here then es[1..] else es;
      FieldsTyped(rest, es');
      var vs := DecodeFields(rest, es').value;
      assert DecodeFields(fields, es).value[1..] == vs;
  }

  lemma {:induction false} EachTyped(ty: Ty, es: seq<Element>)
    requires Sensible(ty) && AllValid(es) && DecodeEach(ty, es).Ok?
    ensures AllHaveType(ty, DecodeEach(ty, es).value)
    decreases ty, 2, |es|
  {
    hide Decode;
    if es != [] {
      DecodeTyped(ty, es[0]);
      EachTyped(ty, es[1..]);
      assert DecodeEach(ty, es).value[1..] == DecodeEach(ty, es[1..]).value;
    }
  }

  lemma {:induction false} PaddedTyped(slot: Ty, vs: seq<Val>, n: nat)
    requires slot.TOption? && AllHaveType(slot, vs) && |vs| <= n
    ensures AllHaveType(slot, Padded(vs, n)) && |Padded(vs, n)| == n
    decreases n, |vs|
  {
    var p := Padded(vs, n);
    if vs != [] {
      PaddedTyped(slot, vs[1..], n - 1);
      assert p[1..] == Padded(vs[1..], n - 1);
    } else if n > 0 {
      PaddedTyped(slot, vs, n - 1);
      assert p[1..] == Padded(vs, n - 1);
    }
  }

  lemma {:induction false} NamesTyped(es: seq<Element>)
    requires AllValid(es) && DecodeNames(es).Ok?
    ensures ValidNames(DecodeNames(es).value)
  {
    if es != [] {
      NamesTyped(es[1..]);
      if es[0].tag.Context? {
        UnsignedInRange(es[0], 3);
        assert es[0].tag.v < 256 by {
          Pow256Values();
        }
      }
    }
  }

  /** From bytes: the first element of any bytes, decoded at all, is decoded to a
      value of the type. */
  lemma BytesDecodeTyped(ty: Ty, s: seq<byte>)
    requires Sensible(ty) && ReadElement(s).elem.Some? && Decode(ty, ReadElement(s).elem.value).Ok?
    ensures HasType(ty, Decode(ty, ReadElement(s).elem.value).value)
  {
    TokenOfRead(s);
    DecodeTyped(ty, ReadElement(s).elem.value);
  }
}

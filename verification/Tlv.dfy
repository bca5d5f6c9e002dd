/**
 The TLV wire format of Appendix A of the Matter Core Specification: tags,
 element types, the bytes of one token, and trees of elements.
 */
module Tlv {
  import opened Bytes

  datatype Tag =
    | Anonymous
    | Context(v: nat)
    | CommonPrf16(v: nat)
    | CommonPrf32(v: nat)
    | ImplPrf16(v: nat)
    | ImplPrf32(v: nat)
    | FullQual48(v: nat)
    | FullQual64(v: nat)
  {
    /** The tag-control number that goes into the top three bits of a control byte. */
    function Code(): (c: nat)
      ensures c < 8
    {
      match this
      case Anonymous => 0
      case Context(_) => 1
      case CommonPrf16(_) => 2
      case CommonPrf32(_) => 3
      case ImplPrf16(_) => 4
      case ImplPrf32(_) => 5
      case FullQual48(_) => 6
      case FullQual64(_) => 7
    }

    function Number(): nat {
      if Anonymous? then 0 else v
    }

    /** The number fits the field the tag is written in (a 48-bit tag is held in 64 bits). */
    predicate Valid() {
      Number() < Pow256(TagSize(Code()))
    }
  }

  function TagSize(code: nat): nat
    requires code < 8
  {
    match code
    case 0 => 0
    case 1 => 1
    case 2 => 2
    case 3 => 4
    case 4 => 2
    case 5 => 4
    case 6 => 6
    case _ => 8
  }

  function MakeTag(code: nat, v: nat): Tag
    requires code < 8
  {
    match code
    case 0 => Anonymous
    case 1 => Context(v)
    case 2 => CommonPrf16(v)
    case 3 => CommonPrf32(v)
    case 4 => ImplPrf16(v)
    case 5 => ImplPrf32(v)
    case 6 => FullQual48(v)
    case _ => FullQual64(v)
  }

  datatype Kind = Struct | Array | List

  /** The element types a reader can return. `k` is the base-2 logarithm of an
      integer's width, `n` the width of a string's length field, and `body` the
      slice a container element points at: everything after its own tag. */
  datatype ElementType =
    | SInt(k: nat, s: int)
    | UInt(k: nat, u: nat)
    | Bool(b: bool)
    | Utf(n: nat, str: seq<byte>)
    | Str(n: nat, str: seq<byte>)
    | Null
    | Container(kind: Kind, body: seq<byte>)
    | EndCnt
  {
    predicate Valid() {
      match this
      case SInt(k, s) => k < 4 && 0 <= 2 * s + Pow256(Width(k)) && 2 * s < Pow256(Width(k))
      case UInt(k, u) => k < 4 && u < Pow256(Width(k))
      case Utf(n, str) => 1 <= n <= 2 && |str| < Pow256(n)
      case Str(n, str) => 1 <= n <= 2 && |str| < Pow256(n)
      case _ => true
    }

    /** The element-type number of the low five bits of a control byte. */
    function Code(): (c: nat)
      requires Valid()
      ensures c < 25
    {
      match this
      case SInt(k, _) => k
      case UInt(k, _) => 4 + k
      case Bool(b) => if b then 9 else 8
      case Utf(n, _) => 11 + n
      case Str(n, _) => 15 + n
      case Null => 20
      case Container(Struct, _) => 21
      case Container(Array, _) => 22
      case Container(List, _) => 23
      case EndCnt => 24
    }

    /** The bytes that follow the tag of this element itself (a container's
        children and end marker are elements of their own). */
    function Payload(): seq<byte>
      requires Valid()
    {
      match this
      case SInt(k, s) => Le(if s < 0 then s + Pow256(Width(k)) else s, Width(k))
      case UInt(k, u) => Le(u, Width(k))
      case Utf(n, str) => Le(|str|, n) + str
      case Str(n, str) => Le(|str|, n) + str
      case _ => []
    }
  }

  function Width(k: nat): (w: nat)
    requires k < 4
    ensures w == 1 || w == 2 || w == 4 || w == 8
  {
    if k == 0 then 1 else if k == 1 then 2 else if k == 2 then 4 else 8
  }

  datatype Element = Element(tag: Tag, val: ElementType)

  /** The control byte and the tag. */
  function Header(tag: Tag, code: nat): (s: seq<byte>)
    requires code < 32
    ensures |s| == 1 + TagSize(tag.Code())
  {
    [tag.Code() * 32 + code] + Le(tag.Number(), TagSize(tag.Code()))
  }

  function TokenBytes(tag: Tag, val: ElementType): (s: seq<byte>)
    requires val.Valid()
    ensures |s| >= 1
  {
    Header(tag, val.Code()) + val.Payload()
  }

  const END: seq<byte> := [24]

  lemma EndToken()
    ensures TokenBytes(Anonymous, EndCnt) == END
  {
    assert Le(0, 0) == [];
  }

  // ---------------------------------------------------------------- trees

  datatype Tree =
    | Leaf(tag: Tag, val: ElementType)
    | Node(tag: Tag, kind: Kind, children: seq<Tree>)

  predicate ValidTree(t: Tree)
    decreases t, 1
  {
    t.tag.Valid() &&
    match t
    case Leaf(_, val) => val.Valid() && !val.Container? && !val.EndCnt?
    case Node(_, _, children) => ValidForest(children)
  }

  predicate ValidForest(ts: seq<Tree>)
    decreases ts, 0
  {
    ts == [] || (ValidTree(ts[0]) && ValidForest(ts[1..]))
  }

  /** The bytes of a tree: the flat wire form of its meaning. */
  function Encode(t: Tree): (s: seq<byte>)
    requires ValidTree(t)
    ensures |s| >= 1
    decreases t, 1
  {
    match t
    case Leaf(tag, val) => TokenBytes(tag, val)
    case Node(tag, kind, children) =>
      TokenBytes(tag, Container(kind, [])) + EncodeForest(children) + END
  }

  function EncodeForest(ts: seq<Tree>): seq<byte>
    requires ValidForest(ts)
    decreases ts, 0
  {
    if ts == [] then [] else Encode(ts[0]) + EncodeForest(ts[1..])
  }

  lemma {:induction false} ValidForestConcat(a: seq<Tree>, b: seq<Tree>)
    ensures ValidForest(a + b) <==> ValidForest(a) && ValidForest(b)
    decreases |a|
  {
    if a == [] {
      assert a + b == b;
    } else {
      assert (a + b)[1..] == a[1..] + b;
      ValidForestConcat(a[1..], b);
    }
  }

  lemma {:induction false} EncodeForestConcat(a: seq<Tree>, b: seq<Tree>)
    requires ValidForest(a) && ValidForest(b)
    ensures ValidForest(a + b)
    ensures EncodeForest(a + b) == EncodeForest(a) + EncodeForest(b)
    decreases |a|
  {
    ValidForestConcat(a, b);
    if a == [] {
      assert a + b == b;
    } else {
      assert (a + b)[1..] == a[1..] + b;
      EncodeForestConcat(a[1..], b);
    }
  }

  lemma {:induction false} ValidForestAt(ts: seq<Tree>, i: nat)
    requires ValidForest(ts) && i < |ts|
    ensures ValidTree(ts[i])
  {
    if i > 0 {
      ValidForestAt(ts[1..], i - 1);
    }
  }

  lemma EncodeOne(t: Tree)
    requires ValidTree(t)
    ensures ValidForest([t]) && EncodeForest([t]) == Encode(t)
  {
    assert [t][1..] == [];
    assert Encode(t) + [] == Encode(t);
  }
}

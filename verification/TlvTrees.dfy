/**
 Whole trees through the writer and back: the calls that write a tree, and the walk
 that rebuilds it.
 */
module TlvTrees {
  import opened Bytes
  import opened Tlv
  import opened TlvParser
  import opened TlvWriter
  import opened WriteBufs

  /** The tree is one the writer's methods produce: integers in their narrowest width
      and strings with their shortest length field. */
  predicate Plain(t: Tree)
    decreases t, 1
  {
    match t
    case Leaf(_, val) => PlainValue(val)
    case Node(_, _, children) => AllPlain(children)
  }

  predicate AllPlain(ts: seq<Tree>)
    decreases ts, 0
  {
    ts == [] || (Plain(ts[0]) && AllPlain(ts[1..]))
  }

  predicate PlainValue(val: ElementType) {
    match val
    case SInt(k, _) => k == 0
    case UInt(k, u) => u < Pow256(8) && k == MinWidth(u)
    case Utf(_, s) => |s| <= 0xffff && val == StringElement(12, s)
    case Str(_, s) => |s| <= 0xffff && val == StringElement(16, s)
    case _ => true
  }

  method WriteLeaf(tw: TLVWriter, tag: Tag, val: ElementType) returns (r: Outcome)
    requires tw.wb.Valid() && ValidTree(Leaf(tag, val)) && PlainValue(val)
    modifies tw.wb, tw.wb.buf
    ensures tw.wb.Valid() && tw.wb.start == old(tw.wb.start)
    ensures Appended(old(tw.wb.Contents()), tw.wb.Contents(), TokenBytes(tag, val), old(tw.wb.Room()), r)
  {
    hide Appended, TokenBytes, Header, Pow256;
    match val
    case SInt(_, s) => r := tw.I8(tag, s);
    case UInt(_, u) => r := tw.U64(tag, u);
    case Utf(_, s) =>
      StringToken(tag, 12, s);
      r := tw.Utf16(tag, s);
    case Str(_, s) =>
      StringToken(tag, 16, s);
      r := tw.Str16(tag, s);
    case Bool(_) => r := tw.NoVal(tag, val);
    case Null => r := tw.NoVal(tag, val);
  }

  /** The calls for a tree append its encoding, or stop inside it with `NoSpace`. */
  method WriteTree(tw: TLVWriter, t: Tree) returns (r: Outcome)
    requires tw.wb.Valid() && ValidTree(t) && Plain(t)
    modifies tw.wb, tw.wb.buf
    ensures tw.wb.Valid() && tw.wb.start == old(tw.wb.start)
    ensures Appended(old(tw.wb.Contents()), tw.wb.Contents(), Encode(t), old(tw.wb.Room()), r)
    decreases t, 1
  {
    hide Appended, TokenBytes;
    match t
    case Leaf(tag, val) => r := WriteLeaf(tw, tag, val);
    case Node(tag, kind, children) =>
      ghost var c0, room := tw.wb.Contents(), tw.wb.Room();
      ghost var open, inner := TokenBytes(tag, Container(kind, [])), EncodeForest(children);
      r := tw.StartContainer(tag, kind);
      if r.Fail? {
        AppendedCut(c0, tw.wb.Contents(), open, inner, room, r);
        AppendedCut(c0, tw.wb.Contents(), open + inner, END, room, r);
        return;
      }
      ghost var c1 := tw.wb.Contents();
      RoomAfter(c0, c1, open, room);
      r := WriteForest(tw, children);
      AppendedThen(c0, c1, tw.wb.Contents(), open, inner, room, r);
      if r.Fail? {
        AppendedCut(c0, tw.wb.Contents(), open + inner, END, room, r);
        return;
      }
      ghost var c2 := tw.wb.Contents();
      RoomAfter(c0, c2, open + inner, room);
      r := tw.EndContainer();
      AppendedThen(c0, c2, tw.wb.Contents(), open + inner, END, room, r);
  }

  method WriteForest(tw: TLVWriter, ts: seq<Tree>) returns (r: Outcome)
    requires tw.wb.Valid() && ValidForest(ts) && AllPlain(ts)
    modifies tw.wb, tw.wb.buf
    ensures tw.wb.Valid() && tw.wb.start == old(tw.wb.start)
    ensures Appended(old(tw.wb.Contents()), tw.wb.Contents(), EncodeForest(ts), old(tw.wb.Room()), r)
    decreases ts, 0
  {
    hide Appended, Encode, ValidTree, Plain;
    ghost var c0, room := tw.wb.Contents(), tw.wb.Room();
    if ts == [] {
      NothingAppended(c0, room);
      return Pass;
    }
    ghost var here, there := Encode(ts[0]), EncodeForest(ts[1..]);
    r := WriteTree(tw, ts[0]);
    if r.Fail? {
      AppendedCut(c0, tw.wb.Contents(), here, there, room, r);
      return;
    }
    ghost var c1 := tw.wb.Contents();
    RoomAfter(c0, c1, here, room);
    r := WriteForest(tw, ts[1..]);
    AppendedThen(c0, c1, tw.wb.Contents(), here, there, room, r);
  }

  /** A tree written into a buffer, read by the iterators and rebuilt is the same tree,
      and this fails only for want of space. */
  method WriteThenRead(t: Tree, capacity: nat) returns (back: Option<Tree>)
    requires ValidTree(t) && Plain(t)
    ensures back == if |Encode(t)| <= capacity then Some(t) else None
  {
    hide Encode, ReadElement, Rebuild;
    var buf := new byte[capacity](i => 0);
    var wb := new WriteBuf(buf, capacity);
    var tw := new TLVWriter(wb);
    assert wb.Contents() == [];
    var r := WriteTree(tw, t);
    if r.Fail? {
      return None;
    }
    var bytes := buf[wb.start..wb.end];
    assert [] + Encode(t) == Encode(t) == bytes + [];
    RoundTrip(t, []);
    var iter := new TLVListIterator.FromSlice(bytes);
    var e := iter.Next();
    return Some(Rebuild(e.value));
  }
}

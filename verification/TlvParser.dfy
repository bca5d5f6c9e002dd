/**
 The TLV reader: the flat element iterator, the container iterator that skips
 nested containers by counting levels, and the lookups built on them.
 */
module TlvParser {
  import opened Bytes
  import opened Tlv

  // ---------------------------------------------------------------- one element

  /** What one call of the list iterator returns and how many bytes it consumes;
      a call that finds nothing may still have consumed a control byte and a tag. */
  datatype Read = Read(elem: Option<Element>, used: nat)

  function ValueSize(code: nat): nat
    requires code < 25
  {
    if code < 8 then Width(code % 4)
    else if code < 10 then 0
    else if code < 20 then Width(code % 4)
    else 0
  }

  /** A `n`-byte length and that many bytes, if they are all there. */
  function ReadLengthValue(s: seq<byte>, n: nat): Option<seq<byte>>
    requires n <= |s|
  {
    var length := LeVal(s[..n]);
    if length + n > |s| then None else Some(s[n..n + length])
  }

  function Signed(v: nat, k: nat): int
    requires k < 4
  {
    if 2 * v < Pow256(Width(k)) then v else v - Pow256(Width(k))
  }

  /** The element of type `code` whose value starts at the front of `s`;
      `None` where the source's extractor answers `Last`. */
  function ReadValue(s: seq<byte>, code: nat): (r: Option<ElementType>)
    requires code < 25 && ValueSize(code) <= |s|
  {
    if code < 4 then Some(SInt(code, Signed(LeVal(s[..Width(code)]), code)))
    else if code < 8 then Some(UInt(code - 4, LeVal(s[..Width(code - 4)])))
    else if code < 10 then Some(Bool(code == 9))
    else if code == 12 || code == 13 then
      (match ReadLengthValue(s, code - 11) case None => None case Some(str) => Some(Utf(code - 11, str)))
    else if code == 16 || code == 17 then
      (match ReadLengthValue(s, code - 15) case None => None case Some(str) => Some(Str(code - 15, str)))
    else if code == 20 then Some(Null)
    else if code == 21 then Some(Container(Struct, s))
    else if code == 22 then Some(Container(Array, s))
    else if code == 23 then Some(Container(List, s))
    else if code == 24 then Some(EndCnt)
    else None
  }

  function BodyLen(e: Element): nat {
    if e.val.Container? then |e.val.body| else 0
  }

  function ExtraSize(val: ElementType): nat {
    match val
    case Utf(_, str) => |str|
    case Str(_, str) => |str|
    case _ => 0
  }

  /** One call of the list iterator on the bytes that are left. */
  function ReadElement(s: seq<byte>): (r: Read)
    ensures r.used <= |s|
    ensures r.elem.Some? ==> r.used >= 1 && BodyLen(r.elem.value) < |s|
  {
    if |s| < 1 then Read(None, 0)
    else
      var tagCode := s[0] / 32;
      var head := 1 + TagSize(tagCode);
      if head > |s| then Read(None, 1)
      else ReadTagged(MakeTag(tagCode, LeVal(s[1..head])), s[0] % 32, s[head..], head)
  }

  /** The rest of the call, once `head` bytes of control byte and tag are read. */
  function ReadTagged(tag: Tag, code: nat, rest: seq<byte>, head: nat): (r: Read)
    ensures head <= r.used <= head + |rest|
    ensures r.elem.Some? ==> BodyLen(r.elem.value) <= |rest|
  {
    if code >= 25 || ValueSize(code) > |rest| then Read(None, head)
    else
      match ReadValue(rest, code)
      case None => Read(None, head)
      case Some(val) => Read(Some(Element(tag, val)), head + ValueSize(code) + ExtraSize(val))
  }

  /** The value a reader returns for a value a writer wrote: a container points
      at whatever follows its tag. */
  function WithBody(val: ElementType, rest: seq<byte>): ElementType {
    if val.Container? then Container(val.kind, rest) else val
  }

  /** What `ReadValueCompletes` says of one value in front of `rest`. */
  predicate ReadsBack(val: ElementType, rest: seq<byte>)
    requires val.Valid()
  {
    var s := val.Payload() + rest;
    ValueSize(val.Code()) <= |s|
    && ReadValue(s, val.Code()) == Some(WithBody(val, rest))
    && ValueSize(val.Code()) + ExtraSize(val) == |val.Payload()|
  }

  lemma FixedReadsBack(u: nat, w: nat, rest: seq<byte>)
    requires u < Pow256(w)
    ensures var s := Le(u, w) + rest; w <= |s| && s[..w] == Le(u, w) && LeVal(s[..w]) == u
  {
    LeValOfLe(u, w);
    PrefixSplit(Le(u, w), rest);
  }

  lemma StringReadsBack(str: seq<byte>, n: nat, rest: seq<byte>)
    requires |str| < Pow256(n)
    ensures var s := Le(|str|, n) + str + rest; n <= |s| && ReadLengthValue(s, n) == Some(str)
  {
    var s := Le(|str|, n) + str + rest;
    assert s == Le(|str|, n) + (str + rest);
    FixedReadsBack(|str|, n, str + rest);
    assert s[n..n + |str|] == str;
  }

  lemma SignedBack(k: nat, s: int)
    requires SInt(k, s).Valid()
    ensures var u := if s < 0 then s + Pow256(Width(k)) else s; 0 <= u < Pow256(Width(k)) && Signed(u, k) == s
  {
  }

  lemma SIntReadsBack(val: ElementType, rest: seq<byte>)
    requires val.Valid() && val.SInt?
    ensures ReadsBack(val, rest)
  {
    hide ReadLengthValue, Signed, LeVal, Pow256;
    var u: nat := if val.s < 0 then val.s + Pow256(Width(val.k)) else val.s;
    SignedBack(val.k, val.s);
    FixedReadsBack(u, Width(val.k), rest);
    assert val.Payload() == Le(u, Width(val.k));
    assert ReadValue(val.Payload() + rest, val.k) == Some(val);
  }

  lemma UIntReadsBack(val: ElementType, rest: seq<byte>)
    requires val.Valid() && val.UInt?
    ensures ReadsBack(val, rest)
  {
    assert val.Code() == 4 + val.k && ValueSize(val.Code()) == Width(val.k);
    FixedReadsBack(val.u, Width(val.k), rest);
    assert ReadValue(val.Payload() + rest, 4 + val.k) == Some(val);
  }

  lemma ReadValueCompletes(val: ElementType, rest: seq<byte>)
    requires val.Valid()
    ensures ReadsBack(val, rest)
  {
    if val.SInt? {
      SIntReadsBack(val, rest);
    } else if val.UInt? {
      UIntReadsBack(val, rest);
    } else if val.Utf? || val.Str? {
      StringReadsBack(val.str, val.n, rest);
    } else {
      assert val.Payload() + rest == rest;
    }
  }

  /** The header is read as the tag and the type number it was made from. */
  lemma ReadHeader(tag: Tag, code: nat, rest: seq<byte>)
    requires tag.Valid() && code < 32
    ensures ReadElement(Header(tag, code) + rest) == ReadTagged(tag, code, rest, 1 + TagSize(tag.Code()))
  {
    hide ReadTagged;
    var s := Header(tag, code) + rest;
    var size := TagSize(tag.Code());
    assert s[0] / 32 == tag.Code() && s[0] % 32 == code;
    assert s[1..1 + size] == Le(tag.Number(), size);
    assert s[1 + size..] == rest;
    LeValOfLe(tag.Number(), size);
    assert MakeTag(tag.Code(), tag.Number()) == tag;
  }

  /** Reading undoes writing: whatever follows a token, the reader returns that
      token and stops exactly behind it. */
  lemma ReadOfToken(tag: Tag, val: ElementType, rest: seq<byte>)
    requires tag.Valid() && val.Valid()
    ensures var s := TokenBytes(tag, val) + rest;
            ReadElement(s) == Read(Some(Element(tag, WithBody(val, rest))), |TokenBytes(tag, val)|)
            && s[|TokenBytes(tag, val)|..] == rest
  {
    hide ReadElement, ReadValue, Header;
    var tail := val.Payload() + rest;
    assert TokenBytes(tag, val) + rest == Header(tag, val.Code()) + tail;
    ReadHeader(tag, val.Code(), tail);
    ReadValueCompletes(val, rest);
    PrefixSplit(TokenBytes(tag, val), rest);
  }

  predicate SoundAt(val: ElementType, s: seq<byte>, code: nat)
    requires code < 25
  {
    var size := ValueSize(code) + ExtraSize(val);
    val.Valid() && val.Code() == code && size <= |s| && val.Payload() == s[..size]
    && WithBody(val, s[size..]) == val
  }

  lemma SIntSound(s: seq<byte>, code: nat)
    requires code < 4 && ValueSize(code) <= |s|
    ensures SoundAt(SInt(code, Signed(LeVal(s[..Width(code)]), code)), s, code)
  {
    Pow256Values();
    LeOfLeVal(s[..Width(code)]);
  }

  lemma UIntSound(s: seq<byte>, code: nat)
    requires 4 <= code < 8 && ValueSize(code) <= |s|
    ensures SoundAt(UInt(code - 4, LeVal(s[..Width(code - 4)])), s, code)
  {
    LeOfLeVal(s[..Width(code - 4)]);
  }

  lemma ReadValueSound(s: seq<byte>, code: nat)
    requires code < 25 && ValueSize(code) <= |s| && ReadValue(s, code).Some?
    ensures SoundAt(ReadValue(s, code).value, s, code)
  {
    if code < 4 {
      SIntSound(s, code);
    } else if code < 8 {
      UIntSound(s, code);
    } else if code == 12 || code == 13 {
      StringSound(s, code - 11);
      assert SoundAt(ReadValue(s, code).value, s, code);
    } else if code == 16 || code == 17 {
      StringSound(s, code - 15);
      assert SoundAt(ReadValue(s, code).value, s, code);
    }
  }

  lemma StringSound(s: seq<byte>, n: nat)
    requires n <= |s| && ReadLengthValue(s, n).Some?
    ensures var str := ReadLengthValue(s, n).value;
            |str| < Pow256(n) && n + |str| <= |s| && Le(|str|, n) + str == s[..n + |str|]
  {
    hide Le, LeVal, Pow256;
    var field, str := s[..n], ReadLengthValue(s, n).value;
    LeOfLeVal(field);
    assert |str| == LeVal(field) && str == s[n..n + |str|];
    assert s[..n + |str|] == field + str;
  }

  lemma HeaderOfRead(s: seq<byte>)
    requires |s| > 0 && |s| > TagSize(s[0] / 32)
    ensures var size := TagSize(s[0] / 32); var tag := MakeTag(s[0] / 32, LeVal(s[1..1 + size]));
            tag.Valid() && tag.Code() == s[0] / 32 && Header(tag, s[0] % 32) == s[..1 + size]
  {
    var size := TagSize(s[0] / 32);
    var field := s[1..1 + size];
    LeOfLeVal(field);
    TagOfMake(s[0] / 32, LeVal(field));
    hide MakeTag, TagSize;
    assert s[..1 + size] == [s[0]] + field;
  }

  /** Writing undoes reading: an element the reader returns was spelled in its
      one canonical form by exactly the bytes consumed. */
  lemma TokenOfRead(s: seq<byte>)
    requires ReadElement(s).elem.Some?
    ensures var r := ReadElement(s); var e := r.elem.value;
            e.tag.Valid() && e.val.Valid()
            && TokenBytes(e.tag, e.val) == s[..r.used]
            && WithBody(e.val, s[r.used..]) == e.val
  {
    hide ReadValue, Header, MakeTag;
    var r := ReadElement(s);
    var size := TagSize(s[0] / 32);
    var rest := s[1 + size..];
    HeaderOfRead(s);
    ReadValueSound(rest, s[0] % 32);
    assert r == ReadTagged(r.elem.value.tag, s[0] % 32, rest, 1 + size);
    hide ReadElement, ReadTagged;
    assert s[..r.used] == s[..1 + size] + rest[..r.used - 1 - size];
    assert s[r.used..] == rest[r.used - 1 - size..];
  }

  lemma TagOfMake(code: nat, v: nat)
    requires code < 8 && v < Pow256(TagSize(code))
    ensures MakeTag(code, v).Code() == code && MakeTag(code, v).Valid()
    ensures Le(MakeTag(code, v).Number(), TagSize(code)) == Le(v, TagSize(code))
  {
  }

  // ---------------------------------------------------------------- containers

  /** The state of the container iterator: the bytes its list iterator has left,
      whether the child it returned last was a container, and whether it is over. */
  datatype Cursor = Cursor(left: seq<byte>, prevContainer: bool, consumed: bool)

  datatype Skipped = Skipped(elem: Option<Element>, left: seq<byte>, consumed: bool)

  /** Reads on to the end marker of the container that is `nest` levels below the
      one whose end is wanted, and returns the element behind the wanted end. */
  function Skip(s: seq<byte>, nest: nat): (r: Skipped)
    ensures |r.left| <= |s|
    ensures r.elem.Some? ==> |r.left| < |s| && !r.elem.value.val.EndCnt? && !r.consumed
    ensures r.elem.Some? ==> BodyLen(r.elem.value) < |s|
    decreases |s|
  {
    var r := ReadElement(s);
    var left := s[r.used..];
    if r.elem.None? then Skipped(None, left, false)
    else if r.elem.value.val.EndCnt? then
      if nest == 0 then
        var last := ReadElement(left);
        if last.elem.None? then Skipped(None, left[last.used..], false)
        else if last.elem.value.val.EndCnt? then Skipped(None, left[last.used..], true)
        else
          Skipped(last.elem, left[last.used..], false)
      else Skip(left, nest - 1)
    else if r.elem.value.val.Container? then Skip(left, nest + 1)
    else Skip(left, nest)
  }

  /** One call of the container iterator. */
  function NextChild(c: Cursor): (r: (Option<Element>, Cursor))
    ensures r.0.Some? ==> |r.1.left| < |c.left| && BodyLen(r.0.value) < |c.left|
  {
    if c.consumed then (None, c)
    else
      var r := NextCandidate(c);
      if r.elem.None? then (None, Cursor(r.left, c.prevContainer, r.consumed))
      else if r.elem.value.val.EndCnt? then (None, Cursor(r.left, c.prevContainer, true))
      else (r.elem, Cursor(r.left, r.elem.value.val.Container?, false))
  }

  /** The next element behind the child returned last. */
  function NextCandidate(c: Cursor): (r: Skipped)
    ensures r.elem.Some? ==> |r.left| < |c.left| && BodyLen(r.elem.value) < |c.left|
  {
    if c.prevContainer then Skip(c.left, 0)
    else
      var n := ReadElement(c.left);
      Skipped(n.elem, c.left[n.used..], false)
  }

  /** Everything the container iterator yields before its first `None`. */
  function Children(c: Cursor): (es: seq<Element>)
    ensures forall i :: 0 <= i < |es| ==> BodyLen(es[i]) < |c.left|
    decreases |c.left|
  {
    var n := NextChild(c);
    if n.0.None? then [] else [n.0.value] + Children(n.1)
  }

  function Enter(body: seq<byte>): Cursor {
    Cursor(body, false, false)
  }

  /** `e` is what a reader holds for the tree `t`: the same tag and value, or a
      pointer at the encoded children and their end marker, whatever follows. */
  predicate Denotes(e: Element, t: Tree)
    requires ValidTree(t)
  {
    e.tag == t.tag &&
    match t
    case Leaf(_, val) => e.val == val
    case Node(_, kind, children) =>
      e.val.Container? && e.val.kind == kind && EncodeForest(children) + END <= e.val.body
  }

  /** How the bytes of a node begin: its own token, then its children and end. */
  lemma NodeBytes(t: Tree, rest: seq<byte>)
    requires ValidTree(t) && t.Node?
    ensures Encode(t) + rest == TokenBytes(t.tag, Container(t.kind, [])) + (EncodeForest(t.children) + END + rest)
  {
    hide TokenBytes;
    var open, body := TokenBytes(t.tag, Container(t.kind, [])), EncodeForest(t.children);
    assert open + body + END + rest == open + (body + END + rest);
  }

  lemma ForestBytes(ts: seq<Tree>, rest: seq<byte>)
    requires ValidForest(ts) && ts != []
    ensures EncodeForest(ts) + rest == Encode(ts[0]) + (EncodeForest(ts[1..]) + rest)
  {
    hide Encode;
    assert EncodeForest(ts) == Encode(ts[0]) + EncodeForest(ts[1..]);
  }

  lemma {:induction false} SkipTree(t: Tree, tail: seq<byte>, nest: nat)
    requires ValidTree(t)
    ensures Skip(Encode(t) + tail, nest) == Skip(tail, nest)
    decreases t, 1
  {
    hide ReadElement, TokenBytes;
    match t
    case Leaf(tag, val) =>
      ReadOfToken(tag, val, tail);
    case Node(tag, kind, children) =>
      var body := EncodeForest(children) + END + tail;
      NodeBytes(t, tail);
      ReadOfToken(tag, Container(kind, []), body);
      assert body == EncodeForest(children) + (END + tail);
      SkipForest(children, END + tail, nest + 1);
      ReadEnd(tail);
  }

  lemma {:induction false} SkipForest(ts: seq<Tree>, tail: seq<byte>, nest: nat)
    requires ValidForest(ts)
    ensures Skip(EncodeForest(ts) + tail, nest) == Skip(tail, nest)
    decreases ts, 0
  {
    hide Encode, Skip;
    if ts == [] {
      assert [] + tail == tail;
    } else {
      ForestBytes(ts, tail);
      SkipTree(ts[0], EncodeForest(ts[1..]) + tail, nest);
      SkipForest(ts[1..], tail, nest);
    }
  }

  lemma ReadEnd(tail: seq<byte>)
    ensures ReadElement(END + tail) == Read(Some(Element(Anonymous, EndCnt)), 1)
    ensures (END + tail)[1..] == tail
  {
    hide ReadElement;
    EndToken();
    ReadOfToken(Anonymous, EndCnt, tail);
  }

  /** The cursor has the children `ts` in front of it, then the end marker and
      `tail`; if it has just returned a container, that container's remaining
      children `us` and its end marker come first. */
  predicate Before(c: Cursor, us: seq<Tree>, ts: seq<Tree>, tail: seq<byte>)
    requires ValidForest(us) && ValidForest(ts)
  {
    var ahead := EncodeForest(ts) + END + tail;
    !c.consumed && c.left == if c.prevContainer then EncodeForest(us) + END + ahead else ahead
  }

  /** The first element of an encoded tree, and what the reader has left. */
  lemma ReadFirst(t: Tree, ahead: seq<byte>)
    requires ValidTree(t)
    ensures var s := Encode(t) + ahead; var r := ReadElement(s);
            r.elem.Some? && Denotes(r.elem.value, t) && !r.elem.value.val.EndCnt?
            && (r.elem.value.val.Container? <==> t.Node?)
            && s[r.used..] == if t.Node? then EncodeForest(t.children) + END + ahead else ahead
  {
    hide ReadElement, TokenBytes;
    match t
    case Leaf(tag, val) =>
      ReadOfToken(tag, val, ahead);
    case Node(tag, kind, children) =>
      NodeBytes(t, ahead);
      ReadOfToken(tag, Container(kind, []), EncodeForest(children) + END + ahead);
  }

  /** In front of `ahead`, with or without the rest of a container to skip, the
      candidate is the element `ahead` starts with, unless that is an end marker
      behind a skipped container. */
  lemma CandidateIsAhead(c: Cursor, us: seq<Tree>, ahead: seq<byte>)
    requires ValidForest(us) && c.left == if c.prevContainer then EncodeForest(us) + END + ahead else ahead
    requires ReadElement(ahead).elem.Some?
    ensures var r := ReadElement(ahead);
            NextCandidate(c) == if c.prevContainer && r.elem.value.val.EndCnt? then Skipped(None, ahead[r.used..], true)
                                else Skipped(r.elem, ahead[r.used..], false)
  {
    hide ReadElement;
    if c.prevContainer {
      assert EncodeForest(us) + END + ahead == EncodeForest(us) + (END + ahead);
      SkipForest(us, END + ahead, 0);
      ReadEnd(ahead);
    }
  }

  /** One call of the iterator in front of the children `ts`: it returns the first
      of them, or reports the end and is over for good. */
  lemma NextChildStep(c: Cursor, us: seq<Tree>, ts: seq<Tree>, tail: seq<byte>) returns (us': seq<Tree>)
    requires ValidForest(us) && ValidForest(ts) && Before(c, us, ts, tail)
    ensures ValidForest(us')
    ensures ts == [] ==> NextChild(c).0 == None && NextChild(c).1.consumed
    ensures ts != [] ==> NextChild(c).0.Some? && Denotes(NextChild(c).0.value, ts[0])
                         && Before(NextChild(c).1, us', ts[1..], tail)
  {
    hide ReadElement, NextCandidate, Encode;
    us' := [];
    var ahead := EncodeForest(ts) + END + tail;
    if ts == [] {
      assert ahead == END + tail;
      ReadEnd(tail);
      CandidateIsAhead(c, us, ahead);
    } else {
      var behind := EncodeForest(ts[1..]) + END + tail;
      assert ahead == Encode(ts[0]) + behind by {
        ForestBytes(ts, END + tail);
        assert EncodeForest(ts) + END + tail == EncodeForest(ts) + (END + tail);
        assert EncodeForest(ts[1..]) + END + tail == EncodeForest(ts[1..]) + (END + tail);
      }
      ReadFirst(ts[0], behind);
      CandidateIsAhead(c, us, ahead);
      if ts[0].Node? {
        us' := ts[0].children;
      }
    }
  }

  predicate DenoteAll(es: seq<Element>, ts: seq<Tree>)
    requires ValidForest(ts)
  {
    |es| == |ts| &&
    (es == [] || (Denotes(es[0], ts[0]) && DenoteAll(es[1..], ts[1..])))
  }

  /** The cursor after `n` calls. */
  function After(c: Cursor, n: nat): Cursor
    decreases n
  {
    if n == 0 then c else After(NextChild(c).1, n - 1)
  }

  lemma {:induction false} ChildrenFrom(c: Cursor, us: seq<Tree>, ts: seq<Tree>, tail: seq<byte>)
    requires ValidForest(us) && ValidForest(ts) && Before(c, us, ts, tail)
    ensures DenoteAll(Children(c), ts)
    decreases |ts|
  {
    var us' := NextChildStep(c, us, ts, tail);
    if ts != [] {
      ChildrenFrom(NextChild(c).1, us', ts[1..], tail);
      assert Children(c)[1..] == Children(NextChild(c).1);
    }
  }

  lemma {:induction false} NothingAfter(c: Cursor, us: seq<Tree>, ts: seq<Tree>, tail: seq<byte>, extra: nat)
    requires ValidForest(us) && ValidForest(ts) && Before(c, us, ts, tail)
    ensures NextChild(After(c, |ts| + extra)).0 == None
    decreases |ts|
  {
    hide NextChild;
    var us' := NextChildStep(c, us, ts, tail);
    if ts != [] {
      assert After(c, |ts| + extra) == After(NextChild(c).1, |ts[1..]| + extra);
      NothingAfter(NextChild(c).1, us', ts[1..], tail, extra);
    } else if extra > 0 {
      ConsumedForever(NextChild(c).1, extra - 1);
    }
  }

  lemma {:induction false} ConsumedForever(c: Cursor, n: nat)
    requires c.consumed
    ensures After(c, n) == c && NextChild(After(c, n)) == (None, c)
  {
    if n > 0 {
      ConsumedForever(c, n - 1);
    }
  }

  /** On the encoding of any container followed by arbitrary bytes, the iterator
      yields exactly the direct children, in order and whatever their nesting,
      and then `None` on every later call. */
  lemma IteratorYieldsChildren(children: seq<Tree>, tail: seq<byte>, extra: nat)
    requires ValidForest(children)
    ensures var c := Enter(EncodeForest(children) + END + tail);
            DenoteAll(Children(c), children) && NextChild(After(c, |children| + extra)).0 == None
  {
    ChildrenFrom(Enter(EncodeForest(children) + END + tail), [], children, tail);
    NothingAfter(Enter(EncodeForest(children) + END + tail), [], children, tail, extra);
  }

  // ---------------------------------------------------------------- rebuilding trees

  /** The tree a caller sees by walking an element with `next` and `enter`. */
  function Rebuild(e: Element): Tree
    decreases BodyLen(e), 1, 0
  {
    if e.val.Container? then
      Node(e.tag, e.val.kind, RebuildAll(Children(Enter(e.val.body)), |e.val.body|))
    else Leaf(e.tag, e.val)
  }

  function RebuildAll(es: seq<Element>, bound: nat): seq<Tree>
    requires forall i :: 0 <= i < |es| ==> BodyLen(es[i]) < bound
    decreases bound, 0, |es|
  {
    if es == [] then [] else [Rebuild(es[0])] + RebuildAll(es[1..], bound)
  }

  lemma {:induction false} WalkRebuilds(e: Element, t: Tree)
    requires ValidTree(t) && Denotes(e, t)
    ensures Rebuild(e) == t
    decreases t, 1, 0
  {
    match t
    case Leaf(_, _) =>
    case Node(_, _, children) =>
      var tail := e.val.body[|EncodeForest(children) + END|..];
      assert e.val.body == EncodeForest(children) + END + tail;
      IteratorYieldsChildren(children, tail, 0);
      WalkRebuildsAll(Children(Enter(e.val.body)), |e.val.body|, children);
  }

  lemma {:induction false} WalkRebuildsAll(es: seq<Element>, bound: nat, ts: seq<Tree>)
    requires ValidForest(ts) && DenoteAll(es, ts)
    requires forall i :: 0 <= i < |es| ==> BodyLen(es[i]) < bound
    ensures RebuildAll(es, bound) == ts
    decreases ts, 0, |es|
  {
    if es != [] {
      WalkRebuilds(es[0], ts[0]);
      WalkRebuildsAll(es[1..], bound, ts[1..]);
      assert ts == [ts[0]] + ts[1..];
    }
  }

  /** Reading the first element of an encoded tree gives an element that denotes
      it, and walking that element rebuilds the tree. */
  lemma RoundTrip(t: Tree, rest: seq<byte>)
    requires ValidTree(t)
    ensures var r := ReadElement(Encode(t) + rest);
            r.elem.Some? && Denotes(r.elem.value, t) && Rebuild(r.elem.value) == t
  {
    hide ReadElement, Rebuild;
    ReadFirst(t, rest);
    WalkRebuilds(ReadElement(Encode(t) + rest).elem.value, t);
  }

  /** So two trees with the same bytes, or with bytes one of which starts with
      the other, are the same tree. */
  lemma EncodeIsPrefixFree(t: Tree, u: Tree)
    requires ValidTree(t) && ValidTree(u) && Encode(t) <= Encode(u)
    ensures t == u
  {
    hide ReadElement, Rebuild, Encode;
    var rest := Encode(u)[|Encode(t)|..];
    assert Encode(u) == Encode(t) + rest && Encode(u) == Encode(u) + [];
    RoundTrip(t, rest);
    RoundTrip(u, []);
  }

  // ---------------------------------------------------------------- lookups

  /** The unsigned accessors `u8`, `u16`, `u32` and `u64`: an integer of width
      `1 << k` is read from an element of that width or a narrower one. */
  function GetUnsigned(e: Element, k: nat): Result<nat, Error> {
    if e.val.UInt? && e.val.k <= k then Ok(e.val.u) else Err(TLVTypeMismatch)
  }

  function GetBool(e: Element): Result<bool, Error> {
    if e.val.Bool? then Ok(e.val.b) else Err(TLVTypeMismatch)
  }

  function GetSlice(e: Element): Result<seq<byte>, Error> {
    match e.val
    case Utf(_, str) => Ok(str)
    case Str(_, str) => Ok(str)
    case _ => Err(TLVTypeMismatch)
  }

  /** The first of `es` that carries the context tag `tag`. */
  function FirstTagged(es: seq<Element>, tag: byte): Option<Element> {
    if es == [] then None
    else if es[0].tag == Context(tag) then Some(es[0])
    else FirstTagged(es[1..], tag)
  }

  function FindTag(e: Element, tag: nat): Result<Element, Error> {
    if !e.val.Container? then Err(TLVTypeMismatch)
    else
      match FirstTagged(Children(Enter(e.val.body)), tag % 256)
      case Some(a) => Ok(a)
      case None => Err(NoTagFound)
  }

  // ---------------------------------------------------------------- the iterators

  /** Iterates over the individual elements of a byte slice. */
  class TLVListIterator {
    const buf: seq<byte>
    var current: nat
    var left: nat

    ghost predicate Valid()
      reads this
    {
      current + left <= |buf|
    }

    /** The bytes still to be read. */
    ghost function Rest(): seq<byte>
      requires Valid()
      reads this
    {
      buf[current..current + left]
    }

    constructor FromSlice(slice: seq<byte>)
      ensures Valid() && Rest() == slice
    {
      buf, current, left := slice, 0, |slice|;
    }

    method Advance(len: nat)
      requires Valid() && len <= left
      modifies this
      ensures Valid() && Rest() == old(Rest())[len..]
    {
      current, left := current + len, left - len;
    }

    method Next() returns (r: Option<Element>)
      requires Valid()
      modifies this
      ensures Valid()
      ensures r == ReadElement(old(Rest())).elem
      ensures Rest() == old(Rest())[ReadElement(old(Rest())).used..]
    {
      hide MakeTag, LeVal, Le, Pow256, ReadValue, ExtraSize;
      if left < 1 {
        return None;
      }
      ghost var s := Rest();
      var control := buf[current];
      Advance(1);
      var tagSize := TagSize(control / 32);
      if tagSize > left {
        return None;
      }
      var tag := MakeTag(control / 32, LeVal(buf[current..current + tagSize]));
      assert buf[current..current + tagSize] == Rest()[..tagSize] == s[1..1 + tagSize];
      Advance(tagSize);
      assert Rest() == s[1..][tagSize..] == s[1 + tagSize..];
      var code := control % 32;
      if code >= 25 || ValueSize(code) > left {
        return None;
      }
      var val := ReadValue(buf[current..current + left], code);
      if val.None? {
        return None;
      }
      ghost var whole := ReadElement(s);
      assert whole == ReadTagged(tag, code, Rest(), 1 + tagSize);
      Advance(ValueSize(code) + ExtraSize(val.value));
      return Some(Element(tag, val.value));
    }
  }

  /** What one element read tells about the rest of a skip. */
  lemma SkipStep(s: seq<byte>, nest: nat)
    ensures var r := ReadElement(s); var left := s[r.used..];
            if r.elem.None? then Skip(s, nest) == Skipped(None, left, false)
            else
              |left| < |s|
              && Skip(s, nest)
              == if !r.elem.value.val.EndCnt? then Skip(left, if r.elem.value.val.Container? then nest + 1 else nest)
                 else if nest > 0 then Skip(left, nest - 1)
                 else
                   var last := ReadElement(left);
                   var end := last.elem.Some? && last.elem.value.val.EndCnt?;
                   Skipped(if end then None else last.elem, left[last.used..], end)
  {
    hide ReadElement;
  }

  /** Iterates over the direct children of a container. */
  class TLVContainerIterator {
    const listIter: TLVListIterator
    var prevContainer: bool
    var iteratorConsumed: bool

    ghost predicate Valid()
      reads this, listIter
    {
      listIter.Valid()
    }

    ghost function State(): Cursor
      requires Valid()
      reads this, listIter
    {
      Cursor(listIter.Rest(), prevContainer, iteratorConsumed)
    }

    constructor EnterSlice(body: seq<byte>)
      ensures Valid() && fresh(listIter) && State() == Enter(body)
    {
      listIter := new TLVListIterator.FromSlice(body);
      prevContainer, iteratorConsumed := false, false;
    }

    method SkipToEndOfContainer() returns (r: Option<Element>)
      requires Valid() && !iteratorConsumed
      modifies this, listIter
      ensures Valid() && prevContainer == old(prevContainer)
      ensures var skip := Skip(old(listIter.Rest()), 0);
              r == skip.elem && listIter.Rest() == skip.left && iteratorConsumed == skip.consumed
    {
      hide ReadElement, Skip;
      var nestLevel: nat := 0;
      while true
        invariant Valid() && !iteratorConsumed && prevContainer == old(prevContainer)
        invariant Skip(listIter.Rest(), nestLevel) == Skip(old(listIter.Rest()), 0)
        decreases |listIter.Rest()|
      {
        SkipStep(listIter.Rest(), nestLevel);
        var element := listIter.Next();
        if element.None? {
          return None;
        }
        if element.value.val.EndCnt? {
          if nestLevel == 0 {
            var last := listIter.Next();
            if last.None? {
              return None;
            }
            if last.value.val.EndCnt? {
              iteratorConsumed := true;
              return None;
            }
            return last;
          }
          nestLevel := nestLevel - 1;
        } else if element.value.val.Container? {
          nestLevel := nestLevel + 1;
        }
      }
    }

    method Next() returns (r: Option<Element>)
      requires Valid()
      modifies this, listIter
      ensures Valid()
      ensures (r, State()) == NextChild(old(State()))
    {
      hide ReadElement, Skip;
      if iteratorConsumed {
        return None;
      }
      var element;
      if prevContainer {
        element := SkipToEndOfContainer();
      } else {
        element := listIter.Next();
      }
      if element.None? {
        return None;
      }
      if element.value.val.EndCnt? {
        iteratorConsumed := true;
        return None;
      }
      prevContainer := element.value.val.Container?;
      return element;
    }
  }

  method FindTagInElement(e: Element, tag: nat) returns (r: Result<Element, Error>)
    ensures r == FindTag(e, tag)
  {
    hide NextChild;
    if !e.val.Container? {
      return Err(TLVTypeMismatch);
    }
    var iter := new TLVContainerIterator.EnterSlice(e.val.body);
    var a := iter.Next();
    while a.Some?
      invariant iter.Valid() && fresh(iter) && fresh(iter.listIter)
      invariant FirstTagged(Children(Enter(e.val.body)), tag % 256)
             == if a.None? then None else FirstTagged([a.value] + Children(iter.State()), tag % 256)
      decreases a.Some?, |iter.State().left|
    {
      if a.value.tag == Context(tag % 256) {
        return Ok(a.value);
      }
      a := iter.Next();
    }
    return Err(NoTagFound);
  }
}

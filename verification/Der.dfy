/**
 The distinguished encoding rules as a recursive encoder (sections 8.1.3 and 10.1
 of ITU-T X.690), a definite-length reader, and the stack machine whose steps are
 the calls of the in-place writer.
 */
module Der {
  import opened Bytes

  /** A value to be encoded: contents that are given, or contents made of further values. */
  datatype Tree = Prim(tag: byte, content: seq<byte>) | Cons(tag: byte, children: seq<Tree>)

  const MAX_LEN := 0x1_0000

  /** The length octets of a length below 65536: one octet below 128, and else one
      or two octets behind an octet that counts them. */
  function LenBytes(len: nat): (s: seq<byte>)
    ensures 1 <= |s| <= 3
  {
    if len < 128 then [len]
    else if len < 256 then [0x81, len]
    else [0x82, len / 256 % 256, len % 256]
  }

  function Tlv(tag: byte, content: seq<byte>): (s: seq<byte>)
    ensures |s| == 1 + |LenBytes(|content|)| + |content|
  {
    [tag] + LenBytes(|content|) + content
  }

  function Encode(t: Tree): seq<byte>
    decreases t, 1
  {
    match t
    case Prim(tag, content) => Tlv(tag, content)
    case Cons(tag, children) => Tlv(tag, EncodeAll(children))
  }

  function EncodeAll(ts: seq<Tree>): seq<byte>
    decreases ts, 0
  {
    if ts == [] then [] else Encode(ts[0]) + EncodeAll(ts[1..])
  }

  /** Every length in the tree can be said in two octets. */
  predicate Small(t: Tree)
    decreases t, 1
  {
    match t
    case Prim(_, content) => |content| < MAX_LEN
    case Cons(_, children) => AllSmall(children) && |EncodeAll(children)| < MAX_LEN
  }

  predicate AllSmall(ts: seq<Tree>)
    decreases ts, 0
  {
    ts == [] || (Small(ts[0]) && AllSmall(ts[1..]))
  }

  // ---------------------------------------------------------------- reading

  /** A definite length in its short form or its long form with up to two octets,
      and the octets it takes. */
  function ReadLen(s: seq<byte>): Option<(nat, nat)> {
    if s == [] then None
    else if s[0] < 128 then Some((s[0], 1))
    else if s[0] == 0x81 && |s| >= 2 then Some((s[1], 2))
    else if s[0] == 0x82 && |s| >= 3 then Some((256 * (s[1] as int) + s[2] as int, 3))
    else None
  }

  lemma ReadLenOfLenBytes(len: nat, rest: seq<byte>)
    requires len < MAX_LEN
    ensures ReadLen(LenBytes(len) + rest) == Some((len, |LenBytes(len)|))
  {
  }

  /** No octets that say the same length are fewer. */
  lemma LenBytesMinimal(s: seq<byte>)
    requires ReadLen(s).Some?
    ensures var (len, used) := ReadLen(s).value; len < MAX_LEN && |LenBytes(len)| <= used
  {
  }

  datatype ReadResult = ReadResult(tag: byte, content: seq<byte>, rest: seq<byte>)

  function ReadTlv(s: seq<byte>): (r: Option<ReadResult>)
    ensures r.Some? ==> |r.value.content| < |s| && |r.value.rest| < |s|
  {
    if s == [] then None
    else
      match ReadLen(s[1..])
      case None => None
      case Some((len, used)) =>
        if 1 + used + len > |s| then None
        else Some(ReadResult(s[0], s[1 + used..1 + used + len], s[1 + used + len..]))
  }

  predicate Constructed(tag: byte) {
    tag / 32 % 2 == 1
  }

  /** Reads a sequence of values, entering those whose tag says constructed. */
  function ReadAll(s: seq<byte>): Option<seq<Tree>>
    decreases |s|
  {
    if s == [] then Some([])
    else
      match ReadTlv(s)
      case None => None
      case Some(r) =>
        var inner := if Constructed(r.tag) then ReadAll(r.content) else Some([]);
        var rest := ReadAll(r.rest);
        if inner.None? || rest.None? then None
        else Some([if Constructed(r.tag) then Cons(r.tag, inner.value) else Prim(r.tag, r.content)] + rest.value)
  }

  /** What a reader can tell of a tree: a value with a primitive tag, such as an
      octet string around an extension, is read as its bytes. */
  function Seen(t: Tree): Tree
    decreases t, 1
  {
    match t
    case Prim(_, _) => t
    case Cons(tag, children) => if Constructed(tag) then Cons(tag, SeenAll(children)) else Prim(tag, EncodeAll(children))
  }

  function SeenAll(ts: seq<Tree>): seq<Tree>
    decreases ts, 0
  {
    if ts == [] then [] else [Seen(ts[0])] + SeenAll(ts[1..])
  }

  predicate PrimTagsPrimitive(ts: seq<Tree>)
    decreases ts
  {
    ts == [] ||
    (PrimTagsPrimitive(ts[1..]) &&
     match ts[0]
     case Prim(tag, _) => !Constructed(tag)
     case Cons(_, children) => PrimTagsPrimitive(children))
  }

  lemma ReadTlvOfTlv(tag: byte, content: seq<byte>, rest: seq<byte>)
    requires |content| < MAX_LEN
    ensures ReadTlv(Tlv(tag, content) + rest) == Some(ReadResult(tag, content, rest))
  {
    var s := Tlv(tag, content) + rest;
    var used := |LenBytes(|content|)|;
    assert s[1..] == LenBytes(|content|) + (content + rest);
    ReadLenOfLenBytes(|content|, content + rest);
    assert s[1 + used..] == content + rest;
    assert s[1 + used..1 + used + |content|] == content && s[1 + used + |content|..] == rest;
  }

  /** The reader recovers from the encoding all that the tags let it see. */
  lemma {:induction false} ReadBack(ts: seq<Tree>)
    requires AllSmall(ts) && PrimTagsPrimitive(ts)
    ensures ReadAll(EncodeAll(ts)) == Some(SeenAll(ts))
    decreases ts
  {
    if ts != [] {
      var rest := EncodeAll(ts[1..]);
      match ts[0] {
        case Prim(tag, content) => ReadTlvOfTlv(tag, content, rest);
        case Cons(tag, children) =>
          ReadTlvOfTlv(tag, EncodeAll(children), rest);
          ReadBack(children);
      }
      ReadBack(ts[1..]);
    }
  }

  // ---------------------------------------------------------------- the writer's stack

  /** What the in-place writer has written: finished bytes at the bottom, and on
      top of them the containers that are open, each with its tag, a gap for its
      length, and the contents so far. */
  datatype Stack = Bottom(base: seq<byte>) | Open(below: Stack, tag: byte, content: seq<byte>)

  const RESERVE := 4 // the tag and three reserved length bytes of an open container
  const MAX_DEPTH := 10

  function Depth(s: Stack): nat {
    match s
    case Bottom(_) => 0
    case Open(below, _, _) => Depth(below) + 1
  }

  function Offset(s: Stack): nat {
    match s
    case Bottom(base) => |base|
    case Open(below, _, content) => Offset(below) + RESERVE + |content|
  }

  function Add(s: Stack, x: seq<byte>): (r: Stack)
    ensures Depth(r) == Depth(s) && Offset(r) == Offset(s) + |x|
  {
    match s
    case Bottom(base) => Bottom(base + x)
    case Open(below, tag, content) => Open(below, tag, content + x)
  }

  lemma AddAdd(s: Stack, x: seq<byte>, y: seq<byte>)
    ensures Add(Add(s, x), y) == Add(s, x + y)
  {
    match s
    case Bottom(base) => assert base + x + y == base + (x + y);
    case Open(_, _, content) => assert content + x + y == content + (x + y);
  }

  lemma AddNothing(s: Stack)
    ensures Add(s, []) == s
  {
    match s
    case Bottom(base) => assert base + [] == base;
    case Open(_, _, content) => assert content + [] == content;
  }

  /** The calls a client of the writer makes. */
  datatype Call = Put(tag: byte, content: seq<byte>) | Start(tag: byte) | End

  datatype After = After(stack: Stack, r: Outcome)

  /** One call on a buffer of `cap` bytes. Starting a tenth container fails, but
      leaves it open. */
  function Do(s: Stack, cap: nat, call: Call): After {
    match call
    case Put(tag, content) =>
      if |content| < MAX_LEN && Offset(s) + |Tlv(tag, content)| <= cap then After(Add(s, Tlv(tag, content)), Pass)
      else After(s, Fail(NoSpace))
    case Start(tag) =>
      if Offset(s) + RESERVE > cap then After(s, Fail(NoSpace))
      else After(Open(s, tag, []), if Depth(s) + 1 >= MAX_DEPTH then Fail(NoSpace) else Pass)
    case End =>
      match s
      case Bottom(_) => After(s, Fail(Invalid))
      case Open(below, tag, content) =>
        if |content| >= MAX_LEN then After(s, Fail(NoSpace)) else After(Add(below, Tlv(tag, content)), Pass)
  }

  /** Calls until one fails, as a client that passes errors on makes them. */
  function Run(s: Stack, cap: nat, calls: seq<Call>): After
    decreases |calls|
  {
    if calls == [] then After(s, Pass)
    else
      var a := Do(s, cap, calls[0]);
      if a.r.Fail? then a else Run(a.stack, cap, calls[1..])
  }

  lemma {:induction false} RunConcat(s: Stack, cap: nat, xs: seq<Call>, ys: seq<Call>)
    ensures var a := Run(s, cap, xs);
            Run(s, cap, xs + ys) == if a.r.Fail? then a else Run(a.stack, cap, ys)
    decreases |xs|
  {
    if xs == [] {
      assert xs + ys == ys;
    } else {
      assert (xs + ys)[1..] == xs[1..] + ys;
      var a := Do(s, cap, xs[0]);
      if a.r.Pass? {
        RunConcat(a.stack, cap, xs[1..], ys);
      }
    }
  }

  lemma RunOne(s: Stack, cap: nat, call: Call)
    ensures Run(s, cap, [call]) == Do(s, cap, call)
  {
    assert [call][1..] == [];
  }

  /** The balanced calls that write a tree. */
  function Calls(t: Tree): seq<Call>
    decreases t, 1
  {
    match t
    case Prim(tag, content) => [Put(tag, content)]
    case Cons(tag, children) => [Start(tag)] + CallsAll(children) + [End]
  }

  function CallsAll(ts: seq<Tree>): seq<Call>
    decreases ts, 0
  {
    if ts == [] then [] else Calls(ts[0]) + CallsAll(ts[1..])
  }

  function Max(a: nat, b: nat): nat {
    if a < b then b else a
  }

  function Height(t: Tree): nat
    decreases t, 1
  {
    match t
    case Prim(_, _) => 0
    case Cons(_, children) => 1 + HeightAll(children)
  }

  function HeightAll(ts: seq<Tree>): nat
    decreases ts, 0
  {
    if ts == [] then 0 else Max(Height(ts[0]), HeightAll(ts[1..]))
  }

  /** The most buffer a tree needs at any time while it is written, the gaps of
      its open containers included. */
  function Peak(t: Tree): nat
    decreases t, 1
  {
    match t
    case Prim(_, _) => |Encode(t)|
    case Cons(_, children) => RESERVE + PeakAll(children)
  }

  function PeakAll(ts: seq<Tree>): nat
    decreases ts, 0
  {
    if ts == [] then 0 else Max(Peak(ts[0]), |Encode(ts[0])| + PeakAll(ts[1..]))
  }

  /** Finishing never needs more than writing did: the gap holds the length. */
  lemma {:induction false} PeakCovers(t: Tree)
    ensures |Encode(t)| <= Peak(t)
    decreases t, 1
  {
    if t.Cons? {
      PeakAllCovers(t.children);
    }
  }

  lemma {:induction false} PeakAllCovers(ts: seq<Tree>)
    ensures |EncodeAll(ts)| <= PeakAll(ts)
    decreases ts, 0
  {
    if ts != [] {
      PeakCovers(ts[0]);
      PeakAllCovers(ts[1..]);
    }
  }

  /** The reserved bytes cost at most two for every open container. */
  lemma {:induction false} PeakBound(t: Tree)
    ensures Peak(t) <= |Encode(t)| + 2 * Height(t)
    decreases t, 1
  {
    if t.Cons? {
      PeakAllBound(t.children);
    }
  }

  lemma {:induction false} PeakAllBound(ts: seq<Tree>)
    ensures PeakAll(ts) <= |EncodeAll(ts)| + 2 * HeightAll(ts)
    decreases ts, 0
  {
    if ts != [] {
      PeakBound(ts[0]);
      PeakAllBound(ts[1..]);
    }
  }

  /** The tree can be written on top of `s`: its lengths are small, it nests no
      more than nine deep, and the buffer has room for the reserved bytes. */
  predicate Writable(s: Stack, cap: nat, t: Tree) {
    Small(t) && (t.Cons? ==> Depth(s) + Height(t) <= 9) && Offset(s) + Peak(t) <= cap
  }

  predicate AllWritable(s: Stack, cap: nat, ts: seq<Tree>) {
    AllSmall(ts) && (HeightAll(ts) > 0 ==> Depth(s) + HeightAll(ts) <= 9)
    && (ts != [] ==> Offset(s) + PeakAll(ts) <= cap)
  }

  /** Reserving, back-patching and shifting left writes the recursive encoding:
      the calls for a tree succeed exactly when it is writable, and then they
      append its encoding to what was there and change nothing else. */
  lemma {:induction false} RunTree(s: Stack, cap: nat, t: Tree)
    ensures Run(s, cap, Calls(t)).r.Pass? <==> Writable(s, cap, t)
    ensures Writable(s, cap, t) ==> Run(s, cap, Calls(t)).stack == Add(s, Encode(t))
    decreases t, 1
  {
    match t
    case Prim(tag, content) =>
      RunOne(s, cap, Put(tag, content));
    case Cons(tag, children) =>
      var inner := CallsAll(children);
      assert Calls(t) == [Start(tag)] + (inner + [End]);
      RunConcat(s, cap, [Start(tag)], inner + [End]);
      RunOne(s, cap, Start(tag));
      var a := Do(s, cap, Start(tag));
      if a.r.Pass? {
        RunConcat(a.stack, cap, inner, [End]);
        RunForest(a.stack, cap, children);
        EndAfter(s, cap, tag, EncodeAll(children));
        WritableNode(s, cap, tag, children);
      }
  }

  lemma EndAfter(s: Stack, cap: nat, tag: byte, x: seq<byte>)
    ensures Run(Add(Open(s, tag, []), x), cap, [End])
         == if |x| >= MAX_LEN then After(Open(s, tag, x), Fail(NoSpace)) else After(Add(s, Tlv(tag, x)), Pass)
  {
    assert [] + x == x;
    RunOne(Open(s, tag, x), cap, End);
  }

  lemma WritableNode(s: Stack, cap: nat, tag: byte, children: seq<Tree>)
    requires Offset(s) + RESERVE <= cap && Depth(s) + 1 < MAX_DEPTH
    ensures Writable(s, cap, Cons(tag, children))
       <==> AllWritable(Open(s, tag, []), cap, children) && |EncodeAll(children)| < MAX_LEN
  {
    var t := Cons(tag, children);
    assert Height(t) == 1 + HeightAll(children) && Peak(t) == RESERVE + PeakAll(children);
    if children == [] {
      assert HeightAll(children) == 0 && PeakAll(children) == 0;
    }
  }

  lemma WritableCons(s: Stack, cap: nat, ts: seq<Tree>)
    requires ts != []
    ensures AllWritable(s, cap, ts)
       <==> Writable(s, cap, ts[0]) && AllWritable(Add(s, Encode(ts[0])), cap, ts[1..])
  {
    PeakCovers(ts[0]);
    assert Height(ts[0]) > 0 <==> ts[0].Cons?;
    if ts[1..] == [] {
      assert HeightAll(ts[1..]) == 0 && PeakAll(ts[1..]) == 0;
    }
  }

  lemma {:induction false} RunForest(s: Stack, cap: nat, ts: seq<Tree>)
    ensures Run(s, cap, CallsAll(ts)).r.Pass? <==> AllWritable(s, cap, ts)
    ensures AllWritable(s, cap, ts) ==> Run(s, cap, CallsAll(ts)).stack == Add(s, EncodeAll(ts))
    decreases ts, 0
  {
    if ts == [] {
      AddNothing(s);
    } else {
      RunConcat(s, cap, Calls(ts[0]), CallsAll(ts[1..]));
      RunTree(s, cap, ts[0]);
      var s' := Add(s, Encode(ts[0]));
      RunForest(s', cap, ts[1..]);
      AddAdd(s, Encode(ts[0]), EncodeAll(ts[1..]));
      WritableCons(s, cap, ts);
    }
  }
}

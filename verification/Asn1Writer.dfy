/**
 The in-place DER writer: it reserves three length bytes for every open
 container and, when the container ends, writes the length in as few bytes as it
 needs and shifts the contents left over the rest.
 */
module Asn1Writers {
  import opened Bytes
  import opened Der

  /** `c` is `b` with the bytes at `at` replaced by `x`. */
  ghost predicate Replaced(b: seq<byte>, c: seq<byte>, at: nat, x: seq<byte>) {
    |b| == |c| && at + |x| <= |b|
    && c[..at] == b[..at] && c[at..at + |x|] == x && c[at + |x|..] == b[at + |x|..]
  }

  lemma ReplacedBy(b: seq<byte>, c: seq<byte>, at: nat, x: seq<byte>)
    requires |b| == |c| && at + |x| <= |b|
    requires c[..at] == b[..at] && c[at..at + |x|] == x && c[at + |x|..] == b[at + |x|..]
    ensures Replaced(b, c, at, x)
  {
  }

  /** The starts of the open containers' contents lie behind each other, each with
      a tag and three reserved bytes in front of it. */
  predicate ValidStarts(starts: seq<nat>, offset: nat) {
    starts == [] ||
    var (outer, start) := (starts[..|starts| - 1], starts[|starts| - 1]);
    RESERVE <= start <= offset && ValidStarts(outer, start - RESERVE)
  }

  /** The stack of open containers that the first `offset` bytes and the starts stand for. */
  function StackOf(b: seq<byte>, starts: seq<nat>, offset: nat): (s: Stack)
    requires ValidStarts(starts, offset) && offset <= |b|
    ensures Offset(s) == offset && Depth(s) == |starts|
    decreases |starts|
  {
    if starts == [] then Bottom(b[..offset])
    else
      var (outer, start) := (starts[..|starts| - 1], starts[|starts| - 1]);
      Open(StackOf(b, outer, start - RESERVE), b[start - RESERVE], b[start..offset])
  }

  lemma {:induction false} StackDependsOnPrefix(b: seq<byte>, c: seq<byte>, starts: seq<nat>, offset: nat)
    requires ValidStarts(starts, offset) && offset <= |b| && offset <= |c| && b[..offset] == c[..offset]
    ensures StackOf(b, starts, offset) == StackOf(c, starts, offset)
    decreases |starts|
  {
    if starts != [] {
      var start := starts[|starts| - 1];
      assert b[..start - RESERVE] == b[..offset][..start - RESERVE] == c[..start - RESERVE];
      assert b[start..offset] == b[..offset][start..] == c[start..offset];
      assert b[start - RESERVE] == b[..offset][start - RESERVE] == c[start - RESERVE];
      StackDependsOnPrefix(b, c, starts[..|starts| - 1], start - RESERVE);
    }
  }

  /** Bytes written at the offset are added to the innermost contents. */
  lemma StackAdd(b: seq<byte>, c: seq<byte>, starts: seq<nat>, offset: nat, x: seq<byte>)
    requires ValidStarts(starts, offset) && offset <= |b| && offset + |x| <= |c|
    requires c[..offset] == b[..offset] && c[offset..offset + |x|] == x
    ensures ValidStarts(starts, offset + |x|)
    ensures StackOf(c, starts, offset + |x|) == Add(StackOf(b, starts, offset), x)
  {
    if starts == [] {
      assert c[..offset + |x|] == c[..offset] + x;
    } else {
      var start := starts[|starts| - 1];
      assert c[start..offset] == c[..offset][start..] == b[..offset][start..] == b[start..offset];
      assert c[start..offset + |x|] == c[start..offset] + x;
      assert b[start - RESERVE] == b[..offset][start - RESERVE] == c[start - RESERVE];
      assert b[..start - RESERVE] == b[..offset][..start - RESERVE] == c[..start - RESERVE];
      StackDependsOnPrefix(b, c, starts[..|starts| - 1], start - RESERVE);
    }
  }

  /** A tag and three reserved bytes at the offset open a container. */
  lemma StackOpen(b: seq<byte>, c: seq<byte>, starts: seq<nat>, offset: nat, tag: byte)
    requires ValidStarts(starts, offset) && offset <= |b| && offset + RESERVE <= |c|
    requires c[..offset] == b[..offset] && c[offset] == tag
    ensures ValidStarts(starts + [offset + RESERVE], offset + RESERVE)
    ensures StackOf(c, starts + [offset + RESERVE], offset + RESERVE) == Open(StackOf(b, starts, offset), tag, [])
  {
    var more := starts + [offset + RESERVE];
    assert more[..|more| - 1] == starts;
    StackDependsOnPrefix(b, c, starts, offset);
  }

  lemma StackTop(b: seq<byte>, starts: seq<nat>, offset: nat)
    requires ValidStarts(starts, offset) && offset <= |b| && starts != []
    ensures StackOf(b, starts, offset).Open?
    ensures StackOf(b, starts, offset).content == b[starts[|starts| - 1]..offset]
    ensures RESERVE <= starts[|starts| - 1] <= offset
  {
  }

  lemma EndOfNothing(s: Stack, cap: nat)
    requires Depth(s) == 0
    ensures Do(s, cap, End) == After(s, Fail(Invalid))
  {
  }

  lemma EndOfTooMuch(s: Stack, cap: nat)
    requires s.Open? && |s.content| >= MAX_LEN
    ensures Do(s, cap, End) == After(s, Fail(NoSpace))
  {
  }

  /** Replacing `x` at `at`, and then moving `len` bytes from `start` to right behind
      it, leaves `x` and those bytes one behind the other. */
  lemma PatchedAndShifted(b: seq<byte>, c: seq<byte>, d: seq<byte>, at: nat, x: seq<byte>, start: nat, len: nat)
    requires Replaced(b, c, at, x) && at + |x| <= start && start + len <= |b| && |d| == |c|
    requires var to := at + |x|; d[..to] == c[..to] && d[to..to + len] == c[start..start + len]
    ensures d[..at] == b[..at] && d[at..at + |x| + len] == x + b[start..start + len]
  {
    var to := at + |x|;
    assert c[start..start + len] == c[to..][start - to..start - to + len] == b[to..][start - to..start - to + len] == b[start..start + len];
    assert d[..at] == d[..to][..at] == c[..at];
    assert d[at..to] == d[..to][at..] == c[at..to];
    assert d[at..to + len] == d[at..to] + d[to..to + len];
  }

  lemma StackUnfolds(b: seq<byte>, starts: seq<nat>, offset: nat)
    requires ValidStarts(starts, offset) && offset <= |b| && starts != []
    ensures var start := starts[|starts| - 1]; var outer := starts[..|starts| - 1];
            ValidStarts(outer, start - RESERVE)
            && StackOf(b, starts, offset) == Open(StackOf(b, outer, start - RESERVE), b[start - RESERVE], b[start..offset])
  {
  }

  /** Writing the length behind the tag and the contents behind the length turns
      the innermost container into finished bytes of the one around it. */
  lemma StackClose(b: seq<byte>, c: seq<byte>, starts: seq<nat>, offset: nat)
    requires ValidStarts(starts, offset) && offset <= |b| && starts != []
    requires var start := starts[|starts| - 1]; var content := b[start..offset];
             |content| < MAX_LEN && start - 3 + |LenBytes(|content|) + content| <= |c|
             && c[..start - 3] == b[..start - 3]
             && c[start - 3..start - 3 + |LenBytes(|content|) + content|] == LenBytes(|content|) + content
    ensures var start := starts[|starts| - 1]; var outer := starts[..|starts| - 1]; var content := b[start..offset];
            var end := start - 3 + |LenBytes(|content|) + content|;
            ValidStarts(outer, end)
            && Do(StackOf(b, starts, offset), |b|, End) == After(StackOf(c, outer, end), Pass)
  {
    hide LenBytes, StackOf;
    var start := starts[|starts| - 1];
    var outer := starts[..|starts| - 1];
    var content := b[start..offset];
    var tag := b[start - RESERVE];
    var x := Der.Tlv(tag, content);
    StackUnfolds(b, starts, offset);
    assert b[..start - RESERVE] == b[..start - 3][..start - RESERVE] == c[..start - RESERVE];
    assert c[start - RESERVE] == c[..start - 3][start - RESERVE] == tag;
    assert c[start - RESERVE..start - RESERVE + |x|]
        == [c[start - RESERVE]] + c[start - 3..start - 3 + |LenBytes(|content|) + content|];
    assert [tag] + (LenBytes(|content|) + content) == x;
    StackAdd(b, c, outer, start - RESERVE, x);
  }

  lemma FirstOctet(len: nat)
    requires len < MAX_LEN && |LenBytes(len)| > 1
    ensures LenBytes(len)[0] == 0x80 + |LenBytes(len)| - 1
  {
  }

  /** The octets of the length itself, counted from the lowest. */
  lemma OctetAt(len: nat, octet: nat)
    requires len < MAX_LEN && octet < 2 && octet < |LenBytes(len)|
    requires |LenBytes(len)| > 1 ==> octet < |LenBytes(len)| - 1
    ensures LenBytes(len)[|LenBytes(len)| - 1 - octet] == len / Pow256(octet) % 256
  {
    Pow256Values();
  }

  class ASN1Writer {
    const buf: array<byte>
    var offset: nat
    const depth: array<nat> // where the contents of each open container start
    var currentDepth: nat

    ghost predicate Valid()
      reads this, depth
    {
      depth.Length == MAX_DEPTH && currentDepth <= MAX_DEPTH && offset <= buf.Length
      && ValidStarts(depth[..currentDepth], offset)
    }

    ghost function Stack(): Stack
      requires Valid()
      reads this, buf, depth
    {
      StackOf(buf[..], depth[..currentDepth], offset)
    }

    constructor (buf: array<byte>)
      ensures Valid() && this.buf == buf && fresh(depth)
      ensures Stack() == Bottom([])
    {
      this.buf, offset, currentDepth := buf, 0, 0;
      depth := new nat[MAX_DEPTH];
    }

    /** The bytes written so far, once nothing is open. */
    method AsSlice() returns (s: seq<byte>)
      requires Valid()
      ensures currentDepth == 0 ==> Stack() == Bottom(s)
    {
      return buf[..offset];
    }

    static function BytesToEncodeLen(len: nat): (r: Result<nat, Error>)
      ensures r == if len < MAX_LEN then Ok(|LenBytes(len)|) else Err(NoSpace)
    {
      if len < 128 then Ok(1)
      else if len < 256 then Ok(2)
      else if len < 65536 then Ok(3)
      else Err(NoSpace)
    }

    /** Writes the length octets at `at`, highest octet first. */
    method EncodeLen(at: nat, len: nat) returns (r: Result<nat, Error>)
      requires len < MAX_LEN ==> at + |LenBytes(len)| <= buf.Length
      modifies buf
      ensures len >= MAX_LEN ==> r == Err(NoSpace) && buf[..] == old(buf[..])
      ensures len < MAX_LEN ==>
              r == Ok(at + |LenBytes(len)|) && Replaced(old(buf[..]), buf[..], at, LenBytes(len))
    {
      var bytesOfLen := BytesToEncodeLen(len);
      if bytesOfLen.Err? {
        return Err(bytesOfLen.error);
      }
      hide LenBytes, Replaced;
      ghost var b, octets := buf[..], LenBytes(len);
      var n, atOffset := bytesOfLen.value, at;
      if n > 1 {
        buf[atOffset] := 0x80 + (n - 1);
        atOffset, n := atOffset + 1, n - 1;
        FirstOctet(len);
      }
      var octet := n - 1;
      while true
        invariant 0 <= octet < 2 && at <= atOffset && atOffset - at + octet == |octets| - 1
        invariant |octets| > 1 ==> octet < |octets| - 1
        invariant buf[at..atOffset] == octets[..atOffset - at]
        invariant buf[..at] == b[..at] && buf[atOffset..] == b[atOffset..]
        decreases octet
      {
        OctetAt(len, octet);
        buf[atOffset] := len / Pow256(octet) % 256;
        assert buf[at..atOffset + 1] == buf[at..atOffset] + [octets[atOffset - at]];
        assert buf[atOffset + 1..] == b[atOffset..][1..];
        atOffset := atOffset + 1;
        if octet == 0 {
          break;
        }
        octet := octet - 1;
      }
      ReplacedBy(b, buf[..], at, octets);
      return Ok(atOffset);
    }

    /** `append_tlv`: tag, length and contents, if there is room for all of it. */
    method AppendTlv(tag: byte, content: seq<byte>) returns (r: Outcome)
      requires Valid()
      modifies this, buf
      ensures Valid() && currentDepth == old(currentDepth) && depth[..] == old(depth[..])
      ensures After(Stack(), r) == Do(old(Stack()), buf.Length, Put(tag, content))
    {
      hide StackOf, ValidStarts, LenBytes;
      var lenBytes := BytesToEncodeLen(|content|);
      if lenBytes.Err? {
        return Fail(lenBytes.error);
      }
      var totalLen := 1 + lenBytes.value + |content|;
      if offset + totalLen > buf.Length {
        return Fail(NoSpace);
      }
      var o := offset;
      ghost var b, starts := buf[..], depth[..currentDepth];
      buf[offset] := tag;
      assert buf[..o + 1] == b[..o] + [tag];
      PutLengthAndContent(o + 1, content);
      offset := o + totalLen;
      assert depth[..currentDepth] == starts;
      assert buf[..o] == buf[..o + 1][..o] == b[..o];
      assert buf[o..offset] == [buf[..o + 1][o]] + buf[o + 1..offset] == Der.Tlv(tag, content);
      StackAdd(b, buf[..], starts, o, Der.Tlv(tag, content));
      return Pass;
    }

    /** Writes a length and as many bytes of contents at `at`. */
    method PutLengthAndContent(at: nat, content: seq<byte>)
      requires |content| < MAX_LEN && at + |LenBytes(|content|)| + |content| <= buf.Length
      modifies buf
      ensures var x := LenBytes(|content|) + content;
              buf[..at] == old(buf[..at]) && buf[at..at + |x|] == x
    {
      hide LenBytes;
      var behind := EncodeLen(at, |content|);
      ghost var c := buf[..];
      var start := behind.value;
      forall i | 0 <= i < |content| {
        buf[start + i] := content[i];
      }
      assert buf[..start] == c[..start];
      assert buf[start..start + |content|] == content;
      assert buf[..at] == buf[..start][..at] == c[..at];
      assert buf[at..start] == buf[..start][at..] == c[at..start];
    }

    /** Opens a container. The depth stack has room for one more: the call that
        fills it fails, and a client does not go on after a failure. */
    method AddCompound(tag: byte) returns (r: Outcome)
      requires Valid() && currentDepth < MAX_DEPTH
      modifies this, buf, depth
      ensures Valid()
      ensures After(Stack(), r) == Do(old(Stack()), buf.Length, Start(tag))
    {
      hide StackOf;
      if offset + RESERVE > buf.Length {
        return Fail(NoSpace);
      }
      ghost var b, starts := buf[..], depth[..currentDepth];
      buf[offset] := tag;
      StackOpen(b, buf[..], starts, offset, tag);
      offset := offset + RESERVE;
      depth[currentDepth] := offset;
      currentDepth := currentDepth + 1;
      assert depth[..currentDepth] == starts + [offset];
      return if currentDepth >= MAX_DEPTH then Fail(NoSpace) else Pass;
    }

    /** Ends the innermost container. */
    method EndCompound() returns (r: Outcome)
      requires Valid()
      modifies this, buf
      ensures Valid() && depth[..] == old(depth[..])
      ensures After(Stack(), r) == Do(old(Stack()), buf.Length, End)
    {
      hide StackOf, ValidStarts, LenBytes, Do;
      ghost var b, starts := buf[..], depth[..currentDepth];
      if currentDepth == 0 {
        EndOfNothing(Stack(), buf.Length);
        return Fail(Invalid);
      }
      StackTop(b, starts, offset);
      var start := depth[currentDepth - 1];
      var seqLen := offset - start;
      var at := PatchAndShift(start, seqLen);
      if at.Err? {
        EndOfTooMuch(Stack(), buf.Length);
        return Fail(at.error);
      }
      var shiftLen := start - at.value;
      assert depth[..currentDepth] == starts;
      StackClose(b, buf[..], starts, offset);
      currentDepth := currentDepth - 1;
      offset := offset - shiftLen;
      assert starts[..|starts| - 1] == depth[..currentDepth];
      return Pass;
    }

    /** Writes the length of the `len` bytes at `start` into the gap in front of
        them, and closes what is left of the gap; returns where they now start. */
    method PatchAndShift(start: nat, len: nat) returns (r: Result<nat, Error>)
      requires 3 <= start && start + len <= buf.Length
      modifies buf
      ensures len >= MAX_LEN ==> r == Err(NoSpace) && buf[..] == old(buf[..])
      ensures len < MAX_LEN ==>
              var x := LenBytes(len) + old(buf[start..start + len]);
              r == Ok(start - 3 + |LenBytes(len)|)
              && buf[..start - 3] == old(buf[..start - 3]) && buf[start - 3..start - 3 + |x|] == x
    {
      hide LenBytes, Replaced;
      r := EncodeLen(start - 3, len);
      if r.Err? {
        return;
      }
      var to := r.value;
      ghost var b, c := old(buf[..]), buf[..];
      ShiftLeft(to, start - to, len);
      ghost var d := buf[..];
      assert d[..to] == buf[..to] == c[..to] && d[to..to + len] == buf[to..to + len] == c[start..start + len];
      PatchedAndShifted(b, c, d, start - 3, LenBytes(len), start, len);
      assert buf[..start - 3] == d[..start - 3] && buf[start - 3..to + len] == d[start - 3..to + len];
    }

    /** Moves `len` bytes to the left by `shift`, one by one from the front. */
    method ShiftLeft(to: nat, shift: nat, len: nat)
      requires to + shift + len <= buf.Length
      modifies buf
      ensures buf[..to] == old(buf[..to]) && buf[to..to + len] == old(buf[to + shift..to + shift + len])
    {
      if shift > 0 {
        for i := 0 to len
          invariant forall j :: 0 <= j < buf.Length ==>
                      buf[j] == old(buf[if to <= j < to + i then j + shift else j])
        {
          buf[to + i] := buf[to + i + shift];
        }
        ghost var now, was := buf[to..to + len], old(buf[to + shift..to + shift + len]);
        forall j | 0 <= j < len
          ensures now[j] == was[j]
        {
          assert now[j] == buf[to + j];
        }
        assert now == was;
      }
    }
  }
}

/**
 The byte buffer every encoder of the stack writes to: the valid bytes lie
 between `start` and `end`, with room to prepend in front and append behind.
 */
module WriteBufs {
  import opened Bytes

  /** `after` is `before` with `bytes` appended when they fit in `room`, and with
      a proper prefix of them when they do not: a write of several parts stops at
      the first part that does not fit. */
  ghost predicate Appended(before: seq<byte>, after: seq<byte>, bytes: seq<byte>, room: nat, r: Outcome) {
    if |bytes| <= room then r == Pass && after == before + bytes
    else r == Fail(NoSpace) && before <= after && after < before + bytes
  }

  lemma AppendedThen(a: seq<byte>, b: seq<byte>, c: seq<byte>, x: seq<byte>, y: seq<byte>, room: nat, r: Outcome)
    requires |x| <= room && Appended(a, b, x, room, Pass) && Appended(b, c, y, room - |x|, r)
    ensures Appended(a, c, x + y, room, r)
  {
    assert a + x + y == a + (x + y);
  }

  lemma AppendedCut(a: seq<byte>, b: seq<byte>, x: seq<byte>, y: seq<byte>, room: nat, r: Outcome)
    requires r.Fail? && Appended(a, b, x, room, r)
    ensures Appended(a, b, x + y, room, r)
  {
    assert a + x + y == a + (x + y);
  }

  lemma NothingAppended(c: seq<byte>, room: nat)
    ensures Appended(c, c, [], room, Pass)
  {
    assert c + [] == c;
  }

  lemma RoomAfter(a: seq<byte>, b: seq<byte>, x: seq<byte>, room: nat)
    requires Appended(a, b, x, room, Pass)
    ensures |x| <= room && |b| == |a| + |x|
  {
  }

  lemma SliceAppended(b: seq<byte>, c: seq<byte>, start: nat, end: nat, src: seq<byte>)
    requires start <= end && end + |src| <= |b| && c == b[..end] + src + b[end + |src|..]
    ensures c[start..end + |src|] == b[start..end] + src
    ensures c[..start] == b[..start] && c[end + |src|..] == b[end + |src|..]
  {
  }

  class WriteBuf {
    const buf: array<byte>
    const limit: nat // the length the buffer was created with; the bytes behind it are not its own
    var start: nat
    var end: nat

    ghost predicate Valid()
      reads this
    {
      start <= end <= limit <= buf.Length
    }

    ghost function Contents(): seq<byte>
      requires Valid()
      reads this, buf
    {
      buf[start..end]
    }

    ghost function Room(): nat
      requires Valid()
      reads this
    {
      limit - end
    }

    constructor (buf: array<byte>, len: nat)
      requires len <= buf.Length
      ensures Valid() && this.buf == buf && limit == len
      ensures start == 0 && end == 0
    {
      this.buf, limit, start, end := buf, len, 0, 0;
    }

    /** Nothing checks that the space is there: asked for more than the buffer has, the
        method passes and leaves a buffer that nothing can be appended to or read from. */
    method Reserve(reserve: nat) returns (r: Outcome)
      requires Valid()
      modifies this
      ensures Valid() <==> r.Fail? || reserve <= limit
      ensures r == if old(end) != 0 || old(start) != 0 then Fail(Invalid) else Pass
      ensures r.Pass? ==> start == end == reserve && (reserve <= limit ==> Contents() == [])
      ensures r.Fail? ==> start == old(start) && end == old(end)
    {
      if end != 0 || start != 0 {
        return Fail(Invalid);
      }
      start, end := reserve, reserve;
      return Pass;
    }

    method Prepend(src: seq<byte>) returns (r: Outcome)
      requires Valid()
      modifies this, buf
      ensures Valid() && end == old(end)
      ensures r == if |src| <= old(start) then Pass else Fail(NoSpace)
      ensures r.Pass? ==> Contents() == src + old(Contents()) && start == old(start) - |src|
      ensures r.Fail? ==> Contents() == old(Contents()) && start == old(start)
    {
      if |src| > start {
        return Fail(NoSpace);
      }
      start := start - |src|;
      forall i | 0 <= i < |src| {
        buf[start + i] := src[i];
      }
      assert buf[start..start + |src|] == src;
      assert buf[start + |src|..end] == old(buf[start..end]);
      assert buf[start..end] == buf[start..start + |src|] + buf[start + |src|..end];
      return Pass;
    }

    method Append(src: seq<byte>) returns (r: Outcome)
      requires Valid()
      modifies this, buf
      ensures Valid() && start == old(start)
      ensures Appended(old(Contents()), Contents(), src, old(Room()), r)
      ensures r.Fail? ==> Contents() == old(Contents())
      ensures end >= old(end) && buf[..start] == old(buf[..start]) && buf[end..] == old(buf[..])[end..]
    {
      if end + |src| > limit {
        assert Contents() < Contents() + src;
        return Fail(NoSpace);
      }
      ghost var b := buf[..];
      forall i | 0 <= i < |src| {
        buf[end + i] := src[i];
      }
      assert buf[..] == b[..end] + src + b[end + |src|..];
      SliceAppended(b, buf[..], start, end, src);
      end := end + |src|;
      assert Contents() == buf[..][start..end];
      return Pass;
    }

    method LeU8(data: byte) returns (r: Outcome)
      requires Valid()
      modifies this, buf
      ensures Valid() && start == old(start)
      ensures Appended(old(Contents()), Contents(), Le(data, 1), old(Room()), r)
      ensures end >= old(end) && buf[..start] == old(buf[..start]) && buf[end..] == old(buf[..])[end..]
    {
      assert Le(data / 256, 0) == [];
      assert Le(data, 1) == [data];
      r := Append([data]);
    }

    /** `le_u16`, `le_u32`, `le_u64` and `le_uint`: the low `nbytes` bytes. */
    method LeUint(nbytes: nat, data: nat) returns (r: Outcome)
      requires Valid()
      modifies this, buf
      ensures Valid() && start == old(start)
      ensures Appended(old(Contents()), Contents(), Le(data, nbytes), old(Room()), r)
      ensures end >= old(end) && buf[..start] == old(buf[..start]) && buf[end..] == old(buf[..])[end..]
    {
      r := Append(Le(data, nbytes));
    }
  }
}

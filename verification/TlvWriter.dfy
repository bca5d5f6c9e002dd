/**
 The TLV writer. Every method appends to the shared write buffer, part by part,
 and stops at the first part that does not fit.
 */
module TlvWriter {
  import opened Bytes
  import opened Tlv
  import opened TlvParser
  import opened WriteBufs

  /** The narrowest width an unsigned integer is written in. */
  function MinWidth(u: nat): (k: nat)
    requires u < Pow256(8)
    ensures k < 4 && UInt(k, u).Valid()
  {
    Pow256Values();
    if u <= 0xff then 0 else if u <= 0xffff then 1 else if u <= 0xffff_ffff then 2 else 3
  }

  /** No narrower width holds the integer. */
  lemma MinWidthIsLeast(u: nat, k: nat)
    requires u < Pow256(8) && k < MinWidth(u)
    ensures !UInt(k, u).Valid()
  {
    Pow256Values();
  }

  /** What `str8` and `utf8` put on the wire: the length is cut to one byte. */
  function ShortBytes(tag: Tag, code: nat, data: seq<byte>): seq<byte>
    requires code < 32
  {
    Header(tag, code) + Le(|data| % 0x100, 1) + data
  }

  /** What `str16` and `utf16` put on the wire: the length is cut to two bytes. */
  function LongBytes(tag: Tag, code: nat, data: seq<byte>): seq<byte>
    requires code < 31
  {
    if |data| <= 0xff then ShortBytes(tag, code, data)
    else Header(tag, code + 1) + Le(|data| % 0x1_0000, 2) + data
  }

  /** The element a string written by `str16` (code 16) or `utf16` (code 12) should be. */
  function StringElement(code: nat, data: seq<byte>): ElementType
    requires code == 12 || code == 16
  {
    var n := if |data| <= 0xff then 1 else 2;
    if code == 12 then Utf(n, data) else Str(n, data)
  }

  /** `str16` and `utf16` write the token of their string exactly when it is at
      most 65535 bytes long; behind that length the reader gets another string. */
  lemma LongStringIffShortEnough(tag: Tag, code: nat, data: seq<byte>, rest: seq<byte>)
    requires tag.Valid() && (code == 12 || code == 16)
    ensures |data| <= 0xffff <==>
            ReadElement(LongBytes(tag, code, data) + rest).elem == Some(Element(tag, StringElement(code, data)))
    ensures |data| <= 0xffff ==>
            StringElement(code, data).Valid() && LongBytes(tag, code, data) == TokenBytes(tag, StringElement(code, data))
  {
    hide ReadElement, Header;
    Pow256Values();
    if |data| <= 0xffff {
      StringToken(tag, code, data);
      ReadOfToken(tag, StringElement(code, data), rest);
    } else {
      TruncatedRead(tag, code + 1, 2, |data| % 0x1_0000, data, rest);
    }
  }

  lemma StringToken(tag: Tag, code: nat, data: seq<byte>)
    requires (code == 12 || code == 16) && |data| <= 0xffff
    ensures StringElement(code, data).Valid() && LongBytes(tag, code, data) == TokenBytes(tag, StringElement(code, data))
  {
    Pow256Values();
    var n := if |data| <= 0xff then 1 else 2;
    assert Header(tag, code + n - 1) + Le(|data|, n) + data == Header(tag, code + n - 1) + (Le(|data|, n) + data);
  }

  /** A cut length makes the reader stop early: it returns only the first `len` bytes. */
  lemma TruncatedRead(tag: Tag, code: nat, n: nat, len: nat, data: seq<byte>, rest: seq<byte>)
    requires tag.Valid() && 1 <= n <= 2 && (code == 11 + n || code == 15 + n)
    requires len < Pow256(n) && len <= |data|
    ensures var str := data[..len];
            ReadElement(Header(tag, code) + Le(len, n) + data + rest).elem
            == Some(Element(tag, if code == 11 + n then Utf(n, str) else Str(n, str)))
  {
    hide ReadElement, Header;
    var str := data[..len];
    var val := if code == 11 + n then Utf(n, str) else Str(n, str);
    assert val.Code() == code && val.Payload() == Le(len, n) + str;
    var tail := data[len..] + rest;
    assert data == str + data[len..];
    assert Header(tag, code) + Le(len, n) + data + rest == Header(tag, code) + (Le(len, n) + str) + tail;
    ReadOfToken(tag, val, tail);
  }

  /** `str8` accepts 256 bytes but its length byte then says 0: the reader gets an
      empty string, and the 256 bytes are read as elements of their own. */
  lemma Str8IffBelow256(tag: Tag, data: seq<byte>, rest: seq<byte>)
    requires tag.Valid() && |data| <= 256
    ensures |data| < 256 <==>
            ReadElement(ShortBytes(tag, 16, data) + rest).elem == Some(Element(tag, Str(1, data)))
    ensures |data| == 256 ==>
            ReadElement(ShortBytes(tag, 16, data) + rest).elem == Some(Element(tag, Str(1, [])))
  {
    hide ReadElement, Header;
    Pow256Values();
    TruncatedRead(tag, 16, 1, |data| % 0x100, data, rest);
    if |data| < 256 {
      assert data[..|data|] == data;
    }
  }

  /** What a generator passed to `str16_as` leaves in the slice it is given, and
      the length it reports; an error counts as length 0. */
  datatype Generated = Generated(slice: seq<byte>, len: Result<nat, Error>)
  {
    function Len(): nat {
      if len.Ok? then len.value else 0
    }
  }

  /** The generator leaves the slice as long as it was and reports no more than that. */
  ghost predicate FillsItsSlice(gen: seq<byte> -> Generated) {
    forall s :: |gen(s).slice| == |s| && gen(s).Len() <= |s|
  }

  lemma FillsAt(gen: seq<byte> -> Generated, s: seq<byte>)
    requires FillsItsSlice(gen)
    ensures |gen(s).slice| == |s| && gen(s).Len() <= |s|
  {
  }

  /** The string the generator makes of the free space `s`. */
  ghost function Output(gen: seq<byte> -> Generated, s: seq<byte>): seq<byte>
    requires FillsItsSlice(gen)
  {
    gen(s).slice[..gen(s).Len()]
  }

  class TLVWriter {
    const wb: WriteBuf

    constructor (wb: WriteBuf)
      ensures this.wb == wb
    {
      this.wb := wb;
    }

    method PutControlTag(tag: Tag, code: nat) returns (r: Outcome)
      requires wb.Valid() && tag.Valid() && code < 25
      modifies wb, wb.buf
      ensures wb.Valid() && wb.start == old(wb.start)
      ensures Appended(old(wb.Contents()), wb.Contents(), Header(tag, code), old(wb.Room()), r)
      ensures wb.end >= old(wb.end) && wb.buf[wb.end..] == old(wb.buf[..])[wb.end..]
    {
      ghost var c0 := wb.Contents();
      ghost var control := [tag.Code() * 32 + code];
      assert Le(tag.Code() * 32 + code, 1) == control by {
        assert Le((tag.Code() * 32 + code) / 256, 0) == [];
      }
      r := wb.LeU8(tag.Code() * 32 + code);
      if r.Fail? {
        AppendedCut(c0, wb.Contents(), control, Le(tag.Number(), TagSize(tag.Code())), old(wb.Room()), r);
        return r;
      }
      if !tag.Anonymous? {
        ghost var c1 := wb.Contents();
        r := wb.LeUint(TagSize(tag.Code()), tag.Number());
        AppendedThen(c0, c1, wb.Contents(), control, Le(tag.Number(), TagSize(tag.Code())), old(wb.Room()), r);
      } else {
        assert Header(tag, code) == control;
      }
    }

    /** The common shape of the integer methods: a header and a fixed-width value. */
    method PutUint(tag: Tag, code: nat, nbytes: nat, data: nat) returns (r: Outcome)
      requires wb.Valid() && tag.Valid() && code < 25
      modifies wb, wb.buf
      ensures wb.Valid() && wb.start == old(wb.start)
      ensures Appended(old(wb.Contents()), wb.Contents(), Header(tag, code) + Le(data, nbytes), old(wb.Room()), r)
      ensures wb.end >= old(wb.end) && wb.buf[wb.end..] == old(wb.buf[..])[wb.end..]
    {
      ghost var c0, b0 := wb.Contents(), wb.buf[..];
      r := PutControlTag(tag, code);
      if r.Fail? {
        AppendedCut(c0, wb.Contents(), Header(tag, code), Le(data, nbytes), old(wb.Room()), r);
        return r;
      }
      ghost var c1, b1, e1 := wb.Contents(), wb.buf[..], wb.end;
      r := wb.LeUint(nbytes, data);
      AppendedThen(c0, c1, wb.Contents(), Header(tag, code), Le(data, nbytes), old(wb.Room()), r);
      SuffixOf(b0, b1, e1, wb.end);
    }

    method I8(tag: Tag, data: int) returns (r: Outcome)
      requires wb.Valid() && tag.Valid() && SInt(0, data).Valid()
      modifies wb, wb.buf
      ensures wb.Valid() && wb.start == old(wb.start)
      ensures Appended(old(wb.Contents()), wb.Contents(), TokenBytes(tag, SInt(0, data)), old(wb.Room()), r)
    {
      Pow256Values();
      r := PutUint(tag, 0, 1, if data < 0 then data + 256 else data);
    }

    method U8(tag: Tag, data: nat) returns (r: Outcome)
      requires wb.Valid() && tag.Valid() && data < 0x100
      modifies wb, wb.buf
      ensures wb.Valid() && wb.start == old(wb.start)
      ensures UInt(0, data).Valid()
      ensures Appended(old(wb.Contents()), wb.Contents(), TokenBytes(tag, UInt(0, data)), old(wb.Room()), r)
    {
      Pow256Values();
      r := PutUint(tag, 4, 1, data);
    }

    method U16(tag: Tag, data: nat) returns (r: Outcome)
      requires wb.Valid() && tag.Valid() && data < 0x1_0000
      modifies wb, wb.buf
      ensures wb.Valid() && wb.start == old(wb.start)
      ensures data < Pow256(8)
      ensures Appended(old(wb.Contents()), wb.Contents(), TokenBytes(tag, UInt(MinWidth(data), data)), old(wb.Room()), r)
    {
      Pow256Values();
      if data <= 0xff {
        r := U8(tag, data);
      } else {
        r := PutUint(tag, 5, 2, data);
      }
    }

    method U32(tag: Tag, data: nat) returns (r: Outcome)
      requires wb.Valid() && tag.Valid() && data < 0x1_0000_0000
      modifies wb, wb.buf
      ensures wb.Valid() && wb.start == old(wb.start)
      ensures data < Pow256(8)
      ensures Appended(old(wb.Contents()), wb.Contents(), TokenBytes(tag, UInt(MinWidth(data), data)), old(wb.Room()), r)
    {
      Pow256Values();
      if data <= 0xff {
        r := U8(tag, data);
      } else if data <= 0xffff {
        r := U16(tag, data);
      } else {
        r := PutUint(tag, 6, 4, data);
      }
    }

    method U64(tag: Tag, data: nat) returns (r: Outcome)
      requires wb.Valid() && tag.Valid() && data < Pow256(8)
      modifies wb, wb.buf
      ensures wb.Valid() && wb.start == old(wb.start)
      ensures Appended(old(wb.Contents()), wb.Contents(), TokenBytes(tag, UInt(MinWidth(data), data)), old(wb.Room()), r)
    {
      Pow256Values();
      if data <= 0xff {
        r := U8(tag, data);
      } else if data <= 0xffff {
        r := U16(tag, data);
      } else if data <= 0xffff_ffff {
        r := U32(tag, data);
      } else {
        r := PutUint(tag, 7, 8, data);
      }
    }

    /** The common shape of the string methods: header, length field, bytes. */
    method PutString(tag: Tag, code: nat, n: nat, len: nat, data: seq<byte>) returns (r: Outcome)
      requires wb.Valid() && tag.Valid() && code < 25
      modifies wb, wb.buf
      ensures wb.Valid() && wb.start == old(wb.start)
      ensures Appended(old(wb.Contents()), wb.Contents(), Header(tag, code) + Le(len, n) + data, old(wb.Room()), r)
    {
      ghost var c0 := wb.Contents();
      ghost var front := Header(tag, code) + Le(len, n);
      r := PutUint(tag, code, n, len);
      if r.Fail? {
        AppendedCut(c0, wb.Contents(), front, data, old(wb.Room()), r);
        return r;
      }
      ghost var c1 := wb.Contents();
      r := wb.Append(data);
      AppendedThen(c0, c1, wb.Contents(), front, data, old(wb.Room()), r);
    }

    method Str8(tag: Tag, data: seq<byte>) returns (r: Outcome)
      requires wb.Valid() && tag.Valid()
      modifies wb, wb.buf
      ensures wb.Valid() && wb.start == old(wb.start)
      ensures |data| > 256 ==> r == Fail(Invalid) && wb.Contents() == old(wb.Contents())
      ensures |data| <= 256 ==>
              Appended(old(wb.Contents()), wb.Contents(), ShortBytes(tag, 16, data), old(wb.Room()), r)
    {
      if |data| > 256 {
        return Fail(Invalid);
      }
      r := PutString(tag, 16, 1, |data| % 0x100, data);
    }

    method Str16(tag: Tag, data: seq<byte>) returns (r: Outcome)
      requires wb.Valid() && tag.Valid()
      modifies wb, wb.buf
      ensures wb.Valid() && wb.start == old(wb.start)
      ensures Appended(old(wb.Contents()), wb.Contents(), LongBytes(tag, 16, data), old(wb.Room()), r)
    {
      if |data| <= 0xff {
        r := Str8(tag, data);
      } else {
        r := PutString(tag, 17, 2, |data| % 0x1_0000, data);
      }
    }

    method Utf8(tag: Tag, data: seq<byte>) returns (r: Outcome)
      requires wb.Valid() && tag.Valid()
      modifies wb, wb.buf
      ensures wb.Valid() && wb.start == old(wb.start)
      ensures Appended(old(wb.Contents()), wb.Contents(), ShortBytes(tag, 12, data), old(wb.Room()), r)
    {
      r := PutString(tag, 12, 1, |data| % 0x100, data);
    }

    method Utf16(tag: Tag, data: seq<byte>) returns (r: Outcome)
      requires wb.Valid() && tag.Valid()
      modifies wb, wb.buf
      ensures wb.Valid() && wb.start == old(wb.start)
      ensures Appended(old(wb.Contents()), wb.Contents(), LongBytes(tag, 12, data), old(wb.Room()), r)
    {
      if |data| <= 0xff {
        r := Utf8(tag, data);
      } else {
        r := PutString(tag, 13, 2, |data| % 0x1_0000, data);
      }
    }

    /** The element without a value, `EndCnt` and the container starts included. */
    method NoVal(tag: Tag, val: ElementType) returns (r: Outcome)
      requires wb.Valid() && tag.Valid() && val.Valid() && val.Payload() == []
      modifies wb, wb.buf
      ensures wb.Valid() && wb.start == old(wb.start)
      ensures Appended(old(wb.Contents()), wb.Contents(), TokenBytes(tag, val), old(wb.Room()), r)
    {
      assert TokenBytes(tag, val) == Header(tag, val.Code());
      r := PutControlTag(tag, val.Code());
    }

    method StartContainer(tag: Tag, kind: Kind) returns (r: Outcome)
      requires wb.Valid() && tag.Valid()
      modifies wb, wb.buf
      ensures wb.Valid() && wb.start == old(wb.start)
      ensures Appended(old(wb.Contents()), wb.Contents(), TokenBytes(tag, Container(kind, [])), old(wb.Room()), r)
    {
      r := NoVal(tag, Container(kind, []));
    }

    method EndContainer() returns (r: Outcome)
      requires wb.Valid()
      modifies wb, wb.buf
      ensures wb.Valid() && wb.start == old(wb.start)
      ensures Appended(old(wb.Contents()), wb.Contents(), END, old(wb.Room()), r)
    {
      EndToken();
      r := NoVal(Anonymous, EndCnt);
    }

    /** Writes the string body first, behind room for the header and a two-byte
        length, and moves it one byte to the left when its length needs one byte.
        The generator must be given at least two free bytes and report no more
        than it was given. What is left is what `Str16` leaves for that string. */
    method Str16As(tag: Tag, gen: seq<byte> -> Generated) returns (r: Outcome)
      requires wb.Valid() && tag.Valid()
      requires |Header(tag, 17)| <= wb.Room() ==> |Header(tag, 17)| + 2 <= wb.Room()
      requires FillsItsSlice(gen)
      modifies wb, wb.buf
      ensures wb.Valid() && wb.start == old(wb.start)
      ensures |Header(tag, 17)| > old(wb.Room()) ==>
              Appended(old(wb.Contents()), wb.Contents(), Header(tag, 17), old(wb.Room()), r)
      ensures |Header(tag, 17)| <= old(wb.Room()) ==>
              var free := old(wb.buf[..])[old(wb.end) + |Header(tag, 17)| + 2..wb.limit];
              r == Pass && wb.Contents() == old(wb.Contents()) + LongBytes(tag, 16, Output(gen, free))
    {
      hide Header, LongBytes, FillsItsSlice, Output;
      ghost var before, c0, base := wb.buf[..], wb.Contents(), wb.end + |Header(tag, 17)|;
      r := PutControlTag(tag, 17);
      if r.Fail? {
        return;
      }
      ghost var after := wb.buf[..];
      SliceOf(after, before, base, base + 2, wb.limit);
      assert wb.buf[wb.end + 2..wb.limit] == after[base + 2..wb.limit];
      r := FillAndPlace(tag, gen, c0);
    }

    /** Lets the generator fill the space behind a two-byte gap, and puts the
        length, and the header it calls for, in front of what it wrote. */
    method FillAndPlace(tag: Tag, gen: seq<byte> -> Generated, ghost front: seq<byte>) returns (r: Outcome)
      requires wb.Valid() && tag.Valid() && wb.Room() >= 2
      requires wb.Contents() == front + Header(tag, 17)
      requires FillsItsSlice(gen)
      modifies wb, wb.buf
      ensures wb.Valid() && wb.start == old(wb.start) && r == Pass
      ensures wb.Contents() == front + LongBytes(tag, 16, Output(gen, old(wb.buf[wb.end + 2..wb.limit])))
    {
      hide Header, LongBytes, FillsItsSlice;
      ghost var out := gen(wb.buf[wb.end + 2..wb.limit]);
      FillsAt(gen, wb.buf[wb.end + 2..wb.limit]);
      var len := Generate(gen);
      assert wb.buf[wb.end + 2..wb.end + 2 + len] == out.slice[..len];
      r := Place(tag, len, front);
    }

    /** Puts the length, and the header it calls for, in front of the body. */
    method Place(tag: Tag, len: nat, ghost front: seq<byte>) returns (r: Outcome)
      requires wb.Valid() && tag.Valid()
      requires wb.Contents() == front + Header(tag, 17) && wb.end + 2 + len <= wb.limit
      modifies wb, wb.buf
      ensures wb.Valid() && wb.start == old(wb.start) && r == Pass
      ensures wb.Contents() == front + LongBytes(tag, 16, old(wb.buf[wb.end + 2..wb.end + 2 + len]))
    {
      hide Header;
      ghost var body := wb.buf[wb.end + 2..wb.end + 2 + len];
      if len <= 0xff {
        r := RewriteShort(tag, wb.end - (1 + TagSize(tag.Code())), len, front);
      } else {
        r := FinishLong(len);
        assert front + Header(tag, 17) + Le(len % 0x1_0000, 2) + body == front + LongBytes(tag, 16, body);
      }
    }

    /** Lets the generator fill the free space behind a two-byte gap. */
    method Generate(gen: seq<byte> -> Generated) returns (len: nat)
      requires wb.Valid() && wb.Room() >= 2
      requires FillsItsSlice(gen)
      modifies wb.buf
      ensures var out := gen(old(wb.buf[wb.end + 2..wb.limit]));
              len == out.Len() && wb.buf[wb.end + 2..wb.limit] == out.slice
      ensures wb.Contents() == old(wb.Contents())
    {
      hide FillsItsSlice;
      var out := gen(wb.buf[wb.end + 2..wb.limit]);
      FillsAt(gen, wb.buf[wb.end + 2..wb.limit]);
      forall i | 0 <= i < |out.slice| {
        wb.buf[wb.end + 2 + i] := out.slice[i];
      }
      len := out.Len();
    }

    /** The long form: the gap takes the length, and the body stays. */
    method FinishLong(len: nat) returns (r: Outcome)
      requires wb.Valid() && wb.end + 2 + len <= wb.limit
      modifies wb, wb.buf
      ensures wb.Valid() && wb.start == old(wb.start) && r == Pass
      ensures wb.Contents() == old(wb.Contents()) + Le(len % 0x1_0000, 2) + old(wb.buf[wb.end + 2..wb.end + 2 + len])
    {
      ghost var before, base := wb.buf[..], wb.end;
      r := wb.LeUint(2, len % 0x1_0000);
      assert wb.buf[wb.end..wb.end + len] == before[base + 2..base + 2 + len] by {
        assert wb.buf[wb.end..][..len] == before[wb.end..][..len];
      }
      ForwardTail(len);
    }

    /** The short form: the body moves one to the left, and the header, now for a
        one-byte length, is written again. */
    method RewriteShort(tag: Tag, anchor: nat, len: nat, ghost front: seq<byte>) returns (r: Outcome)
      requires wb.Valid() && tag.Valid() && len <= 0xff
      requires wb.Contents() == front + Header(tag, 17) && anchor == wb.start + |front|
      requires wb.end + 2 + len <= wb.limit
      modifies wb, wb.buf
      ensures wb.Valid() && wb.start == old(wb.start) && r == Pass
      ensures wb.Contents() == front + ShortBytes(tag, 16, old(wb.buf[wb.end + 2..wb.end + 2 + len]))
    {
      hide Header, ShortBytes;
      SameHeaderSize(tag, 16, 17);
      ghost var body := wb.buf[wb.end + 2..wb.end + 2 + len];
      ShiftLeft(wb.end, len);
      DropHeader(tag, anchor, front);
      assert wb.buf[wb.end + |Header(tag, 16)| + 1..wb.end + |Header(tag, 16)| + 1 + len] == body;
      r := PutShort(tag, len);
    }

    /** Takes the header that was written last back out of the valid bytes. */
    method DropHeader(tag: Tag, anchor: nat, ghost front: seq<byte>)
      requires wb.Valid() && wb.Contents() == front + Header(tag, 17) && anchor == wb.start + |front|
      modifies wb`end
      ensures wb.Valid() && wb.end == anchor && wb.Contents() == front
    {
      hide Header;
      PrefixSplit(front, Header(tag, 17));
      wb.end := anchor;
      assert wb.Contents() == old(wb.Contents())[..|front|];
    }

    /** Writes the header and the one-byte length right in front of the body. */
    method PutShort(tag: Tag, len: nat) returns (r: Outcome)
      requires wb.Valid() && tag.Valid() && len <= 0xff
      requires |Header(tag, 16)| + 1 + len <= wb.Room()
      modifies wb, wb.buf
      ensures wb.Valid() && wb.start == old(wb.start) && r == Pass
      ensures wb.Contents() == old(wb.Contents()) + ShortBytes(tag, 16,
                old(wb.buf[wb.end + |Header(tag, 16)| + 1..wb.end + |Header(tag, 16)| + 1 + len]))
    {
      hide Header;
      ghost var before, c0 := wb.buf[..], wb.Contents();
      ghost var base := wb.end + |Header(tag, 16)| + 1;
      ghost var body := before[base..base + len];
      r := PutUint(tag, 16, 1, len);
      assert wb.end == base;
      ghost var after := wb.buf[..];
      SliceOf(after, before, base, base, base + len);
      assert wb.buf[base..base + len] == after[base..base + len];
      ForwardTail(len);
      assert c0 + (Header(tag, 16) + Le(len, 1)) + body == c0 + ShortBytes(tag, 16, body);
    }

    /** Moves the `len` bytes at `base + 2` one to the left. */
    method ShiftLeft(base: nat, len: nat)
      requires wb.Valid() && wb.end <= base && base + 2 + len <= wb.limit
      modifies wb.buf
      ensures wb.Valid() && wb.Contents() == old(wb.Contents())
      ensures wb.buf[base + 1..base + 1 + len] == old(wb.buf[base + 2..base + 2 + len])
    {
      for i := 0 to len
        invariant wb.Contents() == old(wb.Contents())
        invariant forall j :: 0 <= j < wb.buf.Length ==>
                    wb.buf[j] == old(wb.buf[if base < j <= base + i then j + 1 else j])
      {
        wb.buf[base + 1 + i] := wb.buf[base + 2 + i];
      }
      ghost var now, was := wb.buf[base + 1..base + 1 + len], old(wb.buf[base + 2..base + 2 + len]);
      forall j | 0 <= j < len
        ensures now[j] == was[j]
      {
        assert now[j] == wb.buf[base + 1 + j];
      }
    }

    /** Takes the `len` bytes behind the tail into the valid bytes. */
    method ForwardTail(len: nat)
      requires wb.Valid() && len <= wb.Room()
      modifies wb`end
      ensures wb.Valid() && wb.end == old(wb.end) + len
      ensures wb.Contents() == old(wb.Contents()) + old(wb.buf[wb.end..wb.end + len])
    {
      wb.end := wb.end + len;
    }
  }

  lemma SuffixOf(a: seq<byte>, b: seq<byte>, i: nat, j: nat)
    requires i <= j <= |a| == |b| && a[i..] == b[i..]
    ensures a[j..] == b[j..]
  {
    forall x | j <= x < |a|
      ensures a[x] == b[x]
    {
      assert a[x] == a[i..][x - i] && b[x] == b[i..][x - i];
    }
  }

  lemma SliceOf(a: seq<byte>, b: seq<byte>, i: nat, j: nat, k: nat)
    requires i <= j <= k <= |a| == |b| && a[i..] == b[i..]
    ensures a[j..k] == b[j..k]
  {
    forall x | j <= x < k
      ensures a[x] == b[x]
    {
      assert a[x] == a[i..][x - i] && b[x] == b[i..][x - i];
    }
  }

  lemma SameHeaderSize(tag: Tag, c: nat, d: nat)
    requires c < 32 && d < 32
    ensures |Header(tag, c)| == |Header(tag, d)|
  {
  }
}

/**
 Bytes, little-endian integers and the result types shared by every module.
 */
module Bytes {
  type byte = b: int | 0 <= b < 256

  datatype Option<+T> = None | Some(value: T)

  datatype Result<+T, +E> = Ok(value: T) | Err(error: E)

  /** A result without a value; `:-` returns the failure to the caller, as the
      source's `?` does. */
  datatype Outcome = Pass | Fail(error: Error) {
    predicate IsFailure() {
      Fail?
    }

    function PropagateFailure(): Outcome
      requires Fail?
    {
      this
    }
  }

  /** The cases of the source's `Error` that the modelled code can return. */
  datatype Error =
    | NoSpace | Invalid | InvalidData | NotFound | NoTagFound | NoExchange | NoSession
    | NoNetworkInterface | TLVNotFound | TLVTypeMismatch | AttributeNotFound
    | Environment(code: nat) // an error handed back by code outside this model
    | Panic                  // no error: the source stops with a panic

  /** The first index whose element satisfies `p`. */
  function Position<T>(s: seq<T>, p: T -> bool): (r: Option<nat>)
    ensures r.Some? ==> r.value < |s| && p(s[r.value]) && forall i :: 0 <= i < r.value ==> !p(s[i])
    ensures r.None? ==> forall i :: 0 <= i < |s| ==> !p(s[i])
  {
    if s == [] then None
    else if p(s[0]) then Some(0)
    else
      match Position(s[1..], p)
      case None => assert forall i :: 1 <= i < |s| ==> s[i] == s[1..][i - 1]; None
      case Some(i) =>
        assert forall j :: 1 <= j < |s| ==> s[j] == s[1..][j - 1];
        Some(i + 1)
  }

  /** 256 to the power `w`: the number of values of a `w`-byte field. */
  function Pow256(w: nat): (p: nat)
    ensures p >= 1
  {
    if w == 0 then 1 else 256 * Pow256(w - 1)
  }

  lemma Pow256Values()
    ensures Pow256(0) == 1 && Pow256(1) == 0x100 && Pow256(2) == 0x1_0000
    ensures Pow256(3) == 0x100_0000 && Pow256(4) == 0x1_0000_0000
    ensures Pow256(5) == 0x100_0000_0000 && Pow256(6) == 0x1_0000_0000_0000
    ensures Pow256(7) == 0x100_0000_0000_0000 && Pow256(8) == 0x1_0000_0000_0000_0000
  {
  }

  /** The low `w` bytes of `v`, least significant first. */
  function Le(v: nat, w: nat): (s: seq<byte>)
    ensures |s| == w
  {
    if w == 0 then [] else [v % 256] + Le(v / 256, w - 1)
  }

  function LeVal(s: seq<byte>): (v: nat)
    ensures v < Pow256(|s|)
  {
    if |s| == 0 then 0 else s[0] + 256 * LeVal(s[1..])
  }

  lemma {:induction false} LeValOfLe(v: nat, w: nat)
    requires v < Pow256(w)
    ensures LeVal(Le(v, w)) == v
  {
    if w > 0 {
      LeValOfLe(v / 256, w - 1);
      assert Le(v, w)[1..] == Le(v / 256, w - 1);
    }
  }

  lemma {:induction false} LeOfLeVal(s: seq<byte>)
    ensures Le(LeVal(s), |s|) == s
  {
    if |s| > 0 {
      LeOfLeVal(s[1..]);
      assert LeVal(s) / 256 == LeVal(s[1..]) && LeVal(s) % 256 == s[0];
      assert s == [s[0]] + s[1..];
    }
  }

  /** `a <= b` for sequences, with the rest named: `b` is `a` followed by `rest`. */
  lemma PrefixSplit<T>(a: seq<T>, rest: seq<T>)
    ensures (a + rest)[..|a|] == a && (a + rest)[|a|..] == rest
  {
  }
}

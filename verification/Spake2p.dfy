/**
 The shared values of SPAKE2+ (section 3.3 of RFC 9383) over any abelian group
 annihilated by its scalar order, as the two crypto back ends compute them.
 */
module Groups {
  datatype Group<!G> = Group(add: (G, G) -> G, neg: G -> G, zero: G, order: nat, generator: G)

  ghost predicate Lawful<G(!new)>(g: Group<G>) {
    Abelian(g) && g.order > 0 && forall p :: Mul(g, g.order, p) == g.zero
  }

  ghost predicate Abelian<G(!new)>(g: Group<G>) {
    && (forall p, q, r :: g.add(g.add(p, q), r) == g.add(p, g.add(q, r)))
    && (forall p, q :: g.add(p, q) == g.add(q, p))
    && (forall p :: g.add(p, g.zero) == p)
    && (forall p :: g.add(p, g.neg(p)) == g.zero)
  }

  /** The sum of `n` copies of `p`. */
  function Mul<G>(g: Group<G>, n: nat, p: G): G {
    if n == 0 then g.zero else g.add(p, Mul(g, n - 1, p))
  }

  function Sub<G>(g: Group<G>, p: G, q: G): G {
    g.add(p, g.neg(q))
  }

  lemma AddLaws<G(!new)>(g: Group<G>, p: G, q: G, r: G)
    requires Abelian(g)
    ensures g.add(g.add(p, q), r) == g.add(p, g.add(q, r)) && g.add(p, q) == g.add(q, p)
    ensures g.add(p, g.zero) == p && g.add(p, g.neg(p)) == g.zero
  {
  }

  lemma {:induction false} MulAdd<G(!new)>(g: Group<G>, m: nat, n: nat, p: G)
    requires Abelian(g)
    ensures Mul(g, m + n, p) == g.add(Mul(g, m, p), Mul(g, n, p))
  {
    hide Abelian;
    if m == 0 {
      AddLaws(g, Mul(g, n, p), g.zero, p);
    } else {
      MulAdd(g, m - 1, n, p);
      AddLaws(g, p, Mul(g, m - 1, p), Mul(g, n, p));
    }
  }

  lemma {:induction false} MulMul<G(!new)>(g: Group<G>, m: nat, n: nat, p: G)
    requires Abelian(g)
    ensures Mul(g, m * n, p) == Mul(g, m, Mul(g, n, p))
  {
    hide Abelian;
    if m == 0 {
    } else {
      assert m * n == n + (m - 1) * n;
      MulAdd(g, n, (m - 1) * n, p);
      MulMul(g, m - 1, n, p);
    }
  }

  /** `(p + q) + (r + s)` is `(p + r) + (q + s)`. */
  lemma Regroup<G(!new)>(g: Group<G>, p: G, q: G, r: G, s: G)
    requires Abelian(g)
    ensures g.add(g.add(p, q), g.add(r, s)) == g.add(g.add(p, r), g.add(q, s))
  {
    hide Abelian;
    AddLaws(g, p, q, g.add(r, s));
    AddLaws(g, q, r, s);
    AddLaws(g, r, q, s);
    AddLaws(g, p, r, g.add(q, s));
  }

  lemma {:induction false} MulSum<G(!new)>(g: Group<G>, n: nat, p: G, q: G)
    requires Abelian(g)
    ensures Mul(g, n, g.add(p, q)) == g.add(Mul(g, n, p), Mul(g, n, q))
  {
    hide Abelian;
    if n == 0 {
      AddLaws(g, g.zero, g.zero, p);
    } else {
      MulSum(g, n - 1, p, q);
      Regroup(g, p, q, Mul(g, n - 1, p), Mul(g, n - 1, q));
    }
  }

  lemma {:induction false} MulZero<G(!new)>(g: Group<G>, n: nat)
    requires Abelian(g)
    ensures Mul(g, n, g.zero) == g.zero
  {
    hide Abelian;
    if n > 0 {
      MulZero(g, n - 1);
      AddLaws(g, g.zero, g.zero, g.zero);
    }
  }

  lemma Cancel<G(!new)>(g: Group<G>, p: G, q: G, r: G)
    requires Abelian(g) && g.add(p, q) == g.add(p, r)
    ensures q == r
  {
    hide Abelian;
    var n := g.neg(p);
    AddLaws(g, p, n, q);
    AddLaws(g, n, p, q);
    AddLaws(g, n, p, r);
    AddLaws(g, q, g.zero, p);
    AddLaws(g, r, g.zero, p);
    AddLaws(g, g.zero, q, p);
    AddLaws(g, g.zero, r, p);
  }

  lemma NegNeg<G(!new)>(g: Group<G>, p: G)
    requires Abelian(g)
    ensures g.neg(g.neg(p)) == p
  {
    hide Abelian;
    AddLaws(g, p, g.neg(p), p);
    AddLaws(g, g.neg(p), p, p);
    AddLaws(g, g.neg(p), g.neg(g.neg(p)), p);
    Cancel(g, g.neg(p), g.neg(g.neg(p)), p);
  }

  lemma MulNeg<G(!new)>(g: Group<G>, n: nat, p: G)
    requires Abelian(g)
    ensures Mul(g, n, g.neg(p)) == g.neg(Mul(g, n, p))
  {
    hide Abelian;
    AddLaws(g, p, g.neg(p), p);
    MulSum(g, n, p, g.neg(p));
    MulZero(g, n);
    AddLaws(g, Mul(g, n, p), g.neg(p), p);
    Cancel(g, Mul(g, n, p), Mul(g, n, g.neg(p)), g.neg(Mul(g, n, p)));
  }

  /** A scalar counts only modulo the order. */
  lemma MulMod<G(!new)>(g: Group<G>, n: nat, p: G)
    requires Lawful(g)
    ensures Mul(g, n % g.order, p) == Mul(g, n, p)
  {
    hide Abelian;
    var k, r := n / g.order, n % g.order;
    assert n == k * g.order + r;
    MulAdd(g, k * g.order, r, p);
    MulMul(g, k, g.order, p);
    MulZero(g, k);
    AddLaws(g, Mul(g, r, p), g.zero, p);
    AddLaws(g, g.zero, Mul(g, r, p), p);
  }

  lemma SubSelf<G(!new)>(g: Group<G>, p: G, q: G)
    requires Abelian(g)
    ensures Sub(g, g.add(p, q), q) == p
  {
    hide Abelian;
    AddLaws(g, p, q, g.neg(q));
    AddLaws(g, q, q, q);
    AddLaws(g, p, q, q);
  }

  /** A difference vanishes exactly for equals. */
  lemma SubIsZero<G(!new)>(g: Group<G>, p: G, q: G)
    requires Abelian(g)
    ensures Sub(g, p, q) == g.zero <==> p == q
  {
    hide Abelian;
    AddLaws(g, q, q, q);
    if Sub(g, p, q) == g.zero {
      AddLaws(g, p, g.neg(q), q);
      AddLaws(g, g.neg(q), p, p);
      AddLaws(g, g.neg(q), q, q);
      Cancel(g, g.neg(q), p, q);
    }
  }
}

module Spake2p {
  import opened Groups

  // ---------------------------------------------------------------- the protocol

  /** `X = x*P + w0*M` and `Y = y*P + w0*N`. */
  function Share<G>(g: Group<G>, secret: nat, w0: nat, blind: G): G {
    g.add(Mul(g, secret, g.generator), Mul(g, w0, blind))
  }

  /** What section 3.3 of RFC 9383 multiplies: the other side's share without its blinding. */
  function Unblinded<G>(g: Group<G>, share: G, w0: nat, blind: G): G {
    Sub(g, share, Mul(g, w0, blind))
  }

  lemma ShareUnblinds<G(!new)>(g: Group<G>, secret: nat, w0: nat, blind: G)
    requires Lawful(g)
    ensures Unblinded(g, Share(g, secret, w0, blind), w0, blind) == Mul(g, secret, g.generator)
  {
    SubSelf(g, Mul(g, secret, g.generator), Mul(g, w0, blind));
  }

  /** Multiplying out with an inverted blinding point and a product reduced modulo
      the order is the same as multiplying the unblinded share. */
  lemma MulAddUnblinds<G(!new)>(g: Group<G>, k: nat, share: G, w0: nat, blind: G)
    requires Lawful(g)
    ensures g.add(Mul(g, k, share), Mul(g, k * w0 % g.order, g.neg(blind))) == Mul(g, k, Unblinded(g, share, w0, blind))
  {
    hide Abelian;
    var t := Mul(g, w0, blind);
    MulMod(g, k * w0, g.neg(blind));
    MulNeg(g, k * w0, blind);
    MulMul(g, k, w0, blind);
    MulNeg(g, k, t);
    MulSum(g, k, share, g.neg(t));
  }

  /** Both sides of an honest run compute the same two values, `x*y*P` and `w1*y*P`. */
  lemma SharedValuesAgree<G(!new)>(g: Group<G>, M: G, N: G, x: nat, y: nat, w0: nat, w1: nat)
    requires Lawful(g)
    ensures var X := Share(g, x, w0, M); var Y := Share(g, y, w0, N); var L := Mul(g, w1, g.generator);
            var Z := Mul(g, x * y, g.generator); var V := Mul(g, w1 * y, g.generator);
            Mul(g, x, Unblinded(g, Y, w0, N)) == Z && Mul(g, w1, Unblinded(g, Y, w0, N)) == V // prover
            && Mul(g, y, Unblinded(g, X, w0, M)) == Z && Mul(g, y, L) == V                    // verifier
  {
    ShareUnblinds(g, x, w0, M);
    ShareUnblinds(g, y, w0, N);
    MulMul(g, x, y, g.generator);
    MulMul(g, y, x, g.generator);
    MulMul(g, w1, y, g.generator);
    MulMul(g, y, w1, g.generator);
    assert x * y == y * x && w1 * y == y * w1;
  }

  /** When the sides hold different `w0`, the verifier still finds `x*y*P` exactly
      if the difference between the two does not show in multiples of `M`. */
  lemma WrongW0Shows<G(!new)>(g: Group<G>, M: G, x: nat, y: nat, proverW0: nat, w0: nat)
    requires Lawful(g)
    ensures Mul(g, y, Unblinded(g, Share(g, x, proverW0, M), w0, M)) == Mul(g, y, Mul(g, x, g.generator))
       <==> Mul(g, y, Mul(g, proverW0, M)) == Mul(g, y, Mul(g, w0, M))
  {
    hide Abelian;
    var p, a, b := Mul(g, x, g.generator), Mul(g, proverW0, M), Mul(g, w0, M);
    var yp, ya, yb := Mul(g, y, p), Mul(g, y, a), Mul(g, y, b);
    AddLaws(g, p, a, g.neg(b));
    MulSum(g, y, p, Sub(g, a, b));
    MulSum(g, y, a, g.neg(b));
    MulNeg(g, y, b);
    assert Mul(g, y, Unblinded(g, g.add(p, a), w0, M)) == g.add(yp, Sub(g, ya, yb));
    AddLaws(g, yp, yp, yp);
    SubIsZero(g, ya, yb);
    if g.add(yp, Sub(g, ya, yb)) == yp {
      Cancel(g, yp, Sub(g, ya, yb), g.zero);
    }
  }

  // ---------------------------------------------------------------- the mbedTLS back end

  class CryptoMbedTLS<G(!new)> {
    const g: Group<G>
    const M: G
    const N: G
    var xy: nat
    var w0: nat
    var w1: nat
    var L: G
    var pB: G

    constructor (g: Group<G>, M: G, N: G)
      ensures this.g == g && this.M == M && this.N == N
    {
      this.g, this.M, this.N := g, M, N;
      xy, w0, w1, L, pB := 0, 0, 0, g.zero, g.zero;
    }

    method SetW0FromW0s(w0s: nat)
      requires Lawful(g)
      modifies this`w0
      ensures w0 < g.order && forall p :: Mul(g, w0, p) == Mul(g, w0s, p)
    {
      w0 := w0s;
      w0 := w0 % g.order;
      forall p ensures Mul(g, w0, p) == Mul(g, w0s, p) {
        MulMod(g, w0s, p);
      }
    }

    method SetW1FromW1s(w1s: nat)
      requires Lawful(g)
      modifies this`w1
      ensures w1 < g.order && forall p :: Mul(g, w1, p) == Mul(g, w1s, p)
    {
      w1 := w1s;
      w1 := w1 % g.order;
      forall p ensures Mul(g, w1, p) == Mul(g, w1s, p) {
        MulMod(g, w1s, p);
      }
    }

    /** `L = w1*P`. */
    method SetL(w1s: nat)
      requires Lawful(g)
      modifies this`w1, this`L
      ensures w1 < g.order && L == Mul(g, w1s, g.generator)
    {
      SetW1FromW1s(w1s);
      L := Mul(g, w1, g.generator);
    }

    /** `random` is the private key that was drawn. */
    method GetPB(random: nat) returns (Y: G)
      modifies this`xy, this`pB
      ensures xy == random && Y == pB == Share(g, random, w0, N)
    {
      xy := random;
      pB := g.add(Mul(g, xy, g.generator), Mul(g, w0, N));
      Y := pB;
    }

    static method GetZVAsProver(g: Group<G>, w0: nat, w1: nat, N: G, Y: G, x: nat) returns (Z: G, V: G)
      requires Lawful(g)
      ensures Z == Mul(g, x, Unblinded(g, Y, w0, N)) && V == Mul(g, w1, Unblinded(g, Y, w0, N))
    {
      var tmp := x * w0;
      tmp := tmp % g.order;
      var invertedN := g.neg(N);
      Z := g.add(Mul(g, x, Y), Mul(g, tmp, invertedN));
      MulAddUnblinds(g, x, Y, w0, N);
      tmp := w0 * w1;
      tmp := tmp % g.order;
      V := g.add(Mul(g, w1, Y), Mul(g, tmp, invertedN));
      assert w0 * w1 == w1 * w0;
      MulAddUnblinds(g, w1, Y, w0, N);
    }

    static method GetZVAsVerifier(g: Group<G>, w0: nat, L: G, M: G, X: G, y: nat) returns (Z: G, V: G)
      requires Lawful(g)
      ensures Z == Mul(g, y, Unblinded(g, X, w0, M)) && V == Mul(g, y, L)
    {
      var tmp := y * w0;
      tmp := tmp % g.order;
      var invertedM := g.neg(M);
      Z := g.add(Mul(g, y, X), Mul(g, tmp, invertedM));
      MulAddUnblinds(g, y, X, w0, M);
      V := Mul(g, y, L);
    }

    /** The two points that go into the transcript of the verifier. */
    method GetTTAsVerifier(X: G) returns (Z: G, V: G)
      requires Lawful(g)
      ensures Z == Mul(g, xy, Unblinded(g, X, w0, M)) && V == Mul(g, xy, L)
    {
      Z, V := GetZVAsVerifier(g, w0, L, M, X, xy);
    }
  }

  // ---------------------------------------------------------------- the OpenSSL back end

  /** The point the blinding point has become after `n` inversions in place. */
  function Inverted<G>(g: Group<G>, blind: G, n: nat): G {
    if n == 0 then blind else g.neg(Inverted(g, blind, n - 1))
  }

  lemma {:induction false} InvertedTwice<G(!new)>(g: Group<G>, blind: G, n: nat)
    requires Lawful(g)
    ensures Inverted(g, blind, n) == if n % 2 == 0 then blind else g.neg(blind)
  {
    if n > 0 {
      InvertedTwice(g, blind, n - 1);
      NegNeg(g, blind);
    }
  }

  /** With the inverted blinding point in place of the right one, the blinding is
      doubled where it should go away. */
  lemma InvertedBlindShows<G(!new)>(g: Group<G>, k: nat, share: G, w0: nat, blind: G)
    requires Lawful(g)
    ensures Mul(g, k, Unblinded(g, share, w0, g.neg(blind))) == Mul(g, k, Unblinded(g, share, w0, blind))
       <==> Mul(g, 2, Mul(g, k, Mul(g, w0, blind))) == g.zero
  {
    hide Abelian;
    var t := Mul(g, w0, blind);
    var ks, kt := Mul(g, k, share), Mul(g, k, t);
    MulNeg(g, w0, blind);
    NegNeg(g, t);
    MulSum(g, k, share, t);
    MulSum(g, k, share, g.neg(t));
    MulNeg(g, k, t);
    MulAdd(g, 1, 1, kt);
    AddLaws(g, kt, g.zero, kt);
    assert Mul(g, 1, kt) == g.add(kt, Mul(g, 0, kt));
    NegNeg(g, kt);
    SubIsZero(g, kt, g.neg(kt));
    if g.add(ks, kt) == g.add(ks, g.neg(kt)) {
      Cancel(g, ks, kt, g.neg(kt));
    }
  }

  class CryptoOpenSSL<G(!new)> {
    const g: Group<G>
    var M: G
    const N: G
    var xy: nat
    var w0: nat
    var w1: nat
    var L: G
    var pB: G
    ghost const blindM: G // the constant the object was made with
    ghost var used: nat   // how often the shared values were computed

    ghost predicate Valid()
      reads this
    {
      Lawful(g) && M == Inverted(g, blindM, used)
    }

    constructor (g: Group<G>, M: G, N: G)
      requires Lawful(g)
      ensures Valid() && this.g == g && blindM == M && this.N == N && used == 0
    {
      this.g, this.M, this.N, blindM, used := g, M, N, M, 0;
      xy, w0, w1, L, pB := 0, 0, 0, g.zero, g.zero;
    }

    method SetW0FromW0s(w0s: nat)
      requires Valid()
      modifies this`w0
      ensures w0 < g.order && forall p :: Mul(g, w0, p) == Mul(g, w0s, p)
    {
      w0 := w0s % g.order;
      forall p ensures Mul(g, w0, p) == Mul(g, w0s, p) {
        MulMod(g, w0s, p);
      }
    }

    method SetL(w1s: nat)
      requires Valid()
      modifies this`w1, this`L
      ensures w1 < g.order && L == Mul(g, w1s, g.generator)
    {
      w1 := w1s % g.order;
      L := g.zero;
      L := Mul(g, w1, g.generator);
      MulMod(g, w1s, g.generator);
    }

    method GetPB(random: nat) returns (Y: G)
      modifies this`xy, this`pB
      ensures xy == random && Y == pB == Share(g, random, w0, N)
    {
      xy := random;
      pB := DoAddMul(g.generator, xy, N, w0);
      Y := pB;
    }

    /** `a*b + c*d`. */
    method DoAddMul(a: G, b: nat, c: G, d: nat) returns (r: G)
      ensures r == g.add(Mul(g, b, a), Mul(g, d, c))
    {
      var mul1, mul2 := Mul(g, b, a), Mul(g, d, c);
      r := g.add(mul1, mul2);
    }

    /** The point passed in for `N` comes back inverted. */
    method GetZVAsProver(w0: nat, w1: nat, N: G, Y: G, x: nat) returns (Z: G, V: G, invertedN: G)
      requires Valid()
      ensures Z == Mul(g, x, Unblinded(g, Y, w0, N)) && V == Mul(g, w1, Unblinded(g, Y, w0, N))
      ensures g.neg(invertedN) == N
    {
      hide Abelian;
      var tmp := x * w0 % g.order;
      invertedN := g.neg(N);
      Z := DoAddMul(Y, x, invertedN, tmp);
      MulAddUnblinds(g, x, Y, w0, N);
      tmp := w1 * w0 % g.order;
      V := DoAddMul(Y, w1, invertedN, tmp);
      MulAddUnblinds(g, w1, Y, w0, N);
      NegNeg(g, N);
    }

    /** `M` stays inverted when the call is over. The first call, and every second
        one after it, computes the right `Z`; the others do exactly when twice the
        blinding vanishes. `V` is always right. `Spake2P` drops the object after one
        call, so in the program there is no second one. */
    method GetTTAsVerifier(X: G) returns (Z: G, V: G)
      requires Valid()
      modifies this`M, this`used
      ensures Valid() && used == old(used) + 1
      ensures V == Mul(g, xy, L)
      ensures Z == Mul(g, xy, Unblinded(g, X, w0, old(M)))
      ensures Z == Mul(g, xy, Unblinded(g, X, w0, blindM))
         <==> old(used) % 2 == 0 || Mul(g, 2, Mul(g, xy, Mul(g, w0, blindM))) == g.zero
    {
      hide Abelian;
      var tmp := xy * w0 % g.order;
      ghost var before := M;
      M := g.neg(M);
      used := used + 1;
      Z := DoAddMul(X, xy, M, tmp);
      V := Mul(g, xy, L);
      MulAddUnblinds(g, xy, X, w0, before);
      InvertedTwice(g, blindM, used - 1);
      InvertedBlindShows(g, xy, X, w0, blindM);
    }
  }
}

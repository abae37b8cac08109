/** The SRP-6 arithmetic: both sides of a login compute the same secret. */
module Srp6 {
  import opened ModArith

  const MULTIPLIER: nat := 3
  const GENERATOR: nat := 7
  /** The 32-byte safe prime both daemons are built with. */
  const PRIME: nat := 0x894B645E89E1535BBDAD5B8B290650530801B18EBFBF5E8FAB3C82872A3E9BB7

  function Verifier(g: nat, x: nat, N: nat): nat
    requires N > 1
  {
    PowMod(g, x, N)
  }

  function ServerPublic(g: nat, v: nat, b: nat, N: nat): nat
    requires N > 1
  {
    (v * MULTIPLIER + PowMod(g, b, N)) % N
  }

  function ServerSecret(A: nat, v: nat, u: nat, b: nat, N: nat): nat
    requires N > 1
  {
    PowMod(A * PowMod(v, u, N), b, N)
  }

  /** The client's side, section 2.6 of RFC 5054 with k = 3. */
  function ClientSecret(B: nat, g: nat, x: nat, u: nat, a: nat, N: nat): nat
    requires N > 1
  {
    PowMod(B - MULTIPLIER * Pow(g, x), a + u * x, N)
  }

  /** B minus 3 g^x is g^b again. */
  lemma ClientBase(g: nat, x: nat, b: nat, N: nat)
    requires N > 1
    ensures Cong(ServerPublic(g, Verifier(g, x, N), b, N) - 3 * Pow(g, x), Pow(g, b), N)
  {
    var v := Verifier(g, x, N);
    var t := PowMod(g, b, N);
    var sum := v * MULTIPLIER + t;
    var gx := Pow(g, x);
    CongMod(sum, N);
    CongMod(gx, N);
    CongMod(Pow(g, b), N);
    CongRefl(MULTIPLIER, N);
    CongMul(MULTIPLIER, MULTIPLIER, v, gx, N);
    CongSym(MULTIPLIER * v, MULTIPLIER * gx, N);
    CongSub(sum % N, sum, MULTIPLIER * gx, MULTIPLIER * v, N);
    assert sum - MULTIPLIER * v == t;
    CongTrans(sum % N - MULTIPLIER * gx, t, Pow(g, b), N);
  }

  /** B is 3v + g^b, for every v. */
  lemma PublicValue(g: nat, v: nat, b: nat, N: nat)
    requires N > 1
    ensures Pow(g, b) >= 0 && ServerPublic(g, v, b, N) == (3 * v + Pow(g, b)) % N
  {
    PowPositive(g, b);
    CongMod(Pow(g, b), N);
    CongRefl(3 * v, N);
    CongSub(3 * v, 3 * v, PowMod(g, b, N), Pow(g, b), N);
    CongSame(3 * v + PowMod(g, b, N), 3 * v + Pow(g, b), N);
  }

  lemma {:induction false} PowPositive(g: nat, b: nat)
    ensures Pow(g, b) >= 0
  {
    if b > 0 {
      PowPositive(g, b - 1);
    }
  }

  /** The server's base A v^u is g^(a + ux). */
  lemma ServerBase(g: nat, x: nat, u: nat, a: nat, N: nat)
    requires N > 1
    ensures Cong(PowMod(g, a, N) * PowMod(Verifier(g, x, N), u, N), Pow(g, a + u * x), N)
  {
    var v := Verifier(g, x, N);
    CongMod(Pow(g, a), N);
    CongMod(Pow(g, x), N);
    CongMod(Pow(v, u), N);
    CongPow(v, Pow(g, x), u, N);
    CongTrans(PowMod(v, u, N), Pow(v, u), Pow(Pow(g, x), u), N);
    CongMul(PowMod(g, a, N), Pow(g, a), PowMod(v, u, N), Pow(Pow(g, x), u), N);
    PowMultiplies(g, x, u);
    assert x * u == u * x;
    PowAdds(g, a, u * x);
  }

  /** The secret is g^(b (a + ux)), on either side. */
  lemma SecretIsPower(g: nat, x: nat, u: nat, a: nat, b: nat, N: nat)
    requires N > 1
    ensures b * (a + u * x) >= 0
    ensures ServerSecret(PowMod(g, a, N), Verifier(g, x, N), u, b, N) == Pow(g, b * (a + u * x)) % N
    ensures ClientSecret(ServerPublic(g, Verifier(g, x, N), b, N), g, x, u, a, N) == Pow(g, b * (a + u * x)) % N
  {
    var e := a + u * x;
    Agreement(g, x, u, a, b, N);
    ServerBase(g, x, u, a, N);
    var base := PowMod(g, a, N) * PowMod(Verifier(g, x, N), u, N);
    CongPow(base, Pow(g, e), b, N);
    CongSame(Pow(base, b), Pow(Pow(g, e), b), N);
    PowMultiplies(g, e, b);
    assert e * b == b * e;
  }

  /** Whatever the client sent as A and whatever the verifier: the daemon computes (A v^u)^b modulo N. */
  lemma SecretOfAnyA(A: nat, v: nat, u: nat, b: nat, N: nat)
    requires N > 1
    ensures ServerSecret(A, v, u, b, N) == Pow(A * Pow(v, u), b) % N
  {
    hide Pow, Cong;
    CongMod(Pow(v, u), N);
    CongRefl(A, N);
    CongMul(A, A, PowMod(v, u, N), Pow(v, u), N);
    CongPow(A * PowMod(v, u, N), A * Pow(v, u), b, N);
    CongSame(Pow(A * PowMod(v, u, N), b), Pow(A * Pow(v, u), b), N);
  }

  /** Server and client end with the same secret, for every modulus and every choice of exponents. */
  lemma Agreement(g: nat, x: nat, u: nat, a: nat, b: nat, N: nat)
    requires N > 1
    ensures ServerSecret(PowMod(g, a, N), Verifier(g, x, N), u, b, N)
         == ClientSecret(ServerPublic(g, Verifier(g, x, N), b, N), g, x, u, a, N)
  {
    var e := a + u * x;
    var sb := PowMod(g, a, N) * PowMod(Verifier(g, x, N), u, N);
    var cb := ServerPublic(g, Verifier(g, x, N), b, N) - MULTIPLIER * Pow(g, x);
    ServerBase(g, x, u, a, N);
    CongPow(sb, Pow(g, e), b, N);
    CongSame(Pow(sb, b), Pow(Pow(g, e), b), N);
    ClientBase(g, x, b, N);
    CongPow(cb, Pow(g, b), e, N);
    CongSame(Pow(cb, e), Pow(Pow(g, b), e), N);
    PowMultiplies(g, e, b);
    PowMultiplies(g, b, e);
    assert e * b == b * e;
  }

  /**
   A client number that is a multiple of N makes the secret independent of the verifier: it is 0, or 1
   for the exponent 0. Section 2.5.4 of RFC 5054 tells the server to refuse such numbers.
   */
  lemma MultipleFixesSecret(A: nat, v: nat, u: nat, b: nat, N: nat)
    requires N > 1 && A % N == 0
    ensures ServerSecret(A, v, u, b, N) == if b == 0 then 1 else 0
  {
    hide Cong, Pow;
    var w := PowMod(v, u, N);
    CongMod(A, N);
    CongRefl(w, N);
    CongMul(A, 0, w, w, N);
    CongPow(A * w, 0, b, N);
    PowOfZero(b);
    CongSame(Pow(A * w, b), Pow(0, b), N);
  }

  lemma PowOfZero(b: nat)
    ensures Pow(0, b) == if b == 0 then 1 else 0
  {
  }
}

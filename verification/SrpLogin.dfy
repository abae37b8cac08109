/**
 The logon exchange over the wire: what the realm daemon sends, checks and stores, what an honest
 client answers, and what the proxy daemon later recomputes from the stored account row.
 */
module SrpLogin {
  import opened Bytes
  import opened ModArith
  import opened Srp6

  /** SHA1 output. The hash itself is a parameter everywhere: any function to 20 bytes. */
  type Digest = d: seq<Byte> | |d| == 20 witness Zeros(20)
  type Hash = seq<Byte> -> Digest

  // ---------------------------------------------------------------- what both daemons hash

  function XorAll(a: Digest, b: Digest): Digest {
    seq(20, i requires 0 <= i < 20 => Xor(a[i], b[i]))
  }

  /** Bit by bit, the two digests added modulo 2. */
  lemma XorAllBit(a: Digest, b: Digest, i: nat, k: nat)
    requires i < 20 && k < 8
    ensures XorAll(a, b)[i] / Pow2(k) % 2 == (a[i] / Pow2(k) + b[i] / Pow2(k)) % 2
  {
    hide Xor;
    XorBit(a[i], b[i], k);
  }

  /** The private exponent: the digest of salt and password hash, read little-endian. */
  function PrivateKey(sha: Hash, salt: seq<Byte>, passHash: seq<Byte>): nat {
    LE(sha(salt + passHash))
  }

  function Scrambler(sha: Hash, A: seq<Byte>, B: seq<Byte>): nat {
    LE(sha(A + B))
  }

  function Evens(s: seq<Byte>): (r: seq<Byte>)
    requires |s| == 32
    ensures |r| == 16
  {
    seq(16, i requires 0 <= i < 16 => s[2 * i])
  }

  function Odds(s: seq<Byte>): (r: seq<Byte>)
    requires |s| == 32
    ensures |r| == 16
  {
    seq(16, i requires 0 <= i < 16 => s[2 * i + 1])
  }

  /** Section 3.1 of RFC 2945: hash the even and the odd bytes apart and interleave the digests. */
  function SessionKey(sha: Hash, S: seq<Byte>): (K: seq<Byte>)
    requires |S| == 32
    ensures |K| == 40
  {
    var e, o := sha(Evens(S)), sha(Odds(S));
    seq(40, i requires 0 <= i < 40 => if i % 2 == 0 then e[i / 2] else o[i / 2])
  }

  /** M1 of section 3 of RFC 2945. */
  function Proof(sha: Hash, login: seq<Byte>, salt: seq<Byte>, A: seq<Byte>, B: seq<Byte>, K: seq<Byte>): Digest {
    sha(XorAll(sha(FixedLE(PRIME, 32)), sha([GENERATOR])) + sha(login) + salt + A + B + K)
  }

  function Reply(sha: Hash, A: seq<Byte>, M1: seq<Byte>, K: seq<Byte>): Digest {
    sha(A + M1 + K)
  }

  /** Every second byte of the key is one digest, the others the other. */
  lemma KeyBytes(sha: Hash, S: seq<Byte>, k: nat)
    requires |S| == 32 && k < 20
    ensures SessionKey(sha, S)[2 * k] == sha(seq(16, i requires 0 <= i < 16 => S[2 * i]))[k]
    ensures SessionKey(sha, S)[2 * k + 1] == sha(seq(16, i requires 0 <= i < 16 => S[2 * i + 1]))[k]
  {
    assert Evens(S) == seq(16, i requires 0 <= i < 16 => S[2 * i]);
    assert Odds(S) == seq(16, i requires 0 <= i < 16 => S[2 * i + 1]);
  }

  // ---------------------------------------------------------------- the honest client, by RFC 2945 and RFC 5054

  datatype ClientAnswer = ClientAnswer(A: seq<Byte>, M1: Digest, K: seq<Byte>, expected: Digest)

  /** The bytes of a string at the even places, in order. */
  function EveryOther(s: seq<Byte>): (r: seq<Byte>)
    ensures |r| == (|s| + 1) / 2
  {
    if s == [] then [] else [s[0]] + (if |s| == 1 then [] else EveryOther(s[2..]))
  }

  /** One byte of each string in turn. */
  function Interleaved(e: seq<Byte>, o: seq<Byte>): (r: seq<Byte>)
    requires |e| == |o|
    ensures |r| == 2 * |e|
  {
    if e == [] then [] else [e[0], o[0]] + Interleaved(e[1..], o[1..])
  }

  /** Section 3.1 of RFC 2945, with S in the byte order of the wire. */
  function ClientKey(sha: Hash, S: seq<Byte>): (K: seq<Byte>)
    requires |S| == 32
    ensures |K| == 40
  {
    Interleaved(sha(EveryOther(S)), sha(EveryOther(S[1..])))
  }

  lemma {:induction false} EveryOtherAt(s: seq<Byte>, k: nat)
    requires 2 * k < |s|
    ensures EveryOther(s)[k] == s[2 * k]
  {
    if k > 0 {
      EveryOtherAt(s[2..], k - 1);
    }
  }

  lemma {:induction false} InterleavedAt(e: seq<Byte>, o: seq<Byte>, i: nat)
    requires |e| == |o| && i < 2 * |e|
    ensures Interleaved(e, o)[i] == if i % 2 == 0 then e[i / 2] else o[i / 2]
  {
    if i >= 2 {
      InterleavedAt(e[1..], o[1..], i - 2);
    }
  }

  lemma SameHalves(S: seq<Byte>)
    requires |S| == 32
    ensures EveryOther(S) == Evens(S) && EveryOther(S[1..]) == Odds(S)
  {
    hide EveryOther;
    forall k | 0 <= k < 16
      ensures EveryOther(S)[k] == Evens(S)[k] && EveryOther(S[1..])[k] == Odds(S)[k]
    {
      EveryOtherAt(S, k);
      EveryOtherAt(S[1..], k);
    }
  }

  /** Both sides make the same key of the same bytes. */
  lemma SameSessionKey(sha: Hash, S: seq<Byte>)
    requires |S| == 32
    ensures ClientKey(sha, S) == SessionKey(sha, S)
  {
    SameHalves(S);
    hide EveryOther, Evens, Odds, Interleaved;
    var e, o := sha(Evens(S)), sha(Odds(S));
    forall i | 0 <= i < 40
      ensures ClientKey(sha, S)[i] == SessionKey(sha, S)[i]
    {
      InterleavedAt(e, o, i);
    }
  }

  /** H(N) xor H(g). */
  function ClientMask(sha: Hash): Digest {
    var n, g := sha(FixedLE(PRIME, 32)), sha([7]);
    seq(20, i requires 0 <= i < 20 => Xor(n[i], g[i]))
  }

  /**
   The client's move, from the salt and B it read off the wire and its own exponent a: x = H(s, P),
   u = H(A, B), M1 = H(H(N) xor H(g), H(U), s, A, B, K), and it expects H(A, M1, K).
   */
  function Client(sha: Hash, login: seq<Byte>, passHash: Digest, salt: seq<Byte>, B: seq<Byte>, a: nat): ClientAnswer {
    PrimeWidth();
    var x := LE(sha(salt + passHash));
    var A := FixedLE(PowMod(7, a, PRIME), 32);
    var u := LE(sha(A + B));
    var S := ClientSecret(LE(B), 7, x, u, a, PRIME);
    var K := ClientKey(sha, FixedLE(S, 32));
    var M1 := sha(ClientMask(sha) + sha(login) + salt + A + B + K);
    ClientAnswer(A, M1, K, sha(A + M1 + K))
  }

  lemma PrimeWidth()
    ensures PRIME > 1 && NumBytes(PRIME) == 32 && PRIME < Pow256(32)
  {
    assert Pow256(4) == 0x1_0000_0000 by {
      assert Pow256(1) == 256 && Pow256(2) == 65536 && Pow256(3) == 0x100_0000;
    }
    PowAdd(4, 4);
    PowAdd(8, 8);
    PowAdd(16, 16);
    assert Pow256(8) == 0x1_0000_0000_0000_0000;
    assert Pow256(16) == 0x1_0000_0000_0000_0000_0000_0000_0000_0000;
    assert Pow256(32) == 0x1_0000_0000_0000_0000_0000_0000_0000_0000_0000_0000_0000_0000_0000_0000_0000_0000;
    assert Pow256(32) == 256 * Pow256(31);
    NumBytesFits(PRIME, 32);
    NumBytesFits(PRIME, 31);
  }

  // ---------------------------------------------------------------- the realm daemon's formulas

  /** A stored password hash fits the 20-byte buffer it is unpacked into. */
  predicate StoredHash(shaPass: string) {
    NumBytes(Unhex(shaPass)) <= 20
  }

  function PassBytes(shaPass: string): (r: seq<Byte>)
    requires StoredHash(shaPass)
    ensures |r| == 20
  {
    BinInto(Unhex(shaPass), Zeros(20))
  }

  /** A number below the prime as the daemon puts it in a packet: bn2bin into 32 bytes, reversed. */
  function Wire(n: nat): (r: seq<Byte>)
    requires NumBytes(n) <= 32
    ensures |r| == 32
  {
    BinReversed(n, Zeros(32))
  }

  function ServerVerifier(sha: Hash, s: nat, shaPass: string): nat
    requires NumBytes(s) <= 32 && StoredHash(shaPass)
  {
    Verifier(GENERATOR, PrivateKey(sha, Wire(s), PassBytes(shaPass)), PRIME)
  }

  /** The bytes of a stored hash stand for its number, shifted up where the number is shorter. */
  lemma PassBytesValue(shaPass: string)
    requires StoredHash(shaPass)
    ensures FromBin(PassBytes(shaPass)) == Unhex(shaPass) * Pow256(20 - NumBytes(Unhex(shaPass)))
  {
    hide Unhex, LE, NumBytes, Pow256;
    BinReversedValue(Unhex(shaPass), 20);
  }

  /** The verifier is g^x with x = H(s, P), whatever the salt's width. */
  lemma VerifierValue(sha: Hash, s: nat, shaPass: string)
    requires NumBytes(s) <= 32 && StoredHash(shaPass)
    ensures ServerVerifier(sha, s, shaPass) == Pow(7, LE(sha(Wire(s) + PassBytes(shaPass)))) % PRIME
  {
    hide Pow, LE, NumBytes, Unhex;
  }

  /** The AUTH_LOGON_CHALLENGE answer. */
  function Challenge(s: nat, B: nat, random: nat): (packet: seq<Byte>)
    requires NumBytes(s) <= 32 && NumBytes(B) <= 32 && NumBytes(random) == 16
    ensures |packet| == 119
  {
    [0, 0, 0] + Wire(B) + [1, GENERATOR, 32] + FixedLE(PRIME, 32) + Wire(s) + Bin(random) + [0]
  }

  function ServerS(sha: Hash, v: nat, b: nat, B: nat, A: seq<Byte>): nat
    requires NumBytes(B) <= 32
  {
    ServerSecret(LE(A), v, Scrambler(sha, A, Wire(B)), b, PRIME)
  }

  /** S is (A v^u)^b with u = H(A, B), for whatever the client sent. */
  lemma ServerSValue(sha: Hash, v: nat, b: nat, B: nat, A: seq<Byte>)
    requires NumBytes(B) <= 32
    ensures ServerS(sha, v, b, B, A) == Pow(LE(A) * Pow(v, LE(sha(A + Wire(B)))), b) % PRIME
  {
    hide Pow, LE, NumBytes;
    SecretOfAnyA(LE(A), v, LE(sha(A + Wire(B))), b, PRIME);
  }

  /** The key from the buffer S is written to; `stack` is what that buffer held before. */
  function ServerKey(sha: Hash, v: nat, b: nat, B: nat, A: seq<Byte>, stack: seq<Byte>): (K: seq<Byte>)
    requires NumBytes(B) <= 32 && |stack| == 32
    ensures |K| == 40
  {
    SecretFits(sha, v, b, B, A);
    SessionKey(sha, BinReversed(ServerS(sha, v, b, B, A), stack))
  }

  lemma SecretFits(sha: Hash, v: nat, b: nat, B: nat, A: seq<Byte>)
    requires NumBytes(B) <= 32
    ensures NumBytes(ServerS(sha, v, b, B, A)) <= 32
  {
    PrimeWidth();
    NumBytesFits(ServerS(sha, v, b, B, A), 32);
  }

  function ServerProof(sha: Hash, login: seq<Byte>, s: nat, v: nat, b: nat, B: nat, A: seq<Byte>,
        stack: seq<Byte>): Digest
    requires NumBytes(s) <= 32 && NumBytes(B) <= 32 && |stack| == 32
  {
    Proof(sha, login, Wire(s), A, Wire(B), ServerKey(sha, v, b, B, A, stack))
  }

  lemma BelowPrimeFits(n: nat)
    requires n < PRIME
    ensures NumBytes(n) <= 32
  {
    PrimeWidth();
    NumBytesFits(n, 32);
  }

  // ---------------------------------------------------------------- the realm daemon

  /** The row of the account table the two daemons share. */
  class AccountRow {
    const shaPass: string
    var s: string
    var v: string
    var sessionkey: string

    constructor (shaPass: string)
      ensures this.shaPass == shaPass
    {
      this.shaPass := shaPass;
      s, v, sessionkey := "", "", "";
    }

    /** The FIX_SV and SET_S_V requests, in the order they are queued. */
    method SetSv(sText: string, vText: string)
      modifies this`s, this`v
      ensures s == sText && v == vText
    {
      s, v := "", "";
      v, s := vText, sText;
    }

    /** The key buffer is reversed in place, read as a number and stored in hexadecimal. */
    method UpdateAccount(K: array<Byte>)
      requires K.Length == 40
      modifies this`sessionkey, K
      ensures sessionkey == Hex(LE(old(K[..])))
      ensures K[..] == Reversed(old(K[..]))
    {
      ReverseBytes(K);
      var n := FromBin(K[..]);
      FromBinReversed(old(K[..]));
      sessionkey := Hex(n);
    }
  }

  /** Copy every second byte, from the given first one, and hash the copy. */
  method HashHalf(sha: Hash, S: array<Byte>, first: nat) returns (d: Digest)
    requires S.Length == 32 && first < 2
    ensures d == sha(if first == 0 then Evens(S[..]) else Odds(S[..]))
  {
    var half := new Byte[16];
    for i := 0 to 16
      invariant forall j :: 0 <= j < i ==> half[j] == S[2 * j + first]
    {
      half[i] := S[i * 2 + first];
    }
    assert half[..] == if first == 0 then Evens(S[..]) else Odds(S[..]);
    d := sha(half[..]);
  }

  /** Write a digest to every second byte, from the given first one. */
  method SpreadDigest(K: array<Byte>, d: Digest, first: nat)
    requires K.Length == 40 && first < 2
    modifies K
    ensures forall j :: 0 <= j < 20 ==> K[2 * j + first] == d[j]
    ensures forall j :: 0 <= j < 40 && j % 2 != first ==> K[j] == old(K[j])
  {
    for i := 0 to 20
      invariant forall j :: 0 <= j < i ==> K[2 * j + first] == d[j]
      invariant forall j :: 0 <= j < 40 && j % 2 != first ==> K[j] == old(K[j])
    {
      K[i * 2 + first] := d[i];
    }
  }

  method InterleaveKey(sha: Hash, S: array<Byte>, K: array<Byte>)
    requires S.Length == 32 && K.Length == 40 && S != K
    modifies K
    ensures K[..] == SessionKey(sha, S[..])
  {
    hide Evens, Odds;
    var e := HashHalf(sha, S, 0);
    SpreadDigest(K, e, 0);
    ghost var k0 := K[..];
    var o := HashHalf(sha, S, 1);
    SpreadDigest(K, o, 1);
    forall j | 0 <= j < 20
      ensures K[..][2 * j] == e[j] && K[..][2 * j + 1] == o[j]
    {
      assert K[2 * j] == k0[2 * j];
    }
    KeyFromHalves(sha, S[..], K[..]);
  }

  lemma KeyFromHalves(sha: Hash, S: seq<Byte>, K: seq<Byte>)
    requires |S| == 32 && |K| == 40
    requires forall j :: 0 <= j < 20 ==> K[2 * j] == sha(Evens(S))[j]
    requires forall j :: 0 <= j < 20 ==> K[2 * j + 1] == sha(Odds(S))[j]
    ensures K == SessionKey(sha, S)
  {
  }

  /** bn2bin into a cleared 32-byte buffer, then reverse. */
  method ToWire(n: nat) returns (a: array<Byte>)
    requires NumBytes(n) <= 32
    ensures fresh(a) && a.Length == 32 && a[..] == Wire(n)
  {
    a := new Byte[32](_ => 0);
    assert a[..] == Zeros(32);
    BnToBin(n, a);
    ReverseBytes(a);
  }

  lemma FrontOf(n: nat, before: seq<Byte>)
    requires |before| == 32 && NumBytes(n) == 16
    ensures BinInto(n, before)[..16] == Bin(n)
  {
  }

  /** A full-width number leaves nothing of what the buffer held before. */
  method OverwriteWire(n: nat, a: array<Byte>)
    requires a.Length == 32 && NumBytes(n) == 32
    modifies a
    ensures a[..] == FixedLE(n, 32) == Wire(n)
  {
    BinReversedFull(n, a[..]);
    BinReversedFull(n, Zeros(32));
    BnToBin(n, a);
    ReverseBytes(a);
  }

  /** Reverse the bytes, read them as a number, and put them back. */
  method ReadLE(a: array<Byte>) returns (n: nat)
    modifies a
    ensures a[..] == old(a[..]) && n == LE(a[..])
  {
    ReverseBytes(a);
    n := FromBin(a[..]);
    FromBinReversed(old(a[..]));
    ReverseBytes(a);
    ReversedTwice(old(a[..]));
  }

  class LogonSession {
    const sha: Hash
    const login: seq<Byte>
    const row: AccountRow
    var s: nat
    var v: nat
    var b: nat
    var B: nat

    /** The salt is drawn with its top bit set, so it always has 32 bytes. */
    ghost predicate Valid()
      reads this, row
    {
      NumBytes(s) == 32 && v < PRIME && B < PRIME && StoredHash(row.shaPass)
    }

    constructor (sha: Hash, login: seq<Byte>, row: AccountRow, randomSalt: nat)
      requires NumBytes(randomSalt) == 32 && StoredHash(row.shaPass)
      ensures Valid() && this.sha == sha && this.login == login && this.row == row && s == randomSalt
    {
      this.sha, this.login, this.row := sha, login, row;
      s, v, b, B := randomSalt, 0, 0, 0;
    }

    method SetVs()
      requires Valid()
      modifies this`v, row`s, row`v
      ensures Valid()
      ensures v == ServerVerifier(sha, s, row.shaPass)
      ensures row.s == Hex(s) && row.v == Hex(v)
    {
      var sBytes := ToWire(s);
      var p := new Byte[20](_ => 0);
      assert p[..] == Zeros(20);
      BnToBin(Unhex(row.shaPass), p);
      var x := new Byte[20];
      var d := sha(sBytes[..] + p[..]);
      forall i | 0 <= i < 20 {
        x[i] := d[i];
      }
      assert x[..] == d;
      ReverseBytes(x);
      FromBinReversed(d);
      PrimeWidth();
      v := PowMod(GENERATOR, FromBin(x[..]), PRIME);
      row.SetSv(Hex(s), Hex(v));
    }

    /** An existing, unlocked account: publish B and the salt. */
    method AccountExists(randomB: nat, randomTail: nat) returns (packet: seq<Byte>)
      requires Valid() && NumBytes(randomTail) == 16
      modifies this`v, this`b, this`B, row`s, row`v
      ensures Valid()
      ensures v == ServerVerifier(sha, s, row.shaPass) && b == randomB
      ensures B == ServerPublic(GENERATOR, v, b, PRIME)
      ensures row.s == Hex(s) && row.v == Hex(v)
      ensures NumBytes(B) <= 32 && packet == Challenge(s, B, randomTail)
    {
      hide NumBytes, PowMod, Pow256, ServerVerifier, Challenge, Hex;
      SetVs();
      b := randomB;
      PrimeWidth();
      B := (v * MULTIPLIER + PowMod(GENERATOR, b, PRIME)) % PRIME;
      BelowPrimeFits(B);
      packet := BuildChallenge(randomTail);
    }

    method BuildChallenge(randomTail: nat) returns (packet: seq<Byte>)
      requires Valid() && NumBytes(B) <= 32 && NumBytes(randomTail) == 16
      ensures packet == Challenge(s, B, randomTail)
    {
      PrimeWidth();
      hide Wire, FixedLE, Bin, BinReversed, NumBytes;
      var tmp := ToWire(B);
      packet := [0, 0, 0] + tmp[..];
      packet := packet + [1, GENERATOR, 32];
      OverwriteWire(PRIME, tmp);
      packet := packet + tmp[..];
      OverwriteWire(s, tmp);
      packet := packet + tmp[..];
      ghost var before := tmp[..];
      BnToBin(randomTail, tmp);
      FrontOf(randomTail, before);
      packet := packet + tmp[..16];
      packet := packet + [0];
    }

    /** The client's proof. The buffer for S is not cleared: `stack` is the memory it lies in. */
    method HandleLogonProof(A: array<Byte>, M1: seq<Byte>, stack: array<Byte>) returns (accepted: bool, hamk: Digest)
      requires Valid() && A.Length == 32 && stack.Length == 32 && A != stack
      modifies A, stack, row`sessionkey
      ensures Valid() && A[..] == old(A[..]) && NumBytes(B) <= 32
      ensures accepted <==> M1 == ServerProof(sha, login, s, v, b, B, A[..], old(stack[..]))
      ensures var K := ServerKey(sha, v, b, B, A[..], old(stack[..]));
        && (accepted <==>
              M1 == sha(XorAll(sha(FixedLE(PRIME, 32)), sha([7])) + sha(login) + Wire(s) + A[..] + Wire(B) + K))
        && (accepted ==> hamk == sha(A[..] + M1 + K))
      ensures accepted ==> hamk == Reply(sha, A[..], M1, ServerKey(sha, v, b, B, A[..], old(stack[..])))
      ensures row.sessionkey ==
        if accepted then Hex(LE(ServerKey(sha, v, b, B, A[..], old(stack[..])))) else old(row.sessionkey)
    {
      BelowPrimeFits(B);
      PrimeWidth();
      hide Wire, FixedLE, Scrambler, ServerSecret, SessionKey, Hex, LE, NumBytes, XorAll, BinReversed;
      var a := ReadLE(A);
      var bWire := ToWire(B);
      var u := ScramblerOf(A, bWire);
      SecretFits(sha, v, b, B, A[..]);
      var K := SecretKey(a, u, stack);
      var m := ProofOf(A, bWire, K);
      hamk := Zeros(20);
      accepted := M1 == m;
      if accepted {
        hamk := sha(A[..] + m + K[..]);
        row.UpdateAccount(K);
      }
    }

    method ScramblerOf(A: array<Byte>, bWire: array<Byte>) returns (u: nat)
      ensures u == Scrambler(sha, A[..], bWire[..])
    {
      var digest := sha(A[..] + bWire[..]);
      u := FromBin(Reversed(digest));
      FromBinReversed(digest);
    }

    /** S and the interleaved key. */
    method SecretKey(a: nat, u: nat, stack: array<Byte>) returns (K: array<Byte>)
      requires stack.Length == 32
      modifies stack
      ensures fresh(K) && K.Length == 40
      ensures var S := ServerSecret(a, v, u, b, PRIME);
        NumBytes(S) <= 32 && K[..] == SessionKey(sha, BinReversed(S, old(stack[..])))
    {
      hide SessionKey, LE;
      var S := PowMod(a * PowMod(v, u, PRIME), b, PRIME);
      BelowPrimeFits(S);
      BnToBin(S, stack);
      ReverseBytes(stack);
      K := new Byte[40];
      InterleaveKey(sha, stack, K);
    }

    method ProofOf(A: array<Byte>, bWire: array<Byte>, K: array<Byte>) returns (m: Digest)
      requires Valid()
      ensures m == Proof(sha, login, Wire(s), A[..], bWire[..], K[..])
      ensures m == sha(XorAll(sha(FixedLE(PRIME, 32)), sha([7])) + sha(login) + Wire(s) + A[..] + bWire[..] + K[..])
    {
      PrimeWidth();
      hide NumBytes, LE, FixedLE, BinReversed;
      BinReversedFull(PRIME, Zeros(32));
      var nWire := ToWire(PRIME);
      var mask := XorAll(sha(nWire[..]), sha([7]));
      var saltWire := ToWire(s);
      m := sha(mask + sha(login) + saltWire[..] + A[..] + bWire[..] + K[..]);
    }
  }

  // ---------------------------------------------------------------- what an honest client gets

  /** The stored hexadecimal hash yields the hash bytes again exactly when the hash has no leading zero byte. */
  lemma PassHashSurvives(h: Digest, shaPass: string)
    requires Unhex(shaPass) == FromBin(h)
    ensures StoredHash(shaPass)
    ensures PassBytes(shaPass) == h <==> h[0] != 0 || h == Zeros(20)
  {
    hide LE, MinLE, NumBytes, Pow256;
    var n := FromBin(h);
    LEBound(Reversed(h));
    NumBytesFits(n, 20);
    assert Reversed(Zeros(20)) == Zeros(20);
    LEZeros(20);
    if h[0] != 0 {
      BinFromBin(h);
      assert BinInto(n, Zeros(20)) == h;
    } else if n == 0 {
      LEInjective(Reversed(h), Zeros(20));
      ReversedTwice(h);
      BinZero();
      assert BinInto(n, Zeros(20)) == Zeros(20);
    } else {
      BinFirst(n);
      assert BinInto(n, Zeros(20))[0] == Bin(n)[0] != 0;
    }
  }

  lemma BinZero()
    ensures Bin(0) == [] && NumBytes(0) == 0
  {
  }

  lemma BinFirst(n: nat)
    requires n > 0
    ensures NumBytes(n) > 0 && Bin(n)[0] != 0
  {
    MinLEValue(n);
  }

  /** What the client reads as B is the daemon's B exactly when B fills its 32 bytes, or is 0. */
  lemma ClientReadsB(B: nat)
    requires NumBytes(B) <= 32
    ensures LE(Wire(B)) == B <==> B == 0 || NumBytes(B) == 32
  {
    hide LE, Wire, NumBytes, Pow256;
    WireValue(B);
    if 0 < B && NumBytes(B) < 32 {
      ShiftGrows(B, 32 - NumBytes(B));
    } else if B > 0 {
      assert Pow256(0) == 1 by { PowZero(); }
    }
  }

  lemma PowZero()
    ensures Pow256(0) == 1
  {
  }

  lemma WireValue(B: nat)
    requires NumBytes(B) <= 32
    ensures LE(Wire(B)) == B * Pow256(32 - NumBytes(B))
  {
    hide LE, NumBytes, Pow256, BinReversed;
    BinReversedValue(B, 32);
  }

  /**
   The key is made from S alone exactly when S has full width, or is 0 and the stack was cleared; a
   full-width S leaves nothing of what the stack held.
   */
  lemma FullSecret(sha: Hash, v: nat, b: nat, B: nat, A: seq<Byte>, stack: seq<Byte>)
    requires NumBytes(B) <= 32 && |stack| == 32
    ensures var S := ServerS(sha, v, b, B, A);
      && NumBytes(S) <= 32
      && (BinReversed(S, stack) == FixedLE(S, 32) <==> NumBytes(S) == 32 || (S == 0 && stack == Zeros(32)))
      && (NumBytes(S) == 32 ==> ServerKey(sha, v, b, B, A, stack) == SessionKey(sha, FixedLE(S, 32)))
  {
    hide SessionKey, ServerS, BinReversed;
    SecretFits(sha, v, b, B, A);
    BinReversedExactly(ServerS(sha, v, b, B, A), stack);
  }

  /**
   The client's number is not checked: from any multiple of the prime the daemon makes a key in which
   neither the verifier nor B takes part, only what the stack held.
   */
  lemma MultipleFixesKey(sha: Hash, v: nat, b: nat, B: nat, A: seq<Byte>, stack: seq<Byte>)
    requires NumBytes(B) <= 32 && |stack| == 32 && LE(A) % PRIME == 0 && b > 0
    ensures ServerS(sha, v, b, B, A) == 0
    ensures ServerKey(sha, v, b, B, A, stack) == SessionKey(sha, Reversed(stack))
  {
    hide SessionKey, LE, NumBytes, BinReversed, ServerSecret;
    PrimeWidth();
    MultipleFixesSecret(LE(A), v, Scrambler(sha, A, Wire(B)), b, PRIME);
    SecretFits(sha, v, b, B, A);
    NothingToWrite(stack);
  }

  /** Before the account was answered there is no verifier and no exponent, and the secret is 1 for every A. */
  lemma UnansweredSecret(sha: Hash, A: seq<Byte>, stack: seq<Byte>)
    requires |stack| == 32
    ensures NumBytes(0) == 0 && ServerS(sha, 0, 0, 0, A) == 1
    ensures ServerKey(sha, 0, 0, 0, A, stack) == SessionKey(sha, Reversed(stack[1..]) + [1])
    ensures Wire(0) == Zeros(32)
  {
    hide SessionKey, LE;
    NothingToWrite(Zeros(32));
    assert MinLE(1) == [1];
    BinReversedShape(1, stack);
  }

  /**
   What an honest client that knows the hash behind the stored one computes is what the daemon
   computes: the key, the proof it compares with, and the reply. The salt, B and S have full width.
   */
  lemma HonestClientAgrees(sha: Hash, login: seq<Byte>, passHash: Digest, shaPass: string, s: nat, a: nat,
        b: nat, stack: seq<Byte>)
    requires NumBytes(s) == 32 && |stack| == 32
    requires Unhex(shaPass) == FromBin(passHash) && passHash[0] != 0
    requires StoredHash(shaPass)
    requires var v := ServerVerifier(sha, s, shaPass);
      var B := ServerPublic(GENERATOR, v, b, PRIME);
      NumBytes(B) == 32 && NumBytes(ServerS(sha, v, b, B, FixedLE(PowMod(GENERATOR, a, PRIME), 32))) == 32
    ensures
      var v := ServerVerifier(sha, s, shaPass);
      var B := ServerPublic(GENERATOR, v, b, PRIME);
      var c := Client(sha, login, passHash, Wire(s), Wire(B), a);
      && LE(c.A) == PowMod(GENERATOR, a, PRIME)
      && c.K == ServerKey(sha, v, b, B, c.A, stack)
      && c.M1 == ServerProof(sha, login, s, v, b, B, c.A, stack)
      && c.expected == Reply(sha, c.A, c.M1, ServerKey(sha, v, b, B, c.A, stack))
      && c.M1 == sha(XorAll(sha(FixedLE(PRIME, 32)), sha([7])) + sha(login) + Wire(s) + c.A + Wire(B) + c.K)
  {
    hide NumBytes, FromBin, Wire, SessionKey, ClientKey, PassBytes, Pow256, PowMod;
    hide BinReversed;
    PrimeWidth();
    SameMask(sha);
    PassHashSurvives(passHash, shaPass);
    var x := PrivateKey(sha, Wire(s), passHash);
    var v := ServerVerifier(sha, s, shaPass);
    assert v == Verifier(GENERATOR, x, PRIME);
    var B := ServerPublic(GENERATOR, v, b, PRIME);
    ClientReadsB(B);
    var A := FixedLE(PowMod(GENERATOR, a, PRIME), 32);
    FixedLEValue(PowMod(GENERATOR, a, PRIME), 32);
    Agreement(GENERATOR, x, Scrambler(sha, A, Wire(B)), a, b, PRIME);
    FullSecret(sha, v, b, B, A, stack);
    SameSessionKey(sha, FixedLE(ServerS(sha, v, b, B, A), 32));
  }

  lemma SameMask(sha: Hash)
    ensures ClientMask(sha) == XorAll(sha(FixedLE(PRIME, 32)), sha([7]))
  {
    hide Xor, FixedLE;
  }

  // ---------------------------------------------------------------- the proxy daemon

  const TBC_KEY: seq<Byte> :=
    [0x38, 0xA7, 0x83, 0x15, 0xF8, 0x92, 0x25, 0x30, 0x71, 0x98, 0x67, 0xB1, 0x8C, 0x04, 0xE2, 0xAA]

  type Mac = (seq<Byte>, seq<Byte>) -> Digest

  /** What the proxy recomputes from the stored salt: here the salt is unpacked to its own width. */
  function ProxyVerifier(sha: Hash, sText: string, shaPass: string): nat
    requires StoredHash(shaPass)
  {
    Verifier(GENERATOR, PrivateKey(sha, Reversed(Bin(Unhex(sText))), PassBytes(shaPass)), PRIME)
  }

  function StoredKey(sessionkey: string): seq<Byte> {
    Reversed(Bin(Unhex(sessionkey)))
  }

  /** The bytes the session digest is checked over: only the first 40 of the unpacked number are reversed. */
  function CheckedKey(sessionkey: string): seq<Byte> {
    var k := Bin(Unhex(sessionkey));
    if |k| >= 40 then Reversed(k[..40]) + k[40..] else Reversed(k)
  }

  function SessionDigest(sha: Hash, login: seq<Byte>, clientSeed: seq<Byte>, seed: seq<Byte>, K: seq<Byte>): Digest {
    sha(login + [0, 0, 0, 0] + clientSeed + seed + K)
  }

  /** The verifier is g^x again, with the salt in its own width. */
  lemma ProxyVerifierValue(sha: Hash, s: nat, shaPass: string)
    requires StoredHash(shaPass)
    ensures ProxyVerifier(sha, Hex(s), shaPass) == Pow(7, LE(sha(MinLE(s) + PassBytes(shaPass)))) % PRIME
  {
    hide Pow, LE, MinLE, Unhex, Hex;
    HexRoundTrip(s);
    ReversedTwice(MinLE(s));
  }

  /** The stored key as a number, without leading zeros, the lowest byte first. */
  lemma StoredKeyValue(sessionkey: string)
    ensures LE(StoredKey(sessionkey)) == Unhex(sessionkey) && |StoredKey(sessionkey)| == NumBytes(Unhex(sessionkey))
  {
    hide Unhex;
    MinLEValue(Unhex(sessionkey));
    ReversedTwice(MinLE(Unhex(sessionkey)));
  }

  /** Byte k of what is checked: counted from the other end of the first forty, and behind them as it is. */
  lemma CheckedKeyAt(sessionkey: string, k: nat)
    requires k < NumBytes(Unhex(sessionkey)) && NumBytes(Unhex(sessionkey)) >= 40
    ensures |CheckedKey(sessionkey)| == NumBytes(Unhex(sessionkey))
    ensures CheckedKey(sessionkey)[k] == Bin(Unhex(sessionkey))[if k < 40 then 39 - k else k]
  {
    hide Unhex, Bin, NumBytes;
  }

  datatype Entry = UnknownAccount | WrongVerifier | WrongDigest | Entered(cipherKey: Digest)

  class ProxySession {
    const sha: Hash
    const hmac: Mac
    const seed: seq<Byte>
    var login: seq<Byte>
    var clientSeed: seq<Byte>
    var clientDigest: seq<Byte>
    var cipherKey: Digest
    var initialised: bool
    var replies: seq<seq<Byte>>
    var alive: bool

    constructor (sha: Hash, hmac: Mac, seed: seq<Byte>)
      ensures this.sha == sha && this.hmac == hmac && this.seed == seed
      ensures !initialised && replies == [] && alive
    {
      this.sha, this.hmac, this.seed := sha, hmac, seed;
      login, clientSeed, clientDigest := [], [], [];
      cipherKey, initialised, replies, alive := Zeros(20), false, [], true;
    }

    method HandleAuthSession(login: seq<Byte>, clientSeed: seq<Byte>, digest: seq<Byte>)
      modifies this`login, this`clientSeed, this`clientDigest
      ensures this.login == login && this.clientSeed == clientSeed && this.clientDigest == digest
    {
      this.login, this.clientSeed, this.clientDigest := login, clientSeed, digest;
    }

    ghost function Verdict(state: bool, row: AccountRow): Entry
      requires StoredHash(row.shaPass)
      reads this, row
    {
      if !state then UnknownAccount
      else if Hex(ProxyVerifier(sha, row.s, row.shaPass)) != row.v then WrongVerifier
      else if SessionDigest(sha, login, clientSeed, seed, CheckedKey(row.sessionkey)) != clientDigest then WrongDigest
      else Entered(hmac(TBC_KEY, StoredKey(row.sessionkey)))
    }

    /** The key text is unpacked to its own width but reversed over 40 bytes, so it must have 40 at least. */
    method AccountRetrieved(state: bool, row: AccountRow, expansion: Byte)
      requires StoredHash(row.shaPass)
      requires state && row.v == Hex(ProxyVerifier(sha, row.s, row.shaPass)) ==> NumBytes(Unhex(row.sessionkey)) >= 40
      modifies this`cipherKey, this`initialised, this`replies, this`alive
      ensures match old(Verdict(state, row))
        case UnknownAccount =>
          !alive && replies == old(replies) + [[0x15]] && initialised == old(initialised) && cipherKey == old(cipherKey)
        case WrongVerifier =>
          !alive && replies == old(replies) && initialised == old(initialised) && cipherKey == old(cipherKey)
        case WrongDigest =>
          !alive && replies == old(replies) && initialised == old(initialised) && cipherKey == old(cipherKey)
        case Entered(key) =>
          && alive == old(alive) && initialised && cipherKey == key
          && replies == old(replies) + [[0x0C, 0, 0, 0, 0, 0, 0, 0, 0, 0, expansion]]
      ensures var known := state && row.v == Hex(ProxyVerifier(sha, row.s, row.shaPass));
        var entered := known
          && clientDigest == sha(login + [0, 0, 0, 0] + clientSeed + seed + CheckedKey(row.sessionkey));
        && alive == (old(alive) && entered)
        && (entered ==> initialised && cipherKey == hmac(TBC_KEY, StoredKey(row.sessionkey)))
        && (!entered ==> initialised == old(initialised) && cipherKey == old(cipherKey))
        && replies == old(replies) + (if !state then [[0x15]]
             else if entered then [[0x0C, 0, 0, 0, 0, 0, 0, 0, 0, 0, expansion]] else [])
    {
      hide Hex, Unhex, NumBytes, ProxyVerifier, Reversed, Bin;
      if !state {
        replies := replies + [[0x15]];
        alive := false;
        return;
      }
      var v := RecomputeVerifier(row);
      if Hex(v) != row.v {
        alive := false;
        return;
      }
      var k := Unpack(Unhex(row.sessionkey));
      ReverseFront(k, 40);
      var check := sha(login + [0, 0, 0, 0] + clientSeed + seed + k[..]);
      if check != clientDigest {
        alive := false;
        return;
      }
      SetKey(Unhex(row.sessionkey));
      replies := replies + [[0x0C, 0, 0, 0, 0, 0, 0, 0, 0, 0, expansion]];
    }

    method RecomputeVerifier(row: AccountRow) returns (v: nat)
      requires StoredHash(row.shaPass)
      ensures v == ProxyVerifier(sha, row.s, row.shaPass)
    {
      hide Unhex, NumBytes, MinLE, LE;
      PrimeWidth();
      var salt := Unpack(Unhex(row.s));
      ReverseBytes(salt);
      var p := new Byte[20](_ => 0);
      assert p[..] == Zeros(20);
      BnToBin(Unhex(row.shaPass), p);
      var digest := sha(salt[..] + p[..]);
      var x := FromBin(Reversed(digest));
      FromBinReversed(digest);
      v := PowMod(GENERATOR, x, PRIME);
    }

    method SetKey(K: nat)
      modifies this`cipherKey, this`initialised
      ensures initialised && cipherKey == hmac(TBC_KEY, Reversed(Bin(K)))
    {
      var tmp := Unpack(K);
      ReverseBytes(tmp);
      cipherKey := hmac(TBC_KEY, tmp[..]);
      initialised := true;
    }
  }

  /** A buffer of exactly the number's own width. */
  method Unpack(n: nat) returns (a: array<Byte>)
    ensures fresh(a) && a[..] == Bin(n)
  {
    a := new Byte[NumBytes(n)];
    BnToBin(n, a);
  }

  /** The proxy recomputes the realm daemon's verifier from the salt text, as the salt has full width. */
  lemma SameVerifier(sha: Hash, s: nat, shaPass: string)
    requires NumBytes(s) == 32 && StoredHash(shaPass)
    ensures ProxyVerifier(sha, Hex(s), shaPass) == ServerVerifier(sha, s, shaPass)
  {
    HexRoundTrip(s);
    BinReversedFull(s, Zeros(32));
    ReversedTwice(MinLE(s));
  }

  /** The stored text gives back the 40 key bytes exactly when the last one is not zero. */
  lemma SameKey(K: seq<Byte>)
    requires |K| == 40
    ensures StoredKey(Hex(LE(K))) == K <==> K[39] != 0
    ensures K[39] != 0 ==> NumBytes(Unhex(Hex(LE(K)))) == 40
  {
    HexRoundTrip(LE(K));
    ReversedTwice(K);
    BinFromBin(Reversed(K));
    if StoredKey(Hex(LE(K))) == K {
      ReversedTwice(Bin(LE(K)));
    }
  }

  /** Exactly 40 bytes are checked as they are stored. */
  lemma WholeKey(sessionkey: string)
    ensures NumBytes(Unhex(sessionkey)) == 40 ==> CheckedKey(sessionkey) == StoredKey(sessionkey)
  {
    var k := Bin(Unhex(sessionkey));
    if |k| == 40 {
      assert k[..40] == k && k[40..] == [];
      assert Reversed(k) + [] == Reversed(k);
    }
  }

  /**
   From logon to world entry: the row the realm daemon wrote makes the proxy accept the session
   digest of the client it wrote it for, and key its cipher from the very same 40 bytes.
   */
  lemma HandOff(sha: Hash, hmac: Mac, login: seq<Byte>, s: nat, K: seq<Byte>, seed: seq<Byte>,
        clientSeed: seq<Byte>, proxy: ProxySession, row: AccountRow)
    requires NumBytes(s) == 32 && |K| == 40 && K[39] != 0 && StoredHash(row.shaPass)
    requires row.s == Hex(s) && row.v == Hex(ServerVerifier(sha, s, row.shaPass)) && row.sessionkey == Hex(LE(K))
    requires proxy.sha == sha && proxy.hmac == hmac && proxy.seed == seed
    requires proxy.login == login && proxy.clientSeed == clientSeed
    ensures NumBytes(Unhex(row.sessionkey)) == 40
    ensures proxy.clientDigest == SessionDigest(sha, login, clientSeed, seed, K)
      <==> proxy.Verdict(true, row) == Entered(hmac(TBC_KEY, K))
  {
    hide Hex, Unhex, LE, MinLE, NumBytes, CheckedKey;
    SameVerifier(sha, s, row.shaPass);
    SameKey(K);
    WholeKey(row.sessionkey);
  }
}

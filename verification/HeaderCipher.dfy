/** The chained cipher over packet headers. */
module HeaderCipher {
  import opened Bytes

  const KEY_LENGTH: nat := 20
  const SEND_LENGTH: nat := 4
  const RECV_LENGTH: nat := 6

  type Key = k: seq<Byte> | |k| == KEY_LENGTH witness Zeros(KEY_LENGTH)

  /** One direction's position: the next key index (not yet reduced) and the last cipher byte. */
  datatype Chain = Chain(i: Byte, j: Byte)

  function NextIndex(c: Chain): Byte {
    c.i % KEY_LENGTH + 1
  }

  function EncryptByte(key: Key, c: Chain, x: Byte): Byte {
    (Xor(x, key[c.i % KEY_LENGTH]) + c.j) % 256
  }

  function DecryptByte(key: Key, c: Chain, y: Byte): Byte {
    Xor((y - c.j) % 256, key[c.i % KEY_LENGTH])
  }

  /** The cipher over any number of bytes, and the position it leaves. */
  function Encrypt(key: Key, c: Chain, s: seq<Byte>): (r: (seq<Byte>, Chain))
    ensures |r.0| == |s|
    decreases |s|
  {
    if s == [] then ([], c)
    else
      var y := EncryptByte(key, c, s[0]);
      var (t, d) := Encrypt(key, Chain(NextIndex(c), y), s[1..]);
      ([y] + t, d)
  }

  function Decrypt(key: Key, c: Chain, s: seq<Byte>): (r: (seq<Byte>, Chain))
    ensures |r.0| == |s|
    decreases |s|
  {
    if s == [] then ([], c)
    else
      var x := DecryptByte(key, c, s[0]);
      var (t, d) := Decrypt(key, Chain(NextIndex(c), s[0]), s[1..]);
      ([x] + t, d)
  }

  lemma ByteRoundTrip(key: Key, c: Chain, x: Byte)
    ensures DecryptByte(key, c, EncryptByte(key, c, x)) == x
    ensures EncryptByte(key, c, DecryptByte(key, c, x)) == x
  {
    hide Xor;
    var k := key[c.i % KEY_LENGTH];
    XorTwice(x, k);
    XorTwice((x - c.j) % 256, k);
  }

  /** The key index after the one of a position, counted round the key. */
  lemma NextRound(c: Chain, t: nat)
    ensures (NextIndex(c) + t) % KEY_LENGTH == (c.i + (t + 1)) % KEY_LENGTH
  {
  }

  /**
   Byte t of the cipher stream: the plain byte xored with key byte i + t, counted round the twenty bytes
   of the key, plus the cipher byte before it.
   */
  lemma {:induction false} EncryptAt(key: Key, c: Chain, s: seq<Byte>, t: nat)
    requires t < |s|
    ensures var y := Encrypt(key, c, s).0;
      y[t] == (Xor(s[t], key[(c.i + t) % 20]) + (if t == 0 then c.j else y[t - 1])) % 256
    decreases |s|
  {
    hide Xor;
    if t > 0 {
      var y := EncryptByte(key, c, s[0]);
      EncryptAt(key, Chain(NextIndex(c), y), s[1..], t - 1);
      NextRound(c, t - 1);
      assert Encrypt(key, c, s).0[1..] == Encrypt(key, Chain(NextIndex(c), y), s[1..]).0;
    }
  }

  /** And of the plain stream: the cipher byte less the one before it, xored with the same key byte. */
  lemma {:induction false} DecryptAt(key: Key, c: Chain, s: seq<Byte>, t: nat)
    requires t < |s|
    ensures Decrypt(key, c, s).0[t] == Xor((s[t] - (if t == 0 then c.j else s[t - 1])) % 256, key[(c.i + t) % 20])
    decreases |s|
  {
    hide Xor;
    if t > 0 {
      DecryptAt(key, Chain(NextIndex(c), s[0]), s[1..], t - 1);
      NextRound(c, t - 1);
      assert Decrypt(key, c, s).0[1..] == Decrypt(key, Chain(NextIndex(c), s[0]), s[1..]).0;
    }
  }

  /** Where a stream leaves the position: so many key bytes on, at its last cipher byte. */
  lemma {:induction false} EndsAt(key: Key, c: Chain, s: seq<Byte>)
    ensures var (y, d) := Encrypt(key, c, s);
      (d.i - c.i - |s|) % 20 == 0 && d.j == if s == [] then c.j else y[|s| - 1]
    ensures var d := Decrypt(key, c, s).1;
      (d.i - c.i - |s|) % 20 == 0 && d.j == if s == [] then c.j else s[|s| - 1]
    decreases |s|
  {
    hide EncryptByte, DecryptByte, NextIndex;
    if s != [] {
      var a, b := Chain(NextIndex(c), EncryptByte(key, c, s[0])), Chain(NextIndex(c), s[0]);
      EndsAt(key, a, s[1..]);
      EndsAt(key, b, s[1..]);
      NextPlace(c, Encrypt(key, a, s[1..]).1.i, |s|);
      NextPlace(c, Decrypt(key, b, s[1..]).1.i, |s|);
    }
  }

  lemma NextPlace(c: Chain, i: Byte, n: nat)
    requires n > 0
    ensures (i - NextIndex(c) - (n - 1)) % 20 == 0 ==> (i - c.i - n) % 20 == 0
  {
  }

  /** From a shared position the receiver reads what the sender wrote, and both end at the same position. */
  lemma {:induction false} RoundTrip(key: Key, c: Chain, s: seq<Byte>)
    ensures Decrypt(key, c, Encrypt(key, c, s).0) == (s, Encrypt(key, c, s).1)
    ensures Encrypt(key, c, Decrypt(key, c, s).0) == (s, Decrypt(key, c, s).1)
    decreases |s|
  {
    hide EncryptByte, DecryptByte;
    if s != [] {
      ByteRoundTrip(key, c, s[0]);
      var y, x := EncryptByte(key, c, s[0]), DecryptByte(key, c, s[0]);
      RoundTrip(key, Chain(NextIndex(c), y), s[1..]);
      RoundTrip(key, Chain(NextIndex(c), s[0]), s[1..]);
      assert Encrypt(key, c, s).0[1..] == Encrypt(key, Chain(NextIndex(c), y), s[1..]).0;
      assert Decrypt(key, c, s).0[1..] == Decrypt(key, Chain(NextIndex(c), s[0]), s[1..]).0;
      assert s == [s[0]] + s[1..];
    }
  }

  /** Where a stream is cut into headers makes no difference. */
  lemma {:induction false} EncryptCut(key: Key, c: Chain, s: seq<Byte>, t: seq<Byte>)
    ensures var (a, d) := Encrypt(key, c, s);
      Encrypt(key, c, s + t) == (a + Encrypt(key, d, t).0, Encrypt(key, d, t).1)
    decreases |s|
  {
    hide EncryptByte;
    if s == [] {
      assert s + t == t && s + Encrypt(key, c, t).0 == Encrypt(key, c, t).0;
    } else {
      var y := EncryptByte(key, c, s[0]);
      EncryptCut(key, Chain(NextIndex(c), y), s[1..], t);
      assert (s + t)[1..] == s[1..] + t;
      var (a, d) := Encrypt(key, Chain(NextIndex(c), y), s[1..]);
      assert [y] + (a + Encrypt(key, d, t).0) == ([y] + a) + Encrypt(key, d, t).0;
    }
  }

  lemma {:induction false} DecryptCut(key: Key, c: Chain, s: seq<Byte>, t: seq<Byte>)
    ensures var (a, d) := Decrypt(key, c, s);
      Decrypt(key, c, s + t) == (a + Decrypt(key, d, t).0, Decrypt(key, d, t).1)
    decreases |s|
  {
    hide DecryptByte;
    if s == [] {
      assert s + t == t && s + Decrypt(key, c, t).0 == Decrypt(key, c, t).0;
    } else {
      DecryptCut(key, Chain(NextIndex(c), s[0]), s[1..], t);
      assert (s + t)[1..] == s[1..] + t;
      var x := DecryptByte(key, c, s[0]);
      var (a, d) := Decrypt(key, Chain(NextIndex(c), s[0]), s[1..]);
      assert [x] + (a + Decrypt(key, d, t).0) == ([x] + a) + Decrypt(key, d, t).0;
    }
  }

  function Flatten(parts: seq<seq<Byte>>): seq<Byte> {
    if parts == [] then [] else parts[0] + Flatten(parts[1..])
  }

  /** Cipher a list of headers one after the other. */
  function EncryptAll(key: Key, c: Chain, parts: seq<seq<Byte>>): (seq<seq<Byte>>, Chain)
    decreases |parts|
  {
    if parts == [] then ([], c)
    else
      var (a, d) := Encrypt(key, c, parts[0]);
      var (r, e) := EncryptAll(key, d, parts[1..]);
      ([a] + r, e)
  }

  function DecryptAll(key: Key, c: Chain, parts: seq<seq<Byte>>): (seq<seq<Byte>>, Chain)
    decreases |parts|
  {
    if parts == [] then ([], c)
    else
      var (a, d) := Decrypt(key, c, parts[0]);
      var (r, e) := DecryptAll(key, d, parts[1..]);
      ([a] + r, e)
  }

  /** Any two ways of cutting the same stream into headers give the same cipher stream and the same position. */
  lemma {:induction false} CutsAgree(key: Key, c: Chain, parts: seq<seq<Byte>>)
    ensures var (r, e) := EncryptAll(key, c, parts);
      (Flatten(r), e) == Encrypt(key, c, Flatten(parts))
    decreases |parts|
  {
    if parts != [] {
      var (a, d) := Encrypt(key, c, parts[0]);
      CutsAgree(key, d, parts[1..]);
      EncryptCut(key, c, parts[0], Flatten(parts[1..]));
      var (r, e) := EncryptAll(key, d, parts[1..]);
      assert ([a] + r)[1..] == r;
    }
  }

  /** A whole conversation: header by header, the peer recovers every header and stays in step. */
  lemma {:induction false} ConversationRoundTrip(key: Key, c: Chain, parts: seq<seq<Byte>>)
    ensures var (r, e) := EncryptAll(key, c, parts);
      DecryptAll(key, c, r) == (parts, e)
    decreases |parts|
  {
    if parts != [] {
      RoundTrip(key, c, parts[0]);
      var (a, d) := Encrypt(key, c, parts[0]);
      ConversationRoundTrip(key, d, parts[1..]);
      var (r, e) := EncryptAll(key, d, parts[1..]);
      assert ([a] + r)[1..] == r && [parts[0]] + parts[1..] == parts;
    }
  }

  // ---------------------------------------------------------------- the cipher object

  class ProxyCrypto {
    var key: Key
    var isInitialised: bool
    var sendI: Byte
    var sendJ: Byte
    var recvI: Byte
    var recvJ: Byte

    constructor ()
      ensures !isInitialised && SendChain() == Chain(0, 0) && RecvChain() == Chain(0, 0)
    {
      key, isInitialised := Zeros(KEY_LENGTH), false;
      sendI, sendJ, recvI, recvJ := 0, 0, 0, 0;
    }

    ghost function SendChain(): Chain
      reads this
    {
      Chain(sendI, sendJ)
    }

    ghost function RecvChain(): Chain
      reads this
    {
      Chain(recvI, recvJ)
    }

    method SetKey(k: Key)
      modifies this`key, this`isInitialised
      ensures key == k && isInitialised
    {
      key := k;
      isInitialised := true;
    }

    /** The first four bytes, whatever length is passed. */
    method EncryptHeader(data: array<Byte>)
      requires data.Length >= SEND_LENGTH
      modifies this`sendI, this`sendJ, data
      ensures isInitialised ==>
        (data[..SEND_LENGTH], SendChain()) == Encrypt(key, old(SendChain()), old(data[..SEND_LENGTH]))
      ensures !isInitialised ==> data[..SEND_LENGTH] == old(data[..SEND_LENGTH]) && SendChain() == old(SendChain())
      ensures data[SEND_LENGTH..] == old(data[SEND_LENGTH..])
    {
      if !isInitialised {
        return;
      }
      hide Encrypt, Xor;
      ghost var plain := data[..SEND_LENGTH];
      ghost var start := SendChain();
      EncryptNone(key, start);
      var t := 0;
      while t < SEND_LENGTH
        invariant t <= SEND_LENGTH
        invariant (data[..t], SendChain()) == Encrypt(key, start, plain[..t])
        invariant forall k :: t <= k < data.Length ==> data[k] == old(data[k])
      {
        EncryptNext(key, start, plain, t);
        sendI := sendI % KEY_LENGTH;
        var x := (Xor(data[t], key[sendI]) + sendJ) % 256;
        sendI := sendI + 1;
        ghost var done := data[..t];
        data[t] := x;
        sendJ := x;
        assert data[..t + 1] == done + [x];
        t := t + 1;
      }
      assert plain[..SEND_LENGTH] == plain;
    }

    /** The first six bytes, whatever length is passed. */
    method DecryptHeader(data: array<Byte>)
      requires data.Length >= RECV_LENGTH
      modifies this`recvI, this`recvJ, data
      ensures isInitialised ==>
        (data[..RECV_LENGTH], RecvChain()) == Decrypt(key, old(RecvChain()), old(data[..RECV_LENGTH]))
      ensures !isInitialised ==> data[..RECV_LENGTH] == old(data[..RECV_LENGTH]) && RecvChain() == old(RecvChain())
      ensures data[RECV_LENGTH..] == old(data[RECV_LENGTH..])
    {
      if !isInitialised {
        return;
      }
      hide Decrypt, Xor;
      ghost var cipher := data[..RECV_LENGTH];
      ghost var start := RecvChain();
      DecryptNone(key, start);
      var t := 0;
      while t < RECV_LENGTH
        invariant t <= RECV_LENGTH
        invariant (data[..t], RecvChain()) == Decrypt(key, start, cipher[..t])
        invariant forall k :: t <= k < data.Length ==> data[k] == old(data[k])
      {
        DecryptNext(key, start, cipher, t);
        recvI := recvI % KEY_LENGTH;
        var x := Xor((data[t] - recvJ) % 256, key[recvI]);
        recvI := recvI + 1;
        recvJ := data[t];
        ghost var done := data[..t];
        data[t] := x;
        assert data[..t + 1] == done + [x];
        t := t + 1;
      }
      assert cipher[..RECV_LENGTH] == cipher;
    }
  }

  lemma EncryptNone(key: Key, c: Chain)
    ensures Encrypt(key, c, []) == ([], c)
  {
  }

  lemma DecryptNone(key: Key, c: Chain)
    ensures Decrypt(key, c, []) == ([], c)
  {
  }

  lemma EncryptNext(key: Key, c: Chain, s: seq<Byte>, t: nat)
    requires t < |s|
    ensures var (a, d) := Encrypt(key, c, s[..t]);
      var y := EncryptByte(key, d, s[t]);
      Encrypt(key, c, s[..t + 1]) == (a + [y], Chain(NextIndex(d), y))
  {
    hide Encrypt, EncryptByte;
    assert s[..t + 1] == s[..t] + [s[t]];
    EncryptCut(key, c, s[..t], [s[t]]);
    EncryptOne(key, Encrypt(key, c, s[..t]).1, s[t]);
  }

  lemma DecryptNext(key: Key, c: Chain, s: seq<Byte>, t: nat)
    requires t < |s|
    ensures var (a, d) := Decrypt(key, c, s[..t]);
      Decrypt(key, c, s[..t + 1]) == (a + [DecryptByte(key, d, s[t])], Chain(NextIndex(d), s[t]))
  {
    hide Decrypt, DecryptByte;
    assert s[..t + 1] == s[..t] + [s[t]];
    DecryptCut(key, c, s[..t], [s[t]]);
    DecryptOne(key, Decrypt(key, c, s[..t]).1, s[t]);
  }

  lemma EncryptOne(key: Key, c: Chain, x: Byte)
    ensures var y := EncryptByte(key, c, x); Encrypt(key, c, [x]) == ([y], Chain(NextIndex(c), y))
  {
    hide EncryptByte;
    var y := EncryptByte(key, c, x);
    EncryptNone(key, Chain(NextIndex(c), y));
    assert [x][1..] == [] && [y] + [] == [y];
  }

  lemma DecryptOne(key: Key, c: Chain, y: Byte)
    ensures Decrypt(key, c, [y]) == ([DecryptByte(key, c, y)], Chain(NextIndex(c), y))
  {
    hide DecryptByte;
    DecryptNone(key, Chain(NextIndex(c), y));
    assert [y][1..] == [] && [DecryptByte(key, c, y)] + [] == [DecryptByte(key, c, y)];
  }
}

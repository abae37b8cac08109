/** World entry: the packet a client opens its proxy connection with, and a login through both daemons. */
module AuthSession {
  import opened Bytes
  import opened ByteBuffer
  import opened PacketBuffer
  import ProxyInput
  import opened ModArith
  import opened Srp6
  import opened SrpLogin
  import opened Wrappers

  /** The size the handler asks for before it reads. */
  const CHECKED_SIZE: nat := 33
  const HEADER: nat := 6
  /** Behind the login name: four bytes of seed and twenty of digest. */
  const TRAILER: nat := 24
  /** What name and additions may take of the largest packet the proxy daemon's receive buffer holds. */
  const ROOM: nat := ProxyInput.BUFFER - HEADER - 33

  /** The packet is ignored, a failed position check ends the daemon, or the account is asked for. */
  datatype Outcome = Ignored | Aborted | Asked(login: seq<Byte>, clientSeed: seq<Byte>, digest: seq<Byte>)

  /** Raw bytes are read like the opaque bytes of a floating-point value. */
  const FIELDS: seq<Type> := [TUnsigned(4), TUnsigned(4), TString, TUnsigned(4), TFloat(20)]

  /** A packet in memory: its size field counts everything behind itself. */
  predicate Packet(s: seq<Byte>) {
    |s| >= HEADER && LE(s[0..2]) == |s| - 2
  }

  function OutcomeOf(vs: seq<Value>): Outcome {
    if |vs| == 5 && vs[2].Text? && vs[3].Unsigned? && vs[4].Float? then
      Asked(vs[2].chars, FixedLE(vs[3].n, 4), vs[4].raw)
    else Aborted
  }

  function Parsed(s: seq<Byte>): Outcome
    requires Packet(s)
  {
    if LE(s[0..2]) < CHECKED_SIZE then Ignored
    else
      var r := DecodeInOrder(FIELDS, s, HEADER);
      if r.None? then Aborted else OutcomeOf(r.value.0)
  }

  /** Reading a string ends by m exactly when there is a zero before m. */
  lemma {:induction false} StringEnds(s: seq<Byte>, pos: nat, m: nat)
    requires pos <= m < |s|
    ensures ReadString(s, pos).1 <= m <==> 0 in s[pos..m]
    decreases m - pos
  {
    if pos < m && s[pos] != 0 {
      StringEnds(s, pos + 1, m);
      assert s[pos..m] == [s[pos]] + s[pos + 1..m];
    } else if pos < m {
      assert s[pos..m][0] == 0;
    }
  }

  lemma DecodeFields(s: seq<Byte>)
    requires |s| >= HEADER + 8
    ensures var (chars, p) := ReadString(s, HEADER + 8);
      var r := DecodeInOrder(FIELDS, s, HEADER);
      && (r.None? <==> p + TRAILER > |s|)
      && (r.Some? ==> |r.value.0| == 5 && r.value.0[2] == Text(chars))
      && (r.Some? ==> r.value.0[3] == Unsigned(4, LE(s[p..p + 4])) && r.value.0[4] == Float(s[p + 4..p + TRAILER]))
  {
    hide ReadString, LE;
    var (chars, p) := ReadString(s, HEADER + 8);
    var last := FIELDS[4..];
    assert FIELDS[1..][1..][1..][1..] == last && last[1..] == [];
    DecodeStep(FIELDS, s, HEADER);
    DecodeStep(FIELDS[1..], s, HEADER + 4);
    DecodeStep(FIELDS[2..], s, HEADER + 8);
    DecodeStep(FIELDS[3..], s, p);
    if p + 4 <= |s| {
      DecodeStep(last, s, p + 4);
    }
  }

  lemma DecodeStep(types: seq<Type>, s: seq<Byte>, pos: nat)
    requires types != [] && pos <= |s|
    ensures var x := Decode(types[0], s, pos);
      var r := DecodeInOrder(types, s, pos);
      if x.None? then r.None?
      else
        var t := DecodeInOrder(types[1..], s, x.value.1);
        if t.None? then r.None? else r == Some(([x.value.0] + t.value.0, t.value.1))
  {
  }

  /**
   The size check does not make the reads safe: they fail exactly when no zero ends the name before the
   last 24 bytes.
   */
  lemma AbortsExactly(s: seq<Byte>)
    requires Packet(s) && LE(s[0..2]) >= CHECKED_SIZE
    ensures Parsed(s) == Aborted <==> |s| < HEADER + 8 + TRAILER || 0 !in s[HEADER + 8..|s| - TRAILER]
  {
    DecodeFields(s);
    hide DecodeInOrder, LE;
    if |s| >= HEADER + 8 + TRAILER {
      StringEnds(s, HEADER + 8, |s| - TRAILER);
    }
  }

  /** A packet is ignored exactly when it declares a size below 33. */
  lemma IgnoredExactly(s: seq<Byte>)
    requires Packet(s)
    ensures Parsed(s) == Ignored <==> LE(s[0..2]) < 33
  {
    hide DecodeInOrder, LE;
  }

  /** Where the fields stand: the name from byte 14 to its zero, then four bytes of seed and twenty of digest. */
  lemma FieldsWhere(s: seq<Byte>, z: nat)
    requires Packet(s) && LE(s[0..2]) >= 33 && 14 <= z && z + 25 <= |s| && s[z] == 0 && 0 !in s[14..z]
    ensures Parsed(s) == Asked(s[14..z], s[z + 1..z + 5], s[z + 5..z + 25])
  {
    StringRead(s, 14, z);
    DecodeFields(s);
    hide DecodeInOrder, LE, ReadString, FixedLE;
    SeedBytes(s[z + 1..z + 5]);
  }

  /** A packet that passes the size check and ends the daemon: a name of any length without a zero behind it. */
  lemma UnendedNameAborts(n: nat, c: Byte)
    requires 33 <= n < 65536 - 4 && c != 0
    ensures var s := FixedLE(n + 4, 2) + seq(n + 4, _ => c);
      Packet(s) && Parsed(s) == Aborted
  {
    hide Parsed;
    var s := FixedLE(n + 4, 2) + seq(n + 4, _ => c);
    SizeReadsBack(n + 4);
    assert s[0..2] == FixedLE(n + 4, 2);
    assert forall k :: 2 <= k < |s| ==> s[k] == c;
    AbortsExactly(s);
  }

  // ---------------------------------------------------------------- the client's packet

  function FieldValues(build: nat, extra: nat, login: seq<Byte>, clientSeed: seq<Byte>, digest: Digest): seq<Value> {
    [Unsigned(4, build), Unsigned(4, extra), Text(login), Unsigned(4, LE(clientSeed)), Float(digest)]
  }

  /** Header, fields, and whatever the client adds behind them. */
  function AuthPacket(op: nat, fields: seq<Byte>, more: seq<Byte>): seq<Byte> {
    FixedLE((|fields| + |more| + 4) % 65536, 2) + FixedLE(op, 4) + fields + more
  }

  /** What an honest client sends is understood as it was meant, whatever stands behind it. */
  lemma PacketUnderstood(op: nat, build: nat, extra: nat, login: seq<Byte>, clientSeed: seq<Byte>,
        digest: Digest, more: seq<Byte>)
    requires build < Pow256(4) && extra < Pow256(4) && 0 !in login && |clientSeed| == 4
    requires |EncodeAll(FieldValues(build, extra, login, clientSeed, digest))| + |more| + 4 < 65536
    ensures var s := AuthPacket(op, EncodeAll(FieldValues(build, extra, login, clientSeed, digest)), more);
      Packet(s) && Parsed(s) == Asked(login, clientSeed, digest)
  {
    var vs := FieldValues(build, extra, login, clientSeed, digest);
    FieldsLength(build, extra, login, clientSeed, digest);
    SeedBytes(clientSeed);
    FieldsTyped(build, extra, login, clientSeed, digest);
    FieldsMean(build, extra, login, clientSeed, digest);
    hide FieldValues, EncodeAll, HasType, OutcomeOf, Pow256, DecodeInOrder, LE, AuthPacket, FixedLE;
    PacketRead(op, vs, more);
  }

  /** A packet of fields of the right types declares its size and gives them back. */
  lemma PacketRead(op: nat, vs: seq<Value>, more: seq<Byte>)
    requires |vs| == |FIELDS| && forall k :: 0 <= k < |vs| ==> HasType(vs[k], FIELDS[k])
    requires CHECKED_SIZE <= |EncodeAll(vs)| + |more| + 4 < 65536
    ensures var s := AuthPacket(op, EncodeAll(vs), more);
      Packet(s) && Parsed(s) == OutcomeOf(vs)
  {
    hide DecodeInOrder, EncodeAll, LE, FixedLE, Pow256, HasType, OutcomeOf;
    var fields := EncodeAll(vs);
    var size := |fields| + |more| + 4;
    SizeReadsBack(size);
    var head := FixedLE(size % 65536, 2) + FixedLE(op, 4);
    var s := AuthPacket(op, fields, more);
    assert s == head + fields + more && s[0..2] == FixedLE(size, 2);
    SessionRoundTrip(vs, FIELDS, head, more);
  }

  lemma FieldsMean(build: nat, extra: nat, login: seq<Byte>, clientSeed: seq<Byte>, digest: Digest)
    requires |clientSeed| == 4
    ensures OutcomeOf(FieldValues(build, extra, login, clientSeed, digest)) == Asked(login, clientSeed, digest)
  {
    SeedBytes(clientSeed);
  }

  lemma FieldsLength(build: nat, extra: nat, login: seq<Byte>, clientSeed: seq<Byte>, digest: Digest)
    ensures |EncodeAll(FieldValues(build, extra, login, clientSeed, digest))| == 33 + |login|
  {
    hide EncodeAll;
    var vs := FieldValues(build, extra, login, clientSeed, digest);
    EncodeCons(vs[0], vs[1..]);
    EncodeCons(vs[1], vs[2..]);
    EncodeCons(vs[2], vs[3..]);
    EncodeCons(vs[3], vs[4..]);
    EncodeCons(vs[4], []);
    assert vs == [vs[0]] + vs[1..] && vs[1..] == [vs[1]] + vs[2..] && vs[2..] == [vs[2]] + vs[3..];
    assert vs[3..] == [vs[3]] + vs[4..] && vs[4..] == [vs[4]] + [];
  }

  lemma EncodeCons(v: Value, rest: seq<Value>)
    ensures |EncodeAll([v] + rest)| == |Encode(v)| + |EncodeAll(rest)| && |EncodeAll([])| == 0
  {
    assert ([v] + rest)[1..] == rest;
  }

  lemma FieldsTyped(build: nat, extra: nat, login: seq<Byte>, clientSeed: seq<Byte>, digest: Digest)
    requires build < Pow256(4) && extra < Pow256(4) && 0 !in login && LE(clientSeed) < Pow256(4)
    ensures var vs := FieldValues(build, extra, login, clientSeed, digest);
      |vs| == |FIELDS| && forall k :: 0 <= k < |vs| ==> HasType(vs[k], FIELDS[k])
  {
    hide LE, Pow256;
  }

  lemma SeedBytes(seed: seq<Byte>)
    requires |seed| == 4
    ensures LE(seed) < Pow256(4) && FixedLE(LE(seed), 4) == seed
  {
    LEBound(seed);
    FixedLEValue(LE(seed), 4);
    LEInjective(FixedLE(LE(seed), 4), seed);
  }

  lemma SizeReadsBack(size: nat)
    requires size < 65536
    ensures LE(FixedLE(size, 2)) == size
  {
    assert Pow256(2) == 65536 by { assert Pow256(1) == 256; }
    FixedLEValue(size, 2);
  }

  // ---------------------------------------------------------------- the handler

  /** The read cursor of a received packet starts behind its header. */
  method HandleAuthSession(pkt: Buffer, proxy: ProxySession) returns (outcome: Outcome)
    requires Packet(pkt.storage) && pkt.rpos == HEADER
    modifies pkt`rpos, proxy`login, proxy`clientSeed, proxy`clientDigest
    ensures outcome == Parsed(pkt.storage)
    ensures match outcome
      case Asked(login, clientSeed, digest) =>
        proxy.login == login && proxy.clientSeed == clientSeed && proxy.clientDigest == digest
      case _ =>
        && proxy.login == old(proxy.login) && proxy.clientSeed == old(proxy.clientSeed)
        && proxy.clientDigest == old(proxy.clientDigest)
  {
    hide LE, ReadString, DecodeInOrder;
    if LE(pkt.storage[0..2]) < CHECKED_SIZE {
      return Ignored;
    }
    DecodeFields(pkt.storage);
    var tmp := pkt.ReadUnsigned(4);
    tmp := pkt.ReadUnsigned(4);
    var login := pkt.ReadText();
    if pkt.rpos + 4 > |pkt.storage| {
      return Aborted;
    }
    var seed := pkt.ReadUnsigned(4);
    if pkt.rpos + 20 > |pkt.storage| {
      return Aborted;
    }
    var digest := pkt.storage[pkt.rpos..pkt.rpos + 20];
    pkt.rpos := pkt.rpos + 20;
    proxy.HandleAuthSession(login, FixedLE(seed, 4), digest);
    outcome := Asked(login, FixedLE(seed, 4), digest);
  }

  // ---------------------------------------------------------------- a login through both daemons

  /** What the client finds in the logon challenge. */
  lemma ChallengeRead(s: nat, B: nat, random: nat)
    requires NumBytes(s) <= 32 && NumBytes(B) <= 32 && NumBytes(random) == 16
    ensures var packet := Challenge(s, B, random);
      && packet[..3] == [0, 0, 0] && packet[35..38] == [1, 7, 32] && packet[118] == 0
      && packet[3..35] == Wire(B) && packet[70..102] == Wire(s)
      && packet[38..70] == FixedLE(PRIME, 32) && FromBin(packet[102..118]) == random
  {
    hide Wire, FixedLE, NumBytes, Bin;
    var packet := Challenge(s, B, random);
    assert packet[102..118] == Bin(random);
    FromBinOfBin(random);
  }

  /** B and S fill their 32 bytes. */
  ghost predicate FullWidths(sha: Hash, shaPass: string, s: nat, a: nat, b: nat)
    requires StoredHash(shaPass) && NumBytes(s) == 32
  {
    PrimeWidth();
    var v := ServerVerifier(sha, s, shaPass);
    var B := ServerPublic(GENERATOR, v, b, PRIME);
    NumBytes(B) == 32 && NumBytes(ServerS(sha, v, b, B, FixedLE(PowMod(GENERATOR, a, PRIME), 32))) == 32
  }

  /** The client's side: the answer to a challenge packet. */
  function AnswerTo(sha: Hash, login: seq<Byte>, passHash: Digest, packet: seq<Byte>, a: nat): (c: ClientAnswer)
    requires |packet| == 119
    ensures |c.A| == 32 && |c.K| == 40
  {
    Client(sha, login, passHash, packet[70..102], packet[3..35], a)
  }

  lemma AnswerAgrees(sha: Hash, login: seq<Byte>, passHash: Digest, shaPass: string, s: nat, a: nat, b: nat,
      tail: nat, stack: seq<Byte>)
    requires NumBytes(s) == 32 && |stack| == 32 && NumBytes(tail) == 16
    requires Unhex(shaPass) == FromBin(passHash) && passHash[0] != 0 && StoredHash(shaPass)
    requires FullWidths(sha, shaPass, s, a, b)
    ensures
      var v := ServerVerifier(sha, s, shaPass);
      var B := ServerPublic(GENERATOR, v, b, PRIME);
      && NumBytes(B) <= 32
      && var c := AnswerTo(sha, login, passHash, Challenge(s, B, tail), a);
      && c.K == ServerKey(sha, v, b, B, c.A, stack)
      && c.M1 == ServerProof(sha, login, s, v, b, B, c.A, stack)
      && c.expected == Reply(sha, c.A, c.M1, c.K)
  {
    hide Client, ServerKey, ServerProof, ServerVerifier, ServerPublic, ServerS, Wire, Reply, Unhex, NumBytes;
    hide FromBin, PowMod;
    hide Challenge, FixedLE;
    var v := ServerVerifier(sha, s, shaPass);
    ChallengeRead(s, ServerPublic(GENERATOR, v, b, PRIME), tail);
    HonestClientAgrees(sha, login, passHash, shaPass, s, a, b, stack);
  }

  /** An honest client at the realm daemon: it is accepted, gets the reply it expects, and its own key is stored. */
  method RealmLogin(session: LogonSession, stack: array<Byte>, passHash: Digest, a: nat, b: nat, tail: nat)
      returns (accepted: bool, hamk: Digest, c: ClientAnswer)
    requires session.Valid() && stack.Length == 32 && NumBytes(tail) == 16
    requires Unhex(session.row.shaPass) == FromBin(passHash) && passHash[0] != 0
    requires FullWidths(session.sha, session.row.shaPass, session.s, a, b)
    modifies session`v, session`b, session`B, session.row`s, session.row`v, session.row`sessionkey, stack
    ensures session.Valid() && accepted && hamk == c.expected && |c.K| == 40
    ensures session.row.s == Hex(session.s) && session.row.sessionkey == Hex(LE(c.K))
    ensures session.row.v == Hex(ServerVerifier(session.sha, session.s, session.row.shaPass))
    ensures NumBytes(session.B) <= 32
    ensures c == AnswerTo(session.sha, session.login, passHash, Challenge(session.s, session.B, tail), a)
  {
    hide ServerKey, ServerProof, ServerVerifier, ServerPublic, ServerS, Reply, Unhex, NumBytes, FromBin, PowMod;
    hide Hex, LE;
    hide Challenge, AnswerTo, FullWidths, Client;
    AnswerAgrees(session.sha, session.login, passHash, session.row.shaPass, session.s, a, b, tail, stack[..]);
    var packet := session.AccountExists(b, tail);
    c := AnswerTo(session.sha, session.login, passHash, packet, a);
    var A := new Byte[32](i requires 0 <= i < 32 => c.A[i]);
    assert A[..] == c.A;
    accepted, hamk := session.HandleLogonProof(A, c.M1, stack);
  }

  /** A client with the stored key at the proxy daemon: it is let in, and the cipher is keyed with that key. */
  method WorldEntry(proxy: ProxySession, row: AccountRow, ghost s: nat, login: seq<Byte>, K: seq<Byte>,
      op: nat, build: nat, extra: nat, clientSeed: seq<Byte>, more: seq<Byte>,
      expansion: Byte) returns (outcome: Outcome)
    requires NumBytes(s) == 32 && |K| == 40 && K[39] != 0 && StoredHash(row.shaPass) && proxy.alive
    requires row.s == Hex(s) && row.v == Hex(ServerVerifier(proxy.sha, s, row.shaPass)) && row.sessionkey == Hex(LE(K))
    requires build < Pow256(4) && extra < Pow256(4) && |clientSeed| == 4 && 0 !in login && |login| + |more| <= ROOM
    modifies proxy
    ensures outcome.Asked? && proxy.alive && proxy.initialised && proxy.cipherKey == proxy.hmac(TBC_KEY, K)
  {
    hide Hex, Unhex, LE, NumBytes, ServerVerifier, ProxyVerifier, EncodeAll, FieldValues, AuthPacket, Parsed;
    hide Packet, Pow256;
    hide SessionDigest;
    var digest := SessionDigest(proxy.sha, login, clientSeed, proxy.seed, K);
    FieldsLength(build, extra, login, clientSeed, digest);
    PacketUnderstood(op, build, extra, login, clientSeed, digest, more);
    var pkt := new Buffer();
    pkt.storage := AuthPacket(op, EncodeAll(FieldValues(build, extra, login, clientSeed, digest)), more);
    pkt.rpos := HEADER;
    outcome := HandleAuthSession(pkt, proxy);
    HandOff(proxy.sha, proxy.hmac, login, s, K, proxy.seed, clientSeed, proxy, row);
    proxy.AccountRetrieved(true, row, expansion);
  }

  /**
   A login from the account answer to the keyed cipher. The client knows its password hash and what
   it reads in the packets; the proxy daemon knows the account row the realm daemon wrote.
   */
  method LoginThroughBothDaemons(session: LogonSession, proxy: ProxySession, stack: array<Byte>, passHash: Digest,
      a: nat, b: nat, tail: nat, op: nat, build: nat, extra: nat, clientSeed: seq<Byte>, more: seq<Byte>,
      expansion: Byte)
      returns (accepted: bool, hamk: Digest, c: ClientAnswer, entered: bool)
    requires session.Valid() && stack.Length == 32 && NumBytes(tail) == 16
    requires proxy.sha == session.sha && proxy.alive && !proxy.initialised
    requires Unhex(session.row.shaPass) == FromBin(passHash) && passHash[0] != 0
    requires FullWidths(session.sha, session.row.shaPass, session.s, a, b)
    requires build < Pow256(4) && extra < Pow256(4) && |clientSeed| == 4
    requires 0 !in session.login && |session.login| + |more| <= ROOM
    modifies session`v, session`b, session`B, session.row`s, session.row`v, session.row`sessionkey, stack, proxy
    ensures accepted && hamk == c.expected && |c.K| == 40
    ensures NumBytes(session.B) <= 32
    ensures c == AnswerTo(session.sha, session.login, passHash, Challenge(session.s, session.B, tail), a)
    ensures entered == proxy.initialised == (c.K[39] != 0)
    ensures entered ==> proxy.alive && proxy.cipherKey == proxy.hmac(TBC_KEY, c.K)
  {
    hide Hex, Unhex, LE, NumBytes, ServerVerifier, FromBin, FullWidths, AnswerTo, Pow256;
    accepted, hamk, c := RealmLogin(session, stack, passHash, a, b, tail);
    // A key that ends in 0 is stored as a shorter number, which the proxy daemon does not unpack to 40 bytes.
    if c.K[39] != 0 {
      var outcome := WorldEntry(
        proxy, session.row, session.s, session.login, c.K, op, build, extra, clientSeed, more, expansion);
    }
    entered := proxy.initialised;
  }
}

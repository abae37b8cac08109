/**
 The runs of a connection with the digests the daemon really computes: its proof packets, and what the
 proofs behind them were compared with.
 */
module LogonRuns {
  import opened Bytes
  import opened RealmSession
  import opened Srp6
  import opened SrpLogin

  /** What a connection draws or reads once: the salt, the exponent, and the stored password hash. */
  datatype Login = Login(sha: Hash, name: seq<Byte>, s: nat, b: nat, shaPass: string)

  /** The number A of a proof message, and what the uncleared buffer for S held then. */
  datatype Message = Message(A: seq<Byte>, stack: seq<Byte>)

  predicate Usable(l: Login, msgs: seq<Message>) {
    && NumBytes(l.s) == 32 && StoredHash(l.shaPass)
    && forall k :: 0 <= k < |msgs| ==> |msgs[k].A| == 32 && |msgs[k].stack| == 32
  }

  /** The digest a proof is compared with; v, b and B are 0 until the account was answered. */
  function DigestOf(l: Login, welcomed: bool, m: Message): Digest
    requires NumBytes(l.s) == 32 && StoredHash(l.shaPass) && |m.stack| == 32
  {
    if welcomed then
      var v := ServerVerifier(l.sha, l.s, l.shaPass);
      PrimeWidth();
      var B := ServerPublic(GENERATOR, v, l.b, PRIME);
      BelowPrimeFits(B);
      ServerProof(l.sha, l.name, l.s, v, l.b, B, m.A, m.stack)
    else
      UnansweredSecret(l.sha, m.A, m.stack);
      ServerProof(l.sha, l.name, l.s, 0, 0, 0, m.A, m.stack)
  }

  /** Every proof of the run comes with the digest the daemon computes for it at that moment. */
  ghost predicate Computes(l: Login, ip: string, events: seq<Event>, msgs: seq<Message>, realms: map<nat, nat>)
    requires Usable(l, msgs) && |msgs| == |events|
  {
    forall k :: 0 <= k < |events| && events[k].ProveLogon? ==>
      events[k].computed == DigestOf(l, EverWelcomed(ip, events[..k], realms), msgs[k])
  }

  /** A message whose proof is that digest, with the account answered or not. */
  ghost predicate Earned(l: Login, ip: string, events: seq<Event>, msgs: seq<Message>, realms: map<nat, nat>,
      k: nat, welcomed: bool)
    requires Usable(l, msgs) && |msgs| == |events|
  {
    && k < |events| && events[k].ProveLogon? && welcomed == EverWelcomed(ip, events[..k], realms)
    && events[k].sent == DigestOf(l, welcomed, msgs[k])
  }

  /** The packet at i says that a proof was accepted, and a message of the run earned it. */
  ghost predicate Explained(l: Login, ip: string, events: seq<Event>, msgs: seq<Message>, realms: map<nat, nat>,
      queue: seq<Packet>, i: nat)
    requires Usable(l, msgs) && |msgs| == |events| && i < |queue|
  {
    exists k: nat :: Earned(l, ip, events, msgs, realms, k, LogonChallenge in queue[..i])
  }

  lemma EarnedLater(l: Login, ip: string, events: seq<Event>, msgs: seq<Message>, realms: map<nat, nat>,
      k: nat, welcomed: bool)
    requires events != [] && |msgs| == |events| && Usable(l, msgs)
    requires Usable(l, msgs[..|events| - 1])
    requires Earned(l, ip, events[..|events| - 1], msgs[..|events| - 1], realms, k, welcomed)
    ensures Earned(l, ip, events, msgs, realms, k, welcomed)
  {
    hide DigestOf, EverWelcomed;
    assert events[..|events| - 1][..k] == events[..k];
  }

  lemma ComputesBefore(l: Login, ip: string, events: seq<Event>, msgs: seq<Message>, realms: map<nat, nat>)
    requires events != [] && |msgs| == |events| && Usable(l, msgs) && Computes(l, ip, events, msgs, realms)
    ensures Usable(l, msgs[..|events| - 1])
    ensures Computes(l, ip, events[..|events| - 1], msgs[..|events| - 1], realms)
  {
    hide DigestOf, EverWelcomed;
    var n := |events| - 1;
    forall k | 0 <= k < n && events[..n][k].ProveLogon?
      ensures events[..n][k].computed == DigestOf(l, EverWelcomed(ip, events[..n][..k], realms), msgs[..n][k])
    {
      assert events[..n][..k] == events[..k];
    }
  }

  /**
   Over every run: each packet that says a logon proof was accepted stands for a proof that equals the
   digest over the account's verifier when a challenge was queued before, and the digest over v, b and B
   of 0 when none was.
   */
  lemma {:induction false} AcceptedProofs(l: Login, ip: string, events: seq<Event>, msgs: seq<Message>,
      realms: map<nat, nat>, i: nat)
    requires |msgs| == |events| && Usable(l, msgs) && Computes(l, ip, events, msgs, realms)
    requires var q := Run(Start(ip), events, realms).queue; i < |q| && q[i] == LogonProof
    ensures Explained(l, ip, events, msgs, realms, Run(Start(ip), events, realms).queue, i)
    decreases |events|
  {
    hide DigestOf, Earned, Step, Added, Possible, Usable, EverWelcomed;
    if events != [] {
      var n := |events| - 1;
      var before, e := events[..n], events[n];
      var c := Run(Start(ip), before, realms);
      var q := Run(Start(ip), events, realms).queue;
      ComputesBefore(l, ip, events, msgs, realms);
      RunKeeps(Start(ip), before, realms);
      ProofBehindChallenge(ip, before, realms);
      if Possible(c, e) {
        StepQueue(c, e, realms);
      }
      assert c.queue <= q;
      if i < |c.queue| {
        AcceptedProofs(l, ip, before, msgs[..n], realms, i);
        assert q[..i] == c.queue[..i];
        var k: nat :| Earned(l, ip, before, msgs[..n], realms, k, LogonChallenge in c.queue[..i]);
        EarnedLater(l, ip, events, msgs, realms, k, LogonChallenge in q[..i]);
      } else {
        LogonAdded(c, e);
        OneAdded(c, e);
        assert q == c.queue + [LogonProof] && q[..i] == c.queue;
        assert Earned(l, ip, events, msgs, realms, n, LogonChallenge in q[..i]) by {
          EarnsNow(l, ip, events, msgs, realms);
        }
      }
    }
  }

  lemma OneAdded(c: Conn, e: Event)
    ensures LogonProof in Added(c, e) ==> Added(c, e) == [LogonProof]
  {
    hide Lists;
  }

  lemma EarnsNow(l: Login, ip: string, events: seq<Event>, msgs: seq<Message>, realms: map<nat, nat>)
    requires events != [] && |msgs| == |events| && Usable(l, msgs) && Computes(l, ip, events, msgs, realms)
    requires var e := events[|events| - 1]; e.ProveLogon? && e.sent == e.computed
    ensures Earned(l, ip, events, msgs, realms, |events| - 1, EverWelcomed(ip, events[..|events| - 1], realms))
  {
    hide DigestOf, EverWelcomed;
  }

  /** No number of the account is in the digest of the second kind, only the salt, which no packet has carried yet. */
  lemma UnansweredDigest(l: Login, m: Message)
    requires NumBytes(l.s) == 32 && StoredHash(l.shaPass) && |m.stack| == 32
    ensures var K := SrpLogin.SessionKey(l.sha, Reversed(m.stack[1..]) + [1]);
      DigestOf(l, false, m) == l.sha(
        XorAll(l.sha(FixedLE(PRIME, 32)), l.sha([7])) + l.sha(l.name) + Wire(l.s) + m.A + Zeros(32) + K)
  {
    hide SrpLogin.SessionKey, Wire, NumBytes, FixedLE, XorAll;
    UnansweredSecret(l.sha, m.A, m.stack);
  }

  /** And the digest of the first kind, over the verifier, the exponent and B of the account. */
  lemma AnsweredDigest(l: Login, m: Message)
    requires NumBytes(l.s) == 32 && StoredHash(l.shaPass) && |m.stack| == 32
    ensures var v := ServerVerifier(l.sha, l.s, l.shaPass);
      var B := ServerPublic(GENERATOR, v, l.b, PRIME);
      && NumBytes(B) <= 32
      && DigestOf(l, true, m) == l.sha(
           XorAll(l.sha(FixedLE(PRIME, 32)), l.sha([7])) + l.sha(l.name) + Wire(l.s) + m.A + Wire(B)
           + ServerKey(l.sha, v, l.b, B, m.A, m.stack))
  {
    PrimeWidth();
    hide ServerKey, Wire, FixedLE, XorAll, ServerVerifier;
    BelowPrimeFits(ServerPublic(GENERATOR, ServerVerifier(l.sha, l.s, l.shaPass), l.b, PRIME));
    hide NumBytes;
  }

  /** A banned address: the proof is compared all the same, and accepted exactly when it is that digest. */
  lemma BannedAndCompared(l: Login, ip: string, build: nat, name: string, sent: seq<Byte>, m: Message,
      realms: map<nat, nat>)
    requires NumBytes(l.s) == 32 && StoredHash(l.shaPass) && |m.stack| == 32 && |m.A| == 32 && Supported(build)
    ensures var events := [AskLogon(build, name), IpBanAnswer(true), ProveLogon(sent, DigestOf(l, false, m))];
      && Usable(l, [m, m, m]) && Computes(l, ip, events, [m, m, m], realms)
      && Run(Start(ip), events, realms).queue ==
           [Banned, if sent == DigestOf(l, false, m) then LogonProof else NoMatch]
  {
    hide DigestOf, Run;
    var events := [AskLogon(build, name), IpBanAnswer(true), ProveLogon(sent, DigestOf(l, false, m))];
    BannedYetAccepted(ip, build, name, sent, DigestOf(l, false, m), realms);
    assert events[..2] == [AskLogon(build, name), IpBanAnswer(true)];
    NotWelcomed(ip, AskLogon(build, name), IpBanAnswer(true), realms);
  }

  lemma NotWelcomed(ip: string, e0: Event, e1: Event, realms: map<nat, nat>)
    requires !e0.AccountAnswer? && !e1.AccountAnswer?
    ensures !EverWelcomed(ip, [e0, e1], realms)
  {
    hide Run, Possible;
    assert [e0, e1][..1] == [e0] && [e0][..0] == [];
    assert !EverWelcomed(ip, [], realms) && !EverWelcomed(ip, [e0], realms);
  }

  // ---------------------------------------------------------------- reconnects

  /** The digest of a reconnect; two new buffers are not cleared, and the numbers fill their fronts. */
  function ReconnectDigest(sha: Hash, name: seq<Byte>, R1: seq<Byte>, number: nat, key: nat,
      room: seq<Byte>, keyRoom: seq<Byte>): Digest
    requires NumBytes(number) <= |room| == 16 && NumBytes(key) <= |keyRoom| == 40
  {
    sha(name + R1 + BinInto(number, room) + BinInto(key, keyRoom))
  }

  /**
   Before the session key query is answered the number is 0 and the key is the multiplier 3: a proof is
   accepted exactly when it is the digest of the name, the client's own bytes and what memory held.
   */
  lemma ReconnectedAndCompared(sha: Hash, ip: string, build: nat, name: string, bytes: seq<Byte>, R1: seq<Byte>,
      sent: seq<Byte>, room: seq<Byte>, keyRoom: seq<Byte>, realms: map<nat, nat>)
    requires |room| == 16 && |keyRoom| == 40
    ensures NumBytes(0) == 0 && NumBytes(MULTIPLIER) == 1
    ensures var computed := ReconnectDigest(sha, bytes, R1, 0, MULTIPLIER, room, keyRoom);
      && computed == sha(bytes + R1 + room + ([MULTIPLIER] + keyRoom[1..]))
      && Run(Start(ip), [AskReconnect(build, name), ProveReconnect(sent, computed)], realms).queue
           == if sent == computed then [ReconnectProof] else []
  {
    hide Run;
    assert MinLE(MULTIPLIER) == [MULTIPLIER] && MinLE(0) == [];
    assert BinInto(0, room) == room && BinInto(MULTIPLIER, keyRoom) == [MULTIPLIER] + keyRoom[1..];
    ReconnectedUnasked(ip, build, name, sent, ReconnectDigest(sha, bytes, R1, 0, MULTIPLIER, room, keyRoom), realms);
  }
}

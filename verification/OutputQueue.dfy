/**
 The realm daemon's output queue: packets are queued whole, the socket takes them in arbitrary
 pieces, and a handler that reports an error is dropped by the reactor.
 */
module OutputQueue {
  import opened Bytes
  import opened HeaderCipher

  /** `pushed` and `wire` are the bytes handed to `send` and the bytes the peer took, since the connection opened. */
  datatype Out = Out(queue: seq<seq<Byte>>, active: bool, armed: bool, wire: seq<Byte>, pushed: seq<Byte>)

  datatype Event = Push(packet: seq<Byte>) | Attempt(taken: int)

  const START: Out := Out([], false, false, [], [])

  /** One offer of the front packet is possible; the peer takes a number of its bytes, or -1 for an error. */
  predicate Possible(o: Out, e: Event) {
    e.Attempt? ==> o.armed && o.queue != [] && -1 <= e.taken <= |o.queue[0]|
  }

  /** What a partial write leaves of a packet: the copy starts one byte before the first byte not taken. */
  function Remainder(b: seq<Byte>, taken: nat): (r: seq<Byte>)
    requires 0 < taken < |b|
    ensures |r| == |b| - taken
  {
    b[taken - 1..|b| - 1]
  }

  function Step(o: Out, e: Event): Out
    requires Possible(o, e)
  {
    match e
    case Push(p) => o.(queue := o.queue + [p], active := true, armed := o.armed || !o.active, pushed := o.pushed + p)
    case Attempt(taken) =>
      var b := o.queue[0];
      if taken == -1 then o.(armed := false)
      else if 0 < taken < |b| then o.(queue := o.queue[0 := Remainder(b, taken)], wire := o.wire + b[..taken])
      else
        var rest := o.queue[1..];
        o.(queue := rest, wire := o.wire + b[..taken], active := rest != [], armed := rest != [])
  }

  function Run(events: seq<Event>): Out {
    if events == [] then START
    else
      var o := Run(events[..|events| - 1]);
      var e := events[|events| - 1];
      if Possible(o, e) then Step(o, e) else o
  }

  // ---------------------------------------------------------------- when nothing is lost

  /** Bytes taken followed by bytes queued are the bytes sent. */
  ghost predicate Exact(o: Out) {
    o.wire + Flatten(o.queue) == o.pushed
  }

  /** All of the packet was taken, none because of an error, or what is left is one byte value over and over. */
  predicate Clean(b: seq<Byte>, taken: int) {
    taken == -1 || taken == |b| || (0 < taken < |b| && forall x :: taken <= x < |b| ==> b[x - 1] == b[x])
  }

  /** Every attempt of the run was clean. */
  predicate AllClean(events: seq<Event>) {
    events != [] ==>
      var o := Run(events[..|events| - 1]);
      var e := events[|events| - 1];
      AllClean(events[..|events| - 1]) && (e.Attempt? && Possible(o, e) ==> Clean(o.queue[0], e.taken))
  }

  ghost predicate Constant(p: seq<Byte>, c: nat, hi: nat) {
    hi <= |p| && forall x :: c <= x < hi ==> p[x] == p[c]
  }

  /** Fewer bytes than were sent. */
  ghost predicate Lost(o: Out) {
    |o.wire| + |Flatten(o.queue)| < |o.pushed|
  }

  ghost predicate Bounded(o: Out) {
    |o.wire| + |Flatten(o.queue)| <= |o.pushed|
  }

  /** The peer has taken a wrong byte. */
  ghost predicate Wrong(o: Out) {
    exists x :: 0 <= x < |o.wire| && x < |o.pushed| && o.wire[x] != o.pushed[x]
  }

  /**
   At position w of the stream p comes b, late by m places, and the bytes it should bring differ from
   those before.
   */
  ghost predicate LateAt(p: seq<Byte>, w: nat, b: seq<Byte>, c: nat, m: nat) {
    && 1 <= m && c + m <= w && w + |b| <= |p|
    && (forall k :: 0 <= k < |b| ==> b[k] == p[w + k - m])
    && Constant(p, c, w)
    && (exists y :: w <= y < w + |b| && p[y] != p[c])
  }

  ghost predicate Late(o: Out) {
    o.queue != [] && exists c, m :: LateAt(o.pushed, |o.wire|, o.queue[0], c, m)
  }

  ghost predicate Corrupt(o: Out) {
    Lost(o) || Wrong(o) || Late(o)
  }

  lemma {:induction false} FlattenAppend(q: seq<seq<Byte>>, p: seq<Byte>)
    ensures Flatten(q + [p]) == Flatten(q) + p
  {
    if q == [] {
      assert (q + [p])[1..] == [];
      assert Flatten([p]) == p + Flatten([]);
    } else {
      assert (q + [p])[1..] == q[1..] + [p];
      FlattenAppend(q[1..], p);
      assert q[0] + (Flatten(q[1..]) + p) == q[0] + Flatten(q[1..]) + p;
    }
  }

  lemma FlattenFront(q: seq<seq<Byte>>, b: seq<Byte>)
    requires q != []
    ensures Flatten(q) == q[0] + Flatten(q[1..])
    ensures Flatten(q[0 := b]) == b + Flatten(q[1..])
  {
    assert q[0 := b][1..] == q[1..];
  }

  /** A stretch that repeats itself m places later stays constant. */
  lemma {:induction false} ConstantGrows(p: seq<Byte>, c: nat, w: nat, m: nat, n: nat)
    requires 1 <= m && c + m <= w && w + n <= |p| && Constant(p, c, w)
    requires forall x :: w <= x < w + n ==> p[x] == p[x - m]
    ensures Constant(p, c, w + n)
  {
    if n > 0 {
      ConstantGrows(p, c, w, m, n - 1);
      assert p[w + n - 1] == p[w + n - 1 - m];
    }
  }

  lemma LateMoves(p: seq<Byte>, w: nat, b: seq<Byte>, c: nat, m: nat, t: nat)
    requires LateAt(p, w, b, c, m) && 0 < t <= |b|
    requires forall x :: 0 <= x < t ==> b[x] == p[w + x]
    ensures t < |b| && LateAt(p, w + t, Remainder(b, t), c, m + 1)
  {
    assert forall x :: w <= x < w + t ==> p[x] == b[x - w];
    ConstantGrows(p, c, w, m, t);
    var y :| w <= y < w + |b| && p[y] != p[c];
    assert w + t <= y;
    var r := Remainder(b, t);
    assert forall k :: 0 <= k < |r| ==> r[k] == b[t - 1 + k];
  }

  lemma LateStarts(p: seq<Byte>, w: nat, b: seq<Byte>, t: nat)
    requires w + |b| <= |p| && (forall x :: 0 <= x < |b| ==> b[x] == p[w + x])
    requires 0 < t < |b| && !Clean(b, t)
    ensures LateAt(p, w + t, Remainder(b, t), w + t - 1, 1)
  {
  }

  lemma LateIsWrong(p: seq<Byte>, w: nat, b: seq<Byte>, c: nat, m: nat)
    requires LateAt(p, w, b, c, m)
    ensures exists k :: 0 <= k < |b| && b[k] != p[w + k]
  {
    if forall k :: 0 <= k < |b| ==> b[k] == p[w + k] {
      LateMoves(p, w, b, c, m, |b|);
    }
  }

  lemma LateExtends(p: seq<Byte>, q: seq<Byte>, w: nat, b: seq<Byte>, c: nat, m: nat)
    requires LateAt(p, w, b, c, m)
    ensures LateAt(p + q, w, b, c, m)
  {
    var y :| w <= y < w + |b| && p[y] != p[c];
    assert (p + q)[y] != (p + q)[c];
  }

  /** From an exact state, an attempt keeps exactness precisely when it is clean; otherwise the stream is corrupt. */
  lemma AttemptFromExact(o: Out, taken: int)
    requires Exact(o) && Possible(o, Attempt(taken))
    ensures Clean(o.queue[0], taken) ==> Exact(Step(o, Attempt(taken)))
    ensures !Clean(o.queue[0], taken) ==> Corrupt(Step(o, Attempt(taken)))
  {
    hide LateAt, Clean;
    var b := o.queue[0];
    if 0 < taken < |b| {
      PartialFromExact(o, taken);
    } else if taken != -1 {
      WholeFromExact(o, taken);
    } else {
      assert Clean(b, taken) by { CleanWhole(b); }
    }
  }

  lemma CleanWhole(b: seq<Byte>)
    ensures Clean(b, -1) && Clean(b, |b|)
    ensures |b| > 0 ==> !Clean(b, 0)
  {
  }

  lemma WholeFromExact(o: Out, taken: nat)
    requires Exact(o) && Possible(o, Attempt(taken)) && (taken == 0 || taken == |o.queue[0]|)
    ensures Clean(o.queue[0], taken) ==> Exact(Step(o, Attempt(taken)))
    ensures !Clean(o.queue[0], taken) ==> Lost(Step(o, Attempt(taken)))
  {
  }

  lemma PartialFromExact(o: Out, taken: nat)
    requires Exact(o) && Possible(o, Attempt(taken)) && 0 < taken < |o.queue[0]|
    ensures Clean(o.queue[0], taken) ==> Exact(Step(o, Attempt(taken)))
    ensures !Clean(o.queue[0], taken) ==> Late(Step(o, Attempt(taken)))
  {
    hide LateAt, Clean, Remainder;
    var b := o.queue[0];
    var r := Remainder(b, taken);
    var tail := Flatten(o.queue[1..]);
    FlattenFront(o.queue, b);
    FlattenFront(o.queue, r);
    if Clean(b, taken) {
      CleanJoins(o.wire, b, taken, tail);
    } else {
      LateStartsIn(o.wire, b, taken, tail);
    }
  }

  lemma CleanJoins(w: seq<Byte>, b: seq<Byte>, t: nat, tail: seq<Byte>)
    requires 0 < t < |b| && Clean(b, t)
    ensures w + b[..t] + (Remainder(b, t) + tail) == w + (b + tail)
  {
    assert Remainder(b, t) == b[t..];
  }

  lemma LateStartsIn(w: seq<Byte>, b: seq<Byte>, t: nat, tail: seq<Byte>)
    requires 0 < t < |b| && !Clean(b, t)
    ensures LateAt(w + (b + tail), |w + b[..t]|, Remainder(b, t), |w| + t - 1, 1)
  {
    hide LateAt, Clean, Remainder;
    var p := w + (b + tail);
    assert forall x :: 0 <= x < |b| ==> p[|w| + x] == b[x];
    LateStarts(p, |w|, b, t);
    assert |w + b[..t]| == |w| + t;
  }

  lemma {:induction false} StepLength(o: Out, e: Event)
    requires Possible(o, e)
    ensures |Step(o, e).pushed| - |o.pushed|
      >= |Step(o, e).wire| + |Flatten(Step(o, e).queue)| - |o.wire| - |Flatten(o.queue)|
    ensures Bounded(o) ==> Bounded(Step(o, e))
  {
    match e
    case Push(p) => FlattenAppend(o.queue, p);
    case Attempt(taken) =>
      FlattenFront(o.queue, o.queue[0]);
      if 0 < taken < |o.queue[0]| {
        FlattenFront(o.queue, Remainder(o.queue[0], taken));
      }
  }

  /** No later event repairs a corrupt stream. */
  lemma CorruptStays(o: Out, e: Event)
    requires Corrupt(o) && Possible(o, e) && Bounded(o)
    ensures Corrupt(Step(o, e))
  {
    hide LateAt;
    var d := Step(o, e);
    StepLength(o, e);
    if Wrong(o) {
      WrongStays(o, d);
    } else if !Lost(o) {
      var c, m :| LateAt(o.pushed, |o.wire|, o.queue[0], c, m);
      match e
      case Push(p) => LateExtends(o.pushed, p, |o.wire|, o.queue[0], c, m);
      case Attempt(taken) =>
        if taken > 0 {
          LateTaken(o, c, m, taken);
        } else if taken == 0 {
          LateIsLonger(o, c, m);
          NothingTaken(o);
        }
    }
  }

  lemma WrongStays(o: Out, d: Out)
    requires Wrong(o) && o.wire <= d.wire && o.pushed <= d.pushed
    ensures Wrong(d)
  {
  }

  lemma LateTaken(o: Out, c: nat, m: nat, taken: int)
    requires Possible(o, Attempt(taken)) && taken > 0 && LateAt(o.pushed, |o.wire|, o.queue[0], c, m)
    ensures Wrong(Step(o, Attempt(taken))) || Late(Step(o, Attempt(taken)))
  {
    var b, w := o.queue[0], |o.wire|;
    var d := Step(o, Attempt(taken));
    assert w + |b| <= |o.pushed|;
    hide LateAt;
    if forall x :: 0 <= x < taken ==> b[x] == o.pushed[w + x] {
      LateMoves(o.pushed, w, b, c, m, taken);
      assert d.queue[0] == Remainder(b, taken) && |d.wire| == w + taken;
    } else {
      var x :| 0 <= x < taken && b[x] != o.pushed[w + x];
      assert d.wire[w + x] == b[x];
    }
  }

  lemma LateIsLonger(o: Out, c: nat, m: nat)
    requires o.queue != [] && LateAt(o.pushed, |o.wire|, o.queue[0], c, m)
    ensures |o.queue[0]| > 0 && |o.wire| + |o.queue[0]| <= |o.pushed|
  {
  }

  /** A packet that is dropped although no byte of it was taken is lost. */
  lemma NothingTaken(o: Out)
    requires Possible(o, Attempt(0)) && |o.queue[0]| > 0 && Bounded(o)
    ensures Lost(Step(o, Attempt(0)))
  {
    FlattenFront(o.queue, o.queue[0]);
  }

  lemma CorruptIsNotExact(o: Out)
    requires Corrupt(o)
    ensures !Exact(o)
  {
    hide LateAt;
    if Late(o) {
      var c, m :| LateAt(o.pushed, |o.wire|, o.queue[0], c, m);
      LateIsWrong(o.pushed, |o.wire|, o.queue[0], c, m);
      LateIsLonger(o, c, m);
      var k :| 0 <= k < |o.queue[0]| && o.queue[0][k] != o.pushed[|o.wire| + k];
      FlattenFront(o.queue, o.queue[0]);
      assert (o.wire + Flatten(o.queue))[|o.wire| + k] == o.queue[0][k];
    }
  }

  /**
   Over whole runs: bytes taken followed by bytes queued are the bytes sent exactly when every
   attempt was clean. One partial write is enough to spoil the stream for good.
   */
  lemma {:induction false} RunExact(events: seq<Event>)
    ensures Exact(Run(events)) <==> AllClean(events)
    ensures !AllClean(events) ==> Corrupt(Run(events))
    ensures Bounded(Run(events))
  {
    if events == [] {
    } else {
      var before := events[..|events| - 1];
      var e := events[|events| - 1];
      RunExact(before);
      var o := Run(before);
      if Possible(o, e) {
        StepLength(o, e);
        if !AllClean(before) {
          CorruptStays(o, e);
        } else if e.Attempt? {
          AttemptFromExact(o, e.taken);
        } else {
          FlattenAppend(o.queue, e.packet);
          assert o.wire + (Flatten(o.queue) + e.packet) == o.wire + Flatten(o.queue) + e.packet;
        }
        if Corrupt(Run(events)) {
          CorruptIsNotExact(Run(events));
        }
      }
    }
  }

  /** Two bytes, one of them taken: the first is sent twice, the second never. */
  lemma PartialWriteRepeatsAByte()
    ensures var o := Run([Push([1, 2]), Attempt(1), Attempt(1)]); o.wire == [1, 1] && o.queue == []
  {
    var e0, e1 := Push([1, 2]), Attempt(1);
    assert Run([]) == START;
    hide Run;
    RunAppend([], e0);
    RunAppend([e0], e1);
    RunAppend([e0, e1], e1);
    assert [] + [e0] == [e0] && [e0] + [e1] == [e0, e1] && [e0, e1] + [e1] == [e0, e1, e1];
    assert Run([e0]) == Out([[1, 2]], true, true, [], [1, 2]);
    assert Remainder([1, 2], 1) == [1];
    assert Run([e0, e1]) == Out([[1]], true, true, [1], [1, 2]);
  }

  lemma RunAppend(events: seq<Event>, e: Event)
    ensures Run(events + [e]) == if Possible(Run(events), e) then Step(Run(events), e) else Run(events)
  {
    assert (events + [e])[..|events|] == events;
  }

  // ---------------------------------------------------------------- registration

  /** Packets wait only while the flag is set, and the handler is registered only while packets wait. */
  predicate Registered(o: Out) {
    && (o.active <==> o.queue != [])
    && (o.armed ==> o.active)
  }

  /** Whether some attempt of the run ended in an error. */
  predicate Failed(events: seq<Event>) {
    events != [] &&
      var o := Run(events[..|events| - 1]);
      var e := events[|events| - 1];
      Failed(events[..|events| - 1]) || (e == Attempt(-1) && Possible(o, e))
  }

  /**
   A waiting packet keeps the handler registered exactly as long as no attempt has failed; after that
   nothing is sent.
   */
  lemma {:induction false} RunRegistered(events: seq<Event>)
    ensures Registered(Run(events))
    ensures Failed(events) ==> Run(events).queue != [] && !Run(events).armed
    ensures !Failed(events) ==> (Run(events).armed <==> Run(events).queue != [])
  {
    if events != [] {
      RunRegistered(events[..|events| - 1]);
    }
  }

  // ---------------------------------------------------------------- the objects

  /** The other end of the connection: it takes any number of the bytes offered, or fails. */
  class Peer {
    var wire: seq<Byte>

    constructor ()
      ensures wire == []
    {
      wire := [];
    }

    method Offer(data: seq<Byte>) returns (taken: int)
      modifies this
      ensures -1 <= taken <= |data|
      ensures wire == if taken > 0 then old(wire) + data[..taken] else old(wire)
    {
      taken :| -1 <= taken <= |data|;
      if taken > 0 {
        wire := wire + data[..taken];
      }
    }
  }

  class RealmOutput {
    const peer: Peer
    var packetQueue: seq<seq<Byte>>
    var outActive: bool
    /** Whether the reactor calls `HandleOutput` when the peer is ready. */
    var armed: bool
    ghost var pushed: seq<Byte>

    ghost function Abs(): Out
      reads this, peer
    {
      Out(packetQueue, outActive, armed, peer.wire, pushed)
    }

    constructor (peer: Peer)
      requires peer.wire == []
      ensures Abs() == START && this.peer == peer
    {
      this.peer := peer;
      packetQueue, outActive, armed, pushed := [], false, false, [];
    }

    method Send(pkt: seq<Byte>)
      modifies this
      ensures Abs() == Step(old(Abs()), Push(pkt))
    {
      packetQueue := packetQueue + [pkt];
      pushed := pushed + pkt;
      if !outActive {
        armed := true;
        outActive := true;
      }
    }

    /** Offer packets until one is not taken whole; the attempts made are returned for the proof. */
    method HandleOutput() returns (code: int, ghost attempts: seq<Event>)
      requires Registered(Abs()) && armed
      modifies this, peer
      ensures Abs() == Steps(old(Abs()), attempts)
      ensures Registered(Abs())
      ensures code == -1 <==> !armed && packetQueue != []
      ensures code == 0 <==> packetQueue == []
    {
      attempts := [];
      code := 1;
      while packetQueue != []
        invariant Abs() == Steps(old(Abs()), attempts)
        invariant Registered(Abs()) && (armed <==> packetQueue != [])
        decreases |packetQueue|
      {
        var buffer := packetQueue[0];
        var sentBytes := peer.Offer(buffer);
        ghost var e := Attempt(sentBytes);
        StepsAppend(old(Abs()), attempts, e);
        attempts := attempts + [e];
        if 0 < sentBytes < |buffer| {
          packetQueue := packetQueue[0 := Remainder(buffer, sentBytes)];
          break;
        } else if sentBytes == -1 {
          armed := false;
          return -1, attempts;
        } else {
          assert buffer[..sentBytes] == buffer[..sentBytes];
          packetQueue := packetQueue[1..];
          if packetQueue == [] {
            outActive, armed := false, false;
          }
        }
      }
      if packetQueue == [] {
        code := 0;
      }
    }
  }

  /** Several attempts in a row, as far as they are possible. */
  ghost function Steps(o: Out, events: seq<Event>): Out {
    if events == [] then o
    else
      var d := Steps(o, events[..|events| - 1]);
      var e := events[|events| - 1];
      if Possible(d, e) then Step(d, e) else d
  }

  lemma StepsAppend(o: Out, events: seq<Event>, e: Event)
    ensures var d := Steps(o, events); Steps(o, events + [e]) == if Possible(d, e) then Step(d, e) else d
  {
    assert (events + [e])[..|events|] == events;
  }
}

/**
 The proxy daemon's input: a six-byte header, ciphered once a key is set, then a payload that may
 arrive in pieces. The handler keeps what is missing in `expected`; when a continued packet
 completes, it dispatches and deletes the packet but leaves `expected` as it was.
 */
module ProxyInput {
  import opened Bytes
  import opened HeaderCipher
  import PO = ProxyOutput

  const BUFFER: nat := 4096
  /** The limit of the assertion in `append`. */
  const SIZE_LIMIT: nat := 10000000
  /** size_t of a 64-bit host. */
  const SIZE_T: nat := 0x1_0000_0000_0000_0000

  /** How an activation can end other than by waiting for the next one. */
  datatype End = Running | Closed | UseAfterDelete | Overrun | AssertionFailed

  /**
   `front` are the first six bytes of the receive buffer, `rest` what the client has sent and nobody
   has read; `freed` says that `packet` was deleted.
   */
  datatype In = In(
    expected: nat, packet: seq<Byte>, freed: bool, end: End, mode: PO.Mode, chain: Chain,
    front: seq<Byte>, rest: seq<Byte>, dispatched: seq<seq<Byte>>)

  /** One activation, with what its receive calls return (-1 is an error), or the key is set. */
  datatype Event = Input(header: int, payload: int) | SetKey(key: Key)

  function Start(mode: PO.Mode, chain: Chain, front: seq<Byte>, stream: seq<Byte>): In {
    In(0, [], false, Running, mode, chain, front, stream, [])
  }

  function Decipher(mode: PO.Mode, c: Chain, h: seq<Byte>): (r: (seq<Byte>, Chain))
    requires |h| == RECV_LENGTH
    ensures |r.0| == RECV_LENGTH
  {
    if mode.Keyed? then Decrypt(mode.key, c, h) else (h, c)
  }

  /** The two size bytes trade places; the command is left alone. */
  function SwapSize(h: seq<Byte>): (r: seq<Byte>)
    requires |h| >= 2
    ensures |r| == |h|
  {
    [h[1], h[0]] + h[2..]
  }

  /** PeekSize of a packet in memory. */
  function DeclaredSize(p: seq<Byte>): (n: nat)
    requires |p| >= 2
    ensures n < 65536
  {
    (p[0] as int) + 256 * (p[1] as int)
  }

  /** What receiving s leaves in the first bytes of the buffer. */
  function Overwritten(front: seq<Byte>, s: seq<Byte>): (r: seq<Byte>)
    ensures |r| == |front|
  {
    if |s| >= |front| then s[..|front|] else s + front[|s|..]
  }

  /** Bytes taken from the stream by a receive call. */
  function Taken(count: int): nat {
    if count < 0 then 0 else count
  }

  /** The first receive call of an activation that starts a packet; after an error the old bytes are still there. */
  function Received(i: In, header: int): (j: In)
    requires -1 <= header <= |i.rest|
    ensures |j.front| == |i.front|
  {
    i.(front := Overwritten(i.front, i.rest[..Taken(header)]), rest := i.rest[Taken(header)..])
  }

  /** The header in the buffer, deciphered, with its size in memory order. */
  function HeaderOf(i: In): (r: (seq<Byte>, Chain))
    requires |i.front| == RECV_LENGTH
    ensures |r.0| == RECV_LENGTH
  {
    var (h, c) := Decipher(i.mode, i.chain, i.front);
    (SwapSize(h), c)
  }

  /**
   The second receive call returns no more than the header says and is there. Below 4 the length asked
   for wraps around.
   */
  predicate PayloadPossible(i: In, payload: int)
    requires |i.front| == RECV_LENGTH
  {
    var n := DeclaredSize(HeaderOf(i).0);
    -1 <= payload <= |i.rest| && (n >= 4 ==> payload <= n - 4)
  }

  predicate Possible(i: In, e: Event) {
    && |i.front| == RECV_LENGTH
    && (e.Input? ==>
          && i.end == Running
          && (if i.expected == 0 then
                && -1 <= e.header <= RECV_LENGTH && e.header <= |i.rest|
                && (e.header == -1 || e.header == RECV_LENGTH ==> PayloadPossible(Received(i, e.header), e.payload))
              else
                -1 <= e.payload <= i.expected && e.payload <= |i.rest|))
  }

  function Step(i: In, e: Event): In
    requires Possible(i, e)
  {
    match e
    case SetKey(key) => i.(mode := PO.Keyed(key))
    case Input(header, payload) =>
      if i.expected > 0 then NextRead(i, payload)
      else if 0 <= header < RECV_LENGTH then Received(i, header).(end := Closed)
      else FirstRead(Received(i, header), payload)
  }

  /** The number of bytes read is unsigned, so an error counts as minus one byte. */
  function FirstRead(i: In, payload: int): In
    requires |i.front| == RECV_LENGTH && PayloadPossible(i, payload)
  {
    var (h, c) := HeaderOf(i);
    var n := DeclaredSize(h);
    var j := i.(front := h, chain := c, rest := i.rest[Taken(payload)..]);
    if RECV_LENGTH + payload > BUFFER then j.(end := Overrun)
    else
      // After an error the copy misses the last header byte.
      var packet := if payload < 0 then h[..5] else h + i.rest[..payload];
      if payload + 4 != n then
        j.(expected := (n - payload - 4) % SIZE_T, packet := packet, freed := false)
      else Dispatched(j.(packet := packet))
  }

  function NextRead(i: In, payload: int): In
    requires -1 <= payload <= i.expected && payload <= |i.rest| && i.expected > 0
  {
    if payload <= 0 then i.(end := Closed)
    else
      var j := i.(front := Overwritten(i.front, i.rest[..payload]), rest := i.rest[payload..]);
      if payload > BUFFER then j.(end := Overrun)
      else if i.freed then j.(end := UseAfterDelete)
      else if |i.packet| >= SIZE_LIMIT then j.(end := AssertionFailed)
      else
        var packet := i.packet + i.rest[..payload];
        if payload != i.expected then j.(expected := i.expected - payload, packet := packet)
        else Dispatched(j.(packet := packet))
  }

  /** Reading the command needs a whole header. */
  function Dispatched(i: In): In {
    if |i.packet| < RECV_LENGTH then i.(freed := false, end := AssertionFailed)
    else i.(freed := true, dispatched := i.dispatched + [i.packet])
  }

  function Run(i: In, events: seq<Event>): In {
    if events == [] then i
    else
      var d := Run(i, events[..|events| - 1]);
      var e := events[|events| - 1];
      if Possible(d, e) then Step(d, e) else d
  }

  // ---------------------------------------------------------------- how activations end

  /** A connection is closed exactly on a header cut short, or on nothing read of the rest of a packet. */
  lemma ClosedExactly(i: In, e: Event)
    requires i.end == Running && Possible(i, e) && e.Input?
    ensures Step(i, e).end == Closed <==> if i.expected == 0 then 0 <= e.header < 6 else e.payload <= 0
  {
    hide HeaderOf;
  }

  /**
   An assertion fails exactly on a packet of less than six bytes that is complete, which takes a failed
   read of a payload, or on appending to a packet that has ten million bytes.
   */
  lemma AssertsExactly(i: In, e: Event)
    requires i.end == Running && Possible(i, e) && e.Input? && (i.expected > 0 ==> !i.freed)
    ensures Step(i, e).end == AssertionFailed <==>
      if i.expected == 0 then
        && (e.header == -1 || e.header == 6) && e.payload == -1
        && DeclaredSize(HeaderOf(Received(i, e.header)).0) == 3
      else
        && 0 < e.payload <= 4096
        && (|i.packet| >= 10000000 || (e.payload == i.expected && |i.packet| + e.payload < 6))
  {
    hide HeaderOf;
  }

  /**
   The first read of a packet either completes it or leaves what is missing, in unsigned arithmetic: an
   error counts as minus one byte.
   */
  lemma ExpectedExactly(i: In, header: int, payload: int)
    requires Possible(i, Input(header, payload)) && i.end == Running && i.expected == 0
    requires (header == -1 || header == 6) && payload <= 4090
    ensures var n := DeclaredSize(HeaderOf(Received(i, header)).0);
      var d := Step(i, Input(header, payload));
      && (n == payload + 4 ==> d.expected == 0)
      && (n > payload + 4 ==> d.expected == n - payload - 4 && !d.freed && d.dispatched == i.dispatched)
      && (n < payload + 4 ==>
            d.expected == n - payload - 4 + 0x1_0000_0000_0000_0000 && !d.freed && d.dispatched == i.dispatched)
  {
    hide HeaderOf;
    var n := DeclaredSize(HeaderOf(Received(i, header)).0);
    if n > payload + 4 {
      NoWrap(n - payload - 4);
    } else if n < payload + 4 {
      Wraps(n - payload - 4);
    }
  }

  lemma Wraps(n: int)
    requires n < 0 <= n + SIZE_T
    ensures n % SIZE_T == n + SIZE_T
  {
  }

  /** After a failed header read the six bytes of the last header are read as if they had come again. */
  lemma FailedHeaderRepeats(i: In, payload: int)
    requires Possible(i, Input(-1, payload)) && i.end == Running && i.expected == 0
    ensures var j := i.(rest := i.front + i.rest);
      Possible(j, Input(6, payload)) && Step(i, Input(-1, payload)) == Step(j, Input(6, payload))
  {
    hide HeaderOf, FirstRead, PayloadPossible;
    var j := i.(rest := i.front + i.rest);
    assert Received(j, 6) == Received(i, -1) by {
      assert j.rest[..6] == i.front && j.rest[6..] == i.rest && i.rest[..0] + i.front[0..] == i.front;
      assert i.rest[0..] == i.rest;
    }
    PayloadSame(i, j, payload);
  }

  lemma PayloadSame(i: In, j: In, payload: int)
    requires |i.front| == |j.front| == RECV_LENGTH && |i.rest| >= 0 && |j.rest| >= RECV_LENGTH
    requires Received(j, 6) == Received(i, -1) && PayloadPossible(Received(i, -1), payload)
    ensures PayloadPossible(Received(j, 6), payload)
  {
  }

  // ---------------------------------------------------------------- the client's frames

  /** A packet as the daemon holds it (size little-endian, without itself), and the mode it is framed in. */
  datatype Sent = Sent(packet: seq<Byte>, mode: PO.Mode)

  predicate Packet(p: seq<Byte>) {
    RECV_LENGTH <= |p| && DeclaredSize(p) == |p| - 2
  }

  predicate AllPackets(q: seq<Sent>) {
    forall i :: 0 <= i < |q| ==> Packet(q[i].packet)
  }

  /** What a client writes first: the size of a packet, highest byte first, and the four command bytes. */
  function ClientHeader(p: seq<Byte>): (h: seq<Byte>)
    requires RECV_LENGTH <= |p|
    ensures |h| == RECV_LENGTH
  {
    var size := DeclaredSize(p);
    [size / 256, size % 256] + p[2..RECV_LENGTH]
  }

  /** The packet on the wire, its header ciphered. */
  function Frame(mode: PO.Mode, c: Chain, p: seq<Byte>): (r: (seq<Byte>, Chain))
    requires |p| >= RECV_LENGTH
    ensures |r.0| == |p|
  {
    var h := ClientHeader(p);
    var (x, d) := if mode.Keyed? then Encrypt(mode.key, c, h) else (h, c);
    (x + p[RECV_LENGTH..], d)
  }

  /** A plain packet on the wire: its length without the size field, highest byte first, and the rest as it is. */
  lemma PlainFrame(c: Chain, p: seq<Byte>)
    requires Packet(p)
    ensures var f := Frame(PO.Plain, c, p).0;
      f[0] as int * 256 + f[1] as int == |p| - 2 && f[2..] == p[2..]
  {
    assert p[2..RECV_LENGTH] + p[RECV_LENGTH..] == p[2..];
  }

  /** The daemon puts the size bytes of a header in the other order, which is the client's packet again. */
  lemma HeaderInMemory(p: seq<Byte>)
    requires |p| >= RECV_LENGTH
    ensures SwapSize(ClientHeader(p)) == p[..RECV_LENGTH]
  {
  }

  /**
   What the daemon takes as the size: of the header as it came, or deciphered once a key is set, the
   first byte counts 256 times the second. The command is left as it is.
   */
  lemma SizeOnTheWire(i: In)
    requires |i.front| == RECV_LENGTH
    ensures var (h, c) := if i.mode.Keyed? then Decrypt(i.mode.key, i.chain, i.front) else (i.front, i.chain);
      && DeclaredSize(HeaderOf(i).0) == h[0] as int * 256 + h[1] as int
      && HeaderOf(i).0[2..] == h[2..] && HeaderOf(i).1 == c
  {
    hide Decrypt;
  }

  function Stream(c: Chain, q: seq<Sent>): seq<Byte>
    requires AllPackets(q)
    decreases |q|
  {
    if q == [] then []
    else
      var (f, d) := Frame(q[0].mode, c, q[0].packet);
      f + Stream(d, q[1..])
  }

  function PacketsOf(q: seq<Sent>): (r: seq<seq<Byte>>)
    ensures |r| == |q|
  {
    seq(|q|, k requires 0 <= k < |q| => q[k].packet)
  }

  lemma HeaderRead(mode: PO.Mode, c: Chain, p: seq<Byte>)
    requires |p| >= RECV_LENGTH
    ensures var (f, d) := Frame(mode, c, p);
      && Decipher(mode, c, f[..RECV_LENGTH]) == (ClientHeader(p), d)
      && f[RECV_LENGTH..] == p[RECV_LENGTH..]
      && SwapSize(ClientHeader(p)) == p[..RECV_LENGTH]
  {
    hide Encrypt, Decrypt;
    var h := ClientHeader(p);
    HeaderInMemory(p);
    var (f, d) := Frame(mode, c, p);
    if mode.Keyed? {
      RoundTrip(mode.key, c, h);
      assert f[..RECV_LENGTH] == Encrypt(mode.key, c, h).0;
    } else {
      assert f[..RECV_LENGTH] == h;
    }
  }

  // ---------------------------------------------------------------- what every run keeps

  /** A packet that took more than one read has just been dispatched. */
  predicate JustContinued(i: In) {
    i.expected > 0 && i.freed
  }

  /** `q` are the packets still to come, the one under way included. */
  ghost predicate Following(i: In, q: seq<Sent>) {
    && |i.front| == RECV_LENGTH && AllPackets(q)
    && (if i.expected > 0 && !i.freed then
          && q != []
          && RECV_LENGTH <= |i.packet| < |q[0].packet|
          && i.packet == q[0].packet[..|i.packet|]
          && |i.packet| + i.expected == DeclaredSize(i.packet) + 2 == |q[0].packet|
          && i.rest == q[0].packet[|i.packet|..] + Stream(i.chain, q[1..])
        else
          i.rest == Stream(i.chain, q))
  }

  /** Everything dispatched and everything still to come is what the client sent. */
  ghost predicate Faithful(i: In, all: seq<Sent>) {
    var n := |i.dispatched|;
    n <= |all| && i.dispatched == PacketsOf(all[..n]) && (i.end == Running ==> Following(i, all[n..]))
  }

  /** No receive call at the start of a packet fails, and its header is read in the mode it was framed in. */
  ghost predicate Sound(i: In, e: Event, all: seq<Sent>) {
    && Possible(i, e)
    && (e.Input? && i.expected == 0 ==>
          && e.header != -1
          && (e.header == RECV_LENGTH ==>
                e.payload >= 0 && |i.dispatched| < |all| && all[|i.dispatched|].mode == i.mode))
  }

  ghost predicate SoundRun(i: In, events: seq<Event>, all: seq<Sent>) {
    events != [] ==>
      var before := events[..|events| - 1];
      SoundRun(i, before, all) && Sound(Run(i, before), events[|events| - 1], all)
  }

  lemma WholeHeader(i: In)
    requires |i.front| == RECV_LENGTH <= |i.rest|
    ensures Received(i, RECV_LENGTH).front == i.rest[..RECV_LENGTH]
  {
  }

  lemma StartFollows(i: In, q: seq<Sent>)
    requires Following(i, q) && i.expected == 0 && |i.rest| >= RECV_LENGTH && q != [] && q[0].mode == i.mode
    ensures var p := q[0].packet;
      var (f, d) := Frame(i.mode, i.chain, p);
      && HeaderOf(Received(i, RECV_LENGTH)) == (p[..RECV_LENGTH], d)
      && Received(i, RECV_LENGTH).rest == p[RECV_LENGTH..] + Stream(d, q[1..])
      && DeclaredSize(p[..RECV_LENGTH]) == |p| - 2
  {
    hide Frame, Decipher, SwapSize, ClientHeader;
    var p := q[0].packet;
    var (f, d) := Frame(i.mode, i.chain, p);
    HeaderRead(i.mode, i.chain, p);
    assert i.rest == f + Stream(d, q[1..]);
    WholeHeader(i);
    assert i.rest[..RECV_LENGTH] == f[..RECV_LENGTH];
    assert i.rest[RECV_LENGTH..] == f[RECV_LENGTH..] + Stream(d, q[1..]);
  }

  /** The ways a step goes on: it ends the connection, the same packets follow, or the first of them was dispatched. */
  ghost predicate Continues(i: In, d: In, q: seq<Sent>) {
    || (d.dispatched == i.dispatched && (d.end == Running ==> Following(d, q)))
    || (q != [] && d.dispatched == i.dispatched + [q[0].packet] && (d.end == Running ==> Following(d, q[1..])))
  }

  /** The first read of a packet that fits: what is there afterwards, and what is still to come. */
  lemma FirstShape(j: In, p: seq<Byte>, d: Chain, tail: seq<Byte>, k: nat)
    requires |j.front| == RECV_LENGTH && Packet(p) && k <= |p| - RECV_LENGTH
    requires HeaderOf(j) == (p[..RECV_LENGTH], d) && DeclaredSize(p[..RECV_LENGTH]) == |p| - 2
    requires j.rest == p[RECV_LENGTH..] + tail
    ensures PayloadPossible(j, k)
    ensures var f := j.(front := p[..RECV_LENGTH], chain := d, rest := p[RECV_LENGTH + k..] + tail);
      FirstRead(j, k) ==
        if RECV_LENGTH + k > BUFFER then f.(end := Overrun)
        else if k < |p| - RECV_LENGTH then
          f.(packet := p[..RECV_LENGTH + k], freed := false, expected := |p| - RECV_LENGTH - k)
        else f.(packet := p, freed := true, dispatched := j.dispatched + [p])
  {
    hide HeaderOf;
    Cut(p[RECV_LENGTH..], k, tail);
    PieceOf(p, RECV_LENGTH, k);
    NoWrap(|p| - RECV_LENGTH - k);
    if k == |p| - RECV_LENGTH {
      assert p[..RECV_LENGTH + k] == p;
    }
  }

  lemma FirstReadFollows(i: In, payload: nat, q: seq<Sent>)
    requires Following(i, q) && Possible(i, Input(RECV_LENGTH, payload)) && i.expected == 0 && i.end == Running
    requires q != [] && q[0].mode == i.mode
    ensures Continues(i, FirstRead(Received(i, RECV_LENGTH), payload), q)
  {
    StartFollows(i, q);
    ReceivedShape(i, RECV_LENGTH);
    var p := q[0].packet;
    var d := Frame(i.mode, i.chain, p).1;
    hide Frame, HeaderOf, Received, FirstRead, Stream;
    FirstShape(Received(i, RECV_LENGTH), p, d, Stream(d, q[1..]), payload);
    assert p[|p|..] + Stream(d, q[1..]) == Stream(d, q[1..]);
  }

  lemma NoWrap(n: int)
    requires 0 <= n < SIZE_T
    ensures n % SIZE_T == n
  {
  }

  lemma NextReadFollows(i: In, payload: int, q: seq<Sent>)
    requires Following(i, q) && Possible(i, Input(0, payload)) && i.expected > 0 && i.end == Running
    ensures Continues(i, NextRead(i, payload), q)
  {
    hide Frame;
    if payload > 0 && !i.freed {
      var d := NextRead(i, payload);
      var p, m := q[0].packet, |i.packet|;
      var tail := Stream(i.chain, q[1..]);
      Cut(p[m..], payload, tail);
      PieceOf(p, m, payload);
      if d.end == Running {
        assert d.packet == p[..m + payload] && d.rest == p[m + payload..] + tail;
        if payload == i.expected {
          assert d.packet == p && p[|p|..] + tail == tail;
        }
      }
    }
  }

  lemma PieceOf(p: seq<Byte>, m: nat, n: nat)
    requires m + n <= |p|
    ensures p[..m] + p[m..][..n] == p[..m + n] && p[m..][n..] == p[m + n..]
  {
  }

  lemma StepFollows(i: In, e: Event, all: seq<Sent>)
    requires |i.dispatched| <= |all| && i.end == Running && Following(i, all[|i.dispatched|..]) && Sound(i, e, all)
    ensures Continues(i, Step(i, e), all[|i.dispatched|..])
  {
    hide FirstRead, NextRead, Frame;
    var q := all[|i.dispatched|..];
    if e.Input? {
      if i.expected > 0 {
        NextReadFollows(i, e.payload, q);
      } else if e.header == RECV_LENGTH {
        FirstReadFollows(i, e.payload, q);
      }
    }
  }

  lemma Cut(a: seq<Byte>, n: nat, b: seq<Byte>)
    requires n <= |a|
    ensures (a + b)[..n] == a[..n] && (a + b)[n..] == a[n..] + b
  {
  }

  // ---------------------------------------------------------------- whole runs

  /**
   However the receive calls cut the payloads, and wherever between two headers the key is set: what
   is dispatched is, in order, what the client sent.
   */
  lemma {:induction false} RunFaithful(s: In, all: seq<Sent>, events: seq<Event>)
    requires AllPackets(all) && |s.front| == RECV_LENGTH && s == Start(s.mode, s.chain, s.front, Stream(s.chain, all))
    requires SoundRun(s, events, all)
    ensures Faithful(Run(s, events), all)
  {
    hide Stream, Possible, Sound, Step;
    if events == [] {
      assert all[0..] == all && PacketsOf(all[..0]) == [];
    } else {
      var before, e := events[..|events| - 1], events[|events| - 1];
      RunFaithful(s, all, before);
      var i := Run(s, before);
      var n := |i.dispatched|;
      SoundIsPossible(i, e, all);
      if i.end == Running {
        StepFollows(i, e, all);
        if Step(i, e).dispatched != i.dispatched {
          assert all[n..][0] == all[n] && all[n..][1..] == all[n + 1..];
          assert PacketsOf(all[..n + 1]) == PacketsOf(all[..n]) + [all[n].packet];
        }
      } else {
        EndedStays(i, e);
      }
    }
  }

  lemma EndedStays(i: In, e: Event)
    requires i.end != Running && Possible(i, e)
    ensures Step(i, e) == i.(mode := Step(i, e).mode)
  {
  }

  lemma SoundIsPossible(i: In, e: Event, all: seq<Sent>)
    requires Sound(i, e, all)
    ensures Possible(i, e)
  {
  }

  /**
   In the middle of a packet, what is there and what is expected add up to the declared size and its
   own two bytes.
   */
  lemma MidPacket(s: In, all: seq<Sent>, events: seq<Event>)
    requires AllPackets(all) && |s.front| == RECV_LENGTH && s == Start(s.mode, s.chain, s.front, Stream(s.chain, all))
    requires SoundRun(s, events, all)
    ensures var i := Run(s, events);
      i.end == Running && i.expected > 0 && !i.freed ==>
        |i.packet| >= 2 && |i.packet| + i.expected == DeclaredSize(i.packet) + 2
  {
    RunFaithful(s, all, events);
  }

  /** Once the whole stream is read and no packet is under way, every packet was dispatched. */
  lemma AllDispatched(s: In, all: seq<Sent>, events: seq<Event>)
    requires AllPackets(all) && |s.front| == RECV_LENGTH && s == Start(s.mode, s.chain, s.front, Stream(s.chain, all))
    requires SoundRun(s, events, all)
    requires var i := Run(s, events); i.end == Running && i.rest == [] && (i.expected == 0 || i.freed)
    ensures Run(s, events).dispatched == PacketsOf(all)
  {
    hide SoundRun, Run;
    RunFaithful(s, all, events);
    var n := |Run(s, events).dispatched|;
    StreamEmpty(Run(s, events).chain, all[n..]);
    assert all == all[..n];
  }

  lemma StreamEmpty(c: Chain, q: seq<Sent>)
    requires AllPackets(q)
    ensures Stream(c, q) == [] <==> q == []
  {
  }

  // ---------------------------------------------------------------- the packet that was deleted

  /** Bytes arrived for an activation behind a packet that had needed more than one read. */
  predicate ArrivesBehind(i: In, e: Event) {
    && i.end == Running && JustContinued(i) && Possible(i, e)
    && e.Input? && 0 < e.payload <= BUFFER
  }

  predicate ArrivedBehind(i: In, events: seq<Event>) {
    events != [] &&
      (ArrivedBehind(i, events[..|events| - 1]) || ArrivesBehind(Run(i, events[..|events| - 1]), events[|events| - 1]))
  }

  /**
   Over every run: the daemon uses a deleted packet exactly when bytes arrive behind a packet that
   needed more than one read. A client that sends nothing more is closed without harm.
   */
  lemma {:induction false} DeletedIsUsed(i: In, events: seq<Event>)
    requires i.end != UseAfterDelete
    ensures Run(i, events).end == UseAfterDelete <==> ArrivedBehind(i, events)
  {
    hide Step, Possible, JustContinued;
    if events != [] {
      var before, e := events[..|events| - 1], events[|events| - 1];
      DeletedIsUsed(i, before);
      if Possible(Run(i, before), e) {
        StepUses(Run(i, before), e);
      }
    }
  }

  lemma StepUses(i: In, e: Event)
    requires Possible(i, e)
    ensures Step(i, e).end == UseAfterDelete <==> i.end == UseAfterDelete || ArrivesBehind(i, e)
  {
  }

  /** Behind such a packet every activation ends the connection, and nothing is dispatched any more. */
  lemma ContinuedIsLast(i: In, e: Event)
    requires i.end == Running && JustContinued(i) && Possible(i, e) && e.Input?
    ensures Step(i, e).end != Running && Step(i, e).dispatched == i.dispatched
    ensures Step(i, e).end == Closed <==> e.payload <= 0
  {
  }

  /**
   From the start, and whatever the mode: any packet whose payload arrives in two parts is dispatched,
   and the first byte of the packet behind it is read for the deleted one.
   */
  lemma CutPacketIsFatal(mode: PO.Mode, c: Chain, front: seq<Byte>, p: seq<Byte>, q: seq<Byte>, k: nat)
    requires |front| == RECV_LENGTH && Packet(p) && Packet(q) && |p| <= BUFFER && k < |p| - RECV_LENGTH
    ensures var all := [Sent(p, mode), Sent(q, mode)];
      var d := Run(Start(mode, c, front, Stream(c, all)),
        [Input(RECV_LENGTH, k), Input(0, |p| - RECV_LENGTH - k), Input(0, 1)]);
      d.end == UseAfterDelete && d.dispatched == [p]
  {
    hide Stream, Frame, HeaderOf, Received, Run;
    var all := [Sent(p, mode), Sent(q, mode)];
    var s := Start(mode, c, front, Stream(c, all));
    var e1, e2, e3 := Input(RECV_LENGTH, k), Input(0, |p| - RECV_LENGTH - k), Input(0, 1);
    StreamFirst(c, all);
    assert all[1..] == [Sent(q, mode)];
    FirstPartRead(s, all, k);
    var i := Step(s, e1);
    StreamFirst(i.chain, all[1..]);
    RestRead(i, p, Stream(i.chain, all[1..]));
    RunThree(s, e1, e2, e3);
  }

  /** The rest of a packet in one piece, and then one byte more. */
  lemma RestRead(i: In, p: seq<Byte>, tail: seq<Byte>)
    requires i.end == Running && !i.freed && |i.front| == RECV_LENGTH && tail != []
    requires RECV_LENGTH <= |i.packet| < |p| <= BUFFER && i.packet == p[..|i.packet|]
    requires i.expected == |p| - |i.packet| && i.rest == p[|i.packet|..] + tail
    ensures var e2, e3 := Input(0, i.expected), Input(0, 1);
      && Possible(i, e2) && Possible(Step(i, e2), e3)
      && Step(Step(i, e2), e3).end == UseAfterDelete
      && Step(Step(i, e2), e3).dispatched == i.dispatched + [p]
  {
    var m := |i.packet|;
    Cut(p[m..], i.expected, tail);
    assert i.packet + i.rest[..i.expected] == p;
    var j := Step(i, Input(0, i.expected));
    assert j.packet == p && j.rest == tail by { assert p[m..][i.expected..] + tail == tail; }
  }

  lemma StreamFirst(c: Chain, q: seq<Sent>)
    requires AllPackets(q) && q != []
    ensures |Stream(c, q)| >= RECV_LENGTH
  {
  }

  /** The first part of a packet: what is there, what is expected, and what is still to be read. */
  lemma FirstPartRead(s: In, all: seq<Sent>, k: nat)
    requires s.end == Running && s.expected == 0 && |s.front| == RECV_LENGTH && AllPackets(all) && all != []
    requires s.rest == Stream(s.chain, all) && all[0].mode == s.mode
    requires var p := all[0].packet; |p| <= BUFFER && k < |p| - RECV_LENGTH
    ensures Possible(s, Input(RECV_LENGTH, k))
    ensures var i := Step(s, Input(RECV_LENGTH, k));
      var p := all[0].packet;
      && i == s.(front := i.front, chain := i.chain, packet := p[..RECV_LENGTH + k], freed := false,
                 expected := |p| - RECV_LENGTH - k, rest := i.rest)
      && |i.front| == RECV_LENGTH && i.rest == p[RECV_LENGTH + k..] + Stream(i.chain, all[1..])
  {
    StreamFirst(s.chain, all);
    StartFollows(s, all);
    ReceivedShape(s, RECV_LENGTH);
    var d := Frame(s.mode, s.chain, all[0].packet).1;
    hide Stream, Frame, HeaderOf, Received, FirstRead;
    FirstShape(Received(s, RECV_LENGTH), all[0].packet, d, Stream(d, all[1..]), k);
  }

  lemma ReceivedShape(i: In, header: int)
    requires -1 <= header <= |i.rest|
    ensures Received(i, header) == i.(front := Received(i, header).front, rest := Received(i, header).rest)
  {
  }

  lemma RunThree(s: In, e1: Event, e2: Event, e3: Event)
    requires Possible(s, e1) && Possible(Step(s, e1), e2) && Possible(Step(Step(s, e1), e2), e3)
    ensures Run(s, [e1, e2, e3]) == Step(Step(Step(s, e1), e2), e3)
  {
    hide Step, Possible;
    assert [e1, e2, e3][..2] == [e1, e2] && [e1, e2][..1] == [e1] && [e1][..0] == [];
    assert Run(s, []) == s && Run(s, [e1]) == Step(s, e1) && Run(s, [e1, e2]) == Step(Step(s, e1), e2);
  }

  // ---------------------------------------------------------------- cuts

  /** A packet before the last needs a further read. */
  predicate CutsEarly(i: In, e: Event, all: seq<Sent>) {
    && i.end == Running && Possible(i, e) && e.Input?
    && i.expected > 0 && !i.freed && |i.dispatched| + 1 < |all|
  }

  predicate CutEarly(s: In, events: seq<Event>, all: seq<Sent>) {
    events != [] &&
      (CutEarly(s, events[..|events| - 1], all)
        || CutsEarly(Run(s, events[..|events| - 1]), events[|events| - 1], all))
  }

  /** Where a run is that has not cut a packet early, and where one is that has. */
  ghost predicate Uncut(i: In, all: seq<Sent>) {
    && (i.end == Running || i.end == Closed)
    && (i.end == Running && JustContinued(i) ==> |i.dispatched| == |all|)
    && (i.end == Closed && i.rest == [] ==> |i.dispatched| == |all|)
  }

  ghost predicate Fatal(i: In, all: seq<Sent>) {
    && |i.dispatched| < |all|
    && (i.end == Running ==> i.expected > 0 && (!i.freed ==> |i.dispatched| + 1 < |all|))
  }

  lemma StartUncut(i: In, e: Event, all: seq<Sent>)
    requires AllPackets(all) && |i.dispatched| <= |all| && i.end == Running && i.expected == 0
    requires Sound(i, e, all) && Following(i, all[|i.dispatched|..])
    requires forall k :: 0 <= k < |all| ==> |all[k].packet| <= BUFFER
    ensures Uncut(Step(i, e), all)
  {
    hide Frame, Received, HeaderOf;
    var n := |i.dispatched|;
    var q := all[n..];
    if e.Input? && e.header != RECV_LENGTH {
      ReceivedShape(i, e.header);
      StreamEmpty(i.chain, q);
      if q != [] {
        StreamFirst(i.chain, q);
      }
      assert |Received(i, e.header).rest| == |i.rest| - e.header by { ReceivedRest(i, e.header); }
    } else if e.Input? {
      assert q[0] == all[n];
      StreamFirst(i.chain, q);
      StartFollows(i, q);
      ReceivedShape(i, RECV_LENGTH);
      NoWrap(|q[0].packet| - RECV_LENGTH - e.payload);
    }
  }

  lemma ReceivedRest(i: In, header: nat)
    requires header <= |i.rest|
    ensures |Received(i, header).rest| == |i.rest| - header
  {
  }

  lemma ContinueUncut(i: In, e: Event, all: seq<Sent>)
    requires AllPackets(all) && |i.dispatched| <= |all| && i.end == Running && i.expected > 0
    requires Sound(i, e, all) && Following(i, all[|i.dispatched|..])
    requires forall k :: 0 <= k < |all| ==> |all[k].packet| <= BUFFER
    ensures Uncut(i, all) && !CutsEarly(i, e, all) ==> Uncut(Step(i, e), all)
    ensures CutsEarly(i, e, all) || Fatal(i, all) ==> Fatal(Step(i, e), all)
  {
    hide Frame;
    var n := |i.dispatched|;
    var q := all[n..];
    StreamEmpty(i.chain, q);
    if !i.freed {
      assert q[0] == all[n];
    }
  }

  lemma {:induction false} CutsDecide(s: In, all: seq<Sent>, events: seq<Event>)
    requires AllPackets(all) && |s.front| == RECV_LENGTH && s == Start(s.mode, s.chain, s.front, Stream(s.chain, all))
    requires SoundRun(s, events, all)
    requires forall k :: 0 <= k < |all| ==> |all[k].packet| <= BUFFER
    ensures CutEarly(s, events, all) ==> Fatal(Run(s, events), all)
    ensures !CutEarly(s, events, all) ==> Uncut(Run(s, events), all)
  {
    hide Stream, Possible, Sound, Step, CutsEarly, Following, Uncut, Fatal;
    if events == [] {
      assert Uncut(s, all) by { UncutStart(s, all); }
    } else {
      var before, e := events[..|events| - 1], events[|events| - 1];
      CutsDecide(s, all, before);
      RunFaithful(s, all, before);
      var i := Run(s, before);
      SoundIsPossible(i, e, all);
      if i.end != Running {
        EndedStays(i, e);
        EndedUncut(i, e, all);
      } else if i.expected == 0 {
        StartUncut(i, e, all);
        NotCutAtStart(i, e, all);
      } else {
        ContinueUncut(i, e, all);
      }
    }
  }

  lemma UncutStart(s: In, all: seq<Sent>)
    requires s.end == Running && s.expected == 0
    ensures Uncut(s, all)
  {
  }

  lemma NotCutAtStart(i: In, e: Event, all: seq<Sent>)
    requires i.end == Running && i.expected == 0
    ensures !CutsEarly(i, e, all) && !Fatal(i, all)
  {
  }

  lemma EndedUncut(i: In, e: Event, all: seq<Sent>)
    requires i.end != Running && Possible(i, e) && Step(i, e) == i.(mode := Step(i, e).mode)
    ensures !CutsEarly(i, e, all) && (Uncut(i, all) ==> Uncut(Step(i, e), all))
    ensures Fatal(i, all) ==> Fatal(Step(i, e), all)
  {
  }

  /**
   When a client's packets fit the buffer and all bytes were read: every packet was dispatched exactly
   when no packet before the last needed a further read.
   */
  lemma DispatchedUnlessCut(s: In, all: seq<Sent>, events: seq<Event>)
    requires AllPackets(all) && |s.front| == RECV_LENGTH && s == Start(s.mode, s.chain, s.front, Stream(s.chain, all))
    requires SoundRun(s, events, all) && Run(s, events).rest == []
    requires forall k :: 0 <= k < |all| ==> |all[k].packet| <= BUFFER
    ensures Run(s, events).dispatched == PacketsOf(all) <==> !CutEarly(s, events, all)
  {
    hide Run, SoundRun, Stream, CutEarly;
    CutsDecide(s, all, events);
    RunFaithful(s, all, events);
    var i := Run(s, events);
    var n := |i.dispatched|;
    if i.end == Running && !CutEarly(s, events, all) {
      StreamEmpty(i.chain, all[n..]);
    }
    assert n == |all| ==> all[..n] == all;
  }

  // ---------------------------------------------------------------- the bounds of the buffer

  /** Bytes can be received past the end of the buffer exactly when the deciphered size is below 4 or above 4094. */
  lemma OverrunExactly(i: In)
    requires i.end == Running && i.expected == 0 && |i.front| == RECV_LENGTH && |i.rest| >= RECV_LENGTH + BUFFER
    ensures (exists k :: Possible(i, Input(RECV_LENGTH, k)) && Step(i, Input(RECV_LENGTH, k)).end == Overrun)
      <==> !(4 <= DeclaredSize(HeaderOf(Received(i, RECV_LENGTH)).0) <= BUFFER - 2)
  {
    hide HeaderOf;
    var n := DeclaredSize(HeaderOf(Received(i, RECV_LENGTH)).0);
    var k := BUFFER - RECV_LENGTH + 1;
    if !(4 <= n <= BUFFER - 2) {
      assert Possible(i, Input(RECV_LENGTH, k)) && Step(i, Input(RECV_LENGTH, k)).end == Overrun;
    }
  }

  /** The same for the rest of a packet: exactly when more is expected than the buffer holds. */
  lemma NextOverrunExactly(i: In)
    requires i.end == Running && i.expected > 0 && |i.front| == RECV_LENGTH && |i.rest| > BUFFER
    ensures (exists k :: Possible(i, Input(0, k)) && Step(i, Input(0, k)).end == Overrun) <==> i.expected > BUFFER
  {
    if i.expected > BUFFER {
      assert Possible(i, Input(0, BUFFER + 1)) && Step(i, Input(0, BUFFER + 1)).end == Overrun;
    }
  }

  /** Every header the run reads declares a size from 4 to 4094. */
  predicate HeadersFit(i: In, events: seq<Event>) {
    events != [] ==>
      var before := events[..|events| - 1];
      && HeadersFit(i, before)
      && HeaderFits(Run(i, before), events[|events| - 1])
  }

  predicate HeaderFits(i: In, e: Event) {
    i.end == Running && Possible(i, e) && e.Input? && i.expected == 0 && (e.header == -1 || e.header == RECV_LENGTH) ==>
      4 <= DeclaredSize(HeaderOf(Received(i, e.header)).0) <= BUFFER - 2
  }

  /** Then nothing is ever received past the end of the buffer. */
  lemma {:induction false} NoOverrun(i: In, events: seq<Event>)
    requires i.end != Overrun && i.expected < BUFFER && HeadersFit(i, events)
    ensures Run(i, events).end != Overrun && Run(i, events).expected < BUFFER
  {
    hide Step, Possible, HeaderFits;
    if events != [] {
      var before, e := events[..|events| - 1], events[|events| - 1];
      NoOverrun(i, before);
      if Possible(Run(i, before), e) {
        FittingStep(Run(i, before), e);
      }
    }
  }

  lemma FittingStep(i: In, e: Event)
    requires Possible(i, e) && i.end != Overrun && i.expected < BUFFER && HeaderFits(i, e)
    ensures Step(i, e).end != Overrun && Step(i, e).expected < BUFFER
  {
    hide HeaderOf;
    if e.Input? && i.expected == 0 && (e.header == -1 || e.header == RECV_LENGTH) {
      var n := DeclaredSize(HeaderOf(Received(i, e.header)).0);
      if e.payload + 4 != n {
        NoWrap(n - e.payload - 4);
      }
    }
  }

  // ---------------------------------------------------------------- the read that failed

  /**
   When the payload read fails, the last header byte is dropped and the next packet's first byte is
   taken instead; that goes unnoticed exactly when all these bytes are the same.
   */
  lemma FailedReadShifts(i: In, p: seq<Byte>, z: Byte, more: seq<Byte>)
    requires i.end == Running && i.expected == 0 && |i.front| == RECV_LENGTH
    requires Packet(p) && RECV_LENGTH < |p| <= BUFFER
    requires i.rest == Frame(i.mode, i.chain, p).0 + [z] + more
    ensures var e1, e2 := Input(RECV_LENGTH, -1), Input(0, |p| - 5);
      var got := p[..5] + p[RECV_LENGTH..] + [z];
      && Possible(i, e1) && Possible(Step(i, e1), e2)
      && Step(Step(i, e1), e2).dispatched == i.dispatched + [got]
      && (got == p <==> forall k :: 5 <= k < |p| ==> p[k] == z)
  {
    hide Frame, Decipher, SwapSize, ClientHeader;
    var (f, c) := Frame(i.mode, i.chain, p);
    HeaderRead(i.mode, i.chain, p);
    assert i.rest == f + ([z] + more);
    assert i.rest[..RECV_LENGTH] == f[..RECV_LENGTH];
    WholeHeader(i);
    assert HeaderOf(Received(i, RECV_LENGTH)).0 == p[..RECV_LENGTH];
    NoWrap(|p| - 5);
    var j := Step(i, Input(RECV_LENGTH, -1));
    assert j.packet == p[..5] by { assert p[..RECV_LENGTH][..5] == p[..5]; }
    assert j.rest == p[RECV_LENGTH..] + [z] + more;
    assert j.rest[..|p| - 5] == p[RECV_LENGTH..] + [z];
    assert p[..5] + (p[RECV_LENGTH..] + [z]) == p[..5] + p[RECV_LENGTH..] + [z];
    ShiftUnnoticed(p, z, 5);
  }

  lemma {:induction false} ShiftUnnoticed(p: seq<Byte>, z: Byte, k: nat)
    requires |p| > RECV_LENGTH && 5 <= k < |p|
    ensures var got := p[..5] + p[RECV_LENGTH..] + [z];
      && (got == p ==> forall m :: k <= m < |p| ==> p[m] == z)
      && ((forall m :: 5 <= m < |p| ==> p[m] == z) ==> got == p)
    decreases |p| - k
  {
    var got := p[..5] + p[RECV_LENGTH..] + [z];
    assert got[|p| - 1] == z;
    if k < |p| - 1 {
      ShiftUnnoticed(p, z, k + 1);
      assert got[k] == p[k + 1];
    }
  }

  // ---------------------------------------------------------------- the object

  class ProxyInputHandler {
    const crypto: ProxyCrypto
    const rawBuf: array<Byte>
    var expectedData: nat
    var inPacket: seq<Byte>
    var dispatched: seq<seq<Byte>>
    /** Whether the object behind `inPacket` was deleted, and how the connection ended. */
    var freed: bool
    var end: End
    /** What the client has sent and nobody has read. */
    var incoming: seq<Byte>

    ghost function Abs(): (i: In)
      requires rawBuf.Length == BUFFER
      reads this, crypto, rawBuf
      ensures |i.front| == RECV_LENGTH
    {
      In(expectedData, inPacket, freed, end, if crypto.isInitialised then PO.Keyed(crypto.key) else PO.Plain,
         crypto.RecvChain(), rawBuf[..RECV_LENGTH], incoming, dispatched)
    }

    constructor (crypto: ProxyCrypto)
      ensures this.crypto == crypto && rawBuf.Length == BUFFER
      ensures Abs() == Start(Abs().mode, Abs().chain, Zeros(RECV_LENGTH), [])
    {
      this.crypto := crypto;
      rawBuf := new Byte[BUFFER](_ => 0);
      expectedData, inPacket, dispatched, freed, end, incoming := 0, [], [], false, Running, [];
      new;
      assert rawBuf[..RECV_LENGTH] == Zeros(RECV_LENGTH);
    }

    /** The handler of world entry sets the key between two activations. */
    method KeySet(key: Key)
      requires rawBuf.Length == BUFFER
      modifies crypto`key, crypto`isInitialised
      ensures Abs() == Step(old(Abs()), SetKey(key))
    {
      crypto.SetKey(key);
    }

    method HandleInput(header: int, payload: int)
      requires rawBuf.Length == BUFFER && Possible(Abs(), Input(header, payload))
      modifies this, rawBuf, crypto`recvI, crypto`recvJ
      ensures Abs() == Step(old(Abs()), Input(header, payload))
    {
      hide Decipher, HeaderOf, FirstRead, NextRead;
      if expectedData == 0 {
        Receive(0, header);
        assert Abs() == Received(old(Abs()), header);
        if 0 <= header < RECV_LENGTH {
          end := Closed;
          return;
        }
        FirstPart(payload);
      } else {
        NextPart(payload);
      }
    }

    /** recv: copy that many bytes of what has arrived into the buffer; -1 leaves it alone. */
    method Receive(at: nat, count: int)
      requires rawBuf.Length == BUFFER && -1 <= count <= |incoming| && at <= BUFFER && at + count <= BUFFER
      modifies this`incoming, rawBuf
      ensures incoming == old(incoming)[Taken(count)..]
      ensures forall k :: 0 <= k < Taken(count) ==> rawBuf[at + k] == old(incoming)[k]
      ensures forall k :: 0 <= k < at || at + Taken(count) <= k < BUFFER ==> rawBuf[k] == old(rawBuf[k])
      ensures at == 0 ==>
        rawBuf[..RECV_LENGTH] == Overwritten(old(rawBuf[..RECV_LENGTH]), old(incoming)[..Taken(count)])
    {
      if count >= 0 {
        forall k | 0 <= k < count {
          rawBuf[at + k] := incoming[k];
        }
        incoming := incoming[count..];
      }
    }

    /** Decipher the header in place, put its size in memory order, and read what there is of the payload. */
    method FirstPart(payload: int)
      requires rawBuf.Length == BUFFER && PayloadPossible(Abs(), payload)
      modifies this, rawBuf, crypto`recvI, crypto`recvJ
      ensures Abs() == FirstRead(old(Abs()), payload)
    {
      hide Decipher, HeaderOf;
      DecipherHeader();
      var size := (rawBuf[0] as int) + 256 * (rawBuf[1] as int);
      ghost var h := rawBuf[..RECV_LENGTH];
      assert size == DeclaredSize(h);
      if RECV_LENGTH + payload > BUFFER {
        end := Overrun;
        incoming := incoming[payload..];
        return;
      }
      Receive(RECV_LENGTH, payload);
      assert rawBuf[..RECV_LENGTH] == h;
      inPacket := rawBuf[..payload + RECV_LENGTH];
      assert inPacket == if payload < 0 then h[..5] else h + old(incoming)[..payload];
      freed := false;
      if payload + 4 != size {
        expectedData := (size - payload - 4) % SIZE_T;
        return;
      }
      ProcessIncoming();
    }

    method NextPart(payload: int)
      requires rawBuf.Length == BUFFER && expectedData > 0 && -1 <= payload <= expectedData && payload <= |incoming|
      modifies this, rawBuf
      ensures Abs() == NextRead(old(Abs()), payload)
    {
      if payload > BUFFER {
        end := Overrun;
        forall k | 0 <= k < BUFFER {
          rawBuf[k] := incoming[k];
        }
        incoming := incoming[payload..];
        return;
      }
      Receive(0, payload);
      if payload <= 0 {
        end := Closed;
        return;
      }
      if freed {
        end := UseAfterDelete;
        return;
      }
      if |inPacket| >= SIZE_LIMIT {
        end := AssertionFailed;
        return;
      }
      inPacket := inPacket + rawBuf[..payload];
      assert rawBuf[..payload] == old(incoming)[..payload];
      if payload != expectedData {
        expectedData := expectedData - payload;
        return;
      }
      ProcessIncoming();
    }

    method DecipherHeader()
      requires rawBuf.Length == BUFFER
      modifies rawBuf, crypto`recvI, crypto`recvJ
      ensures (rawBuf[..RECV_LENGTH], crypto.RecvChain()) == HeaderOf(old(Abs()))
    {
      hide Decrypt;
      crypto.DecryptHeader(rawBuf);
      ghost var h := rawBuf[..RECV_LENGTH];
      assert (h, crypto.RecvChain()) == Decipher(old(Abs()).mode, old(crypto.RecvChain()), old(rawBuf[..RECV_LENGTH]));
      rawBuf[0], rawBuf[1] := rawBuf[1], rawBuf[0];
      assert rawBuf[..RECV_LENGTH] == SwapSize(h);
    }

    /** Look at the command, hand the packet to its handler and delete it. */
    method ProcessIncoming()
      requires rawBuf.Length == BUFFER
      modifies this`dispatched, this`freed, this`end
      ensures Abs() == Dispatched(old(Abs()))
    {
      if |inPacket| < RECV_LENGTH {
        freed, end := false, AssertionFailed;
        return;
      }
      dispatched := dispatched + [inPacket];
      freed := true;
    }
  }
}

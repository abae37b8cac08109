/**
 The proxy daemon's output: each packet gets its size patched and its header ciphered before it is
 offered to the peer, which may take any part of it. The cipher is applied when a packet is first
 offered, not when it is sent.
 */
module ProxyOutput {
  import opened Bytes
  import opened HeaderCipher
  import OutputQueue
  import opened Wrappers

  /** The cipher as this direction sees it: a key, or none yet. */
  datatype Mode = Plain | Keyed(key: Key)

  /** `framed` says, for each packet offered so far, in which mode its header was ciphered. */
  datatype Out = Out(
    queue: seq<seq<Byte>>, active: bool, armed: bool, continuing: bool,
    mode: Mode, chain: Chain, wire: seq<Byte>, pushed: seq<seq<Byte>>, framed: seq<Mode>)

  /** A packet is sent, the peer takes a number of the bytes offered (-1 is an error), or the key is set. */
  datatype Event = Push(packet: seq<Byte>) | Attempt(taken: int) | SetKey(key: Key)

  function Start(mode: Mode, chain: Chain): Out {
    Out([], false, false, false, mode, chain, [], [], [])
  }

  // ---------------------------------------------------------------- headers

  function BigEndian16(v: nat): (r: seq<Byte>)
    ensures |r| == 2
  {
    [v / 256 % 256, v % 256]
  }

  /** Write the size field for the buffer's present length; a buffer of less than two bytes grows. */
  function Sized(b: seq<Byte>): (r: seq<Byte>)
    ensures |r| == if |b| < 2 then 2 else |b|
  {
    BigEndian16((|b| - 4) % 65536 + 2) + (if |b| < 2 then [] else b[2..])
  }

  /** The size field counts everything behind itself, highest byte first; the other bytes stay. */
  lemma SizedBytes(b: seq<Byte>)
    requires 4 <= |b| < 65538
    ensures Sized(b)[0] as int * 256 + Sized(b)[1] as int == |b| - 2 && Sized(b)[2..] == b[2..]
  {
  }

  function CipherHeader(mode: Mode, c: Chain, b: seq<Byte>): (r: (seq<Byte>, Chain))
    requires |b| >= SEND_LENGTH
    ensures |r.0| == |b|
  {
    match mode
    case Plain => (b, c)
    case Keyed(key) =>
      var (h, d) := Encrypt(key, c, b[..SEND_LENGTH]);
      (h + b[SEND_LENGTH..], d)
  }

  /** One packet as the peer should get it. */
  function Frame(mode: Mode, c: Chain, p: seq<Byte>): (r: (seq<Byte>, Chain))
    requires |p| >= SEND_LENGTH
    ensures |r.0| == |p|
  {
    CipherHeader(mode, c, Sized(p))
  }

  /** Before a key is set a packet goes out as it is sized; then its first four bytes are ciphered. */
  lemma FrameBytes(c: Chain, p: seq<Byte>, key: Key)
    requires |p| >= 4
    ensures Frame(Plain, c, p) == (Sized(p), c)
    ensures var (h, d) := Encrypt(key, c, Sized(p)[..4]);
      Frame(Keyed(key), c, p) == (h + Sized(p)[4..], d)
  {
    hide Sized, Encrypt;
  }

  predicate Packets(q: seq<seq<Byte>>) {
    forall i :: 0 <= i < |q| ==> |q[i]| >= SEND_LENGTH
  }

  /** The packets one after the other, each in its own mode, the cipher running on from header to header. */
  function Framed(ms: seq<Mode>, c: Chain, q: seq<seq<Byte>>): (r: (seq<Byte>, Chain))
    requires Packets(q) && |ms| == |q|
    decreases |q|
  {
    if q == [] then ([], c)
    else
      var n := |q| - 1;
      var (f, d) := Framed(ms[..n], c, q[..n]);
      var (t, e) := Frame(ms[n], d, q[n]);
      (f + t, e)
  }

  // ---------------------------------------------------------------- the transitions

  /** After an error the handler is no longer registered, and nothing is offered any more. */
  predicate Failed(o: Out) {
    o.queue != [] && !o.armed
  }

  /** A fresh front packet has a whole header. */
  predicate Ready(o: Out) {
    Packets(o.pushed) && (o.queue != [] && o.armed ==> o.continuing || |o.queue[0]| >= SEND_LENGTH)
  }

  /** What the next attempt offers: the size is patched always, the header ciphered unless continuing. */
  function Offered(o: Out): (r: (seq<Byte>, Chain))
    requires Ready(o) && o.queue != [] && o.armed
    ensures |r.0| >= 2
  {
    if o.continuing then (Sized(o.queue[0]), o.chain) else Frame(o.mode, o.chain, o.queue[0])
  }

  predicate Possible(o: Out, e: Event) {
    && Ready(o)
    && (e.Push? ==> |e.packet| >= SEND_LENGTH)
    && (e.Attempt? ==> o.armed && o.queue != [] && -1 <= e.taken <= |Offered(o).0|)
  }

  function Step(o: Out, e: Event): Out
    requires Possible(o, e)
  {
    match e
    case Push(p) => o.(queue := o.queue + [p], active := true, armed := o.armed || !o.active, pushed := o.pushed + [p])
    case SetKey(key) => o.(mode := Keyed(key))
    case Attempt(taken) =>
      var (b, c) := Offered(o);
      var v := o.(chain := c, continuing := false, framed := if o.continuing then o.framed else o.framed + [o.mode]);
      if taken == -1 then
        v.(queue := o.queue[0 := b], armed := false)
      else if 0 < taken < |b| then
        v.(queue := o.queue[0 := OutputQueue.Remainder(b, taken)], continuing := true, wire := o.wire + b[..taken])
      else
        var rest := o.queue[1..];
        v.(queue := rest, wire := o.wire + b[..taken], active := rest != [], armed := rest != [])
  }

  function Run(o: Out, events: seq<Event>): Out {
    if events == [] then o
    else
      var d := Run(o, events[..|events| - 1]);
      var e := events[|events| - 1];
      if Possible(d, e) then Step(d, e) else d
  }

  // ---------------------------------------------------------------- exactness

  /** What is left of the packet under way, as it will be offered. */
  function Left(o: Out): seq<Byte> {
    if o.queue == [] then [] else if Failed(o) then o.queue[0] else if o.continuing then Sized(o.queue[0]) else []
  }

  /** The queue holds the packets behind the first k, and in front of them the one under way. */
  predicate Waiting(queue: seq<seq<Byte>>, pushed: seq<seq<Byte>>, k: nat, busy: bool)
    requires k <= |pushed|
  {
    if busy then k > 0 && queue != [] && queue[1..] == pushed[k..] else queue == pushed[k..]
  }

  /**
   The packets of the queue are those not offered yet, behind the one under way; the cipher has run
   over the others.
   */
  ghost predicate InStep(o: Out, c0: Chain) {
    && Ready(o) && |o.framed| <= |o.pushed|
    && (o.active <==> o.queue != []) && (o.armed ==> o.active) && (o.continuing ==> o.armed)
    && Waiting(o.queue, o.pushed, |o.framed|, o.continuing || Failed(o))
    && o.chain == Framed(o.framed, c0, o.pushed[..|o.framed|]).1
  }

  /** Taken bytes and what is left of the packet under way are the frames of all packets offered so far. */
  ghost predicate Exact(o: Out, c0: Chain)
    requires InStep(o, c0)
  {
    o.wire + Left(o) == Framed(o.framed, c0, o.pushed[..|o.framed|]).0
  }

  /** What the following attempt starts with is what this one left. */
  predicate Clean(b: seq<Byte>, taken: nat)
    requires taken <= |b|
  {
    || taken == |b|
    || (0 < taken && taken + 2 <= |b|
        && b[taken..taken + 2] == BigEndian16((|b| - taken - 4) % 65536 + 2)
        && forall x :: taken + 2 <= x < |b| ==> b[x - 1] == b[x])
  }

  /** The bytes offered after a partial write are the ones not taken exactly when the write was clean. */
  lemma ContinuesExactly(b: seq<Byte>, taken: nat)
    requires 0 < taken < |b|
    ensures Sized(OutputQueue.Remainder(b, taken)) == b[taken..] <==> Clean(b, taken)
  {
  }

  lemma FramedAppend(ms: seq<Mode>, c: Chain, q: seq<seq<Byte>>, m: Mode, p: seq<Byte>)
    requires Packets(q) && |ms| == |q| && |p| >= SEND_LENGTH
    ensures var (f, d) := Framed(ms, c, q);
      Framed(ms + [m], c, q + [p]) == (f + Frame(m, d, p).0, Frame(m, d, p).1)
  {
    assert (q + [p])[..|q|] == q && (ms + [m])[..|q|] == ms;
  }

  /** Everything an attempt does, seen from the packets offered so far. */
  lemma AttemptShape(o: Out, c0: Chain, taken: int)
    requires Possible(o, Attempt(taken)) && InStep(o, c0)
    ensures var d := Step(o, Attempt(taken));
      var b := Offered(o).0;
      var f := Framed(o.framed, c0, o.pushed[..|o.framed|]).0;
      && InStep(d, c0) && Left(o) == (if o.continuing then b else [])
      && d.wire == (if taken > 0 then o.wire + b[..taken] else o.wire)
      && Framed(d.framed, c0, d.pushed[..|d.framed|]).0 == (if o.continuing then f else f + b)
      && Left(d) ==
        (if taken == -1 then b else if 0 < taken < |b| then Sized(OutputQueue.Remainder(b, taken)) else [])
  {
    hide Frame, Sized, Framed;
    var k := |o.framed|;
    if !o.continuing {
      assert o.queue[0] == o.pushed[k] && o.queue[1..] == o.pushed[k + 1..];
      assert o.pushed[..k + 1] == o.pushed[..k] + [o.pushed[k]];
      FramedAppend(o.framed, c0, o.pushed[..k], o.mode, o.pushed[k]);
    }
  }

  /** From an exact state, an attempt keeps exactness precisely when it fails or is clean. */
  lemma AttemptExact(o: Out, c0: Chain, taken: int)
    requires Possible(o, Attempt(taken)) && InStep(o, c0) && Exact(o, c0)
    ensures InStep(Step(o, Attempt(taken)), c0)
    ensures Exact(Step(o, Attempt(taken)), c0) <==> taken == -1 || Clean(Offered(o).0, taken)
  {
    hide Sized, Framed, Offered, Clean, Left;
    AttemptShape(o, c0, taken);
    var b := Offered(o).0;
    WholeIsClean(b);
    var d := Step(o, Attempt(taken));
    assert o.wire + [] == o.wire;
    assert Framed(d.framed, c0, d.pushed[..|d.framed|]).0 == o.wire + b;
    if taken >= 0 {
      SamePrefix(o.wire, b, taken, Left(d));
      if 0 < taken < |b| {
        ContinuesExactly(b, taken);
      }
    }
  }

  lemma WholeIsClean(b: seq<Byte>)
    ensures Clean(b, |b|)
    ensures |b| > 0 ==> !Clean(b, 0)
  {
  }

  lemma SamePrefix(w: seq<Byte>, b: seq<Byte>, t: nat, s: seq<Byte>)
    requires t <= |b|
    ensures w + b[..t] + s == w + b <==> s == b[t..]
    ensures t == 0 ==> w + b[..t] == w
  {
    assert s == (w + b[..t] + s)[|w| + t..];
    assert b[t..] == (w + b)[|w| + t..];
    assert w + b == w + b[..t] + b[t..];
  }

  lemma PushWaits(queue: seq<seq<Byte>>, pushed: seq<seq<Byte>>, k: nat, busy: bool, p: seq<Byte>)
    requires k <= |pushed| && Waiting(queue, pushed, k, busy)
    ensures Waiting(queue + [p], pushed + [p], k, busy) && (pushed + [p])[..k] == pushed[..k]
  {
    assert (pushed + [p])[k..] == pushed[k..] + [p];
    if busy {
      assert (queue + [p])[1..] == queue[1..] + [p];
    }
  }

  lemma PushInStep(o: Out, c0: Chain, p: seq<Byte>)
    requires Possible(o, Push(p)) && InStep(o, c0)
    ensures InStep(Step(o, Push(p)), c0)
  {
    PushWaits(o.queue, o.pushed, |o.framed|, o.continuing || Failed(o), p);
    hide Framed, Sized, Offered, Waiting;
  }

  lemma PushLeft(o: Out, c0: Chain, p: seq<Byte>)
    requires Possible(o, Push(p)) && InStep(o, c0)
    ensures Left(Step(o, Push(p))) == Left(o)
  {
    hide Framed, Sized, Offered;
  }

  lemma PushKeeps(o: Out, c0: Chain, p: seq<Byte>)
    requires Possible(o, Push(p)) && InStep(o, c0)
    ensures InStep(Step(o, Push(p)), c0)
    ensures Exact(Step(o, Push(p)), c0) <==> Exact(o, c0)
  {
    PushInStep(o, c0, p);
    PushLeft(o, c0, p);
    hide Framed, Left, InStep, Possible;
    var v, k := Step(o, Push(p)), |o.framed|;
    assert v.pushed[..k] == o.pushed[..k];
  }

  // ---------------------------------------------------------------- whole runs

  /** In every run, with errors and wherever the key is set, each header is ciphered once, in send order. */
  lemma {:induction false} RunInStep(mode: Mode, c0: Chain, events: seq<Event>)
    ensures InStep(Run(Start(mode, c0), events), c0)
  {
    hide Framed, Offered, Frame, InStep;
    if events == [] {
      StartInStep(mode, c0);
    } else {
      RunInStep(mode, c0, events[..|events| - 1]);
      var o, e := Run(Start(mode, c0), events[..|events| - 1]), events[|events| - 1];
      if Possible(o, e) {
        match e
        case Push(p) => PushKeeps(o, c0, p);
        case SetKey(key) => KeyKeeps(o, c0, key);
        case Attempt(taken) => AttemptShape(o, c0, taken);
      }
    }
  }

  lemma StartInStep(mode: Mode, c0: Chain)
    ensures InStep(Start(mode, c0), c0) && Exact(Start(mode, c0), c0)
  {
  }

  lemma KeyKeeps(o: Out, c0: Chain, key: Key)
    requires Possible(o, SetKey(key)) && InStep(o, c0)
    ensures InStep(Step(o, SetKey(key)), c0)
    ensures Exact(Step(o, SetKey(key)), c0) <==> Exact(o, c0)
  {
  }

  predicate AllClean(o: Out, events: seq<Event>) {
    events != [] ==>
      var d := Run(o, events[..|events| - 1]);
      var e := events[|events| - 1];
      && AllClean(o, events[..|events| - 1])
      && (e.Attempt? && e.taken >= 0 && Possible(d, e) ==> Clean(Offered(d).0, e.taken))
  }

  ghost predicate AlwaysExact(o: Out, c0: Chain, events: seq<Event>) {
    && InStep(Run(o, events), c0) && Exact(Run(o, events), c0)
    && (events != [] ==> AlwaysExact(o, c0, events[..|events| - 1]))
  }

  /** Over all runs: the peer's stream stays exact at every moment exactly when every attempt without error is clean. */
  lemma {:induction false} RunExact(mode: Mode, c0: Chain, events: seq<Event>)
    ensures AlwaysExact(Start(mode, c0), c0, events) <==> AllClean(Start(mode, c0), events)
  {
    hide Framed, Offered, Frame, Clean, InStep, Exact, Step;
    var s := Start(mode, c0);
    RunInStep(mode, c0, events);
    if events == [] {
      StartInStep(mode, c0);
    } else {
      var before := events[..|events| - 1];
      RunExact(mode, c0, before);
      RunInStep(mode, c0, before);
      var o, e := Run(s, before), events[|events| - 1];
      if Possible(o, e) && Exact(o, c0) {
        match e
        case Push(p) => PushKeeps(o, c0, p);
        case SetKey(key) => KeyKeeps(o, c0, key);
        case Attempt(taken) => AttemptExact(o, c0, taken);
      }
    }
  }

  /** A packet that is nothing but its header, of which one byte is taken first: its size and command are lost. */
  lemma PartialWriteLosesSize(c0: Chain, x: Byte, y: Byte)
    ensures Frame(Plain, c0, [0, 0, x, y]).0 == [0, 2, x, y]
    ensures Run(Start(Plain, c0), [Push([0, 0, x, y]), Attempt(1), Attempt(3)]).wire == [0, 0, 1, x]
  {
    hide Run, Sized;
    var p := [0, 0, x, y];
    assert Sized(p) == [0, 2, x, y] && Sized([0, 2, x]) == [0, 1, x] by { SmallSizes(x, y); }
    var s := Start(Plain, c0);
    var o := Step(s, Push(p));
    var b := [0, 2, x, y];
    assert Offered(o) == (b, c0) && Possible(o, Attempt(1));
    var d := Step(o, Attempt(1));
    assert OutputQueue.Remainder(b, 1) == [0, 2, x];
    assert Offered(d) == ([0, 1, x], c0) && Possible(d, Attempt(3));
    assert Step(d, Attempt(3)).wire == [0] + [0, 1, x];
    assert Run(s, [Push(p), Attempt(1), Attempt(3)]) == Step(d, Attempt(3)) by {
      RunThree(s, Push(p), Attempt(1), Attempt(3));
    }
  }

  lemma SmallSizes(x: Byte, y: Byte)
    ensures Sized([0, 0, x, y]) == [0, 2, x, y] && Sized([0, 2, x]) == [0, 1, x]
  {
    assert [0, 0, x, y][2..] == [x, y] && [0, 2, x][2..] == [x];
    assert (3 - 4) % 65536 == 65535;
  }

  lemma RunThree(s: Out, e1: Event, e2: Event, e3: Event)
    requires Possible(s, e1) && Possible(Step(s, e1), e2) && Possible(Step(Step(s, e1), e2), e3)
    ensures Run(s, [e1, e2, e3]) == Step(Step(Step(s, e1), e2), e3)
  {
    hide Step, Possible;
    assert [e1, e2, e3][..2] == [e1, e2] && [e1, e2][..1] == [e1] && [e1][..0] == [];
    assert Run(s, []) == s && Run(s, [e1]) == Step(s, e1) && Run(s, [e1, e2]) == Step(Step(s, e1), e2);
  }

  // ---------------------------------------------------------------- where the key takes effect

  predicate NoKey(events: seq<Event>) {
    forall i :: 0 <= i < |events| ==> !events[i].SetKey?
  }

  lemma {:induction false} RunModes(o: Out, events: seq<Event>)
    requires NoKey(events)
    ensures var d := Run(o, events);
      && d.mode == o.mode && |o.framed| <= |d.framed|
      && forall k :: 0 <= k < |d.framed| ==> d.framed[k] == if k < |o.framed| then o.framed[k] else o.mode
  {
    hide Offered, Sized;
    if events != [] {
      RunModes(o, events[..|events| - 1]);
    }
  }

  lemma {:induction false} RunConcat(o: Out, a: seq<Event>, b: seq<Event>)
    ensures Run(o, a + b) == Run(Run(o, a), b)
    decreases |b|
  {
    hide Step, Possible;
    if b == [] {
      assert a + b == a;
    } else {
      RunConcat(o, a, b[..|b| - 1]);
      assert (a + b)[..|a + b| - 1] == a + b[..|b| - 1];
    }
  }

  /**
   The key takes effect for packets, not for bytes: a packet goes out plain exactly when it was first
   offered before the key was set, however long before it was sent.
   */
  lemma KeyDecides(c0: Chain, before: seq<Event>, key: Key, after: seq<Event>)
    requires NoKey(before) && NoKey(after)
    ensures var o := Run(Start(Plain, c0), before);
      var d := Run(Start(Plain, c0), before + [SetKey(key)] + after);
      && |o.framed| <= |d.framed|
      && forall k :: 0 <= k < |d.framed| ==> d.framed[k] == if k < |o.framed| then Plain else Keyed(key)
  {
    var s := Start(Plain, c0);
    var o := Run(s, before);
    RunModes(s, before);
    RunInStep(Plain, c0, before);
    assert Possible(o, SetKey(key));
    RunConcat(s, before, [SetKey(key)]);
    RunConcat(s, before + [SetKey(key)], after);
    assert [SetKey(key)][..0] == [];
    assert Run(o, [SetKey(key)]) == Step(o, SetKey(key));
    RunModes(Step(o, SetKey(key)), after);
  }

  /** A packet that waits while the key is set: sent before, ciphered all the same. */
  lemma WaitingIsCiphered(c0: Chain, p: seq<Byte>, key: Key)
    requires |p| >= SEND_LENGTH
    ensures Run(Start(Plain, c0), [Push(p), SetKey(key), Attempt(|p|)]).wire == Frame(Keyed(key), c0, p).0
  {
    hide Run, Frame;
    var s := Start(Plain, c0);
    var d := Step(Step(s, Push(p)), SetKey(key));
    assert Offered(d) == Frame(Keyed(key), c0, p);
    RunThree(s, Push(p), SetKey(key), Attempt(|p|));
    var b := Frame(Keyed(key), c0, p).0;
    assert b[..|p|] == b && [] + b == b;
  }

  // ---------------------------------------------------------------- the peer's end

  /** The size field does not count itself. */
  function FrameLength(h: seq<Byte>): nat
    requires |h| >= 2
  {
    (h[0] as int) * 256 + (h[1] as int) + 2
  }

  function ReadHeader(mode: Mode, c: Chain, h: seq<Byte>): (r: (seq<Byte>, Chain))
    requires |h| == SEND_LENGTH
    ensures |r.0| == SEND_LENGTH
  {
    if mode.Keyed? then Decrypt(mode.key, c, h) else (h, c)
  }

  /** The client reads a header, deciphers it in its mode, and takes as many bytes as the size field says. */
  function ReadFrames(ms: seq<Mode>, c: Chain, s: seq<Byte>): Option<seq<seq<Byte>>> {
    if ms == [] then (if s == [] then Some([]) else None)
    else if |s| < SEND_LENGTH then None
    else
      var (h, d) := ReadHeader(ms[0], c, s[..SEND_LENGTH]);
      var n := FrameLength(h);
      if n < SEND_LENGTH || |s| < n then None
      else
        var t := ReadFrames(ms[1..], d, s[n..]);
        if t.None? then None else Some([h + s[SEND_LENGTH..n]] + t.value)
  }

  function AllSized(q: seq<seq<Byte>>): seq<seq<Byte>> {
    if q == [] then [] else [Sized(q[0])] + AllSized(q[1..])
  }

  /** The size field counts everything behind itself, as long as that fits in 16 bits. */
  predicate Fitting(q: seq<seq<Byte>>) {
    forall i :: 0 <= i < |q| ==> SEND_LENGTH <= |q[i]| < 65538
  }

  lemma {:induction false} FramedSplit(ms: seq<Mode>, c: Chain, q: seq<seq<Byte>>, ns: seq<Mode>, r: seq<seq<Byte>>)
    requires Packets(q) && |ms| == |q| && Packets(r) && |ns| == |r|
    ensures var (f, d) := Framed(ms, c, q);
      var (g, e) := Framed(ns, d, r);
      Packets(q + r) && Framed(ms + ns, c, q + r) == (f + g, e)
    decreases |r|
  {
    hide Frame;
    if r == [] {
      assert q + r == q && ms + ns == ms;
      assert Framed(ms, c, q).0 + [] == Framed(ms, c, q).0;
    } else {
      var n := |r| - 1;
      FramedSplit(ms, c, q, ns[..n], r[..n]);
      assert (q + r)[..|q + r| - 1] == q + r[..n] && (ms + ns)[..|q + r| - 1] == ms + ns[..n];
      var (f, d) := Framed(ms, c, q);
      var (g, e) := Framed(ns[..n], d, r[..n]);
      assert f + (g + Frame(ns[n], e, r[n]).0) == f + g + Frame(ns[n], e, r[n]).0;
    }
  }

  lemma FramedOne(m: Mode, c: Chain, p: seq<Byte>)
    requires |p| >= SEND_LENGTH
    ensures Framed([m], c, [p]) == Frame(m, c, p)
  {
    hide Frame;
    var ms, q := [m], [p];
    assert |ms[..0]| == 0 && |q[..0]| == 0 && Framed(ms[..0], c, q[..0]) == ([], c);
    assert [] + Frame(m, c, p).0 == Frame(m, c, p).0;
  }

  lemma FramedFirst(ms: seq<Mode>, c: Chain, q: seq<seq<Byte>>)
    requires Packets(q) && |ms| == |q| > 0
    ensures var (f, d) := Frame(ms[0], c, q[0]);
      var (t, e) := Framed(ms[1..], d, q[1..]);
      Framed(ms, c, q) == (f + t, e)
  {
    hide Frame;
    assert q == [q[0]] + q[1..] && ms == [ms[0]] + ms[1..];
    FramedSplit([ms[0]], c, [q[0]], ms[1..], q[1..]);
    FramedOne(ms[0], c, q[0]);
  }

  lemma ReadOne(mode: Mode, c: Chain, p: seq<Byte>, t: seq<Byte>)
    requires SEND_LENGTH <= |p| < 65538
    ensures var (f, d) := Frame(mode, c, p);
      && |f| == |p| && |f + t| >= SEND_LENGTH
      && ReadHeader(mode, c, (f + t)[..SEND_LENGTH]) == (Sized(p)[..SEND_LENGTH], d)
      && (f + t)[SEND_LENGTH..|p|] == Sized(p)[SEND_LENGTH..] && (f + t)[|p|..] == t
      && FrameLength(Sized(p)[..SEND_LENGTH]) == |p|
  {
    hide Encrypt, Decrypt;
    var b := Sized(p);
    var (f, d) := Frame(mode, c, p);
    if mode.Keyed? {
      var (h, e) := Encrypt(mode.key, c, b[..SEND_LENGTH]);
      assert (f + t)[..SEND_LENGTH] == h;
      RoundTrip(mode.key, c, b[..SEND_LENGTH]);
    } else {
      assert (f + t)[..SEND_LENGTH] == b[..SEND_LENGTH];
    }
  }

  /** The client recovers exactly the packets that were framed. */
  lemma {:induction false} FramesAreRead(ms: seq<Mode>, c: Chain, q: seq<seq<Byte>>)
    requires Packets(q) && Fitting(q) && |ms| == |q|
    ensures ReadFrames(ms, c, Framed(ms, c, q).0) == Some(AllSized(q))
    decreases |q|
  {
    if q == [] {
      assert Framed(ms, c, q).0 == [];
    } else {
      hide Frame, Sized, ReadHeader, Framed;
      var p := q[0];
      var (f, d) := Frame(ms[0], c, p);
      var t := Framed(ms[1..], d, q[1..]).0;
      FramedFirst(ms, c, q);
      ReadOne(ms[0], c, p, t);
      FramesAreRead(ms[1..], d, q[1..]);
      assert Sized(p) == Sized(p)[..SEND_LENGTH] + Sized(p)[SEND_LENGTH..];
    }
  }

  /** The modes of all packets sent so far, if the key does not change any more. */
  function Modes(o: Out): (ms: seq<Mode>)
    requires |o.framed| <= |o.pushed|
    ensures |ms| == |o.pushed|
  {
    o.framed + seq(|o.pushed| - |o.framed|, _ => o.mode)
  }

  /** All bytes still to be offered, if nothing goes wrong from here on. */
  function Pending(o: Out): seq<Byte>
    requires |o.framed| <= |o.pushed| && Packets(o.pushed)
  {
    Left(o) + Framed(Modes(o)[|o.framed|..], o.chain, o.pushed[|o.framed|..]).0
  }

  /**
   When every attempt is clean, the client reads all packets in order, however sends, writes and the
   key interleave.
   */
  lemma ClientReadsAll(mode: Mode, c0: Chain, events: seq<Event>)
    requires AllClean(Start(mode, c0), events) && Fitting(Run(Start(mode, c0), events).pushed)
    ensures var o := Run(Start(mode, c0), events);
      && InStep(o, c0) && o.wire + Pending(o) == Framed(Modes(o), c0, o.pushed).0
      && ReadFrames(Modes(o), c0, o.wire + Pending(o)) == Some(AllSized(o.pushed))
  {
    hide Framed, AllClean, Left, Run, ReadFrames, AllSized;
    var o := Run(Start(mode, c0), events);
    RunInStep(mode, c0, events);
    RunExact(mode, c0, events);
    var k := |o.framed|;
    assert Modes(o)[..k] == o.framed && Modes(o) == o.framed + Modes(o)[k..];
    assert o.pushed == o.pushed[..k] + o.pushed[k..];
    FramedSplit(o.framed, c0, o.pushed[..k], Modes(o)[k..], o.pushed[k..]);
    var rest := Framed(Modes(o)[k..], o.chain, o.pushed[k..]).0;
    assert o.wire + (Left(o) + rest) == o.wire + Left(o) + rest;
    FramesAreRead(Modes(o), c0, o.pushed);
  }

  // ---------------------------------------------------------------- the object

  class ProxyOutputQueue {
    const peer: OutputQueue.Peer
    const crypto: ProxyCrypto
    var packetQueue: seq<seq<Byte>>
    var outActive: bool
    var armed: bool
    var continueSend: bool
    ghost var pushed: seq<seq<Byte>>
    ghost var framed: seq<Mode>

    ghost function Abs(): Out
      reads this, peer, crypto
    {
      Out(packetQueue, outActive, armed, continueSend,
          if crypto.isInitialised then Keyed(crypto.key) else Plain, crypto.SendChain(), peer.wire, pushed, framed)
    }

    constructor (peer: OutputQueue.Peer, crypto: ProxyCrypto)
      requires peer.wire == [] && !crypto.isInitialised
      ensures Abs() == Start(Plain, crypto.SendChain()) && this.peer == peer && this.crypto == crypto
    {
      this.peer, this.crypto := peer, crypto;
      packetQueue, outActive, armed, continueSend, pushed, framed := [], false, false, false, [], [];
    }

    method Send(pkt: seq<Byte>)
      requires Possible(Abs(), Push(pkt))
      modifies this
      ensures Abs() == Step(old(Abs()), Push(pkt))
    {
      packetQueue := packetQueue + [pkt];
      pushed := pushed + [pkt];
      if !outActive {
        armed := true;
        outActive := true;
      }
    }

    /** The handler of world entry sets the key, whatever is waiting. */
    method KeySet(key: Key)
      requires Ready(Abs())
      modifies crypto`key, crypto`isInitialised
      ensures Abs() == Step(old(Abs()), SetKey(key))
    {
      crypto.SetKey(key);
    }

    /** Patch the size of the front packet and cipher its header, in place. */
    method PrepareFront()
      requires Ready(Abs()) && packetQueue != [] && armed
      modifies this`packetQueue, this`framed, crypto`sendI, crypto`sendJ
      ensures var (b, c) := old(Offered(Abs()));
        packetQueue == old(packetQueue)[0 := b] && crypto.SendChain() == c
      ensures framed == if continueSend then old(framed) else old(framed) + [old(Abs()).mode]
    {
      hide Encrypt;
      var b := Sized(packetQueue[0]);
      if !continueSend {
        var a := new Byte[|b|](i requires 0 <= i < |b| => b[i]);
        assert a[..] == b && a[..SEND_LENGTH] == b[..SEND_LENGTH] && a[SEND_LENGTH..] == b[SEND_LENGTH..];
        crypto.EncryptHeader(a);
        assert a[..] == a[..SEND_LENGTH] + a[SEND_LENGTH..] && b == b[..SEND_LENGTH] + b[SEND_LENGTH..];
        ghost var f := Frame(old(Abs()).mode, old(Abs()).chain, old(packetQueue[0])).0;
        assert f == a[..];
        b := a[..];
        framed := framed + [old(Abs()).mode];
      }
      packetQueue := packetQueue[0 := b];
    }

    /** One attempt to get rid of the front packet. */
    method TryFront() returns (taken: int)
      requires Ready(Abs()) && armed && outActive && packetQueue != []
      modifies this, peer, crypto`sendI, crypto`sendJ
      ensures Possible(old(Abs()), Attempt(taken))
      ensures Abs() == Step(old(Abs()), Attempt(taken))
    {
      hide Offered, Sized, Frame;
      var queue := packetQueue;
      PrepareFront();
      var buffer := packetQueue[0];
      continueSend := false;
      taken := peer.Offer(buffer);
      assert taken == 0 ==> old(peer.wire) + buffer[..taken] == old(peer.wire);
      if 0 < taken < |buffer| {
        packetQueue := packetQueue[0 := OutputQueue.Remainder(buffer, taken)];
        assert packetQueue == queue[0 := OutputQueue.Remainder(buffer, taken)];
        continueSend := true;
      } else if taken == -1 {
        armed := false;
      } else {
        packetQueue := packetQueue[1..];
        assert packetQueue == queue[1..];
        if packetQueue == [] {
          outActive, armed := false, false;
        }
      }
    }

    method HandleOutput() returns (code: int, ghost attempts: seq<Event>)
      requires Ready(Abs()) && armed && outActive && packetQueue != [] && Packets(packetQueue[1..])
      modifies this, peer, crypto`sendI, crypto`sendJ
      ensures Abs() == Run(old(Abs()), attempts)
      ensures forall i :: 0 <= i < |attempts| ==> attempts[i].Attempt?
      ensures code == -1 <==> packetQueue != [] && !armed
      ensures code == 0 <==> packetQueue == []
    {
      hide Offered, Step, Run;
      attempts := [];
      RunNothing(Abs());
      code := 1;
      while packetQueue != []
        invariant Abs() == Run(old(Abs()), attempts)
        invariant packetQueue != [] ==> Packets(packetQueue[1..])
        invariant Ready(Abs()) && (armed <==> packetQueue != []) && (outActive <==> packetQueue != [])
        invariant forall i :: 0 <= i < |attempts| ==> attempts[i].Attempt?
        decreases |packetQueue|
      {
        ghost var before := Abs();
        var taken := TryFront();
        RunAppend(old(Abs()), attempts, Attempt(taken));
        attempts := attempts + [Attempt(taken)];
        AttemptFlags(before, taken);
        if taken == -1 {
          return -1, attempts;
        }
        if continueSend {
          break;
        }
      }
      if packetQueue == [] {
        code := 0;
      }
    }
  }

  lemma RunNothing(o: Out)
    ensures Run(o, []) == o
  {
  }

  /** What an attempt does to the queue and the flags. */
  lemma AttemptFlags(o: Out, taken: int)
    requires Possible(o, Attempt(taken)) && Packets(o.queue[1..])
    ensures var d := Step(o, Attempt(taken));
      && (taken == -1 ==> !d.armed && d.queue != [])
      && (taken != -1 && d.continuing ==> Ready(d) && |d.queue| == |o.queue| && d.armed && d.active == o.active)
      && (taken != -1 && !d.continuing ==>
            Ready(d) && |d.queue| == |o.queue| - 1 && (d.armed <==> d.queue != []) && (d.active <==> d.queue != []))
      && (d.queue != [] ==> Packets(d.queue[1..]))
  {
  }

  lemma RunAppend(o: Out, events: seq<Event>, e: Event)
    ensures var d := Run(o, events); Run(o, events + [e]) == if Possible(d, e) then Step(d, e) else d
  {
    assert (events + [e])[..|events|] == events;
  }
}

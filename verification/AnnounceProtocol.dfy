/**
 The announce protocol as a whole: proxies that start, stop, change their load and answer requests,
 one first-in first-out channel from each proxy to the realm daemon, and the registry at its end.
 */
module AnnounceProtocol {
  import opened Bytes
  import opened Registry
  import opened Wrappers

  datatype Msg = Announce(load: real) | Shutdown

  /** Per address: the current load of a live proxy, the load it last announced, what is under way to and from it. */
  datatype World = World(
    known: set<Byte>, registry: seq<Entry>,
    live: map<string, real>, told: map<string, real>, stale: set<string>,
    sent: map<string, seq<Msg>>, asked: map<string, seq<Byte>>,
    aborted: bool)

  const START: World := World({}, [], map[], map[], {}, map[], map[], false)

  datatype Action =
    | Start(who: string, load: real)
    | LoadChanges(who: string, load: real)
    | Timer(who: string)
    | Stop(who: string)
    | TakeRequest(who: string)
    | RealmsArrive(ids: set<Byte>)
    | Deliver(who: string)

  function Sent(w: World, a: string): seq<Msg> {
    if a in w.sent then w.sent[a] else []
  }

  function Asked(w: World, a: string): seq<Byte> {
    if a in w.asked then w.asked[a] else []
  }

  function EventOf(home: string -> Byte, a: string, m: Msg): BusEvent {
    match m
    case Announce(load) => ProxyAnnounce(home(a), a, load)
    case Shutdown => ProxyShutdowned(a)
  }

  function Tell(w: World, a: string): World
    requires a in w.live
  {
    w.(sent := w.sent[a := Sent(w, a) + [Announce(w.live[a])]], told := w.told[a := w.live[a]], stale := w.stale - {a})
  }

  /** One step; a step that is not possible changes nothing. */
  function Step(w: World, home: string -> Byte, act: Action): World {
    match act
    case Start(a, load) => if a in w.live then w else Tell(w.(live := w.live[a := load]), a)
    case LoadChanges(a, load) => if a !in w.live then w else w.(live := w.live[a := load], stale := w.stale + {a})
    case Timer(a) => if a !in w.live then w else Tell(w, a)
    case Stop(a) =>
      if a !in w.live then w
      else w.(live := w.live - {a}, sent := w.sent[a := Sent(w, a) + [Shutdown]], asked := w.asked - {a})
    case TakeRequest(a) =>
      if a !in w.live || Asked(w, a) == [] then w
      else
        var v := w.(asked := w.asked[a := Asked(w, a)[1..]]);
        if Asked(w, a)[0] == home(a) then Tell(v, a) else v
    case RealmsArrive(ids) =>
      var known := w.known + ids;
      w.(known := known, registry := [], asked := map a | a in w.live :: Asked(w, a) + Ascending(known, 256))
    case Deliver(a) =>
      if Sent(w, a) == [] then w
      else
        var m := Sent(w, a)[0];
        w.(sent := w.sent[a := Sent(w, a)[1..]],
           registry := Dispatched(w.registry, w.known, EventOf(home, a, m)),
           aborted := w.aborted || (m == Shutdown && View(w.registry, a) == None))
  }

  function Run(w: World, home: string -> Byte, acts: seq<Action>): World {
    if acts == [] then w else Step(Run(w, home, acts[..|acts| - 1]), home, acts[|acts| - 1])
  }

  /** What the proxy at an address pushes in a step: its load when it starts, is asked or is due, and its end. */
  function Pushes(w: World, home: string -> Byte, act: Action, a: string): seq<Msg> {
    match act
    case Start(b, load) => if b == a && a !in w.live then [Announce(load)] else []
    case Timer(b) => if b == a && a in w.live then [Announce(w.live[a])] else []
    case Stop(b) => if b == a && a in w.live then [Shutdown] else []
    case TakeRequest(b) =>
      if b == a && a in w.live && Asked(w, a) != [] && Asked(w, a)[0] == home(a) then [Announce(w.live[a])] else []
    case _ => []
  }

  /** Messages travel in order, and nothing else is pushed or lost. */
  lemma ChannelExactly(w: World, home: string -> Byte, act: Action, a: string)
    ensures Sent(Step(w, home, act), a) ==
      if act == Deliver(a) && Sent(w, a) != [] then Sent(w, a)[1..] else Sent(w, a) + Pushes(w, home, act, a)
  {
    hide Dispatched, Ascending;
  }

  /** A realm list asks every live proxy for every known realm, behind what it was asked before. */
  lemma RequestsExactly(w: World, home: string -> Byte, act: Action, a: string)
    ensures var v := Step(w, home, act);
      Asked(v, a) ==
        if act.RealmsArrive? then (if a in w.live then Asked(w, a) + Ascending(w.known + act.ids, 256) else [])
        else if act == Stop(a) && a in w.live then []
        else if act == TakeRequest(a) && a in w.live && Asked(w, a) != [] then Asked(w, a)[1..]
        else Asked(w, a)
  {
    hide Dispatched, Ascending;
  }

  // ---------------------------------------------------------------- what every run keeps

  /** What is known about one address: the last message under way, or else the registry, tells its present state. */
  ghost predicate InStep(w: World, home: string -> Byte, a: string) {
    var q := Sent(w, a);
    if a in w.live then
      && a in w.told
      && (a !in w.stale ==> w.told[a] == w.live[a])
      && (q != [] ==> q[|q| - 1] == Announce(w.told[a]))
      && (q == [] && home(a) in w.known ==>
            View(w.registry, a) == Some((home(a), w.told[a])) || home(a) in Asked(w, a))
    else
      && Asked(w, a) == []
      && (q != [] ==> q[|q| - 1] == Shutdown)
      && (q == [] ==> View(w.registry, a) == None)
  }

  ghost predicate Invariant(w: World, home: string -> Byte) {
    && WellFormed(w.registry, w.known) && Homed(w.registry, home)
    && forall a: string :: InStep(w, home, a)
  }

  lemma TellKeeps(w: World, home: string -> Byte, a: string)
    requires a in w.live && WellFormed(w.registry, w.known) && Homed(w.registry, home)
    requires forall b: string :: b != a ==> InStep(w, home, b)
    ensures Invariant(Tell(w, a), home)
  {
    hide WellFormed, Homed, View;
    var v := Tell(w, a);
    forall b: string
      ensures InStep(v, home, b)
    {
      assert b != a ==> InStep(w, home, b);
    }
  }

  lemma DeliverKeeps(w: World, home: string -> Byte, a: string)
    requires Invariant(w, home) && Sent(w, a) != []
    ensures Invariant(Step(w, home, Deliver(a)), home)
  {
    hide WellFormed, Homed, View, Announced, Without, Requests;
    var m := Sent(w, a)[0];
    match m {
      case Announce(load) => AnnounceRefines(w.registry, w.known, home, a, load);
      case Shutdown => DeleteRefines(w.registry, w.known, home, a);
    }
    var v := Step(w, home, Deliver(a));
    forall b: string
      ensures InStep(v, home, b)
    {
      assert InStep(w, home, b);
      assert b != a ==> View(v.registry, b) == View(w.registry, b);
    }
  }

  lemma EmptyRegistry(known: set<Byte>, home: string -> Byte)
    ensures WellFormed([], known) && Homed([], home)
    ensures forall a: string :: View([], a) == None
  {
  }

  lemma RealmsKeep(w: World, home: string -> Byte, ids: set<Byte>)
    requires Invariant(w, home)
    ensures Invariant(Step(w, home, RealmsArrive(ids)), home)
  {
    hide WellFormed, Homed, View;
    var v := Step(w, home, RealmsArrive(ids));
    EmptyRegistry(v.known, home);
    forall b: string
      ensures InStep(v, home, b)
    {
      assert InStep(w, home, b);
      if b in w.live && home(b) in v.known {
        assert home(b) in Ascending(v.known, 256);
      }
    }
  }

  lemma StepKeeps(w: World, home: string -> Byte, act: Action)
    requires Invariant(w, home)
    ensures Invariant(Step(w, home, act), home)
  {
    hide WellFormed, Homed, View;
    match act
    case Start(a, load) =>
      if a !in w.live {
        var v := w.(live := w.live[a := load]);
        assert forall b: string :: b != a ==> InStep(w, home, b) ==> InStep(v, home, b);
        TellKeeps(v, home, a);
      }
    case Timer(a) =>
      if a in w.live {
        TellKeeps(w, home, a);
      }
    case TakeRequest(a) => TakeKeeps(w, home, a);
    case RealmsArrive(ids) => RealmsKeep(w, home, ids);
    case Deliver(a) =>
      if Sent(w, a) != [] {
        DeliverKeeps(w, home, a);
      }
    case LoadChanges(a, load) => QuietKeeps(w, home, act);
    case Stop(a) => QuietKeeps(w, home, act);
  }

  lemma QuietKeeps(w: World, home: string -> Byte, act: Action)
    requires Invariant(w, home) && (act.LoadChanges? || act.Stop?)
    ensures Invariant(Step(w, home, act), home)
  {
    hide WellFormed, Homed, View;
    var v := Step(w, home, act);
    forall b: string
      ensures InStep(v, home, b)
    {
      assert InStep(w, home, b);
    }
  }

  lemma TakeKeeps(w: World, home: string -> Byte, a: string)
    requires Invariant(w, home)
    ensures Invariant(Step(w, home, TakeRequest(a)), home)
  {
    hide WellFormed, Homed, View;
    if a in w.live && Asked(w, a) != [] {
      var v := w.(asked := w.asked[a := Asked(w, a)[1..]]);
      forall b: string | b != a
        ensures InStep(v, home, b)
      {
        assert InStep(w, home, b);
      }
      if Asked(w, a)[0] == home(a) {
        TellKeeps(v, home, a);
      } else {
        assert InStep(w, home, a);
        assert forall r :: r in Asked(w, a) ==> r == Asked(w, a)[0] || r in Asked(w, a)[1..];
        assert InStep(v, home, a);
      }
    }
  }

  lemma {:induction false} RunKeeps(home: string -> Byte, acts: seq<Action>)
    ensures Invariant(Run(START, home, acts), home)
  {
    if acts == [] {
      EmptyRegistry({}, home);
    } else {
      RunKeeps(home, acts[..|acts| - 1]);
      StepKeeps(Run(START, home, acts[..|acts| - 1]), home, acts[|acts| - 1]);
    }
  }

  /**
   Resynchronisation: in every run and every interleaving, once nothing is under way to or from an
   address, the registry lists it exactly when its proxy is live and its realm known, with the load
   that proxy last announced, which is its current load unless that changed since.
   */
  lemma Resynchronised(home: string -> Byte, acts: seq<Action>, a: string)
    requires var w := Run(START, home, acts); Sent(w, a) == [] && Asked(w, a) == []
    ensures var w := Run(START, home, acts);
      if a in w.live && home(a) in w.known then
        && a in w.told && View(w.registry, a) == Some((home(a), w.told[a]))
        && (a !in w.stale ==> w.told[a] == w.live[a])
      else View(w.registry, a) == None
  {
    RunKeeps(home, acts);
    var w := Run(START, home, acts);
    assert InStep(w, home, a);
    if a in w.live && home(a) !in w.known && View(w.registry, a).Some? {
      UnknownUnlisted(w.registry, w.known, home, a);
    }
  }

  lemma UnknownUnlisted(p: seq<Entry>, known: set<Byte>, home: string -> Byte, a: string)
    requires WellFormed(p, known) && Homed(p, home) && home(a) !in known
    ensures View(p, a) == None
  {
  }

  /** Taking a request and delivering a message use up what is under way, so the system comes to rest. */
  function UnderWay(w: World, a: string): nat {
    2 * |Asked(w, a)| + |Sent(w, a)|
  }

  lemma Settles(w: World, home: string -> Byte, a: string, act: Action)
    requires act == Deliver(a) || act == TakeRequest(a)
    ensures UnderWay(Step(w, home, act), a) <= UnderWay(w, a)
    ensures act == Deliver(a) && Sent(w, a) != [] ==> UnderWay(Step(w, home, act), a) < UnderWay(w, a)
    ensures act == TakeRequest(a) && a in w.live && Asked(w, a) != [] ==>
      UnderWay(Step(w, home, act), a) < UnderWay(w, a)
    ensures forall b :: b != a ==> UnderWay(Step(w, home, act), b) == UnderWay(w, b)
  {
  }

  // ---------------------------------------------------------------- the assertion in the removal

  /** The realm list comes first and only once, and every proxy that starts serves one of its realms. */
  ghost predicate Orderly(home: string -> Byte, ids: set<Byte>, acts: seq<Action>) {
    && |acts| > 0 && acts[0] == RealmsArrive(ids)
    && (forall i :: 0 < i < |acts| ==> !acts[i].RealmsArrive?)
    && (forall i :: 0 < i < |acts| && acts[i].Start? ==> home(acts[i].who) in ids)
  }

  /** Every shutdown under way follows an announcement that is under way or has arrived. */
  ghost predicate Covered(w: World, home: string -> Byte, a: string) {
    var q := Sent(w, a);
    && (forall i :: 0 < i < |q| && q[i] == Shutdown ==> q[i - 1].Announce?)
    && (q != [] && q[0] == Shutdown ==> View(w.registry, a).Some?)
    && (a in w.live ==> if q == [] then View(w.registry, a).Some? else q[|q| - 1].Announce?)
    && (a in w.live || q != [] ==> home(a) in w.known)
  }

  ghost predicate AllCovered(w: World, home: string -> Byte) {
    && WellFormed(w.registry, w.known) && Homed(w.registry, home) && !w.aborted
    && forall a: string :: Covered(w, home, a)
  }

  lemma DeliverCovered(w: World, home: string -> Byte, a: string)
    requires AllCovered(w, home) && Sent(w, a) != []
    ensures AllCovered(Step(w, home, Deliver(a)), home)
  {
    hide WellFormed, Homed, View, Announced, Without, Requests;
    var m := Sent(w, a)[0];
    assert Covered(w, home, a);
    match m {
      case Announce(load) => AnnounceRefines(w.registry, w.known, home, a, load);
      case Shutdown => DeleteRefines(w.registry, w.known, home, a);
    }
    var v := Step(w, home, Deliver(a));
    forall b: string
      ensures Covered(v, home, b)
    {
      assert Covered(w, home, b);
      if b != a {
        assert View(v.registry, b) == View(w.registry, b);
      } else {
        var q := Sent(w, a);
        assert forall i :: 0 < i < |q[1..]| ==> q[1..][i] == q[i + 1] && q[1..][i - 1] == q[i];
      }
    }
  }

  lemma StepCovered(w: World, home: string -> Byte, act: Action)
    requires AllCovered(w, home) && !act.RealmsArrive?
    requires act.Start? ==> home(act.who) in w.known
    ensures AllCovered(Step(w, home, act), home)
    ensures Step(w, home, act).known == w.known
  {
    hide WellFormed, Homed, View, Dispatched;
    match act
    case Deliver(a) =>
      if Sent(w, a) != [] {
        DeliverCovered(w, home, a);
      }
    case Start(a, load) =>
      if a !in w.live {
        TellCovered(w, w.(live := w.live[a := load]), home, a);
      }
    case Timer(a) =>
      assert Covered(w, home, a);
      if a in w.live {
        TellCovered(w, w, home, a);
      }
    case TakeRequest(a) => TakeCovered(w, home, a);
    case LoadChanges(_, _) => QuietCovered(w, home, act);
    case Stop(_) => QuietCovered(w, home, act);
  }

  lemma TellCovered(w: World, v: World, home: string -> Byte, a: string)
    requires AllCovered(w, home) && a in v.live && home(a) in w.known
    requires v == w.(live := v.live, asked := v.asked) && forall b :: b != a ==> (b in v.live <==> b in w.live)
    ensures AllCovered(Tell(v, a), home)
  {
    hide WellFormed, Homed, View;
    forall b: string
      ensures Covered(Tell(v, a), home, b)
    {
      assert Covered(w, home, b);
    }
  }

  lemma TakeCovered(w: World, home: string -> Byte, a: string)
    requires AllCovered(w, home)
    ensures AllCovered(Step(w, home, TakeRequest(a)), home)
  {
    hide WellFormed, Homed, View;
    if a in w.live && Asked(w, a) != [] {
      var v := w.(asked := w.asked[a := Asked(w, a)[1..]]);
      assert Covered(w, home, a);
      if Asked(w, a)[0] == home(a) {
        TellCovered(w, v, home, a);
      } else {
        assert forall b: string :: Covered(w, home, b) ==> Covered(v, home, b);
      }
    }
  }

  lemma QuietCovered(w: World, home: string -> Byte, act: Action)
    requires AllCovered(w, home) && (act.LoadChanges? || act.Stop?)
    ensures AllCovered(Step(w, home, act), home)
  {
    hide WellFormed, Homed, View;
    var v := Step(w, home, act);
    forall b: string
      ensures Covered(v, home, b)
    {
      assert Covered(w, home, b);
    }
  }

  lemma {:induction false} RunCovered(home: string -> Byte, ids: set<Byte>, acts: seq<Action>)
    requires Orderly(home, ids, acts)
    ensures AllCovered(Run(START, home, acts), home) && Run(START, home, acts).known == ids
  {
    var prefix := acts[..|acts| - 1];
    if |acts| == 1 {
      assert prefix == [];
      EmptyRegistry(ids, home);
    } else {
      assert Orderly(home, ids, prefix);
      RunCovered(home, ids, prefix);
      StepCovered(Run(START, home, prefix), home, acts[|acts| - 1]);
    }
  }

  /** When the realm list is there before any proxy, no shutdown ever trips the assertion that something was removed. */
  lemma OrderlyRunsNeverAbort(home: string -> Byte, ids: set<Byte>, acts: seq<Action>)
    requires Orderly(home, ids, acts)
    ensures !Run(START, home, acts).aborted
  {
    RunCovered(home, ids, acts);
  }

  /** A live proxy with nothing under way that stops before it answers the request does trip it, in every state. */
  lemma LateListAborts(w: World, home: string -> Byte, ids: set<Byte>, a: string)
    requires a in w.live && Sent(w, a) == []
    ensures Step(Step(Step(w, home, RealmsArrive(ids)), home, Stop(a)), home, Deliver(a)).aborted
  {
  }

  /** Everything under way from an address is delivered, and nothing else happens. */
  function Drained(w: World, home: string -> Byte, a: string): World
    decreases |Sent(w, a)|
  {
    if Sent(w, a) == [] then w else Drained(Step(w, home, Deliver(a)), home, a)
  }

  /** Whether a shutdown among the messages finds the address not listed, from what is listed now. */
  predicate Trips(listed: bool, known: bool, q: seq<Msg>)
    decreases |q|
  {
    q != [] &&
      match q[0]
      case Shutdown => !listed || Trips(false, known, q[1..])
      case Announce(_) => Trips(listed || known, known, q[1..])
  }

  predicate ListedAfter(listed: bool, known: bool, q: seq<Msg>) {
    if q == [] then listed
    else
      match q[|q| - 1]
      case Shutdown => false
      case Announce(_) => ListedAfter(listed, known, q[..|q| - 1]) || known
  }

  lemma DeliverListed(w: World, home: string -> Byte, a: string)
    requires WellFormed(w.registry, w.known) && Homed(w.registry, home) && Sent(w, a) != []
    ensures var v := Step(w, home, Deliver(a));
      var m := Sent(w, a)[0];
      var listed := View(w.registry, a).Some?;
      && WellFormed(v.registry, v.known) && Homed(v.registry, home)
      && v.known == w.known && Sent(v, a) == Sent(w, a)[1..]
      && v.aborted == (w.aborted || (m.Shutdown? && !listed))
      && View(v.registry, a).Some? == (if m.Shutdown? then false else listed || home(a) in w.known)
  {
    hide Announced, Without, Homed, WellFormed, View, Requests;
    match Sent(w, a)[0]
    case Announce(load) => AnnounceRefines(w.registry, w.known, home, a, load);
    case Shutdown => DeleteRefines(w.registry, w.known, home, a);
  }

  lemma {:induction false} DrainTrips(w: World, home: string -> Byte, a: string)
    requires WellFormed(w.registry, w.known) && Homed(w.registry, home)
    ensures Drained(w, home, a).aborted
      <==> w.aborted || Trips(View(w.registry, a).Some?, home(a) in w.known, Sent(w, a))
    decreases |Sent(w, a)|
  {
    hide Step, View, WellFormed, Homed;
    if Sent(w, a) != [] {
      DeliverListed(w, home, a);
      DrainTrips(Step(w, home, Deliver(a)), home, a);
    }
  }

  lemma {:induction false} TripsAppend(listed: bool, known: bool, q: seq<Msg>)
    ensures Trips(listed, known, q + [Shutdown]) <==> Trips(listed, known, q) || !ListedAfter(listed, known, q)
    decreases |q|
  {
    if q == [] {
      assert q + [Shutdown] == [Shutdown];
    } else {
      var next := if q[0].Shutdown? then false else listed || known;
      assert (q + [Shutdown])[1..] == q[1..] + [Shutdown];
      TripsAppend(next, known, q[1..]);
      ListedCons(listed, known, q);
    }
  }

  lemma {:induction false} ListedCons(listed: bool, known: bool, q: seq<Msg>)
    requires q != []
    ensures ListedAfter(listed, known, q) ==
      ListedAfter(if q[0].Shutdown? then false else listed || known, known, q[1..])
    decreases |q|
  {
    if |q| > 1 {
      ListedCons(listed, known, q[..|q| - 1]);
      assert q[..|q| - 1][1..] == q[1..][..|q[1..]| - 1];
    }
  }

  /**
   In every run: when a live proxy stops and everything it has under way is delivered before another
   realm list comes, its shutdown trips the assertion exactly when the address is not listed and no
   announcement of a known realm is under way. (An earlier shutdown under way may trip it as well.)
   */
  lemma StopTripsExactly(home: string -> Byte, acts: seq<Action>, a: string)
    requires a in Run(START, home, acts).live
    ensures var w := Run(START, home, acts);
      var listed, known, q := View(w.registry, a).Some?, home(a) in w.known, Sent(w, a);
      Drained(Step(w, home, Stop(a)), home, a).aborted
      <==> w.aborted || Trips(listed, known, q) || (!listed && !(known && q != []))
  {
    RunKeeps(home, acts);
    var w := Run(START, home, acts);
    var q := Sent(w, a);
    assert InStep(w, home, a);
    var v := Step(w, home, Stop(a));
    assert v.registry == w.registry && v.known == w.known && v.aborted == w.aborted && Sent(v, a) == q + [Shutdown];
    hide Step, Run, Drained, View, InStep;
    DrainTrips(v, home, a);
    var listed, known := View(w.registry, a).Some?, home(a) in w.known;
    TripsAppend(listed, known, q);
    if !known {
      UnknownUnlisted(w.registry, w.known, home, a);
      NeverListed(q);
    }
  }

  lemma {:induction false} NeverListed(q: seq<Msg>)
    ensures !ListedAfter(false, false, q)
  {
    if q != [] {
      NeverListed(q[..|q| - 1]);
    }
  }

  /** Such a state is reached by a proxy whose first announcement comes before the realm list. */
  lemma LateListReachable(home: string -> Byte, a: string)
    ensures var w := Run(START, home, [Start(a, 0.0), Deliver(a)]);
      a in w.live && Sent(w, a) == [] && !w.aborted
  {
    RunOne(START, home, [], Start(a, 0.0));
    RunOne(START, home, [Start(a, 0.0)], Deliver(a));
    assert [] + [Start(a, 0.0)] == [Start(a, 0.0)];
    assert [Start(a, 0.0)] + [Deliver(a)] == [Start(a, 0.0), Deliver(a)];
  }

  lemma RunOne(w: World, home: string -> Byte, acts: seq<Action>, act: Action)
    ensures Run(w, home, acts + [act]) == Step(Run(w, home, acts), home, act)
  {
    assert (acts + [act])[..|acts|] == acts;
  }

  // ---------------------------------------------------------------- the proxy's end

  /** The proxy daemon's side of the channel. A timer number of -1 means that no timer was started yet. */
  class ProxyCommunicator {
    const realmId: Byte
    const address: string
    var load: real
    var announceTimer: int
    var nextTimer: nat
    var pushed: seq<BusEvent>

    constructor (realmId: Byte, address: string)
      ensures this.realmId == realmId && this.address == address
      ensures load == 0.0 && announceTimer == -1 && pushed == []
    {
      this.realmId, this.address := realmId, address;
      load, announceTimer, nextTimer, pushed := 0.0, -1, 0, [];
    }

    method AnnounceSelf()
      modifies this`pushed
      ensures pushed == old(pushed) + [ProxyAnnounce(realmId, address, load)]
    {
      pushed := pushed + [ProxyAnnounce(realmId, address, load)];
    }

    method Shutdowned()
      modifies this`pushed
      ensures pushed == old(pushed) + [ProxyShutdowned(address)]
    {
      pushed := pushed + [ProxyShutdowned(address)];
    }

    /** Only a request for the proxy's own realm is answered; the announce timer then starts over. */
    method Push(e: BusEvent)
      modifies this`pushed, this`announceTimer, this`nextTimer
      ensures e == ProxyRequest(realmId) ==>
        && pushed == old(pushed) + [ProxyAnnounce(realmId, address, load)]
        && (announceTimer == -1 <==> old(announceTimer) == -1)
        && (announceTimer != -1 ==> announceTimer == old(nextTimer) && nextTimer == old(nextTimer) + 1)
      ensures e != ProxyRequest(realmId) ==>
        pushed == old(pushed) && announceTimer == old(announceTimer) && nextTimer == old(nextTimer)
    {
      if e.ProxyRequest? && e.realmId == realmId {
        AnnounceSelf();
        if announceTimer != -1 {
          announceTimer := nextTimer;
          nextTimer := nextTimer + 1;
        }
      }
    }
  }
}

/** The realm daemon's registry of proxies: an ordered multimap from realms to announced addresses. */
module Registry {
  import opened Bytes
  import opened Wrappers

  datatype Entry = Entry(realm: Byte, ip: string, load: real)

  // ---------------------------------------------------------------- the multimap as a sequence

  ghost predicate Sorted(p: seq<Entry>) {
    forall i, j :: 0 <= i < j < |p| ==> p[i].realm <= p[j].realm
  }

  /** The index of the first entry with the address, or the length when there is none. */
  function FirstAt(p: seq<Entry>, ip: string): (k: nat)
    ensures k <= |p|
    ensures k < |p| ==> p[k].ip == ip
    ensures forall i :: 0 <= i < k ==> p[i].ip != ip
  {
    if p == [] then 0
    else if p[0].ip == ip then 0
    else 1 + FirstAt(p[1..], ip)
  }

  predicate HasRealm(p: seq<Entry>, realm: Byte) {
    exists i :: 0 <= i < |p| && p[i].realm == realm
  }

  /** Where a multimap inserts a key: behind all entries with the same key. */
  function UpperBound(p: seq<Entry>, realm: Byte): (k: nat)
    ensures k <= |p|
    ensures k < |p| ==> p[k].realm > realm
    ensures forall i :: 0 <= i < k ==> p[i].realm <= realm
  {
    if p == [] || p[0].realm > realm then 0
    else 1 + UpperBound(p[1..], realm)
  }

  function Inserted(p: seq<Entry>, e: Entry): (r: seq<Entry>)
    ensures |r| == |p| + 1
  {
    var k := UpperBound(p, e.realm);
    p[..k] + [e] + p[k..]
  }

  function Without(p: seq<Entry>, ip: string): (r: seq<Entry>)
    ensures forall e :: e in r <==> e in p && e.ip != ip
  {
    if p == [] then []
    else if p[0].ip == ip then Without(p[1..], ip)
    else [p[0]] + Without(p[1..], ip)
  }

  // ---------------------------------------------------------------- the messages

  /** The registry after an announcement. */
  function Announced(p: seq<Entry>, known: set<Byte>, realm: Byte, ip: string, load: real): seq<Entry> {
    var k := FirstAt(p, ip);
    if realm !in known then p
    else if !HasRealm(p, realm) || k == |p| then Inserted(p, Entry(realm, ip, load))
    else if p[k].realm == realm then p[k := p[k].(load := load)]
    else Without(p, ip)
  }

  /** The realms whose proxies are asked to announce themselves again. */
  function Requests(p: seq<Entry>, known: set<Byte>, realm: Byte, ip: string): seq<Byte> {
    var k := FirstAt(p, ip);
    if realm in known && HasRealm(p, realm) && k < |p| && p[k].realm != realm then [p[k].realm, realm] else []
  }

  function BestIndex(p: seq<Entry>, realm: Byte): (b: Option<nat>)
    ensures b.Some? ==> b.value < |p| && p[b.value].realm == realm
  {
    if p == [] then None
    else
      var n := |p| - 1;
      var b := BestIndex(p[..n], realm);
      if p[n].realm == realm && (b.None? || p[n].load < p[b.value].load) then Some(n) else b
  }

  /** The address clients of a realm are sent to; empty when the realm has no proxy. */
  function ProxyFor(p: seq<Entry>, realm: Byte): string {
    var b := BestIndex(p, realm);
    if b.None? then "" else p[b.value].ip
  }

  /** What travels over the event channel. */
  datatype BusEvent =
    | ProxyAnnounce(realmId: nat, address: string, load: real)
    | ProxyShutdowned(address: string)
    | ProxyRequest(realmId: nat)

  /** The registry after an event; realm numbers are cut to one byte. */
  function Dispatched(p: seq<Entry>, known: set<Byte>, e: BusEvent): seq<Entry> {
    match e
    case ProxyAnnounce(realmId, address, load) => Announced(p, known, realmId % 256, address, load)
    case ProxyShutdowned(address) => Without(p, address)
    case ProxyRequest(_) => p
  }

  /** The known realms below n in the order a map iterates over them. */
  function Ascending(known: set<Byte>, n: nat): (r: seq<Byte>)
    requires n <= 256
    ensures forall x :: x in r <==> x in known && x < n
  {
    if n == 0 then []
    else Ascending(known, n - 1) + if n - 1 in known then [n - 1] else []
  }

  // ---------------------------------------------------------------- what every registry keeps

  /** In key order, only known realms, and no (realm, address) pair twice. */
  ghost predicate WellFormed(p: seq<Entry>, known: set<Byte>) {
    && Sorted(p)
    && (forall i :: 0 <= i < |p| ==> p[i].realm in known)
    && (forall i, j :: 0 <= i < j < |p| ==> p[i].realm != p[j].realm || p[i].ip != p[j].ip)
  }

  lemma InsertedCons(p: seq<Entry>, e: Entry)
    requires p != [] && p[0].realm <= e.realm
    ensures Inserted(p, e) == [p[0]] + Inserted(p[1..], e)
  {
    var k := UpperBound(p[1..], e.realm);
    assert p[..1 + k] == [p[0]] + p[1..][..k] && p[1 + k..] == p[1..][k..];
  }

  lemma InsertedMembers(p: seq<Entry>, e: Entry)
    ensures forall x :: x in Inserted(p, e) <==> x in p || x == e
  {
  }

  lemma WellFormedCons(x: Entry, r: seq<Entry>, known: set<Byte>)
    ensures WellFormed([x] + r, known) <==>
      && WellFormed(r, known) && x.realm in known
      && (forall y :: y in r ==> x.realm <= y.realm && (x.realm != y.realm || x.ip != y.ip))
  {
    var q := [x] + r;
    if WellFormed(q, known) {
      assert r == q[1..];
      forall y | y in r
        ensures x.realm <= y.realm && (x.realm != y.realm || x.ip != y.ip)
      {
        var i :| 0 <= i < |r| && r[i] == y;
        assert q[0] == x && q[i + 1] == y;
      }
    }
  }

  lemma {:induction false} InsertedKeeps(p: seq<Entry>, known: set<Byte>, e: Entry)
    requires WellFormed(p, known) && e.realm in known
    requires forall x :: x in p ==> x.realm != e.realm || x.ip != e.ip
    ensures WellFormed(Inserted(p, e), known)
  {
    hide Inserted, WellFormed;
    if p == [] || p[0].realm > e.realm {
      InsertedFront(p, e);
      AboveHead(p, known, e);
      WellFormedCons(e, p, known);
    } else {
      assert p == [p[0]] + p[1..];
      WellFormedCons(p[0], p[1..], known);
      InsertedKeeps(p[1..], known, e);
      InsertedCons(p, e);
      InsertedMembers(p[1..], e);
      WellFormedCons(p[0], Inserted(p[1..], e), known);
    }
  }

  lemma InsertedFront(p: seq<Entry>, e: Entry)
    requires p == [] || p[0].realm > e.realm
    ensures Inserted(p, e) == [e] + p
  {
  }

  lemma AboveHead(p: seq<Entry>, known: set<Byte>, e: Entry)
    requires WellFormed(p, known) && (p == [] || p[0].realm > e.realm)
    ensures forall y :: y in p ==> e.realm < y.realm
  {
  }

  lemma {:induction false} WithoutKeeps(p: seq<Entry>, known: set<Byte>, ip: string)
    requires WellFormed(p, known)
    ensures WellFormed(Without(p, ip), known)
  {
    if p != [] {
      hide WellFormed;
      assert p == [p[0]] + p[1..];
      WellFormedCons(p[0], p[1..], known);
      WithoutKeeps(p[1..], known, ip);
      WellFormedCons(p[0], Without(p[1..], ip), known);
    }
  }

  /** Every registry reachable by announcements is well formed. */
  lemma AnnouncedKeeps(p: seq<Entry>, known: set<Byte>, realm: Byte, ip: string, load: real)
    requires WellFormed(p, known)
    ensures WellFormed(Announced(p, known, realm, ip, load), known)
  {
    var k := FirstAt(p, ip);
    if realm in known {
      if !HasRealm(p, realm) || k == |p| {
        InsertedKeeps(p, known, Entry(realm, ip, load));
      } else if p[k].realm != realm {
        WithoutKeeps(p, known, ip);
      }
    }
  }

  /**
   The load is searched for by address alone, yet an update changes the load of the announced
   realm's own entry and nothing else, and a conflict removes every entry with the address.
   */
  lemma AnnouncedEffect(p: seq<Entry>, known: set<Byte>, realm: Byte, ip: string, load: real)
    requires WellFormed(p, known) && realm in known
    ensures var q := Announced(p, known, realm, ip, load);
      if Requests(p, known, realm, ip) != [] then
        (forall e :: e in q <==> e in p && e.ip != ip)
      else
        && Entry(realm, ip, load) in q
        && (forall e :: e in q && e != Entry(realm, ip, load) ==> e in p && (e.realm != realm || e.ip != ip))
        && (forall e :: e in p && (e.realm != realm || e.ip != ip) ==> e in q)
  {
    var k := FirstAt(p, ip);
    var q := Announced(p, known, realm, ip, load);
    if Requests(p, known, realm, ip) == [] {
      if !HasRealm(p, realm) || k == |p| {
        InsertedMembers(p, Entry(realm, ip, load));
      } else {
        assert q[k] == Entry(realm, ip, load);
        forall e | e in p && (e.realm != realm || e.ip != ip)
          ensures e in q
        {
          var i :| 0 <= i < |p| && p[i] == e;
          assert q[i] == e;
        }
      }
    }
  }

  /** Realms that are not known change nothing and are not asked. */
  lemma UnknownIgnored(p: seq<Entry>, known: set<Byte>, realm: Byte, ip: string, load: real)
    requires realm !in known
    ensures Announced(p, known, realm, ip, load) == p && Requests(p, known, realm, ip) == []
  {
  }

  /**
   There is a conflict exactly when a known realm with a proxy announces an address whose first entry
   is another realm's; then that realm is asked first, and the announcing one second.
   */
  lemma ConflictExactly(p: seq<Entry>, known: set<Byte>, realm: Byte, ip: string)
    ensures Requests(p, known, realm, ip) != [] <==>
      && realm in known && (exists i :: 0 <= i < |p| && p[i].realm == realm)
      && (exists k :: 0 <= k < |p| && p[k].ip == ip && p[k].realm != realm && forall i :: 0 <= i < k ==> p[i].ip != ip)
    ensures Requests(p, known, realm, ip) != [] ==>
      |Requests(p, known, realm, ip)| == 2 && Requests(p, known, realm, ip)[1] == realm
      && exists k :: 0 <= k < |p| && p[k].ip == ip && p[k].realm == Requests(p, known, realm, ip)[0]
  {
    var k := FirstAt(p, ip);
    if m :| 0 <= m < |p| && p[m].ip == ip && p[m].realm != realm && forall i :: 0 <= i < m ==> p[i].ip != ip {
      assert m == k;
    }
  }

  /** What reaches the registry: an event from the channel, or the realm list. */
  datatype Arrival = Event(e: BusEvent) | Realms(ids: set<Byte>)

  /** Registry and known realms after any arrivals; a realm list empties the registry. */
  function Reached(arrivals: seq<Arrival>): (seq<Entry>, set<Byte>) {
    if arrivals == [] then ([], {})
    else
      var (p, known) := Reached(arrivals[..|arrivals| - 1]);
      match arrivals[|arrivals| - 1]
      case Event(e) => (Dispatched(p, known, e), known)
      case Realms(ids) => ([], known + ids)
  }

  /** Every registry ever reached is well formed, conflicting and repeated announcements included. */
  lemma {:induction false} ReachedWellFormed(arrivals: seq<Arrival>)
    ensures WellFormed(Reached(arrivals).0, Reached(arrivals).1)
  {
    hide WellFormed, Announced, Without;
    if arrivals == [] {
      assert WellFormed([], {}) by { EmptyWellFormed({}); }
    } else {
      var before := arrivals[..|arrivals| - 1];
      ReachedWellFormed(before);
      var (p, known) := Reached(before);
      match arrivals[|arrivals| - 1]
      case Realms(ids) => EmptyWellFormed(known + ids);
      case Event(ProxyAnnounce(realmId, address, load)) => AnnouncedKeeps(p, known, realmId % 256, address, load);
      case Event(ProxyShutdowned(address)) => WithoutKeeps(p, known, address);
      case Event(ProxyRequest(_)) =>
    }
  }

  lemma EmptyWellFormed(known: set<Byte>)
    ensures WellFormed([], known)
  {
  }

  /**
   The chosen proxy is the first among the least loaded ones of the realm; none is chosen exactly when
   there is none.
   */
  lemma {:induction false} BestIsFirstLeast(p: seq<Entry>, realm: Byte)
    ensures BestIndex(p, realm).None? <==> !HasRealm(p, realm)
    ensures BestIndex(p, realm).Some? ==>
      var b := BestIndex(p, realm).value;
      && (forall i :: 0 <= i < |p| && p[i].realm == realm ==> p[b].load <= p[i].load)
      && (forall i :: 0 <= i < b && p[i].realm == realm ==> p[b].load < p[i].load)
  {
    if p != [] {
      BestIsFirstLeast(p[..|p| - 1], realm);
    }
  }

  // ---------------------------------------------------------------- one home per address

  /** What the registry says about an address. */
  function View(p: seq<Entry>, ip: string): Option<(Byte, real)> {
    var k := FirstAt(p, ip);
    if k < |p| then Some((p[k].realm, p[k].load)) else None
  }

  /** Every address is registered at most once, and under its own realm. */
  ghost predicate Homed(p: seq<Entry>, home: string -> Byte) {
    (forall i :: 0 <= i < |p| ==> p[i].realm == home(p[i].ip)) && Unambiguous(p)
  }

  lemma ViewOfMember(p: seq<Entry>, home: string -> Byte, e: Entry)
    requires Homed(p, home) && e in p
    ensures View(p, e.ip) == Some((e.realm, e.load))
  {
  }

  lemma ViewByMembers(p: seq<Entry>, q: seq<Entry>, home: string -> Byte, x: string)
    requires Homed(p, home) && Homed(q, home)
    requires forall e: Entry :: e.ip == x ==> (e in p <==> e in q)
    ensures View(p, x) == View(q, x)
  {
  }

  lemma FoundIsMember(p: seq<Entry>, x: string)
    ensures FirstAt(p, x) < |p| <==> exists e :: e in p && e.ip == x
  {
  }

  /** On registries where each address has one home, an announcement is a map update at its address. */
  lemma AnnounceRefines(p: seq<Entry>, known: set<Byte>, home: string -> Byte, ip: string, load: real)
    requires WellFormed(p, known) && Homed(p, home)
    ensures var q := Announced(p, known, home(ip), ip, load);
      && WellFormed(q, known) && Homed(q, home) && Requests(p, known, home(ip), ip) == []
      && forall x :: View(q, x) == if x == ip && home(ip) in known then Some((home(ip), load)) else View(p, x)
  {
    var r := home(ip);
    var q := Announced(p, known, r, ip, load);
    var k := FirstAt(p, ip);
    AnnouncedKeeps(p, known, r, ip, load);
    if k < |p| {
      assert p[k].realm == r && HasRealm(p, r);
    }
    if r in known {
      if k == |p| {
        InsertedHomed(p, home, Entry(r, ip, load));
      }
      AnnouncedEffect(p, known, r, ip, load);
      ViewOfMember(q, home, Entry(r, ip, load));
      forall x | x != ip
        ensures View(q, x) == View(p, x)
      {
        ViewByMembers(p, q, home, x);
      }
    }
  }

  /** Removing an address is a map removal. */
  lemma DeleteRefines(p: seq<Entry>, known: set<Byte>, home: string -> Byte, ip: string)
    requires WellFormed(p, known) && Homed(p, home)
    ensures var q := Without(p, ip);
      && WellFormed(q, known) && Homed(q, home)
      && forall x :: View(q, x) == if x == ip then None else View(p, x)
  {
    var q := Without(p, ip);
    WithoutKeeps(p, known, ip);
    WithoutHomed(p, home, ip);
    forall x
      ensures View(q, x) == if x == ip then None else View(p, x)
    {
      if x == ip {
        FoundIsMember(q, x);
      } else {
        ViewByMembers(p, q, home, x);
      }
    }
  }

  lemma WithoutHomed(p: seq<Entry>, home: string -> Byte, ip: string)
    requires Homed(p, home)
    ensures Homed(Without(p, ip), home)
  {
    WithoutUnique(p, ip);
    var q := Without(p, ip);
    assert forall i :: 0 <= i < |q| ==> q[i] in q;
  }

  /** An address is not unique by itself: a realm without proxies takes it without looking elsewhere. */
  lemma AddressNotUnique(ip: string, load: real)
    ensures var q := Announced([Entry(1, ip, load)], {1, 2}, 2, ip, load);
      q == [Entry(1, ip, load), Entry(2, ip, load)]
  {
  }

  /** Every announcement that arrives names the home of its address. */
  ghost predicate HomedArrivals(arrivals: seq<Arrival>, home: string -> Byte) {
    forall a :: a in arrivals && a.Event? && a.e.ProxyAnnounce? ==> a.e.realmId % 256 == home(a.e.address)
  }

  /** The same arrivals on a map from addresses to realm and load. */
  function Expected(arrivals: seq<Arrival>): (map<string, (Byte, real)>, set<Byte>) {
    if arrivals == [] then (map[], {})
    else
      var (m, known) := Expected(arrivals[..|arrivals| - 1]);
      match arrivals[|arrivals| - 1]
      case Realms(ids) => (map[], known + ids)
      case Event(ProxyAnnounce(realmId, ip, load)) =>
        (if realmId % 256 in known then m[ip := (realmId % 256, load)] else m, known)
      case Event(ProxyShutdowned(ip)) => (m - {ip}, known)
      case Event(ProxyRequest(_)) => (m, known)
  }

  ghost predicate Represents(p: seq<Entry>, m: map<string, (Byte, real)>) {
    forall x: string :: View(p, x) == if x in m then Some(m[x]) else None
  }

  /** Where each address has one realm, the registry is that map, over all arrivals. */
  lemma {:induction false} ReachedIsMap(arrivals: seq<Arrival>, home: string -> Byte)
    requires HomedArrivals(arrivals, home)
    ensures var (p, known) := Reached(arrivals);
      && WellFormed(p, known) && Homed(p, home)
      && known == Expected(arrivals).1 && Represents(p, Expected(arrivals).0)
  {
    hide WellFormed, Announced, Without, Homed, View;
    if arrivals == [] {
      EmptyIsMap({}, home);
    } else {
      var before := arrivals[..|arrivals| - 1];
      ReachedIsMap(before, home);
      var (p, known) := Reached(before);
      match arrivals[|arrivals| - 1]
      case Realms(ids) => EmptyIsMap(known + ids, home);
      case Event(ProxyAnnounce(realmId, ip, load)) =>
        assert Event(ProxyAnnounce(realmId, ip, load)) in arrivals;
        AnnounceRefines(p, known, home, ip, load);
      case Event(ProxyShutdowned(ip)) => DeleteRefines(p, known, home, ip);
      case Event(ProxyRequest(_)) =>
    }
  }

  lemma EmptyIsMap(known: set<Byte>, home: string -> Byte)
    ensures WellFormed([], known) && Homed([], home) && Represents([], map[])
  {
  }

  /** Two proxies announce one address, first that of realm r, then that of realm s, round by round. */
  function Rounds(p: seq<Entry>, known: set<Byte>, r: Byte, s: Byte, ip: string,
      loads: seq<(real, real)>): seq<Entry>
    decreases |loads|
  {
    if loads == [] then p
    else
      var (x, y) := loads[|loads| - 1];
      var q := Rounds(p, known, r, s, ip, loads[..|loads| - 1]);
      Announced(Announced(q, known, r, ip, x), known, s, ip, y)
  }

  /** Realm s has a proxy with another address. */
  ghost predicate HasOther(p: seq<Entry>, s: Byte, ip: string) {
    exists e :: e in p && e.realm == s && e.ip != ip
  }

  /** A conflict leaves no entry with the address and asks both realms again. */
  lemma ConflictClears(p: seq<Entry>, known: set<Byte>, r: Byte, s: Byte, ip: string, x: real, y: real)
    requires r in known && s in known && r != s && FirstAt(p, ip) == |p| && HasOther(p, s, ip)
    ensures var q := Announced(p, known, r, ip, x);
      Announced(q, known, s, ip, y) == p && Requests(q, known, s, ip) == [r, s]
  {
    var q := Inserted(p, Entry(r, ip, x));
    InsertedMembers(p, Entry(r, ip, x));
    var e :| e in p && e.realm == s && e.ip != ip;
    assert e in q;
    FoundIsMember(q, ip);
    FoundIsMember(p, ip);
    assert HasRealm(q, s);
    var k := FirstAt(q, ip);
    assert q[k] in q && q[k] == Entry(r, ip, x);
    InsertedCleared(p, Entry(r, ip, x));
  }

  lemma {:induction false} InsertedCleared(p: seq<Entry>, e: Entry)
    requires FirstAt(p, e.ip) == |p|
    ensures Without(Inserted(p, e), e.ip) == p
  {
    hide Inserted;
    NothingRemoved(p, e.ip);
    if p == [] || p[0].realm > e.realm {
      InsertedFront(p, e);
    } else {
      InsertedCons(p, e);
      InsertedCleared(p[1..], e);
      assert Inserted(p, e)[1..] == Inserted(p[1..], e);
    }
  }

  lemma {:induction false} NothingRemoved(p: seq<Entry>, ip: string)
    requires FirstAt(p, ip) == |p|
    ensures Without(p, ip) == p
  {
    if p != [] {
      NothingRemoved(p[1..], ip);
    }
  }

  lemma {:induction false} RoundsReturn(p: seq<Entry>, known: set<Byte>, r: Byte, s: Byte, ip: string,
        loads: seq<(real, real)>)
    requires r in known && s in known && r != s && FirstAt(p, ip) == |p| && HasOther(p, s, ip)
    ensures Rounds(p, known, r, s, ip, loads) == p
    decreases |loads|
  {
    hide Announced;
    if loads != [] {
      var (x, y) := loads[|loads| - 1];
      RoundsReturn(p, known, r, s, ip, loads[..|loads| - 1]);
      ConflictClears(p, known, r, s, ip, x, y);
    }
  }

  /**
   Two live proxies of different realms with one address never come to rest when the second realm has
   another proxy: however often both answer the requests of a conflict, with whatever loads, the
   registry is where the conflict left it, and their next answers conflict again.
   */
  lemma ConflictRepeats(p: seq<Entry>, known: set<Byte>, r: Byte, s: Byte, ip: string, load: real,
      loads: seq<(real, real)>, x: real)
    requires WellFormed(p, known) && HasOther(p, s, ip) && Requests(p, known, s, ip) == [r, s]
    ensures var q := Announced(p, known, s, ip, load);
      && Rounds(q, known, r, s, ip, loads) == q
      && Requests(Announced(q, known, r, ip, x), known, s, ip) == [r, s]
  {
    var q := Without(p, ip);
    assert q == Announced(p, known, s, ip, load);
    FoundIsMember(q, ip);
    var e :| e in p && e.realm == s && e.ip != ip;
    assert e in q;
    hide Announced, Requests, WellFormed, Without;
    RoundsReturn(q, known, r, s, ip, loads);
    ConflictClears(q, known, r, s, ip, x, x);
  }

  ghost predicate Unambiguous(p: seq<Entry>) {
    forall i, j :: 0 <= i < j < |p| ==> p[i].ip != p[j].ip
  }

  /** The address becomes ambiguous exactly when its realm has no proxy yet and another realm's proxy has it. */
  lemma AddressStaysUnique(p: seq<Entry>, known: set<Byte>, realm: Byte, ip: string, load: real)
    requires Unambiguous(p)
    ensures Unambiguous(Announced(p, known, realm, ip, load))
      <==> !(realm in known && !HasRealm(p, realm) && FirstAt(p, ip) < |p|)
  {
    hide Inserted;
    var k := FirstAt(p, ip);
    if realm in known && (!HasRealm(p, realm) || k == |p|) {
      InsertedUnique(p, Entry(realm, ip, load));
    } else if realm in known && p[k].realm != realm {
      WithoutUnique(p, ip);
    }
  }

  lemma UnambiguousCons(x: Entry, r: seq<Entry>)
    ensures Unambiguous([x] + r) <==> Unambiguous(r) && forall y :: y in r ==> x.ip != y.ip
  {
    var q := [x] + r;
    if Unambiguous(q) {
      assert r == q[1..];
      forall y | y in r
        ensures x.ip != y.ip
      {
        var i :| 0 <= i < |r| && r[i] == y;
        assert q[0] == x && q[i + 1] == y;
      }
    }
  }

  lemma {:induction false} InsertedUnique(p: seq<Entry>, e: Entry)
    requires Unambiguous(p)
    ensures Unambiguous(Inserted(p, e)) <==> FirstAt(p, e.ip) == |p|
  {
    hide Inserted, Unambiguous;
    FoundIsMember(p, e.ip);
    if p == [] || p[0].realm > e.realm {
      InsertedFront(p, e);
      UnambiguousCons(e, p);
    } else {
      assert p == [p[0]] + p[1..];
      UnambiguousCons(p[0], p[1..]);
      InsertedUnique(p[1..], e);
      FoundIsMember(p[1..], e.ip);
      InsertedCons(p, e);
      InsertedMembers(p[1..], e);
      UnambiguousCons(p[0], Inserted(p[1..], e));
    }
  }

  lemma InsertedHomed(p: seq<Entry>, home: string -> Byte, e: Entry)
    requires Homed(p, home) && e.realm == home(e.ip) && FirstAt(p, e.ip) == |p|
    ensures Homed(Inserted(p, e), home)
  {
    hide Inserted;
    InsertedUnique(p, e);
    InsertedMembers(p, e);
    var q := Inserted(p, e);
    assert forall i :: 0 <= i < |q| ==> q[i] in q;
  }

  lemma {:induction false} WithoutUnique(p: seq<Entry>, ip: string)
    requires Unambiguous(p)
    ensures Unambiguous(Without(p, ip))
  {
    if p != [] {
      hide Unambiguous;
      assert p == [p[0]] + p[1..];
      UnambiguousCons(p[0], p[1..]);
      WithoutUnique(p[1..], ip);
      UnambiguousCons(p[0], Without(p[1..], ip));
    }
  }

  /** One step of the deleting scan: the part behind the cursor is what remains to be filtered. */
  lemma WithoutAt(p: seq<Entry>, i: nat, ip: string)
    requires i < |p|
    ensures p[..i] + Without(p[i..], ip) ==
      if p[i].ip == ip then
        var q := p[..i] + p[i + 1..]; q[..i] + Without(q[i..], ip)
      else
        p[..i + 1] + Without(p[i + 1..], ip)
  {
    assert p[i..][1..] == p[i + 1..];
    if p[i].ip == ip {
      var q := p[..i] + p[i + 1..];
      assert q[..i] == p[..i] && q[i..] == p[i + 1..];
    } else {
      assert p[..i + 1] == p[..i] + [p[i]];
    }
  }

  lemma {:induction false} WithoutShrinks(p: seq<Entry>, ip: string)
    ensures |Without(p, ip)| <= |p|
    ensures |Without(p, ip)| < |p| <==> FirstAt(p, ip) < |p|
  {
    if p != [] {
      WithoutShrinks(p[1..], ip);
    }
  }

  // ---------------------------------------------------------------- the service

  class RealmService {
    var known: set<Byte>
    var proxies: seq<Entry>
    /** Realms for which a request was pushed to the event channel, oldest first. */
    var requested: seq<Byte>

    constructor ()
      ensures known == {} && proxies == [] && requested == []
    {
      known, proxies, requested := {}, [], [];
    }

    /** The realm number arrives as an unsigned short and is kept as one byte. */
    method ProcessProxyAnnounce(realmId: nat, address: string, load: real)
      requires realmId < 65536
      modifies this`proxies, this`requested
      ensures proxies == Announced(old(proxies), known, realmId % 256, address, load)
      ensures requested == old(requested) + Requests(old(proxies), known, realmId % 256, address)
    {
      var realm: Byte := realmId % 256;
      if realm !in known {
        return;
      }
      var newProxy := true;
      if HasRealm(proxies, realm) {
        var itr := 0;
        while itr < |proxies|
          invariant itr <= |proxies| && newProxy
          invariant forall i :: 0 <= i < itr ==> proxies[i].ip != address
          invariant proxies == old(proxies) && requested == old(requested)
        {
          if proxies[itr].realm != realm {
            if proxies[itr].ip == address {
              var other := proxies[itr].realm;
              var deleted := DeleteProxy(address);
              requested := requested + [other];
              requested := requested + [realm];
              assert FirstAt(old(proxies), address) == itr;
              return;
            }
          } else if proxies[itr].ip == address {
            newProxy := false;
            break;
          }
          itr := itr + 1;
        }
      }
      if newProxy {
        AddProxy(realm, address, load);
      } else {
        UpdateProxyLoad(address, load);
      }
    }

    method AddProxy(realm: Byte, ip: string, load: real)
      modifies this`proxies
      ensures proxies == Inserted(old(proxies), Entry(realm, ip, load))
    {
      var k := UpperBound(proxies, realm);
      proxies := proxies[..k] + [Entry(realm, ip, load)] + proxies[k..];
    }

    method UpdateProxyLoad(ip: string, load: real)
      modifies this`proxies
      ensures var k := FirstAt(old(proxies), ip);
        proxies == if k < |old(proxies)| then old(proxies)[k := old(proxies)[k].(load := load)] else old(proxies)
    {
      var itr := 0;
      while itr < |proxies|
        invariant itr <= |proxies| && proxies == old(proxies)
        invariant forall i :: 0 <= i < itr ==> proxies[i].ip != ip
      {
        if proxies[itr].ip == ip {
          assert itr == FirstAt(proxies, ip);
          proxies := proxies[itr := proxies[itr].(load := load)];
          break;
        }
        itr := itr + 1;
      }
    }

    /** False stands for the failed assertion at the end: nothing had the address. */
    method DeleteProxy(ip: string) returns (deleted: bool)
      modifies this`proxies
      ensures proxies == Without(old(proxies), ip)
      ensures deleted <==> FirstAt(old(proxies), ip) < |old(proxies)|
    {
      deleted := false;
      var itr := 0;
      ghost var all := proxies;
      assert proxies[..0] + Without(proxies[0..], ip) == Without(all, ip);
      while itr < |proxies|
        invariant itr <= |proxies| <= |all|
        invariant proxies[..itr] + Without(proxies[itr..], ip) == Without(all, ip)
        invariant deleted <==> |proxies| < |all|
        decreases |proxies| - itr
      {
        WithoutAt(proxies, itr, ip);
        if proxies[itr].ip == ip {
          proxies := proxies[..itr] + proxies[itr + 1..];
          deleted := true;
        } else {
          itr := itr + 1;
        }
      }
      WithoutShrinks(all, ip);
    }

    method DeleteProxies()
      modifies this`proxies
      ensures proxies == []
    {
      proxies := [];
    }

    /** The realm list arrived: forget all proxies and ask every realm's proxies to announce themselves. */
    method UpdateRealms(ids: seq<Byte>)
      modifies this
      ensures known == old(known) + (set i | i in ids)
      ensures proxies == [] && requested == old(requested) + Ascending(known, 256)
    {
      known := known + (set i | i in ids);
      DeleteProxies();
      var r: nat := 0;
      while r < 256
        invariant r <= 256 && proxies == []
        invariant known == old(known) + (set i | i in ids)
        invariant requested == old(requested) + Ascending(known, r)
      {
        if r in known {
          requested := requested + [r];
        }
        r := r + 1;
      }
    }

    /** An event from the channel. `ok` is false when the assertion in the removal fails. */
    method Push(e: BusEvent) returns (ok: bool)
      requires e.ProxyAnnounce? ==> e.realmId < 65536
      modifies this`proxies, this`requested
      ensures proxies == Dispatched(old(proxies), known, e)
      ensures ok <==> !(e.ProxyShutdowned? && FirstAt(old(proxies), e.address) == |old(proxies)|)
      ensures requested == old(requested) +
        if e.ProxyAnnounce? then Requests(old(proxies), known, e.realmId % 256, e.address) else []
    {
      ok := true;
      match e
      case ProxyAnnounce(realmId, address, load) => ProcessProxyAnnounce(realmId, address, load);
      case ProxyShutdowned(address) => ok := DeleteProxy(address);
      case ProxyRequest(_) =>
    }

    method GetProxyForRealm(id: Byte) returns (ip: string)
      ensures ip == ProxyFor(proxies, id)
    {
      var own, at := ProxiesOf(id);
      BestIsFirstLeast(proxies, id);
      if own == [] {
        return "";
      }
      assert proxies[at[0]].realm == id;
      var lowest := 0;
      for i := 0 to |own|
        invariant lowest < |own|
        invariant forall m :: 0 <= m < i ==> own[lowest].load <= own[m].load
        invariant forall m :: 0 <= m < lowest ==> own[lowest].load < own[m].load
      {
        if own[i].load < own[lowest].load {
          lowest := i;
        }
      }
      ChosenIsBest(proxies, id, own, at, lowest);
      ip := own[lowest].ip;
    }

    /** The entries of one realm, in registry order, and where they stand. */
    method ProxiesOf(id: Byte) returns (own: seq<Entry>, ghost at: seq<nat>)
      ensures |at| == |own|
      ensures forall m :: 0 <= m < |own| ==> at[m] < |proxies| && own[m] == proxies[at[m]] && own[m].realm == id
      ensures forall m, n :: 0 <= m < n < |own| ==> at[m] < at[n]
      ensures forall j :: 0 <= j < |proxies| && proxies[j].realm == id ==> j in at
    {
      own, at := [], [];
      for i := 0 to |proxies|
        invariant |at| == |own|
        invariant forall m :: 0 <= m < |own| ==> at[m] < i && own[m] == proxies[at[m]] && own[m].realm == id
        invariant forall m, n :: 0 <= m < n < |own| ==> at[m] < at[n]
        invariant forall j :: 0 <= j < i && proxies[j].realm == id ==> j in at
      {
        if proxies[i].realm == id {
          own := own + [proxies[i]];
          at := at + [i];
        }
      }
    }
  }

  lemma ChosenIsBest(p: seq<Entry>, id: Byte, own: seq<Entry>, at: seq<nat>, lowest: nat)
    requires |at| == |own| && lowest < |own| && BestIndex(p, id).Some?
    requires forall m :: 0 <= m < |own| ==> at[m] < |p| && own[m] == p[at[m]] && own[m].realm == id
    requires forall m, n :: 0 <= m < n < |own| ==> at[m] < at[n]
    requires forall j :: 0 <= j < |p| && p[j].realm == id ==> j in at
    requires forall m :: 0 <= m < |own| ==> own[lowest].load <= own[m].load
    requires forall m :: 0 <= m < lowest ==> own[lowest].load < own[m].load
    ensures own[lowest] == p[BestIndex(p, id).value]
  {
    BestIsFirstLeast(p, id);
    var b := BestIndex(p, id).value;
    assert b in at;
    var m :| 0 <= m < |at| && at[m] == b;
    assert p[b].load <= p[at[lowest]].load;
  }
}

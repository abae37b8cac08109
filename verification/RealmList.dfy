/** The realm list packets of the realm daemon, and what a client reads from them. */
module RealmList {
  import opened Bytes
  import opened ByteBuffer
  import opened PacketBuffer
  import Registry
  import opened Wrappers

  datatype Realm = Realm(
    name: seq<Byte>, icon: Byte, color: Byte, timezone: Byte, allowedSecurityLevel: Byte, population: seq<Byte>,
    build: nat)

  /** The layouts of build 5875 and of the later builds. */
  datatype Layout = Classic | Expansion

  /** What the daemon knows about the client it builds a list for. */
  datatype Client = Client(build: nat, gmlevel: Byte, amounts: map<Byte, Byte>)

  /** One line of the list as the client sees it; the lock is part of the expansion layout only. */
  datatype Listed = Listed(
    icon: Byte, locked: Byte, color: Byte, name: seq<Byte>, address: seq<Byte>, population: seq<Byte>,
    amount: Byte, timezone: Byte)

  const OFFLINE: Byte := 2
  const REALM_LIST: Byte := 0x10

  function TextOf(s: string): seq<Byte> {
    seq(|s|, i requires 0 <= i < |s| => s[i] as int % 256)
  }

  function AmountOf(amounts: map<Byte, Byte>, id: Byte): Byte {
    if id in amounts then amounts[id] else 0
  }

  /** A realm without proxy shows as offline, whatever its own colour. */
  function Shown(layout: Layout, id: Byte, r: Realm, proxies: seq<Registry.Entry>, c: Client): Listed {
    var address := TextOf(Registry.ProxyFor(proxies, id));
    Listed(
      r.icon, if layout == Expansion && r.allowedSecurityLevel > c.gmlevel then 1 else 0,
      if address == [] then OFFLINE else r.color, r.name, address, r.population,
      AmountOf(c.amounts, id), r.timezone)
  }

  /** The realms of the client's build with identifiers below n, in ascending order. */
  function Selected(layout: Layout, realms: map<Byte, Realm>, proxies: seq<Registry.Entry>, c: Client,
        n: nat): (r: seq<Listed>)
    requires n <= 256
    ensures |r| <= n
  {
    if n == 0 then []
    else
      var before := Selected(layout, realms, proxies, c, n - 1);
      if n - 1 in realms && realms[n - 1].build == c.build then
        before + [Shown(layout, n - 1, realms[n - 1], proxies, c)]
      else before
  }

  // ---------------------------------------------------------------- the bytes

  function LineValues(layout: Layout, l: Listed): seq<Value> {
    [Unsigned(1, l.icon)] + (if layout == Expansion then [Unsigned(1, l.locked)] else []) + Common(l)
  }

  function Common(l: Listed): seq<Value> {
    [Unsigned(1, l.color), Text(l.name), Text(l.address), Float(l.population),
     Unsigned(1, l.amount), Unsigned(1, l.timezone), Unsigned(1, 0)]
  }

  function LineTypes(layout: Layout): seq<Type> {
    [TUnsigned(1)] + (if layout == Expansion then [TUnsigned(1)] else [])
      + [TUnsigned(1), TString, TString, TFloat(4), TUnsigned(1), TUnsigned(1), TUnsigned(1)]
  }

  function Line(layout: Layout, l: Listed): seq<Byte> {
    EncodeAll(LineValues(layout, l))
  }

  function Lines(layout: Layout, ls: seq<Listed>): seq<Byte> {
    if ls == [] then [] else Lines(layout, ls[..|ls| - 1]) + Line(layout, ls[|ls| - 1])
  }

  function CountWidth(layout: Layout): nat {
    if layout == Classic then 1 else 2
  }

  function HeadValues(layout: Layout, n: nat): seq<Value> {
    [Unsigned(4, 0), Unsigned(CountWidth(layout), n)]
  }

  function Tail(layout: Layout): seq<Byte> {
    if layout == Classic then [0x00, 0x02] else [0x10, 0x00]
  }

  /** Counts and lengths are cut to the width of their fields. */
  function Body(layout: Layout, ls: seq<Listed>): seq<Byte> {
    EncodeAll(HeadValues(layout, |ls| % Pow256(CountWidth(layout)))) + Lines(layout, ls) + Tail(layout)
  }

  function PacketOf(layout: Layout, ls: seq<Listed>): seq<Byte> {
    var body := Body(layout, ls);
    [REALM_LIST] + FixedLE(|body| % 65536, 2) + body
  }

  /** The characters of an address, each as one byte. */
  lemma TextOfAt(s: string, k: nat)
    requires k < |s| && s[k] as int < 256
    ensures |TextOf(s)| == |s| && TextOf(s)[k] as char == s[k]
  {
  }

  lemma {:induction false} EncodeSeven(vs: seq<Value>)
    requires |vs| == 7
    ensures EncodeAll(vs) ==
      Encode(vs[0]) + Encode(vs[1]) + Encode(vs[2]) + Encode(vs[3]) + Encode(vs[4]) + Encode(vs[5]) + Encode(vs[6])
  {
    hide Encode, EncodeAll;
    forall i | 0 <= i < 7
      ensures EncodeAll(vs[..i + 1]) == EncodeAll(vs[..i]) + Encode(vs[i])
    {
      assert vs[..i + 1] == vs[..i] + [vs[i]];
      ElementsJoin(vs[..i], [vs[i]]);
      ElementsJoin([vs[i]], []);
    }
    assert vs[..7] == vs && vs[..0] == [];
    assert EncodeAll([]) == [] by { NothingEncoded(); }
  }

  lemma NothingEncoded()
    ensures EncodeAll([]) == []
  {
  }

  /** One line, byte by byte, in the two layouts. */
  lemma LineBytes(l: Listed)
    ensures var texts := (l.name + [0]) + (l.address + [0]);
      var behind := [l.color] + texts + l.population + [l.amount] + [l.timezone] + [0];
      Line(Classic, l) == [l.icon] + behind && Line(Expansion, l) == [l.icon, l.locked] + behind
  {
    hide Encode, EncodeAll;
    EncodeSeven(Common(l));
    EncodeOneByte(l.color);
    EncodeOneByte(l.amount);
    EncodeOneByte(l.timezone);
    EncodeOneByte(0);
    EncodeOneByte(l.icon);
    EncodeOneByte(l.locked);
    EncodeRaw(l);
    var i, k := Unsigned(1, l.icon), Unsigned(1, l.locked);
    assert LineValues(Classic, l) == [i] + Common(l) && LineValues(Expansion, l) == [i, k] + Common(l);
    ElementsJoin([i], Common(l));
    ElementsJoin([i, k], Common(l));
    EncodeTwo(i, k);
  }

  lemma EncodeRaw(l: Listed)
    ensures Encode(Text(l.name)) == l.name + [0] && Encode(Text(l.address)) == l.address + [0]
    ensures Encode(Float(l.population)) == l.population
  {
  }

  lemma EncodeTwo(v: Value, w: Value)
    ensures EncodeAll([v, w]) == Encode(v) + Encode(w)
  {
    hide Encode;
    assert [v, w][1..] == [w] && [w][1..] == [];
    assert EncodeAll([w]) == Encode(w) + EncodeAll([]) == Encode(w);
  }

  lemma EncodeOneByte(b: Byte)
    ensures Encode(Unsigned(1, b)) == [b]
  {
  }

  /** The packet: command, length of the rest, four zeros, the count, the lines one after the other, two bytes. */
  lemma PacketBytes(ls: seq<Listed>)
    ensures var c, e := PacketOf(Classic, ls), PacketOf(Expansion, ls);
      var n, m := |Lines(Classic, ls)| + 7, |Lines(Expansion, ls)| + 8;
      && c == [0x10] + FixedLE(n % 65536, 2) + [0, 0, 0, 0] + FixedLE(|ls| % 256, 1) + Lines(Classic, ls) + [0, 2]
      && e == [0x10] + FixedLE(m % 65536, 2) + [0, 0, 0, 0] + FixedLE(|ls| % 65536, 2) + Lines(Expansion, ls) + [16, 0]
  {
    hide Lines, FixedLE, EncodeAll;
    Pow256Small();
    EncodeTwo(Unsigned(4, 0), Unsigned(1, |ls| % 256));
    EncodeTwo(Unsigned(4, 0), Unsigned(2, |ls| % 65536));
    var z := FixedLE(0, 4);
    assert z == [0, 0, 0, 0] by { FourZeros(); }
    assert Body(Classic, ls) == z + FixedLE(|ls| % 256, 1) + Lines(Classic, ls) + [0, 2];
    assert Body(Expansion, ls) == z + FixedLE(|ls| % 65536, 2) + Lines(Expansion, ls) + [0x10, 0];
  }

  lemma FourZeros()
    ensures FixedLE(0, 4) == [0, 0, 0, 0]
  {
    assert FixedLE(0, 2) == [0, 0] && FixedLE(0, 3) == [0] + FixedLE(0, 2) && FixedLE(0, 4) == [0] + FixedLE(0, 3);
  }

  lemma {:induction false} LinesJoin(layout: Layout, a: seq<Listed>, b: seq<Listed>)
    ensures Lines(layout, a + b) == Lines(layout, a) + Lines(layout, b)
    ensures |a| == 1 ==> Lines(layout, a) == Line(layout, a[0])
    decreases |b|
  {
    hide Line;
    if b == [] {
      assert a + b == a;
    } else {
      LinesJoin(layout, a, b[..|b| - 1]);
      assert (a + b)[..|a + b| - 1] == a + b[..|b| - 1];
    }
  }

  // ---------------------------------------------------------------- the client

  function ToListed(layout: Layout, vs: seq<Value>): Option<Listed> {
    var rest := if |vs| > 1 && layout == Expansion then vs[2..] else if |vs| > 0 then vs[1..] else [];
    if |rest| != 7 || !vs[0].Unsigned? || !vs[1].Unsigned? || vs[0].n > 255 || vs[1].n > 255 then None
    else
      match (rest[0], rest[1], rest[2], rest[3], rest[4], rest[5])
      case (
        Unsigned(_, color), Text(name), Text(address), Float(population), Unsigned(_, amount), Unsigned(_, timezone)) =>
        if color > 255 || amount > 255 || timezone > 255 then None
        else
          var locked := if layout == Expansion then vs[1].n else 0;
          Some(Listed(vs[0].n, locked, color, name, address, population, amount, timezone))
      case _ => None
  }

  function ReadLines(layout: Layout, n: nat, s: seq<Byte>, pos: nat): (r: Option<(seq<Listed>, nat)>)
    requires pos <= |s|
    ensures r.Some? ==> r.value.1 <= |s| && |r.value.0| == n
  {
    if n == 0 then Some(([], pos))
    else
      var before := ReadLines(layout, n - 1, s, pos);
      if before.None? then None
      else
        var vs := DecodeInOrder(LineTypes(layout), s, before.value.1);
        if vs.None? then None
        else
          var l := ToListed(layout, vs.value.0);
          if l.None? then None else Some((before.value.0 + [l.value], vs.value.1))
  }

  /** The count, that many lines and two more bytes, and nothing behind them. */
  function ReadBody(layout: Layout, body: seq<Byte>): Option<seq<Listed>> {
    var head := DecodeInOrder([TUnsigned(4), TUnsigned(CountWidth(layout))], body, 0);
    if head.None? || |head.value.0| != 2 || !head.value.0[1].Unsigned? then None
    else
      var r := ReadLines(layout, head.value.0[1].n, body, head.value.1);
      if r.None? || body[r.value.1..] != Tail(layout) then None else Some(r.value.0)
  }

  /** A client reads the command and the length, and takes what follows as the body. */
  function ReadPacket(layout: Layout, s: seq<Byte>): Option<seq<Listed>> {
    if |s| < 3 || s[0] != REALM_LIST || LE(s[1..3]) != |s| - 3 then None else ReadBody(layout, s[3..])
  }

  // ---------------------------------------------------------------- what the client reads is what was listed

  predicate Sendable(layout: Layout, l: Listed) {
    0 !in l.name && 0 !in l.address && |l.population| == 4 && (layout == Classic ==> l.locked == 0)
  }

  lemma Pow256Small()
    ensures Pow256(1) == 256 && Pow256(2) == 65536 && Pow256(4) == 0x1_0000_0000
  {
  }

  lemma LineRoundTrip(layout: Layout, l: Listed, pre: seq<Byte>, post: seq<Byte>)
    requires Sendable(layout, l)
    ensures DecodeInOrder(LineTypes(layout), pre + Line(layout, l) + post, |pre|)
      == Some((LineValues(layout, l), |pre| + |Line(layout, l)|))
    ensures ToListed(layout, LineValues(layout, l)) == Some(l)
  {
    hide DecodeInOrder, EncodeAll, Pow256;
    Pow256Small();
    SessionRoundTrip(LineValues(layout, l), LineTypes(layout), pre, post);
    assert LineValues(layout, l)[if layout == Expansion then 2 else 1..] == Common(l);
  }

  lemma {:induction false} LinesRoundTrip(layout: Layout, ls: seq<Listed>, pre: seq<Byte>, post: seq<Byte>)
    requires forall l :: l in ls ==> Sendable(layout, l)
    ensures ReadLines(layout, |ls|, pre + Lines(layout, ls) + post, |pre|) == Some((ls, |pre| + |Lines(layout, ls)|))
  {
    hide DecodeInOrder, Line, LineValues, ToListed, Sendable;
    if ls != [] {
      var before, l := ls[..|ls| - 1], ls[|ls| - 1];
      var a, b := Lines(layout, before), Line(layout, l);
      Regroup(pre, a, b, post);
      LinesRoundTrip(layout, before, pre, b + post);
      LineRoundTrip(layout, l, pre + a, post);
      assert ls == before + [l];
    }
  }

  lemma HeadRoundTrip(layout: Layout, n: nat, post: seq<Byte>)
    requires n < Pow256(CountWidth(layout))
    ensures var e := EncodeAll(HeadValues(layout, n));
      DecodeInOrder([TUnsigned(4), TUnsigned(CountWidth(layout))], e + post, 0) == Some((HeadValues(layout, n), |e|))
  {
    hide DecodeInOrder, EncodeAll, Pow256;
    Pow256Small();
    SessionRoundTrip(HeadValues(layout, n), [TUnsigned(4), TUnsigned(CountWidth(layout))], [], post);
    var e := EncodeAll(HeadValues(layout, n));
    assert [] + e + post == e + post;
  }

  lemma BodyRoundTrip(layout: Layout, ls: seq<Listed>)
    requires forall l :: l in ls ==> Sendable(layout, l)
    ensures ReadBody(layout, Body(layout, ls)) == Some(ls) <==> |ls| < Pow256(CountWidth(layout))
  {
    hide DecodeInOrder, EncodeAll, Lines, Sendable, ReadLines, Pow256;
    var m := Pow256(CountWidth(layout));
    var n := |ls| % m;
    var e, lines := EncodeAll(HeadValues(layout, n)), Lines(layout, ls);
    HeadRoundTrip(layout, n, lines + Tail(layout));
    var body := Body(layout, ls);
    assert body == e + (lines + Tail(layout));
    if |ls| < m {
      assert n == |ls|;
      LinesRoundTrip(layout, ls, e, Tail(layout));
      assert body[|e| + |lines|..] == Tail(layout);
    }
  }

  /**
   The client reads back exactly the lines that were sent, exactly when the number of lines fits the
   count and the body fits the length in front of it.
   */
  lemma PacketRoundTrip(layout: Layout, ls: seq<Listed>)
    requires forall l :: l in ls ==> Sendable(layout, l)
    ensures ReadPacket(layout, PacketOf(layout, ls)) == Some(ls)
      <==> |ls| < Pow256(CountWidth(layout)) && |Body(layout, ls)| < 65536
  {
    hide ReadBody, Body, Sendable, FixedLE, LE, Pow256;
    Pow256Small();
    BodyRoundTrip(layout, ls);
    var body := Body(layout, ls);
    var s := PacketOf(layout, ls);
    FixedLEValue(|body| % 65536, 2);
    assert s[1..3] == FixedLE(|body| % 65536, 2) && s[3..] == body;
  }

  ghost predicate RealmsSendable(realms: map<Byte, Realm>) {
    forall id :: id in realms ==> 0 !in realms[id].name && |realms[id].population| == 4
  }

  function OfBuild(realms: map<Byte, Realm>, build: nat): set<Byte> {
    set id | id in realms && realms[id].build == build
  }

  /** The lines are those of the client's realms, one each, in ascending order. */
  lemma {:induction false} SelectedAscends(layout: Layout, realms: map<Byte, Realm>,
        proxies: seq<Registry.Entry>, c: Client, n: nat)
    requires n <= 256
    ensures var ids := Registry.Ascending(OfBuild(realms, c.build), n);
      && |Selected(layout, realms, proxies, c, n)| == |ids|
      && (forall i :: 0 <= i < |ids| ==> ids[i] in realms)
      && (forall i :: 0 <= i < |ids| ==>
            Selected(layout, realms, proxies, c, n)[i] == Shown(layout, ids[i], realms[ids[i]], proxies, c))
      && (forall i, j :: 0 <= i < j < |ids| ==> ids[i] < ids[j])
  {
    hide Shown;
    if n > 0 {
      SelectedAscends(layout, realms, proxies, c, n - 1);
      var before := Registry.Ascending(OfBuild(realms, c.build), n - 1);
      assert forall i :: 0 <= i < |before| ==> before[i] in before;
    }
  }

  /** The address is that of the first least loaded proxy of the realm. */
  ghost predicate Chosen(proxies: seq<Registry.Entry>, id: Byte, address: seq<Byte>) {
    exists k :: 0 <= k < |proxies| && proxies[k].realm == id && address == TextOf(proxies[k].ip)
      && (forall i :: 0 <= i < |proxies| && proxies[i].realm == id ==> proxies[k].load <= proxies[i].load)
      && (forall i :: 0 <= i < k && proxies[i].realm == id ==> proxies[k].load < proxies[i].load)
  }

  lemma ProxyIsChosen(proxies: seq<Registry.Entry>, id: Byte)
    ensures var address := TextOf(Registry.ProxyFor(proxies, id));
      if Registry.HasRealm(proxies, id) then Chosen(proxies, id, address) else address == []
  {
    Registry.BestIsFirstLeast(proxies, id);
  }

  /**
   The realm list a client gets: it reads back the lines of its realms when they fit, each with the
   chosen proxy's address, in the offline colour where there is none, and locked by security level.
   */
  lemma RealmListRoundTrip(layout: Layout, realms: map<Byte, Realm>, proxies: seq<Registry.Entry>, c: Client)
    requires RealmsSendable(realms)
    requires forall e :: e in proxies ==> 0 !in TextOf(e.ip)
    ensures var ls := Selected(layout, realms, proxies, c, 256);
      ReadPacket(layout, PacketOf(layout, ls)) == Some(ls)
      <==> |ls| < Pow256(CountWidth(layout)) && |Body(layout, ls)| < 65536
    ensures forall id :: id in realms ==>
      var l := Shown(layout, id, realms[id], proxies, c);
      && (if Registry.HasRealm(proxies, id) then Chosen(proxies, id, l.address) else l.address == [])
      && l.color == (if l.address == [] then OFFLINE else realms[id].color)
      && l.locked == (if layout == Expansion && realms[id].allowedSecurityLevel > c.gmlevel then 1 else 0)
      && l.icon == realms[id].icon && l.name == realms[id].name && l.population == realms[id].population
      && l.timezone == realms[id].timezone && l.amount == (if id in c.amounts then c.amounts[id] else 0)
  {
    hide Selected, PacketOf, ReadPacket, Body, Pow256, Chosen, Registry.ProxyFor;
    var ls := Selected(layout, realms, proxies, c, 256);
    SelectedAscends(layout, realms, proxies, c, 256);
    var ids := Registry.Ascending(OfBuild(realms, c.build), 256);
    forall l | l in ls
      ensures Sendable(layout, l)
    {
      var i :| 0 <= i < |ls| && ls[i] == l;
      ProxySendable(proxies, ids[i]);
    }
    PacketRoundTrip(layout, ls);
    forall id | id in realms
      ensures var address := TextOf(Registry.ProxyFor(proxies, id));
        if Registry.HasRealm(proxies, id) then Chosen(proxies, id, address) else address == []
    {
      ProxyIsChosen(proxies, id);
    }
  }

  lemma ProxySendable(proxies: seq<Registry.Entry>, id: Byte)
    requires forall e :: e in proxies ==> 0 !in TextOf(e.ip)
    ensures 0 !in TextOf(Registry.ProxyFor(proxies, id))
  {
  }

  // ---------------------------------------------------------------- the bytes built so far

  lemma {:induction false} SelectedGrows(layout: Layout, realms: map<Byte, Realm>,
        proxies: seq<Registry.Entry>, c: Client, m: nat, n: nat)
    requires m <= n <= 256
    ensures var s, t := Selected(layout, realms, proxies, c, m), Selected(layout, realms, proxies, c, n);
      |s| <= |t| && |Lines(layout, s)| <= |Lines(layout, t)|
    decreases n
  {
    hide Shown, Line;
    if m < n {
      SelectedGrows(layout, realms, proxies, c, m, n - 1);
      LinesSnoc(layout, Selected(layout, realms, proxies, c, n - 1), n, realms, proxies, c);
    }
  }

  lemma LinesSnoc(layout: Layout, before: seq<Listed>, n: nat, realms: map<Byte, Realm>,
        proxies: seq<Registry.Entry>, c: Client)
    requires 0 < n <= 256 && before == Selected(layout, realms, proxies, c, n - 1)
    ensures Lines(layout, Selected(layout, realms, proxies, c, n)) == Lines(layout, before) +
      if n - 1 in realms && realms[n - 1].build == c.build then
        Line(layout, Shown(layout, n - 1, realms[n - 1], proxies, c))
      else []
  {
  }

  /** The bytes after the realms below an identifier. */
  ghost predicate Listing(layout: Layout, realms: map<Byte, Realm>, proxies: seq<Registry.Entry>, c: Client,
        id: nat, head: seq<Byte>, s: seq<Byte>)
    requires id <= 256
  {
    s == head + Lines(layout, Selected(layout, realms, proxies, c, id))
  }

  lemma ListingStep(layout: Layout, realms: map<Byte, Realm>, proxies: seq<Registry.Entry>, c: Client, id: nat,
        head: seq<Byte>, s: seq<Byte>)
    requires id < 256 && Listing(layout, realms, proxies, c, id, head, s)
    ensures var here := id in realms && realms[id].build == c.build;
      var line := if here then Line(layout, Shown(layout, id, realms[id], proxies, c)) else [];
      && Listing(layout, realms, proxies, c, id + 1, head, s + line)
      && |s + line| <= |head| + |Lines(layout, Selected(layout, realms, proxies, c, 256))|
  {
    hide Selected, Lines, Line, Shown;
    var before := Selected(layout, realms, proxies, c, id);
    LinesSnoc(layout, before, id + 1, realms, proxies, c);
    SelectedGrows(layout, realms, proxies, c, id + 1, 256);
    var here := id in realms && realms[id].build == c.build;
    var line := if here then Line(layout, Shown(layout, id, realms[id], proxies, c)) else [];
    assert head + Lines(layout, before) + line == head + (Lines(layout, before) + line);
  }

  lemma BodyParts(layout: Layout, ls: seq<Listed>)
    ensures var head := EncodeAll(HeadValues(layout, |ls| % Pow256(CountWidth(layout))));
      && Body(layout, ls) == head + Lines(layout, ls) + Tail(layout)
      && |Body(layout, ls)| == |head| + |Lines(layout, ls)| + 2
    ensures EncodeAll(if layout == Classic then [Unsigned(1, 0x00), Unsigned(1, 0x02)]
      else [Unsigned(1, 0x10), Unsigned(1, 0x00)])
      == Tail(layout)
    ensures Pow256(CountWidth(Classic)) == 256 && Pow256(CountWidth(Expansion)) == 65536
  {
    EncodeTwo(Unsigned(1, Tail(layout)[0]), Unsigned(1, Tail(layout)[1]));
    EncodeOneByte(Tail(layout)[0]);
    EncodeOneByte(Tail(layout)[1]);
    Pow256Small();
  }

  lemma NothingListed(layout: Layout, realms: map<Byte, Realm>, proxies: seq<Registry.Entry>, c: Client,
        head: seq<Byte>)
    ensures Listing(layout, realms, proxies, c, 0, head, head)
    ensures Selected(layout, realms, proxies, c, 256) == [] ==> Listing(layout, realms, proxies, c, 256, head, head)
  {
  }

  lemma AllListed(layout: Layout, realms: map<Byte, Realm>, proxies: seq<Registry.Entry>, c: Client,
        head: seq<Byte>, s: seq<Byte>)
    requires Listing(layout, realms, proxies, c, 256, head, s)
    ensures s == head + Lines(layout, Selected(layout, realms, proxies, c, 256))
  {
  }

  /** Entering zeros for realms without characters changes no amount. */
  ghost predicate SameAmounts(a: map<Byte, Byte>, b: map<Byte, Byte>) {
    forall id: Byte :: AmountOf(a, id) == AmountOf(b, id)
  }

  // ---------------------------------------------------------------- building the packets

  class RealmSocket {
    var build: nat
    var gmlevel: Byte
    var amounts: map<Byte, Byte>

    ghost function About(): Client
      reads this
    {
      Client(build, gmlevel, amounts)
    }

    method BuildRealmPacket(realms: map<Byte, Realm>, service: Registry.RealmService) returns (data: Buffer)
      requires |Body(Classic, Selected(Classic, realms, service.proxies, About(), 256))| + 3 < SIZE_LIMIT
      ensures fresh(data) && data.storage == PacketOf(Classic, Selected(Classic, realms, service.proxies, About(), 256))
    {
      hide Body, EncodeAll, Shown, Selected, Lines, Line, Listing;
      ghost var c := About();
      ghost var all := Selected(Classic, realms, service.proxies, c, 256);
      BodyParts(Classic, all);
      var pkt := new Buffer();
      var listSize := CountRealms(Classic, realms, service);
      ghost var head := EncodeAll(HeadValues(Classic, |all| % 256));
      pkt.WriteElems([Unsigned(4, 0), Unsigned(1, listSize % 256)]);
      assert [] + head == head;
      NothingListed(Classic, realms, service.proxies, c, head);
      if listSize > 0 {
        var id: nat := 0;
        while id < 256
          invariant id <= 256 && pkt.wpos == |pkt.storage|
          invariant Listing(Classic, realms, service.proxies, c, id, head, pkt.storage)
        {
          ListingStep(Classic, realms, service.proxies, c, id, head, pkt.storage);
          assert pkt.storage + [] == pkt.storage;
          if id in realms && realms[id].build == build {
            WriteLine(pkt, id, realms[id], service);
          }
          id := id + 1;
        }
      }
      AllListed(Classic, realms, service.proxies, c, head, pkt.storage);
      pkt.WriteElems([Unsigned(1, 0x00), Unsigned(1, 0x02)]);
      data := WithHead(pkt);
    }

    method WriteLine(pkt: Buffer, id: Byte, r: Realm, service: Registry.RealmService)
      requires pkt.wpos == |pkt.storage|
      requires |pkt.storage| + |Line(Classic, Shown(Classic, id, r, service.proxies, About()))| < SIZE_LIMIT
      modifies pkt`storage, pkt`wpos
      ensures pkt.storage == old(pkt.storage) + Line(Classic, Shown(Classic, id, r, service.proxies, About()))
      ensures pkt.wpos == |pkt.storage|
    {
      var address := service.GetProxyForRealm(id);
      var vs := [
        Unsigned(1, r.icon), Unsigned(1, if address == "" then 0x02 else r.color), Text(r.name), Text(TextOf(address)),
        Float(r.population), Unsigned(1, AmountOf(amounts, id)), Unsigned(1, r.timezone), Unsigned(1, 0x00)];
      assert vs == LineValues(Classic, Shown(Classic, id, r, service.proxies, About())) by { hide EncodeAll; }
      hide EncodeAll;
      pkt.WriteElems(vs);
    }

    method BuildExpansionRealmPacket(realms: map<Byte, Realm>, service: Registry.RealmService) returns (data: Buffer)
      requires |Body(Expansion, Selected(Expansion, realms, service.proxies, About(), 256))| + 3 < SIZE_LIMIT
      modifies this`amounts
      ensures fresh(data)
      ensures data.storage == PacketOf(Expansion, Selected(Expansion, realms, service.proxies, old(About()), 256))
      ensures SameAmounts(amounts, old(amounts))
    {
      hide Body, EncodeAll, Shown, Selected, Lines, Line, Listing;
      ghost var c := About();
      ghost var all := Selected(Expansion, realms, service.proxies, c, 256);
      BodyParts(Expansion, all);
      var pkt := new Buffer();
      var listSize := CountRealms(Expansion, realms, service);
      ghost var head := EncodeAll(HeadValues(Expansion, |all| % 65536));
      pkt.WriteElems([Unsigned(4, 0x00), Unsigned(2, listSize % 65536)]);
      assert [] + head == head;
      NothingListed(Expansion, realms, service.proxies, c, head);
      if listSize > 0 {
        var id: nat := 0;
        while id < 256
          invariant id <= 256 && pkt.wpos == |pkt.storage|
          invariant Listing(Expansion, realms, service.proxies, c, id, head, pkt.storage)
          invariant SameAmounts(amounts, c.amounts)
        {
          ListingStep(Expansion, realms, service.proxies, c, id, head, pkt.storage);
          assert pkt.storage + [] == pkt.storage;
          if id in realms && realms[id].build == build {
            WriteExpansionLine(pkt, id, realms[id], service, c);
          }
          id := id + 1;
        }
      }
      AllListed(Expansion, realms, service.proxies, c, head, pkt.storage);
      pkt.WriteElems([Unsigned(1, 0x10), Unsigned(1, 0x00)]);
      data := WithHead(pkt);
    }

    /** Looking up the number of characters enters a zero where there was none. */
    method WriteExpansionLine(pkt: Buffer, id: Byte, r: Realm, service: Registry.RealmService, ghost c: Client)
      requires pkt.wpos == |pkt.storage| && c.gmlevel == gmlevel && SameAmounts(amounts, c.amounts)
      requires |pkt.storage| + |Line(Expansion, Shown(Expansion, id, r, service.proxies, c))| < SIZE_LIMIT
      modifies pkt`storage, pkt`wpos, this`amounts
      ensures pkt.storage == old(pkt.storage) + Line(Expansion, Shown(Expansion, id, r, service.proxies, c))
      ensures pkt.wpos == |pkt.storage|
      ensures amounts == old(amounts)[id := AmountOf(old(amounts), id)] && SameAmounts(amounts, c.amounts)
    {
      hide EncodeAll;
      var address := service.GetProxyForRealm(id);
      if id !in amounts {
        amounts := amounts[id := 0];
      }
      var vs := [
        Unsigned(1, r.icon), Unsigned(1, if r.allowedSecurityLevel > gmlevel then 1 else 0),
        Unsigned(1, if address == "" then 0x02 else r.color), Text(r.name), Text(TextOf(address)),
        Float(r.population), Unsigned(1, amounts[id]), Unsigned(1, r.timezone), Unsigned(1, 0x00)];
      assert AmountOf(c.amounts, id) == amounts[id];
      assert vs == LineValues(Expansion, Shown(Expansion, id, r, service.proxies, c));
      pkt.WriteElems(vs);
    }

    /** The realms of the client's build. */
    method CountRealms(layout: Layout, realms: map<Byte, Realm>, service: Registry.RealmService) returns (listSize: nat)
      ensures listSize == |Selected(layout, realms, service.proxies, About(), 256)|
    {
      hide Shown;
      listSize := 0;
      var id: nat := 0;
      while id < 256
        invariant id <= 256 && listSize == |Selected(layout, realms, service.proxies, About(), id)|
      {
        if id in realms && realms[id].build == build {
          listSize := listSize + 1;
        }
        id := id + 1;
      }
    }

    /** The finished packet: command, length, body. */
    method WithHead(pkt: Buffer) returns (data: Buffer)
      requires |pkt.storage| + 3 < SIZE_LIMIT
      ensures fresh(data) && data.storage == [REALM_LIST] + FixedLE(|pkt.storage| % 65536, 2) + pkt.storage
    {
      hide FixedLE, Written;
      data := new Buffer();
      EncodeOneByte(REALM_LIST);
      data.Write(Unsigned(1, REALM_LIST));
      data.Write(Unsigned(2, |pkt.storage| % 65536));
      WrittenAtEnd(data.storage, pkt.storage);
      data.AppendBytes(pkt.storage);
    }
  }
}

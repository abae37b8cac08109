/**
 One client connection of the realm daemon: its states, the packets it queues, and the database
 queries whose answers arrive later, in any order.
 */
module RealmSession {
  import opened Bytes

  datatype State = Connected | NeedProof | Authed | NeedRProof | Closing

  datatype Packet =
    | WrongBuild | Banned | NoMatch | Locked | LogonChallenge
    | LogonProof | ReconnectChallenge | ReconnectProof | RealmList

  /** Queries sent to the database and not yet answered. */
  datatype Query = IpBan | Account | SessionKey | CharAmount

  /** What the account query finds: the ban column, the lock, and the address of the last login. */
  datatype AccountRows = NoRow | Row(active: nat, locked: bool, lastIp: string)

  datatype AccountState = AccountBanned | AccountNotFound | AccountExists

  /** A proof comes with the digest the daemon computes for it. */
  datatype Event =
    | RecvFailed
    | UnknownCommand
    | AskLogon(build: nat, login: string)
    | ProveLogon(sent: seq<Byte>, computed: seq<Byte>)
    | AskReconnect(build: nat, login: string)
    | ProveReconnect(sent: seq<Byte>, computed: seq<Byte>)
    | AskRealmList
    | IpBanAnswer(listed: bool)
    | AccountAnswer(rows: AccountRows)
    | SessionKeyAnswer(found: bool)
    | CharAmountAnswer(amounts: seq<(nat, nat)>)

  /** `rewritten` counts how often salt and verifier of the account were stored anew. */
  datatype Conn = Conn(
    state: State, build: nat, login: string, ip: string,
    amounts: map<nat, nat>, queue: seq<Packet>, asked: multiset<Query>, rewritten: nat)

  function Start(ip: string): Conn {
    Conn(Connected, 0, "", ip, map[], [], multiset{}, 0)
  }

  predicate Classic(build: nat) {
    build == 5875
  }

  predicate Expansion(build: nat) {
    build == 8606 || build == 9947 || build == 10505
  }

  predicate Supported(build: nat) {
    Classic(build) || Expansion(build)
  }

  // ---------------------------------------------------------------- the transitions

  function Die(c: Conn): Conn {
    c.(state := Closing)
  }

  function Send(c: Conn, p: Packet): Conn {
    c.(queue := c.queue + [p])
  }

  function Ask(c: Conn, q: Query): Conn {
    c.(asked := c.asked + multiset{q})
  }

  /** `realms` maps the identifiers of the known realms to their builds. Expansion lists touch every listed count. */
  function BuildList(c: Conn, realms: map<nat, nat>): Conn {
    if Classic(c.build) then Send(c, RealmList)
    else if Expansion(c.build) then
      Send(c.(amounts := (map r | r in realms && realms[r] == c.build :: 0) + c.amounts), RealmList)
    else Die(c)
  }

  function AmountsOf(rows: seq<(nat, nat)>): map<nat, nat> {
    if rows == [] then map[] else AmountsOf(rows[..|rows| - 1])[rows[|rows| - 1].0 := rows[|rows| - 1].1]
  }

  function SetVs(c: Conn): Conn {
    c.(rewritten := c.rewritten + 1)
  }

  function GotAmounts(c: Conn, amounts: map<nat, nat>, realms: map<nat, nat>): Conn {
    var d := BuildList(c.(amounts := amounts), realms);
    if Supported(c.build) then SetVs(d) else d
  }

  /** An account that is locked to another address than the client's. */
  predicate LockedElsewhere(rows: AccountRows, ip: string) {
    rows.Row? && rows.locked && ip != rows.lastIp
  }

  function OnAccount(c: Conn, rows: AccountRows): Conn {
    if rows.NoRow? then Send(c, NoMatch)
    else if rows.active != 0 then Send(c, Banned)
    else if LockedElsewhere(rows, c.ip) then Send(c, Locked)
    else SetVs(Send(c, LogonChallenge))
  }

  predicate Possible(c: Conn, e: Event) {
    match e
    case IpBanAnswer(_) => IpBan in c.asked
    case AccountAnswer(_) => Account in c.asked
    case SessionKeyAnswer(_) => SessionKey in c.asked
    case CharAmountAnswer(_) => CharAmount in c.asked
    case _ => true
  }

  function Answered(c: Conn, q: Query): Conn {
    c.(asked := c.asked - multiset{q})
  }

  function Step(c: Conn, e: Event, realms: map<nat, nat>): Conn
    requires Possible(c, e)
  {
    match e
    case RecvFailed => Die(c)
    case UnknownCommand => Die(c)
    case AskLogon(build, login) =>
      if c.state != Connected then Die(c)
      else
        var d := c.(login := c.login + login, build := build);
        if !Supported(build) then Send(d, WrongBuild) else Ask(d, IpBan).(state := NeedProof)
    case ProveLogon(sent, computed) =>
      if c.state != NeedProof then Die(c)
      else if sent != computed then Send(c, NoMatch)
      else if Supported(c.build) then Send(c, LogonProof).(state := Authed)
      else Die(c)
    case AskReconnect(build, login) =>
      if c.state != Connected then Die(c)
      else Ask(c.(login := login, build := build), SessionKey).(state := NeedRProof)
    case ProveReconnect(sent, computed) =>
      if c.state != NeedRProof || sent != computed then Die(c)
      else Send(c, ReconnectProof).(state := Authed)
    case AskRealmList =>
      if c.state != Authed then Die(c)
      else if |c.amounts| > 0 then BuildList(c, realms)
      else Ask(c, CharAmount)
    case IpBanAnswer(listed) =>
      var d := Answered(c, IpBan);
      if listed then Send(d, Banned) else Ask(d, Account)
    case AccountAnswer(rows) => OnAccount(Answered(c, Account), rows)
    case SessionKeyAnswer(found) =>
      // The observer reports success when the query found no row.
      var d := Answered(c, SessionKey);
      if found then Die(d) else Send(d, ReconnectChallenge).(state := NeedRProof)
    case CharAmountAnswer(rows) =>
      // With no rows the observer calls back twice.
      var d := Answered(c, CharAmount);
      if rows == [] then GotAmounts(GotAmounts(d, map[], realms), map[], realms)
      else GotAmounts(d, AmountsOf(rows), realms)
  }

  /** The connection after a whole run; an event that is not possible is passed over. */
  function Run(c: Conn, events: seq<Event>, realms: map<nat, nat>): Conn {
    if events == [] then c
    else
      var d := Run(c, events[..|events| - 1], realms);
      var e := events[|events| - 1];
      if Possible(d, e) then Step(d, e, realms) else d
  }

  // ---------------------------------------------------------------- what every run keeps

  predicate LogonPath(c: Conn) {
    || c.state == NeedProof || IpBan in c.asked || Account in c.asked
    || Banned in c.queue || NoMatch in c.queue || Locked in c.queue
    || LogonChallenge in c.queue || LogonProof in c.queue
  }

  predicate ReconnectPath(c: Conn) {
    c.state == NeedRProof || SessionKey in c.asked || ReconnectChallenge in c.queue || ReconnectProof in c.queue
  }

  predicate Proven(queue: seq<Packet>) {
    LogonProof in queue || ReconnectProof in queue
  }

  ghost predicate Invariant(c: Conn) {
    && !(LogonPath(c) && ReconnectPath(c))
    && (LogonPath(c) ==> Supported(c.build))
    && (c.state == Connected ==> !LogonPath(c) && !ReconnectPath(c) && c.asked == multiset{})
    && (c.state == Authed ==> Proven(c.queue))
    && (CharAmount in c.asked ==> Proven(c.queue))
    && (forall i :: 0 <= i < |c.queue| && c.queue[i] == RealmList ==> Proven(c.queue[..i]))
    && c.asked[IpBan] + c.asked[Account] <= 1 && c.asked[SessionKey] <= 1
  }

  lemma SendKeepsOrder(c: Conn, p: Packet)
    requires forall i :: 0 <= i < |c.queue| && c.queue[i] == RealmList ==> Proven(c.queue[..i])
    requires p == RealmList ==> Proven(c.queue)
    ensures var q := Send(c, p).queue;
      && (forall i :: 0 <= i < |q| && q[i] == RealmList ==> Proven(q[..i]))
      && (forall x :: x in q <==> x in c.queue || x == p)
  {
    var q := Send(c, p).queue;
    forall i | 0 <= i < |q| && q[i] == RealmList
      ensures Proven(q[..i])
    {
      assert q[..i] == c.queue[..i];
    }
  }

  lemma ListKeeps(c: Conn, realms: map<nat, nat>)
    requires Invariant(c) && Proven(c.queue)
    ensures Invariant(BuildList(c, realms)) && Proven(BuildList(c, realms).queue)
    ensures BuildList(c, realms).state == Connected ==> c.state == Connected
  {
    SendKeepsOrder(c, RealmList);
  }

  /** Queueing a packet other than a realm list, on a connection whose path it belongs to. */
  lemma SendKeeps(c: Conn, d: Conn, p: Packet)
    requires Invariant(c) && p != RealmList
    requires d == Send(c, p).(state := d.state, asked := d.asked, rewritten := d.rewritten)
    requires d.asked <= c.asked && !(d.state == Connected && p != WrongBuild)
    requires p == ReconnectChallenge || p == ReconnectProof ==> ReconnectPath(c)
    requires p != WrongBuild && p != ReconnectChallenge && p != ReconnectProof ==> LogonPath(c)
    requires d.state == c.state || (d.state == Authed && Proven([p])) || (d.state == NeedRProof && ReconnectPath(c))
    ensures Invariant(d)
  {
    SendKeepsOrder(c, p);
  }

  lemma AskLogonKeeps(c: Conn, build: nat, login: string, realms: map<nat, nat>)
    requires Invariant(c)
    ensures Invariant(Step(c, AskLogon(build, login), realms))
  {
    SendKeepsOrder(c, WrongBuild);
  }

  lemma ProofKeeps(c: Conn, e: Event, realms: map<nat, nat>)
    requires Invariant(c) && (e.ProveLogon? || e.ProveReconnect?)
    ensures Invariant(Step(c, e, realms))
  {
    var d := Step(c, e, realms);
    if e.ProveLogon? && c.state == NeedProof {
      if e.sent != e.computed {
        SendKeeps(c, d, NoMatch);
      } else {
        SendKeeps(c, d, LogonProof);
      }
    } else if e.ProveReconnect? && c.state == NeedRProof && e.sent == e.computed {
      SendKeeps(c, d, ReconnectProof);
    }
  }

  lemma IpBanKeeps(c: Conn, listed: bool, realms: map<nat, nat>)
    requires Invariant(c) && IpBan in c.asked
    ensures Invariant(Step(c, IpBanAnswer(listed), realms))
  {
    if listed {
      SendKeeps(c, Step(c, IpBanAnswer(listed), realms), Banned);
    }
  }

  lemma NotConnected(c: Conn)
    requires Invariant(c) && LogonPath(c)
    ensures c.state != Connected
  {
  }

  lemma AccountKeeps(c: Conn, rows: AccountRows, realms: map<nat, nat>)
    requires Invariant(c) && Account in c.asked
    ensures Invariant(Step(c, AccountAnswer(rows), realms))
  {
    hide Invariant;
    assert LogonPath(c);
    NotConnected(c);
    var d := Step(c, AccountAnswer(rows), realms);
    SendKeeps(c, d, d.queue[|c.queue|]);
  }

  lemma SessionKeyKeeps(c: Conn, found: bool, realms: map<nat, nat>)
    requires Invariant(c) && SessionKey in c.asked
    ensures Invariant(Step(c, SessionKeyAnswer(found), realms))
  {
    if !found {
      SendKeeps(c, Step(c, SessionKeyAnswer(found), realms), ReconnectChallenge);
    }
  }

  lemma AmountsKeep(c: Conn, rows: seq<(nat, nat)>, realms: map<nat, nat>)
    requires Invariant(c) && CharAmount in c.asked
    ensures Invariant(Step(c, CharAmountAnswer(rows), realms))
    ensures Step(c, CharAmountAnswer(rows), realms).state == Connected ==> c.state == Connected
  {
    hide BuildList;
    var d := Answered(c, CharAmount);
    AnsweredKeeps(c);
    if rows == [] {
      ListKeeps(d.(amounts := map[]), realms);
      AmountsFree(BuildList(d.(amounts := map[]), realms));
      var f := GotAmounts(d, map[], realms);
      AmountsFree(f);
      ListKeeps(f.(amounts := map[]), realms);
      AmountsFree(BuildList(f.(amounts := map[]), realms));
    } else {
      ListKeeps(d.(amounts := AmountsOf(rows)), realms);
      AmountsFree(BuildList(d.(amounts := AmountsOf(rows)), realms));
    }
  }

  lemma AnsweredKeeps(c: Conn)
    requires Invariant(c) && CharAmount in c.asked
    ensures Proven(c.queue)
    ensures forall m :: Invariant(Answered(c, CharAmount).(amounts := m))
  {
  }

  lemma AmountsFree(c: Conn)
    requires Invariant(c)
    ensures Invariant(c.(amounts := map[])) && Invariant(SetVs(c)) && Invariant(SetVs(c).(amounts := map[]))
  {
  }

  /** One event keeps the invariant, and never brings a connection back to its first state. */
  lemma StepKeeps(c: Conn, e: Event, realms: map<nat, nat>)
    requires Invariant(c) && Possible(c, e)
    ensures Invariant(Step(c, e, realms))
    ensures Step(c, e, realms).state == Connected ==> c.state == Connected
  {
    match e
    case AskLogon(build, login) => AskLogonKeeps(c, build, login, realms);
    case ProveLogon(_, _) => ProofKeeps(c, e, realms);
    case ProveReconnect(_, _) => ProofKeeps(c, e, realms);
    case IpBanAnswer(listed) => IpBanKeeps(c, listed, realms);
    case AccountAnswer(rows) => AccountKeeps(c, rows, realms);
    case SessionKeyAnswer(found) => SessionKeyKeeps(c, found, realms);
    case CharAmountAnswer(rows) => AmountsKeep(c, rows, realms);
    case AskRealmList =>
      if c.state == Authed && |c.amounts| > 0 {
        ListKeeps(c, realms);
      }
    case _ =>
  }

  // ---------------------------------------------------------------- whole runs

  lemma {:induction false} RunKeeps(c: Conn, events: seq<Event>, realms: map<nat, nat>)
    requires Invariant(c)
    ensures Invariant(Run(c, events, realms))
    ensures Run(c, events, realms).state == Connected ==> c.state == Connected
  {
    if events != [] {
      RunKeeps(c, events[..|events| - 1], realms);
      var d, e := Run(c, events[..|events| - 1], realms), events[|events| - 1];
      if Possible(d, e) {
        StepKeeps(d, e, realms);
      }
    }
  }

  /**
   Whatever the client sends and in whatever order the database answers: every realm list is queued
   after a proof was accepted, and no connection takes part in both the logon and the reconnect exchange.
   */
  lemma RealmListOnlyAfterProof(ip: string, events: seq<Event>, realms: map<nat, nat>, i: nat)
    requires i < |Run(Start(ip), events, realms).queue| && Run(Start(ip), events, realms).queue[i] == RealmList
    ensures var c := Run(Start(ip), events, realms);
      exists j :: 0 <= j < i && (c.queue[j] == LogonProof || c.queue[j] == ReconnectProof)
  {
    RunKeeps(Start(ip), events, realms);
    var c := Run(Start(ip), events, realms);
    assert Proven(c.queue[..i]);
  }

  lemma PathsNeverMix(ip: string, events: seq<Event>, realms: map<nat, nat>)
    ensures !(LogonPath(Run(Start(ip), events, realms)) && ReconnectPath(Run(Start(ip), events, realms)))
  {
    RunKeeps(Start(ip), events, realms);
  }

  /** The packets an event queues. */
  function Added(c: Conn, e: Event): seq<Packet> {
    match e
    case AskLogon(build, _) => if c.state == Connected && !Supported(build) then [WrongBuild] else []
    case ProveLogon(sent, computed) =>
      if c.state != NeedProof then []
      else if sent != computed then [NoMatch]
      else if Supported(c.build) then [LogonProof]
      else []
    case ProveReconnect(sent, computed) => if c.state == NeedRProof && sent == computed then [ReconnectProof] else []
    case AskRealmList => if c.state == Authed && |c.amounts| > 0 then Lists(c, 1) else []
    case IpBanAnswer(listed) => if listed then [Banned] else []
    case AccountAnswer(rows) =>
      if rows.NoRow? then [NoMatch]
      else if rows.active != 0 then [Banned]
      else if LockedElsewhere(rows, c.ip) then [Locked]
      else [LogonChallenge]
    case SessionKeyAnswer(found) => if found then [] else [ReconnectChallenge]
    case CharAmountAnswer(rows) => Lists(c, if rows == [] then 2 else 1)
    case _ => []
  }

  function Lists(c: Conn, n: nat): (q: seq<Packet>)
    ensures forall p :: p in q ==> p == RealmList
  {
    if Supported(c.build) then seq(n, _ => RealmList) else []
  }

  lemma BuildListQueue(c: Conn, realms: map<nat, nat>)
    ensures var d := BuildList(c, realms);
      d.ip == c.ip && d.build == c.build && d.queue == c.queue + Lists(c, 1)
  {
    assert seq(1, _ => RealmList) == [RealmList];
    assert c.queue + [] == c.queue;
  }

  lemma AmountsQueue(c: Conn, amounts: map<nat, nat>, realms: map<nat, nat>)
    ensures var d := GotAmounts(c, amounts, realms);
      d.ip == c.ip && d.build == c.build && d.queue == c.queue + Lists(c, 1)
  {
    BuildListQueue(c.(amounts := amounts), realms);
  }

  lemma StepQueue(c: Conn, e: Event, realms: map<nat, nat>)
    requires Possible(c, e)
    ensures Step(c, e, realms).queue == c.queue + Added(c, e) && Step(c, e, realms).ip == c.ip
  {
    hide BuildList, GotAmounts, Lists, Supported;
    assert c.queue + [] == c.queue;
    BuildListQueue(c, realms);
    if e.CharAmountAnswer? {
      var d := Answered(c, CharAmount);
      if e.amounts == [] {
        var f := GotAmounts(d, map[], realms);
        AmountsQueue(d, map[], realms);
        AmountsQueue(f, map[], realms);
        TwoLists(c, f, d);
      } else {
        AmountsQueue(d, AmountsOf(e.amounts), realms);
        SameLists(c, d);
      }
    }
  }

  lemma TwoLists(c: Conn, f: Conn, d: Conn)
    requires c.build == d.build == f.build
    ensures c.queue + Lists(d, 1) + Lists(f, 1) == c.queue + Lists(c, 2)
  {
  }

  lemma SameLists(c: Conn, d: Conn)
    requires c.build == d.build
    ensures Lists(c, 1) == Lists(d, 1)
  {
  }

  lemma StepEarns(c: Conn, e: Event, realms: map<nat, nat>)
    requires Possible(c, e)
    ensures c.queue <= Step(c, e, realms).queue
    ensures LogonProof in Step(c, e, realms).queue ==> LogonProof in c.queue || (e.ProveLogon? && e.sent == e.computed)
    ensures ReconnectProof in Step(c, e, realms).queue ==>
      ReconnectProof in c.queue || (e.ProveReconnect? && e.sent == e.computed)
  {
    hide Step, Lists;
    StepQueue(c, e, realms);
  }

  /** A packet that says a proof was accepted stands for a proof event that matched. */
  lemma {:induction false} ProofPacketsAreEarned(ip: string, events: seq<Event>, realms: map<nat, nat>)
    ensures LogonProof in Run(Start(ip), events, realms).queue ==>
      exists e :: e in events && e.ProveLogon? && e.sent == e.computed
    ensures ReconnectProof in Run(Start(ip), events, realms).queue ==>
      exists e :: e in events && e.ProveReconnect? && e.sent == e.computed
  {
    hide Step;
    if events != [] {
      ProofPacketsAreEarned(ip, events[..|events| - 1], realms);
      var d, e := Run(Start(ip), events[..|events| - 1], realms), events[|events| - 1];
      if Possible(d, e) {
        StepEarns(d, e, realms);
      }
    }
  }

  // ---------------------------------------------------------------- every event, by what it leads to

  lemma SupportedBuilds(build: nat)
    ensures Supported(build) <==> build in {5875, 8606, 9947, 10505}
  {
  }

  /** The answers of the database that leave the state alone. */
  predicate Quiet(c: Conn, e: Event) {
    e.IpBanAnswer? || e.AccountAnswer? || (e.CharAmountAnswer? && Supported(c.build))
  }

  /** Which events lead to each state; all others lead to the closing one. */
  lemma StatesExactly(c: Conn, e: Event, realms: map<nat, nat>)
    requires Possible(c, e)
    ensures var s := Step(c, e, realms).state;
      && (s == Connected <==> c.state == Connected && (Quiet(c, e) || (e.AskLogon? && !Supported(e.build))))
      && (s == NeedProof <==>
            || (c.state == Connected && e.AskLogon? && Supported(e.build))
            || (c.state == NeedProof && (Quiet(c, e) || (e.ProveLogon? && e.sent != e.computed))))
      && (s == NeedRProof <==>
            || e == SessionKeyAnswer(false)
            || (c.state == Connected && e.AskReconnect?) || (c.state == NeedRProof && Quiet(c, e)))
      && (s == Authed <==>
            || (c.state == NeedProof && e.ProveLogon? && e.sent == e.computed && Supported(c.build))
            || (c.state == NeedRProof && e.ProveReconnect? && e.sent == e.computed)
            || (c.state == Authed && (Quiet(c, e) || (e.AskRealmList? && (Supported(c.build) || |c.amounts| == 0)))))
  {
    hide AmountsOf, OnAccount, LockedElsewhere;
    AccountQuiet(c, e);
    if e.CharAmountAnswer? {
      hide Step, GotAmounts;
      AmountsState(c, e.amounts, realms);
    }
  }

  lemma AccountQuiet(c: Conn, e: Event)
    ensures e.AccountAnswer? ==> OnAccount(Answered(c, Account), e.rows).state == c.state
  {
  }

  lemma AmountsState(c: Conn, rows: seq<(nat, nat)>, realms: map<nat, nat>)
    requires CharAmount in c.asked
    ensures Step(c, CharAmountAnswer(rows), realms).state == if Supported(c.build) then c.state else Closing
  {
    hide AmountsOf;
  }

  /** Which events queue each packet. */
  lemma QueuesExactly(c: Conn, e: Event, realms: map<nat, nat>)
    requires Possible(c, e)
    ensures c.queue <= Step(c, e, realms).queue
    ensures var a := Step(c, e, realms).queue[|c.queue|..];
      && (WrongBuild in a <==> c.state == Connected && e.AskLogon? && !Supported(e.build))
      && (Banned in a <==> e == IpBanAnswer(true) || (e.AccountAnswer? && e.rows.Row? && e.rows.active != 0))
      && (NoMatch in a <==>
            e == AccountAnswer(NoRow) || (c.state == NeedProof && e.ProveLogon? && e.sent != e.computed))
      && (Locked in a <==>
            e.AccountAnswer? && e.rows.Row? && e.rows.active == 0 && e.rows.locked && e.rows.lastIp != c.ip)
      && (LogonChallenge in a <==>
            e.AccountAnswer? && e.rows.Row? && e.rows.active == 0 && (e.rows.locked ==> e.rows.lastIp == c.ip))
    ensures var a := Step(c, e, realms).queue[|c.queue|..];
      && (LogonProof in a <==>
            c.state == NeedProof && e.ProveLogon? && e.sent == e.computed && Supported(c.build))
      && (ReconnectChallenge in a <==> e == SessionKeyAnswer(false))
      && (ReconnectProof in a <==> c.state == NeedRProof && e.ProveReconnect? && e.sent == e.computed)
  {
    hide Step, Added;
    StepQueue(c, e, realms);
    assert Step(c, e, realms).queue[|c.queue|..] == Added(c, e);
    AnswersAdded(c, e);
    ProofsAdded(c, e);
  }

  lemma AnswersAdded(c: Conn, e: Event)
    ensures var a := Added(c, e);
      && (WrongBuild in a <==> c.state == Connected && e.AskLogon? && !Supported(e.build))
      && (Banned in a <==> e == IpBanAnswer(true) || (e.AccountAnswer? && e.rows.Row? && e.rows.active != 0))
      && (NoMatch in a <==>
            e == AccountAnswer(NoRow) || (c.state == NeedProof && e.ProveLogon? && e.sent != e.computed))
      && (Locked in a <==>
            e.AccountAnswer? && e.rows.Row? && e.rows.active == 0 && e.rows.locked && e.rows.lastIp != c.ip)
      && (LogonChallenge in a <==>
            e.AccountAnswer? && e.rows.Row? && e.rows.active == 0 && (e.rows.locked ==> e.rows.lastIp == c.ip))
  {
    hide Supported, Lists;
  }

  lemma ProofsAdded(c: Conn, e: Event)
    ensures var a := Added(c, e);
      && (LogonProof in a <==>
            c.state == NeedProof && e.ProveLogon? && e.sent == e.computed && Supported(c.build))
      && (ReconnectChallenge in a <==> e == SessionKeyAnswer(false))
      && (ReconnectProof in a <==> c.state == NeedRProof && e.ProveReconnect? && e.sent == e.computed)
  {
    hide Supported, Lists;
  }

  /** How many packets: one or none, but two lists for an answer without rows. */
  lemma ListsExactly(c: Conn, e: Event, realms: map<nat, nat>)
    requires Possible(c, e)
    ensures c.queue <= Step(c, e, realms).queue
    ensures var a := Step(c, e, realms).queue[|c.queue|..];
      if e.CharAmountAnswer? then
        a == if !Supported(c.build) then [] else if e.amounts == [] then [RealmList, RealmList] else [RealmList]
      else
        |a| <= 1 && (RealmList in a <==> Supported(c.build) && c.state == Authed && e.AskRealmList? && |c.amounts| > 0)
  {
    StepQueue(c, e, realms);
    assert Step(c, e, realms).queue[|c.queue|..] == Added(c, e);
    hide Step, Supported;
    assert seq(1, _ => RealmList) == [RealmList] && seq(2, _ => RealmList) == [RealmList, RealmList];
  }

  /** An account that exists and is not banned: locked, it is let in from its last address only. */
  lemma LockLetsIn(c: Conn, locked: bool, last: string, realms: map<nat, nat>)
    requires Account in c.asked
    ensures Step(c, AccountAnswer(Row(0, locked, last)), realms).queue
      == c.queue + [if locked && c.ip != last then Locked else LogonChallenge]
  {
  }

  /** Over every run: a challenge is for an account that is not banned, and if it is locked for its last address. */
  lemma {:induction false} ChallengedAtHome(ip: string, events: seq<Event>, realms: map<nat, nat>)
    requires LogonChallenge in Run(Start(ip), events, realms).queue
    ensures exists e ::
      e in events && e.AccountAnswer? && e.rows.Row? && e.rows.active == 0 && (e.rows.locked ==> e.rows.lastIp == ip)
  {
    hide Step, Possible;
    if events != [] {
      var before, e := events[..|events| - 1], events[|events| - 1];
      var c := Run(Start(ip), before, realms);
      ProofBehindChallenge(ip, before, realms);
      if LogonChallenge in c.queue {
        ChallengedAtHome(ip, before, realms);
      } else if Possible(c, e) {
        QueuesExactly(c, e, realms);
        var q := Step(c, e, realms).queue;
        var i :| 0 <= i < |q| && q[i] == LogonChallenge;
        assert i >= |c.queue| && q[|c.queue|..][i - |c.queue|] == LogonChallenge;
      }
    }
  }

  /** What the client said is kept exactly where it is asked for first; a logon appends to the name. */
  lemma NamesExactly(c: Conn, e: Event, realms: map<nat, nat>)
    requires Possible(c, e)
    ensures var d := Step(c, e, realms);
      && d.login == (if c.state == Connected && e.AskLogon? then c.login + e.login
           else if c.state == Connected && e.AskReconnect? then e.login else c.login)
      && d.build == (if c.state == Connected && (e.AskLogon? || e.AskReconnect?) then e.build else c.build)
      && d.ip == c.ip
  {
    hide AmountsOf, Supported, BuildList, GotAmounts, OnAccount;
    ListAsked(c, realms);
    if e.CharAmountAnswer? {
      var d := Answered(c, CharAmount);
      AmountsAsked(d, map[], realms);
      AmountsAsked(GotAmounts(d, map[], realms), map[], realms);
      AmountsAsked(d, AmountsOf(e.amounts), realms);
    } else if e.AccountAnswer? {
      AccountAsked(Answered(c, Account), e.rows);
    }
  }

  /** Which events ask which query, and which answer one; no other event touches what is asked. */
  lemma AskedExactly(c: Conn, e: Event, realms: map<nat, nat>)
    requires Possible(c, e)
    ensures var d := Step(c, e, realms).asked;
      match e
      case AskLogon(build, _) =>
        d == if c.state == Connected && Supported(build) then c.asked + multiset{IpBan} else c.asked
      case AskReconnect(_, _) => d == if c.state == Connected then c.asked + multiset{SessionKey} else c.asked
      case AskRealmList =>
        d == if c.state == Authed && |c.amounts| == 0 then c.asked + multiset{CharAmount} else c.asked
      case IpBanAnswer(listed) => d == c.asked - multiset{IpBan} + if listed then multiset{} else multiset{Account}
      case AccountAnswer(_) => d == c.asked - multiset{Account}
      case SessionKeyAnswer(_) => d == c.asked - multiset{SessionKey}
      case CharAmountAnswer(_) => d == c.asked - multiset{CharAmount}
      case _ => d == c.asked
  {
    hide AmountsOf, Supported, BuildList, GotAmounts, OnAccount;
    ListAsked(c, realms);
    if e.CharAmountAnswer? {
      var d := Answered(c, CharAmount);
      AmountsAsked(d, map[], realms);
      AmountsAsked(GotAmounts(d, map[], realms), map[], realms);
      AmountsAsked(d, AmountsOf(e.amounts), realms);
    } else if e.AccountAnswer? {
      AccountAsked(Answered(c, Account), e.rows);
    }
  }

  /** The same name, build and address, and the same queries asked. */
  predicate SameAsking(c: Conn, d: Conn) {
    d.login == c.login && d.build == c.build && d.ip == c.ip && d.asked == c.asked
  }

  lemma ListAsked(c: Conn, realms: map<nat, nat>)
    ensures SameAsking(c, BuildList(c, realms))
  {
  }

  lemma AmountsAsked(c: Conn, amounts: map<nat, nat>, realms: map<nat, nat>)
    ensures SameAsking(c, GotAmounts(c, amounts, realms))
  {
    ListAsked(c.(amounts := amounts), realms);
  }

  lemma AccountAsked(c: Conn, rows: AccountRows)
    ensures SameAsking(c, OnAccount(c, rows))
  {
  }

  /** The counts of an answer are those of its rows, the last row of a realm deciding. */
  lemma {:induction false} AmountsLast(rows: seq<(nat, nat)>, i: nat)
    requires i < |rows| && forall j :: i < j < |rows| ==> rows[j].0 != rows[i].0
    ensures rows[i].0 in AmountsOf(rows) && AmountsOf(rows)[rows[i].0] == rows[i].1
  {
    if i < |rows| - 1 {
      AmountsLast(rows[..|rows| - 1], i);
      assert rows[|rows| - 1].0 != rows[i].0;
    }
  }

  lemma {:induction false} AmountsKeys(rows: seq<(nat, nat)>, k: nat)
    ensures k in AmountsOf(rows) <==> exists i :: 0 <= i < |rows| && rows[i].0 == k
  {
    if rows != [] {
      var before := rows[..|rows| - 1];
      AmountsKeys(before, k);
      assert forall i :: 0 <= i < |before| ==> before[i] == rows[i];
    }
  }

  /** The later builds' list enters a zero for each of its realms without a count; no count changes. */
  lemma ListTouches(c: Conn, realms: map<nat, nat>, k: nat)
    ensures var d := BuildList(c, realms);
      && (k in d.amounts <==>
            k in c.amounts || (c.build in {8606, 9947, 10505} && k in realms && realms[k] == c.build))
      && (k in d.amounts ==> d.amounts[k] == if k in c.amounts then c.amounts[k] else 0)
  {
  }

  /** The command bytes on the wire. */
  lemma CommandsExactly(cmd: nat, build: nat, name: string, sent: seq<Byte>, computed: seq<Byte>)
    ensures Received(false, cmd, build, name, sent, computed) == RecvFailed
    ensures var e := Received(true, cmd, build, name, sent, computed);
      && (e == AskLogon(build, name) <==> cmd == 0x00)
      && (e == ProveLogon(sent, computed) <==> cmd == 0x01)
      && (e == AskReconnect(build, name) <==> cmd == 0x02)
      && (e == ProveReconnect(sent, computed) <==> cmd == 0x03)
      && (e == AskRealmList <==> cmd == 0x10)
      && (e == UnknownCommand <==> cmd !in {0x00, 0x01, 0x02, 0x03, 0x10})
  {
  }

  // ---------------------------------------------------------------- proofs and challenges

  /** The account was answered as existing, not banned and not locked to another address. */
  predicate Welcomed(c: Conn, e: Event) {
    Possible(c, e) && e.AccountAnswer? && e.rows.Row? && e.rows.active == 0 && !LockedElsewhere(e.rows, c.ip)
  }

  predicate EverWelcomed(ip: string, events: seq<Event>, realms: map<nat, nat>) {
    events != [] &&
      (EverWelcomed(ip, events[..|events| - 1], realms)
        || Welcomed(Run(Start(ip), events[..|events| - 1], realms), events[|events| - 1]))
  }

  /** A matching proof arrives while a proof is awaited although the account was not answered so yet. */
  predicate EarlyProof(ip: string, events: seq<Event>, realms: map<nat, nat>) {
    events != [] &&
      var before, e := events[..|events| - 1], events[|events| - 1];
      || EarlyProof(ip, before, realms)
      || (Run(Start(ip), before, realms).state == NeedProof && e.ProveLogon? && e.sent == e.computed
          && !EverWelcomed(ip, before, realms))
  }

  /** Every such proof packet stands behind such a challenge. */
  predicate InOrder(queue: seq<Packet>, proof: Packet, challenge: Packet) {
    forall i :: 0 <= i < |queue| && queue[i] == proof ==> challenge in queue[..i]
  }

  /** What one event does to the order: it never queues a proof and its challenge together. */
  lemma StepOrders(c: Conn, e: Event, realms: map<nat, nat>, proof: Packet, challenge: Packet)
    requires Possible(c, e) && (proof == LogonProof || proof == ReconnectProof) && challenge != proof
    ensures var d := Step(c, e, realms);
      && (challenge in d.queue <==> challenge in c.queue || challenge in Added(c, e))
      && (InOrder(d.queue, proof, challenge)
          <==> InOrder(c.queue, proof, challenge) && (proof in Added(c, e) ==> challenge in c.queue))
  {
    StepQueue(c, e, realms);
    hide Step, InOrder, Lists;
    if proof in Added(c, e) {
      assert Added(c, e) == [proof];
      OrderAppend(c.queue, proof, challenge);
    } else {
      OrderOthers(c.queue, Added(c, e), proof, challenge);
    }
  }

  lemma OrderOthers(q: seq<Packet>, a: seq<Packet>, proof: Packet, challenge: Packet)
    requires proof !in a
    ensures InOrder(q + a, proof, challenge) <==> InOrder(q, proof, challenge)
  {
    var r := q + a;
    assert forall i :: 0 <= i < |q| ==> r[..i] == q[..i] && r[i] == q[i];
  }

  lemma OrderAppend(q: seq<Packet>, proof: Packet, challenge: Packet)
    ensures InOrder(q + [proof], proof, challenge) <==> InOrder(q, proof, challenge) && challenge in q
  {
    var r := q + [proof];
    assert r[|q|] == proof && r[..|q|] == q;
    if InOrder(r, proof, challenge) {
      forall i | 0 <= i < |q| && q[i] == proof
        ensures challenge in q[..i]
      {
        assert r[i] == proof && r[..i] == q[..i];
      }
    } else {
      var i :| 0 <= i < |r| && r[i] == proof && challenge !in r[..i];
      assert i < |q| ==> r[..i] == q[..i];
    }
  }

  lemma LogonAdded(c: Conn, e: Event)
    requires Possible(c, e) && Invariant(c)
    ensures LogonChallenge in Added(c, e) <==> Welcomed(c, e)
    ensures LogonProof in Added(c, e) <==> c.state == NeedProof && e.ProveLogon? && e.sent == e.computed
  {
    hide Lists, Supported;
    if c.state == NeedProof {
      assert LogonPath(c);
    }
  }

  /**
   Over every run: an accepted proof stands behind a challenge exactly when no matching proof arrives
   before the account was answered as existing, not banned and not locked elsewhere. Waiting for a
   proof begins before that answer, and a ban or a lock does not end it.
   */
  lemma {:induction false} ProofBehindChallenge(ip: string, events: seq<Event>, realms: map<nat, nat>)
    ensures var c := Run(Start(ip), events, realms);
      && c.ip == ip && (LogonChallenge in c.queue <==> EverWelcomed(ip, events, realms))
      && (InOrder(c.queue, LogonProof, LogonChallenge) <==> !EarlyProof(ip, events, realms))
  {
    hide Step, InOrder, Possible, Added;
    if events == [] {
      NothingInOrder();
    } else {
      var before, e := events[..|events| - 1], events[|events| - 1];
      ProofBehindChallenge(ip, before, realms);
      RunKeeps(Start(ip), before, realms);
      var c := Run(Start(ip), before, realms);
      ProofsPossible(c, e);
      if Possible(c, e) {
        StepQueue(c, e, realms);
        StepOrders(c, e, realms, LogonProof, LogonChallenge);
        LogonAdded(c, e);
      }
    }
  }

  /** The session key query was answered without a row, which the observer reports as a key. */
  predicate KeyAnswered(c: Conn, e: Event) {
    Possible(c, e) && e == SessionKeyAnswer(false)
  }

  predicate EverKeyed(ip: string, events: seq<Event>, realms: map<nat, nat>) {
    events != [] &&
      (EverKeyed(ip, events[..|events| - 1], realms)
        || KeyAnswered(Run(Start(ip), events[..|events| - 1], realms), events[|events| - 1]))
  }

  predicate EarlyReconnect(ip: string, events: seq<Event>, realms: map<nat, nat>) {
    events != [] &&
      var before, e := events[..|events| - 1], events[|events| - 1];
      || EarlyReconnect(ip, before, realms)
      || (Run(Start(ip), before, realms).state == NeedRProof && e.ProveReconnect? && e.sent == e.computed
          && !EverKeyed(ip, before, realms))
  }

  lemma ReconnectAdded(c: Conn, e: Event)
    requires Possible(c, e)
    ensures ReconnectChallenge in Added(c, e) <==> KeyAnswered(c, e)
    ensures ReconnectProof in Added(c, e) <==> c.state == NeedRProof && e.ProveReconnect? && e.sent == e.computed
  {
    hide Lists;
  }

  /** The same for reconnects: exactly when no matching proof arrives before the session key query was answered. */
  lemma {:induction false} ReconnectBehindChallenge(ip: string, events: seq<Event>, realms: map<nat, nat>)
    ensures var c := Run(Start(ip), events, realms);
      && (ReconnectChallenge in c.queue <==> EverKeyed(ip, events, realms))
      && (InOrder(c.queue, ReconnectProof, ReconnectChallenge) <==> !EarlyReconnect(ip, events, realms))
  {
    hide Step, InOrder, Possible, Added;
    if events == [] {
      NothingInOrder();
    } else {
      var before, e := events[..|events| - 1], events[|events| - 1];
      ReconnectBehindChallenge(ip, before, realms);
      var c := Run(Start(ip), before, realms);
      ProofsPossible(c, e);
      if Possible(c, e) {
        StepOrders(c, e, realms, ReconnectProof, ReconnectChallenge);
        ReconnectAdded(c, e);
      }
    }
  }

  lemma NothingInOrder()
    ensures forall p, q :: InOrder([], p, q)
  {
  }

  lemma ProofsPossible(c: Conn, e: Event)
    ensures e.ProveLogon? || e.ProveReconnect? ==> Possible(c, e)
  {
  }

  /** The shortest such run: the address is banned, and a matching proof is accepted all the same. */
  lemma BannedYetAccepted(ip: string, build: nat, name: string, sent: seq<Byte>, computed: seq<Byte>,
        realms: map<nat, nat>)
    requires Supported(build)
    ensures Run(Start(ip), [AskLogon(build, name), IpBanAnswer(true), ProveLogon(sent, computed)], realms).queue
      == [Banned, if sent == computed then LogonProof else NoMatch]
  {
    hide Run, Step, Possible, Taken;
    var e0, e1, e2 := AskLogon(build, name), IpBanAnswer(true), ProveLogon(sent, computed);
    RunTwo(Start(ip), e0, e1, realms);
    RunAppend(Start(ip), [e0, e1], e2, realms);
    assert [e0, e1] + [e2] == [e0, e1, e2];
    AskedLogon(ip, build, name, realms);
    BanAnswered(Taken(Start(ip), e0, realms), realms);
    ProofCompared(Taken(Taken(Start(ip), e0, realms), e1, realms), sent, computed, realms);
  }

  /** And on the reconnect path: a matching proof is accepted before any key was looked up. */
  lemma ReconnectedUnasked(ip: string, build: nat, name: string, sent: seq<Byte>, computed: seq<Byte>,
        realms: map<nat, nat>)
    ensures Run(Start(ip), [AskReconnect(build, name), ProveReconnect(sent, computed)], realms).queue
      == if sent == computed then [ReconnectProof] else []
  {
    hide Run, Step, Possible, Taken;
    var e0, e1 := AskReconnect(build, name), ProveReconnect(sent, computed);
    RunTwo(Start(ip), e0, e1, realms);
    AskedReconnect(ip, build, name, realms);
    ReconnectCompared(Taken(Start(ip), e0, realms), sent, computed, realms);
  }

  lemma ReconnectCompared(c: Conn, sent: seq<Byte>, computed: seq<Byte>, realms: map<nat, nat>)
    requires c.state == NeedRProof
    ensures Taken(c, ProveReconnect(sent, computed), realms).queue ==
      c.queue + if sent == computed then [ReconnectProof] else []
  {
  }

  lemma AskedLogon(ip: string, build: nat, name: string, realms: map<nat, nat>)
    requires Supported(build)
    ensures var c := Taken(Start(ip), AskLogon(build, name), realms);
      c.state == NeedProof && c.build == build && c.queue == [] && IpBan in c.asked
  {
  }

  lemma BanAnswered(c: Conn, realms: map<nat, nat>)
    requires IpBan in c.asked
    ensures var d := Taken(c, IpBanAnswer(true), realms);
      d.state == c.state && d.build == c.build && d.queue == c.queue + [Banned]
  {
  }

  lemma ProofCompared(c: Conn, sent: seq<Byte>, computed: seq<Byte>, realms: map<nat, nat>)
    requires c.state == NeedProof && Supported(c.build)
    ensures Possible(c, ProveLogon(sent, computed))
    ensures Step(c, ProveLogon(sent, computed), realms).queue ==
      c.queue + [if sent == computed then LogonProof else NoMatch]
  {
  }

  /** Closing is left by exactly one kind of event: the answer to a session key query that found no row. */
  lemma LeavingClosing(c: Conn, e: Event, realms: map<nat, nat>)
    requires c.state == Closing && Possible(c, e)
    ensures Step(c, e, realms).state != Closing <==> e == SessionKeyAnswer(false)
  {
  }

  /** No row was found for the session key at some point of the run. */
  predicate EverReopened(c: Conn, events: seq<Event>, realms: map<nat, nat>) {
    events != [] &&
      (EverReopened(c, events[..|events| - 1], realms)
        || KeyAnswered(Run(c, events[..|events| - 1], realms), events[|events| - 1]))
  }

  ghost predicate AlwaysClosing(c: Conn, events: seq<Event>, realms: map<nat, nat>) {
    && Run(c, events, realms).state == Closing
    && (events != [] ==> AlwaysClosing(c, events[..|events| - 1], realms))
  }

  /** Over every run: a closing connection stays closing exactly when no such answer arrives. */
  lemma {:induction false} StaysClosing(c: Conn, events: seq<Event>, realms: map<nat, nat>)
    requires c.state == Closing
    ensures AlwaysClosing(c, events, realms) <==> !EverReopened(c, events, realms)
  {
    hide Step, Possible;
    if events != [] {
      var before, e := events[..|events| - 1], events[|events| - 1];
      StaysClosing(c, before, realms);
      var d := Run(c, before, realms);
      if d.state == Closing && Possible(d, e) {
        LeavingClosing(d, e, realms);
      }
    }
  }

  lemma ClosingIsLeft(ip: string, build: nat, name: string, realms: map<nat, nat>)
    ensures var events := [AskReconnect(build, name), UnknownCommand];
      Run(Start(ip), events, realms).state == Closing
      && Run(Start(ip), events + [SessionKeyAnswer(false)], realms).state == NeedRProof
  {
    hide Run, Step, Possible;
    var e0, e1, e2 := AskReconnect(build, name), UnknownCommand, SessionKeyAnswer(false);
    RunTwo(Start(ip), e0, e1, realms);
    RunAppend(Start(ip), [e0, e1], e2, realms);
    var c := Taken(Start(ip), e0, realms);
    assert c == Ask(Start(ip).(login := name, build := build), SessionKey).(state := NeedRProof) by {
      AskedReconnect(ip, build, name, realms);
    }
    assert Taken(c, e1, realms) == Die(c) by { Stopped(c, realms); }
    LeavesClosing(Die(c), realms);
  }

  /** The connection after an event, or as it was where the event is not possible. */
  function Taken(c: Conn, e: Event, realms: map<nat, nat>): Conn {
    if Possible(c, e) then Step(c, e, realms) else c
  }

  lemma RunTwo(c: Conn, e0: Event, e1: Event, realms: map<nat, nat>)
    ensures Run(c, [e0, e1], realms) == Taken(Taken(c, e0, realms), e1, realms)
  {
    hide Step, Possible;
    RunAppend(c, [], e0, realms);
    RunAppend(c, [e0], e1, realms);
    assert [] + [e0] == [e0] && [e0] + [e1] == [e0, e1];
    assert Run(c, [], realms) == c;
  }

  lemma AskedReconnect(ip: string, build: nat, name: string, realms: map<nat, nat>)
    ensures Taken(Start(ip), AskReconnect(build, name), realms)
      == Ask(Start(ip).(login := name, build := build), SessionKey).(state := NeedRProof)
  {
  }

  lemma Stopped(c: Conn, realms: map<nat, nat>)
    ensures Taken(c, UnknownCommand, realms) == Die(c)
  {
  }

  lemma LeavesClosing(c: Conn, realms: map<nat, nat>)
    requires SessionKey in c.asked
    ensures Taken(c, SessionKeyAnswer(false), realms).state == NeedRProof
  {
  }

  lemma RunAppend(c: Conn, events: seq<Event>, e: Event, realms: map<nat, nat>)
    ensures var d := Run(c, events, realms);
      Run(c, events + [e], realms) == if Possible(d, e) then Step(d, e, realms) else d
  {
    assert (events + [e])[..|events|] == events;
  }

  /** So many times are salt and verifier also stored anew, on a session that is past its proof. */
  lemma VerifierRewritten(c: Conn, rows: seq<(nat, nat)>, realms: map<nat, nat>)
    requires CharAmount in c.asked && Supported(c.build)
    ensures Step(c, CharAmountAnswer(rows), realms).rewritten == c.rewritten + (if rows == [] then 2 else 1)
  {
  }

  /** The lists of a run that were sent from counts already known, without asking. */
  function ListsFromKnown(ip: string, events: seq<Event>, realms: map<nat, nat>): nat {
    if events == [] then 0
    else
      var before, e := events[..|events| - 1], events[|events| - 1];
      ListsFromKnown(ip, before, realms)
        + if e.AskRealmList? then |Added(Run(Start(ip), before, realms), e)| else 0
  }

  /** How many of the packets are logon challenges or realm lists. */
  function ChallengesAndLists(q: seq<Packet>): nat {
    multiset(q)[LogonChallenge] + multiset(q)[RealmList]
  }

  lemma CountAppend(q: seq<Packet>, a: seq<Packet>)
    ensures ChallengesAndLists(q + a) == ChallengesAndLists(q) + ChallengesAndLists(a)
    ensures ChallengesAndLists([]) == 0
  {
    assert multiset(q + a) == multiset(q) + multiset(a);
  }

  lemma CountOne(p: Packet)
    ensures ChallengesAndLists([p]) == if p == LogonChallenge || p == RealmList then 1 else 0
  {
  }

  /** Over every run: each challenge and each list stands for one rewriting, but for the lists sent without asking. */
  lemma {:induction false} RewritingsCounted(ip: string, events: seq<Event>, realms: map<nat, nat>)
    ensures var c := Run(Start(ip), events, realms);
      c.rewritten + ListsFromKnown(ip, events, realms) == ChallengesAndLists(c.queue)
  {
    hide Step, Possible, Added, ChallengesAndLists;
    if events == [] {
      CountAppend([], []);
    } else {
      var before, e := events[..|events| - 1], events[|events| - 1];
      RewritingsCounted(ip, before, realms);
      var c := Run(Start(ip), before, realms);
      AskPossible(c, e);
      if Possible(c, e) {
        StepQueue(c, e, realms);
        StepRewrites(c, e, realms);
        CountAppend(c.queue, Added(c, e));
      }
    }
  }

  lemma AskPossible(c: Conn, e: Event)
    ensures e.AskRealmList? ==> Possible(c, e)
  {
  }

  lemma StepRewrites(c: Conn, e: Event, realms: map<nat, nat>)
    requires Possible(c, e)
    ensures Step(c, e, realms).rewritten + (if e.AskRealmList? then |Added(c, e)| else 0)
      == c.rewritten + ChallengesAndLists(Added(c, e))
  {
    hide Supported, Lists, AmountsOf, BuildList, GotAmounts, ChallengesAndLists, LockedElsewhere;
    ListsCounted(c, 1);
    ListsCounted(c, 2);
    CountAppend([], []);
    if e.CharAmountAnswer? {
      AmountsRewrite(c, e.amounts, realms);
    } else if e.AskRealmList? {
      ListRewritesNothing(c, realms);
    } else if |Added(c, e)| == 1 {
      CountOne(Added(c, e)[0]);
      assert Added(c, e) == [Added(c, e)[0]];
    }
  }

  lemma ListsCounted(c: Conn, n: nat)
    requires n <= 2
    ensures ChallengesAndLists(Lists(c, n)) == |Lists(c, n)| == if Supported(c.build) then n else 0
  {
    assert seq(0, _ => RealmList) == [] && seq(1, _ => RealmList) == [RealmList];
    assert seq(2, _ => RealmList) == [RealmList, RealmList];
  }

  lemma ListRewritesNothing(c: Conn, realms: map<nat, nat>)
    ensures BuildList(c, realms).rewritten == c.rewritten
  {
  }

  lemma AmountsRewrite(c: Conn, rows: seq<(nat, nat)>, realms: map<nat, nat>)
    requires CharAmount in c.asked
    ensures Step(c, CharAmountAnswer(rows), realms).rewritten == c.rewritten
      + if !Supported(c.build) then 0 else if rows == [] then 2 else 1
  {
    if Supported(c.build) {
      VerifierRewritten(c, rows, realms);
    }
  }

  /** The answer to a character count query queues one realm list, or two when it has no rows. */
  lemma ListsPerAnswer(c: Conn, rows: seq<(nat, nat)>, realms: map<nat, nat>)
    requires CharAmount in c.asked && Supported(c.build)
    ensures Step(c, CharAmountAnswer(rows), realms).queue ==
      c.queue + if rows == [] then [RealmList, RealmList] else [RealmList]
  {
  }

  // ---------------------------------------------------------------- the connection object

  class RealmSocket {
    const realms: map<nat, nat>
    var state: State
    var clientBuild: nat
    var login: string
    const ip: string
    var acctLocked: bool
    var acctLastIp: string
    var realmCharAmount: map<nat, nat>
    /** Every packet handed to the output queue so far. */
    var packetQueue: seq<Packet>
    ghost var asked: multiset<Query>
    var rewritten: nat

    ghost function Abs(): Conn
      reads this
    {
      Conn(state, clientBuild, login, ip, realmCharAmount, packetQueue, asked, rewritten)
    }

    constructor (realms: map<nat, nat>, ip: string)
      ensures Abs() == Start(ip) && this.realms == realms
    {
      this.realms, this.ip := realms, ip;
      acctLocked, acctLastIp, rewritten := false, "", 0;
      state, clientBuild, login, realmCharAmount, packetQueue := Connected, 0, "", map[], [];
      asked := multiset{};
    }

    method DieNow()
      modifies this`state
      ensures Abs() == Die(old(Abs()))
    {
      state := Closing;
    }

    method SendPacket(p: Packet)
      modifies this`packetQueue
      ensures Abs() == Send(old(Abs()), p)
    {
      packetQueue := packetQueue + [p];
    }

    /** Commands read from the wire: 0 to 3 and 16, with the fields the handler looks at. */
    method HandleInput(received: bool, cmd: nat, build: nat, name: string, sent: seq<Byte>, computed: seq<Byte>)
      modifies this
      ensures Abs() == Step(old(Abs()), Received(received, cmd, build, name, sent, computed), realms)
    {
      if state == Closing || !received {
        DieNow();
        return;
      }
      match cmd
      case 0 => HandleAuthLogonChallenge(build, name);
      case 1 => HandleAuthLogonProof(sent, computed);
      case 2 => HandleAuthReconnectChallenge(build, name);
      case 3 => HandleAuthReconnectProof(sent, computed);
      case 16 => HandleRealmList();
      case _ => DieNow();
    }

    method HandleAuthLogonChallenge(build: nat, name: string)
      modifies this
      ensures Abs() == Step(old(Abs()), AskLogon(build, name), realms)
    {
      if state != Connected {
        DieNow();
        return;
      }
      login := login + name;
      clientBuild := build;
      if !Supported(clientBuild) {
        SendPacket(WrongBuild);
        return;
      }
      asked := asked + multiset{IpBan};
      state := NeedProof;
    }

    method HandleAuthLogonProof(sent: seq<Byte>, computed: seq<Byte>)
      modifies this
      ensures Abs() == Step(old(Abs()), ProveLogon(sent, computed), realms)
    {
      if state != NeedProof {
        DieNow();
        return;
      }
      if sent == computed {
        if !Supported(clientBuild) {
          DieNow();
          return;
        }
        SendPacket(LogonProof);
        state := Authed;
      } else {
        AccountChecked(AccountNotFound);
      }
    }

    method HandleAuthReconnectChallenge(build: nat, name: string)
      modifies this
      ensures Abs() == Step(old(Abs()), AskReconnect(build, name), realms)
    {
      if state != Connected {
        DieNow();
        return;
      }
      clientBuild := build;
      login := name;
      asked := asked + multiset{SessionKey};
      state := NeedRProof;
    }

    method HandleAuthReconnectProof(sent: seq<Byte>, computed: seq<Byte>)
      modifies this
      ensures Abs() == Step(old(Abs()), ProveReconnect(sent, computed), realms)
    {
      if state != NeedRProof {
        DieNow();
        return;
      }
      if sent == computed {
        SendPacket(ReconnectProof);
        state := Authed;
      } else {
        DieNow();
      }
    }

    method HandleRealmList()
      modifies this
      ensures Abs() == Step(old(Abs()), AskRealmList, realms)
    {
      if state != Authed {
        DieNow();
        return;
      }
      if |realmCharAmount| > 0 {
        SendRealmList();
      } else {
        asked := asked + multiset{CharAmount};
      }
    }

    method SendRealmList()
      modifies this`realmCharAmount, this`packetQueue, this`state
      ensures Abs() == BuildList(old(Abs()), realms)
    {
      if Classic(clientBuild) {
        SendPacket(RealmList);
      } else if Expansion(clientBuild) {
        realmCharAmount := (map r | r in realms && realms[r] == clientBuild :: 0) + realmCharAmount;
        SendPacket(RealmList);
      } else {
        DieNow();
      }
    }

    method AccountChecked(account: AccountState)
      modifies this`packetQueue, this`rewritten
      ensures Abs() == OnAccount(old(Abs()),
        match account
        case AccountBanned => Row(1, acctLocked, acctLastIp)
        case AccountNotFound => NoRow
        case AccountExists => Row(0, acctLocked, acctLastIp))
    {
      match account
      case AccountBanned => SendPacket(Banned);
      case AccountNotFound => SendPacket(NoMatch);
      case AccountExists =>
        if acctLocked {
          if ip != acctLastIp {
            SendPacket(Locked);
            return;
          }
        }
        rewritten := rewritten + 1;
        SendPacket(LogonChallenge);
    }

    method GetCharAmount(amounts: map<nat, nat>)
      modifies this`realmCharAmount, this`packetQueue, this`rewritten, this`state
      ensures Abs() == GotAmounts(old(Abs()), amounts, realms)
    {
      realmCharAmount := amounts;
      var known := Supported(clientBuild);
      SendRealmList();
      if known {
        rewritten := rewritten + 1;
      }
    }

    method GetSessionkey(ok: bool)
      modifies this`state, this`packetQueue
      ensures Abs() == if ok then Send(old(Abs()), ReconnectChallenge).(state := NeedRProof) else Die(old(Abs()))
    {
      if !ok {
        DieNow();
        return;
      }
      SendPacket(ReconnectChallenge);
      state := NeedRProof;
    }

    /** The database answers; each observer turns its rows into a callback. */
    method Answer(e: Event)
      requires e.IpBanAnswer? || e.AccountAnswer? || e.SessionKeyAnswer? || e.CharAmountAnswer?
      requires Possible(Abs(), e)
      modifies this
      ensures Abs() == Step(old(Abs()), e, realms)
    {
      hide GotAmounts, OnAccount, AmountsOf;
      BannedAnswer(acctLocked, acctLastIp);
      match e
      case IpBanAnswer(listed) =>
        asked := asked - multiset{IpBan};
        if listed {
          AccountChecked(AccountBanned);
        } else {
          asked := asked + multiset{Account};
        }
      case AccountAnswer(rows) =>
        asked := asked - multiset{Account};
        AnswerAccount(rows);
      case SessionKeyAnswer(found) =>
        asked := asked - multiset{SessionKey};
        GetSessionkey(!found);
      case CharAmountAnswer(rows) =>
        asked := asked - multiset{CharAmount};
        AnswerAmounts(rows);
    }

    /** A row with an active ban is banned; otherwise its lock and last address are taken over. */
    method AnswerAccount(rows: AccountRows)
      modifies this`acctLocked, this`acctLastIp, this`packetQueue, this`rewritten
      ensures Abs() == OnAccount(old(Abs()), rows)
    {
      if rows.NoRow? {
        AccountChecked(AccountNotFound);
      } else if rows.active != 0 {
        AccountChecked(AccountBanned);
      } else {
        acctLocked, acctLastIp := rows.locked, rows.lastIp;
        AccountChecked(AccountExists);
      }
    }

    method AnswerAmounts(rows: seq<(nat, nat)>)
      modifies this`realmCharAmount, this`packetQueue, this`rewritten, this`state
      ensures var c := old(Abs());
        Abs() == if rows == [] then GotAmounts(GotAmounts(c, map[], realms), map[], realms)
          else GotAmounts(c, AmountsOf(rows), realms)
    {
      hide GotAmounts;
      var amounts: map<nat, nat> := map[];
      if |rows| == 0 {
        GetCharAmount(amounts);
      }
      for i := 0 to |rows|
        invariant amounts == AmountsOf(rows[..i])
        modifies {}
      {
        assert rows[..i + 1][..i] == rows[..i];
        amounts := amounts[rows[i].0 := rows[i].1];
      }
      assert rows[..|rows|] == rows;
      GetCharAmount(amounts);
    }
  }

  lemma BannedAnswer(locked: bool, lastIp: string)
    ensures forall c :: OnAccount(c, Row(1, locked, lastIp)) == Send(c, Banned)
  {
  }

  function Received(received: bool, cmd: nat, build: nat, name: string, sent: seq<Byte>, computed: seq<Byte>): Event {
    if !received then RecvFailed
    else if cmd == 0 then AskLogon(build, name)
    else if cmd == 1 then ProveLogon(sent, computed)
    else if cmd == 2 then AskReconnect(build, name)
    else if cmd == 3 then ProveReconnect(sent, computed)
    else if cmd == 16 then AskRealmList
    else UnknownCommand
  }
}

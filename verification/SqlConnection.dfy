/** A connection with real commit and rollback, its prepared statements, and what running requests on it does. */
module SqlConnection {
  import opened SqlParameters
  import opened Wrappers

  /** The database behind the connection: how many parameters a statement has, and what running it does. */
  datatype Driver<!D> = Driver(arity: nat -> nat, run: (nat, map<nat, Param>, D) -> Option<D>)

  /**
   What this connection sees, what other connections see, whether autocommit is on, what the
   connection object says about it, and the parameters that are set, statement by statement.
   */
  datatype Conn<D> = Conn(db: D, committed: D, mode: bool, flag: bool, bound: seq<map<nat, Param>>)

  datatype Request = Request(statement: nat, cells: seq<Cell>)

  /** Switching autocommit on commits. */
  function SetMode<D>(c: Conn<D>, on: bool): Conn<D> {
    c.(mode := on, flag := on, committed := if on then c.db else c.committed)
  }

  function RolledBack<D>(c: Conn<D>): Conn<D> {
    c.(db := c.committed)
  }

  function Committed<D>(c: Conn<D>): Conn<D> {
    c.(committed := c.db)
  }

  function WithParameter<D>(c: Conn<D>, stmt: nat, index: nat, p: Param): (r: Conn<D>)
    requires stmt < |c.bound|
    ensures |r.bound| == |c.bound|
  {
    var m: map<nat, Param> := c.bound[stmt][index := p];
    c.(bound := c.bound[stmt := m])
  }

  function Ran<D>(d: Driver<D>, c: Conn<D>, stmt: nat): (r: (Conn<D>, bool))
    requires stmt < |c.bound|
    ensures |r.0.bound| == |c.bound|
  {
    match d.run(stmt, c.bound[stmt], c.db)
    case None => (c, false)
    case Some(x) => (c.(db := x, committed := if c.mode then x else c.committed), true)
  }

  function Cleared<D>(c: Conn<D>, stmt: nat): (r: Conn<D>)
    requires stmt < |c.bound|
    ensures |r.bound| == |c.bound|
  {
    c.(bound := c.bound[stmt := map[]])
  }

  // ---------------------------------------------------------------- one request

  function WithParameters<D>(c: Conn<D>, stmt: nat, cells: seq<Cell>, n: nat): (r: Conn<D>)
    requires stmt < |c.bound| && n <= |cells|
    ensures r == c.(bound := r.bound) && |r.bound| == |c.bound|
  {
    if n == 0 then c else WithParameter(WithParameters(c, stmt, cells, n - 1), stmt, n, Bind(cells[n - 1]))
  }

  /**
   A parameter the statement does not have ends the request, and so does a failing run; the parameters
   then stay set.
   */
  function Executed<D>(d: Driver<D>, c: Conn<D>, r: Request): (e: (Conn<D>, bool))
    requires r.statement < |c.bound|
    ensures |e.0.bound| == |c.bound|
  {
    if |r.cells| > d.arity(r.statement) then (WithParameters(c, r.statement, r.cells, d.arity(r.statement)), false)
    else
      var (c1, ok) := Ran(d, WithParameters(c, r.statement, r.cells, |r.cells|), r.statement);
      if ok then (Cleared(c1, r.statement), true) else (c1, false)
  }

  /** Position k carries element k - 1, and nothing else is set. */
  function Own(cells: seq<Cell>): (m: map<nat, Param>)
    ensures forall k: nat :: k in m <==> 1 <= k <= |cells|
    ensures forall k: nat :: k in m ==> m[k] == Bind(cells[k - 1])
  {
    if cells == [] then map[]
    else
      var before := Own(cells[..|cells| - 1]);
      before[|cells| := Bind(cells[|cells| - 1])]
  }

  lemma OwnNext(left: map<nat, Param>, cells: seq<Cell>, n: nat)
    requires 0 < n <= |cells|
    ensures (left + Own(cells[..n - 1]))[n := Bind(cells[n - 1])] == left + Own(cells[..n])
  {
    hide Bind;
    assert cells[..n][..n - 1] == cells[..n - 1];
    assert Own(cells[..n]) == Own(cells[..n - 1])[n := Bind(cells[n - 1])];
  }

  lemma {:induction false} ParametersSet<D>(c: Conn<D>, stmt: nat, cells: seq<Cell>, n: nat)
    requires stmt < |c.bound| && n <= |cells|
    ensures WithParameters(c, stmt, cells, n).bound == c.bound[stmt := c.bound[stmt] + Own(cells[..n])]
  {
    hide Bind;
    if n == 0 {
      assert c.bound[stmt] + Own(cells[..0]) == c.bound[stmt];
    } else {
      ParametersSet(c, stmt, cells, n - 1);
      OwnNext(c.bound[stmt], cells, n);
    }
  }

  /** A request runs with its own parameters and no others exactly when it gives every position that is still set. */
  lemma OwnParametersOnly<D>(c: Conn<D>, r: Request)
    requires r.statement < |c.bound|
    ensures WithParameters(c, r.statement, r.cells, |r.cells|).bound[r.statement] == Own(r.cells)
      <==> forall k :: k in c.bound[r.statement] ==> 1 <= k <= |r.cells|
  {
    hide Bind;
    ParametersSet(c, r.statement, r.cells, |r.cells|);
    var left, own := c.bound[r.statement], Own(r.cells);
    assert r.cells[..|r.cells|] == r.cells;
    if k :| k in left && !(1 <= k <= |r.cells|) {
      assert k in left + own && k !in own;
    } else {
      assert left + own == own;
    }
  }

  // ---------------------------------------------------------------- what a request means

  /** The database and the parameters that are set on the statements, apart from who sees what. */
  datatype Bench<D> = Bench(db: D, bound: seq<map<nat, Param>>)

  function BenchOf<D>(c: Conn<D>): Bench<D> {
    Bench(c.db, c.bound)
  }

  /** What a request gives covers what is set already; a failing request leaves the database and what it set. */
  function Effect<D>(d: Driver<D>, x: Bench<D>, r: Request): (e: (Bench<D>, bool))
    requires r.statement < |x.bound|
    ensures |e.0.bound| == |x.bound| && (!e.1 ==> e.0.db == x.db)
  {
    var s, n := r.statement, d.arity(r.statement);
    var given := if |r.cells| > n then r.cells[..n] else r.cells;
    var now := x.bound[s] + Own(given);
    if |r.cells| > n then (Bench(x.db, x.bound[s := now]), false)
    else
      match d.run(s, now, x.db)
      case None => (Bench(x.db, x.bound[s := now]), false)
      case Some(y) => (Bench(y, x.bound[s := map[]]), true)
  }

  /** A request does just that on every connection; others see it at once exactly when autocommit is on. */
  lemma ExecutedIsEffect<D>(d: Driver<D>, c: Conn<D>, r: Request)
    requires r.statement < |c.bound|
    ensures var (e, ok) := Executed(d, c, r);
      && (BenchOf(e), ok) == Effect(d, BenchOf(c), r) && e.mode == c.mode && e.flag == c.flag
      && e.committed == (if ok && c.mode then e.db else c.committed)
  {
    hide Bind, WithParameters;
    var s, n := r.statement, d.arity(r.statement);
    var m := if |r.cells| > n then n else |r.cells|;
    ParametersSet(c, s, r.cells, m);
    var w := WithParameters(c, s, r.cells, m);
    assert r.cells[..|r.cells|] == r.cells;
    assert w.bound[s := map[]] == c.bound[s := map[]];
  }

  /**
   A request succeeds exactly when the statement has all its parameters and runs; then it ran with its
   own parameters over those left set, and none is set any more. Otherwise the database stays, and what
   was given is set.
   */
  lemma ExecutedExactly<D>(d: Driver<D>, c: Conn<D>, r: Request)
    requires r.statement < |c.bound|
    ensures var (e, ok) := Executed(d, c, r);
      var s, n := r.statement, d.arity(r.statement);
      && (ok <==> |r.cells| <= n && d.run(s, c.bound[s] + Own(r.cells), c.db).Some?)
      && (ok ==> Some(e.db) == d.run(s, c.bound[s] + Own(r.cells), c.db) && e.bound[s] == map[])
      && (!ok ==> e.db == c.db && e.committed == c.committed)
      && (!ok ==> e.bound[s] == c.bound[s] + Own(if |r.cells| > n then r.cells[..n] else r.cells))
      && (forall t :: 0 <= t < |c.bound| && t != s ==> e.bound[t] == c.bound[t])
  {
    hide Executed, Own, Bind;
    ExecutedIsEffect(d, c, r);
  }

  ghost predicate Within<D(!new)>(d: Driver<D>, bound: seq<map<nat, Param>>) {
    forall s :: 0 <= s < |bound| ==> forall k :: k in bound[s] ==> 1 <= k <= d.arity(s)
  }

  /** A request that gives all positions is not touched by what failed requests left set. */
  lemma LeftoversCovered<D(!new)>(d: Driver<D>, x: Bench<D>, r: Request)
    requires r.statement < |x.bound| && Within(d, x.bound)
    ensures Within(d, Effect(d, x, r).0.bound)
    ensures |r.cells| == d.arity(r.statement) ==>
      Effect(d, x, r).1 == d.run(r.statement, Own(r.cells), x.db).Some?
      && (Effect(d, x, r).1 ==> Effect(d, x, r).0.db == d.run(r.statement, Own(r.cells), x.db).value)
  {
    hide Bind;
    var s, y := r.statement, Effect(d, x, r).0;
    forall t, k | 0 <= t < |y.bound| && k in y.bound[t]
      ensures 1 <= k <= d.arity(t)
    {
      assert t != s ==> y.bound[t] == x.bound[t];
    }
    if |r.cells| == d.arity(s) {
      assert x.bound[s] + Own(r.cells) == Own(r.cells);
    }
  }

  /** A run that succeeds counts the parameters that are set; a first parameter that is true makes it fail. */
  function Counting(stmt: nat, m: map<nat, Param>, db: nat): Option<nat> {
    if 1 in m && m[1] == SetBool(true) then None else Some(|m|)
  }

  /** The second parameter of a failed request takes part in the next request, which gave one only. */
  lemma LeftoverTakesPart()
    ensures var d := Driver(_ => 2, Counting);
      var yes, no := Cell(Boolean(true), false, ""), Cell(Boolean(false), false, "");
      var (c, ok) := Executed(d, Conn(0, 0, true, false, [map[]]), Request(0, [yes, no]));
      !ok && Executed(d, c, Request(0, [no])).0.db == 2
      && Executed(d, Conn(0, 0, true, false, [map[]]), Request(0, [no])).0.db == 1
  {
    hide Executed, Effect;
    var d := Driver(_ => 2, Counting);
    var yes, no := Cell(Boolean(true), false, ""), Cell(Boolean(false), false, "");
    var c := Conn(0, 0, true, false, [map[]]);
    ExecutedIsEffect(d, c, Request(0, [yes, no]));
    ExecutedIsEffect(d, Executed(d, c, Request(0, [yes, no])).0, Request(0, [no]));
    ExecutedIsEffect(d, c, Request(0, [no]));
    EffectCounts(d, [yes, no], no);
  }

  lemma EffectCounts(d: Driver<nat>, failing: seq<Cell>, c: Cell)
    requires d == Driver(_ => 2, Counting) && |failing| == 2
    requires Bind(failing[0]) == SetBool(true) && Bind(c) == SetBool(false)
    ensures var (x, ok) := Effect(d, Bench(0, [map[]]), Request(0, failing));
      !ok && Effect(d, x, Request(0, [c])).0.db == 2 && Effect(d, Bench(0, [map[]]), Request(0, [c])).0.db == 1
  {
    var none: map<nat, Param> := map[];
    var one, two := Own([c]), Own(failing);
    assert none + two == two && none + one == one;
    OwnOne(c);
    OwnTwo(failing);
    OneOverTwo(one, two);
    hide Own, Bind, Effect;
    EffectOf(d, none, failing);
    EffectOf(d, two, [c]);
    EffectOf(d, none, [c]);
  }

  /** An effect on a connection with one statement, whose parameters are covered by what is given. */
  lemma EffectOf(d: Driver<nat>, left: map<nat, Param>, cells: seq<Cell>)
    requires d == Driver(_ => 2, Counting) && |cells| <= 2
    ensures Effect(d, Bench(0, [left]), Request(0, cells)) ==
      match Counting(0, left + Own(cells), 0)
      case None => (Bench(0, [left + Own(cells)]), false)
      case Some(n) => (Bench(n, [map[]]), true)
  {
    hide Counting;
    assert forall m: map<nat, Param> :: [left][0 := m] == [m];
  }

  lemma OwnOne(c: Cell)
    ensures |Own([c])| == 1 && Own([c])[1] == Bind(c)
  {
    assert Own([c]) == map[1 := Bind(c)];
  }

  lemma OwnTwo(cells: seq<Cell>)
    requires |cells| == 2
    ensures |Own(cells)| == 2 && Own(cells)[1] == Bind(cells[0])
  {
    assert Own(cells) == map[1 := Bind(cells[0]), 2 := Bind(cells[1])];
  }

  lemma OneOverTwo(one: map<nat, Param>, two: map<nat, Param>)
    requires (forall k: nat :: k in one <==> k == 1) && (forall k: nat :: k in two <==> 1 <= k <= 2)
    ensures |two + one| == 2 && (two + one)[1] == one[1]
  {
    assert two + one == map[1 := one[1], 2 := two[2]];
  }

  // ---------------------------------------------------------------- a transaction

  /**
   The requests in order, up to and including the first that fails: the connection, how many succeeded,
   whether all did.
   */
  function RunAll<D>(d: Driver<D>, c: Conn<D>, rs: seq<Request>): (r: (Conn<D>, nat, bool))
    requires forall q :: q in rs ==> q.statement < |c.bound|
    ensures r.1 <= |rs| && |r.0.bound| == |c.bound| && (r.2 <==> r.1 == |rs|)
    decreases |rs|
  {
    if rs == [] then (c, 0, true)
    else
      var (c1, ok) := Executed(d, c, rs[0]);
      if !ok then (c1, 0, false)
      else
        var (c2, n, all) := RunAll(d, c1, rs[1..]);
        (c2, n + 1, all)
  }

  function Called<D>(d: Driver<D>, c: Conn<D>, rs: seq<Request>): (r: (Conn<D>, nat, bool))
    requires forall q :: q in rs ==> q.statement < |c.bound|
    ensures r.1 <= |rs| && |r.0.bound| == |c.bound|
  {
    var (c1, n, all) := RunAll(d, SetMode(c, false), rs);
    (if all then Committed(c1) else RolledBack(c1), n, all)
  }

  /** The requests applied in order, up to the first that fails. */
  function AllEffects<D>(d: Driver<D>, x: Bench<D>, rs: seq<Request>): (r: (Bench<D>, nat, bool))
    requires forall q :: q in rs ==> q.statement < |x.bound|
    ensures r.1 <= |rs| && |r.0.bound| == |x.bound| && (r.2 <==> r.1 == |rs|)
    decreases |rs|
  {
    if rs == [] then (x, 0, true)
    else
      var (y, ok) := Effect(d, x, rs[0]);
      if !ok then (y, 0, false)
      else
        var (z, n, all) := AllEffects(d, y, rs[1..]);
        (z, n + 1, all)
  }

  /** Requests take effect one after the other: what comes behind some that succeed starts from what they left. */
  lemma {:induction false} EffectsInOrder<D>(d: Driver<D>, x: Bench<D>, a: seq<Request>, b: seq<Request>)
    requires forall q :: q in a + b ==> q.statement < |x.bound|
    ensures (forall q :: q in a ==> q.statement < |x.bound|) && (forall q :: q in b ==> q.statement < |x.bound|)
    ensures var (y, n, ok) := AllEffects(d, x, a);
      if ok then
        var (z, m, all) := AllEffects(d, y, b);
        AllEffects(d, x, a + b) == (z, n + m, all)
      else AllEffects(d, x, a + b) == (y, n, false)
    decreases |a|
  {
    hide Effect;
    assert forall q :: q in a ==> q in a + b;
    assert forall q :: q in b ==> q in a + b;
    if a == [] {
      assert a + b == b;
    } else {
      assert (a + b)[1..] == a[1..] + b;
      assert forall q :: q in a[1..] + b ==> q in a + b;
      EffectsInOrder(d, Effect(d, x, a[0]).0, a[1..], b);
    }
  }

  /** While autocommit is off nobody else sees anything of the requests that ran. */
  lemma {:induction false} RunAllIsHidden<D>(d: Driver<D>, c: Conn<D>, rs: seq<Request>)
    requires !c.mode && forall q :: q in rs ==> q.statement < |c.bound|
    ensures var (e, n, all) := RunAll(d, c, rs);
      && (BenchOf(e), n, all) == AllEffects(d, BenchOf(c), rs)
      && !e.mode && e.flag == c.flag && e.committed == c.committed
    decreases |rs|
  {
    hide Executed, Effect;
    if rs != [] {
      ExecutedIsEffect(d, c, rs[0]);
      if Executed(d, c, rs[0]).1 {
        RunAllIsHidden(d, Executed(d, c, rs[0]).0, rs[1..]);
      }
    }
  }

  /**
   All or nothing. Success means that all requests were applied in order and are visible to everyone.
   Failure leaves what was committed before; that is the state before the call exactly when nothing
   else was pending on the connection.
   */
  lemma CallIsAtomic<D>(d: Driver<D>, c: Conn<D>, rs: seq<Request>)
    requires forall q :: q in rs ==> q.statement < |c.bound|
    ensures var (e, n, all) := Called(d, c, rs);
      var (y, m, ok) := AllEffects(d, BenchOf(c), rs);
      && n == m && all == ok && e.bound == y.bound && !e.mode && !e.flag
      && (all ==> n == |rs| && e.db == e.committed == y.db)
      && (!all ==> e.db == e.committed == c.committed)
      && (!all ==> (e.db == c.db <==> c.db == c.committed))
  {
    hide AllEffects, RunAll;
    assert BenchOf(SetMode(c, false)) == BenchOf(c);
    RunAllIsHidden(d, SetMode(c, false), rs);
  }

  /** A transaction from the call to the destruction, which switches autocommit to what was reported before the call. */
  function Transacted<D>(d: Driver<D>, c: Conn<D>, rs: seq<Request>): (e: Conn<D>)
    requires forall q :: q in rs ==> q.statement < |c.bound|
    ensures |e.bound| == |c.bound|
  {
    SetMode(Called(d, c, rs).0, c.flag)
  }

  // ---------------------------------------------------------------- a queue of operations

  datatype Operation = Single(request: Request) | Transaction(requests: seq<Request>)

  function RequestsOf(op: Operation): seq<Request> {
    match op
    case Single(r) => [r]
    case Transaction(rs) => rs
  }

  predicate Runnable(n: nat, ops: seq<Operation>) {
    forall op :: op in ops ==> forall q :: q in RequestsOf(op) ==> q.statement < n
  }

  function Performed<D>(d: Driver<D>, c: Conn<D>, op: Operation): (e: Conn<D>)
    requires forall q :: q in RequestsOf(op) ==> q.statement < |c.bound|
    ensures |e.bound| == |c.bound|
  {
    match op
    case Single(r) =>
      assert r in RequestsOf(op);
      Executed(d, c, r).0
    case Transaction(rs) => Transacted(d, c, rs)
  }

  function Served<D>(d: Driver<D>, c: Conn<D>, ops: seq<Operation>): (e: Conn<D>)
    requires Runnable(|c.bound|, ops)
    ensures |e.bound| == |c.bound|
    decreases |ops|
  {
    if ops == [] then c else Performed(d, Served(d, c, ops[..|ops| - 1]), ops[|ops| - 1])
  }

  // ---------------------------------------------------------------- what the queue should do

  /** Whether an operation succeeds, and what it leaves: a failing one leaves the database as it was. */
  function Whole<D>(d: Driver<D>, x: Bench<D>, op: Operation): (r: (Bench<D>, bool))
    requires forall q :: q in RequestsOf(op) ==> q.statement < |x.bound|
    ensures |r.0.bound| == |x.bound| && (!r.1 ==> r.0.db == x.db)
  {
    var (y, _, ok) := AllEffects(d, x, RequestsOf(op));
    (if ok then y else Bench(x.db, y.bound), ok)
  }

  /** Each operation takes effect as a whole or not at all. */
  function Outcome<D>(d: Driver<D>, x: Bench<D>, ops: seq<Operation>): (y: Bench<D>)
    requires Runnable(|x.bound|, ops)
    ensures |y.bound| == |x.bound|
    decreases |ops|
  {
    if ops == [] then x else Whole(d, Outcome(d, x, ops[..|ops| - 1]), ops[|ops| - 1]).0
  }

  predicate Full<D>(d: Driver<D>, rs: seq<Request>) {
    forall r :: r in rs ==> |r.cells| >= d.arity(r.statement)
  }

  /** The same database, whatever is left set on the statements. */
  ghost predicate Alike<D(!new)>(d: Driver<D>, x: Bench<D>, y: Bench<D>) {
    x.db == y.db && |x.bound| == |y.bound| && Within(d, x.bound) && Within(d, y.bound)
  }

  lemma {:induction false} AlikeAll<D(!new)>(d: Driver<D>, x: Bench<D>, y: Bench<D>, rs: seq<Request>)
    requires Alike(d, x, y) && Full(d, rs) && forall q :: q in rs ==> q.statement < |x.bound|
    ensures var (v, m, a) := AllEffects(d, x, rs);
      var (w, n, b) := AllEffects(d, y, rs);
      Alike(d, v, w) && m == n && a == b
    decreases |rs|
  {
    if rs != [] {
      LeftoversCovered(d, x, rs[0]);
      LeftoversCovered(d, y, rs[0]);
      hide Effect, Within;
      OverfullFails(d, x, rs[0]);
      OverfullFails(d, y, rs[0]);
      if Effect(d, x, rs[0]).1 {
        AlikeAll(d, Effect(d, x, rs[0]).0, Effect(d, y, rs[0]).0, rs[1..]);
      }
    }
  }

  lemma OverfullFails<D>(d: Driver<D>, x: Bench<D>, r: Request)
    requires r.statement < |x.bound|
    ensures |r.cells| > d.arity(r.statement) ==> !Effect(d, x, r).1
  {
  }

  /** When all requests give all positions, what failed requests left set never matters, over any queue. */
  lemma {:induction false} LeftoversNeverMatter<D(!new)>(d: Driver<D>, x: Bench<D>, y: Bench<D>, ops: seq<Operation>)
    requires Alike(d, x, y) && Runnable(|x.bound|, ops) && forall op :: op in ops ==> Full(d, RequestsOf(op))
    ensures Alike(d, Outcome(d, x, ops), Outcome(d, y, ops))
    decreases |ops|
  {
    hide Within, AllEffects, Full;
    if ops != [] {
      var before, op := ops[..|ops| - 1], ops[|ops| - 1];
      LeftoversNeverMatter(d, x, y, before);
      AlikeAll(d, Outcome(d, x, before), Outcome(d, y, before), RequestsOf(op));
    }
  }

  /** A single request leaves its effect, a transaction all of its effects or none. */
  lemma WholeOrNothing<D>(d: Driver<D>, x: Bench<D>, r: Request, rs: seq<Request>)
    requires r.statement < |x.bound| && forall q :: q in rs ==> q.statement < |x.bound|
    ensures Whole(d, x, Single(r)).0.db == Effect(d, x, r).0.db && Whole(d, x, Single(r)).1 == Effect(d, x, r).1
    ensures var (y, _, ok) := AllEffects(d, x, rs);
      var (z, done) := Whole(d, x, Transaction(rs));
      done == ok && z.bound == y.bound && z.db == if ok then y.db else x.db
  {
    hide Effect;
    OneEffect(d, x, r);
  }

  /** A queue is its operations one after the other. */
  lemma {:induction false} OutcomeSplits<D>(d: Driver<D>, x: Bench<D>, a: seq<Operation>, b: seq<Operation>)
    requires Runnable(|x.bound|, a + b)
    ensures Runnable(|x.bound|, a) && Runnable(|x.bound|, b)
    ensures Outcome(d, x, a + b) == Outcome(d, Outcome(d, x, a), b)
    ensures |a| == 1 ==> Outcome(d, x, a) == Whole(d, x, a[0]).0
    decreases |b|
  {
    hide Whole;
    assert forall op :: op in a ==> op in a + b;
    assert forall op :: op in b ==> op in a + b;
    if |a| == 1 {
      assert a[..0] == [];
    }
    if b == [] {
      assert a + b == a;
    } else {
      assert (a + b)[..|a + b| - 1] == a + b[..|b| - 1];
      assert forall op :: op in a + b[..|b| - 1] ==> op in a + b;
      OutcomeSplits(d, x, a, b[..|b| - 1]);
    }
  }

  // ---------------------------------------------------------------- what it does

  /**
   What everyone sees, what the connection sees, and whether requests wait for the next transaction to
   commit them.
   */
  datatype Ledger<D> = Ledger(durable: D, bench: Bench<D>, waiting: bool)

  /**
   The driver opens the connection with autocommit on, but the connection object says so only when
   `flag` is set. Otherwise, from the first transaction on, single requests wait: the next transaction
   that succeeds commits them, the next that fails drops them.
   */
  function Posted<D>(d: Driver<D>, flag: bool, l: Ledger<D>, op: Operation): (m: Ledger<D>)
    requires forall q :: q in RequestsOf(op) ==> q.statement < |l.bench.bound|
    ensures |m.bench.bound| == |l.bench.bound|
  {
    var (y, ok) := Whole(d, l.bench, op);
    match op
    case Single(_) => Ledger(if l.waiting then l.durable else y.db, y, l.waiting)
    case Transaction(_) =>
      if ok then Ledger(y.db, y, !flag) else Ledger(l.durable, Bench(l.durable, y.bound), !flag)
  }

  function Ledgers<D>(d: Driver<D>, flag: bool, l: Ledger<D>, ops: seq<Operation>): (m: Ledger<D>)
    requires Runnable(|l.bench.bound|, ops)
    ensures |m.bench.bound| == |l.bench.bound|
    decreases |ops|
  {
    if ops == [] then l else Posted(d, flag, Ledgers(d, flag, l, ops[..|ops| - 1]), ops[|ops| - 1])
  }

  ghost predicate Shows<D>(c: Conn<D>, l: Ledger<D>) {
    && BenchOf(c) == l.bench && c.committed == l.durable && c.mode == !l.waiting
    && (c.mode ==> c.db == c.committed)
  }

  lemma PerformedIsPosted<D>(d: Driver<D>, c: Conn<D>, l: Ledger<D>, op: Operation)
    requires Shows(c, l) && forall q :: q in RequestsOf(op) ==> q.statement < |c.bound|
    ensures Shows(Performed(d, c, op), Posted(d, c.flag, l, op)) && Performed(d, c, op).flag == c.flag
  {
    hide Executed, Effect, RunAll, AllEffects;
    match op
    case Single(r) =>
      assert r in RequestsOf(op);
      ExecutedIsEffect(d, c, r);
      OneEffect(d, BenchOf(c), r);
    case Transaction(rs) => CallIsAtomic(d, c, rs);
  }

  lemma OneEffect<D>(d: Driver<D>, x: Bench<D>, r: Request)
    requires r.statement < |x.bound|
    ensures var (y, ok) := Effect(d, x, r);
      AllEffects(d, x, [r]).0 == y && AllEffects(d, x, [r]).2 == ok
  {
    assert [r][1..] == [];
  }

  /** For every queue and every connection as it is opened: the ledger is what happens. */
  lemma {:induction false} ServedIsPosted<D>(d: Driver<D>, c: Conn<D>, ops: seq<Operation>)
    requires c.mode && c.db == c.committed && Runnable(|c.bound|, ops)
    ensures Shows(Served(d, c, ops), Ledgers(d, c.flag, Ledger(c.db, BenchOf(c), false), ops))
    ensures Served(d, c, ops).flag == c.flag
    decreases |ops|
  {
    hide Performed, Posted;
    if ops != [] {
      ServedIsPosted(d, c, ops[..|ops| - 1]);
      var l := Ledgers(d, c.flag, Ledger(c.db, BenchOf(c), false), ops[..|ops| - 1]);
      PerformedIsPosted(d, Served(d, c, ops[..|ops| - 1]), l, ops[|ops| - 1]);
    }
  }

  // ---------------------------------------------------------------- when it does what it should

  predicate HasTransaction(ops: seq<Operation>) {
    exists op :: op in ops && op.Transaction?
  }

  /** The outcome at the last moment when nothing was waiting. */
  function Settled<D>(d: Driver<D>, flag: bool, x: Bench<D>, ops: seq<Operation>): D
    requires Runnable(|x.bound|, ops)
    decreases |ops|
  {
    if ops == [] then x.db
    else if ops[|ops| - 1].Single? && !flag && HasTransaction(ops[..|ops| - 1]) then
      Settled(d, flag, x, ops[..|ops| - 1])
    else Outcome(d, x, ops).db
  }

  /** Every transaction that fails finds nothing waiting that mattered. */
  predicate Kept<D(==)>(d: Driver<D>, flag: bool, x: Bench<D>, ops: seq<Operation>)
    requires Runnable(|x.bound|, ops)
    decreases |ops|
  {
    ops != [] ==>
      var before, op := ops[..|ops| - 1], ops[|ops| - 1];
      && Kept(d, flag, x, before)
      && (op.Transaction? && !Whole(d, Outcome(d, x, before), op).1 ==>
            Settled(d, flag, x, before) == Outcome(d, x, before).db)
  }

  /** At every moment the connection sees the outcome. */
  ghost predicate AlwaysOutcome<D>(d: Driver<D>, c: Conn<D>, ops: seq<Operation>)
    requires Runnable(|c.bound|, ops)
    decreases |ops|
  {
    && Served(d, c, ops).db == Outcome(d, BenchOf(c), ops).db
    && (ops != [] ==> AlwaysOutcome(d, c, ops[..|ops| - 1]))
  }

  lemma {:induction false} LedgerKept<D>(d: Driver<D>, flag: bool, x: Bench<D>, ops: seq<Operation>)
    requires Runnable(|x.bound|, ops)
    ensures var l := Ledgers(d, flag, Ledger(x.db, x, false), ops);
      && (l.waiting <==> !flag && HasTransaction(ops))
      && (Kept(d, flag, x, ops) ==> l.bench == Outcome(d, x, ops) && l.durable == Settled(d, flag, x, ops))
    decreases |ops|
  {
    hide Whole;
    if ops != [] {
      var before, op := ops[..|ops| - 1], ops[|ops| - 1];
      LedgerKept(d, flag, x, before);
      assert forall o :: o in ops <==> o in before || o == op;
    }
  }

  /**
   From the connection as it is opened, for every queue: at every moment each operation has taken
   effect as a whole or not at all exactly when every failing transaction finds nothing waiting that
   mattered; and what others see then is the outcome at the last moment when nothing was waiting.
   */
  lemma {:induction false} OutcomeExactly<D>(d: Driver<D>, c: Conn<D>, ops: seq<Operation>)
    requires c.mode && c.db == c.committed && Runnable(|c.bound|, ops)
    ensures AlwaysOutcome(d, c, ops) <==> Kept(d, c.flag, BenchOf(c), ops)
    ensures Kept(d, c.flag, BenchOf(c), ops) ==> Served(d, c, ops).committed == Settled(d, c.flag, BenchOf(c), ops)
    decreases |ops|
  {
    hide Whole, Served, Outcome;
    var x := BenchOf(c);
    ServedIsPosted(d, c, ops);
    LedgerKept(d, c.flag, x, ops);
    if ops == [] {
      assert Served(d, c, ops) == c && Outcome(d, x, ops) == x by { ServedNone(d, c); }
    } else {
      var before, op := ops[..|ops| - 1], ops[|ops| - 1];
      OutcomeExactly(d, c, before);
      LedgerKept(d, c.flag, x, before);
      OutcomeLast(d, x, ops);
      if Kept(d, c.flag, x, before) && !Kept(d, c.flag, x, ops) {
        assert Ledgers(d, c.flag, Ledger(x.db, x, false), ops).bench.db == Settled(d, c.flag, x, before);
      }
    }
  }

  lemma ServedNone<D>(d: Driver<D>, c: Conn<D>)
    ensures Served(d, c, []) == c && Outcome(d, BenchOf(c), []) == BenchOf(c)
  {
  }

  lemma OutcomeLast<D>(d: Driver<D>, x: Bench<D>, ops: seq<Operation>)
    requires ops != [] && Runnable(|x.bound|, ops)
    ensures Outcome(d, x, ops) == Whole(d, Outcome(d, x, ops[..|ops| - 1]), ops[|ops| - 1]).0
  {
  }

  /** Where the connection object knows that autocommit is on, that is always so, and others see the outcome too. */
  lemma {:induction false} ServedIsOutcome<D>(d: Driver<D>, c: Conn<D>, ops: seq<Operation>)
    requires c.mode && c.flag && c.db == c.committed && Runnable(|c.bound|, ops)
    ensures var e := Served(d, c, ops);
      e.mode && e.flag && BenchOf(e) == Outcome(d, BenchOf(c), ops) && e.committed == e.db
  {
    hide Whole;
    ServedIsPosted(d, c, ops);
    AlwaysKept(d, BenchOf(c), ops);
    LedgerKept(d, true, BenchOf(c), ops);
  }

  lemma {:induction false} AlwaysKept<D>(d: Driver<D>, x: Bench<D>, ops: seq<Operation>)
    requires Runnable(|x.bound|, ops)
    ensures Kept(d, true, x, ops)
    decreases |ops|
  {
    if ops != [] {
      AlwaysKept(d, x, ops[..|ops| - 1]);
    }
  }

  /**
   On the connection as it is opened otherwise, a request that succeeds between two transactions is
   lost when the second fails.
   */
  lemma RequestLost<D>(d: Driver<D>, c: Conn<D>, r: Request, bad: Request)
    requires c.mode && !c.flag && c.db == c.committed && r.statement < |c.bound| && bad.statement < |c.bound|
    requires Effect(d, BenchOf(c), r).1 && !Effect(d, Effect(d, BenchOf(c), r).0, bad).1
    ensures var ops := [Transaction([]), Single(r), Transaction([bad])];
      && Runnable(|c.bound|, ops)
      && Outcome(d, BenchOf(c), ops).db == Effect(d, BenchOf(c), r).0.db
      && Served(d, c, ops).db == Served(d, c, ops).committed == c.db
  {
    hide Effect, Executed, Served, Outcome, Performed, Ledgers;
    var x, none, one, two := BenchOf(c), Transaction([]), Single(r), Transaction([bad]);
    var ops := [none, one, two];
    assert ops[..2] == [none, one] && [none, one][..1] == [none] && [none][..0] == [];
    OneEffect(d, x, r);
    OneEffect(d, Effect(d, x, r).0, bad);
    ServedNone(d, c);
    OutcomeLast(d, x, [none]);
    OutcomeLast(d, x, [none, one]);
    OutcomeLast(d, x, ops);
    ServedIsPosted(d, c, ops);
    var l := Ledger(c.db, x, false);
    LedgersLast(d, c.flag, l, [none]);
    LedgersLast(d, c.flag, l, [none, one]);
    LedgersLast(d, c.flag, l, ops);
  }

  lemma LedgersLast<D>(d: Driver<D>, flag: bool, l: Ledger<D>, ops: seq<Operation>)
    requires ops != [] && Runnable(|l.bench.bound|, ops)
    ensures Ledgers(d, flag, l, ops) == Posted(d, flag, Ledgers(d, flag, l, ops[..|ops| - 1]), ops[|ops| - 1])
    ensures Ledgers(d, flag, l, []) == l
  {
  }

  /** One database cell: statement 0 sets it to 1, statement 1 fails. */
  lemma RequestLostOnce()
    ensures var d := Driver(_ => 0, (s: nat, _: map<nat, Param>, _: int) => if s == 0 then Some(1) else None);
      var c := Conn(0, 0, true, false, [map[], map[]]);
      var ops := [Transaction([]), Single(Request(0, [])), Transaction([Request(1, [])])];
      && Runnable(2, ops) && Outcome(d, BenchOf(c), ops).db == 1 && Served(d, c, ops).db == 0
  {
    hide Served, Outcome;
    var d := Driver(_ => 0, (s: nat, _: map<nat, Param>, _: int) => if s == 0 then Some(1) else None);
    RequestLost(d, Conn(0, 0, true, false, [map[], map[]]), Request(0, []), Request(1, []));
  }

  /** The connection object does not know that autocommit is on: the first transaction makes true what it says. */
  lemma {:induction false} ModeAfter<D>(d: Driver<D>, c: Conn<D>, ops: seq<Operation>)
    requires Runnable(|c.bound|, ops)
    ensures var e := Served(d, c, ops);
      e.flag == c.flag && (e.mode == c.mode <==> c.flag == c.mode || !HasTransaction(ops))
    decreases |ops|
  {
    hide RunAll;
    if ops != [] {
      var before, op := ops[..|ops| - 1], ops[|ops| - 1];
      ModeAfter(d, c, before);
      PerformedMode(d, Served(d, c, before), op);
      assert forall o :: o in ops <==> o in before || o == op;
    }
  }

  lemma PerformedMode<D>(d: Driver<D>, c: Conn<D>, op: Operation)
    requires forall q :: q in RequestsOf(op) ==> q.statement < |c.bound|
    ensures Performed(d, c, op).flag == c.flag && Performed(d, c, op).mode == if op.Single? then c.mode else c.flag
  {
  }
}

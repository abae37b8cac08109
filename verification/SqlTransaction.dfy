/** Queued database operations: single requests, transactions, and the worker that runs them. */
module SqlTransaction {
  import opened Bytes
  import opened SqlParameters
  import opened SqlConnection

  class DatabaseConnection<D(!new)> {
    const driver: Driver<D>
    var conn: Conn<D>

    constructor (driver: Driver<D>, conn: Conn<D>)
      ensures this.driver == driver && this.conn == conn
    {
      this.driver, this.conn := driver, conn;
    }

    /** Setting a parameter throws when the statement does not have it. */
    method SetParameter(stmt: nat, index: nat, p: Param) returns (ok: bool)
      requires stmt < |conn.bound| && index > 0
      modifies this`conn
      ensures ok <==> index <= driver.arity(stmt)
      ensures conn == if ok then WithParameter(old(conn), stmt, index, p) else old(conn)
      ensures conn == old(conn).(bound := conn.bound) && |conn.bound| == |old(conn).bound|
      ensures forall s :: 0 <= s < |conn.bound| && s != stmt ==> conn.bound[s] == old(conn).bound[s]
      ensures ok ==> forall k: nat ::
        (k in conn.bound[stmt] <==> k == index || k in old(conn).bound[stmt])
        && (k in conn.bound[stmt] ==> conn.bound[stmt][k] == if k == index then p else old(conn).bound[stmt][k])
    {
      ok := index <= driver.arity(stmt);
      if ok {
        conn := WithParameter(conn, stmt, index, p);
      }
    }

    method RunStatement(stmt: nat) returns (ok: bool)
      requires stmt < |conn.bound|
      modifies this`conn
      ensures (conn, ok) == Ran(driver, old(conn), stmt)
      ensures ok <==> driver.run(stmt, old(conn).bound[stmt], old(conn).db).Some?
      ensures !ok ==> conn == old(conn)
      ensures ok ==> conn.db == driver.run(stmt, old(conn).bound[stmt], old(conn).db).value
      ensures ok ==> conn.committed == if conn.mode then conn.db else old(conn).committed
      ensures conn == old(conn).(db := conn.db, committed := conn.committed)
    {
      var (c, r) := Ran(driver, conn, stmt);
      conn, ok := c, r;
    }

    method ClearParameters(stmt: nat)
      requires stmt < |conn.bound|
      modifies this`conn
      ensures conn == Cleared(old(conn), stmt) == old(conn).(bound := old(conn).bound[stmt := map[]])
    {
      conn := Cleared(conn, stmt);
    }

    method SetAutoCommit(on: bool)
      modifies this`conn
      ensures conn == SetMode(old(conn), on)
      ensures conn.mode == conn.flag == on && conn.db == old(conn).db && conn.bound == old(conn).bound
      ensures conn.committed == if on then conn.db else old(conn).committed
    {
      conn := SetMode(conn, on);
    }

    method RollbackTransaction()
      modifies this`conn
      ensures conn == RolledBack(old(conn)) == old(conn).(db := old(conn).committed)
    {
      conn := RolledBack(conn);
    }

    method CommitTransaction()
      modifies this`conn
      ensures conn == Committed(old(conn)) == old(conn).(committed := old(conn).db)
    {
      conn := Committed(conn);
    }
  }

  // ---------------------------------------------------------------- a request

  class SqlOperationRequest {
    const statement: nat
    var statementData: seq<Cell>
    /** Allocated and not yet deleted. */
    var live: bool

    ghost function Content(): Request
      reads this`statementData
    {
      Request(statement, statementData)
    }

    constructor (statement: nat)
      ensures this.statement == statement && statementData == [] && live
    {
      this.statement, statementData, live := statement, [], true;
    }

    method Resize(n: nat)
      modifies this`statementData
      ensures statementData == Resized(old(statementData), n)
    {
      if |statementData| < n {
        statementData := statementData + seq(n - |statementData|, _ => BLANK);
      }
    }

    /** The writes the numeric `add_*` functions share: the union and the tag, not the string. */
    method AddScalar(index: nat, scalar: Scalar)
      requires 0 < index < 256
      modifies this`statementData
      ensures statementData == Added(old(statementData), index, Value(scalar))
    {
      Resize(index);
      var i := index - 1;
      statementData := statementData[i := statementData[i].(scalar := scalar, isString := false)];
    }

    method AddBool(index: nat, value: bool)
      requires 0 < index < 256
      modifies this`statementData
      ensures statementData == Added(old(statementData), index, Value(Boolean(value)))
    {
      AddScalar(index, Boolean(value));
    }

    method AddUint8(index: nat, value: nat)
      requires 0 < index < 256 && value < 256
      modifies this`statementData
      ensures statementData == Added(old(statementData), index, Value(U8(value)))
    {
      AddScalar(index, U8(value));
    }

    method AddUint16(index: nat, value: nat)
      requires 0 < index < 256 && value < 65536
      modifies this`statementData
      ensures statementData == Added(old(statementData), index, Value(U16(value)))
    {
      AddScalar(index, U16(value));
    }

    method AddUint32(index: nat, value: nat)
      requires 0 < index < 256 && value < 0x1_0000_0000
      modifies this`statementData
      ensures statementData == Added(old(statementData), index, Value(U32(value)))
    {
      AddScalar(index, U32(value));
    }

    method AddUint64(index: nat, value: nat)
      requires 0 < index < 256 && value < 0x1_0000_0000_0000_0000
      modifies this`statementData
      ensures statementData == Added(old(statementData), index, Value(U64(value)))
    {
      AddScalar(index, U64(value));
    }

    method AddFloat(index: nat, value: seq<Byte>)
      requires 0 < index < 256 && |value| == 4
      modifies this`statementData
      ensures statementData == Added(old(statementData), index, Value(Float(value)))
    {
      AddScalar(index, Float(value));
    }

    /** The text is appended to what is there. */
    method AddString(index: nat, value: string)
      requires 0 < index < 256
      modifies this`statementData
      ensures statementData == Added(old(statementData), index, Str(value))
    {
      Resize(index);
      var i := index - 1;
      statementData := statementData[i := statementData[i].(str := statementData[i].str + value, isString := true)];
    }

    /** 0, or -1 when something throws; what was set before the throw stays set. */
    method Execute<D(!new)>(db: DatabaseConnection<D>) returns (code: int)
      requires statement < |db.conn.bound|
      modifies db`conn
      ensures var (c, ok) := Executed(db.driver, old(db.conn), Content());
        db.conn == c && code == if ok then 0 else -1
    {
      var i := 0;
      while i < |statementData|
        invariant i <= |statementData| && i <= db.driver.arity(statement)
        invariant db.conn == WithParameters(old(db.conn), statement, statementData, i)
      {
        var cell := statementData[i];
        var p;
        if cell.isString {
          p := SetString(cell.str);
        } else {
          match cell.scalar
          case Boolean(b) => p := SetBool(b);
          case U8(n) => p := SetUint32(n);
          case U16(n) => p := SetUint32(n);
          case U32(n) => p := SetUint32(n);
          case U64(n) => p := SetUint64(n);
          case Float(raw) => p := SetDouble(raw);
        }
        var ok := db.SetParameter(statement, i + 1, p);
        if !ok {
          return -1;
        }
        i := i + 1;
      }
      var ok := db.RunStatement(statement);
      if !ok {
        return -1;
      }
      db.ClearParameters(statement);
      code := 0;
    }

    /** Deleting twice is what `live` rules out. */
    method Delete()
      requires live
      modifies this`live
      ensures !live
    {
      live := false;
    }
  }

  ghost function ContentsOf(rs: seq<SqlOperationRequest>): (c: seq<Request>)
    reads rs`statementData
    ensures |c| == |rs|
    ensures forall i :: 0 <= i < |rs| ==> c[i] == rs[i].Content()
  {
    if rs == [] then [] else [rs[0].Content()] + ContentsOf(rs[1..])
  }

  ghost predicate Distinct(rs: seq<SqlOperationRequest>) {
    forall i, j :: 0 <= i < j < |rs| ==> rs[i] != rs[j]
  }

  // ---------------------------------------------------------------- a transaction

  /** With i requests done, running the others from here on ends where running all from the start does. */
  ghost predicate Remaining<D(!new)>(d: Driver<D>, c: Conn<D>, rs: seq<Request>, i: nat, all: (Conn<D>, nat, bool))
    requires i <= |rs|
  {
    && (forall q :: q in rs ==> q.statement < |c.bound|)
    && var rest := RunAll(d, c, rs[i..]);
      all == (rest.0, i + rest.1, rest.2)
  }

  lemma RemainingStep<D(!new)>(d: Driver<D>, c: Conn<D>, rs: seq<Request>, i: nat, all: (Conn<D>, nat, bool))
    requires i < |rs| && Remaining(d, c, rs, i, all)
    ensures rs[i].statement < |c.bound|
    ensures var (e, ok) := Executed(d, c, rs[i]);
      if ok then Remaining(d, e, rs, i + 1, all) else all == (e, i, false)
  {
    hide Executed;
    assert rs[i..][0] == rs[i] && rs[i..][1..] == rs[i + 1..] && rs[i] in rs;
  }

  lemma RemainingStart<D(!new)>(d: Driver<D>, c: Conn<D>, rs: seq<Request>)
    requires forall q :: q in rs ==> q.statement < |c.bound|
    ensures Remaining(d, c, rs, 0, RunAll(d, c, rs))
  {
    assert rs[0..] == rs;
  }

  lemma RemainingEnd<D(!new)>(d: Driver<D>, c: Conn<D>, rs: seq<Request>, all: (Conn<D>, nat, bool))
    requires Remaining(d, c, rs, |rs|, all)
    ensures all == (c, |rs|, true)
  {
  }

  /** Exactly the requests before i are deleted. */
  ghost predicate LiveFrom(was: seq<SqlOperationRequest>, i: nat)
    reads was`live
  {
    Distinct(was) && forall j :: 0 <= j < |was| ==> was[j].live == (j >= i)
  }

  lemma AllLive(was: seq<SqlOperationRequest>, i: nat)
    requires i <= |was| && LiveFrom(was, i)
    ensures Distinct(was[i..]) && forall r :: r in was[i..] ==> r.live
  {
  }

  lemma LivesFrom(was: seq<SqlOperationRequest>, i: nat)
    requires LiveFrom(was, i)
    ensures Distinct(was) && forall j :: 0 <= j < |was| ==> was[j].live == (j >= i)
  {
  }

  lemma OneMoreDeleted(was: seq<SqlOperationRequest>, i: nat)
    requires i < |was| && Distinct(was) && forall j :: 0 <= j < |was| && j != i ==> was[j].live == (j >= i)
    requires !was[i].live
    ensures LiveFrom(was, i + 1)
  {
  }

  lemma StartLive(was: seq<SqlOperationRequest>)
    requires Distinct(was) && forall r :: r in was ==> r.live
    ensures LiveFrom(was, 0)
  {
  }

  lemma ContentsRunnable(rs: seq<SqlOperationRequest>, n: nat)
    requires forall r :: r in rs ==> r.statement < n
    ensures forall q :: q in ContentsOf(rs) ==> q.statement < n
  {
  }

  /** What the run deleted is apart from what it left. */
  lemma Apart(was: seq<SqlOperationRequest>, done: nat)
    requires done <= |was| && LiveFrom(was, done)
    ensures Distinct(was) && forall j :: 0 <= j < done ==> !was[j].live && was[j] !in was[done..]
  {
  }

  /** Deleted by the run up to done, and by the destruction up to half of what was left. */
  lemma DeletedUpTo(was: seq<SqlOperationRequest>, done: nat, half: nat)
    requires done + half <= |was| && Distinct(was)
    requires forall j :: 0 <= j < done ==> !was[j].live
    requires LiveFrom(was[done..], half)
    ensures LiveFrom(was, done + half) && was[done..][half..] == was[done + half..]
  {
    var left := was[done..];
    assert forall j :: done <= j < |was| ==> was[j] == left[j - done];
  }

  class SqlOperationTransaction {
    var autocommitState: bool
    var requests: seq<SqlOperationRequest>

    ghost predicate Valid()
      reads this, requests
    {
      Distinct(requests) && forall r :: r in requests ==> r.live
    }

    constructor ()
      ensures requests == []
    {
      requests := [];
    }

    method Append(req: SqlOperationRequest)
      requires Valid() && req.live && req !in requests
      modifies this`requests
      ensures Valid() && requests == old(requests) + [req]
    {
      requests := requests + [req];
    }

    /** The loop: everything up to the first failing request. */
    method RunRequests<D(!new)>(db: DatabaseConnection<D>) returns (error: bool)
      requires Valid() && forall r :: r in requests ==> r.statement < |db.conn.bound|
      modifies this`requests, requests`live, db`conn
      ensures var (c, done, all) := RunAll(db.driver, old(db.conn), old(ContentsOf(requests)));
        && db.conn == c && error == !all && requests == old(requests)[done..]
        && LiveFrom(old(requests), done)
    {
      ghost var was, contents := requests, ContentsOf(requests);
      hide Executed, RunAll, ContentsOf, Remaining, LiveFrom;
      ghost var all := RunAll(db.driver, db.conn, contents);
      error := false;
      var size := |requests|;
      var i := 0;
      assert was[0..] == was;
      RemainingStart(db.driver, db.conn, contents);
      StartLive(was);
      while i < size
        invariant i <= size == |was| && !error && requests == was[i..] && LiveFrom(was, i)
        invariant Remaining(db.driver, db.conn, contents, i, all)
      {
        RemainingStep(db.driver, db.conn, contents, i, all);
        LivesFrom(was, i);
        var req := requests[0];
        assert req == was[i] && req.Content() == contents[i];
        var result := req.Execute(db);
        if result == -1 {
          error := true;
          return;
        }
        req.Delete();
        OneMoreDeleted(was, i);
        requests := requests[1..];
        i := i + 1;
      }
      RemainingEnd(db.driver, db.conn, contents, all);
    }

    /**
     Requests that succeed are taken off the queue and deleted; the one that fails stays at the
     front. Nothing is deleted twice.
     */
    method Call<D(!new)>(db: DatabaseConnection<D>) returns (code: int)
      requires Valid() && forall r :: r in requests ==> r.statement < |db.conn.bound|
      modifies this, requests`live, db`conn
      ensures var (c, done, all) := Called(db.driver, old(db.conn), old(ContentsOf(requests)));
        && db.conn == c && code == (if all then 0 else -1)
        && requests == old(requests)[done..] && LiveFrom(old(requests), done)
      ensures Valid() && autocommitState == old(db.conn.flag)
    {
      hide RunAll, ContentsOf;
      ghost var was := requests;
      autocommitState := db.conn.flag;
      db.SetAutoCommit(false);
      var error := RunRequests(db);
      AllLive(was, |was| - |requests|);
      if error {
        db.RollbackTransaction();
        code := -1;
      } else {
        db.CommitTransaction();
        code := 0;
      }
    }

    /**
     The loop compares its counter with a queue that shrinks under it, so it deletes only the first
     half of what is left; the rest is never deleted.
     */
    method Destroy<D(!new)>(db: DatabaseConnection<D>)
      requires Valid()
      modifies this`requests, requests`live, db`conn
      ensures var n := |old(requests)|;
        && requests == old(requests)[n - n / 2..]
        && LiveFrom(old(requests), n - n / 2)
        && (requests == [] <==> n <= 1)
      ensures db.conn == SetMode(old(db.conn), autocommitState)
    {
      ghost var was, n := requests, |requests|;
      ghost var half := n - n / 2;
      assert n <= 2 * half <= n + 1;
      StartLive(was);
      hide LiveFrom;
      var i := 0;
      while i < |requests|
        invariant i <= half <= n == |was| && requests == was[i..] && db.conn == old(db.conn)
        invariant LiveFrom(was, i)
      {
        LivesFrom(was, i);
        var req := requests[0];
        req.Delete();
        OneMoreDeleted(was, i);
        requests := requests[1..];
        i := i + 1;
      }
      assert i == half;
      db.SetAutoCommit(autocommitState);
    }
  }

  // ---------------------------------------------------------------- the worker

  datatype Job = RequestJob(r: SqlOperationRequest) | TransactionJob(t: SqlOperationTransaction)

  ghost function Objects(j: Job): set<object>
    reads if j.TransactionJob? then {j.t} else {}
  {
    match j
    case RequestJob(r) => {r}
    case TransactionJob(t) =>
      var own: set<object> := {t};
      own + set q: object | q in t.requests
  }

  ghost function OperationOf(j: Job): Operation
    reads Objects(j)
  {
    match j
    case RequestJob(r) => Single(r.Content())
    case TransactionJob(t) => Transaction(ContentsOf(t.requests))
  }

  ghost predicate Ready(j: Job, n: nat)
    reads Objects(j)
  {
    match j
    case RequestJob(r) => r.live && r.statement < n
    case TransactionJob(t) => t.Valid() && forall q :: q in t.requests ==> q.statement < n
  }

  /** The operations a queue stands for and the objects they are made of; no object belongs to two of them. */
  ghost predicate Queued(queue: seq<Job>, ops: seq<Operation>, objects: seq<set<object>>, all: set<object>, n: nat)
    reads all
  {
    && |ops| == |queue| == |objects|
    && (forall k :: 0 <= k < |queue| ==> QueuedAt(queue[k], ops[k], objects[k], all, n))
    && (forall i, k :: 0 <= i < k < |queue| ==> objects[i] !! objects[k])
  }

  ghost predicate QueuedAt(j: Job, op: Operation, objects: set<object>, all: set<object>, n: nat)
    reads all
  {
    && objects <= all && (j.TransactionJob? ==> j.t in objects)
    && Objects(j) == objects && Ready(j, n) && OperationOf(j) == op
  }

  lemma ReadyRunnable(j: Job, n: nat)
    requires Ready(j, n)
    ensures forall q :: q in RequestsOf(OperationOf(j)) ==> q.statement < n
  {
  }

  lemma OperationsRunnable(queue: seq<Job>, ops: seq<Operation>, objects: seq<set<object>>, all: set<object>, n: nat)
    requires Queued(queue, ops, objects, all, n)
    ensures Runnable(n, ops)
  {
    hide Ready, RequestsOf, Objects, OperationOf;
    forall op | op in ops
      ensures forall q :: q in RequestsOf(op) ==> q.statement < n
    {
      var k :| 0 <= k < |ops| && ops[k] == op;
      assert QueuedAt(queue[k], ops[k], objects[k], all, n);
      ReadyRunnable(queue[k], n);
    }
  }

  lemma ServedStep<D>(d: Driver<D>, c: Conn<D>, ops: seq<Operation>, i: nat)
    requires i < |ops| && Runnable(|c.bound|, ops)
    ensures Runnable(|c.bound|, ops[..i]) && Runnable(|c.bound|, ops[..i + 1])
    ensures forall q :: q in RequestsOf(ops[i]) ==> q.statement < |c.bound|
    ensures Served(d, c, ops[..i + 1]) == Performed(d, Served(d, c, ops[..i]), ops[i])
  {
    hide Performed, RequestsOf;
    assert ops[..i + 1][..i] == ops[..i] && ops[i] in ops;
  }

  lemma ServedStart<D>(d: Driver<D>, c: Conn<D>, ops: seq<Operation>)
    ensures Runnable(|c.bound|, ops[..0]) && Served(d, c, ops[..0]) == c
  {
  }

  class DatabaseWorker<D(!new)> {
    const db: DatabaseConnection<D>

    constructor (db: DatabaseConnection<D>)
      ensures this.db == db
    {
      this.db := db;
    }

    /**
     A transaction is run and destroyed; of one that failed, half of the requests that did not succeed
     are never deleted.
     */
    method PerformTransaction(t: SqlOperationTransaction)
      requires t.Valid() && forall q :: q in t.requests ==> q.statement < |db.conn.bound|
      modifies t, t.requests`live, db`conn
      ensures (forall q :: q in old(ContentsOf(t.requests)) ==> q.statement < |old(db.conn).bound|)
      ensures db.conn == Transacted(db.driver, old(db.conn), old(ContentsOf(t.requests)))
      ensures var was := old(t.requests);
        var done := Called(db.driver, old(db.conn), old(ContentsOf(t.requests))).1;
        var kept := |was| - (|was| - done) / 2;
        t.requests == was[kept..] && LiveFrom(was, kept)
    {
      hide RunAll, Executed, ContentsOf, Called, LiveFrom, Distinct;
      ContentsRunnable(t.requests, |db.conn.bound|);
      ghost var was := t.requests;
      var code := t.Call(db);
      ghost var done, n := |was| - |t.requests|, |t.requests|;
      Apart(was, done);
      t.Destroy(db);
      assert |was| - n / 2 == done + (n - n / 2);
      DeletedUpTo(was, done, n - n / 2);
    }

    /** One operation: run it and delete it. */
    method Perform(j: Job)
      requires Ready(j, |db.conn.bound|)
      modifies Objects(j), db`conn
      ensures (forall q :: q in RequestsOf(old(OperationOf(j))) ==> q.statement < |old(db.conn).bound|)
      ensures db.conn == Performed(db.driver, old(db.conn), old(OperationOf(j)))
      ensures match j
        case RequestJob(r) => !r.live
        case TransactionJob(t) =>
          var was := old(t.requests);
          var done := Called(db.driver, old(db.conn), old(ContentsOf(t.requests))).1;
          var kept := |was| - (|was| - done) / 2;
          t.requests == was[kept..] && LiveFrom(was, kept)
    {
      hide RunAll, Executed, ContentsOf, Called, LiveFrom;
      match j
      case RequestJob(r) =>
        assert r.Content() in RequestsOf(OperationOf(j));
        var code := r.Execute(db);
        r.Delete();
      case TransactionJob(t) => PerformTransaction(t);
    }

    /** The loop of the worker thread, up to the empty request that ends it. */
    method Svc(queue: seq<Job>, ghost ops: seq<Operation>, ghost objects: seq<set<object>>, ghost all: set<object>)
      requires Queued(queue, ops, objects, all, |db.conn.bound|) && db !in all
      modifies all, db`conn
      ensures Runnable(|old(db.conn).bound|, ops)
      ensures db.conn == Served(db.driver, old(db.conn), ops)
    {
      hide Performed, Ready, Objects, OperationOf, RequestsOf, Served;
      OperationsRunnable(queue, ops, objects, all, |db.conn.bound|);
      var i := 0;
      ServedStart(db.driver, db.conn, ops);
      while i < |queue|
        invariant i <= |queue| && |db.conn.bound| == |old(db.conn).bound|
        invariant forall k :: i <= k < |queue| ==> QueuedAt(queue[k], ops[k], objects[k], all, |db.conn.bound|)
        invariant Runnable(|db.conn.bound|, ops[..i]) && db.conn == Served(db.driver, old(db.conn), ops[..i])
      {
        ServedStep(db.driver, old(db.conn), ops, i);
        assert QueuedAt(queue[i], ops[i], objects[i], all, |db.conn.bound|);
        label before:
        Perform(queue[i]);
        forall k | i < k < |queue|
          ensures QueuedAt(queue[k], ops[k], objects[k], all, |db.conn.bound|)
        {
          assert old@before(QueuedAt(queue[k], ops[k], objects[k], all, |db.conn.bound|));
          assert objects[i] !! objects[k] && db !in objects[k];
          assert Objects(queue[k]) == old@before(Objects(queue[k]));
        }
        i := i + 1;
      }
      assert ops[..i] == ops;
    }
  }
}

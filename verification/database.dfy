/**
 * app/db/database.py: the retry decorator, the connection wrapper with its cursor and
 * transaction context managers, the health check and the process-wide instance.
 *
 * What the pool and the server do is not visible to the model; it is passed in as a
 * `Server` value: the outcome of each attempt to take a connection, the jitter drawn for
 * each retry, and whether the server refuses the commit. What each statement does to the
 * stored rows is a function of the rows (it may raise).
 */
module Database {
  import opened Wrappers
  import opened Errors
  import opened Sequences
  import Text

  /** The exceptions `with_retry` retries by default. */
  predicate Retryable(e: Error)
  {
    e.OperationalError? || e.InterfaceError?
  }

  /** An outcome that makes the decorator try again. */
  predicate Retries<T>(o: Result<T, Error>)
  {
    o.Failure? && Retryable(o.error)
  }

  datatype RetryConfig = RetryConfig(maxRetries: nat, initialBackoff: real, maxBackoff: real, backoffFactor: real)

  /** `@with_retry()`: three retries, 0.5 s first backoff, 10 s cap, doubling. */
  const DefaultRetry := RetryConfig(3, 0.5, 10.0, 2.0)

  /** What the decorator raises once `max_retries` retries have all failed. */
  function RetriesExhausted(maxRetries: nat): Error
  {
    DatabaseError("Database operation failed after " + Text.NatToString(maxRetries) + " retries")
  }

  /** The backoff in effect when retry `k + 1` sleeps. */
  function Backoff(cfg: RetryConfig, k: nat): real
  {
    if k == 0 then cfg.initialBackoff else NextBackoff(cfg, Backoff(cfg, k - 1))
  }

  /** `backoff = min(backoff * backoff_factor, max_backoff)` */
  function NextBackoff(cfg: RetryConfig, backoff: real): real
  {
    MinReal(backoff * cfg.backoffFactor, cfg.maxBackoff)
  }

  /** `sleep_time = min(backoff * jitter, max_backoff)` */
  function CappedSleep(cfg: RetryConfig, backoff: real, jitter: real): real
  {
    MinReal(backoff * jitter, cfg.maxBackoff)
  }

  /** `min(backoff * jitter, max_backoff)` */
  function SleepTime(cfg: RetryConfig, k: nat, jitter: real): real
  {
    CappedSleep(cfg, Backoff(cfg, k), jitter)
  }

  /**
   * The outcome of the retry loop from call `k` on, and how many calls it makes in all.
   * `attempt(k)` is what call `k` (0-based) of the wrapped function returns or raises.
   */
  function RetryFrom<T>(maxRetries: nat, attempt: nat -> Result<T, Error>, k: nat): (Result<T, Error>, nat)
    requires k <= maxRetries
    decreases maxRetries - k
  {
    if Retries(attempt(k)) then
      if k == maxRetries then (Failure(RetriesExhausted(maxRetries)), k + 1) else RetryFrom(maxRetries, attempt, k + 1)
    else (attempt(k), k + 1)
  }

  /** A call of a function wrapped in `@with_retry(...)`: its outcome and the number of calls. */
  function Retried<T>(cfg: RetryConfig, attempt: nat -> Result<T, Error>): (Result<T, Error>, nat)
  {
    RetryFrom(cfg.maxRetries, attempt, 0)
  }

  lemma {:induction false} RetryFromCalls<T>(maxRetries: nat, attempt: nat -> Result<T, Error>, k: nat)
    requires k <= maxRetries
    ensures var (r, n) := RetryFrom(maxRetries, attempt, k);
      && k + 1 <= n <= maxRetries + 1
      && (forall j :: k <= j < n - 1 ==> Retries(attempt(j)))
      && (Retries(attempt(n - 1)) ==> n == maxRetries + 1 && r == Failure(RetriesExhausted(maxRetries)))
      && (!Retries(attempt(n - 1)) ==> r == attempt(n - 1))
    decreases maxRetries - k
  {
    if Retries(attempt(k)) && k < maxRetries {
      RetryFromCalls(maxRetries, attempt, k + 1);
    }
  }

  /**
   * The wrapped function is called at least once and at most `max_retries + 1` times; every
   * call but the last raised a retryable error; a last call that succeeded or raised anything
   * else decides the outcome; a last retryable error, after `max_retries` retries, becomes
   * DatabaseError.
   */
  lemma RetryCalls<T>(cfg: RetryConfig, attempt: nat -> Result<T, Error>)
    ensures var (r, n) := Retried(cfg, attempt);
      && 1 <= n <= cfg.maxRetries + 1
      && (forall j :: 0 <= j < n - 1 ==> Retries(attempt(j)))
      && (Retries(attempt(n - 1)) ==> n == cfg.maxRetries + 1 && r == Failure(RetriesExhausted(cfg.maxRetries)))
      && (!Retries(attempt(n - 1)) ==> r == attempt(n - 1))
  {
    RetryFromCalls(cfg.maxRetries, attempt, 0);
  }

  /** A non-retryable exception from the first call propagates at once. */
  lemma NonRetryablePropagates<T>(cfg: RetryConfig, attempt: nat -> Result<T, Error>)
    requires attempt(0).Failure? && !Retryable(attempt(0).error)
    ensures Retried(cfg, attempt) == (attempt(0), 1)
  {
  }

  /** With a factor of at least 1 and a first backoff within the cap, the backoff never shrinks and never passes the cap. */
  lemma {:induction false} BackoffNondecreasing(cfg: RetryConfig, k: nat)
    requires 0.0 <= cfg.initialBackoff <= cfg.maxBackoff && cfg.backoffFactor >= 1.0
    ensures 0.0 <= Backoff(cfg, k) <= Backoff(cfg, k + 1) <= cfg.maxBackoff
  {
    if k > 0 {
      BackoffNondecreasing(cfg, k - 1);
    }
    NextBackoffGrows(cfg, Backoff(cfg, k));
  }

  /** One backoff step within the cap neither shrinks the backoff nor passes the cap. */
  lemma NextBackoffGrows(cfg: RetryConfig, b: real)
    requires 0.0 <= b <= cfg.maxBackoff && cfg.backoffFactor >= 1.0
    ensures b <= NextBackoff(cfg, b) <= cfg.maxBackoff
  {
    assert b * cfg.backoffFactor - b == b * (cfg.backoffFactor - 1.0);
    MulNonneg(b, cfg.backoffFactor - 1.0);
  }

  lemma MulNonneg(x: real, y: real)
    requires x >= 0.0 && y >= 0.0
    ensures x * y >= 0.0
  {
  }

  /**
   * `with_retry(...)(func)(...)`: calls `func` until it returns or raises a non-retryable
   * error, sleeping between tries; `sleeps` lists the sleep times in order.
   */
  method WithRetry<T>(cfg: RetryConfig, attempt: nat -> Result<T, Error>, jitter: nat -> real)
    returns (r: Result<T, Error>, calls: nat, sleeps: seq<real>)
    ensures (r, calls) == Retried(cfg, attempt)
    ensures |sleeps| + 1 == calls
    ensures SleepsOf(cfg, jitter, sleeps)
  {
    var retries: nat := 0;
    var backoff := cfg.initialBackoff;
    sleeps := [];
    while true
      invariant retries <= cfg.maxRetries
      invariant backoff == Backoff(cfg, retries)
      invariant |sleeps| == retries
      invariant SleepsOf(cfg, jitter, sleeps)
      invariant RetryFrom(cfg.maxRetries, attempt, retries) == Retried(cfg, attempt)
      decreases cfg.maxRetries - retries
    {
      var o := attempt(retries);
      if !Retries(o) {
        assert RetryFrom(cfg.maxRetries, attempt, retries) == (o, retries + 1);
        return o, retries + 1, sleeps;
      }
      if retries + 1 > cfg.maxRetries {
        assert RetryFrom(cfg.maxRetries, attempt, retries) == (Failure(RetriesExhausted(cfg.maxRetries)), retries + 1);
        return Failure(RetriesExhausted(cfg.maxRetries)), retries + 1, sleeps;
      }
      assert RetryFrom(cfg.maxRetries, attempt, retries) == RetryFrom(cfg.maxRetries, attempt, retries + 1);
      var sleepTime := CappedSleep(cfg, backoff, jitter(retries));
      SleepsOfSnoc(cfg, jitter, sleeps, sleepTime);
      sleeps := sleeps + [sleepTime];
      backoff := NextBackoff(cfg, backoff);
      retries := retries + 1;
    }
  }

  /** Appending the next sleep time keeps the sleeps in step with the backoffs. */
  lemma SleepsOfSnoc(cfg: RetryConfig, jitter: nat -> real, sleeps: seq<real>, t: real)
    requires SleepsOf(cfg, jitter, sleeps) && t == SleepTime(cfg, |sleeps|, jitter(|sleeps|))
    ensures SleepsOf(cfg, jitter, sleeps + [t])
  {
  }

  /** Sleep `k` is `min(backoff * jitter, max_backoff)` for the `k`-th backoff and jitter, so never above the cap. */
  predicate SleepsOf(cfg: RetryConfig, jitter: nat -> real, sleeps: seq<real>)
  {
    forall k :: 0 <= k < |sleeps| ==> sleeps[k] == SleepTime(cfg, k, jitter(k)) && sleeps[k] <= cfg.maxBackoff
  }

  /**
   * One try of `_acquire`: the psycopg2 error, if any, raised by `getconn`, then by
   * `ThreadedConnectionPool(...)` in `_create_pool`, then by `getconn` on the new pool.
   */
  datatype PoolAttempt = PoolAttempt(getconn: Option<Error>, createPool: Option<Error>, regetconn: Option<Error>)

  /** `_create_pool` turns a psycopg2 error into this DatabaseError, which is no psycopg2 error. */
  const PoolCreationFailed := DatabaseError("Failed to create database connection pool")

  /** What `_acquire` raises when `getconn` on the recreated pool fails too. */
  const AcquireFailed := DatabaseError("Failed to acquire database connection")

  /**
   * `_acquire` as written: when `getconn` fails the pool is recreated; the DatabaseError of a
   * failed `_create_pool` escapes `except psycopg2.Error` unchanged, and a failed second
   * `getconn` is wrapped in another DatabaseError. Neither is retried by the decorator.
   */
  function AcquireAttemptAsWritten(p: PoolAttempt): Result<(), Error>
  {
    if p.getconn.None? then Success(())
    else if p.createPool.Some? then Failure(PoolCreationFailed)
    else if p.regetconn.Some? then Failure(AcquireFailed)
    else Success(())
  }

  function AcquireAttemptsAsWritten(pool: nat -> PoolAttempt): nat -> Result<(), Error>
  {
    (k: nat) => AcquireAttemptAsWritten(pool(k))
  }

  /** The decorator around `_acquire` never retries: whatever the pool does, one call is made. */
  lemma AcquireNeverRetried(pool: nat -> PoolAttempt)
    ensures Retried(DefaultRetry, AcquireAttemptsAsWritten(pool)).1 == 1
  {
    assert !Retries(AcquireAttemptsAsWritten(pool)(0));
  }

  /**
   * `_acquire` with the retry its decorator is there for: a failed second `getconn` lets its
   * own error propagate, so a retryable one is retried; a failed pool creation still raises
   * its DatabaseError, which is not retried.
   */
  function AcquireAttempt(p: PoolAttempt): Result<(), Error>
  {
    if p.getconn.None? then Success(())
    else if p.createPool.Some? then Failure(PoolCreationFailed)
    else if p.regetconn.Some? then Failure(p.regetconn.value)
    else Success(())
  }

  function AcquireAttempts(pool: nat -> PoolAttempt): nat -> Result<(), Error>
  {
    (k: nat) => AcquireAttempt(pool(k))
  }

  /** A pool that keeps failing with OperationalError is tried four times before DatabaseError is raised. */
  lemma AcquireRetriedFourTimes(pool: nat -> PoolAttempt)
    requires forall k :: pool(k).getconn.Some? && pool(k).createPool.None? && pool(k).regetconn == Some(OperationalError)
    ensures Retried(DefaultRetry, AcquireAttempts(pool)) == (Failure(RetriesExhausted(3)), 4)
  {
    var attempt := AcquireAttempts(pool);
    assert Retries(attempt(0)) && Retries(attempt(1)) && Retries(attempt(2)) && Retries(attempt(3));
  }

  /** `DBConfig` */
  datatype DbConfig = DbConfig(
    host: string, port: int, database: string, user: string, password: string,
    minconn: int, maxconn: int, autocommit: bool)

  const DefaultConfig := DbConfig("localhost", 5432, "postgres", "postgres", "postgres", 1, 10, false)

  /** The behaviour of the pool and the server during one unit of work. */
  datatype Server = Server(pool: nat -> PoolAttempt, jitter: nat -> real, commitError: Option<Error>)

  /**
   * `cursor.executemany(sql, params)`: the statement runs once per parameter tuple, in order,
   * until the server raises; the state reached and the error, if any. `sql(s, x)` is what the
   * statement does with parameters `x` to state `s`.
   */
  function Execute<S, X>(s: S, sql: (S, X) -> Result<S, Error>, params: seq<X>): (S, Option<Error>)
    decreases |params|
  {
    if params == [] then (s, None)
    else match sql(s, params[0])
      case Success(s1) => Execute(s1, sql, params[1..])
      case Failure(e) => (s, Some(e))
  }

  /** The outcome of taking a connection through `_acquire` and its retry decorator, as written. */
  function Acquired(server: Server): Result<(), Error>
  {
    Retried(DefaultRetry, AcquireAttemptsAsWritten(server.pool)).0
  }

  /**
   * Taking a connection succeeds exactly when the first `getconn`, or the pool recreation and
   * the `getconn` after it, succeed; otherwise it raises at once, without a retry: the
   * pool-creation DatabaseError when the new pool could not be made, the acquire one when
   * only its `getconn` failed.
   */
  lemma AcquiredOnFirstAttempt(server: Server)
    ensures var p := server.pool(0);
      Acquired(server).Success? <==> p.getconn.None? || (p.createPool.None? && p.regetconn.None?)
    ensures var p := server.pool(0);
      p.getconn.Some? && p.createPool.Some? ==> Acquired(server) == Failure(PoolCreationFailed)
    ensures var p := server.pool(0);
      p.getconn.Some? && p.createPool.None? && p.regetconn.Some? ==> Acquired(server) == Failure(AcquireFailed)
  {
    assert !Retries(AcquireAttemptsAsWritten(server.pool)(0));
  }

  /**
   * What `with db.transaction() as cur: cur.executemany(sql, params)` (or the same body under
   * `db.cursor()`) leaves stored and raises. Without autocommit a failure rolls back
   * everything; with autocommit every statement that ran is already committed, and rollback
   * and commit do nothing.
   */
  function TransactionOutcome<S, X>(autocommit: bool, server: Server, s0: S, sql: (S, X) -> Result<S, Error>, params: seq<X>): (S, Result<(), Error>)
  {
    var acquired := Acquired(server);
    if acquired.Failure? then (s0, Failure(acquired.error))
    else
      var (s1, err) := Execute(s0, sql, params);
      if err.Some? then (if autocommit then s1 else s0, Failure(err.value))
      else if server.commitError.Some? && !autocommit then (s0, Failure(server.commitError.value))
      else (s1, Success(()))
  }

  /**
   * Without autocommit a transaction is all or nothing: it commits exactly when a connection
   * was had, every statement ran and the commit went through, and otherwise leaves the state
   * as it was.
   */
  lemma AllOrNothing<S, X>(server: Server, s0: S, sql: (S, X) -> Result<S, Error>, params: seq<X>)
    ensures var (s, r) := TransactionOutcome(false, server, s0, sql, params);
      && (r.Success? <==> Acquired(server).Success? && Execute(s0, sql, params).1.None? && server.commitError.None?)
      && (r.Success? ==> s == Execute(s0, sql, params).0)
      && (r.Failure? ==> s == s0)
  {
  }

  /** With autocommit, a statement that fails leaves the statements before it committed. */
  lemma AutocommitKeepsExecuted<S, X>(server: Server, s0: S, sql: (S, X) -> Result<S, Error>, params: seq<X>)
    requires Acquired(server).Success?
    ensures TransactionOutcome(true, server, s0, sql, params).0 == Execute(s0, sql, params).0
  {
  }

  /** `app.db.database.Database`: its configuration and the connections it has handed out and not yet put back. */
  class Database {
    const cfg: DbConfig
    var inUse: nat

    constructor (cfg: DbConfig)
      ensures this.cfg == cfg && inUse == 0
    {
      this.cfg := cfg;
      inUse := 0;
    }

    /** `_acquire`, with its retry decorator, as written: a failure is never retried. */
    method Acquire(server: Server) returns (r: Result<(), Error>)
      modifies this
      ensures r == Acquired(server)
      ensures var p := server.pool(0);
        r.Success? <==> p.getconn.None? || (p.createPool.None? && p.regetconn.None?)
      ensures var p := server.pool(0);
        p.getconn.Some? && p.createPool.Some? ==> r == Failure(PoolCreationFailed)
      ensures var p := server.pool(0);
        p.getconn.Some? && p.createPool.None? && p.regetconn.Some? ==> r == Failure(AcquireFailed)
      ensures inUse == old(inUse) + (if r.Success? then 1 else 0)
    {
      var calls, sleeps;
      r, calls, sleeps := WithRetry(DefaultRetry, AcquireAttemptsAsWritten(server.pool), server.jitter);
      AcquiredOnFirstAttempt(server);
      if r.Success? {
        inUse := inUse + 1;
      }
    }

    /** `_release` */
    method Release()
      requires inUse > 0
      modifies this
      ensures inUse == old(inUse) - 1
    {
      inUse := inUse - 1;
    }

    /**
     * `transaction()`: take a connection, run the body's statements, commit, and on any
     * exception roll back and re-raise; the connection always goes back to the pool.
     */
    method Transaction<S, X>(s0: S, sql: (S, X) -> Result<S, Error>, params: seq<X>, server: Server) returns (s: S, r: Result<(), Error>)
      modifies this
      ensures inUse == old(inUse)
      ensures (s, r) == TransactionOutcome(cfg.autocommit, server, s0, sql, params)
    {
      var acquired := Acquire(server);
      if acquired.Failure? {
        return s0, Failure(acquired.error);
      }
      s := s0;
      var i := 0;
      var failed: Option<Error> := None;
      while i < |params| && failed.None?
        invariant 0 <= i <= |params|
        invariant failed.None? ==> Execute(s0, sql, params) == Execute(s, sql, params[i..])
        invariant failed.Some? ==> Execute(s0, sql, params) == (s, failed)
        decreases |params| - i, if failed.None? then 1 else 0
      {
        match sql(s, params[i])
        case Success(s1) =>
          assert params[i..][1..] == params[i + 1..];
          s := s1;
          i := i + 1;
        case Failure(e) =>
          failed := Some(e);
      }
      if failed.Some? {
        r := Failure(failed.value);
        if !cfg.autocommit {
          s := s0;
        }
      } else if server.commitError.Some? && !cfg.autocommit {
        assert params[i..] == [];
        r := Failure(server.commitError.value);
        s := s0;
      } else {
        assert params[i..] == [];
        r := Success(());
      }
      Release();
    }
  }

  /** `health_check`: the `SELECT 1` row, or the exception its retried `fetchone` raised. */
  function HealthCheck(fetched: Result<Option<seq<int>>, Error>): (ok: bool)
    ensures fetched.Failure? ==> !ok
    ensures ok <==> fetched.Success? && fetched.value.Some? && |fetched.value.value| > 0 && fetched.value.value[0] == 1
  {
    match fetched
    case Failure(_) => false
    case Success(None) => false
    case Success(Some(row)) => if row == [] then false else row[0] == 1
  }

  /**
   * A fetched row as a cursor hands it back: a tuple, which is what a connection's default
   * cursor gives and what `cursor()` yields, or a dict keyed by column name, which is what
   * `cursor(dict_cursor=True)` and `fetchone`/`fetchall` are documented to give.
   */
  datatype FetchedRow<V> = TupleRow(values: seq<V>) | DictRow(fields: map<string, V>)

  /** `row[name]`: a tuple refuses a string index. */
  function Column<V>(row: FetchedRow<V>, name: string): Result<V, Error>
  {
    match row
    case TupleRow(_) => Failure(TypeError("tuple indices must be integers or slices, not str"))
    case DictRow(fields) => if name in fields then Success(fields[name]) else Failure(KeyError(name))
  }

  /** The row `cursor()` yields for columns `names` holding `values`: it never asks for a dict cursor. */
  function RowAsWritten<V>(names: seq<string>, values: seq<V>): FetchedRow<V>
  {
    TupleRow(values)
  }

  /** The row the documentation promises: each column name mapped to its value. */
  function RowAsDocumented<V>(names: seq<string>, values: seq<V>): FetchedRow<V>
    requires |names| == |values|
    requires forall i, j :: 0 <= i < j < |names| ==> names[i] != names[j]
  {
    DictRow(map i | 0 <= i < |names| :: names[i] := values[i])
  }

  /** Reading any column of a row by name, as the repositories and jobs do, raises `TypeError`. */
  lemma NamedAccessOnTupleRow<V>(names: seq<string>, values: seq<V>, name: string)
    ensures Column(RowAsWritten(names, values), name).Failure?
    ensures Column(RowAsWritten(names, values), name).error.TypeError?
  {
  }

  /** With dict rows, reading a column by name gives that column's value. */
  lemma NamedAccessOnDictRow<V>(names: seq<string>, values: seq<V>, k: nat)
    requires |names| == |values| && k < |names|
    requires forall i, j :: 0 <= i < j < |names| ==> names[i] != names[j]
    ensures Column(RowAsDocumented(names, values), names[k]) == Success(values[k])
  {
    var m := map i | 0 <= i < |names| :: names[i] := values[i];
    assert names[k] in m;
  }

  const NotInitialized := "Database not initialized \U{2013} call init_db() first"

  /** The module-level `_db`. */
  class Registry {
    var db: Database?

    constructor ()
      ensures db == null
    {
      db := null;
    }

    /**
     * `init_db(cfg)`: a second call raises RuntimeError; `poolError` is the error raised
     * while creating the connection pool, if any, which leaves `_db` unset.
     */
    method InitDb(cfg: DbConfig, poolError: Option<Error>) returns (r: Result<Database, Error>)
      modifies this
      ensures old(db) != null ==> r == Failure(RuntimeError("Database already initialized")) && db == old(db)
      ensures old(db) == null && poolError.Some? ==> r == Failure(PoolCreationFailed) && db == null
      ensures old(db) == null && poolError.None? ==> r.Success? && db == r.value && fresh(db) && db.cfg == cfg && db.inUse == 0
    {
      if db != null {
        return Failure(RuntimeError("Database already initialized"));
      }
      if poolError.Some? {
        return Failure(PoolCreationFailed);
      }
      var d := new Database(cfg);
      db := d;
      r := Success(d);
    }

    /** `get_db()`: RuntimeError before `init_db`. */
    method GetDb() returns (r: Result<Database, Error>)
      ensures db == null ==> r == Failure(RuntimeError(NotInitialized))
      ensures db != null ==> r == Success(db)
    {
      if db == null {
        return Failure(RuntimeError(NotInitialized));
      }
      r := Success(db);
    }
  }
}

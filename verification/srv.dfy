/**
 * The short-code service: allocation with one retry on a code collision,
 * lookup of a code's url, and counting a visit.
 *
 * The random generator is replaced by a caller-supplied sequence of attempts,
 * each a candidate code together with the fault, if any, that the database
 * reports for that attempt's statement. The loop reads at most the first two.
 */
module Srv {
  import opened Wrappers
  import opened Errors
  import opened RecordTable

  /** One draw of the generator and what the database does besides the table. */
  datatype Attempt = Attempt(id: string, fault: Option<Fault>)

  /** The generator always yields a fresh six-character code, so a run can
      draw as many as it needs: two are enough. */
  predicate ValidAttempts(attempts: seq<Attempt>)
  {
    |attempts| >= 2 && forall i :: 0 <= i < |attempts| ==> ValidCode(attempts[i].id)
  }

  /** What one attempt decides: return this result, or draw a fresh code. */
  datatype Verdict = Done(result: Result<string, Failure>) | RetryWithFreshCode

  /** The write failed with a primary-key collision on the code just tried
      (a collision detail about any other key is not one). */
  predicate IsIdCollision(id: string, ret: Result<Record, SqlxError>)
  {
    ret.Err? && ret.error.Database? && ret.error.failure.detail == Some(IdAlreadyExists(id))
  }

  /** The verdict on one write: success returns the row's code; a collision on
      the tried code retries while a retry is left and is RetryFailed after;
      any other database error is DbError with the server's message; any
      non-database error is Unknown. */
  function Classify(id: string, ret: Result<Record, SqlxError>, canRetry: bool): (v: Verdict)
    ensures v.RetryWithFreshCode? <==> canRetry && IsIdCollision(id, ret)
    ensures v == Done(Err(Service(RetryFailed))) <==> !canRetry && IsIdCollision(id, ret)
    ensures (v.Done? && v.result.Ok?) <==> ret.Ok?
    ensures ret.Ok? ==> v.result.value == ret.value.id
    ensures v.Done? && v.result.Err? ==> v.result.error.Service?
    ensures ret.Err? && ret.error.Database? && !IsIdCollision(id, ret) ==>
              v == Done(Err(Service(DbError(ret.error.failure.message))))
    ensures ret.Err? && !ret.error.Database? ==> v == Done(Err(Service(Unknown)))
  {
    match ret
    case Ok(record) => Done(Ok(record.id))
    case Err(Database(dbErr)) =>
      if dbErr.detail == Some(IdAlreadyExists(id)) then
        if canRetry then RetryWithFreshCode else Done(Err(Service(RetryFailed)))
      else
        Done(Err(Service(DbError(dbErr.message))))
    case Err(_) => Done(Err(Service(Unknown)))
  }

  /** The outcome of one allocation: the result, the table afterwards, and how
      many codes were drawn. */
  datatype Shortening = Shortening(result: Result<string, Failure>, table: Table, drawn: nat)

  /** Allocation as a two-phase machine: the first attempt may retry, the
      retry attempt may not. */
  ghost function ShortenSpec(t: Table, url: string, attempts: seq<Attempt>): (s: Shortening)
    requires UrlsUnique(t) && |attempts| >= 2
    ensures s.drawn == 1 || s.drawn == 2
    ensures s.drawn == 2 <==> IsIdCollision(attempts[0].id, Upsert(t, attempts[0].id, url, attempts[0].fault).0)
    ensures s.result.Err? ==> s.table == t && s.result.error.Service?
    ensures s.result.Ok? ==> s.result.value in s.table && s.table[s.result.value].url == url
    ensures s.table == t || (s.result.Ok? && s.result.value !in t && s.table == t[s.result.value := Entry(url, 0)])
  {
    var a0 := attempts[0];
    var (ret0, t0) := Upsert(t, a0.id, url, a0.fault);
    match Classify(a0.id, ret0, true)
    case Done(r) => Shortening(r, t0, 1)
    case RetryWithFreshCode =>
      var a1 := attempts[1];
      var (ret1, t1) := Upsert(t0, a1.id, url, a1.fault);
      match Classify(a1.id, ret1, false)
      case Done(r) => Shortening(r, t1, 2)
  }

  /** The result a visit reports: the driver's error is passed on as is. */
  function VisitResult(ret: Result<(), SqlxError>): (r: Result<(), Failure>)
    ensures r.Ok? <==> ret.Ok?
    ensures ret.Err? ==> r == Err(Sqlx(ret.error))
  {
    match ret
    case Ok(_) => Ok(())
    case Err(e) => Err(Sqlx(e))
  }

  class ShortenSrv {
    const db: Database

    ghost predicate Valid()
      reads this, db
    {
      db.Valid()
    }

    constructor (db: Database)
      requires db.Valid()
      ensures this.db == db && Valid()
    {
      this.db := db;
    }

    /** The allocation loop. A code collision on the first write clears
        `canRetry` and draws again; any other verdict returns. */
    method ShortenWithRetry(url: string, attempts: seq<Attempt>) returns (r: Result<string, Failure>, drawn: nat)
      requires Valid() && ValidAttempts(attempts)
      modifies db
      ensures Valid()
      ensures Shortening(r, db.rows, drawn) == ShortenSpec(old(db.rows), url, attempts)
    {
      var canRetry := true;
      drawn := 0;
      while true
        invariant db.Valid()
        invariant canRetry <==> drawn == 0
        invariant drawn <= 1
        invariant db.rows == old(db.rows)
        invariant !canRetry ==> IsIdCollision(attempts[0].id, Upsert(old(db.rows), attempts[0].id, url, attempts[0].fault).0)
        decreases if canRetry then 1 else 0
      {
        var a := attempts[drawn];
        var ret := db.InsertOnConflictUrl(a.id, url, a.fault);
        drawn := drawn + 1;
        match Classify(a.id, ret, canRetry)
        case Done(result) =>
          r := result;
          return;
        case RetryWithFreshCode =>
          canRetry := false;
      }
    }

    method Shorten(url: string, attempts: seq<Attempt>) returns (r: Result<string, Failure>)
      requires Valid() && ValidAttempts(attempts)
      modifies db
      ensures Valid()
      ensures var s := ShortenSpec(old(db.rows), url, attempts); r == s.result && db.rows == s.table
    {
      var drawn;
      r, drawn := ShortenWithRetry(url, attempts);
    }

    /** The stored url of a code; an absent code is the driver's RowNotFound. */
    function GetUrl(id: string, fault: Option<Fault>): (r: Result<string, Failure>)
      reads this, db
      ensures r.Ok? <==> fault.None? && id in db.rows
      ensures r.Ok? ==> r.value == db.rows[id].url
      ensures fault.None? && id !in db.rows ==> r == Err(Sqlx(RowNotFound))
    {
      match Select(db.rows, id, fault)
      case Ok(record) => Ok(record.url)
      case Err(e) => Err(Sqlx(e))
    }

    method Visit(id: string, fault: Option<Fault>) returns (r: Result<(), Failure>)
      requires Valid()
      modifies db
      ensures Valid()
      ensures var res := Increment(old(db.rows), id, fault); r == VisitResult(res.0) && db.rows == res.1
    {
      var ret := db.IncrementCount(id, fault);
      r := VisitResult(ret);
    }
  }
}

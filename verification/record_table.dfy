/**
 * The `record` table: short code (primary key) -> (url, visit count).
 *
 * The schema declares `id VARCHAR(6) PRIMARY KEY`, `url TEXT NOT NULL UNIQUE`
 * and `count INT NOT NULL DEFAULT 0`. Keying a map by code makes codes unique
 * by construction; `Inv` adds the rest: urls are unique, every code is six
 * characters of the generator's alphabet, and every count is a non-negative
 * 32-bit integer.
 *
 * The three statements the service issues are given here as pure functions of
 * the table (`Upsert`, `Select`, `Increment`), each also taking the fault, if
 * any, that makes the statement fail before it touches the table. The class
 * `Database` holds the table and executes them in place.
 */
module RecordTable {
  import opened Wrappers
  import opened Errors

  /** Length of every generated code (`nanoid!(6)`). */
  const CodeLength := 6

  /** Largest value of a Postgres INT column. */
  const Int32Max := 0x7fff_ffff

  /** Server message for the primary-key violation on `id`. */
  const DuplicateIdMessage := "duplicate key value violates unique constraint \"record_pkey\""

  /** Server message when `count + 1` does not fit an INT. */
  const OutOfRangeMessage := "integer out of range"

  /** A character of nanoid's default URL-safe alphabet `_-0-9a-zA-Z`. */
  predicate IsCodeChar(ch: char)
  {
    ch == '_' || ch == '-' || '0' <= ch <= '9' || 'a' <= ch <= 'z' || 'A' <= ch <= 'Z'
  }

  predicate ValidCode(id: string)
  {
    |id| == CodeLength && forall i :: 0 <= i < |id| ==> IsCodeChar(id[i])
  }

  /** The non-key columns of one row. */
  datatype Entry = Entry(url: string, count: int)

  /** A whole row, as `RETURNING *` and `SELECT *` give it. */
  datatype Record = Record(id: string, url: string, count: int)

  type Table = map<string, Entry>

  ghost predicate UrlsUnique(t: Table)
  {
    forall c1, c2 :: c1 in t && c2 in t && t[c1].url == t[c2].url ==> c1 == c2
  }

  ghost predicate Inv(t: Table)
  {
    && (forall c :: c in t ==> ValidCode(c) && 0 <= t[c].count <= Int32Max)
    && UrlsUnique(t)
  }

  predicate Stored(t: Table, url: string)
  {
    exists c :: c in t && t[c].url == url
  }

  /** `t2` extends `t1`: no row is lost, no code changes its url, and no count
      goes down. */
  ghost predicate Grows(t1: Table, t2: Table)
  {
    forall c :: c in t1 ==> c in t2 && t2[c].url == t1[c].url && t1[c].count <= t2[c].count
  }

  /**
   * `INSERT INTO record (id, url) VALUES (id, url) ON CONFLICT (url) DO UPDATE
   * SET url = EXCLUDED.url RETURNING *`. The url index is the conflict arbiter,
   * so an already stored url wins over a taken code: its row comes back
   * unchanged. Otherwise a taken code is a primary-key violation whose detail
   * names the code, and a free code gets the new row with the default count 0.
   */
  function Upsert(t: Table, id: string, url: string, fault: Option<Fault>): (res: (Result<Record, SqlxError>, Table))
    requires UrlsUnique(t)
    ensures res.0.Err? ==> res.1 == t
    ensures res.0.Ok? ==> res.0.value.url == url && res.0.value.id in res.1
                          && res.1[res.0.value.id] == Entry(url, res.0.value.count)
    ensures res.1 == t || (res.0 == Ok(Record(id, url, 0)) && id !in t && res.1 == t[id := Entry(url, 0)])
    ensures Grows(t, res.1)
  {
    if fault.Some? then (Err(FaultError(fault.value)), t)
    else if Stored(t, url) then
      var c :| c in t && t[c].url == url;
      (Ok(Record(c, url, t[c].count)), t)
    else if id in t then
      (Err(Database(DbFailure(DuplicateIdMessage, Some(IdAlreadyExists(id))))), t)
    else
      (Ok(Record(id, url, 0)), t[id := Entry(url, 0)])
  }

  /** `SELECT * FROM record WHERE id = $1` fetched with `fetch_one`: no row is
      the driver's RowNotFound error. */
  function Select(t: Table, id: string, fault: Option<Fault>): (r: Result<Record, SqlxError>)
    ensures r.Ok? <==> fault.None? && id in t
    ensures r.Ok? ==> r.value == Record(id, t[id].url, t[id].count)
    ensures fault.None? && id !in t ==> r == Err(RowNotFound)
  {
    if fault.Some? then Err(FaultError(fault.value))
    else if id in t then Ok(Record(id, t[id].url, t[id].count))
    else Err(RowNotFound)
  }

  /** `UPDATE record SET count = count + 1 WHERE id = $1`. The number of rows
      affected is not looked at, so a missing code succeeds without effect;
      an increment past the INT range is a database error. */
  function Increment(t: Table, id: string, fault: Option<Fault>): (res: (Result<(), SqlxError>, Table))
    ensures res.1.Keys == t.Keys
    ensures Grows(t, res.1)
    ensures res.0.Err? ==> res.1 == t
    ensures res.1 == t || (id in t && res.0.Ok? && res.1 == t[id := Entry(t[id].url, t[id].count + 1)])
  {
    if fault.Some? then (Err(FaultError(fault.value)), t)
    else if id !in t then (Ok(()), t)
    else if t[id].count + 1 > Int32Max then (Err(Database(DbFailure(OutOfRangeMessage, None))), t)
    else (Ok(()), t[id := t[id].(count := t[id].count + 1)])
  }

  /** The database behind the connection pool, reduced to the one table. */
  class Database {
    var rows: Table

    ghost predicate Valid()
      reads this
    {
      Inv(rows)
    }

    /** The table as `CREATE TABLE IF NOT EXISTS` leaves it: possibly
        already holding rows from earlier runs. */
    constructor (initial: Table)
      requires Inv(initial)
      ensures Valid() && rows == initial
    {
      rows := initial;
    }

    method InsertOnConflictUrl(id: string, url: string, fault: Option<Fault>) returns (ret: Result<Record, SqlxError>)
      requires Valid() && ValidCode(id)
      modifies this
      ensures Valid()
      ensures (ret, rows) == Upsert(old(rows), id, url, fault)
    {
      UpsertKeepsInv(rows, id, url, fault);
      var res := Upsert(rows, id, url, fault);
      ret, rows := res.0, res.1;
    }

    method IncrementCount(id: string, fault: Option<Fault>) returns (ret: Result<(), SqlxError>)
      requires Valid()
      modifies this
      ensures Valid()
      ensures (ret, rows) == Increment(old(rows), id, fault)
    {
      IncrementKeepsInv(rows, id, fault);
      var res := Increment(rows, id, fault);
      ret, rows := res.0, res.1;
    }
  }

  /** The store invariants survive the upsert of a well-formed code. */
  lemma UpsertKeepsInv(t: Table, id: string, url: string, fault: Option<Fault>)
    requires Inv(t) && ValidCode(id)
    ensures Inv(Upsert(t, id, url, fault).1)
  {
    var t' := Upsert(t, id, url, fault).1;
    if t' != t {
      assert !Stored(t, url);
      forall c1, c2 | c1 in t' && c2 in t' && t'[c1].url == t'[c2].url
        ensures c1 == c2
      {
        if c1 != id && c2 != id {
          assert t[c1].url == t[c2].url;
        }
      }
    }
  }

  /** The store invariants survive an increment: the INT bound is exactly
      what the out-of-range check protects. */
  lemma IncrementKeepsInv(t: Table, id: string, fault: Option<Fault>)
    requires Inv(t)
    ensures Inv(Increment(t, id, fault).1)
  {
    var t' := Increment(t, id, fault).1;
    forall c1, c2 | c1 in t' && c2 in t' && t'[c1].url == t'[c2].url
      ensures c1 == c2
    {
      assert t[c1].url == t[c2].url;
    }
  }

  /** Upserting a url that is stored returns its existing row, code and count
      included, and leaves the table as it was, whatever the candidate code. */
  lemma UpsertStoredUrl(t: Table, c: string, id: string, url: string)
    requires UrlsUnique(t) && c in t && t[c].url == url
    ensures Upsert(t, id, url, None) == (Ok(Record(c, url, t[c].count)), t)
  {
  }

  /** Upserting a new url with a free code inserts exactly `(id, url, 0)`. */
  lemma UpsertFreshCode(t: Table, id: string, url: string)
    requires UrlsUnique(t) && !Stored(t, url) && id !in t
    ensures Upsert(t, id, url, None) == (Ok(Record(id, url, 0)), t[id := Entry(url, 0)])
  {
  }

  /** The upsert reports a collision on `id` exactly when no fault intervened,
      the url is new and the code is taken; the table is then unchanged. */
  lemma UpsertCollision(t: Table, id: string, url: string, fault: Option<Fault>)
    requires UrlsUnique(t)
    ensures var res := Upsert(t, id, url, fault);
            (res.0.Err? && res.0.error.Database? && res.0.error.failure.detail == Some(IdAlreadyExists(id)))
            <==> (fault.None? && !Stored(t, url) && id in t)
  {
  }

  /** A faulted statement fails with the fault's error and touches nothing. */
  lemma FaultedStatementsChangeNothing(t: Table, id: string, url: string, f: Fault)
    requires UrlsUnique(t)
    ensures Upsert(t, id, url, Some(f)) == (Err(FaultError(f)), t)
    ensures Increment(t, id, Some(f)) == (Err(FaultError(f)), t)
    ensures Select(t, id, Some(f)) == Err(FaultError(f))
  {
  }

  /** An increment of a present code below the INT bound adds exactly one to
      its count; every other row, and its url, stay as they were. */
  lemma IncrementPresent(t: Table, id: string)
    requires id in t && t[id].count < Int32Max
    ensures var res := Increment(t, id, None);
            && res.0 == Ok(())
            && res.1[id] == Entry(t[id].url, t[id].count + 1)
            && forall c :: c in t && c != id ==> res.1[c] == t[c]
  {
  }

  /** An increment of a code whose count is already the INT maximum is the
      server's out-of-range error, and the row keeps its count. */
  lemma IncrementAtBound(t: Table, id: string)
    requires id in t && t[id].count == Int32Max
    ensures Increment(t, id, None) == (Err(Database(DbFailure(OutOfRangeMessage, None))), t)
  {
  }

  /** An increment of an absent code succeeds and changes nothing. */
  lemma IncrementAbsent(t: Table, id: string)
    requires id !in t
    ensures Increment(t, id, None) == (Ok(()), t)
  {
  }
}

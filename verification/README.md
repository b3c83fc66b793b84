# Short-code allocator and resolver, modelled in Dafny

This project models the core of a URL shortener: the `ShortenSrv`
implementation of `ShortenService` in `src/srv.rs`. The service keeps one
Postgres table, `record (id VARCHAR(6) PRIMARY KEY, url TEXT NOT NULL UNIQUE,
count INT NOT NULL DEFAULT 0)`, and offers three operations:

- `shorten(url)` draws a random six-character code and upserts `(code, url)`
  with `ON CONFLICT (url)`. A url that is already stored returns its existing
  code. A primary-key collision on the drawn code is retried once with a fresh
  code. A second collision is `RetryFailed`. Any other database error is
  `DbError`, and any other driver error is `Unknown`.
- `get_url(code)` is a point lookup. An absent code is the driver's
  "row not found" error.
- `visit(code)` runs `count = count + 1`. The row count is not looked at, so
  an absent code is a silent success.

Files:

- `wrappers.dfy`: `Option` and `Result`.
- `errors.dfy`: the service's `ServiceError` enum. It also holds a
  driver-independent stand-in for the database client's error (database
  error with message and optional detail, row-not-found, anything else), and
  the `Fault` a statement can fail with for reasons outside the table.
- `record_table.dfy`: the table as `map<code, Entry(url, count)>` and its
  invariant `Inv`. The three SQL statements are pure functions `Upsert`,
  `Select` and `Increment`. The class `Database` holds the table and runs the
  statements in place.
- `srv.dfy`: the pure error classification `Classify`, the two-phase
  specification `ShortenSpec` and the class `ShortenSrv`. Its
  `ShortenWithRetry` is the source's loop with a mutable `canRetry` flag,
  proved equal to `ShortenSpec`.
- `srv_properties.dfy`: lemmas about allocation (idempotence, fresh insert,
  the one-retry bound, error outcomes, invariants) and about any sequence of
  service calls (`Replay`).

The random generator `nanoid!(6)` is a parameter. Each call gets a sequence
of `Attempt`s, where each attempt is a candidate code plus the fault, if any,
that the database reports for that statement. The generator never runs out,
so callers supply at least two attempts, and every candidate is six
characters of nanoid's default alphabet (`_-0-9a-zA-Z`). `ShortenWithRetry`
also returns how many codes it drew, so the retry bound can be stated.

Postgres semantics written out:

- In the upsert, the url index is the conflict arbiter. So a stored url wins
  over a taken code, and the existing row comes back unchanged.
- `count` is a 32-bit `INT`, so an increment past 2147483647 is a database
  error ("integer out of range") and leaves the row as it was.

## Model

| member | source | states |
|---|---|---|
| RecordTable.Upsert | src/srv.rs:48-59 | an error leaves the table unchanged; a success returns a row holding the given url that is in the table afterwards; the table either stays as it was or gains exactly `(id, url, 0)` for a code that was free; no row is lost or changed |
| RecordTable.Select | src/srv.rs:98-105 | succeeds iff no fault and the code is present, then returns that code's row; an absent code is RowNotFound |
| RecordTable.Increment | src/srv.rs:111-118 | keeps the set of codes and every url; never lowers a count; an error leaves the table unchanged; otherwise the table is unchanged or only the visited code's count went up by one |
| RecordTable.Database.constructor | src/srv.rs:22-32 | the store starts from a table satisfying `Inv`, the invariant the service's own writes keep: the schema's unique codes and urls, plus six-character codes of the generator's alphabet and counts between 0 and the INT maximum |
| RecordTable.Database.InsertOnConflictUrl | src/srv.rs:48-59 | runs the upsert in place: the returned row and the new table are those of `Upsert`, and the invariants still hold |
| RecordTable.Database.IncrementCount | src/srv.rs:111-118 | runs the increment in place: result and new table are those of `Increment`, and the invariants still hold |
| RecordTable.UpsertKeepsInv | src/srv.rs:24-28 | the upsert of a six-character code keeps urls unique, codes well formed and counts in the INT range |
| RecordTable.IncrementKeepsInv | src/srv.rs:27 | the increment keeps every store invariant, including the INT bound on counts |
| RecordTable.UpsertStoredUrl | src/srv.rs:50-53 | upserting a stored url returns its existing code and count and leaves the table unchanged, whatever code was drawn |
| RecordTable.UpsertFreshCode | src/srv.rs:50-53 | upserting a new url with a free code inserts exactly `(id, url, 0)` and returns it |
| RecordTable.UpsertCollision | src/srv.rs:50-53 | the upsert reports a collision on the drawn code exactly when there is no fault, the url is new and the code is taken |
| RecordTable.FaultedStatementsChangeNothing | src/srv.rs:59 | a statement that fails for a reason outside the table returns that error and leaves the table unchanged |
| RecordTable.IncrementPresent | src/srv.rs:113 | a visit to a present code below the INT bound adds exactly one to its count, and every other row stays as it was |
| RecordTable.IncrementAtBound | src/srv.rs:113 | a visit to a code whose count is already 2147483647 fails with the server's "integer out of range" error and leaves the table unchanged |
| RecordTable.IncrementAbsent | src/srv.rs:113-120 | a visit to an absent code succeeds and changes nothing |
| Srv.Classify | src/srv.rs:61-86 | retry iff a retry is left and the error is a collision on the code just tried; RetryFailed iff it is that collision with no retry left; success iff the write succeeded, returning the row's code; any other database error is DbError with the server's message; any non-database error is Unknown |
| Srv.ShortenSpec | src/srv.rs:42-88 | one or two codes are drawn, two exactly when the first write collided on its code; a failure leaves the table unchanged and is a service error; a success returns a code that maps to the url, and the table is unchanged or gained exactly that code's row with count 0 |
| Srv.VisitResult | src/srv.rs:118-120 | a visit reports success iff the UPDATE succeeded, and otherwise passes on the driver's error |
| Srv.ShortenSrv.constructor | src/srv.rs:34-36 | the service owns the given database handle |
| Srv.ShortenSrv.ShortenWithRetry | src/srv.rs:42-88 | the loop with the `canRetry` flag gives exactly the result, new table and number of draws of `ShortenSpec`, and keeps the store invariants |
| Srv.ShortenSrv.Shorten | src/srv.rs:92-95 | returns the allocation's result unchanged |
| Srv.ShortenSrv.GetUrl | src/srv.rs:97-108 | succeeds iff no fault and the code is stored, then returns its url; an absent code is RowNotFound; reads the store only |
| Srv.ShortenSrv.Visit | src/srv.rs:110-121 | the new table and the result are those of `Increment`, and the store invariants hold afterwards |
| SrvProperties.ShortenStoredUrl | src/srv.rs:50-53 | shortening a stored url returns its existing code after one draw and leaves the table, counts included, unchanged |
| SrvProperties.ShortenNewUrl | src/srv.rs:50-63 | shortening a new url with a free code adds exactly `(code, url, 0)` and returns that code, which then resolves to the url |
| SrvProperties.ShortenRetriesOnce | src/srv.rs:69-73 | a collision on the first code draws exactly one more code, and the outcome is that of one write of it with no retry left |
| SrvProperties.ShortenRetryFailed | src/srv.rs:71-76 | a collision on both codes is RetryFailed after two draws, with the table unchanged |
| SrvProperties.ShortenRetrySucceeds | src/srv.rs:69-73 | a collision followed by a free code inserts the second code's row after two draws |
| SrvProperties.ShortenFaultNoRetry | src/srv.rs:65-85 | a database error that is not a collision is DbError and a non-database error is Unknown, both after one draw and with the table unchanged |
| SrvProperties.ShortenErrorsClosed | src/srv.rs:61-86 | every failed allocation is RetryFailed, DbError or Unknown |
| SrvProperties.ShortenKeepsInv | src/srv.rs:24-28 | allocation keeps urls unique, codes six characters of the alphabet and counts in range |
| SrvProperties.ShortenKeepsRows | src/srv.rs:50-52 | allocation never changes an existing row, so it never changes a count |
| SrvProperties.ShortenIdempotent | src/srv.rs:50-53 | after a successful allocation, shortening the same url again returns the same code and changes nothing |
| SrvProperties.ShortenThenSelect | src/srv.rs:97-107 | the code a successful allocation returns resolves to the url |
| SrvProperties.CollidingAllocations | src/srv.rs:45-76 | two new urls drawing the same first code end with two distinct codes, each resolving to its own url |
| SrvProperties.Apply | src/srv.rs:91-121 | any single call keeps the store invariants |
| SrvProperties.ReplayKeepsInvAndGrows | src/srv.rs:24-28 | any sequence of calls keeps the invariants, loses no row, changes no url and decreases no count |
| SrvProperties.ReplayWithoutVisitsKeepsRows | src/srv.rs:113 | a sequence of calls without a visit leaves every existing row, count included, unchanged |

## Left out

- Connection pool setup and `CREATE TABLE IF NOT EXISTS` (`ShortenSrv::try_new`) are I/O. The model starts from a table satisfying `Inv`.
- Tables holding rows written by other clients are not modelled. The schema allows codes of zero to six arbitrary characters and negative counts, but `Inv` admits only six-character codes of the generator's alphabet and counts of at least 0, which is what this service's own writes produce.
- The random code generator is a caller-supplied sequence of attempts. Its uniformity and the odds of a collision are not modelled.
- The exact text of the Postgres detail line (`Key (id)=(…) already exists.`) is not modelled. A collision is a detail value naming the colliding key.
- `VARCHAR(6)` length enforcement, including Postgres truncating trailing spaces, is not modelled. Every candidate code is six characters long, as the generator guarantees.
- Database failures other than the primary-key collision and the INT overflow come in as an injected `Fault` per statement, either a server error without detail or a non-database driver error. The reasons for them (lost connection, pool timeout) are not modelled.
- A fault is assumed to happen before the statement takes effect. An error reported after the auto-committed `INSERT … ON CONFLICT` or `UPDATE` has run (for example, the connection dropping before the reply arrives) is not modelled. In that run the source returns `Unknown` from `shorten`, or an error from `visit`, even though the row was inserted or the count went up. So "a failure leaves the table unchanged" (`ShortenSpec`, `ShortenFaultNoRetry`, `FaultedStatementsChangeNothing`) holds only under this assumption.
- Concurrency, async suspension and the atomicity of `count = count + 1` under concurrent writers are Postgres guarantees. The model is sequential.
- The HTTP layer (`src/handler.rs`, `src/error.rs`'s `IntoResponse`, `src/main.rs`) is not part of this model. Only the `ServiceError` variants and the row shape `(id, url, count)` are used. The handler's mapping of every shorten error to `CannotShorten`, and its discarding of a visit failure, are not modelled.
- Logging (`error!`) is not modelled.

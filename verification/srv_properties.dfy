/**
 * What allocation, lookup and visit counting promise, stated over the
 * two-phase specification `ShortenSpec` and the table statements, and over
 * whole sequences of service calls.
 */
module SrvProperties {
  import opened Wrappers
  import opened Errors
  import opened RecordTable
  import opened Srv

  /** Shortening a url that is already stored returns its existing code after
      one write and leaves the table, counts included, exactly as it was. */
  lemma ShortenStoredUrl(t: Table, c: string, url: string, attempts: seq<Attempt>)
    requires UrlsUnique(t) && |attempts| >= 2
    requires c in t && t[c].url == url && attempts[0].fault.None?
    ensures ShortenSpec(t, url, attempts) == Shortening(Ok(c), t, 1)
  {
    UpsertStoredUrl(t, c, attempts[0].id, url);
  }

  /** Shortening a new url with a free first code adds exactly the row
      `(code, url, 0)` and returns that code; looking the code up then gives
      the url back. */
  lemma ShortenNewUrl(t: Table, url: string, attempts: seq<Attempt>)
    requires UrlsUnique(t) && |attempts| >= 2
    requires !Stored(t, url) && attempts[0].id !in t && attempts[0].fault.None?
    ensures var id := attempts[0].id;
            var s := ShortenSpec(t, url, attempts);
            && s == Shortening(Ok(id), t[id := Entry(url, 0)], 1)
            && Select(s.table, id, None) == Ok(Record(id, url, 0))
  {
    UpsertFreshCode(t, attempts[0].id, url);
  }

  /** A collision on the first code draws exactly one more code, and the
      outcome is that of a single write of the second code with no retry
      left. */
  lemma ShortenRetriesOnce(t: Table, url: string, attempts: seq<Attempt>)
    requires UrlsUnique(t) && |attempts| >= 2
    requires !Stored(t, url) && attempts[0].id in t && attempts[0].fault.None?
    ensures var a1 := attempts[1];
            var (ret1, t1) := Upsert(t, a1.id, url, a1.fault);
            ShortenSpec(t, url, attempts) == Shortening(Classify(a1.id, ret1, false).result, t1, 2)
  {
    UpsertCollision(t, attempts[0].id, url, attempts[0].fault);
  }

  /** A collision on both codes is RetryFailed after two writes, and the table
      is unchanged. */
  lemma ShortenRetryFailed(t: Table, url: string, attempts: seq<Attempt>)
    requires UrlsUnique(t) && |attempts| >= 2
    requires !Stored(t, url)
    requires attempts[0].id in t && attempts[0].fault.None?
    requires attempts[1].id in t && attempts[1].fault.None?
    ensures ShortenSpec(t, url, attempts) == Shortening(Err(Service(RetryFailed)), t, 2)
  {
    ShortenRetriesOnce(t, url, attempts);
    UpsertCollision(t, attempts[1].id, url, attempts[1].fault);
  }

  /** A collision on the first code and a free second code inserts the second
      code's row after two writes. */
  lemma ShortenRetrySucceeds(t: Table, url: string, attempts: seq<Attempt>)
    requires UrlsUnique(t) && |attempts| >= 2
    requires !Stored(t, url)
    requires attempts[0].id in t && attempts[0].fault.None?
    requires attempts[1].id !in t && attempts[1].fault.None?
    ensures var id := attempts[1].id;
            ShortenSpec(t, url, attempts) == Shortening(Ok(id), t[id := Entry(url, 0)], 2)
  {
    ShortenRetriesOnce(t, url, attempts);
    UpsertFreshCode(t, attempts[1].id, url);
  }

  /** A database error that is not a code collision ends the run as DbError
      after one write, and a non-database error as Unknown; neither retries
      or touches the table. */
  lemma ShortenFaultNoRetry(t: Table, url: string, attempts: seq<Attempt>)
    requires UrlsUnique(t) && |attempts| >= 2 && attempts[0].fault.Some?
    ensures var s := ShortenSpec(t, url, attempts);
            && s.drawn == 1 && s.table == t
            && (attempts[0].fault.value.ServerFault? ==>
                  s.result == Err(Service(DbError(attempts[0].fault.value.message))))
            && (attempts[0].fault.value.ConnectionFault? ==> s.result == Err(Service(Unknown)))
  {
    FaultedStatementsChangeNothing(t, attempts[0].id, url, attempts[0].fault.value);
  }

  /** Every failure of an allocation is one of RetryFailed, DbError or
      Unknown. */
  lemma ShortenErrorsClosed(t: Table, url: string, attempts: seq<Attempt>)
    requires UrlsUnique(t) && |attempts| >= 2
    ensures var s := ShortenSpec(t, url, attempts);
            s.result.Err? ==>
              && s.result.error.Service?
              && (s.result.error.error.RetryFailed? || s.result.error.error.DbError? || s.result.error.error.Unknown?)
  {
    var a0 := attempts[0];
    var (ret0, t0) := Upsert(t, a0.id, url, a0.fault);
    if Classify(a0.id, ret0, true).RetryWithFreshCode? {
      var a1 := attempts[1];
      var (ret1, t1) := Upsert(t0, a1.id, url, a1.fault);
      assert Classify(a1.id, ret1, false).Done?;
    }
  }

  /** Allocation keeps the store invariants: urls unique, codes six characters
      of the alphabet, counts within the INT range. */
  lemma ShortenKeepsInv(t: Table, url: string, attempts: seq<Attempt>)
    requires Inv(t) && ValidAttempts(attempts)
    ensures Inv(ShortenSpec(t, url, attempts).table)
  {
    var a0, a1 := attempts[0], attempts[1];
    UpsertKeepsInv(t, a0.id, url, a0.fault);
    var t0 := Upsert(t, a0.id, url, a0.fault).1;
    UpsertKeepsInv(t0, a1.id, url, a1.fault);
  }

  /** Allocation never changes a row that was already there: only a visit
      changes a count. */
  lemma ShortenKeepsRows(t: Table, url: string, attempts: seq<Attempt>)
    requires UrlsUnique(t) && |attempts| >= 2
    ensures var s := ShortenSpec(t, url, attempts);
            forall c :: c in t ==> c in s.table && s.table[c] == t[c]
  {
  }

  /** Shortening the same url again returns the same code and changes
      nothing, whichever codes the second run draws. */
  lemma ShortenIdempotent(t: Table, url: string, first: seq<Attempt>, second: seq<Attempt>)
    requires Inv(t) && ValidAttempts(first) && |second| >= 2 && second[0].fault.None?
    requires ShortenSpec(t, url, first).result.Ok?
    ensures var s1 := ShortenSpec(t, url, first);
            Inv(s1.table) && ShortenSpec(s1.table, url, second) == Shortening(s1.result, s1.table, 1)
  {
    var s1 := ShortenSpec(t, url, first);
    ShortenKeepsInv(t, url, first);
    ShortenStoredUrl(s1.table, s1.result.value, url, second);
  }

  /** After a successful allocation the returned code resolves to the url. */
  lemma ShortenThenSelect(t: Table, url: string, attempts: seq<Attempt>)
    requires UrlsUnique(t) && |attempts| >= 2
    requires ShortenSpec(t, url, attempts).result.Ok?
    ensures var s := ShortenSpec(t, url, attempts);
            Select(s.table, s.result.value, None).Ok? && Select(s.table, s.result.value, None).value.url == url
  {
  }

  /** Two different new urls that draw the same first code: the first gets it,
      the second collides, retries with its second code and gets that; both
      codes then resolve to their own url. */
  lemma CollidingAllocations(t: Table, u1: string, u2: string, c: string, d: string,
                             rest1: seq<Attempt>, rest2: seq<Attempt>)
    requires UrlsUnique(t) && u1 != u2 && !Stored(t, u1) && !Stored(t, u2)
    requires c != d && c !in t && d !in t && |rest1| >= 1
    ensures var s1 := ShortenSpec(t, u1, [Attempt(c, None)] + rest1);
            UrlsUnique(s1.table) &&
            var s2 := ShortenSpec(s1.table, u2, [Attempt(c, None), Attempt(d, None)] + rest2);
            && s1.result == Ok(c) && s1.drawn == 1
            && s2.result == Ok(d) && s2.drawn == 2
            && Select(s2.table, c, None) == Ok(Record(c, u1, 0))
            && Select(s2.table, d, None) == Ok(Record(d, u2, 0))
  {
    var as1 := [Attempt(c, None)] + rest1;
    ShortenNewUrl(t, u1, as1);
    var t1 := t[c := Entry(u1, 0)];
    ShortenRetrySucceeds(t1, u2, [Attempt(c, None), Attempt(d, None)] + rest2);
  }

  /** One call against the service, as a caller issues it. */
  datatype Call =
    | ShortenCall(url: string, attempts: seq<Attempt>)
    | GetUrlCall(id: string, fault: Option<Fault>)
    | VisitCall(id: string, fault: Option<Fault>)

  predicate WellFormed(call: Call)
  {
    call.ShortenCall? ==> ValidAttempts(call.attempts)
  }

  /** The table after one call. */
  ghost function Apply(t: Table, call: Call): (t': Table)
    requires Inv(t) && WellFormed(call)
    ensures Inv(t')
  {
    match call
    case ShortenCall(url, attempts) =>
      ShortenKeepsInv(t, url, attempts);
      ShortenSpec(t, url, attempts).table
    case GetUrlCall(_, _) => t
    case VisitCall(id, fault) =>
      IncrementKeepsInv(t, id, fault);
      Increment(t, id, fault).1
  }

  /** The table after a sequence of calls, one after the other. */
  ghost function Replay(t: Table, calls: seq<Call>): Table
    requires Inv(t) && forall i :: 0 <= i < |calls| ==> WellFormed(calls[i])
    decreases |calls|
  {
    if calls == [] then t else Replay(Apply(t, calls[0]), calls[1..])
  }

  /** Any sequence of calls keeps the store invariants, loses no row, changes
      no code's url and decreases no count. */
  lemma {:induction false} ReplayKeepsInvAndGrows(t: Table, calls: seq<Call>)
    requires Inv(t) && forall i :: 0 <= i < |calls| ==> WellFormed(calls[i])
    ensures Inv(Replay(t, calls)) && Grows(t, Replay(t, calls))
    decreases |calls|
  {
    if calls != [] {
      var t1 := Apply(t, calls[0]);
      ReplayKeepsInvAndGrows(t1, calls[1..]);
    }
  }

  /** A sequence of calls with no visit leaves every existing row, count
      included, as it was. */
  lemma {:induction false} ReplayWithoutVisitsKeepsRows(t: Table, calls: seq<Call>)
    requires Inv(t) && forall i :: 0 <= i < |calls| ==> WellFormed(calls[i])
    requires forall i :: 0 <= i < |calls| ==> !calls[i].VisitCall?
    ensures forall c :: c in t ==> c in Replay(t, calls) && Replay(t, calls)[c] == t[c]
    decreases |calls|
  {
    if calls != [] {
      var t1 := Apply(t, calls[0]);
      ShortenKeepsRowsAt(t, calls[0]);
      ReplayWithoutVisitsKeepsRows(t1, calls[1..]);
    }
  }

  lemma ShortenKeepsRowsAt(t: Table, call: Call)
    requires Inv(t) && WellFormed(call) && !call.VisitCall?
    ensures forall c :: c in t ==> c in Apply(t, call) && Apply(t, call)[c] == t[c]
  {
    if call.ShortenCall? {
      ShortenKeepsRows(t, call.url, call.attempts);
    }
  }
}

/** FdRawIngestService: the ingestion coordinator. For one competition code
    it skips the upstream when the key was fetched within the last month,
    otherwise asks the retrying client, serialises what came back and
    inserts it unless a row for the key already exists.

    The clock's reading is `now`; one calendar month before it lies between
    28 and 31 days earlier, given as `monthSpan`. Jackson's
    writeValueAsString is the parameter `write`, returning the JSON text or
    the message of its JsonProcessingException. */
module RawIngestService {
  import opened Outcomes
  import opened Exceptions
  import opened RawIngestStore
  import MatchPayload
  import FdOrgClient

  const Source := "football-data.org"
  const Endpoint := "/v4/competitions/{code}"

  const Day: nat := 86400
  const ShortestMonth: nat := 28 * Day
  const LongestMonth: nat := 31 * Day

  /** The length of the month before `now`, in seconds. */
  predicate IsMonthSpan(monthSpan: int) {
    ShortestMonth <= monthSpan <= LongestMonth
  }

  /** The table key a competition code is stored under. */
  function KeyOf(code: string): RowKey {
    (Source, Endpoint, code)
  }

  /** One run of fetchAndStoreCompetitionRaw: what it returns, how many
      times it called upstream, and the table afterwards. */
  datatype IngestRun = IngestRun(result: Result<Option<int>, Failure>, calls: nat, store: Store)

  /** fetchAndStoreCompetitionRaw as a function of the table before it. */
  function Ingest(s: Store, code: string, now: int, monthSpan: int,
                  upstream: seq<FdOrgClient.Exchange>, read: seq<FdOrgClient.Byte> -> FdOrgClient.Conversion,
                  write: MatchPayload.Competition -> Result<string, Option<string>>, dbNow: int): (run: IngestRun)
    requires StoreValid(s) && IsMonthSpan(monthSpan) && FdOrgClient.MaxAttempts <= |upstream|
    ensures StoreValid(run.store)
    ensures run.calls <= FdOrgClient.MaxAttempts
    ensures run.store.rows != s.rows ==> run.result.Ok? && run.result.value.Some?
  {
    if FetchedSince(s, KeyOf(code), now - monthSpan) then IngestRun(Ok(None), 0, s)
    else
      var calls := FdOrgClient.AttemptsMade(upstream, read);
      match FdOrgClient.Outcome(upstream, read)
      case Err(f) => IngestRun(Err(f), calls, s)
      case Ok(None) => IngestRun(Ok(None), calls, s)
      case Ok(Some(competition)) =>
        match write(competition)
        case Err(message) => IngestRun(Err(UpstreamJsonParse(message)), calls, s)
        case Ok(json) =>
          var (s', id) := InsertIfAbsent(s, KeyOf(code), now, json, dbNow);
          IngestRun(Ok(id), calls, s')
  }

  /** The freshness guard: a key fetched within the last month is answered
      with an empty result, without calling upstream or touching the
      table. */
  lemma FreshKeySkipsUpstream(s: Store, code: string, now: int, monthSpan: int,
                              upstream: seq<FdOrgClient.Exchange>, read: seq<FdOrgClient.Byte> -> FdOrgClient.Conversion,
                              write: MatchPayload.Competition -> Result<string, Option<string>>, dbNow: int)
    requires StoreValid(s) && IsMonthSpan(monthSpan) && FdOrgClient.MaxAttempts <= |upstream|
    requires FetchedSince(s, KeyOf(code), now - monthSpan)
    ensures Ingest(s, code, now, monthSpan, upstream, read, write, dbNow) == IngestRun(Ok(None), 0, s)
  {
  }

  /** A new id is returned only when upstream produced a competition that
      serialised and the key had no row: the new row holds the serialised
      text, is stamped with the service's clock as last_modified and with
      the database clock as fetched_at, and no other row changes. */
  lemma StoredRowOnSuccess(s: Store, code: string, now: int, monthSpan: int,
                           upstream: seq<FdOrgClient.Exchange>, read: seq<FdOrgClient.Byte> -> FdOrgClient.Conversion,
                           write: MatchPayload.Competition -> Result<string, Option<string>>, dbNow: int)
    requires StoreValid(s) && IsMonthSpan(monthSpan) && FdOrgClient.MaxAttempts <= |upstream|
    ensures var run := Ingest(s, code, now, monthSpan, upstream, read, write, dbNow);
            run.result.Ok? && run.result.value.Some? <==>
              KeyOf(code) !in s.rows
              && FdOrgClient.Outcome(upstream, read).Ok? && FdOrgClient.Outcome(upstream, read).value.Some?
              && write(FdOrgClient.Outcome(upstream, read).value.value).Ok?
    ensures var run := Ingest(s, code, now, monthSpan, upstream, read, write, dbNow);
            run.result.Ok? && run.result.value.Some? ==>
              var json := write(FdOrgClient.Outcome(upstream, read).value.value).value;
              run.result.value.value !in (set k | k in s.rows :: s.rows[k].id)
              && run.store.rows == s.rows[KeyOf(code) := Row(run.result.value.value, now, dbNow, PayloadOf(json))]
  {
  }

  /** Every failure leaves the table as it was: a rate limit, an upstream
      error or a serialisation failure never writes anything. */
  lemma FailureWritesNothing(s: Store, code: string, now: int, monthSpan: int,
                             upstream: seq<FdOrgClient.Exchange>, read: seq<FdOrgClient.Byte> -> FdOrgClient.Conversion,
                             write: MatchPayload.Competition -> Result<string, Option<string>>, dbNow: int)
    requires StoreValid(s) && IsMonthSpan(monthSpan) && FdOrgClient.MaxAttempts <= |upstream|
    requires Ingest(s, code, now, monthSpan, upstream, read, write, dbNow).result.Err?
    ensures Ingest(s, code, now, monthSpan, upstream, read, write, dbNow).store == s
  {
  }

  /** At most one upstream fetch per key within a month: after a run that
      stored a row, a later run whose clock is at most 28 days on, with the
      database clock not behind the service's, calls upstream zero times
      and returns an empty result. */
  lemma {:induction false} AtMostOneFetchPerMonth(
    s: Store, code: string,
    now1: int, span1: int, up1: seq<FdOrgClient.Exchange>, dbNow1: int,
    now2: int, span2: int, up2: seq<FdOrgClient.Exchange>, dbNow2: int,
    read: seq<FdOrgClient.Byte> -> FdOrgClient.Conversion,
    write: MatchPayload.Competition -> Result<string, Option<string>>)
    requires StoreValid(s) && IsMonthSpan(span1) && IsMonthSpan(span2)
    requires FdOrgClient.MaxAttempts <= |up1| && FdOrgClient.MaxAttempts <= |up2|
    requires now1 <= dbNow1 && now1 <= now2 <= now1 + ShortestMonth
    requires Ingest(s, code, now1, span1, up1, read, write, dbNow1).result.Ok?
    requires Ingest(s, code, now1, span1, up1, read, write, dbNow1).result.value.Some?
    ensures var first := Ingest(s, code, now1, span1, up1, read, write, dbNow1);
            Ingest(first.store, code, now2, span2, up2, read, write, dbNow2) == IngestRun(Ok(None), 0, first.store)
  {
    var first := Ingest(s, code, now1, span1, up1, read, write, dbNow1);
    StoredRowOnSuccess(s, code, now1, span1, up1, read, write, dbNow1);
    assert first.store.rows[KeyOf(code)].fetchedAt == dbNow1;
    assert FetchedSince(first.store, KeyOf(code), now2 - span2);
  }

  /** A row older than the month is never refreshed: the service calls
      upstream again, but the insert meets the existing row, so the result
      is empty and the table keeps the old row. */
  lemma StaleRowNotRefreshed(s: Store, code: string, now: int, monthSpan: int,
                             upstream: seq<FdOrgClient.Exchange>, read: seq<FdOrgClient.Byte> -> FdOrgClient.Conversion,
                             write: MatchPayload.Competition -> Result<string, Option<string>>, dbNow: int)
    requires StoreValid(s) && IsMonthSpan(monthSpan) && FdOrgClient.MaxAttempts <= |upstream|
    requires KeyOf(code) in s.rows && !FetchedSince(s, KeyOf(code), now - monthSpan)
    ensures var run := Ingest(s, code, now, monthSpan, upstream, read, write, dbNow);
            run.calls >= 1 && run.store.rows == s.rows && !(run.result.Ok? && run.result.value.Some?)
  {
  }

  /** The service bean over its repository. */
  class FdRawIngestService {
    const repository: FdRawIngestRepository

    constructor (repository: FdRawIngestRepository)
      ensures this.repository == repository
    {
      this.repository := repository;
    }

    /** fetchAndStoreCompetitionRaw(code): the freshness guard, the client
        call through its retrying proxy, serialisation and the insert, with
        every exception passed on to the caller. */
    method FetchAndStoreCompetitionRaw(code: string, now: int, monthSpan: int,
                                       upstream: seq<FdOrgClient.Exchange>,
                                       read: seq<FdOrgClient.Byte> -> FdOrgClient.Conversion,
                                       write: MatchPayload.Competition -> Result<string, Option<string>>,
                                       dbNow: int)
      returns (r: Result<Option<int>, Failure>, calls: nat)
      requires repository.Valid() && IsMonthSpan(monthSpan) && FdOrgClient.MaxAttempts <= |upstream|
      modifies repository
      ensures repository.Valid()
      ensures IngestRun(r, calls, repository.Contents())
              == Ingest(old(repository.Contents()), code, now, monthSpan, upstream, read, write, dbNow)
    {
      var isFresh := repository.WasFetchedSince(Source, Endpoint, code, now - monthSpan);
      if isFresh {
        return Ok(None), 0;
      }
      var fetched, attempts, _ := FdOrgClient.GetCompetitionInfo(upstream, read);
      calls := attempts;
      match fetched
      case Err(f) =>
        r := Err(f);
      case Ok(None) =>
        r := Ok(None);
      case Ok(Some(competition)) =>
        match write(competition)
        case Err(message) =>
          r := Err(UpstreamJsonParse(message));
        case Ok(json) =>
          var id := repository.InsertRaw(Source, Endpoint, code, now, json, dbNow);
          r := Ok(id);
    }
  }
}

/**
  The time-to-live cache in front of each sheet (server.js:68-80, 94 for the
  inventory and server.js:107-119, 134 for the rules): a snapshot of when the rows
  were fetched and the rows themselves. The fetched text and the clock are inputs.
 */
module Catalog {
  import Csv

  /** `{at, rows}`: the module-level snapshot; `at` and the clock are in milliseconds. */
  datatype Snapshot<T> = Snapshot(at: int, rows: seq<T>)

  /** What `fetch(url)` and `resp.text()` produce: the sheet's text, or a thrown error. */
  datatype Fetch = Fetched(body: string) | FetchFailed

  /** What the loader resolves to: rows, or the error it lets propagate. */
  datatype Loaded<T> = Rows(rows: seq<T>) | LoadError

  /** One call of the loader: its result, the snapshot afterwards, and whether it fetched. */
  datatype Refresh<T> = Refresh(result: Loaded<T>, snapshot: Snapshot<T>, fetched: bool)

  /** The cache-hit test `ttl > 0 && now - at < ttl && rows.length`. */
  predicate Fresh<T>(s: Snapshot<T>, now: int, ttl: int) {
    ttl > 0 && now - s.at < ttl && |s.rows| > 0
  }

  /**
    `loadInventoryCSV` / `loadFunctionsCSV` with the URL's presence, the clock, the TTL
    (already multiplied by 1000) and the fetched text as inputs; `decode` turns the
    parsed sheet into rows.
   */
  function Load<T>(s: Snapshot<T>, configured: bool, now: int, ttl: int, fetch: Fetch,
                   decode: Csv.Table -> seq<T>): Refresh<T>
  {
    if !configured then Refresh(Rows([]), s, false)
    else if Fresh(s, now, ttl) then Refresh(Rows(s.rows), s, false)
    else match fetch
      case FetchFailed => Refresh(LoadError, s, true)
      case Fetched(body) =>
        match Csv.ParseTable(body)
        case None => Refresh(Rows([]), s, true)
        case Some(t) =>
          var data := decode(t);
          Refresh(Rows(data), Snapshot(now, data), true)
  }

  /** Without a URL the loader yields no rows and neither fetches nor touches the snapshot. */
  lemma Unconfigured<T>(s: Snapshot<T>, now: int, ttl: int, fetch: Fetch, decode: Csv.Table -> seq<T>)
    ensures Load(s, false, now, ttl, fetch, decode) == Refresh(Rows([]), s, false)
  {
  }

  /**
    With a URL, the loader skips the fetch exactly when the snapshot is fresh, and then
    returns the stored rows unchanged and leaves the snapshot as it was.
   */
  lemma HitIffFresh<T>(s: Snapshot<T>, now: int, ttl: int, fetch: Fetch, decode: Csv.Table -> seq<T>)
    ensures var r := Load(s, true, now, ttl, fetch, decode);
            && (!r.fetched <==> Fresh(s, now, ttl))
            && (!r.fetched ==> r.result == Rows(s.rows) && r.snapshot == s)
  {
  }

  /** A refresh that parses a sheet replaces the snapshot with `{at: now, rows: parsed}` and returns those rows. */
  lemma RefreshReplaces<T>(s: Snapshot<T>, now: int, ttl: int, body: string, decode: Csv.Table -> seq<T>)
    requires !Fresh(s, now, ttl)
    requires Csv.ParseTable(body).Some?
    ensures var data := decode(Csv.ParseTable(body).value);
            Load(s, true, now, ttl, Fetched(body), decode) == Refresh(Rows(data), Snapshot(now, data), true)
  {
  }

  /** Fetched text without a single non-empty line yields no rows and keeps the old snapshot. */
  lemma BlankSheetKeepsSnapshot<T>(s: Snapshot<T>, now: int, ttl: int, body: string, decode: Csv.Table -> seq<T>)
    requires !Fresh(s, now, ttl)
    requires Csv.Lines(body) == []
    ensures Load(s, true, now, ttl, Fetched(body), decode) == Refresh(Rows([]), s, true)
  {
  }

  /** A failed fetch propagates as an error and keeps the old snapshot. */
  lemma FailedFetchKeepsSnapshot<T>(s: Snapshot<T>, now: int, ttl: int, decode: Csv.Table -> seq<T>)
    requires !Fresh(s, now, ttl)
    ensures Load(s, true, now, ttl, FetchFailed, decode) == Refresh(LoadError, s, true)
  {
  }

  /**
    Two loads less than `ttl` apart: once the first has fetched a non-empty set of rows,
    the second serves those rows without fetching, whatever the feed would say now.
   */
  lemma NoSecondFetchWithinTtl<T>(s: Snapshot<T>, t1: int, t2: int, ttl: int, f1: Fetch, f2: Fetch,
                                  decode: Csv.Table -> seq<T>)
    requires var r1 := Load(s, true, t1, ttl, f1, decode);
             r1.fetched && r1.result.Rows? && r1.result.rows != []
    requires ttl > 0 && t1 <= t2 < t1 + ttl
    ensures var r1 := Load(s, true, t1, ttl, f1, decode);
            var r2 := Load(r1.snapshot, true, t2, ttl, f2, decode);
            !r2.fetched && r2.result == r1.result && r2.snapshot == r1.snapshot
  {
  }

  /** Once `ttl` has elapsed since the snapshot, or when caching is off (`ttl <= 0`), a load fetches exactly once. */
  lemma StaleFetches<T>(s: Snapshot<T>, now: int, ttl: int, fetch: Fetch, decode: Csv.Table -> seq<T>)
    requires now - s.at >= ttl || ttl <= 0
    ensures Load(s, true, now, ttl, fetch, decode).fetched
  {
  }
}

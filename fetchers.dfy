/** The five fetchers of nhse_scraper.py: A&E monthly activity, ambulance
    handovers, acute discharges, referral-to-treatment and KH03 bed
    availability. Each runs the cache-or-download step for a fixed file name
    and URL, parses the bytes (a parameter: CSV, Excel and zip decoding are
    not modelled) and shapes the table. Every fetcher is a module-level
    method that takes a `cache: Cache`, specified by a function of the
    cache state before the call. */
module Fetchers {
  import opened Wrappers
  import opened Errors
  import opened Seqs
  import opened Text
  import opened Tables
  import opened BlobCache
  import opened Schema
  import opened Peers

  /** `pd.read_csv` of a blob. */
  type CsvReader = Bytes -> Table
  /** `ExcelFile(...).sheet_names` or `ZipFile(...).namelist()` of a blob. */
  type NameLister = Bytes -> seq<string>
  /** One named sheet or member of a blob, read as a table. */
  type EntryReader = (Bytes, string) -> Table

  // ---------------------------------------------------------------------
  // A&E monthly (provider)
  // ---------------------------------------------------------------------

  datatype MonthFile = MonthFile(month: string, url: string)

  const AeMonthFiles: seq<MonthFile> := [
    MonthFile("2025-03", "https://www.england.nhs.uk/statistics/wp-content/uploads/sites/2/2025/04/A-E-Monthly-March-2025.csv"),
    MonthFile("2025-02", "https://www.england.nhs.uk/statistics/wp-content/uploads/sites/2/2025/05/A-E-Monthly-February-2025-1.csv"),
    MonthFile("2025-01", "https://www.england.nhs.uk/statistics/wp-content/uploads/sites/2/2025/02/A-E-Monthly-January-2025.csv"),
    MonthFile("2024-12", "https://www.england.nhs.uk/statistics/wp-content/uploads/sites/2/2025/01/A-E-Monthly-December-2024.csv")
  ]

  const PeriodColumn: string := "period"

  /** The cache file name of one A&E month. */
  function AeKey(month: string): string
  {
    "ae_" + month + ".csv"
  }

  /** Different months never share a cache file. */
  lemma AeKeyInjective(a: string, b: string)
    requires AeKey(a) == AeKey(b)
    ensures a == b
  {
    assert a == AeKey(a)[3..|AeKey(a)| - 4];
    assert b == AeKey(b)[3..|AeKey(b)| - 4];
  }

  /** One month's frame: the parsed CSV with the month label attached. */
  function Labelled(b: Bytes, month: string, readCsv: CsvReader): Table
  {
    SetConstant(readCsv(b), PeriodColumn, month)
  }

  /** The download loop: month after month, cache-or-download and label; the
      first failure ends the fetch. */
  function FetchAeFrames(s: CacheState, files: seq<MonthFile>, download: Downloader, readCsv: CsvReader): (r: (CacheState, Result<seq<Table>, Error>))
    ensures s.downloads <= r.0.downloads <= s.downloads + |files|
    ensures r.1.Ok? ==> |r.1.value| == |files|
    decreases |files|
  {
    if |files| == 0 then (s, Ok([]))
    else
      var (s1, frames) := FetchAeFrames(s, files[..|files| - 1], download, readCsv);
      if frames.Err? then (s1, frames)
      else
        var f := files[|files| - 1];
        var (s2, b) := FetchStep(s1, AeKey(f.month), f.url, download);
        match b
        case Err(e) => (s2, Err(e))
        case Ok(bytes) => (s2, Ok(frames.value + [Labelled(bytes, f.month, readCsv)]))
  }

  /** Lines 62-92 on the concatenated frames: resolve the provider column,
      copy it as text into PROVIDER, filter on the stripped peer tokens,
      keep "period", "PROVIDER" and the metric columns. */
  function ShapeAe(ae: Table, peers: seq<string>): (r: Result<Table, Error>)
    ensures r.Ok? <==> ResolveAeProvider(ae.columns).Ok?
    ensures r.Err? ==> r.error == ResolveAeProvider(ae.columns).error
  {
    var col :- ResolveAeProvider(ae.columns);
    var filtered := PeerFilter(CopyColumn(ae, ProviderColumn, col), peers, true);
    Ok(Project(filtered, [PeriodColumn, ProviderColumn] + KeywordSelect(filtered.columns, AeLoweredKeywords())))
  }

  /** The A&E output: "period" and "PROVIDER" first, then exactly the input
      columns that mention a metric keyword, in their input order; every
      row matches a peer; no peers keeps every row. */
  lemma ShapeAeContract(ae: Table, peers: seq<string>)
    requires ResolveAeProvider(ae.columns).Ok?
    ensures var out := ShapeAe(ae, peers).value;
      && |out.columns| >= 2 && out.columns[..2] == [PeriodColumn, ProviderColumn]
      && (forall c :: c in out.columns[2..] <==> c in ae.columns && MentionsAny(c, AeLoweredKeywords()))
      && IsSubsequence(out.columns[2..], ae.columns)
      && |out.rows| <= |ae.rows|
      && (|peers| == 0 ==> |out.rows| == |ae.rows|)
      && (|peers| > 0 ==> forall i :: 0 <= i < |out.rows| ==> RowMatches(out.rows[i], peers, true))
  {
    var col := ResolveAeProvider(ae.columns).value;
    var copied := CopyColumn(ae, ProviderColumn, col);
    var filtered := PeerFilter(copied, peers, true);
    var metrics := KeywordSelect(filtered.columns, AeLoweredKeywords());
    var out := Project(filtered, [PeriodColumn, ProviderColumn] + metrics);
    assert out == ShapeAe(ae, peers).value;
    assert out.columns[2..] == metrics;
    LeadingColumnsAreNotMetrics();
    MetricsFromInput(ae.columns);
    if |peers| > 0 {
      assert filtered.rows == Filter(copied.rows, Matcher(peers, true));
      forall i | 0 <= i < |out.rows|
        ensures RowMatches(out.rows[i], peers, true)
      {
        assert filtered.rows[i] in filtered.rows;
        assert Cell(out.rows[i], ProviderColumn) == Cell(filtered.rows[i], ProviderColumn);
      }
    }
  }

  /** Adding PROVIDER does not add a metric column: the metrics keep the
      input's order. */
  lemma MetricsFromInput(cols: seq<string>)
    ensures KeywordSelect(AddName(cols, ProviderColumn), AeLoweredKeywords()) == KeywordSelect(cols, AeLoweredKeywords())
    ensures IsSubsequence(KeywordSelect(cols, AeLoweredKeywords()), cols)
  {
    LeadingColumnsAreNotMetrics();
    if ProviderColumn !in cols {
      FilterAppend(cols, [ProviderColumn], Mentions(AeLoweredKeywords()));
    }
  }

  /** An input row is kept when its resolved provider text matches a peer. */
  function AeKeeps(col: string, peers: seq<string>): Row -> bool
  {
    (r: Row) => TextMatches(Cell(r, col), peers, true)
  }

  /** The output row made of an input row: PROVIDER set to the resolved
      column's text, narrowed to the output columns. */
  function AeOutRow(col: string, cols: seq<string>): Row -> Row
  {
    (r: Row) => ProjectRow(cols)(CopyRow(ProviderColumn, col)(r))
  }

  /** The A&E output rows are the input rows whose resolved provider text
      matches a peer (all of them with no peers), in input order and with
      their multiplicity, one output row each; each output row's PROVIDER
      is that input row's resolved provider text and its "period" the
      input row's. */
  lemma ShapeAeRows(ae: Table, peers: seq<string>)
    requires ResolveAeProvider(ae.columns).Ok?
    ensures var col := ResolveAeProvider(ae.columns).value;
      var out := ShapeAe(ae, peers).value;
      var kept := if |peers| == 0 then ae.rows else Filter(ae.rows, AeKeeps(col, peers));
      && out.rows == Map(kept, AeOutRow(col, out.columns))
      && forall i :: 0 <= i < |out.rows| ==>
        Cell(out.rows[i], ProviderColumn) == Cell(kept[i], col) && Cell(out.rows[i], PeriodColumn) == Cell(kept[i], PeriodColumn)
  {
    var col := ResolveAeProvider(ae.columns).value;
    var copied := CopyColumn(ae, ProviderColumn, col);
    var filtered := PeerFilter(copied, peers, true);
    var cols := [PeriodColumn, ProviderColumn] + KeywordSelect(filtered.columns, AeLoweredKeywords());
    var out := Project(filtered, cols);
    assert out == ShapeAe(ae, peers).value;
    var kept := if |peers| == 0 then ae.rows else Filter(ae.rows, AeKeeps(col, peers));
    AeFilteredRows(ae, col, peers);
    ProjectCopied(kept, col, cols);
  }

  /** The peer filter on the copied table keeps the copies of the input rows
      whose resolved provider text matches. */
  lemma AeFilteredRows(ae: Table, col: string, peers: seq<string>)
    ensures var kept := if |peers| == 0 then ae.rows else Filter(ae.rows, AeKeeps(col, peers));
      PeerFilter(CopyColumn(ae, ProviderColumn, col), peers, true).rows == Map(kept, CopyRow(ProviderColumn, col))
  {
    var copied := CopyColumn(ae, ProviderColumn, col);
    assert copied.rows == Map(ae.rows, CopyRow(ProviderColumn, col));
    if |peers| > 0 {
      PeerFilterRows(copied, peers, true);
      FilterMap(ae.rows, CopyRow(ProviderColumn, col), Matcher(peers, true));
      forall r | r in ae.rows
        ensures Compose(CopyRow(ProviderColumn, col), Matcher(peers, true))(r) == AeKeeps(col, peers)(r)
      {
        assert Cell(CopyRow(ProviderColumn, col)(r), ProviderColumn) == Cell(r, col);
      }
      FilterCongruent(ae.rows, Compose(CopyRow(ProviderColumn, col), Matcher(peers, true)), AeKeeps(col, peers));
    }
  }

  /** Narrowing the copied rows to columns that include "period" and
      "PROVIDER". */
  lemma ProjectCopied(kept: seq<Row>, col: string, cols: seq<string>)
    requires PeriodColumn in cols && ProviderColumn in cols
    ensures var out := Map(Map(kept, CopyRow(ProviderColumn, col)), ProjectRow(cols));
      && out == Map(kept, AeOutRow(col, cols))
      && forall i :: 0 <= i < |out| ==>
        Cell(out[i], ProviderColumn) == Cell(kept[i], col) && Cell(out[i], PeriodColumn) == Cell(kept[i], PeriodColumn)
  {
    var out := Map(Map(kept, CopyRow(ProviderColumn, col)), ProjectRow(cols));
    forall i | 0 <= i < |out|
      ensures out[i] == AeOutRow(col, cols)(kept[i])
      ensures Cell(out[i], ProviderColumn) == Cell(kept[i], col)
      ensures Cell(out[i], PeriodColumn) == Cell(kept[i], PeriodColumn)
    {
      var c := CopyRow(ProviderColumn, col)(kept[i]);
      assert out[i] == ProjectRow(cols)(c);
      assert Cell(c, ProviderColumn) == Cell(kept[i], col);
    }
  }

  /** `fetch_ae_monthly_provider`: the cache afterwards, and the table or the first error. */
  function FetchAe(s: CacheState, peers: seq<string>, download: Downloader, readCsv: CsvReader): (r: (CacheState, Result<Table, Error>))
    ensures s.downloads <= r.0.downloads <= s.downloads + |AeMonthFiles|
    ensures FetchAeFrames(s, AeMonthFiles, download, readCsv).1.Err? ==> r.1 == Err(FetchAeFrames(s, AeMonthFiles, download, readCsv).1.error)
  {
    var (s', frames) := FetchAeFrames(s, AeMonthFiles, download, readCsv);
    match frames
    case Err(e) => (s', Err(e))
    case Ok(fs) => (s', ShapeAe(Concat(fs), peers))
  }

  /** Once a month has failed, the later months are never requested. */
  lemma {:induction false} AeFramesStopAtError(s: CacheState, files: seq<MonthFile>, i: nat, download: Downloader, readCsv: CsvReader)
    requires i <= |files|
    requires FetchAeFrames(s, files[..i], download, readCsv).1.Err?
    ensures FetchAeFrames(s, files, download, readCsv) == FetchAeFrames(s, files[..i], download, readCsv)
    decreases |files|
  {
    if i < |files| {
      var front := files[..|files| - 1];
      assert front[..i] == files[..i];
      AeFramesStopAtError(s, front, i, download, readCsv);
    } else {
      assert files[..i] == files;
    }
  }

  /** The monthly frames the cache holds, when it holds every month. */
  function CachedFrames(s: CacheState, files: seq<MonthFile>, readCsv: CsvReader): seq<Table>
    requires forall k :: 0 <= k < |files| ==> AeKey(files[k].month) in s.store
  {
    seq(|files|, k requires 0 <= k < |files| => Labelled(s.store[AeKey(files[k].month)], files[k].month, readCsv))
  }

  /** The download loop only adds files to the cache. */
  lemma {:induction false} AeFramesGrowStore(s: CacheState, files: seq<MonthFile>, download: Downloader, readCsv: CsvReader)
    ensures var s' := FetchAeFrames(s, files, download, readCsv).0;
      forall k :: k in s.store ==> k in s'.store && s'.store[k] == s.store[k]
    decreases |files|
  {
    if |files| > 0 {
      var front := files[..|files| - 1];
      AeFramesGrowStore(s, front, download, readCsv);
      var s1 := FetchAeFrames(s, front, download, readCsv).0;
      var f := files[|files| - 1];
      WriteOnce(s1, AeKey(f.month), f.url, download);
    }
  }

  /** After a successful loop every month is cached, and the frames are
      exactly what the cache now holds. */
  lemma {:induction false} AeFramesRecorded(s: CacheState, files: seq<MonthFile>, download: Downloader, readCsv: CsvReader)
    requires FetchAeFrames(s, files, download, readCsv).1.Ok?
    ensures var (s', frames) := FetchAeFrames(s, files, download, readCsv);
      && (forall k :: 0 <= k < |files| ==> AeKey(files[k].month) in s'.store)
      && frames.value == CachedFrames(s', files, readCsv)
    decreases |files|
  {
    if |files| > 0 {
      var n := |files|;
      var front := files[..n - 1];
      var (s1, frames1) := FetchAeFrames(s, front, download, readCsv);
      AeFramesRecorded(s, front, download, readCsv);
      var f := files[n - 1];
      var key := AeKey(f.month);
      var (s2, b) := FetchStep(s1, key, f.url, download);
      WriteOnce(s1, key, f.url, download);
      OkIsStored(s1, key, f.url, download);
      var frames2 := frames1.value + [Labelled(b.value, f.month, readCsv)];
      assert FetchAeFrames(s, files, download, readCsv) == (s2, Ok(frames2));
      assert files[..n - 1] == front;
      forall k | 0 <= k < n - 1
        ensures AeKey(files[k].month) in s1.store
      {
        assert files[k] == front[k];
      }
      CachedFramesSnoc(s1, s2, files, readCsv);
    }
  }

  /** Growing the cache by the last month's file extends the cached frames
      by that month's frame. */
  lemma CachedFramesSnoc(s1: CacheState, s2: CacheState, files: seq<MonthFile>, readCsv: CsvReader)
    requires |files| > 0
    requires forall k :: 0 <= k < |files| - 1 ==> AeKey(files[k].month) in s1.store
    requires forall k :: k in s1.store ==> k in s2.store && s2.store[k] == s1.store[k]
    requires AeKey(files[|files| - 1].month) in s2.store
    ensures forall k :: 0 <= k < |files| ==> AeKey(files[k].month) in s2.store
    ensures CachedFrames(s2, files, readCsv) ==
      CachedFrames(s1, files[..|files| - 1], readCsv) + [Labelled(s2.store[AeKey(files[|files| - 1].month)], files[|files| - 1].month, readCsv)]
  {
    var n := |files|;
    var front := files[..n - 1];
    assert forall k :: 0 <= k < |front| ==> front[k] == files[k];
    var before := CachedFrames(s1, front, readCsv);
    var after := CachedFrames(s2, files, readCsv);
    forall k | 0 <= k < n - 1
      ensures after[k] == before[k]
    {
      assert s2.store[AeKey(files[k].month)] == s1.store[AeKey(front[k].month)];
    }
  }

  /** With every month cached, the loop downloads nothing and reads the
      cached blobs. */
  lemma {:induction false} AeFramesAllCached(s: CacheState, files: seq<MonthFile>, download: Downloader, readCsv: CsvReader)
    requires forall k :: 0 <= k < |files| ==> AeKey(files[k].month) in s.store
    ensures FetchAeFrames(s, files, download, readCsv) == (s, Ok(CachedFrames(s, files, readCsv)))
    decreases |files|
  {
    if |files| > 0 {
      var n := |files|;
      var front := files[..n - 1];
      forall k | 0 <= k < n - 1
        ensures AeKey(front[k].month) in s.store
      {
        assert front[k] == files[k];
      }
      AeFramesAllCached(s, front, download, readCsv);
      var f := files[n - 1];
      HitDoesNotDownload(s, AeKey(f.month), f.url, download);
      var all := CachedFrames(s, files, readCsv);
      var init := CachedFrames(s, front, readCsv);
      var last := Labelled(s.store[AeKey(f.month)], f.month, readCsv);
      assert FetchAeFrames(s, files, download, readCsv) == (s, Ok(init + [last]));
      forall k | 0 <= k < n
        ensures (init + [last])[k] == all[k]
      {
        if k < n - 1 {
          assert front[k] == files[k];
        }
      }
      assert init + [last] == all;
    }
  }

  /** Fetching A&E again after all four months were downloaded returns the
      same result and makes no further download. */
  lemma AeRepeatIsIdentical(s: CacheState, peers: seq<string>, download: Downloader, readCsv: CsvReader)
    requires FetchAeFrames(s, AeMonthFiles, download, readCsv).1.Ok?
    ensures var (s1, r1) := FetchAe(s, peers, download, readCsv);
      FetchAe(s1, peers, download, readCsv) == (s1, r1)
  {
    var s1 := FetchAeFrames(s, AeMonthFiles, download, readCsv).0;
    AeFramesRecorded(s, AeMonthFiles, download, readCsv);
    AeFramesAllCached(s1, AeMonthFiles, download, readCsv);
  }

  /** One more month: the loop state after `files[..i + 1]` from the state
      after `files[..i]` and that month's cache-or-download step. */
  lemma AeFramesStep(s0: CacheState, files: seq<MonthFile>, i: nat, download: Downloader, readCsv: CsvReader,
                     s1: CacheState, frames: seq<Table>)
    requires i < |files| && FetchAeFrames(s0, files[..i], download, readCsv) == (s1, Ok(frames))
    ensures var f := files[i];
      var (s2, b) := FetchStep(s1, AeKey(f.month), f.url, download);
      FetchAeFrames(s0, files[..i + 1], download, readCsv) ==
        (s2, if b.Err? then Err(b.error) else Ok(frames + [Labelled(b.value, f.month, readCsv)]))
  {
    assert files[..i + 1][..i] == files[..i];
    assert files[..i + 1][i] == files[i];
  }

  /** The download loop of `fetch_ae_monthly_provider`. */
  method FetchAeFramesLoop(cache: Cache, files: seq<MonthFile>, download: Downloader, readCsv: CsvReader)
    returns (r: Result<seq<Table>, Error>)
    modifies cache
    ensures (cache.Snapshot(), r) == FetchAeFrames(old(cache.Snapshot()), files, download, readCsv)
  {
    ghost var s0 := cache.Snapshot();
    var frames: seq<Table> := [];
    for i := 0 to |files|
      invariant FetchAeFrames(s0, files[..i], download, readCsv) == (cache.Snapshot(), Ok(frames))
    {
      var f := files[i];
      AeFramesStep(s0, files, i, download, readCsv, cache.Snapshot(), frames);
      var b := cache.Fetch(AeKey(f.month), f.url, download);
      if b.Err? {
        AeFramesStopAtError(s0, files, i + 1, download, readCsv);
        return Err(b.error);
      }
      frames := frames + [Labelled(b.value, f.month, readCsv)];
    }
    assert files[..|files|] == files;
    r := Ok(frames);
  }

  method FetchAeMonthlyProvider(cache: Cache, peers: seq<string>, download: Downloader, readCsv: CsvReader)
    returns (r: Result<Table, Error>)
    modifies cache
    ensures (cache.Snapshot(), r) == FetchAe(old(cache.Snapshot()), peers, download, readCsv)
  {
    var loaded := FetchAeFramesLoop(cache, AeMonthFiles, download, readCsv);
    if loaded.Err? {
      return Err(loaded.error);
    }
    var frames := loaded.value;
    var ae := Concat(frames);
    var col := ResolveAeProvider(ae.columns);
    if col.Err? {
      return Err(col.error);
    }
    var withProvider := CopyColumn(ae, ProviderColumn, col.value);
    var filtered := FilterPeers(withProvider, peers, true);
    var wanted := AeWantedColumns(filtered.columns);
    r := Ok(Project(filtered, [PeriodColumn, ProviderColumn] + wanted));
  }

  // ---------------------------------------------------------------------
  // Ambulance handovers and acute discharges (workbooks)
  // ---------------------------------------------------------------------

  const AmbulanceUrl: string := "https://www.england.nhs.uk/statistics/wp-content/uploads/sites/2/2025/03/Web-File-Timeseries-Ambulance-Collection.xlsx"
  const AmbulanceKey: string := "amb_handover.xlsx"
  const DischargeUrl: string := "https://www.england.nhs.uk/statistics/wp-content/uploads/sites/2/2025/03/Web-File-Timeseries-Acute-Discharge-SitRep.xlsx"
  const DischargeKey: string := "acute_discharge.xlsx"

  /** A column that looks like the week or date axis. */
  predicate IsTimeColumn(c: string)
  {
    Contains(Lower(c), "week ending") || Contains(Lower(c), "week end") || Contains(Lower(c), "date")
  }

  /** PROVIDER itself is never taken for the time axis. */
  lemma ProviderIsNotTime()
    ensures !IsTimeColumn(ProviderColumn)
  {
    AbsentFromLower(ProviderColumn, 't');
    AbsentFromLower(ProviderColumn, 'w');
    assert "week ending"[0] == 'w' && "week end"[0] == 'w' && "date"[2] == 't';
    MissingCharNotContained(Lower(ProviderColumn), "week ending", 'w');
    MissingCharNotContained(Lower(ProviderColumn), "week end", 'w');
    MissingCharNotContained(Lower(ProviderColumn), "date", 't');
  }

  /** Melting keeps each row's PROVIDER on every long row made from it, so
      rows that all match the peers melt into long rows that do. */
  lemma {:induction false} MeltKeepsMatches(rows: seq<Row>, vars: seq<string>, peers: seq<string>, strip: bool)
    requires forall i :: 0 <= i < |rows| ==> RowMatches(rows[i], peers, strip)
    ensures forall q :: 0 <= q < |MeltRows(rows, ProviderColumn, vars)| ==> RowMatches(MeltRows(rows, ProviderColumn, vars)[q], peers, strip)
    decreases |vars|
  {
    if |vars| > 0 {
      MeltKeepsMatches(rows, vars[1..], peers, strip);
      var m := MeltRows(rows, ProviderColumn, vars);
      var rest := MeltRows(rows, ProviderColumn, vars[1..]);
      assert m == Map(rows, (r: Row) => MeltRow(r, ProviderColumn, vars[0])) + rest;
      forall q | 0 <= q < |m|
        ensures RowMatches(m[q], peers, strip)
      {
        if q < |rows| {
          assert m[q] == MeltRow(rows[q], ProviderColumn, vars[0]);
          assert Cell(m[q], ProviderColumn) == Cell(rows[q], ProviderColumn);
        } else {
          assert m[q] == rest[q - |rows|];
        }
      }
    }
  }

  /** Lines 113-135 on the chosen sheet: resolve, copy into PROVIDER, filter
      on the unstripped tokens, and melt to long format when a time column
      exists. */
  function ShapeAmbulance(df: Table, peers: seq<string>): (r: Result<Table, Error>)
    ensures r.Ok? <==> ResolveAmbulanceProvider(df.columns).Ok?
    ensures r.Err? ==> r.error == ResolveAmbulanceProvider(df.columns).error
  {
    var col :- ResolveAmbulanceProvider(df.columns);
    var filtered := PeerFilter(CopyColumn(df, ProviderColumn, col), peers, false);
    var timeCols := Filter(filtered.columns, IsTimeColumn);
    Ok(if |timeCols| > 0 then Melt(filtered, ProviderColumn) else filtered)
  }

  /** The ambulance output when the sheet has a time column: long format,
      PROVIDER, "metric_or_date" and "value", one row per kept row and other
      column, each matching a peer. */
  lemma ShapeAmbulanceLong(df: Table, peers: seq<string>)
    requires ResolveAmbulanceProvider(df.columns).Ok?
    requires exists c :: c in df.columns && IsTimeColumn(c)
    ensures var col := ResolveAmbulanceProvider(df.columns).value;
      var out := ShapeAmbulance(df, peers).value;
      && out.columns == [ProviderColumn, "metric_or_date", "value"]
      && |out.rows| == |Filter(df.columns, IsNot(ProviderColumn))| * |PeerFilter(CopyColumn(df, ProviderColumn, col), peers, false).rows|
      && (|peers| == 0 ==> |out.rows| == |Filter(df.columns, IsNot(ProviderColumn))| * |df.rows|)
      && (|peers| > 0 ==> forall q :: 0 <= q < |out.rows| ==> RowMatches(out.rows[q], peers, false))
  {
    var col := ResolveAmbulanceProvider(df.columns).value;
    var copied := CopyColumn(df, ProviderColumn, col);
    var filtered := PeerFilter(copied, peers, false);
    var c :| c in df.columns && IsTimeColumn(c);
    FilterComplete(filtered.columns, IsTimeColumn, c);
    var out := Melt(filtered, ProviderColumn);
    assert ShapeAmbulance(df, peers).value == out;
    FilterAppend(df.columns, [ProviderColumn], IsNot(ProviderColumn));
    assert Filter(AddName(df.columns, ProviderColumn), IsNot(ProviderColumn)) == Filter(df.columns, IsNot(ProviderColumn));
    if |peers| > 0 {
      forall i | 0 <= i < |filtered.rows|
        ensures RowMatches(filtered.rows[i], peers, false)
      {
        assert filtered.rows[i] in filtered.rows;
      }
      MeltKeepsMatches(filtered.rows, Filter(filtered.columns, IsNot(ProviderColumn)), peers, false);
    }
  }

  /** The ambulance output when the sheet has no time column: the wide sheet
      plus PROVIDER, its rows a matching subsequence of the sheet's. */
  lemma ShapeAmbulanceWide(df: Table, peers: seq<string>)
    requires ResolveAmbulanceProvider(df.columns).Ok?
    requires forall c :: c in df.columns ==> !IsTimeColumn(c)
    ensures var copied := CopyColumn(df, ProviderColumn, ResolveAmbulanceProvider(df.columns).value);
      var out := ShapeAmbulance(df, peers).value;
      && out.columns == AddName(df.columns, ProviderColumn)
      && IsSubsequence(out.rows, copied.rows)
      && (|peers| == 0 ==> out == copied)
      && (|peers| > 0 ==> forall r :: r in out.rows <==> r in copied.rows && RowMatches(r, peers, false))
  {
    var copied := CopyColumn(df, ProviderColumn, ResolveAmbulanceProvider(df.columns).value);
    var filtered := PeerFilter(copied, peers, false);
    ProviderIsNotTime();
    var timeCols := Filter(filtered.columns, IsTimeColumn);
    FilterNone(filtered.columns, IsTimeColumn);
  }

  /** `fetch_ambulance_handover_timeseries`. */
  function FetchAmbulance(s: CacheState, peers: seq<string>, download: Downloader, sheets: NameLister, readSheet: EntryReader): (r: (CacheState, Result<Table, Error>))
    ensures OnlyWrites(s, r.0, AmbulanceKey)
    ensures r.1.Ok? ==> AmbulanceKey in r.0.store
  {
    StepOnlyWrites(s, AmbulanceKey, AmbulanceUrl, download);
    var (s', b) := FetchStep(s, AmbulanceKey, AmbulanceUrl, download);
    (s', match b
      case Err(e) => Err(e)
      case Ok(bytes) =>
        match ChooseSheet(sheets(bytes))
        case Err(e) => Err(e)
        case Ok(sheet) => ShapeAmbulance(readSheet(bytes, sheet), peers))
  }

  method FetchAmbulanceHandoverTimeseries(cache: Cache, peers: seq<string>, download: Downloader, sheets: NameLister, readSheet: EntryReader)
    returns (r: Result<Table, Error>)
    modifies cache
    ensures (cache.Snapshot(), r) == FetchAmbulance(old(cache.Snapshot()), peers, download, sheets, readSheet)
  {
    var b := cache.Fetch(AmbulanceKey, AmbulanceUrl, download);
    if b.Err? {
      return Err(b.error);
    }
    var sheet := ChooseSheet(sheets(b.value));
    if sheet.Err? {
      return Err(sheet.error);
    }
    var df := readSheet(b.value, sheet.value);
    var col := ResolveAmbulanceProvider(df.columns);
    if col.Err? {
      return Err(col.error);
    }
    var filtered := FilterPeers(CopyColumn(df, ProviderColumn, col.value), peers, false);
    var timeCols := Filter(filtered.columns, IsTimeColumn);
    if |timeCols| > 0 {
      filtered := Melt(filtered, ProviderColumn);
    }
    r := Ok(filtered);
  }

  /** Lines 155-164 on the chosen sheet: resolve (no fallback), copy into
      PROVIDER, filter on the unstripped tokens. */
  function ShapeDischarge(df: Table, peers: seq<string>): (r: Result<Table, Error>)
    ensures r.Ok? <==> ResolveDischargeProvider(df.columns).Ok?
    ensures r.Ok? ==> r.value.columns == AddName(df.columns, ProviderColumn)
    ensures r.Ok? ==> IsSubsequence(r.value.rows, CopyColumn(df, ProviderColumn, ResolveDischargeProvider(df.columns).value).rows)
    ensures r.Ok? && |peers| == 0 ==> r.value == CopyColumn(df, ProviderColumn, ResolveDischargeProvider(df.columns).value)
    ensures r.Ok? && |peers| > 0 ==> forall row :: row in r.value.rows <==>
      row in CopyColumn(df, ProviderColumn, ResolveDischargeProvider(df.columns).value).rows && RowMatches(row, peers, false)
  {
    var col :- ResolveDischargeProvider(df.columns);
    Ok(PeerFilter(CopyColumn(df, ProviderColumn, col), peers, false))
  }

  /** `fetch_acute_discharge_timeseries`. */
  function FetchDischarge(s: CacheState, peers: seq<string>, download: Downloader, sheets: NameLister, readSheet: EntryReader): (r: (CacheState, Result<Table, Error>))
    ensures OnlyWrites(s, r.0, DischargeKey)
    ensures r.1.Ok? ==> DischargeKey in r.0.store
  {
    StepOnlyWrites(s, DischargeKey, DischargeUrl, download);
    var (s', b) := FetchStep(s, DischargeKey, DischargeUrl, download);
    (s', match b
      case Err(e) => Err(e)
      case Ok(bytes) =>
        match ChooseSheet(sheets(bytes))
        case Err(e) => Err(e)
        case Ok(sheet) => ShapeDischarge(readSheet(bytes, sheet), peers))
  }

  method FetchAcuteDischargeTimeseries(cache: Cache, peers: seq<string>, download: Downloader, sheets: NameLister, readSheet: EntryReader)
    returns (r: Result<Table, Error>)
    modifies cache
    ensures (cache.Snapshot(), r) == FetchDischarge(old(cache.Snapshot()), peers, download, sheets, readSheet)
  {
    var b := cache.Fetch(DischargeKey, DischargeUrl, download);
    if b.Err? {
      return Err(b.error);
    }
    var sheet := ChooseSheet(sheets(b.value));
    if sheet.Err? {
      return Err(sheet.error);
    }
    var df := readSheet(b.value, sheet.value);
    var col := ResolveDischargeProvider(df.columns);
    if col.Err? {
      return Err(col.error);
    }
    var filtered := FilterPeers(CopyColumn(df, ProviderColumn, col.value), peers, false);
    r := Ok(filtered);
  }

  // ---------------------------------------------------------------------
  // RTT full CSV (zip)
  // ---------------------------------------------------------------------

  /** The hand-curated months and their archives. */
  const RttLookup: map<string, string> := map[
    "2025-03" := "https://www.england.nhs.uk/statistics/wp-content/uploads/sites/2/2025/07/rtt-full-csv-Mar25.zip",
    "2025-02" := "https://www.england.nhs.uk/statistics/wp-content/uploads/sites/2/2025/07/rtt-full-csv-Feb25.zip",
    "2025-01" := "https://www.england.nhs.uk/statistics/wp-content/uploads/sites/2/2025/02/rtt-full-csv-Jan25.zip",
    "2024-12" := "https://www.england.nhs.uk/statistics/wp-content/uploads/sites/2/2025/01/rtt-full-csv-Dec24.zip"
  ]

  const RttUnsupported: string := "Month not in demo lookup; extend the list in fetch_rtt_full_csv."

  /** `lookup.get(month_label)`, failing for an unlisted month. */
  function RttUrl(month: string): (r: Result<string, Error>)
    ensures r.Ok? <==> month in {"2025-03", "2025-02", "2025-01", "2024-12"}
    ensures r.Ok? ==> r.value == RttLookup[month]
    ensures r.Err? ==> r.error == UnsupportedPeriod(RttUnsupported)
  {
    if month in RttLookup then Ok(RttLookup[month]) else Err(UnsupportedPeriod(RttUnsupported))
  }

  /** Distinct months name distinct archives. */
  lemma RttUrlsDistinct(m1: string, m2: string)
    requires m1 in RttLookup && m2 in RttLookup && m1 != m2
    ensures RttLookup[m1] != RttLookup[m2]
  {
    var u1, u2 := RttLookup[m1], RttLookup[m2];
    assert u1[|u1| - 9..] != u2[|u2| - 9..];
  }

  function RttKey(month: string): string
  {
    "rtt_" + month + ".zip"
  }

  /** A&E and RTT files never collide in the cache. */
  lemma AeAndRttKeysDiffer(a: string, b: string)
    ensures AeKey(a) != RttKey(b)
  {
    assert AeKey(a)[0] == 'a' && RttKey(b)[0] == 'r';
  }

  /** `fetch_rtt_full_csv`: the month is looked up before the cache is touched. */
  function FetchRtt(s: CacheState, month: string, download: Downloader, members: NameLister, readMember: EntryReader): (r: (CacheState, Result<Table, Error>))
    ensures OnlyWrites(s, r.0, RttKey(month))
    ensures r.1.Ok? ==> RttKey(month) in r.0.store
    ensures RttUrl(month).Err? ==> r == (s, Err(RttUrl(month).error))
  {
    match RttUrl(month)
    case Err(e) => (s, Err(e))
    case Ok(url) =>
      StepOnlyWrites(s, RttKey(month), url, download);
      var (s', b) := FetchStep(s, RttKey(month), url, download);
      (s', match b
        case Err(e) => Err(e)
        case Ok(bytes) =>
          match ChooseMember(members(bytes))
          case Err(e) => Err(e)
          case Ok(name) => Ok(readMember(bytes, name)))
  }

  /** An unlisted month fails with the lookup error and leaves the cache and
      the download count as they were. */
  lemma RttUnlistedMonthFailsFirst(s: CacheState, month: string, download: Downloader, members: NameLister, readMember: EntryReader)
    requires month !in RttLookup
    ensures FetchRtt(s, month, download, members, readMember) == (s, Err(UnsupportedPeriod(RttUnsupported)))
  {
  }

  /** A listed month downloads at most once, from its own archive. */
  lemma RttListedMonthDownloadsOnce(s: CacheState, month: string, download: Downloader, members: NameLister, readMember: EntryReader)
    requires month in RttLookup
    ensures FetchRtt(s, month, download, members, readMember).0 == FetchStep(s, RttKey(month), RttLookup[month], download).0
    ensures FetchRtt(s, month, download, members, readMember).0.downloads <= s.downloads + 1
  {
  }

  /** Asking for the same listed month again, once its archive is cached,
      returns the same table and downloads nothing. */
  lemma RttRepeatIsIdentical(s: CacheState, month: string, download: Downloader, members: NameLister, readMember: EntryReader)
    requires month in RttLookup
    requires FetchStep(s, RttKey(month), RttLookup[month], download).1.Ok?
    ensures var (s1, r1) := FetchRtt(s, month, download, members, readMember);
      FetchRtt(s1, month, download, members, readMember) == (s1, r1)
  {
    RepeatIsIdentical(s, RttKey(month), RttLookup[month], RttLookup[month], download);
  }

  method FetchRttFullCsv(cache: Cache, download: Downloader, members: NameLister, readMember: EntryReader, month: string := "2025-03")
    returns (r: Result<Table, Error>)
    modifies cache
    ensures (cache.Snapshot(), r) == FetchRtt(old(cache.Snapshot()), month, download, members, readMember)
  {
    var url := RttUrl(month);
    if url.Err? {
      return Err(url.error);
    }
    var b := cache.Fetch(RttKey(month), url.value, download);
    if b.Err? {
      return Err(b.error);
    }
    var name := ChooseMember(members(b.value));
    if name.Err? {
      return Err(name.error);
    }
    r := Ok(readMember(b.value, name.value));
  }

  // ---------------------------------------------------------------------
  // KH03 bed availability (latest quarter)
  // ---------------------------------------------------------------------

  const Kh03Url: string := "https://www.england.nhs.uk/statistics/wp-content/uploads/sites/2/2025/06/KH03-Q4-2024-25-data-CSV.csv"
  const Kh03Key: string := "kh03_q4_2024_25.csv"

  /** `fetch_kh03_latest`. */
  function FetchKh03(s: CacheState, download: Downloader, readCsv: CsvReader): (r: (CacheState, Result<Table, Error>))
    ensures OnlyWrites(s, r.0, Kh03Key)
    ensures r.1.Ok? ==> Kh03Key in r.0.store
  {
    StepOnlyWrites(s, Kh03Key, Kh03Url, download);
    var (s', b) := FetchStep(s, Kh03Key, Kh03Url, download);
    (s', match b
      case Err(e) => Err(e)
      case Ok(bytes) => Ok(readCsv(bytes)))
  }

  method FetchKh03Latest(cache: Cache, download: Downloader, readCsv: CsvReader) returns (r: Result<Table, Error>)
    modifies cache
    ensures (cache.Snapshot(), r) == FetchKh03(old(cache.Snapshot()), download, readCsv)
  {
    var b := cache.Fetch(Kh03Key, Kh03Url, download);
    if b.Err? {
      return Err(b.error);
    }
    r := Ok(readCsv(b.value));
  }
}

# Hospital flow dashboard: fetchers, schema heuristics and dashboard arithmetic

This project is a Dafny model of the logic inside the hospital-flow dashboard
and its NHS England public-data scraper.

- **Fetchers.** There are five fetchers: A&E monthly activity, ambulance
  handovers, acute discharges, referral-to-treatment (RTT) full CSV and
  KH03 bed availability. Each one reads a blob from a local cache,
  downloading it only on a miss, and parses the blob into a table.
  - The A&E, ambulance and discharge fetchers also find the provider column
    by heuristics, copy it into a canonical `PROVIDER` column, and keep
    only the rows whose provider text contains a peer token.
  - The A&E fetcher also keeps only the metric columns named by a keyword
    list.
  - The RTT and KH03 fetchers return the parsed table as it is: they
    neither look for a provider column nor filter rows.
- **`rolling_12_week_average`.** A trailing mean, per group, of at most 12
  weekly values. It is defined once 4 values have been seen.
- **`normalise_provider_name`.** Cleans up a provider name.
- **Dashboard computations.**
  - the sidebar date, site and division filters;
  - `safe_div`;
  - `capacity_gap`;
  - the admissions estimate;
  - parsing of the peer list typed by the user;
  - the RTT column view.

Modules:

- `Wrappers`, `Errors`: `Option`, `Result` and the four kinds of failure
  that fetches raise: unsupported period, schema mismatch, transport and an
  empty workbook or archive.
- `Seqs`: order-preserving filter, subsequence, first match.
- `Text`: ASCII `lower`, `in`, `endswith`, `strip`, `replace(old, "")`, `split`.
- `Tables`: a table is a column list plus rows, where a row maps names to text.
  A missing cell reads as `"nan"`, which is what `astype(str)` gives for NaN.
  This module also holds column copy, constant column, projection,
  concatenation, melt and keyword column selection.
- `BlobCache`: the cache-or-download step. It is a pure function over the
  cache state (the stored blobs and a download counter), plus a `Cache`
  class whose `Fetch` method is proved equal to that function.
- `Schema`: provider-column resolution, sheet and member choice, the A&E
  metric columns, and `normalise_provider_name`.
- `Peers`: the peer filter. It is a specification function, plus the source's
  mask-accumulating loop as a method proved equal to it.
- `Fetchers`: the five fetch operations. Each is a module-level method
  that takes a `cache: Cache` and is proved equal to a function of the
  cache state before the call.
- `Rolling`: `rolling_12_week_average` over exact reals.
- `Dashboard`: the computations of `streamlit_app.py`.

The download, the CSV reader, the workbook and archive readers are
parameters (`Downloader`, `CsvReader`, `NameLister`, `EntryReader`). Dates
are whole seconds.

The system's documentation says the unsupported-period error names the
requested value. The code raises a fixed message that does not
(`nhse_scraper.py:182`), and the model follows the code (`Fetchers.RttUrl`).

## Model

| member | source | states |
|---|---|---|
| Seqs.First | nhse_scraper.py:63 | `next((c for c in s if p(c)), None)`: the first element satisfying the test when one exists; None exactly when no element does |
| Seqs.FirstOrHead | nhse_scraper.py:153 | the first element satisfying the test if any, else the first element; None exactly for an empty sequence |
| Text.Lower | nhse_scraper.py:63 | `str.lower` on ASCII: same length, no upper-case letter left, only upper-case letters change, each by +32 |
| Text.Contains | nhse_scraper.py:78 | substring test: true exactly when the token occurs at some index |
| Text.EndsWith | nhse_scraper.py:193 | `str.endswith`: true exactly when the text is at least as long as the suffix and its last characters are the suffix, character by character |
| Text.EndsWithAppended | nhse_scraper.py:193 | a text ends with whatever was appended to it; no text ends with something longer than itself |
| Text.Strip | nhse_scraper.py:77 | `str.strip`: the result is a slice of the input, has no whitespace at either end, and only whitespace was cut |
| Text.StripPadded | streamlit_app.py:223 | whitespace padding around a trimmed text strips back to that text |
| Text.StripIdempotent | nhse_scraper.py:226 | stripping twice is stripping once |
| Text.RemoveAllAbsent | nhse_scraper.py:226 | `replace(pat, "")` leaves a text without `pat` unchanged |
| Text.RemoveAll | nhse_scraper.py:226 | `replace(pat, "")` never makes the text longer |
| Text.RemoveAllSuffix | nhse_scraper.py:226 | a pattern at the end of the text, occurring nowhere earlier, is removed and nothing else is |
| Text.BorderFreeSuffix | nhse_scraper.py:226 | a pattern that cannot overlap itself, appended to a text without it, occurs nowhere before the appended copy |
| Text.MissingPairNotContained | nhse_scraper.py:226 | a text in which the pattern's first two characters never stand side by side does not contain the pattern |
| Text.RemoveAllSuffixFirstChar | nhse_scraper.py:226 | the same, when the text before the pattern lacks the pattern's first character |
| Text.JoinSplit | streamlit_app.py:223 | joining the pieces of `split(sep)` with `sep` gives the text back |
| Text.Split | streamlit_app.py:223 | `split(sep)` gives at least one piece and no piece holds the separator |
| Text.SplitJoin | streamlit_app.py:223 | splitting a join of separator-free pieces gives the pieces back |
| Tables.CopyColumn | nhse_scraper.py:71 | `df["PROVIDER"] = df[col].astype(str)`: each row's new cell is the source cell's text and every other cell is unchanged |
| Tables.SetConstant | nhse_scraper.py:58 | `df["period"] = label`: every row gets the label and nothing else changes |
| Tables.Project | nhse_scraper.py:92 | `df[cols]`: exactly the listed columns of every row, with their cells |
| Tables.Concat | nhse_scraper.py:60 | `pd.concat`: the header starts with the first frame's and holds exactly the names some frame has; the rows are every frame's rows, frame after frame, in order |
| Tables.Melt | nhse_scraper.py:132 | `melt(id_vars=["PROVIDER"])`: three columns, and one long row per input row for each other column |
| Tables.MergeColumns | nhse_scraper.py:60 | the concatenated header starts with the first header and holds exactly the names of either header |
| Tables.ConcatRowCount | nhse_scraper.py:60 | `pd.concat(..., ignore_index=True)` has as many rows as all frames together |
| Tables.MeltRowAt | nhse_scraper.py:132 | the long row for value column j and input row i sits at position j·n+i, with that row's PROVIDER, the column name and the cell |
| Tables.KeywordSelect | nhse_scraper.py:88-90 | keeps exactly the columns whose lower-cased name contains a keyword, in their order |
| BlobCache.FetchStep | nhse_scraper.py:183-190 | the cache-or-download step (run the same way at lines 52-57, 101-108 and 206-211): a hit returns the stored blob and changes nothing; a miss downloads once, returns what the download gave, and stores the blob only on success |
| BlobCache.HitDoesNotDownload | nhse_scraper.py:188-190 | a cached key returns the stored bytes and changes nothing |
| BlobCache.MissDownloadsOnce | nhse_scraper.py:184-187 | a miss downloads exactly once; on success the bytes are stored under the key, on failure nothing is stored and the error is returned |
| BlobCache.OkIsStored | nhse_scraper.py:183-190 | a successful step leaves the returned bytes stored under the requested key |
| BlobCache.WriteOnce | nhse_scraper.py:183-190 | a step never changes or removes another key, adds at most its own key, and downloads at most once |
| BlobCache.RepeatIsIdentical | nhse_scraper.py:183-190 | after a successful step the same key returns the same bytes with no further download |
| BlobCache.Cache.Fetch | nhse_scraper.py:183-190 | the cache object's new store, counter and result are those of the cache-or-download step |
| Schema.ResolveAeProvider | nhse_scraper.py:63-70 | the first column whose lower-cased name is one of the four synonyms; else "Provider Name" if present; else the A&E schema error; success exactly when one of those exists |
| Schema.AeCodeColumnWins | nhse_scraper.py:63-68 | with both "Provider Code" and "Provider Name", the code column is chosen |
| Schema.ResolveAmbulanceProvider | nhse_scraper.py:114-118 | the first column mentioning "provider" and not "code"; else the first mentioning "organisation"; else the ambulance schema error |
| Schema.ResolveDischargeProvider | nhse_scraper.py:155-157 | the first column mentioning "provider" and not "code"; else the discharge schema error (no fallback) |
| Schema.ChooseSheet | nhse_scraper.py:111 | the first sheet mentioning "provider", else the first sheet; fails exactly when the workbook has no sheet |
| Schema.ChooseMember | nhse_scraper.py:193-195 | the first member mentioning "provider" and ending ".csv", else the first member; fails exactly when the archive is empty |
| Schema.AeWantedColumns | nhse_scraper.py:88-90 | the append loop collects exactly the keyword columns, in their order |
| Schema.LeadingColumnsAreNotMetrics | nhse_scraper.py:92 | neither "period" nor "PROVIDER" mentions an A&E keyword, so neither appears twice in the output header |
| Schema.NoKeywordWithout | nhse_scraper.py:89 | a name with no 't' or 'g' in either case mentions no A&E keyword |
| Schema.NormaliseProviderName | nhse_scraper.py:225-226 | the normalised name has no upper-case letter and no whitespace at either end (the suffix removal itself: NormaliseDropsNhsTrust, NormaliseDropsFoundationTrust) |
| Schema.NormaliseIdempotent | nhse_scraper.py:226 | normalising twice is normalising once |
| Schema.NormaliseDropsNhsTrust | nhse_scraper.py:226 | a trimmed name followed by " NHS TRUST" normalises to the lower-cased name without the suffix, whenever neither suffix already occurs earlier |
| Schema.NormaliseDropsFoundationTrust | nhse_scraper.py:226 | a trimmed name followed by " NHS FOUNDATION TRUST" normalises to the lower-cased name without the suffix, whenever neither suffix already occurs in the name |
| Schema.NhsTrustBorderFree | nhse_scraper.py:226 | "NHS TRUST" cannot overlap itself, so an earlier copy never straddles the trailing one |
| Schema.FoundationTrustBorderFree | nhse_scraper.py:226 | "NHS FOUNDATION TRUST" cannot overlap itself either |
| Schema.NormaliseSussex | nhse_scraper.py:225-226 | "UNIVERSITY HOSPITALS SUSSEX NHS FOUNDATION TRUST" normalises to "university hospitals sussex" |
| Schema.NormalisePortsmouthHospitals | nhse_scraper.py:225-226 | "PORTSMOUTH HOSPITALS NHS TRUST" normalises to "portsmouth hospitals" |
| Schema.NormaliseWithoutSuffix | nhse_scraper.py:226 | removal is case-sensitive: a trimmed name without either upper-case suffix is only lower-cased |
| Peers.PeerFilter | nhse_scraper.py:74-79 | the columns are unchanged; an empty peer list returns the table itself; otherwise a row is kept exactly when its lower-cased PROVIDER contains some token; the order is kept |
| Peers.PeerFilterCount | nhse_scraper.py:75-79 | every copy of a matching row is kept, and no copy of any other row |
| Peers.FilterPeers | nhse_scraper.py:74-79 | the mask loop over the peers, then the row selection, computes exactly the peer filter |
| Peers.OrMask | nhse_scraper.py:78 | one step of the mask: same length as the table, and a row already marked stays marked |
| Peers.MaskStep | nhse_scraper.py:76-78 | after k+1 peers the mask marks exactly the rows some of the first k+1 tokens match |
| Peers.StripMatters | nhse_scraper.py:124-125 | the unstripped token " x" does not match "xyz"; the stripped one does |
| Peers.PortsmouthKept | nhse_scraper.py:74-79 | rows for "Portsmouth NHS Trust" are all kept for the token "portsmouth" |
| Peers.OxfordDropped | nhse_scraper.py:74-79 | rows for "Portsmouth NHS Trust" are all dropped for the token "oxford" |
| Peers.OxfordNeedsX | nhse_scraper.py:74-79 | a provider text without an 'x' in either case never matches "oxford" |
| Fetchers.AeKeyInjective | nhse_scraper.py:51 | different months never share an A&E cache file |
| Fetchers.AeAndRttKeysDiffer | nhse_scraper.py:183 | A&E and RTT cache files never collide |
| Fetchers.ShapeAe | nhse_scraper.py:62-92 | succeeds exactly when the provider column resolves, and otherwise fails with the resolution error |
| Fetchers.ShapeAeContract | nhse_scraper.py:88-92 | A&E output: "period" and "PROVIDER" first, then exactly the input's keyword columns in the input's order; with peers, every row matches a stripped token; without peers, no row is lost |
| Fetchers.AeFramesStopAtError | nhse_scraper.py:49-59 | once a month's download fails, the later months are never requested |
| Fetchers.FetchAeFrames | nhse_scraper.py:49-59 | the month loop downloads at most once per month and never un-counts a download; on success there is one frame per month |
| Fetchers.FetchAe | nhse_scraper.py:48-93 | the A&E fetch downloads at most four files; a failing month makes the whole fetch fail with that month's error |
| Fetchers.ShapeAeRows | nhse_scraper.py:62-92 | the output rows are the input rows whose resolved provider text matches a stripped token (all of them with no peers), in order and with repeats, one each, with PROVIDER the resolved provider text and "period" the input's |
| Fetchers.AeFramesGrowStore | nhse_scraper.py:50-57 | the month loop only adds cache entries and never changes one |
| Fetchers.AeFramesRecorded | nhse_scraper.py:49-59 | after a successful loop every month is cached, and the frames are the cached blobs, each labelled with its month |
| Fetchers.AeFramesAllCached | nhse_scraper.py:50-53 | with every month cached, the loop downloads nothing and returns the cached frames |
| Fetchers.AeRepeatIsIdentical | nhse_scraper.py:48-60 | a second A&E fetch after a successful one returns the same table and downloads nothing |
| Fetchers.FetchAeFramesLoop | nhse_scraper.py:49-59 | the month loop (cache-or-download per month, first failure returns) leaves the cache and returns the frames exactly as the frame-loop function of the old cache says |
| Fetchers.FetchAeMonthlyProvider | nhse_scraper.py:48-93 | the imperative fetcher (frame loop with early failure, mask loop, column loop) equals the A&E fetch function on the old cache |
| Fetchers.ProviderIsNotTime | nhse_scraper.py:130 | "PROVIDER" is never taken for a time column |
| Fetchers.MeltKeepsMatches | nhse_scraper.py:131-132 | melting rows that all match the peers gives long rows that all match |
| Fetchers.ShapeAmbulance | nhse_scraper.py:113-136 | succeeds exactly when the ambulance provider column resolves, and otherwise fails with that error |
| Fetchers.ShapeAmbulanceLong | nhse_scraper.py:130-132 | with a time column the output is long: three columns, (other columns × kept rows) rows, all rows when there are no peers, every row matching a peer |
| Fetchers.ShapeAmbulanceWide | nhse_scraper.py:119-136 | without a time column the output is the sheet plus PROVIDER; its rows are exactly the matching rows, in order, or the copied sheet itself when there are no peers |
| Fetchers.FetchAmbulanceHandoverTimeseries | nhse_scraper.py:100-136 | the imperative fetcher equals the ambulance fetch function on the old cache |
| Fetchers.FetchAmbulance | nhse_scraper.py:100-136 | at most one download, no cache file but the ambulance workbook touched, nothing changed on a hit; on success the workbook is cached |
| Fetchers.ShapeDischarge | nhse_scraper.py:155-166 | succeeds exactly when the discharge column resolves; the output has the sheet's columns plus PROVIDER; without peers it is the copied sheet itself; with peers a row is in it exactly when it is a copied row matching an unstripped token, and the order is kept |
| Fetchers.FetchAcuteDischargeTimeseries | nhse_scraper.py:143-166 | the imperative fetcher equals the discharge fetch function on the old cache |
| Fetchers.FetchDischarge | nhse_scraper.py:143-166 | at most one download, no cache file but the discharge workbook touched, nothing changed on a hit; on success the workbook is cached |
| Fetchers.RttUrl | nhse_scraper.py:174-182 | exactly the four listed months have an archive URL; any other month fails with the unsupported-period message |
| Fetchers.RttUrlsDistinct | nhse_scraper.py:174-179 | distinct months name distinct archives |
| Fetchers.RttUnlistedMonthFailsFirst | nhse_scraper.py:180-182 | an unlisted month fails with the lookup error, and the cache and the download count are unchanged |
| Fetchers.RttListedMonthDownloadsOnce | nhse_scraper.py:183-190 | a listed month runs the cache step for its own archive, with at most one download |
| Fetchers.RttRepeatIsIdentical | nhse_scraper.py:183-190 | a second fetch of a cached month returns the same table and downloads nothing |
| Fetchers.FetchRttFullCsv | nhse_scraper.py:171-198 | the imperative fetcher, with "2025-03" as the default month, equals the RTT fetch function on the old cache |
| Fetchers.FetchRtt | nhse_scraper.py:171-198 | at most one download, no cache file but the month's archive touched; on success that archive is cached; an unlisted month fails with the lookup error and changes nothing |
| Fetchers.FetchKh03Latest | nhse_scraper.py:205-212 | the imperative fetcher equals the KH03 fetch function on the old cache |
| Fetchers.FetchKh03 | nhse_scraper.py:205-212 | at most one download, no cache file but the KH03 CSV touched, nothing changed on a hit; on success the CSV is cached |
| Rolling.MeanBounds | nhse_scraper.py:222 | a mean lies between any lower and upper bound of its values |
| Rolling.TotalPermutation | nhse_scraper.py:221-222 | reordering the rows keeps the sum of their values |
| Rolling.SortByDate | nhse_scraper.py:221 | `sort_values(date_col)`: sorted by date, the same length, and a permutation |
| Rolling.Last | nhse_scraper.py:222 | the trailing window holds min(k, 12) values and is a suffix |
| Rolling.Rolling12 | nhse_scraper.py:217-223 | one output row per input row, in date order, a permutation of the input, each row with the trailing average at that row |
| Rolling.TrailingWindow | nhse_scraper.py:222 | no average while fewer than 4 rows of the group have been seen up to and including the row; otherwise the mean of the group's last min(k, 12) values, its own included |
| Rolling.AverageAt | nhse_scraper.py:222 | a defined average is taken over a window of between 4 and 12 values |
| Rolling.SmallGroupUndefined | nhse_scraper.py:222 | a group with fewer than 4 rows never gets an average |
| Rolling.AverageWithinRange | nhse_scraper.py:222 | every average of a group lies within the range of that group's values |
| Rolling.ConstantGroupAverage | nhse_scraper.py:222 | a group whose values are all c averages to c wherever defined |
| Rolling.FullWindowMean | nhse_scraper.py:217-222 | one group of exactly 12 weeks: the 12th average is the mean of all twelve values, whatever order they arrived in |
| Dashboard.WindowEnd | streamlit_app.py:40 | a row stamped at the chosen last midnight or later is within the window end exactly when it falls before the next midnight |
| Dashboard.LastDayIncluded | streamlit_app.py:40-45 | every second of the last chosen day is inside the window; the next midnight is not |
| Dashboard.ApplyFilters | streamlit_app.py:40-52 | every extract is cut to the window; inpatients keep exactly the rows matching the chosen site and division; ED keeps the site only when it has a site column |
| Dashboard.InpatientFilterExact | streamlit_app.py:43-52 | a row is kept exactly when it is in the window and matches the choices; every copy is kept; the order is kept |
| Dashboard.AllKeepsWindow | streamlit_app.py:47-52 | with "All" for both site and division, only the date window applies |
| Dashboard.SafeDiv | streamlit_app.py:60-61 | 0 when the divisor is 0; otherwise the quotient, whose product with the divisor gives back the dividend |
| Dashboard.Shortfall | streamlit_app.py:68 | the gap is never negative, is 0 exactly when occupancy plus admissions minus discharges is within the target, and otherwise is that excess |
| Dashboard.CapacityGap | streamlit_app.py:63-69 | beds and occupied are the sums over the day's rows; the target is pct % of the beds; the gap is the shortfall against it |
| Dashboard.GapMonotone | streamlit_app.py:68 | more expected admissions never lower the gap; more planned discharges never raise it |
| Dashboard.GapFallsWithTarget | streamlit_app.py:66-68 | with non-negative bed counts, a higher occupancy target never raises the gap |
| Dashboard.SumNonNegative | streamlit_app.py:64-65 | a sum of non-negative counts is non-negative |
| Dashboard.Truncate100 | streamlit_app.py:87 | division by 100 truncated toward zero, as `int()` does, on both signs |
| Dashboard.AdmitsEstimate | streamlit_app.py:87 | for non-negative inputs the estimate is the floor of arrivals × conversion / 100 |
| Dashboard.AdmitsAtMostArrivals | streamlit_app.py:87 | with a share of at most 100 %, the estimate lies between 0 and the arrivals |
| Dashboard.AdmitsMonotone | streamlit_app.py:87 | the estimate grows with the conversion share |
| Dashboard.LastDate | streamlit_app.py:81 | `ipf["date"].max()`: none exactly for no rows; otherwise a date that occurs and is not below any row's |
| Dashboard.AtAGlance | streamlit_app.py:81-89 | the figures are taken over the rows of the latest inpatient date; the gap is never negative; with a share between 0 and 100 % and non-negative arrivals, the admissions lie between 0 and the arrivals |
| Dashboard.EmptyViewIsQuiet | streamlit_app.py:81-89 | with no inpatient rows, arrivals, discharges, admissions and gap are all zero |
| Dashboard.GlanceLatestDay | streamlit_app.py:81-89 | for the largest inpatient date d, the figures are the totals over the rows dated d: ED arrivals, inpatient discharges, beds and occupied; the estimate is taken from those arrivals |
| Dashboard.SumOnDay | streamlit_app.py:82-88 | selecting the rows of one date and summing a field gives the running total of that field over the rows of that date |
| Dashboard.DayAdmitsBounded | streamlit_app.py:86-87 | with a share between 0 and 100 % and non-negative arrivals, the estimate from one day's arrivals lies between 0 and those arrivals |
| Dashboard.ParsePeers | streamlit_app.py:223 | a name is a token exactly when it is a non-empty stripped piece of the comma split, as often as it occurs there and in the same order; no token is empty, padded or holds a comma |
| Dashboard.ParsePeersJoin | streamlit_app.py:223 | typing back a comma-separated list of names, each possibly padded, gives the stripped names |
| Dashboard.ParsePeersPadded | streamlit_app.py:223 | padding around a name and a trailing empty entry are dropped |
| Dashboard.ParsePeersDefault | streamlit_app.py:222-223 | the starting text "Portsmouth, University Hospitals Sussex, University Hospitals Dorset" gives exactly those three names |
| Dashboard.RttView | streamlit_app.py:261 | exactly the columns mentioning one of the six keywords, in order; every row kept with those cells |

## Left out

- HTTP (`requests.get`, the client header, the timeout, `raise_for_status`) is not modelled. It is the `Downloader` parameter, which returns bytes or a transport error.
- The filesystem is not modelled: the cache directory, `open` and `os.path.exists`. The cache is a map from file name to bytes.
- Parsing of CSV, Excel and zip data is delegated to the `CsvReader`, `NameLister` and `EntryReader` parameters.
- Parse failures are not modelled: the readers are total, so the exceptions `read_csv`, `read_excel` and zip opening raise on bad data are not captured. Nor is the consequence in the source: the ambulance, discharge and RTT fetchers write the raw bytes before parsing (`nhse_scraper.py:106-108`, `nhse_scraper.py:186-187`), so a bad blob stays cached and fails on every later call, while A&E and KH03 parse first (`nhse_scraper.py:56-57`, `nhse_scraper.py:210-211`) and cache nothing on a parse failure.
- Fetchers.FetchAeMonthlyProvider: the cache holds the downloaded bytes, and each month is parsed from them. The source instead writes the parsed CSV back with `to_csv` and re-reads that on a later hit. This assumes the round trip through `to_csv` and `read_csv` changes nothing.
- Fetchers.FetchKh03Latest: the same assumption as for the A&E fetcher.
- Peers.PeerFilter: pandas `str.contains` treats the token as a regular expression by default. The model matches it as a literal substring, so tokens with regex metacharacters behave differently.
- Fetchers.ShapeAmbulance: `mask_date` is computed and never used (`nhse_scraper.py:134-135`), so it is not modelled.
- Column names are assumed to be strings. A non-text Excel header would make `c.lower()` raise in the source.
- String handling is ASCII only: `lower()` changes A-Z, and `strip()` removes characters 9-13, 28-32.
- Dashboard.AdmitsEstimate: computed on exact numbers. The source multiplies floats (`admit_conv/100`), so it can round one below the exact floor; for example, 100 × 0.29 gives 28.
- Dashboard.CapacityGap: exact reals, not floating point.
- Rolling.SortByDate: a stable insertion sort. `sort_values` defaults to quicksort, which is not stable, so the order of rows with equal dates may differ.
- Rolling.Rolling12: every value is a number. NaN values, which pandas' rolling window skips, are not modelled.
- Rolling.Rolling12: the dates are already numbers, so `pd.to_datetime` is not modelled.
- Dashboard.ApplyFilters: dates are whole seconds. A timestamp in the last second of the chosen day with a fractional part is not represented.
- Streamlit widgets, tabs, `kpi_card`, the plotly charts and the percentage displays (`streamlit_app.py:9-213`) are UI only and are not modelled.
- `load_data` and the benchmarking buttons' error display are not modelled.
- Concurrent fetches of the same cache file are not modelled. Two Streamlit sessions sharing the cache directory could both miss and both download; the model runs one fetch at a time.

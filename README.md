# Spotify listening-history pipeline, modelled in Dafny

This project models the record-level core of `spotify_streamlit.py`, a pandas script that
analyses a Spotify listening-history export. The script does three things:

- **loads** the already-parsed per-file record lists in sorted path order, keeps the records
  whose stream date lies within optional inclusive bounds, and drops records without a track
  name (`load_streaming_files`);
- **cleans** the records down to eleven columns, deriving the seconds and minutes played from
  the milliseconds (`clean_streaming_data`);
- **summarises** the cleaned rows (total minutes, streams with a track URI, distinct songs,
  distinct artists) and builds four grouped tables (plays and minutes per song, plays and
  minutes per artist), each sorted by its metric, largest first.

Modules, one per stage, in dependency order:

| module | file | what it holds |
|---|---|---|
| `Wrappers` | `wrappers.dfy` | `Option` for nullable columns, `Result` for the loader's errors |
| `Seqs` | `seqs.dfy` | order-preserving `Filter` (boolean-mask indexing), insertion `Sort` against any total relation, `SumBy` |
| `Paths` | `paths.dfy` | Python's string order (`LexLe`) and `SortPaths`, the model of `sorted(paths)` |
| `Records` | `records.dfy` | `Record`, one parsed row of the export |
| `Loader` | `loader.dfy` | the loader: the specification function `Load`, the method `LoadStreamingFiles` and its read loop `ReadFiles` |
| `LoaderAsWritten` | `loader_as_written.dfy` | the loader exactly as written, where a frame without columns raises (see Findings) |
| `Cleaning` | `cleaning.dfy` | `Row`, `Project` and `Clean` |
| `Grouping` | `grouping.dfy` | `groupby` with null keys dropped, per-group plays and minutes, the sorted tables |
| `Stats` | `stats.dfy` | `SummaryStats` and the four tables |
| `Pipeline` | `pipeline.dfy` | load → clean → summarise, end to end, and a worked example |

How inputs are represented:

- The files are a `map<Path, seq<Record>>` from a path to its parsed records. A path that
  is not in the map is a file that cannot be read. Loading it fails with `ParseError(path)`,
  which stands for the exception `pd.read_json` raises.
- Stream dates and timestamps are integers (a day number and an instant), given with each
  record. `ms_played` is a `nat`. Seconds and minutes are exact reals.
- Unknown extra JSON columns of a record are an opaque `other` map. Cleaning drops them.

The tables are modelled as the full sorted tables. They use an insertion sort against the
descending metric order. Their contracts promise only what `sort_values` promises:

- the result is ordered non-increasingly by the metric;
- it is a permutation of the group entries.

The order of groups with equal metrics is unspecified.

Where the code and the intended behaviour of the script differ, the model follows the code,
except where Findings records a bug: there the code as written is modelled in
`LoaderAsWritten`, the intended behaviour in `Loader.Load`, and the rest of the model uses
the intended behaviour.

- One might expect equal metrics to keep their first-encountered order. `sort_values`
  does not guarantee that, so no tie order is promised.
- The tables have no `limit` parameter, and there are no breakdowns by day, month,
  weekday, hour or platform. The code only `display`s the first five rows of each table,
  and it only groups by song and by artist.
- With an empty path list, or a file holding an empty JSON array, the code raises
  `KeyError` where loading no records is evidently intended. Both are recorded under
  Findings.
- "There are no more distinct songs than streams" does not hold for every input: a row
  with a track and an artist name but no track URI adds a song without adding a stream,
  because streams count URIs (line 38) and songs count (track, artist) pairs (line 39).
  `Stats.UniqueSongsWithinStreams` therefore requires that every such row has a URI.
- `get_summary_stats` only prints its four numbers. The model returns them as a `Summary`.

## Model

| member | source | states |
|---|---|---|
| Loader.LoadStreamingFiles | spotify_streamlit.py:13-25 | reads the sorted paths with `ReadFiles`, fails on the first unreadable path, then applies the optional min-date and max-date filters and the track-name filter; the result equals `Load` for all inputs |
| Loader.ReadFiles | spotify_streamlit.py:14-19 | the read loop appends each file's records to the frame in the given order and stops with a parse error at the first path that cannot be read; the result equals `ReadAll` |
| Loader.Load | spotify_streamlit.py:13-25 | the specification of the loader: every loaded record lies within the inclusive bounds and has a track name; a failure is a parse error on a path that cannot be read |
| Loader.ReadAll | spotify_streamlit.py:15-19 | reading the sorted paths succeeds exactly when every path can be read; a failure names a given path that cannot be read |
| Loader.ReadAllStep | spotify_streamlit.py:15-19 | one iteration of the read loop appends the next file's records, or fails on that path |
| Loader.ReadAllPrefixFailure | spotify_streamlit.py:15-16 | a read that fails on a prefix of the paths fails the whole read with the same error (the exception ends the loop) |
| Loader.ReadAllAppend | spotify_streamlit.py:15-19 | reading two path lists one after the other reads the concatenation of their records |
| Loader.FilterSteps | spotify_streamlit.py:20-24 | the conditional min-date filter, then the conditional max-date filter, then the track-name filter keep exactly the records that lie within both bounds and have a track name |
| Loader.MinDateStep | spotify_streamlit.py:20-21 | the min-date filter, applied only when a minimum is given, keeps exactly the records dated on or after it |
| Loader.MaxDateStep | spotify_streamlit.py:22-23 | the max-date filter, applied only when a maximum is given, narrows to exactly the records inside both bounds |
| Loader.TrackNameStep | spotify_streamlit.py:24 | dropping null track names after the date filters keeps exactly the records inside the bounds that have a track name |
| Loader.LoadSelects | spotify_streamlit.py:20-24 | a read record is loaded iff its date lies within the inclusive bounds and it has a track name; a record dated exactly on a bound is kept |
| Loader.LoadDropsExactly | spotify_streamlit.py:19-24 | each record keeps its full multiplicity if it passes the filters and is dropped entirely otherwise |
| Loader.LoadWithoutBounds | spotify_streamlit.py:20-24 | with both bounds omitted only the null-track filter applies |
| Loader.LoadKeepsOrder | spotify_streamlit.py:19-24 | the loaded records are a subsequence of the concatenation: every filter preserves relative order |
| Loader.LoadFailsOnUnreadable | spotify_streamlit.py:15-16 | loading fails exactly when some given path cannot be read, and the error names such a path |
| Loader.LoadIgnoresGivenOrder | spotify_streamlit.py:15 | two path lists holding the same paths in any order load the same records |
| Loader.LoadFileByFile | spotify_streamlit.py:15-19 | for paths already in ascending order, a later file's records follow an earlier file's: loading `a + b` is loading `a` then `b` |
| Loader.LoadNoPaths | spotify_streamlit.py:14-19 | an empty path list loads no records |
| Loader.ReadAllEmptyFiles | spotify_streamlit.py:15-19 | files that hold no records contribute no records to the read |
| Loader.LoadEmptyFiles | spotify_streamlit.py:15-24 | loading only files that hold no records succeeds with no records |
| Paths.LexLeIsTotalOrder | spotify_streamlit.py:15 | Python's `str` ordering used by `sorted` (code points compared lexicographically, a proper prefix first) is total, transitive and antisymmetric |
| Paths.SortPaths | spotify_streamlit.py:15 | `sorted(paths)` is ascending under `LexLe` and a permutation of the given paths |
| Paths.SortPathsIgnoresGivenOrder | spotify_streamlit.py:15 | the sorted order depends only on which paths are given, not on their order |
| Seqs.Filter | spotify_streamlit.py:21-24 | boolean-mask indexing: the result holds exactly the elements that satisfy the mask, and it is no longer than the input |
| Seqs.FilterMultiset | spotify_streamlit.py:21-24 | a mask keeps every occurrence of a passing element and none of a failing one |
| Seqs.FilterIsSubsequence | spotify_streamlit.py:21-24 | a mask keeps the relative order of what it keeps |
| Seqs.FilterAppend | spotify_streamlit.py:19-24 | masking a concatenation masks each part and concatenates |
| Seqs.FilterCompose | spotify_streamlit.py:20-24 | two masks applied in turn equal one mask by their conjunction |
| Seqs.FilterKeepsAll | spotify_streamlit.py:38 | a mask keeps every element iff every element passes it |
| Seqs.Sort | spotify_streamlit.py:48 | the sort is ordered by the given total order and is a permutation of its input (same multiset, same length, still distinct) |
| Seqs.SortedUnique | spotify_streamlit.py:15 | under an antisymmetric order there is only one sorted permutation, so the sorted path list is determined |
| Seqs.SumByPermutation | spotify_streamlit.py:47-48 | a column sum does not depend on the row order, so sorting a table does not change its totals |
| Cleaning.Project | spotify_streamlit.py:29-33 | a cleaned row carries the eleven kept columns unchanged, `seconds * 1000 == ms_played`, `minutes * 60000 == ms_played`, and the minutes are non-negative |
| Cleaning.Clean | spotify_streamlit.py:28-34 | cleaning keeps the row count and order: row `i` carries record `i`'s kept columns, its minutes equal `ms_played / 60000`, and they are non-negative |
| Cleaning.CleanAppend | spotify_streamlit.py:28-34 | cleaning works row by row: cleaning a concatenation concatenates the cleaned parts |
| Grouping.GroupKeys | spotify_streamlit.py:39 | `groupby` keys are the distinct non-null keys: no key repeats, every row's non-null key appears, and there are no more keys than rows |
| Grouping.GroupKeysCount | spotify_streamlit.py:39-40 | the number of groups (`ngroups`, `nunique`) is the number of distinct non-null keys and at most the number of rows |
| Grouping.GroupPlays | spotify_streamlit.py:47 | a group's `count()` of track names is at most the number of rows |
| Grouping.GroupPlaysIsCount | spotify_streamlit.py:47 | a group's `count()` is the number of rows that carry its key and have a track name |
| Grouping.GroupMinutes | spotify_streamlit.py:54 | a group's `sum()` of minutes is non-negative when every row's minutes are |
| Grouping.GroupPlaysPositive | spotify_streamlit.py:47 | a group's `count()` of track names is positive iff one of its rows has a track name |
| Grouping.GroupMinutesIsSum | spotify_streamlit.py:54 | a group's minutes are the sum of the minutes of exactly the rows that carry its key |
| Grouping.GroupMinutesOutside | spotify_streamlit.py:54 | a key that no row carries has zero minutes |
| Grouping.PlayCounts | spotify_streamlit.py:47 | the grouped counts after `reset_index`, before the sort: one entry per given key, in order, holding that key's count |
| Grouping.MinuteTotals | spotify_streamlit.py:54 | the grouped minutes after `reset_index`, before the sort: one entry per given key, in order, holding that key's minutes |
| Grouping.PlaysTable | spotify_streamlit.py:47-48 | the play table is sorted by plays, descending, and is a permutation of the group entries; each entry's count is its group's count; every non-null key appears exactly once; the length is the number of distinct keys |
| Grouping.MinutesTable | spotify_streamlit.py:54-55 | the same facts for the minutes table, with each entry's minutes equal to its group's minutes |
| Grouping.PlaysPartition | spotify_streamlit.py:47 | the per-group counts add up to the number of rows that have a key and a track name |
| Grouping.MinutesPartition | spotify_streamlit.py:54 | the per-group minutes add up to the minutes of the rows with a non-null key |
| Grouping.PlaysTableSum | spotify_streamlit.py:47-48 | the plays of the sorted play table add up to the number of counted rows |
| Grouping.MinutesTableSum | spotify_streamlit.py:54-55 | the minutes of the sorted minutes table add up to the minutes of the keyed rows |
| Stats.MinutesExact | spotify_streamlit.py:37 | when every row's minutes agree with its milliseconds, the minutes column sums to exactly the total milliseconds divided by 60000 |
| Stats.UriCount | spotify_streamlit.py:38 | `count()` on the URI column is the number of rows whose URI is not null |
| Stats.SummaryStats | spotify_streamlit.py:36-40 | the total minutes are exactly total ms / 60000 and non-negative; the stream count is the number of rows whose URI is not null, so at most the row count, and equal to it iff every row has a URI; the distinct-song and distinct-artist counts are the numbers of distinct non-null keys, each at most the row count; all four statistics are zero on empty input |
| Stats.UniqueSongsWithinStreams | spotify_streamlit.py:38-39 | when every row with a (track, artist) pair has a URI, there are no more distinct songs than streams |
| Stats.SongPlaysPositive | spotify_streamlit.py:47 | every song entry has a positive play count, since its key carries a track name |
| Stats.MostPlayedSongs | spotify_streamlit.py:46-48 | one entry per distinct non-null (track, artist) pair with a positive count equal to its group's plays, that is, the number of the pair's rows with a track name; sorted descending; a permutation of the groups; length equals the distinct-song count of the summary |
| Stats.LongestPlayedSongs | spotify_streamlit.py:53-55 | one entry per distinct pair whose minutes equal the sum over that pair's rows; sorted descending; a permutation of the groups; length equals the distinct-song count |
| Stats.MostPlayedArtists | spotify_streamlit.py:60-62 | one entry per distinct non-null artist whose count is the number of that artist's rows with a track name; sorted descending; a permutation; length equals the artist count of the summary |
| Stats.LongestPlayedArtists | spotify_streamlit.py:67-69 | one entry per distinct non-null artist whose minutes equal the sum over that artist's rows; sorted descending; a permutation; length equals the artist count |
| Stats.ArtistPlaysPositive | spotify_streamlit.py:61-62 | on rows that all have a track name (as every loaded row does), each artist's count is positive |
| Stats.SongTablesAddUp | spotify_streamlit.py:47-55 | the song tables add up over the rows that have both a track and an artist: their number, and their minutes |
| Stats.ArtistTablesAddUp | spotify_streamlit.py:61-69 | the artist play counts add up to the rows with an artist and a track name; the artist minutes add up to the minutes of the rows with an artist |
| Stats.TablesAddUpOverArtistRows | spotify_streamlit.py:47-69 | on rows that all have a track name, all four tables add up over the rows with an artist name |
| Pipeline.LoadedRowsAreValid | spotify_streamlit.py:13-34 | every cleaned row of a successful load has a track name, a date inside the bounds, and non-negative minutes equal to ms / 60000 |
| Pipeline.LoadedTablesAddUp | spotify_streamlit.py:13-72 | after load and clean, every artist has a positive count, and each of the four tables adds up over the rows with an artist name |
| Pipeline.NoPathsGiveZeroes | spotify_streamlit.py:13-72 | with no path, the load is empty, all four statistics are zero, and all four tables are empty |
| Pipeline.OneSongSummary | spotify_streamlit.py:36-40 | rows that all play one song, each with a URI, give total ms / 60000 minutes, one stream per row, one song and one artist |
| Pipeline.OneSongTable | spotify_streamlit.py:53-55 | rows that all play one song give a single per-song entry holding all their minutes |
| Pipeline.ThreePlaysOfOneSong | spotify_streamlit.py:28-55 | three plays of one song for 60000, 120000 and 30000 ms give 3.5 minutes, 3 streams, 1 song and 1 artist, and a single per-song entry of 3.5 minutes |
| LoaderAsWritten.AsWrittenRejectsNoPaths | spotify_streamlit.py:14-24 | as written, an empty path list raises a missing-column error, whereas the intended load returns no records |
| LoaderAsWritten.AsWrittenRejectsEmptyFile | spotify_streamlit.py:16-17 | as written, a file holding no records raises on the `ts` column, whereas the intended load returns no records |
| LoaderAsWritten.ReadAllAsWritten | spotify_streamlit.py:15-19 | reading as written succeeds exactly when every path can be read and holds records; otherwise it fails with a parse error on an unreadable path, or with a missing `ts` column when some readable file holds no records |
| LoaderAsWritten.LoadAsWritten | spotify_streamlit.py:13-25 | loading as written succeeds only on a nonempty path list, and then every loaded record lies within the bounds and has a track name |
| LoaderAsWritten.ReadAllAgrees | spotify_streamlit.py:15-19 | when no readable file is empty, reading as written equals the intended reading |
| LoaderAsWritten.AsWrittenAgreesOtherwise | spotify_streamlit.py:13-25 | on a nonempty path list whose readable files all hold records, the loader as written loads what the intended loader loads |

## Left out

- File discovery (spotify_streamlit.py:7-10) and the module-level driver (spotify_streamlit.py:74-78) are filesystem I/O and a one-off run. The path list and the parsed files are parameters.
- JSON parsing (`pd.read_json`, spotify_streamlit.py:16) and timestamp parsing (`pd.to_datetime`, spotify_streamlit.py:17-18) are library calls. Records arrive parsed, with their stream date given. A parse failure is modelled only as an unreadable path (`ParseError`).
- The model does not cover records that lack a column, or whose timestamp fails to parse to a date (`NaT`). Every `Record` has every field.
- `print`, `display` and the `head(5)` truncation (spotify_streamlit.py:41-44, 49-50, 56-57, 63-64, 70-71) are presentation. The tables are the full sorted tables, and `SummaryStats` returns what `get_summary_stats` prints.
- The matplotlib and plotly imports (spotify_streamlit.py:4-5) are unused charting.
- Floating-point rounding of seconds, minutes and their sums (spotify_streamlit.py:32-33, 37) is not modelled. Milliseconds are exact naturals and minutes exact reals.
- Tie order among equal metrics is left unspecified, because `sort_values` promises none. The model's own sort picks one order, and no contract mentions it.
- The order of groups before the sort (`groupby` sorts by key) and the dataframe index that `concat` and `reset_index` produce are not modelled. Only the sorted entries are.
- Stats.SummaryStats: its minutes contract is exact only when every row's minutes agree with its milliseconds. Every cleaned row satisfies this (`Cleaning.Clean`), but a `Row` built by hand need not.

## Findings

| source | as written | input that shows it | evidently intended | confidence | as-written member | corrected member |
|---|---|---|---|---|---|---|
| spotify_streamlit.py:14-24 | the frame starts as `pd.DataFrame()` with no columns; with no path the loop never runs, so the column lookup in the date filter, or else in the track-name filter, raises `KeyError` | `load_streaming_files([])` | an empty path list loads an empty record set | not executed | LoaderAsWritten.AsWrittenRejectsNoPaths | Loader.LoadNoPaths |
| spotify_streamlit.py:16-17 | a JSON file holding an empty array parses to a frame without a `ts` column, so `df_temp["ts"]` raises `KeyError` | `load_streaming_files(["Streaming_History_Audio_2025.json"])` where that file holds `[]` | a file with no records contributes no records | not executed | LoaderAsWritten.AsWrittenRejectsEmptyFile | Loader.LoadEmptyFiles |

# TVRename core: TVmaze metadata cache, seen-movies list, settings paths, numeric sorter

This project models four pieces of TVRename, the desktop tool that matches a
user's TV/movie files against remote catalog metadata, and proves properties of
the model in Dafny.

- **The TVmaze local cache** (`TVmaze.LocalCache`). It is a store from TVmaze id
  to series (`series`), plus the set of ids whose next load must be forced
  (`forceReloadOn`). Its operations are: insert-or-merge a downloaded series,
  insert dirty placeholders, forget one show or everything, tidy against the
  user's library, add episodes and banners, mark entries dirty from the remote
  "last updated" list (with cooperative cancellation), and `EnsureUpdated`. Each
  method's new state is tied to a rule function in `CacheRules`. The lemmas
  there state what each rule does: which keys it adds or drops, which entries it
  leaves alone, when `Dirty` ends up set, where the banner loop stops, and which
  specifier's placeholder wins.
- **The previously-seen movies list** (`Settings.PreviouslySeenMovies`). It is an
  ordered list of positive movie ids without duplicates. Building it from XML is
  proved to give exactly the distinct positive ids, in order of first occurrence.
- **The path manager** (`Paths.PathManager`). It covers the `ShowCollection`
  rule (the default name "2.1" is stored as ""), how the settings directory is
  chosen (a user-defined base path, or a directory under application data), and
  the argument checks on a user-defined base path.
- **The number-as-text sorter** (`Sorters`). It turns a list-view cell's text into
  an `int` key and compares two cells by key difference. The parser is proved to
  read back the decimal text of every `int`. The comparison as written overflows
  (see Findings).

Modules: `Wrappers` (Option/Outcome/Result), `TextHelpers` (the `HasValue` string
test), `SeriesData` (series, episodes, banners, specifiers, errors), `CacheRules`
(the store rules and their lemmas), `TVmaze` (the cache class), `Settings`,
`Paths`, `Sorters`.

Modelling choices:

- Remote calls become parameters:
  - `API.GetSeriesDetails` is a `SeriesDownload` value: a series, or the
    consistency exception it threw.
  - `API.GetShowUpdates` is a sequence of `ShowUpdate` rows.
  - A cancellation token is the index of the first update row before which
    cancellation is observed. Once requested, it stays requested.
- `SeriesInfo.Merge`, `AddEpisode` and `AddOrUpdateBanner` are not part of this
  model. They are the three arrow-typed fields of `EntryOps`, fixed when the
  cache is built, so every cache contract holds whatever they do.
- Exceptions become `Outcome`/`Result` values:
  - `SourceConsistencyException`, with the data of its message;
  - `ArgumentNullException` and `ArgumentException` in the path manager.
- The application-data folder is an input, and so are `File.Exists` and
  `Path.GetFullPath`.

Behaviour of the code worth noting:

- Cancellation. `GetUpdates` adds the placeholders for the requested shows
  before it first checks the token. A token that is already cancelled therefore
  still leaves those placeholders. An empty update list is never checked
  against the token, so the call then reports completion.
- `EnsureUpdated` returns `true` on every path that does not throw. It is never
  a failure flag.
- Nothing in this file clears the forced-reload set. `ForgetEverything` keeps it.
- `AddBanners` for an unknown series id only logs a warning and throws nothing.

## Model

| member | source | states |
|---|---|---|
| `TVmaze.LocalCache.constructor` | TVRename/Sources/TVMAZE/LocalCache.cs:32-34 | a new cache has an empty store and an empty forced-reload set |
| `TVmaze.LocalCache.HasSeries` | TVRename/Sources/TVMAZE/LocalCache.cs:238 | holds exactly when the id is a key of the store |
| `TVmaze.LocalCache.GetSeries` | TVRename/Sources/TVMAZE/LocalCache.cs:235-238 | the result is missing (null) exactly when the id is not cached, and is the cached entry otherwise |
| `TVmaze.LocalCache.DoWeForceReloadFor` | TVRename/Sources/TVMAZE/LocalCache.cs:92-95 | holds iff the id is marked for forced reload or is not cached |
| `SeriesData.Placeholder` | TVRename/Sources/TVMAZE/LocalCache.cs:319-327 | a placeholder is dirty, named `name ?? ""`, carries both ids and the language, and has no episodes or banners |
| `CacheRules.MergedInto` | TVRename/Sources/TVMAZE/LocalCache.cs:130-144 | the key set gains only `si`'s code; an existing entry is merged with `si` and the key set is unchanged; a new key holds `si`; every other entry is unchanged |
| `TVmaze.LocalCache.AddSeriesToCache` | TVRename/Sources/TVMAZE/LocalCache.cs:130-144 | the new store is `MergedInto(old store, si)`; forced-reload set unchanged |
| `TVmaze.LocalCache.AddPlaceholderSeries` | TVRename/Sources/TVMAZE/LocalCache.cs:319-322 | overwrites `series[tvmaze]` with a placeholder without language; no other key changes |
| `TVmaze.LocalCache.AddPlaceholderSeriesWithLanguage` | TVRename/Sources/TVMAZE/LocalCache.cs:324-327 | overwrites `series[tvmaze]` with a placeholder with the language code; no other key changes |
| `TVmaze.LocalCache.AddPlaceholderFor` | TVRename/Sources/TVMAZE/LocalCache.cs:216-217 | overwrites the specifier's id with the placeholder built from the specifier's ids, name and language |
| `TVmaze.LocalCache.UpdateSeries` | TVRename/Sources/TVMAZE/LocalCache.cs:329-335 | stores `si` under its TVmaze code, replacing any entry; nothing else changes |
| `TVmaze.LocalCache.ForgetShow` | TVRename/Sources/TVMAZE/LocalCache.cs:276-285 | afterwards the id is not cached, every other entry is unchanged, and the forced-reload set is unchanged |
| `TVmaze.LocalCache.ForgetShowIds` | TVRename/Sources/TVMAZE/LocalCache.cs:287-317 | cached and `makePlaceholder`: re-inserted as a dirty placeholder with the old name (and the custom language only when asked), added to the forced-reload set, so a reload is forced; cached and not `makePlaceholder`: removed; not cached and positive: an empty-name placeholder, reload set unchanged; otherwise nothing changes |
| `TVmaze.LocalCache.ForgetEverything` | TVRename/Sources/TVMAZE/LocalCache.cs:265-274 | the store is empty afterwards; the forced-reload set is kept |
| `CacheRules.Tidied` | TVRename/Sources/TVMAZE/LocalCache.cs:247-259 | the kept keys are exactly the old keys that are some library show's TVmaze code, with their entries unchanged |
| `CacheRules.TidiedIdempotent` | TVRename/Sources/TVMAZE/LocalCache.cs:240-263 | tidying twice against one library equals tidying once |
| `TVmaze.LocalCache.Tidy` | TVRename/Sources/TVMAZE/LocalCache.cs:240-263 | the two loops (collect the unreferenced keys, forget each) leave exactly `Tidied(old store, library)`; forced-reload set unchanged |
| `TVmaze.LocalCache.AddOrUpdateEpisode` | TVRename/Sources/TVMAZE/LocalCache.cs:337-351 | an episode of an unknown series throws the consistency error with its ids and leaves the store unchanged; otherwise only `series[e.SeriesId]` changes, to that entry with the episode added |
| `CacheRules.ApplyBannersFrame` | TVRename/Sources/TVMAZE/LocalCache.cs:359-370 | the banner loop keeps the key set and changes no entry that none of the banners names |
| `CacheRules.ApplyBannersFailure` | TVRename/Sources/TVMAZE/LocalCache.cs:359-370 | the banner loop throws iff some banner's own series is not cached; it reports the first such banner, and the banners before it stay added |
| `TVmaze.LocalCache.AddBanners` | TVRename/Sources/TVMAZE/LocalCache.cs:353-379 | an unknown `seriesId` changes nothing; otherwise the store is the banner loop's result, and on normal completion `series[seriesId].BannersLoaded` is set |
| `CacheRules.AddMissingPlaceholdersKeys` | TVRename/Sources/TVMAZE/LocalCache.cs:149-152 | the placeholder pass adds exactly the requested ids and keeps every cached entry |
| `CacheRules.AddMissingPlaceholdersFirstWins` | TVRename/Sources/TVMAZE/LocalCache.cs:149-152 | an id that was not cached gets the placeholder of the first specifier naming it (a later duplicate is skipped, because `Where` is evaluated lazily) |
| `CacheRules.AddedPlaceholdersAreDirty` | TVRename/Sources/TVMAZE/LocalCache.cs:149-152 | every entry the placeholder pass adds is dirty |
| `CacheRules.MarkStaleSpec` | TVRename/Sources/TVMAZE/LocalCache.cs:158-179 | the marking pass keeps the keys, touches only `Dirty`, and an entry ends dirty iff it was dirty or its positive id has a row newer than its `SrvLastUpdated`; unknown ids are ignored |
| `CacheRules.MarkStaleMonotone` | TVRename/Sources/TVMAZE/LocalCache.cs:164-172 | marking never clears `Dirty` and never adds or drops a key |
| `CacheRules.MarkStaleIdempotent` | TVRename/Sources/TVMAZE/LocalCache.cs:158-179 | applying the same update rows again changes nothing |
| `CacheRules.UpdatePassEffect` | TVRename/Sources/TVMAZE/LocalCache.cs:146-185 | after both phases the keys are the old ones plus the requested ids, new entries are dirty, and an old entry changes only in `Dirty`, exactly as a row reports it newer |
| `TVmaze.RowsExamined` | TVRename/Sources/TVMAZE/LocalCache.cs:158-185 | the loop examines the rows before the first check that sees cancellation, and all rows when no check sees it |
| `TVmaze.LocalCache.GetUpdates` | TVRename/Sources/TVMAZE/LocalCache.cs:146-214 | placeholders are added first, even when cancellation is already requested; then the examined rows are applied by `MarkStale`; the result is false exactly when a check observed cancellation |
| `TVmaze.LocalCache.EnsureUpdated` | TVRename/Sources/TVMAZE/LocalCache.cs:97-128 | a specifier for another provider throws and changes nothing; otherwise the result is `true`, a consistency error leaves the store alone, and a download is merged after key -1 is dropped when -1 was requested and another code came back |
| `Settings.WithId` | TVRename/Settings/PreviouslySeenMovies.cs:27-33 | the old list is a prefix of the new one; the id is added iff positive and new; no duplicates and no non-positive ids are kept so |
| `Settings.WithIdIdempotent` | TVRename/Settings/PreviouslySeenMovies.cs:29-32 | adding an id twice equals adding it once |
| `Settings.CollectedSpec` | TVRename/Settings/PreviouslySeenMovies.cs:21-24 | folding `EnsureAdded` over the ids gives the distinct positive ids, each once, in order of first occurrence |
| `Settings.PreviouslySeenMovies.Empty` | TVRename/Settings/PreviouslySeenMovies.cs:10-12 | the default constructor gives the empty list |
| `Settings.PreviouslySeenMovies.FromXml` | TVRename/Settings/PreviouslySeenMovies.cs:14-25 | a null element gives the empty list; otherwise the loop leaves the fold of `EnsureAdded` over the ids |
| `Settings.PreviouslySeenMovies.EnsureAdded` | TVRename/Settings/PreviouslySeenMovies.cs:27-33 | the list becomes `WithId(old list, id)` and stays valid |
| `Settings.PreviouslySeenMovies.EnsureAddedMovie` | TVRename/Settings/PreviouslySeenMovies.cs:35 | adds the movie's code; a positive code is then included |
| `Settings.PreviouslySeenMovies.Includes` | TVRename/Settings/PreviouslySeenMovies.cs:37 | true only for a non-null movie with a positive listed code; on a valid list, iff the code is listed |
| `Paths.NormalisedCollection` | TVRename/TVRename/PathManager.cs:103-113 | "2.1" becomes ""; any other name is kept; the result is never "2.1" |
| `Paths.PathManager.constructor` | TVRename/TVRename/PathManager.cs:29-30 | no collection and no user-defined base path at start |
| `Paths.PathManager.ShowCollection` | TVRename/TVRename/PathManager.cs:99-102 | the getter returns the stored name |
| `Paths.PathManager.SetShowCollection` | TVRename/TVRename/PathManager.cs:103-113 | stores the normalised name, so the getter never returns "2.1" afterwards |
| `Paths.CombineJoins` | TVRename/TVRename/PathManager.cs:64 | a non-empty relative file name combined onto a non-empty base keeps the base as prefix and the name as suffix, with at most one `\` between |
| `Paths.CollectionInsideRoot` | TVRename/TVRename/PathManager.cs:57-75 | the collection's directory is the root directory combined with the collection name; with no collection, or a user-defined base, the two coincide |
| `Paths.AppDataLayout` | TVRename/TVRename/PathManager.cs:62 | under an application-data folder without a trailing separator, the root is `<appData>\TVRename\TVRename` and the default collection's directory ends in `\2.1` |
| `Paths.PathManager.GetFileInfo` | TVRename/TVRename/PathManager.cs:57-65 | the file is combined onto the user-defined base when it has a value; otherwise onto `AppData\TVRename\TVRename\<collection>`, with "2.1" when no collection is set |
| `Paths.PathManager.GetRootFileInfo` | TVRename/TVRename/PathManager.cs:67-75 | as `GetFileInfo`, but the last segment is "" (so no segment) when a collection is set |
| `Paths.CheckBasePath` | TVRename/TVRename/PathManager.cs:40-47 | a null or empty path is refused with `ArgumentNullException("path")`; otherwise a path naming an existing file is refused with `ArgumentException("path")`; anything else passes |
| `Paths.PathManager.SetUserDefinedBasePath` | TVRename/TVRename/PathManager.cs:38-55 | the base path is set, to the full path, only when the checks pass; a refused path changes nothing |
| `Sorters.Wrap32` | TVRename/Utility/Sorters/NumberAsTextSorter.cs:18 | unchecked `int` arithmetic: the result is in the `int` range, congruent to the input modulo 2^32, and equal to the input when that already is in range |
| `Sorters.ToInt32` | TVRename/Utility/Sorters/NumberAsTextSorter.cs:34-41 | a parsed value is always in the `int` range |
| `Sorters.ToInt32RoundTrip` | TVRename/Utility/Sorters/NumberAsTextSorter.cs:36 | the parser reads back the decimal text of every `int`, with any surrounding white space and any trailing NUL characters |
| `Sorters.ToInt32OutOfRange` | TVRename/Utility/Sorters/NumberAsTextSorter.cs:36 | the decimal text of a number outside the `int` range gives no value (the overflow exception, caught at lines 38-41) |
| `Sorters.ToInt32RejectsTrailingText` | TVRename/Utility/Sorters/NumberAsTextSorter.cs:36 | a number followed by a character that is not a digit, white space or NUL gives no value (the format exception, caught at lines 38-41) |
| `Sorters.ParseAsInt` | TVRename/Utility/Sorters/NumberAsTextSorter.cs:20-42 | missing or blank text gives -1; the specials label gives 0; otherwise the parsed number, or 0 when parsing fails |
| `Sorters.ParseAsIntOfNumber` | TVRename/Utility/Sorters/NumberAsTextSorter.cs:34-37 | a cell holding an `int`'s decimal text (other than the specials label) has that number as its key |
| `Sorters.CompareListViewItem` | TVRename/Utility/Sorters/NumberAsTextSorter.cs:18 | as written: the keys' difference in wrapping 32-bit arithmetic; equal cells compare as 0 |
| `Sorters.CompareWithoutOverflow` | TVRename/Utility/Sorters/NumberAsTextSorter.cs:18 | where the difference lies between `-int.MaxValue` and `int.MaxValue` inclusive (a difference of exactly `int.MinValue` is excluded, because its negation does not fit and antisymmetry fails there), the comparison is exactly `key(x) - key(y)` and `Compare(x, y) == -Compare(y, x)` |
| `Sorters.CompareOverflowCounterexample` | TVRename/Utility/Sorters/NumberAsTextSorter.cs:18 | the cells "2147483647" and "" each compare as less than the other, although the first has the larger key |
| `Sorters.CompareByKey` | TVRename/Utility/Sorters/NumberAsTextSorter.cs:18 | corrected comparison: negative, zero or positive exactly as the first key is below, equal to or above the second |
| `Sorters.CompareByKeyIsOrdering` | TVRename/Utility/Sorters/NumberAsTextSorter.cs:18 | the corrected comparison is antisymmetric and transitive |
| `Sorters.CompareAgreesWithoutOverflow` | TVRename/Utility/Sorters/NumberAsTextSorter.cs:18 | where no overflow occurs, the written and the corrected comparison agree in sign |

## Findings

| source | as written | input that shows it | evidently intended | confidence | as-written member | corrected member |
|---|---|---|---|---|---|---|
| TVRename/Utility/Sorters/NumberAsTextSorter.cs:18 | `ParseAsInt(x) - ParseAsInt(y)` in unchecked `int` arithmetic | cell texts "2147483647" and "" (keys 2147483647 and -1): each compares as less than the other | the sign of the key order, `ParseAsInt(x).CompareTo(ParseAsInt(y))` | low: only cells near the `int` limits are affected; not executed | `Sorters.CompareOverflowCounterexample` | `Sorters.CompareByKey` |

## Left out

- Concurrency in the cache is not modelled: `SERIES_LOCK`, the concurrent dictionaries and the lazily created singleton `Instance`. The model is one sequential store.
- Entry identity is not modelled. Series entries are values, so "merge into the existing object, which is kept" becomes "the key keeps the merged entry". Outside references to entries, and aliasing between them, are not captured.
- `SeriesInfo.Merge`, `AddEpisode`, `AddOrUpdateBanner` and the `SeriesInfo` constructors are not part of this model. The first three are abstract parameters. A placeholder's fields beyond name, ids, language and `Dirty` are taken as defaults. A null language in the four-argument constructor is treated as the three-argument constructor.
- Idempotence of a repeated `AddSeriesToCache` with the same series is not proved. It depends on `SeriesInfo.Merge`, which is not part of this model.
- Persistence is left out: `Setup`, `SaveCache`, the `CachePersistor` load and save, and the saves made by `Tidy` and `ForgetEverything` are file I/O. The store starts empty, and so does the forced-reload set. In the source, that set is only created by `Setup`.
- Status and logging glue is left out: `Say`, `SayNothing`, `CurrentDLTask`, `Logger`, `LastErrorMessage`, `LoadOk`.
- `int.Parse` on update-list keys is not modelled: the keys are given as ints. A malformed key, which would throw out of `GetUpdates`, is not modelled.
- The `Logger.Fatal` branch of `GetUpdates` (an entry that is cached but null) cannot occur in a sequential store, so it is not modelled.
- `EnsureUpdated` models only the consistency exception from the download. Other exceptions from the remote call propagate in the source and are not modelled. Its `bannersToo` argument is unused in the source.
- Members that are stubs or do nothing are left out: `GetSeries(string, bool)`, `PreferredLanguage`, `GetLanguageFromCode`, `Connect`, `UpdatesDoneOk`, `LatestUpdateTimeIs`; also the `CachedData` accessor and the unused `removeEpisodeIds` field.
- The commented-out re-download loop in `GetUpdates` is dead code and is not modelled.
- `PathManager`'s side effects are left out: `Directory.CreateDirectory`, `Environment.GetFolderPath` (the application-data folder is an input), `Path.GetFullPath` and `File.Exists` (both parameters), and the `GetPossible*History` directory listings.
- The named file properties of `PathManager` (`StatisticsFile`, `TVmazeFile`, `ShowCollectionFile` and the rest) are not modelled. Each is `GetFileInfo` of a constant file name.
- `Paths.Combine`'s exceptions for null arguments and invalid path characters are not modelled. The four-part `Path.Combine` is taken to be two-part `Combine` applied from the left.
- A null value given to the `ShowCollection` setter is not modelled: names are non-null strings.
- `TextHelpers.HasValue` assumes the string helper `HasValue` means "not null and not only white space". That helper is not part of this model.
- `Sorters.ToInt32` follows `Convert.ToInt32` (`NumberStyles.Integer`) with invariant-culture signs: leading and trailing white space, an optional sign, digits, then only NUL characters. Culture-specific sign symbols are not modelled.
- The sorter works on cell texts. The list-view item, its column index and the indexing error for a missing column are not modelled.
- `DoubleAsTextSorter` uses floating point and is left out.
- `PreviouslySeenMovies` takes the XML `Movie` values as ints. `XmlConvert.ToInt32` errors, and the list operations it inherits from `List<int>`, are not modelled.
- The context files are WinForms layout, file writers, JSON/HTTP helpers and scan code, and are not modelled.

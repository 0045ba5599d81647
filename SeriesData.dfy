/** The values the TVmaze cache stores and is handed: series, episodes,
    banners, the specifiers that name a show to load, library entries, and the
    cache's consistency errors. */
module SeriesData {
  import opened Wrappers

  /** An episode as the cache sees it: its own id and the TVmaze id of its series. */
  datatype Episode = Episode(episodeId: int, seriesId: int, name: string)

  /** A banner (artwork record) and the TVmaze id of the series it belongs to. */
  datatype Banner = Banner(bannerId: int, seriesId: int)

  /** One cached series. Only the fields the cache itself reads or writes are
      modelled; `episodes` and `banners` stand for the series' child collections. */
  datatype SeriesInfo = SeriesInfo(
    name: string,
    tvdbCode: int,
    tvMazeCode: int,
    customLanguageCode: Option<string>,
    dirty: bool,
    bannersLoaded: bool,
    srvLastUpdated: int,
    episodes: seq<Episode>,
    banners: seq<Banner>)

  /** The provider a specifier asks for; only TVmaze matters to this cache. */
  datatype ProviderType = TVmaze | OtherProvider

  /** A request to resolve one show. */
  datatype SeriesSpecifier = SeriesSpecifier(
    tvdbSeriesId: int,
    tvMazeSeriesId: int,
    name: Option<string>,
    customLanguageCode: Option<string>,
    provider: ProviderType)

  /** A show in the user's library; the cache only reads its TVmaze code. */
  datatype ShowItem = ShowItem(tvMazeCode: int)

  /** One row of the remote "last updated" list: a show id and its timestamp. */
  datatype ShowUpdate = ShowUpdate(showId: int, lastUpdated: int)

  /** `SourceConsistencyException`, with the data its message carries. */
  datatype SourceConsistencyError =
    | WrongProvider(seriesName: Option<string>)
    | EpisodeSeriesMissing(episodeId: int, seriesId: int)
    | BannerSeriesMissing(bannerId: int, requestedSeriesId: int, bannerSeriesId: int)
    | FetchInconsistent(message: string)

  /** The placeholder the cache inserts: `new SeriesInfo(name ?? "", tvdb, tvmaze[, lang]) { Dirty = true }`.
      A missing language stands for the three-argument constructor. */
  function Placeholder(name: Option<string>, tvdb: int, tvmaze: int, lang: Option<string>): (r: SeriesInfo)
    ensures r.dirty && !r.bannersLoaded
    ensures r.name == name.GetOr("") && r.tvdbCode == tvdb && r.tvMazeCode == tvmaze
    ensures r.customLanguageCode == lang
    ensures r.episodes == [] && r.banners == []
  {
    SeriesInfo(name.GetOr(""), tvdb, tvmaze, lang, true, false, 0, [], [])
  }

  /** The placeholder made from a specifier (`AddPlaceholderSeries(SeriesSpecifier)`). */
  function SpecifierPlaceholder(s: SeriesSpecifier): SeriesInfo {
    Placeholder(s.name, s.tvdbSeriesId, s.tvMazeSeriesId, s.customLanguageCode)
  }

  /** The per-entry operations of `SeriesInfo` that the cache delegates to:
      `existing.Merge(incoming, -1)`, `AddEpisode(e)` and `AddOrUpdateBanner(b)`. */
  datatype EntryOps = EntryOps(
    merge: (SeriesInfo, SeriesInfo) -> SeriesInfo,
    addEpisode: (SeriesInfo, Episode) -> SeriesInfo,
    addOrUpdateBanner: (SeriesInfo, Banner) -> SeriesInfo)
}

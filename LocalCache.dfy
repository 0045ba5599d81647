/** The TVmaze local cache: a store from TVmaze id to series, and the set of
    ids whose next load must be forced. One sequential object; the lock and the
    process-wide singleton instance are not modelled. */
module TVmaze {
  import opened Wrappers
  import opened SeriesData
  import opened CacheRules

  /** The result of asking the remote API for one series: the downloaded series,
      or the `SourceConsistencyException` the download threw. */
  datatype SeriesDownload = Downloaded(si: SeriesInfo) | Inconsistent(message: string)

  /** A cancellation token as the update loop sees it: `requestedAt` is the index
      of the first update row before which a cancellation is observed (a
      token, once cancelled, stays cancelled). */
  datatype CancellationToken = CancellationToken(requestedAt: Option<nat>) {
    /** `IsCancellationRequested` at the check made before update row `k`. */
    predicate IsCancellationRequested(k: nat) {
      requestedAt.Some? && requestedAt.value <= k
    }
  }

  /** How many update rows the loop examines before it returns. */
  function RowsExamined(cts: CancellationToken, n: nat): (r: nat)
    ensures r <= n
    ensures forall k :: 0 <= k < r ==> !cts.IsCancellationRequested(k)
    ensures r < n ==> cts.IsCancellationRequested(r)
  {
    if cts.requestedAt.Some? && cts.requestedAt.value < n then cts.requestedAt.value else n
  }

  class LocalCache {
    /** `SeriesInfo`'s own Merge, AddEpisode and AddOrUpdateBanner. */
    const ops: EntryOps
    var series: Store
    var forceReloadOn: set<int>

    constructor (ops: EntryOps)
      ensures this.ops == ops && series == map[] && forceReloadOn == {}
    {
      this.ops := ops;
      series := map[];
      forceReloadOn := {};
    }

    /** Whether `id` is cached: true exactly for the keys of the store. */
    predicate HasSeries(id: int): (r: bool)
      reads this
      ensures r <==> id in series.Keys
    {
      id in series
    }

    /** The cached entry for `id`, missing (null) exactly when it is not a key. */
    function GetSeries(id: int): (r: Option<SeriesInfo>)
      reads this
      ensures r.None? <==> !HasSeries(id)
      ensures r.Some? ==> r.value == series[id]
    {
      if HasSeries(id) then Some(series[id]) else None
    }

    /** A load of `code` must be forced when it is marked for a forced reload or
        is not cached at all. */
    function DoWeForceReloadFor(code: int): (r: bool)
      reads this
      ensures r <==> code in forceReloadOn || !HasSeries(code)
    {
      code in forceReloadOn || code !in series
    }

    /** Insert `si` under its TVmaze code, or merge it into the entry already there. */
    method AddSeriesToCache(si: SeriesInfo)
      modifies this
      ensures series == MergedInto(old(series), si, ops.merge)
      ensures forceReloadOn == old(forceReloadOn)
    {
      var id := si.tvMazeCode;
      if id in series {
        series := series[id := ops.merge(series[id], si)];
      } else {
        series := series[id := si];
      }
    }

    /** Overwrite `series[tvmaze]` with a dirty placeholder (three-argument constructor). */
    method AddPlaceholderSeries(tvdb: int, tvmaze: int, name: Option<string>)
      modifies this
      ensures series == old(series)[tvmaze := Placeholder(name, tvdb, tvmaze, None)]
      ensures forceReloadOn == old(forceReloadOn)
    {
      series := series[tvmaze := Placeholder(name, tvdb, tvmaze, None)];
    }

    /** Overwrite `series[tvmaze]` with a dirty placeholder carrying a language code. */
    method AddPlaceholderSeriesWithLanguage(tvdb: int, tvmaze: int, name: Option<string>, customLanguageCode: Option<string>)
      modifies this
      ensures series == old(series)[tvmaze := Placeholder(name, tvdb, tvmaze, customLanguageCode)]
      ensures forceReloadOn == old(forceReloadOn)
    {
      series := series[tvmaze := Placeholder(name, tvdb, tvmaze, customLanguageCode)];
    }

    /** The placeholder for a specifier: its ids, name and language. */
    method AddPlaceholderFor(ss: SeriesSpecifier)
      modifies this
      ensures series == old(series)[ss.tvMazeSeriesId := SpecifierPlaceholder(ss)]
      ensures forceReloadOn == old(forceReloadOn)
    {
      AddPlaceholderSeriesWithLanguage(ss.tvdbSeriesId, ss.tvMazeSeriesId, ss.name, ss.customLanguageCode);
    }

    /** Store `si` under its TVmaze code, replacing any entry there. */
    method UpdateSeries(si: SeriesInfo)
      modifies this
      ensures series == old(series)[si.tvMazeCode := si]
      ensures forceReloadOn == old(forceReloadOn)
    {
      series := series[si.tvMazeCode := si];
    }

    /** Drop the entry for `id`, if any. */
    method ForgetShow(id: int)
      modifies this
      ensures series == old(series) - {id}
      ensures !HasSeries(id)
      ensures forceReloadOn == old(forceReloadOn)
    {
      if id in series {
        series := series - {id};
      }
    }

    /** Forget `tvmaze`, optionally leaving a dirty placeholder with the old name
        and a forced-reload mark; an unknown positive id gets an empty-name
        placeholder instead. */
    method ForgetShowIds(tvdb: int, tvmaze: int, makePlaceholder: bool, useCustomLanguage: bool, langCode: Option<string>)
      modifies this
      ensures tvmaze in old(series) && makePlaceholder ==>
        && series == old(series)[tvmaze := Placeholder(Some(old(series)[tvmaze].name), tvdb, tvmaze,
                                                      if useCustomLanguage then langCode else None)]
        && forceReloadOn == old(forceReloadOn) + {tvmaze}
        && DoWeForceReloadFor(tvmaze)
      ensures tvmaze in old(series) && !makePlaceholder ==>
        series == old(series) - {tvmaze} && forceReloadOn == old(forceReloadOn)
      ensures tvmaze !in old(series) ==>
        && series == (if tvmaze > 0 then old(series)[tvmaze := Placeholder(Some(""), tvdb, tvmaze, None)] else old(series))
        && forceReloadOn == old(forceReloadOn)
    {
      if tvmaze in series {
        var oldSeries := series[tvmaze];
        series := series - {tvmaze};
        var name := oldSeries.name;
        if makePlaceholder {
          if useCustomLanguage {
            AddPlaceholderSeriesWithLanguage(tvdb, tvmaze, Some(name), langCode);
          } else {
            AddPlaceholderSeries(tvdb, tvmaze, Some(name));
          }
          forceReloadOn := forceReloadOn + {tvmaze};
        }
      } else {
        if tvmaze > 0 {
          AddPlaceholderSeries(tvdb, tvmaze, Some(""));
        }
      }
    }

    /** Clear the store (the forced-reload marks are kept). */
    method ForgetEverything()
      modifies this
      ensures series == map[]
      ensures forceReloadOn == old(forceReloadOn)
    {
      series := map[];
    }

    /** Remove every cached series that no show of the library refers to. */
    method Tidy(libraryValues: seq<ShowItem>)
      modifies this
      ensures series == Tidied(old(series), libraryValues)
      ensures forceReloadOn == old(forceReloadOn)
    {
      var removeList: seq<int> := [];
      var pending := series.Keys;
      while pending != {}
        invariant pending <= series.Keys
        invariant series == old(series) && forceReloadOn == old(forceReloadOn)
        invariant forall k :: k in removeList <==> k in series.Keys - pending && !InLibrary(libraryValues, k)
        decreases pending
      {
        assert (forall k :: k !in pending) ==> pending == {};
        var k :| k in pending;
        var found := InLibrary(libraryValues, k);
        if !found {
          removeList := removeList + [k];
        }
        pending := pending - {k};
      }
      var i := 0;
      while i < |removeList|
        invariant 0 <= i <= |removeList|
        invariant series == old(series) - (set j | 0 <= j < i :: removeList[j])
        invariant forceReloadOn == old(forceReloadOn)
      {
        ForgetShow(removeList[i]);
        i := i + 1;
      }
      assert series.Keys == Tidied(old(series), libraryValues).Keys;
    }

    /** Hand episode `e` to its series' entry; an unknown series throws and
        changes nothing. */
    method AddOrUpdateEpisode(e: Episode) returns (outcome: Outcome<SourceConsistencyError>)
      modifies this
      ensures e.seriesId !in old(series) ==>
        outcome == Fail(EpisodeSeriesMissing(e.episodeId, e.seriesId)) && series == old(series)
      ensures e.seriesId in old(series) ==>
        outcome == Pass && series == old(series)[e.seriesId := ops.addEpisode(old(series)[e.seriesId], e)]
      ensures forceReloadOn == old(forceReloadOn)
    {
      if e.seriesId !in series {
        return Fail(EpisodeSeriesMissing(e.episodeId, e.seriesId));
      }
      var ser := series[e.seriesId];
      series := series[e.seriesId := ops.addEpisode(ser, e)];
      outcome := Pass;
    }

    /** Add the banners of series `seriesId`, each to the entry its own series id
        names, then mark `seriesId`'s banners as loaded. An unknown `seriesId`
        changes nothing; a banner of an unknown series throws, keeping the banners
        already added. */
    method AddBanners(seriesId: int, seriesBanners: seq<Banner>) returns (outcome: Outcome<SourceConsistencyError>)
      modifies this
      ensures seriesId !in old(series) ==> outcome == Pass && series == old(series)
      ensures seriesId in old(series) ==>
        var run := ApplyBanners(old(series), seriesId, seriesBanners, ops.addOrUpdateBanner);
        && seriesId in run.store
        && (run.failure.Some? ==> outcome == Fail(run.failure.value) && series == run.store)
        && (run.failure.None? ==> outcome == Pass
                                  && series == run.store[seriesId := run.store[seriesId].(bannersLoaded := true)])
      ensures forceReloadOn == old(forceReloadOn)
    {
      if seriesId !in series {
        return Pass;
      }
      ApplyBannersFrame(series, seriesId, seriesBanners, ops.addOrUpdateBanner);
      var i := 0;
      while i < |seriesBanners|
        invariant 0 <= i <= |seriesBanners|
        invariant series.Keys == old(series).Keys
        invariant ApplyBanners(series, seriesId, seriesBanners[i..], ops.addOrUpdateBanner)
                  == ApplyBanners(old(series), seriesId, seriesBanners, ops.addOrUpdateBanner)
        invariant forceReloadOn == old(forceReloadOn)
      {
        var b := seriesBanners[i];
        assert seriesBanners[i..][0] == b && seriesBanners[i..][1..] == seriesBanners[i + 1..];
        if b.seriesId !in series {
          return Fail(BannerSeriesMissing(b.bannerId, seriesId, b.seriesId));
        }
        var ser := series[b.seriesId];
        series := series[b.seriesId := ops.addOrUpdateBanner(ser, b)];
        i := i + 1;
      }
      series := series[seriesId := series[seriesId].(bannersLoaded := true)];
      outcome := Pass;
    }

    /** Add a placeholder for every requested show not yet cached, then mark dirty
        every cached show the remote list reports newer, until a cancellation is
        observed; report whether the list was processed to the end. */
    method GetUpdates(cts: CancellationToken, ss: seq<SeriesSpecifier>, updateTimes: seq<ShowUpdate>)
      returns (completed: bool)
      modifies this
      ensures completed == (RowsExamined(cts, |updateTimes|) == |updateTimes|)
      ensures series == MarkStale(AddMissingPlaceholders(old(series), ss),
                                  updateTimes[..RowsExamined(cts, |updateTimes|)])
      ensures forceReloadOn == old(forceReloadOn)
    {
      var i := 0;
      while i < |ss|
        invariant 0 <= i <= |ss|
        invariant series == AddMissingPlaceholders(old(series), ss[..i])
        invariant forceReloadOn == old(forceReloadOn)
      {
        var downloadShow := ss[i];
        assert ss[..i + 1][..i] == ss[..i];
        if !HasSeries(downloadShow.tvMazeSeriesId) {
          AddPlaceholderFor(downloadShow);
        }
        i := i + 1;
      }
      assert ss[..|ss|] == ss;
      ghost var placed := series;
      var j := 0;
      while j < |updateTimes|
        invariant 0 <= j <= |updateTimes|
        invariant forall k :: 0 <= k < j ==> !cts.IsCancellationRequested(k)
        invariant series == MarkStale(placed, updateTimes[..j])
        invariant forceReloadOn == old(forceReloadOn)
      {
        if cts.IsCancellationRequested(j) {
          return false;
        }
        var showUpdateTime := updateTimes[j];
        assert updateTimes[..j + 1][..j] == updateTimes[..j];
        var showId := showUpdateTime.showId;
        if showId > 0 && HasSeries(showId) {
          var x := series[showId];
          if x.srvLastUpdated < showUpdateTime.lastUpdated {
            series := series[showId := x.(dirty := true)];
          }
        }
        j := j + 1;
      }
      completed := true;
    }

    /** Download `s` and add or merge it; a request for the unset id -1 that comes
        back under another code first drops the -1 entry. A specifier for another
        provider throws; a consistency error during the download is logged and
        still reported as success. */
    method EnsureUpdated(s: SeriesSpecifier, bannersToo: bool, download: SeriesDownload)
      returns (r: Result<bool, SourceConsistencyError>)
      modifies this
      ensures s.provider != TVmaze ==> r == Failure(WrongProvider(s.name)) && series == old(series)
      ensures s.provider == TVmaze ==> r == Success(true)
      ensures s.provider == TVmaze && download.Inconsistent? ==> series == old(series)
      ensures s.provider == TVmaze && download.Downloaded? ==>
        var d := download.si;
        var cleared := if d.tvMazeCode != s.tvMazeSeriesId && s.tvMazeSeriesId == -1
                       then old(series) - {-1} else old(series);
        series == MergedInto(cleared, d, ops.merge)
      ensures (s.provider == TVmaze && download.Downloaded? && s.tvMazeSeriesId == -1
               && download.si.tvMazeCode != -1) ==> -1 !in series
      ensures forceReloadOn == old(forceReloadOn)
    {
      if s.provider != TVmaze {
        return Failure(WrongProvider(s.name));
      }
      match download
      case Inconsistent(_) =>
        return Success(true);
      case Downloaded(downloadedSi) =>
        if downloadedSi.tvMazeCode != s.tvMazeSeriesId && s.tvMazeSeriesId == -1 {
          series := series - {-1};
        }
        AddSeriesToCache(downloadedSi);
        return Success(true);
    }
  }
}

/** The TVmaze cache's update rules as functions on the store (a map from
    TVmaze id to series), with the lemmas that say what each rule does.
    The cache class's methods are specified by these functions. */
module CacheRules {
  import opened Wrappers
  import opened SeriesData

  type Store = map<int, SeriesInfo>

  // ---------------------------------------------------------------------------
  // Insert or merge (AddSeriesToCache)

  /** The store after `AddSeriesToCache(si)`: a new key gets `si` itself, an
      existing key keeps its entry with `si` merged into it. */
  function MergedInto(m: Store, si: SeriesInfo, merge: (SeriesInfo, SeriesInfo) -> SeriesInfo): (r: Store)
    ensures r.Keys == m.Keys + {si.tvMazeCode}
    ensures si.tvMazeCode in m ==> r.Keys == m.Keys && r[si.tvMazeCode] == merge(m[si.tvMazeCode], si)
    ensures si.tvMazeCode !in m ==> r[si.tvMazeCode] == si
    ensures forall k :: k in m && k != si.tvMazeCode ==> r[k] == m[k]
  {
    var id := si.tvMazeCode;
    if id in m then m[id := merge(m[id], si)] else m[id := si]
  }

  // ---------------------------------------------------------------------------
  // Placeholders for requested shows (first phase of GetUpdates)

  /** The TVmaze ids the specifiers name. */
  function RequestedIds(ss: seq<SeriesSpecifier>): set<int> {
    set i | 0 <= i < |ss| :: ss[i].tvMazeSeriesId
  }

  /** The store after walking the specifiers in order and adding a placeholder
      for each one whose id is not (yet) a key. */
  function AddMissingPlaceholders(m: Store, ss: seq<SeriesSpecifier>): Store
    decreases |ss|
  {
    if ss == [] then m
    else
      var before := AddMissingPlaceholders(m, ss[..|ss| - 1]);
      var s := ss[|ss| - 1];
      if s.tvMazeSeriesId in before then before
      else before[s.tvMazeSeriesId := SpecifierPlaceholder(s)]
  }

  /** The ids requested by a non-empty list: those of its prefix and its last one. */
  lemma RequestedIdsSnoc(ss: seq<SeriesSpecifier>)
    requires ss != []
    ensures RequestedIds(ss) == RequestedIds(ss[..|ss| - 1]) + {ss[|ss| - 1].tvMazeSeriesId}
  {
    var n := |ss| - 1;
    var prefix := ss[..n];
    forall k | k in RequestedIds(ss) ensures k in RequestedIds(prefix) + {ss[n].tvMazeSeriesId} {
      var i :| 0 <= i < |ss| && ss[i].tvMazeSeriesId == k;
      if i < n { assert prefix[i] == ss[i]; }
    }
    forall k | k in RequestedIds(prefix) ensures k in RequestedIds(ss) {
      var i :| 0 <= i < |prefix| && prefix[i].tvMazeSeriesId == k;
      assert ss[i] == prefix[i];
    }
  }

  /** The placeholder pass adds exactly the requested ids and keeps every entry
      that was there. */
  lemma {:induction false} AddMissingPlaceholdersKeys(m: Store, ss: seq<SeriesSpecifier>)
    ensures AddMissingPlaceholders(m, ss).Keys == m.Keys + RequestedIds(ss)
    ensures forall k :: k in m ==> AddMissingPlaceholders(m, ss)[k] == m[k]
    decreases |ss|
  {
    if ss != [] {
      AddMissingPlaceholdersKeys(m, ss[..|ss| - 1]);
      RequestedIdsSnoc(ss);
    }
  }

  /** Each id the placeholder pass adds gets the placeholder of the FIRST
      specifier naming it. */
  lemma {:induction false} AddMissingPlaceholdersFirstWins(m: Store, ss: seq<SeriesSpecifier>, i: nat)
    requires i < |ss| && ss[i].tvMazeSeriesId !in m
    requires forall j :: 0 <= j < i ==> ss[j].tvMazeSeriesId != ss[i].tvMazeSeriesId
    ensures ss[i].tvMazeSeriesId in AddMissingPlaceholders(m, ss)
    ensures AddMissingPlaceholders(m, ss)[ss[i].tvMazeSeriesId] == SpecifierPlaceholder(ss[i])
    decreases |ss|
  {
    var n := |ss| - 1;
    var prefix := ss[..n];
    AddMissingPlaceholdersKeys(m, prefix);
    if i < n {
      assert prefix[i] == ss[i];
      assert forall j :: 0 <= j < i ==> prefix[j] == ss[j];
      AddMissingPlaceholdersFirstWins(m, prefix, i);
    } else {
      forall j | 0 <= j < |prefix| ensures prefix[j].tvMazeSeriesId != ss[n].tvMazeSeriesId {
        assert prefix[j] == ss[j];
      }
      assert ss[n].tvMazeSeriesId !in RequestedIds(prefix);
    }
  }

  /** Every entry the placeholder pass adds is dirty. */
  lemma AddedPlaceholdersAreDirty(m: Store, ss: seq<SeriesSpecifier>)
    ensures forall k :: k in AddMissingPlaceholders(m, ss) && k !in m ==> AddMissingPlaceholders(m, ss)[k].dirty
  {
    AddMissingPlaceholdersKeys(m, ss);
    var r := AddMissingPlaceholders(m, ss);
    forall k | k in r && k !in m ensures r[k].dirty {
      var i := FirstRequest(ss, k);
      AddMissingPlaceholdersFirstWins(m, ss, i);
    }
  }

  /** The index of the first specifier that names `k`. */
  function FirstRequest(ss: seq<SeriesSpecifier>, k: int): (i: nat)
    requires k in RequestedIds(ss)
    ensures i < |ss| && ss[i].tvMazeSeriesId == k
    ensures forall j :: 0 <= j < i ==> ss[j].tvMazeSeriesId != k
    decreases |ss|
  {
    if ss[0].tvMazeSeriesId == k then 0
    else
      assert k in RequestedIds(ss[1..]) by {
        var i :| 0 <= i < |ss| && ss[i].tvMazeSeriesId == k;
        assert ss[1..][i - 1] == ss[i];
      }
      1 + FirstRequest(ss[1..], k)
  }

  // ---------------------------------------------------------------------------
  // Dirty-marking from the remote update list (second phase of GetUpdates)

  /** One update row: a positive, known id whose recorded server time is older
      than the remote one becomes dirty; every other row changes nothing. */
  function MarkOne(m: Store, u: ShowUpdate): Store {
    if u.showId > 0 && u.showId in m && m[u.showId].srvLastUpdated < u.lastUpdated
    then m[u.showId := m[u.showId].(dirty := true)]
    else m
  }

  /** The store after the update rows are applied in order. */
  function MarkStale(m: Store, us: seq<ShowUpdate>): Store
    decreases |us|
  {
    if us == [] then m else MarkOne(MarkStale(m, us[..|us| - 1]), us[|us| - 1])
  }

  /** Whether some row reports the positive id `k` newer than `entry`'s time. */
  predicate ReportedNewer(k: int, entry: SeriesInfo, us: seq<ShowUpdate>) {
    k > 0 && exists i :: 0 <= i < |us| && us[i].showId == k && entry.srvLastUpdated < us[i].lastUpdated
  }

  /** The marking pass keeps the key set, touches only `dirty`, and leaves an
      entry dirty exactly when it already was or some row reports it newer. */
  lemma {:induction false} MarkStaleSpec(m: Store, us: seq<ShowUpdate>)
    ensures MarkStale(m, us).Keys == m.Keys
    ensures forall k :: k in m ==> MarkStale(m, us)[k] == m[k].(dirty := m[k].dirty || ReportedNewer(k, m[k], us))
    decreases |us|
  {
    if us != [] {
      var n := |us| - 1;
      var prefix := us[..n];
      MarkStaleSpec(m, prefix);
      forall k | k in m
        ensures MarkStale(m, us)[k] == m[k].(dirty := m[k].dirty || ReportedNewer(k, m[k], us))
      {
        if ReportedNewer(k, m[k], prefix) {
          var i :| 0 <= i < |prefix| && prefix[i].showId == k && m[k].srvLastUpdated < prefix[i].lastUpdated;
          assert us[i] == prefix[i];
        }
      }
    }
  }

  /** Marking never clears `dirty` and ignores ids that are not keys. */
  lemma MarkStaleMonotone(m: Store, us: seq<ShowUpdate>)
    ensures MarkStale(m, us).Keys == m.Keys
    ensures forall k :: k in m && m[k].dirty ==> MarkStale(m, us)[k].dirty
  {
    MarkStaleSpec(m, us);
  }

  /** Applying the same update rows a second time changes nothing. */
  lemma MarkStaleIdempotent(m: Store, us: seq<ShowUpdate>)
    ensures MarkStale(MarkStale(m, us), us) == MarkStale(m, us)
  {
    var once := MarkStale(m, us);
    MarkStaleSpec(m, us);
    MarkStaleSpec(once, us);
    forall k | k in once ensures MarkStale(once, us)[k] == once[k] {
      assert once[k].srvLastUpdated == m[k].srvLastUpdated;
      assert ReportedNewer(k, once[k], us) == ReportedNewer(k, m[k], us);
    }
  }

  /** The whole update pass: the requested ids are added as dirty placeholders,
      every entry that was cached keeps all but `dirty`, and such an entry ends
      dirty exactly when it was dirty or a row reports it newer. */
  lemma UpdatePassEffect(m: Store, ss: seq<SeriesSpecifier>, us: seq<ShowUpdate>)
    ensures MarkStale(AddMissingPlaceholders(m, ss), us).Keys == m.Keys + RequestedIds(ss)
    ensures forall k :: k in m ==>
              MarkStale(AddMissingPlaceholders(m, ss), us)[k] == m[k].(dirty := m[k].dirty || ReportedNewer(k, m[k], us))
    ensures forall k :: k in MarkStale(AddMissingPlaceholders(m, ss), us) && k !in m ==>
              MarkStale(AddMissingPlaceholders(m, ss), us)[k].dirty
  {
    var placed := AddMissingPlaceholders(m, ss);
    AddMissingPlaceholdersKeys(m, ss);
    AddedPlaceholdersAreDirty(m, ss);
    MarkStaleSpec(placed, us);
  }

  // ---------------------------------------------------------------------------
  // Banners (AddBanners)

  /** Where the banner loop stops: the store so far, and the error it threw, if any. */
  datatype BannerRun = BannerRun(store: Store, failure: Option<SourceConsistencyError>)

  /** The banner loop: each banner is handed to its own series' entry; the first
      banner whose series is not a key throws, keeping what was added before it. */
  function ApplyBanners(m: Store, seriesId: int, bs: seq<Banner>,
                        add: (SeriesInfo, Banner) -> SeriesInfo): BannerRun
    decreases |bs|
  {
    if bs == [] then BannerRun(m, None)
    else
      var b := bs[0];
      if b.seriesId !in m then BannerRun(m, Some(BannerSeriesMissing(b.bannerId, seriesId, b.seriesId)))
      else ApplyBanners(m[b.seriesId := add(m[b.seriesId], b)], seriesId, bs[1..], add)
  }

  /** The banner loop keeps the key set, and changes no entry that none of the
      banners names. */
  lemma {:induction false} ApplyBannersFrame(m: Store, seriesId: int, bs: seq<Banner>,
                                             add: (SeriesInfo, Banner) -> SeriesInfo)
    ensures ApplyBanners(m, seriesId, bs, add).store.Keys == m.Keys
    ensures forall k :: k in m && (forall j :: 0 <= j < |bs| ==> bs[j].seriesId != k)
                        ==> ApplyBanners(m, seriesId, bs, add).store[k] == m[k]
    decreases |bs|
  {
    if bs != [] && bs[0].seriesId in m {
      var m' := m[bs[0].seriesId := add(m[bs[0].seriesId], bs[0])];
      ApplyBannersFrame(m', seriesId, bs[1..], add);
      forall k | k in m && (forall j :: 0 <= j < |bs| ==> bs[j].seriesId != k)
        ensures ApplyBanners(m, seriesId, bs, add).store[k] == m[k]
      {
        assert bs[0].seriesId != k;
        assert forall j :: 0 <= j < |bs[1..]| ==> bs[1..][j].seriesId != k by {
          forall j | 0 <= j < |bs[1..]| ensures bs[1..][j].seriesId != k { assert bs[1..][j] == bs[j + 1]; }
        }
      }
    }
  }

  /** The banner loop fails exactly when some banner's series is not a key; it then
      reports the first such banner, and the store holds the banners before it. */
  lemma {:induction false} ApplyBannersFailure(m: Store, seriesId: int, bs: seq<Banner>,
                                               add: (SeriesInfo, Banner) -> SeriesInfo)
    ensures ApplyBanners(m, seriesId, bs, add).failure.None? <==> forall j :: 0 <= j < |bs| ==> bs[j].seriesId in m
    ensures forall i :: 0 <= i < |bs| && bs[i].seriesId !in m && (forall j :: 0 <= j < i ==> bs[j].seriesId in m)
                        ==> ApplyBanners(m, seriesId, bs, add)
                            == BannerRun(ApplyBanners(m, seriesId, bs[..i], add).store,
                                         Some(BannerSeriesMissing(bs[i].bannerId, seriesId, bs[i].seriesId)))
    decreases |bs|
  {
    if bs != [] && bs[0].seriesId in m {
      var m' := m[bs[0].seriesId := add(m[bs[0].seriesId], bs[0])];
      var rest := bs[1..];
      assert m'.Keys == m.Keys;
      ApplyBannersFailure(m', seriesId, rest, add);
      assert forall j :: 0 <= j < |rest| ==> rest[j] == bs[j + 1];
      forall i | 0 <= i < |bs| && bs[i].seriesId !in m && (forall j :: 0 <= j < i ==> bs[j].seriesId in m)
        ensures ApplyBanners(m, seriesId, bs, add)
                == BannerRun(ApplyBanners(m, seriesId, bs[..i], add).store,
                             Some(BannerSeriesMissing(bs[i].bannerId, seriesId, bs[i].seriesId)))
      {
        assert i > 0;
        assert bs[..i][0] == bs[0];
        assert bs[..i][1..] == rest[..i - 1];
        assert forall j :: 0 <= j < i - 1 ==> rest[j].seriesId in m';
      }
      if forall j :: 0 <= j < |rest| ==> rest[j].seriesId in m' {
        forall j | 0 <= j < |bs| ensures bs[j].seriesId in m {
          if j > 0 { assert rest[j - 1] == bs[j]; }
        }
      }
    }
  }

  // ---------------------------------------------------------------------------
  // Tidy

  /** The TVmaze codes of the library's shows. */
  function LibraryCodes(lib: seq<ShowItem>): set<int> {
    set i | 0 <= i < |lib| :: lib[i].tvMazeCode
  }

  /** Whether some library show has TVmaze code `k` (the `Any` test in `Tidy`). */
  predicate InLibrary(lib: seq<ShowItem>, k: int) {
    exists i :: 0 <= i < |lib| && lib[i].tvMazeCode == k
  }

  /** The store after `Tidy(lib)`: only the entries some library show refers to. */
  function Tidied(m: Store, lib: seq<ShowItem>): (r: Store)
    ensures r.Keys == m.Keys * LibraryCodes(lib)
    ensures forall k :: k in r ==> r[k] == m[k]
  {
    map k | k in m && InLibrary(lib, k) :: m[k]
  }

  /** Tidying against the same library twice is the same as tidying once. */
  lemma TidiedIdempotent(m: Store, lib: seq<ShowItem>)
    ensures Tidied(Tidied(m, lib), lib) == Tidied(m, lib)
  {
  }
}

/** The list of movie ids the user has already been shown: ordered, without
    duplicates, positive ids only. */
module Settings {
  import opened Wrappers

  /** A configured movie; only its code matters here. */
  datatype MovieConfiguration = MovieConfiguration(code: int)

  predicate NoDuplicates(s: seq<int>) {
    forall i, j :: 0 <= i < j < |s| ==> s[i] != s[j]
  }

  predicate AllPositive(s: seq<int>) {
    forall i :: 0 <= i < |s| ==> s[i] > 0
  }

  /** The list after `EnsureAdded(id)`: `id` appended when positive and new. */
  function WithId(list: seq<int>, id: int): (r: seq<int>)
    ensures list <= r
    ensures forall x :: x in r <==> x in list || (x == id && id > 0)
    ensures NoDuplicates(list) && AllPositive(list) ==> NoDuplicates(r) && AllPositive(r)
  {
    if id !in list && id > 0 then list + [id] else list
  }

  /** Adding the same id twice is adding it once. */
  lemma WithIdIdempotent(list: seq<int>, id: int)
    ensures WithId(WithId(list, id), id) == WithId(list, id)
  {
  }

  /** The list built from the ids read from XML, one `EnsureAdded` per id, in order. */
  function Collected(ids: seq<int>): seq<int>
    decreases |ids|
  {
    if ids == [] then [] else WithId(Collected(ids[..|ids| - 1]), ids[|ids| - 1])
  }

  /** The index of the first occurrence of `x` in `s`. */
  function FirstIndex(s: seq<int>, x: int): (i: nat)
    requires x in s
    ensures i < |s| && s[i] == x
    ensures forall j :: 0 <= j < i ==> s[j] != x
  {
    if s[0] == x then 0 else 1 + FirstIndex(s[1..], x)
  }

  /** Moving to a longer sequence keeps the first index of an element already present. */
  lemma FirstIndexOfPrefix(s: seq<int>, n: nat, x: int)
    requires n <= |s| && x in s[..n]
    ensures x in s && FirstIndex(s, x) == FirstIndex(s[..n], x)
  {
    var i := FirstIndex(s[..n], x);
    assert s[i] == x;
    assert forall j :: 0 <= j < i ==> s[j] == s[..n][j];
  }

  /** The collected list is exactly the distinct positive ids of the input, in
      the order of their first occurrence. */
  lemma {:induction false} CollectedSpec(ids: seq<int>)
    ensures NoDuplicates(Collected(ids)) && AllPositive(Collected(ids))
    ensures forall x :: x in Collected(ids) <==> x in ids && x > 0
    ensures forall i, j :: 0 <= i < j < |Collected(ids)|
              ==> Collected(ids)[i] in ids && Collected(ids)[j] in ids
                  && FirstIndex(ids, Collected(ids)[i]) < FirstIndex(ids, Collected(ids)[j])
    decreases |ids|
  {
    if ids != [] {
      var n := |ids| - 1;
      var prefix := ids[..n];
      var last := ids[n];
      CollectedSpec(prefix);
      assert ids == prefix + [last];
      var before := Collected(prefix);
      var r := Collected(ids);
      forall i, j | 0 <= i < j < |r|
        ensures r[i] in ids && r[j] in ids && FirstIndex(ids, r[i]) < FirstIndex(ids, r[j])
      {
        assert r[i] == before[i];
        FirstIndexOfPrefix(ids, n, r[i]);
        if j < |before| {
          assert r[j] == before[j];
          FirstIndexOfPrefix(ids, n, r[j]);
        } else {
          assert r[j] == last && last !in prefix;
          assert FirstIndex(ids, last) == n;
        }
      }
    }
  }

  class PreviouslySeenMovies {
    var ids: seq<int>

    /** No duplicates and no id that is zero or negative. */
    predicate Valid()
      reads this
    {
      NoDuplicates(ids) && AllPositive(ids)
    }

    constructor Empty()
      ensures Valid() && ids == []
    {
      ids := [];
    }

    /** Read from the XML element's `Movie` descendants (given as their integer
        values, in document order); a null element gives the empty list. */
    constructor FromXml(xml: Option<seq<int>>)
      ensures Valid()
      ensures xml.None? ==> ids == []
      ensures xml.Some? ==> ids == Collected(xml.value)
    {
      ids := [];
      new;
      if xml.None? {
        return;
      }
      var movies := xml.value;
      var i := 0;
      while i < |movies|
        invariant 0 <= i <= |movies|
        invariant Valid() && ids == Collected(movies[..i])
      {
        assert movies[..i + 1][..i] == movies[..i];
        EnsureAdded(movies[i]);
        i := i + 1;
      }
      assert movies[..|movies|] == movies;
    }

    /** Append `epId` if it is positive and not yet listed. */
    method EnsureAdded(epId: int)
      requires Valid()
      modifies this
      ensures Valid() && ids == WithId(old(ids), epId)
    {
      if epId !in ids && epId > 0 {
        ids := ids + [epId];
      }
    }

    /** Record a movie as seen. */
    method EnsureAddedMovie(m: MovieConfiguration)
      requires Valid()
      modifies this
      ensures Valid() && ids == WithId(old(ids), m.code)
      ensures m.code > 0 ==> Includes(Some(m))
    {
      EnsureAdded(m.code);
    }

    /** Whether a (possibly null) movie has been seen: a positive code that is
        listed; on a valid list, simply a listed code. */
    function Includes(m: Option<MovieConfiguration>): (r: bool)
      reads this
      ensures r ==> m.Some? && m.value.code > 0 && m.value.code in ids
      ensures Valid() ==> (r <==> m.Some? && m.value.code in ids)
    {
      m.Some? && m.value.code > 0 && m.value.code in ids
    }
  }
}

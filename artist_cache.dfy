/**
 * The artist -> genres cache of `get_artist_genres`: a process-wide dictionary with one
 * "last refreshed" timestamp, cleared as a whole once that timestamp is older than the expiry.
 * The remote `artists` call is the parameter `fetch`; the clock is the parameter `now`.
 */
module ArtistCache {
  import opened Types

  type Cache = map<ArtistId, seq<Genre>>

  /** The expiry test: a refresh happened and it lies more than `expiry` seconds before `now`. */
  predicate Expired(lastUpdated: Option<int>, expiry: int, now: int)
  {
    lastUpdated.Some? && now - lastUpdated.value > expiry
  }

  /** The cache as it stands after the expiry test (cleared if expired). */
  function Live(entries: Cache, lastUpdated: Option<int>, expiry: int, now: int): Cache
  {
    if Expired(lastUpdated, expiry, now) then map[] else entries
  }

  /** The requested ids that miss the cache, in request order (duplicates kept). */
  function Uncached(ids: seq<ArtistId>, cache: Cache): (r: seq<ArtistId>)
    ensures |r| <= |ids|
    ensures forall a :: a in r <==> a in ids && a !in cache
    ensures r == [] <==> forall a :: a in ids ==> a in cache
  {
    if ids == [] then []
    else
      var rest := Uncached(ids[1..], cache);
      assert forall a :: a in ids <==> a == ids[0] || a in ids[1..];
      if ids[0] in cache then rest else [ids[0]] + rest
  }

  /** Every id under which some non-null record of `response` is stored. */
  function ReturnedIds(response: seq<Option<Artist>>): set<ArtistId>
  {
    set i | 0 <= i < |response| && response[i].Some? :: response[i].value.id
  }

  /** The cache after the loop that stores each non-null returned artist under its own id. */
  function StoreArtists(cache: Cache, response: seq<Option<Artist>>): (r: Cache)
    ensures r.Keys == cache.Keys + ReturnedIds(response)
    ensures forall a :: a in cache && a !in ReturnedIds(response) ==> r[a] == cache[a]
    decreases |response|
  {
    if response == [] then cache
    else
      var n := |response| - 1;
      var prev := StoreArtists(cache, response[..n]);
      assert ReturnedIds(response) == ReturnedIds(response[..n]) +
        (if response[n].Some? then {response[n].value.id} else {});
      match response[n]
      case None => prev
      case Some(artist) => prev[artist.id := GenresOf(artist)]
  }

  /** The returned mapping: each requested id with its cached genres, or no genres if uncached. */
  function Lookup(ids: seq<ArtistId>, cache: Cache): (r: map<ArtistId, seq<Genre>>)
    ensures r.Keys == set a | a in ids
    ensures forall a :: a in r ==> (a in cache ==> r[a] == cache[a]) && (a !in cache ==> r[a] == [])
  {
    map a | a in ids :: Get(cache, a)
  }

  /** What one call of `get_artist_genres` leaves behind and returns. */
  datatype Outcome = Outcome(
    entries: Cache,                 // the cache afterwards
    lastUpdated: Option<int>,       // the refresh timestamp afterwards
    genres: map<ArtistId, seq<Genre>>,  // the returned mapping
    sent: Option<seq<ArtistId>>)    // the ids passed to the remote call, None if no call was made

  /** One call of `get_artist_genres` on the state (`entries`, `lastUpdated`) at time `now`. */
  function GetArtistGenresSpec(entries: Cache, lastUpdated: Option<int>, expiry: int, now: int,
                               ids: seq<ArtistId>, fetch: seq<ArtistId> -> seq<Option<Artist>>): Outcome
  {
    var live := Live(entries, lastUpdated, expiry, now);
    var uncached := Uncached(ids, live);
    if uncached == [] then
      Outcome(live, lastUpdated, Lookup(ids, live), None)
    else
      var stored := StoreArtists(live, fetch(uncached));
      Outcome(stored, Some(now), Lookup(ids, stored), Some(uncached))
  }

  /** The global cache state of the script, as an object. */
  class ArtistGenreCache {
    var entries: Cache
    var lastUpdated: Option<int>
    const expiry: int

    /** The cache holds nothing until the first refresh has stamped `lastUpdated`. */
    ghost predicate Valid()
      reads this
    {
      lastUpdated.None? ==> entries == map[]
    }

    constructor (expiry: int)
      ensures Valid()
      ensures entries == map[] && lastUpdated == None && this.expiry == expiry
    {
      entries := map[];
      lastUpdated := None;
      this.expiry := expiry;
    }

    /** `get_artist_genres(sp, artist_ids)` at clock time `now`; `fetch` answers the remote call. */
    method GetArtistGenres(now: int, artistIds: seq<ArtistId>, fetch: seq<ArtistId> -> seq<Option<Artist>>)
      returns (genres: map<ArtistId, seq<Genre>>, sent: Option<seq<ArtistId>>)
      requires Valid()
      modifies this
      ensures Valid()
      ensures var o := GetArtistGenresSpec(old(entries), old(lastUpdated), expiry, now, artistIds, fetch);
              entries == o.entries && lastUpdated == o.lastUpdated && genres == o.genres && sent == o.sent
      ensures genres.Keys == set a | a in artistIds
      ensures sent.Some? <==> exists a :: a in artistIds && a !in Live(old(entries), old(lastUpdated), expiry, now)
    {
      if Expired(lastUpdated, expiry, now) {
        entries := map[];
      }
      ghost var live := entries;
      var uncached := Uncached(artistIds, entries);
      sent := None;
      if uncached != [] {
        var artistsData := fetch(uncached);
        sent := Some(uncached);
        var i := 0;
        while i < |artistsData|
          invariant 0 <= i <= |artistsData|
          invariant entries == StoreArtists(live, artistsData[..i])
        {
          assert artistsData[..i + 1][..i] == artistsData[..i];
          match artistsData[i] {
            case Some(artist) => entries := entries[artist.id := GenresOf(artist)];
            case None =>
          }
          i := i + 1;
        }
        assert artistsData[..i] == artistsData;
        lastUpdated := Some(now);
      } else {
        assert uncached == [] ==> forall a :: a in artistIds ==> a in live;
      }
      genres := map a | a in artistIds :: Get(entries, a);
    }
  }

  // ---------------------------------------------------------------------------------------------
  // Properties of one call

  /** A call keeps the cache empty as long as no refresh has happened (the class invariant). */
  lemma EmptyUntilFirstRefresh(entries: Cache, lastUpdated: Option<int>, expiry: int, now: int,
                               ids: seq<ArtistId>, fetch: seq<ArtistId> -> seq<Option<Artist>>)
    requires lastUpdated.None? ==> entries == map[]
    ensures var o := GetArtistGenresSpec(entries, lastUpdated, expiry, now, ids, fetch);
            o.lastUpdated.None? ==> o.entries == map[]
  {
  }

  /** The result has exactly the requested ids as keys, each with its cached list or `[]`. */
  lemma ResultCoversRequested(entries: Cache, lastUpdated: Option<int>, expiry: int, now: int,
                              ids: seq<ArtistId>, fetch: seq<ArtistId> -> seq<Option<Artist>>)
    ensures var o := GetArtistGenresSpec(entries, lastUpdated, expiry, now, ids, fetch);
            && o.genres.Keys == (set a | a in ids)
            && forall a :: a in ids ==> o.genres[a] == Get(o.entries, a)
  {
  }

  /** A requested id that was not cached and that no non-null returned record carries maps to `[]`. */
  lemma MissingArtistsMapToEmpty(entries: Cache, lastUpdated: Option<int>, expiry: int, now: int,
                                 ids: seq<ArtistId>, fetch: seq<ArtistId> -> seq<Option<Artist>>, a: ArtistId)
    requires a in ids
    requires a !in Live(entries, lastUpdated, expiry, now)
    requires a !in ReturnedIds(fetch(Uncached(ids, Live(entries, lastUpdated, expiry, now))))
    ensures var o := GetArtistGenresSpec(entries, lastUpdated, expiry, now, ids, fetch);
            o.sent.Some? && a !in o.entries && o.genres[a] == []
  {
  }

  /**
   * Only ids that miss the (possibly cleared) cache are sent, all of them are, no call is made
   * exactly when every requested id is cached, and the timestamp moves to `now` exactly on a call.
   */
  lemma OnlyUncachedAreFetched(entries: Cache, lastUpdated: Option<int>, expiry: int, now: int,
                               ids: seq<ArtistId>, fetch: seq<ArtistId> -> seq<Option<Artist>>)
    ensures var live := Live(entries, lastUpdated, expiry, now);
            var o := GetArtistGenresSpec(entries, lastUpdated, expiry, now, ids, fetch);
            && (o.sent.None? <==> forall a :: a in ids ==> a in live)
            && (o.sent.Some? ==> forall a :: a in o.sent.value <==> a in ids && a !in live)
            && o.lastUpdated == (if o.sent.Some? then Some(now) else lastUpdated)
  {
  }

  /** A non-null returned artist that no later record overrides is cached under its own id with its genres. */
  lemma {:induction false} StoredUnderOwnId(cache: Cache, response: seq<Option<Artist>>, i: int)
    requires 0 <= i < |response| && response[i].Some?
    requires forall j :: i < j < |response| && response[j].Some? ==> response[j].value.id != response[i].value.id
    ensures response[i].value.id in StoreArtists(cache, response)
    ensures StoreArtists(cache, response)[response[i].value.id] == GenresOf(response[i].value)
    decreases |response|
  {
    var n := |response| - 1;
    var id := response[i].value.id;
    var prefix := response[..n];
    var prev := StoreArtists(cache, prefix);
    assert StoreArtists(cache, response) == match response[n] { case None => prev case Some(artist) => prev[artist.id := GenresOf(artist)] };
    if i < n {
      assert prefix[i] == response[i];
      forall j | i < j < |prefix| && prefix[j].Some? ensures prefix[j].value.id != id {
        assert prefix[j] == response[j];
      }
      StoredUnderOwnId(cache, prefix, i);
      assert response[n].Some? ==> response[n].value.id != id;
    }
  }

  /** After a call, each fetched artist (last record per id) is cached and returned with its genres. */
  lemma FetchedArtistsAreCached(entries: Cache, lastUpdated: Option<int>, expiry: int, now: int,
                                ids: seq<ArtistId>, fetch: seq<ArtistId> -> seq<Option<Artist>>, i: int)
    requires var uncached := Uncached(ids, Live(entries, lastUpdated, expiry, now));
             var response := fetch(uncached);
             && uncached != []
             && 0 <= i < |response| && response[i].Some?
             && forall j :: i < j < |response| && response[j].Some? ==> response[j].value.id != response[i].value.id
    ensures var o := GetArtistGenresSpec(entries, lastUpdated, expiry, now, ids, fetch);
            var artist := fetch(o.sent.value)[i].value;
            && artist.id in o.entries && o.entries[artist.id] == GenresOf(artist)
            && (artist.id in ids ==> o.genres[artist.id] == GenresOf(artist))
  {
    var uncached := Uncached(ids, Live(entries, lastUpdated, expiry, now));
    StoredUnderOwnId(Live(entries, lastUpdated, expiry, now), fetch(uncached), i);
  }

  /**
   * Before expiry, every entry already cached keeps its genres unless the response itself carries
   * its id; in particular, when the remote returns only records for ids it was asked for, the
   * old cache survives unchanged inside the new one.
   */
  lemma CachedEntriesKept(entries: Cache, lastUpdated: Option<int>, expiry: int, now: int,
                          ids: seq<ArtistId>, fetch: seq<ArtistId> -> seq<Option<Artist>>)
    requires !Expired(lastUpdated, expiry, now)
    ensures var o := GetArtistGenresSpec(entries, lastUpdated, expiry, now, ids, fetch);
            && entries.Keys <= o.entries.Keys
            && (o.sent.None? ==> o.entries == entries)
            && (o.sent.Some? ==> forall a :: a in entries && a !in ReturnedIds(fetch(o.sent.value)) ==> o.entries[a] == entries[a])
            && (o.sent.Some? && ReturnedIds(fetch(o.sent.value)) <= (set a | a in o.sent.value) ==>
                  forall a :: a in entries ==> o.entries[a] == entries[a])
  {
  }

  /** `Uncached` against an empty cache keeps every requested id. */
  lemma {:induction false} UncachedOfEmpty(ids: seq<ArtistId>)
    ensures Uncached(ids, map[]) == ids
  {
    if ids != [] {
      UncachedOfEmpty(ids[1..]);
      assert ids == [ids[0]] + ids[1..];
    }
  }

  /**
   * Once the last refresh is older than the expiry, the whole old cache is dropped: every requested
   * id is re-fetched (even ids seen before) and the new cache holds only what the response returned.
   */
  lemma ExpiredCacheIsRefetched(entries: Cache, lastUpdated: Option<int>, expiry: int, now: int,
                                ids: seq<ArtistId>, fetch: seq<ArtistId> -> seq<Option<Artist>>)
    requires Expired(lastUpdated, expiry, now)
    ensures var o := GetArtistGenresSpec(entries, lastUpdated, expiry, now, ids, fetch);
            && o.sent == (if ids == [] then None else Some(ids))
            && o.entries.Keys == (if ids == [] then {} else ReturnedIds(fetch(ids)))
  {
    UncachedOfEmpty(ids);
  }

  /** With every requested id cached and not expired, a call makes no remote request and changes nothing. */
  lemma WarmCacheMakesNoCall(entries: Cache, lastUpdated: Option<int>, expiry: int, now: int,
                             ids: seq<ArtistId>, fetch: seq<ArtistId> -> seq<Option<Artist>>)
    requires !Expired(lastUpdated, expiry, now)
    requires forall a :: a in ids ==> a in entries
    ensures var o := GetArtistGenresSpec(entries, lastUpdated, expiry, now, ids, fetch);
            && o.sent == None && o.entries == entries && o.lastUpdated == lastUpdated
            && forall a :: a in ids ==> o.genres[a] == entries[a]
  {
  }
}

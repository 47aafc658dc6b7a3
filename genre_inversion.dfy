/**
 * The live part of `get_genres_for_tracks`: drop the tracks the service did not find, collect the
 * artists of the rest, build the track -> artists dictionary and invert it into genre -> tracks,
 * appending a track id once for every (artist, genre) pair of that track.
 */
module GenreInversion {
  import opened Types

  /** One item of the insertion-ordered dictionary `track_artist_map`. */
  type Entry = (TrackId, seq<ArtistId>)

  /** The tracks the service found, in response order: the non-null entries of `data`. */
  function ValidTracks(data: seq<Option<Track>>): (r: seq<Track>)
    ensures |r| == |data| - multiset(data)[None]
    ensures forall t :: t in r <==> Some(t) in data
  {
    if data == [] then []
    else
      assert data == [data[0]] + data[1..];
      var rest := ValidTracks(data[1..]);
      if data[0].Some? then [data[0].value] + rest else rest
  }

  /** Each track is kept exactly as often as it occurs (non-null) in the response. */
  lemma {:induction false} ValidTracksCount(data: seq<Option<Track>>, t: Track)
    ensures multiset(ValidTracks(data))[t] == multiset(data)[Some(t)]
  {
    if data != [] {
      assert data == [data[0]] + data[1..];
      ValidTracksCount(data[1..], t);
    }
  }

  /**
   * Filtering keeps the response order: it distributes over concatenation, so with the one-element
   * cases of `ValidTracksSingle` it fixes the result completely.
   */
  lemma {:induction false} ValidTracksAppend(a: seq<Option<Track>>, b: seq<Option<Track>>)
    ensures ValidTracks(a + b) == ValidTracks(a) + ValidTracks(b)
  {
    if a == [] {
      assert a + b == b;
    } else {
      assert (a + b)[1..] == a[1..] + b;
      assert (a + b)[0] == a[0];
      ValidTracksAppend(a[1..], b);
    }
  }

  /** A found track is kept, a null entry is dropped. */
  lemma ValidTracksSingle(t: Track)
    ensures ValidTracks([Some(t)]) == [t]
    ensures ValidTracks([None]) == []
  {
    var found: seq<Option<Track>> := [Some(t)];
    var missing: seq<Option<Track>> := [None];
    assert found[1..] == [] && missing[1..] == [];
  }

  /** The artist ids referenced by `tracks`. */
  function ArtistsOf(tracks: seq<Track>): set<ArtistId>
  {
    set t, a | t in tracks && a in t.artists :: a
  }

  /** The keys of an ordered dictionary. */
  function KeysOf(entries: seq<Entry>): set<TrackId>
  {
    set i | 0 <= i < |entries| :: entries[i].0
  }

  ghost predicate DistinctKeys(entries: seq<Entry>)
  {
    forall i, j :: 0 <= i < j < |entries| ==> entries[i].0 != entries[j].0
  }

  /** The position of key `k` in an ordered dictionary, -1 when absent. */
  function IndexOf(entries: seq<Entry>, k: TrackId): (i: int)
    ensures -1 <= i < |entries|
    ensures 0 <= i ==> entries[i].0 == k && forall j :: 0 <= j < i ==> entries[j].0 != k
    ensures i < 0 <==> k !in KeysOf(entries)
    decreases |entries|
  {
    KeysOfCons(entries, k);
    if entries == [] then -1
    else if entries[0].0 == k then 0
    else
      var j := IndexOf(entries[1..], k);
      if j < 0 then -1 else j + 1
  }

  /**
   * `d[k] = v` on an insertion-ordered dictionary: an existing key keeps its position and takes
   * the new value, a new key goes to the end.
   */
  function Upsert(entries: seq<Entry>, k: TrackId, v: seq<ArtistId>): (r: seq<Entry>)
    ensures |r| == if k in KeysOf(entries) then |entries| else |entries| + 1
    ensures forall i :: 0 <= i < |entries| ==> r[i].0 == entries[i].0
    ensures KeysOf(r) == KeysOf(entries) + {k}
    ensures forall i :: 0 <= i < |r| && r[i].0 != k ==> i < |entries| && r[i] == entries[i]
    ensures DistinctKeys(entries) ==> DistinctKeys(r) && forall i :: 0 <= i < |r| && r[i].0 == k ==> r[i].1 == v
  {
    var i := IndexOf(entries, k);
    var r := if i < 0 then entries + [(k, v)] else entries[i := (k, v)];
    UpsertKeys(entries, k, v, i, r);
    r
  }

  lemma UpsertKeys(entries: seq<Entry>, k: TrackId, v: seq<ArtistId>, i: int, r: seq<Entry>)
    requires -1 <= i < |entries|
    requires 0 <= i ==> entries[i].0 == k
    requires i < 0 <==> k !in KeysOf(entries)
    requires r == if i < 0 then entries + [(k, v)] else entries[i := (k, v)]
    ensures KeysOf(r) == KeysOf(entries) + {k}
    ensures DistinctKeys(entries) ==> DistinctKeys(r)
  {
    forall x | x in KeysOf(r) ensures x in KeysOf(entries) + {k} {
      var j :| 0 <= j < |r| && r[j].0 == x;
      if j < |entries| && r[j] == entries[j] {
        assert x in KeysOf(entries);
      }
    }
    forall x | x in KeysOf(entries) + {k} ensures x in KeysOf(r) {
      if x == k {
        var j := if i < 0 then |entries| else i;
        assert r[j].0 == k;
      } else {
        var j :| 0 <= j < |entries| && entries[j].0 == x;
        assert r[j].0 == x;
      }
    }
    if DistinctKeys(entries) && i < 0 {
      forall a, b | 0 <= a < b < |r| ensures r[a].0 != r[b].0 {
        if b == |entries| {
          assert entries[a].0 in KeysOf(entries);
        }
      }
    }
  }

  /** The keys of a non-empty dictionary are its first key and the keys of the rest. */
  lemma KeysOfCons(entries: seq<Entry>, k: TrackId)
    ensures entries != [] ==> (k in KeysOf(entries) <==> entries[0].0 == k || k in KeysOf(entries[1..]))
  {
    if entries != [] {
      if k in KeysOf(entries) {
        var i :| 0 <= i < |entries| && entries[i].0 == k;
        if i > 0 { assert entries[1..][i - 1] == entries[i]; }
      }
      if k in KeysOf(entries[1..]) {
        var i :| 0 <= i < |entries[1..]| && entries[1..][i].0 == k;
        assert entries[i + 1].0 == k;
      }
    }
  }

  /** The insertion-ordered dictionary from each valid track id to its artist ids; a later track with the same id overwrites an earlier one. */
  function TrackArtistMap(tracks: seq<Track>): (r: seq<Entry>)
    ensures DistinctKeys(r)
    ensures KeysOf(r) == set t | t in tracks :: t.id
    decreases |tracks|
  {
    if tracks == [] then []
    else
      var n := |tracks| - 1;
      assert forall t :: t in tracks <==> t in tracks[..n] || t == tracks[n] by {
        assert tracks == tracks[..n] + [tracks[n]];
      }
      Upsert(TrackArtistMap(tracks[..n]), tracks[n].id, tracks[n].artists)
  }

  /** Appends `t` to the list of each genre in `genres`, in order (the innermost loop). */
  function AddGenres(m: GenreMap, t: TrackId, genres: seq<Genre>): GenreMap
    decreases |genres|
  {
    if genres == [] then m
    else
      var n := |genres| - 1;
      var prev := AddGenres(m, t, genres[..n]);
      prev[genres[n] := Get(prev, genres[n]) + [t]]
  }

  /** Appends `t` once per genre of each artist in `artists` (the two inner loops). */
  function AddArtists(m: GenreMap, t: TrackId, artists: seq<ArtistId>, artistGenres: map<ArtistId, seq<Genre>>): GenreMap
    decreases |artists|
  {
    if artists == [] then m
    else
      var n := |artists| - 1;
      AddGenres(AddArtists(m, t, artists[..n], artistGenres), t, Get(artistGenres, artists[n]))
  }

  /** The genre -> tracks dictionary built by the three nested loops over `entries`. */
  function Invert(entries: seq<Entry>, artistGenres: map<ArtistId, seq<Genre>>): GenreMap
    decreases |entries|
  {
    if entries == [] then map[]
    else
      var n := |entries| - 1;
      AddArtists(Invert(entries[..n], artistGenres), entries[n].0, entries[n].1, artistGenres)
  }

  // ---------------------------------------------------------------------------------------------
  // An independent description of the result: how often each genre is hit

  /** `t` repeated `k` times. */
  function Repeat(t: TrackId, k: nat): seq<TrackId>
  {
    seq(k, _ => t)
  }

  /** The number of (artist, genre) pairs with genre `g` among `artists`, counting repeated entries. */
  function ArtistHits(artists: seq<ArtistId>, artistGenres: map<ArtistId, seq<Genre>>, g: Genre): nat
    decreases |artists|
  {
    if artists == [] then 0
    else
      var n := |artists| - 1;
      ArtistHits(artists[..n], artistGenres, g) + multiset(Get(artistGenres, artists[n]))[g]
  }

  /** The list genre `g` should get: each track id, in dictionary order, once per hit on `g`. */
  function GenreList(entries: seq<Entry>, artistGenres: map<ArtistId, seq<Genre>>, g: Genre): seq<TrackId>
    decreases |entries|
  {
    if entries == [] then []
    else
      var n := |entries| - 1;
      GenreList(entries[..n], artistGenres, g) + Repeat(entries[n].0, ArtistHits(entries[n].1, artistGenres, g))
  }

  lemma RepeatAppend(t: TrackId, a: nat, b: nat)
    ensures Repeat(t, a) + Repeat(t, b) == Repeat(t, a + b)
  {
  }

  lemma {:induction false} RepeatCount(t: TrackId, k: nat, x: TrackId)
    ensures multiset(Repeat(t, k))[x] == if x == t then k else 0
  {
    if k > 0 {
      RepeatCount(t, k - 1, x);
      assert Repeat(t, k) == Repeat(t, k - 1) + [t];
    }
  }

  lemma {:induction false} AddGenresList(m: GenreMap, t: TrackId, genres: seq<Genre>, g: Genre)
    ensures Get(AddGenres(m, t, genres), g) == Get(m, g) + Repeat(t, multiset(genres)[g])
    ensures g in AddGenres(m, t, genres) <==> g in m || g in genres
    decreases |genres|
  {
    if genres != [] {
      var n := |genres| - 1;
      var prefix, last := genres[..n], genres[n];
      var prev := AddGenres(m, t, prefix);
      var k := multiset(prefix)[g];
      AddGenresList(m, t, prefix, g);
      CountSnoc(genres, g);
      assert AddGenres(m, t, genres) == prev[last := Get(prev, last) + [t]];
      if last == g {
        RepeatSnoc(t, k);
      }
    }
  }

  lemma RepeatSnoc(t: TrackId, k: nat)
    ensures Repeat(t, k) + [t] == Repeat(t, k + 1)
  {
  }

  lemma {:induction false} AddArtistsList(m: GenreMap, t: TrackId, artists: seq<ArtistId>,
                                          artistGenres: map<ArtistId, seq<Genre>>, g: Genre)
    ensures Get(AddArtists(m, t, artists, artistGenres), g) == Get(m, g) + Repeat(t, ArtistHits(artists, artistGenres, g))
    ensures g in AddArtists(m, t, artists, artistGenres) <==> g in m || ArtistHits(artists, artistGenres, g) > 0
    decreases |artists|
  {
    if artists != [] {
      var n := |artists| - 1;
      var genres := Get(artistGenres, artists[n]);
      var before := AddArtists(m, t, artists[..n], artistGenres);
      var hits := ArtistHits(artists[..n], artistGenres, g);
      var c := multiset(genres)[g];
      var r := AddArtists(m, t, artists, artistGenres);
      assert r == AddGenres(before, t, genres);
      assert ArtistHits(artists, artistGenres, g) == hits + c;
      AddArtistsList(m, t, artists[..n], artistGenres, g);
      AddGenresList(before, t, genres, g);
      var x, y, z := Get(m, g), Repeat(t, hits), Repeat(t, c);
      assert Get(r, g) == x + y + z;
      AppendAssoc(x, y, z);
      RepeatAppend(t, hits, c);
      assert g in r <==> g in m || hits > 0 || g in genres;
      assert g in genres <==> c > 0;
    }
  }

  /**
   * The inversion gives genre `g` exactly `GenreList`: the dictionary's track ids in order, each
   * once per (artist, genre) hit; and `g` is a key exactly when that list is non-empty.
   */
  lemma {:induction false} InvertIsGenreList(entries: seq<Entry>, artistGenres: map<ArtistId, seq<Genre>>, g: Genre)
    ensures Get(Invert(entries, artistGenres), g) == GenreList(entries, artistGenres, g)
    ensures g in Invert(entries, artistGenres) <==> |GenreList(entries, artistGenres, g)| > 0
    decreases |entries|
  {
    if entries != [] {
      var n := |entries| - 1;
      InvertIsGenreList(entries[..n], artistGenres, g);
      AddArtistsList(Invert(entries[..n], artistGenres), entries[n].0, entries[n].1, artistGenres, g);
    }
  }

  /** Every id in `GenreList` is a key of the dictionary: no fabricated track ids. */
  lemma {:induction false} GenreListIds(entries: seq<Entry>, artistGenres: map<ArtistId, seq<Genre>>, g: Genre)
    ensures forall t :: t in GenreList(entries, artistGenres, g) ==> t in KeysOf(entries)
    decreases |entries|
  {
    if entries != [] {
      var n := |entries| - 1;
      GenreListIds(entries[..n], artistGenres, g);
      assert KeysOf(entries[..n]) <= KeysOf(entries) by {
        forall x | x in KeysOf(entries[..n]) ensures x in KeysOf(entries) {
          var i :| 0 <= i < n && entries[..n][i].0 == x;
          assert entries[i].0 == x;
        }
      }
      assert entries[n].0 in KeysOf(entries);
    }
  }

  /** With distinct keys, the entry `(t, artists)` contributes all occurrences of `t` to `GenreList`. */
  lemma {:induction false} GenreListCount(entries: seq<Entry>, artistGenres: map<ArtistId, seq<Genre>>, g: Genre, k: int)
    requires DistinctKeys(entries) && 0 <= k < |entries|
    ensures multiset(GenreList(entries, artistGenres, g))[entries[k].0] == ArtistHits(entries[k].1, artistGenres, g)
    decreases |entries|
  {
    var n := |entries| - 1;
    var t := entries[k].0;
    var prefix := entries[..n];
    var lastHits := ArtistHits(entries[n].1, artistGenres, g);
    var before := GenreList(prefix, artistGenres, g);
    assert GenreList(entries, artistGenres, g) == before + Repeat(entries[n].0, lastHits);
    assert multiset(GenreList(entries, artistGenres, g))[t] == multiset(before)[t] + multiset(Repeat(entries[n].0, lastHits))[t];
    RepeatCount(entries[n].0, lastHits, t);
    if k < n {
      assert prefix[k] == entries[k];
      assert DistinctKeys(prefix) by {
        forall a, b | 0 <= a < b < |prefix| ensures prefix[a].0 != prefix[b].0 {
          assert prefix[a] == entries[a] && prefix[b] == entries[b];
        }
      }
      GenreListCount(prefix, artistGenres, g, k);
      assert entries[n].0 != t;
    } else {
      forall i | 0 <= i < n ensures prefix[i].0 != t {
        assert prefix[i] == entries[i];
      }
      GenreListIds(prefix, artistGenres, g);
      assert t !in KeysOf(prefix);
      assert t !in before;
      assert multiset(before)[t] == 0;
    }
  }

  /** Every entry of `entries` under key `id` holds `w`. */
  ghost predicate HoldsUnder(entries: seq<Entry>, id: TrackId, w: seq<ArtistId>)
  {
    forall k :: 0 <= k < |entries| && entries[k].0 == id ==> entries[k].1 == w
  }

  /** The dictionary holds, for a track id, the artists of the last valid track with that id. */
  lemma {:induction false} TrackArtistMapLastWins(tracks: seq<Track>, i: int)
    requires 0 <= i < |tracks|
    requires forall j :: i < j < |tracks| ==> tracks[j].id != tracks[i].id
    ensures HoldsUnder(TrackArtistMap(tracks), tracks[i].id, tracks[i].artists)
    decreases |tracks|
  {
    var n := |tracks| - 1;
    var prefix := tracks[..n];
    var id, w := tracks[i].id, tracks[i].artists;
    if i < n {
      assert prefix[i] == tracks[i];
      forall j | i < j < |prefix| ensures prefix[j].id != id {
        assert prefix[j] == tracks[j];
      }
      TrackArtistMapLastWins(prefix, i);
      EarlierTrackKept(tracks, id, w);
    } else {
      LastTrackWins(tracks);
    }
  }

  lemma LastTrackWins(tracks: seq<Track>)
    requires tracks != []
    ensures var n := |tracks| - 1; HoldsUnder(TrackArtistMap(tracks), tracks[n].id, tracks[n].artists)
  {
    var n := |tracks| - 1;
    TrackArtistMapSnoc(tracks);
    UpsertSameKey(TrackArtistMap(tracks[..n]), tracks[n].id, tracks[n].artists);
  }

  lemma EarlierTrackKept(tracks: seq<Track>, id: TrackId, w: seq<ArtistId>)
    requires tracks != [] && tracks[|tracks| - 1].id != id
    requires HoldsUnder(TrackArtistMap(tracks[..|tracks| - 1]), id, w)
    ensures HoldsUnder(TrackArtistMap(tracks), id, w)
  {
    var n := |tracks| - 1;
    TrackArtistMapSnoc(tracks);
    UpsertOtherKey(TrackArtistMap(tracks[..n]), tracks[n].id, tracks[n].artists, id, w);
  }

  lemma TrackArtistMapSnoc(tracks: seq<Track>)
    requires tracks != []
    ensures var n := |tracks| - 1;
            TrackArtistMap(tracks) == Upsert(TrackArtistMap(tracks[..n]), tracks[n].id, tracks[n].artists)
  {
  }

  lemma UpsertSameKey(entries: seq<Entry>, k: TrackId, v: seq<ArtistId>)
    requires DistinctKeys(entries)
    ensures HoldsUnder(Upsert(entries, k, v), k, v)
  {
  }

  /** Upserting one key leaves what the dictionary holds under every other key as it was. */
  lemma UpsertOtherKey(entries: seq<Entry>, k: TrackId, v: seq<ArtistId>, id: TrackId, w: seq<ArtistId>)
    requires id != k && HoldsUnder(entries, id, w)
    ensures HoldsUnder(Upsert(entries, k, v), id, w)
  {
  }

  /** The loop collecting the artist ids of the valid tracks into the set `artists`. */
  method CollectArtists(validTracks: seq<Track>) returns (artists: set<ArtistId>)
    ensures artists == ArtistsOf(validTracks)
  {
    artists := {};
    for i := 0 to |validTracks|
      invariant artists == ArtistsOf(validTracks[..i])
    {
      var track := validTracks[i];
      for j := 0 to |track.artists|
        invariant artists == ArtistsOf(validTracks[..i]) + set a | a in track.artists[..j]
      {
        assert track.artists[..j + 1] == track.artists[..j] + [track.artists[j]];
        artists := artists + {track.artists[j]};
      }
      assert track.artists[..|track.artists|] == track.artists;
      ArtistsOfSnoc(validTracks[..i], track);
      assert validTracks[..i + 1] == validTracks[..i] + [track];
    }
    assert validTracks[..|validTracks|] == validTracks;
  }

  lemma ArtistsOfSnoc(tracks: seq<Track>, track: Track)
    ensures ArtistsOf(tracks + [track]) == ArtistsOf(tracks) + set a | a in track.artists
  {
  }

  /** The three nested loops appending each track id to the lists of its artists' genres. */
  method InvertTracks(trackArtistMap: seq<Entry>, artistGenres: map<ArtistId, seq<Genre>>)
    returns (genreTracks: GenreMap)
    ensures genreTracks == Invert(trackArtistMap, artistGenres)
  {
    genreTracks := map[];
    for i := 0 to |trackArtistMap|
      invariant genreTracks == Invert(trackArtistMap[..i], artistGenres)
    {
      var (trackId, artistIds) := trackArtistMap[i];
      ghost var before := genreTracks;
      for j := 0 to |artistIds|
        invariant genreTracks == AddArtists(before, trackId, artistIds[..j], artistGenres)
      {
        var genres := Get(artistGenres, artistIds[j]);
        ghost var start := genreTracks;
        for k := 0 to |genres|
          invariant genreTracks == AddGenres(start, trackId, genres[..k])
        {
          var genre := genres[k];
          assert genres[..k + 1][..k] == genres[..k];
          genreTracks := genreTracks[genre := Get(genreTracks, genre) + [trackId]];
        }
        assert genres[..|genres|] == genres;
        assert artistIds[..j + 1][..j] == artistIds[..j];
      }
      assert artistIds[..|artistIds|] == artistIds;
      assert trackArtistMap[..i + 1][..i] == trackArtistMap[..i];
    }
    assert trackArtistMap[..|trackArtistMap|] == trackArtistMap;
  }

  /**
   * The live body of `get_genres_for_tracks` on the `tracks` response `tracksData` for the requested
   * `trackIds`, with `artistGenres` the artist -> genres mapping of `get_artist_genres`.
   * Returns the genre -> tracks dictionary, the not-found count that is reported, and the artist set.
   */
  method GenresForTracks(trackIds: seq<TrackId>, tracksData: seq<Option<Track>>,
                         artistGenres: map<ArtistId, seq<Genre>>)
    returns (genreTracks: GenreMap, notFound: int, artists: set<ArtistId>)
    ensures notFound == |trackIds| - |ValidTracks(tracksData)|
    ensures |tracksData| == |trackIds| ==> notFound == multiset(tracksData)[None]
    ensures artists == ArtistsOf(ValidTracks(tracksData))
    ensures genreTracks == Invert(TrackArtistMap(ValidTracks(tracksData)), artistGenres)
  {
    var validTracks := ValidTracks(tracksData);
    notFound := |trackIds| - |validTracks|;
    artists := CollectArtists(validTracks);
    var trackArtistMap := TrackArtistMap(validTracks);
    genreTracks := InvertTracks(trackArtistMap, artistGenres);
  }

  /**
   * In a batch result, a valid track (the last one with its id) appears in genre `g`'s list exactly
   * as many times as there are (artist, genre) pairs of that track with genre `g`: the lists are
   * not de-duplicated.
   */
  lemma TrackCountPerGenre(tracksData: seq<Option<Track>>, artistGenres: map<ArtistId, seq<Genre>>, g: Genre, i: int)
    requires var valid := ValidTracks(tracksData);
             0 <= i < |valid| && forall j :: i < j < |valid| ==> valid[j].id != valid[i].id
    ensures var valid := ValidTracks(tracksData);
            var result := Invert(TrackArtistMap(valid), artistGenres);
            multiset(Get(result, g))[valid[i].id] == ArtistHits(valid[i].artists, artistGenres, g)
  {
    var valid := ValidTracks(tracksData);
    var entries := TrackArtistMap(valid);
    assert valid[i].id in KeysOf(entries);
    var k :| 0 <= k < |entries| && entries[k].0 == valid[i].id;
    TrackArtistMapLastWins(valid, i);
    GenreListCount(entries, artistGenres, g, k);
    InvertIsGenreList(entries, artistGenres, g);
  }

  /** Every id in any genre's list of a batch result is the id of a valid (non-null) returned track. */
  lemma InvertedIdsAreValidTracks(tracksData: seq<Option<Track>>, artistGenres: map<ArtistId, seq<Genre>>)
    ensures var valid := ValidTracks(tracksData);
            IdsWithin(Invert(TrackArtistMap(valid), artistGenres), set t | t in valid :: t.id)
  {
    var valid := ValidTracks(tracksData);
    var entries := TrackArtistMap(valid);
    forall g, t | g in Invert(entries, artistGenres) && t in Invert(entries, artistGenres)[g]
      ensures t in set t | t in valid :: t.id
    {
      InvertIsGenreList(entries, artistGenres, g);
      GenreListIds(entries, artistGenres, g);
    }
  }

  /** Some entry of the dictionary has an artist tagged with genre `g`. */
  ghost predicate HasHit(entries: seq<Entry>, artistGenres: map<ArtistId, seq<Genre>>, g: Genre)
  {
    exists k :: 0 <= k < |entries| && ArtistHits(entries[k].1, artistGenres, g) > 0
  }

  /** A genre is a key of a batch result exactly when some valid track has an artist tagged with it. */
  lemma GenreKeysAreHitGenres(tracksData: seq<Option<Track>>, artistGenres: map<ArtistId, seq<Genre>>, g: Genre)
    ensures var entries := TrackArtistMap(ValidTracks(tracksData));
            g in Invert(entries, artistGenres) <==> HasHit(entries, artistGenres, g)
  {
    var entries := TrackArtistMap(ValidTracks(tracksData));
    InvertIsGenreList(entries, artistGenres, g);
    GenreListNonEmpty(entries, artistGenres, g);
  }

  lemma {:induction false} GenreListNonEmpty(entries: seq<Entry>, artistGenres: map<ArtistId, seq<Genre>>, g: Genre)
    ensures |GenreList(entries, artistGenres, g)| > 0 <==> HasHit(entries, artistGenres, g)
    decreases |entries|
  {
    if entries != [] {
      var n := |entries| - 1;
      var prefix := entries[..n];
      GenreListNonEmpty(prefix, artistGenres, g);
      HasHitSnoc(entries, artistGenres, g);
    }
  }

  lemma HasHitSnoc(entries: seq<Entry>, artistGenres: map<ArtistId, seq<Genre>>, g: Genre)
    requires entries != []
    ensures var n := |entries| - 1;
            HasHit(entries, artistGenres, g) <==>
              HasHit(entries[..n], artistGenres, g) || ArtistHits(entries[n].1, artistGenres, g) > 0
  {
    var n := |entries| - 1;
    var prefix := entries[..n];
    if HasHit(prefix, artistGenres, g) {
      var k :| 0 <= k < |prefix| && ArtistHits(prefix[k].1, artistGenres, g) > 0;
      assert entries[k] == prefix[k];
    }
    if HasHit(entries, artistGenres, g) {
      var k :| 0 <= k < |entries| && ArtistHits(entries[k].1, artistGenres, g) > 0;
      if k < n {
        assert prefix[k] == entries[k];
      }
    }
  }

  lemma AddOneGenre(m: GenreMap, t: TrackId, g: Genre)
    ensures AddGenres(m, t, [g]) == m[g := Get(m, g) + [t]]
  {
    assert [g][..0] == [];
  }

  /** The tracks, the artist -> genres mapping and the dictionary of the two-track example below. */
  function ExampleTracks(): seq<Option<Track>>
  {
    [Some(Track("A", ["X"])), Some(Track("B", ["X", "Y"])), None]
  }

  function ExampleGenres(): map<ArtistId, seq<Genre>>
  {
    map["X" := ["rock"], "Y" := ["rock", "jazz"]]
  }

  lemma ExampleDictionary()
    ensures |ExampleTracks()| - |ValidTracks(ExampleTracks())| == 1
    ensures TrackArtistMap(ValidTracks(ExampleTracks())) == [("A", ["X"]), ("B", ["X", "Y"])]
  {
    var a, b := Track("A", ["X"]), Track("B", ["X", "Y"]);
    ExampleValidTracks();
    assert [a, b][..1] == [a];
    assert [a][..0] == [];
    assert "A" != "B" by { assert "A"[0] != "B"[0]; }
    TrackArtistMapSnoc([a]);
    TrackArtistMapSnoc([a, b]);
  }

  lemma ExampleValidTracks()
    ensures ValidTracks(ExampleTracks()) == [Track("A", ["X"]), Track("B", ["X", "Y"])]
  {
    var data := ExampleTracks();
    assert data[1..][1..][1..] == [];
  }

  lemma ExampleInversion()
    ensures Invert([("A", ["X"]), ("B", ["X", "Y"])], ExampleGenres()) == map["rock" := ["A", "B", "B"], "jazz" := ["B"]]
  {
    var artistGenres := ExampleGenres();
    var ea, eb: Entry := ("A", ["X"]), ("B", ["X", "Y"]);
    assert [ea, eb][..1] == [ea];
    var rock, jazz: Genre := "rock", "jazz";
    assert rock != jazz by { assert rock[0] != jazz[0]; }
    var afterA := map[rock := ["A"]];
    assert Invert([ea], artistGenres) == afterA by {
      assert ["X"][..0] == [];
      AddOneGenre(map[], "A", rock);
      assert [] + ["A"] == ["A"];
      assert AddArtists(map[], "A", ["X"], artistGenres) == AddGenres(map[], "A", [rock]);
    }
    var afterX := map[rock := ["A", "B"]];
    assert AddArtists(afterA, "B", ["X"], artistGenres) == afterX by {
      assert ["X"][..0] == [];
      AddOneGenre(afterA, "B", rock);
      assert Get(afterA, rock) + ["B"] == ["A", "B"];
    }
    var afterY := map[rock := ["A", "B", "B"], jazz := ["B"]];
    assert AddGenres(afterX, "B", [rock, jazz]) == afterY by {
      assert [rock, jazz][..1] == [rock];
      AddOneGenre(afterX, "B", rock);
      assert Get(afterX, rock) + ["B"] == ["A", "B", "B"];
      var mid := afterX[rock := ["A", "B", "B"]];
      assert AddGenres(afterX, "B", [rock]) == mid;
      assert Get(mid, jazz) == [];
      assert [] + ["B"] == ["B"];
    }
    assert ["X", "Y"][..1] == ["X"];
    assert AddArtists(afterA, "B", ["X", "Y"], artistGenres) == afterY;
  }

  /**
   * Two tracks share the genre "rock" through their artists; the second track's two artists are both
   * tagged "rock", so that track is listed twice under it, and the third (not found) track is counted.
   */
  lemma SharedGenreListedTwice()
    ensures var data := ExampleTracks();
            && |data| - |ValidTracks(data)| == 1
            && Invert(TrackArtistMap(ValidTracks(data)), ExampleGenres()) == map["rock" := ["A", "B", "B"], "jazz" := ["B"]]
  {
    ExampleDictionary();
    ExampleInversion();
  }

  // ---------------------------------------------------------------------------------------------
  // The body as written: the inner loop reads a name that is never defined

  /**
   * `get_genres_for_tracks` as written: the first (track, artist) pair of `track_artist_map`
   * evaluates the undefined `artist_genres`, so the call raises (None) whenever some entry has an
   * artist; otherwise the loops append nothing and the result is empty.
   */
  function GenresForTracksAsWritten(tracksData: seq<Option<Track>>): (r: Option<GenreMap>)
    ensures r == None || r == Some(map[])
  {
    var entries := TrackArtistMap(ValidTracks(tracksData));
    if exists k :: 0 <= k < |entries| && entries[k].1 != [] then None else Some(map[])
  }

  /**
   * As written, no batch ever yields a genre: a batch whose tracks have artists is lost, while the
   * corrected body, given the artist -> genres mapping, files the same batch under its genres.
   */
  lemma UndefinedNameDropsBatch()
    ensures forall data :: GenresForTracksAsWritten(data) == None || GenresForTracksAsWritten(data) == Some(map[])
    ensures GenresForTracksAsWritten(ExampleTracks()) == None
    ensures "rock" in Invert(TrackArtistMap(ValidTracks(ExampleTracks())), ExampleGenres())
  {
    SharedGenreListedTwice();
    var entries := TrackArtistMap(ValidTracks(ExampleTracks()));
    assert entries[0].1 != [];
  }
}

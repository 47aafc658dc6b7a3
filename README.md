# Spotify genre organizer: the batched genre-resolution core in Dafny

The script `spotify_genre_organizer.py` sorts a user's liked songs into one playlist per genre.
It fetches the liked track ids, cuts them into batches, and resolves each batch's tracks to their
artists' genres. An artist → genres cache with a coarse expiry sits in front of the remote artist
lookup. Each batch's genre → tracks dictionary is merged into one aggregate, and the aggregate
becomes playlists. This project models the sequential core of that pipeline and proves its
properties:

- `types.dfy` (module `Types`): ids, genres, the track and artist records, `GenreMap`.
- `artist_cache.dfy` (module `ArtistCache`): `get_artist_genres`. The global cache becomes the
  class `ArtistGenreCache` (fields `entries`, `lastUpdated`, `expiry`). The clock is the parameter
  `now`. The remote `sp.artists` call is the function parameter `fetch`, which maps the list of
  ids sent to the response (a sequence of `Option<Artist>`, with `None` for a JSON `null`). The
  pure function `GetArtistGenresSpec` describes one call; the method is proved equal to it.
- `genre_inversion.dfy` (module `GenreInversion`): the live part of `get_genres_for_tracks`. It
  drops `None` tracks, counts them, collects the artist set, builds the insertion-ordered
  `track_artist_map`, and inverts it into genre → tracks. The `sp.tracks` response is the
  parameter `tracksData`. The artist → genres mapping is the parameter `artistGenres`, which the
  comment at lines 88-89 says is the result of `get_artist_genres`.
- `batching.dfy` (module `Batching`): the tiered `calculate_batch_size`, the min/max formula that
  overwrites it, `total_batches`, and the slices `liked_tracks[i:i+batch_size]`.
- `pipeline.dfy` (module `Pipeline`): the batch loop of `main` and the per-genre merge
  `all_genres[genre].extend(ids)`. One batch resolution is the function parameter `resolve`,
  which returns `None` when `get_genres_for_tracks` raises; that batch is then skipped. The
  thread-pool variant merges in completion order, so the merge is modelled as a sequential fold
  and proved independent, per genre, of the order in which the results arrive (any permutation).
- `credentials.dfy` (module `Credentials`): `validate_credentials`.

The code does not de-duplicate a track within one genre's list. If two artists of a track both
carry a genre, the track is appended twice (lines 128-131): the lists are not de-duplicated per
genre, and the model follows the code (`GenreInversion.TrackCountPerGenre`,
`GenreInversion.SharedGenreListedTwice`). Likewise, the batch size used is the min/max formula,
which overwrites the tiered value (lines 264-270). For 5000 songs the tiered function gives 20,
but the size used is 50 (`Batching.TieredSizeIsOverwritten`).

The globals `artist_genre_cache`, `cache_last_updated` and `CACHE_EXPIRY` are read but never
defined in the file. The model starts from an empty cache and no timestamp, and takes the expiry
as a constructor argument. `if cache_last_updated and ...` tests a `datetime`, which is always
truthy, so the test is "a refresh has happened".

## Model

| member | source | states |
|---|---|---|
| `ArtistCache.Expired` | spotify_genre_organizer.py:75 | defines the expiry test: a refresh happened and lies more than the expiry before `now`; `ExpiredCacheIsRefetched` and `WarmCacheMakesNoCall` state its effect |
| `ArtistCache.Live` | spotify_genre_organizer.py:75-76 | defines the cache after the expiry test (cleared when expired, else unchanged); `UncachedOfEmpty` and `CachedEntriesKept` state its effect |
| `ArtistCache.Uncached` | spotify_genre_organizer.py:78 | the list sent holds exactly the requested ids missing from the cache (both directions), and is empty iff every requested id is cached |
| `ArtistCache.StoreArtists` | spotify_genre_organizer.py:81-83 | after the store loop the cache keys are the old keys plus the ids of non-null returned artists; entries not returned are unchanged |
| `ArtistCache.Lookup` | spotify_genre_organizer.py:86 | the returned mapping has exactly the requested ids as keys, each with its cached genres or `[]` when uncached |
| `ArtistCache.GetArtistGenresSpec` | spotify_genre_organizer.py:70-86 | defines one call (expiry test, uncached ids, remote call only if some, store, stamp, lookup); the lemmas below and the method's contract state its properties |
| `ArtistCache.ArtistGenreCache.constructor` | spotify_genre_organizer.py:72-76 | the cache starts empty, with no refresh timestamp and the given expiry |
| `ArtistCache.EmptyUntilFirstRefresh` | spotify_genre_organizer.py:75-84 | a call keeps the cache empty as long as no refresh has been stamped: the class invariant `Valid` that the constructor establishes and `GetArtistGenres` requires and keeps |
| `ArtistCache.ArtistGenreCache.GetArtistGenres` | spotify_genre_organizer.py:70-86 | the new cache, timestamp, result and remote request are those of `GetArtistGenresSpec`; the result's keys are exactly the requested ids; a remote call happens iff some requested id misses the (possibly cleared) cache |
| `ArtistCache.ResultCoversRequested` | spotify_genre_organizer.py:86 | the returned mapping has exactly the requested ids as keys, each mapped to its cached list or `[]` |
| `ArtistCache.MissingArtistsMapToEmpty` | spotify_genre_organizer.py:79-86 | an uncached requested id that no non-null returned artist carries is sent, stays uncached and maps to `[]` |
| `ArtistCache.OnlyUncachedAreFetched` | spotify_genre_organizer.py:78-84 | no call iff all requested ids are cached; the ids sent are exactly the uncached requested ids; the timestamp becomes `now` exactly when a call is made, else stays |
| `ArtistCache.StoredUnderOwnId` | spotify_genre_organizer.py:81-83 | a non-null returned artist that no later record with the same id overrides is stored under its own id with its genres (default `[]`) |
| `ArtistCache.FetchedArtistsAreCached` | spotify_genre_organizer.py:79-86 | after a call each fetched artist (last record per id) is in the cache with its genres, and is returned with them if requested |
| `ArtistCache.CachedEntriesKept` | spotify_genre_organizer.py:75-83 | before expiry no cached key is lost; cached entries whose id the response does not carry keep their genres; if the remote returns only ids it was asked for, the whole old cache survives |
| `ArtistCache.UncachedOfEmpty` | spotify_genre_organizer.py:76-78 | against a cleared cache every requested id is uncached |
| `ArtistCache.ExpiredCacheIsRefetched` | spotify_genre_organizer.py:75-84 | once the last refresh is older than the expiry, all requested ids are re-fetched, even ones seen before, and the new cache holds only what the response returned |
| `ArtistCache.WarmCacheMakesNoCall` | spotify_genre_organizer.py:75-86 | with every requested id cached and not expired, no remote call is made, the state is unchanged and the cached genres are returned |
| `GenreInversion.ValidTracks` | spotify_genre_organizer.py:103-104 | the kept tracks are exactly the tracks of the non-null entries, and their number is the response length minus the number of nulls |
| `GenreInversion.ValidTracksCount` | spotify_genre_organizer.py:104 | each track is kept exactly as many times as it occurs non-null in the response |
| `GenreInversion.ValidTracksAppend` | spotify_genre_organizer.py:104 | the filter keeps response order: filtering a concatenation concatenates the filtered parts |
| `GenreInversion.ValidTracksSingle` | spotify_genre_organizer.py:104 | a found track is kept and a null entry is dropped; with `ValidTracksAppend` this fixes the result entirely |
| `GenreInversion.Upsert` | spotify_genre_organizer.py:125 | assigning a key of an insertion-ordered dict keeps existing keys in their positions, adds a new key at the end, gives the key the new value and keeps keys distinct |
| `GenreInversion.TrackArtistMap` | spotify_genre_organizer.py:125 | `track_artist_map` has distinct keys, exactly the ids of the valid tracks |
| `GenreInversion.TrackArtistMapLastWins` | spotify_genre_organizer.py:125 | a track id maps to the artists of the last valid track with that id |
| `GenreInversion.CollectArtists` | spotify_genre_organizer.py:101-110 | the artist set is exactly the artist ids of the valid tracks |
| `GenreInversion.InvertTracks` | spotify_genre_organizer.py:126-131 | the nested loops build exactly the inversion `Invert` of `track_artist_map` |
| `GenreInversion.AddGenres` | spotify_genre_organizer.py:130-131 | defines the innermost loop over one artist's genres; `AddGenresList` states its effect |
| `GenreInversion.AddArtists` | spotify_genre_organizer.py:129-131 | defines the loop over one track's artists; `AddArtistsList` states its effect |
| `GenreInversion.Invert` | spotify_genre_organizer.py:126-131 | defines the three nested loops as a fold over `track_artist_map`; `InvertIsGenreList` states it against the per-genre reference `GenreList` |
| `GenreInversion.AddGenresList` | spotify_genre_organizer.py:130-131 | the innermost loop appends the track id to genre g once per occurrence of g in the artist's genre list, and creates only those genres as keys |
| `GenreInversion.AddArtistsList` | spotify_genre_organizer.py:129-131 | over a track's artists, genre g's list grows by the track id repeated once per (artist, g) pair |
| `GenreInversion.InvertIsGenreList` | spotify_genre_organizer.py:126-133 | each genre's list is, in dict order, every track id repeated once per (artist, genre) hit; a genre is a key iff that list is non-empty |
| `GenreInversion.GenreListIds` | spotify_genre_organizer.py:125-131 | every id in a genre's list is a key of `track_artist_map` |
| `GenreInversion.GenreListCount` | spotify_genre_organizer.py:125-131 | with distinct keys, a track id occurs in genre g's list as often as its artists' genre lists contain g |
| `GenreInversion.GenresForTracks` | spotify_genre_organizer.py:98-133 | the not-found count is the requested count minus the valid count (the number of nulls when the response matches the request); the artist set is that of the valid tracks; the result is the inversion of `track_artist_map` |
| `GenreInversion.TrackCountPerGenre` | spotify_genre_organizer.py:104-131 | a valid track appears in genre g's list exactly as many times as there are (artist, g) pairs among its artists: no de-duplication |
| `GenreInversion.InvertedIdsAreValidTracks` | spotify_genre_organizer.py:104-131 | every id in any genre's list of a batch result is the id of a non-null returned track |
| `GenreInversion.GenreKeysAreHitGenres` | spotify_genre_organizer.py:126-131 | a genre is a key of the batch result iff some entry of `track_artist_map` has an artist tagged with it |
| `GenreInversion.GenreListNonEmpty` | spotify_genre_organizer.py:126-131 | a genre's list is non-empty iff some entry has an artist tagged with that genre |
| `GenreInversion.SharedGenreListedTwice` | spotify_genre_organizer.py:98-133 | for tracks A:[X], B:[X,Y], one missing track, X→[rock], Y→[rock,jazz]: one track not found, result rock→[A,B,B], jazz→[B] |
| `GenreInversion.GenresForTracksAsWritten` | spotify_genre_organizer.py:125-133 | the body as written never yields a genre: it raises (`None`) as soon as some dictionary entry has an artist, otherwise returns the empty dictionary |
| `GenreInversion.UndefinedNameDropsBatch` | spotify_genre_organizer.py:128-131 | as written, no batch yields a genre; a batch with artists raises, while the corrected body files it under its genres |
| `Batching.CalculateBatchSize` | spotify_genre_organizer.py:254-261 | 20 above 3000 songs, 30 above 1000, otherwise 50 |
| `Batching.FormulaBatchSize` | spotify_genre_organizer.py:267-270 | the size used lies in [20, 50]; it is 50 iff fewer than 5100 songs, 20 iff at least 8000, and `100 - total // 100` in between |
| `Batching.TieredSizeIsOverwritten` | spotify_genre_organizer.py:254-270 | the tiered size never exceeds the size used, and equals it only for at most 1000 or at least 8000 songs |
| `Batching.TotalBatches` | spotify_genre_organizer.py:276 | `total_batches` is the fewest batches of at most `batch_size` tracks that hold all tracks (ceiling division); `ChunksCount` ties it to the number of slices |
| `Batching.Chunks` | spotify_genre_organizer.py:285-286 | defines the slices of `range(0, len, batch_size)`; `ChunksFlatten`, `ChunksSizes`, `ChunkIsSlice` state their properties |
| `Batching.ChunksFlatten` | spotify_genre_organizer.py:285-286 | the batches concatenated in order give back the liked-track list |
| `Batching.ChunksSizes` | spotify_genre_organizer.py:285-286 | every batch is non-empty and at most `batch_size` long; all but the last are exactly `batch_size` long |
| `Batching.ChunksCount` | spotify_genre_organizer.py:276 | the number of batches is `(n + batch_size - 1) // batch_size` |
| `Batching.ChunkIsSlice` | spotify_genre_organizer.py:285-286 | batch k is `liked_tracks[k*batch_size : k*batch_size + batch_size]`, clamped to the list end |
| `Pipeline.MergeMaps` | spotify_genre_organizer.py:293-294 | after merging, the genres are those of the aggregate and the batch; a batch genre's list is the old list (or empty) followed by the batch's; other genres keep their list |
| `Pipeline.MergeBatch` | spotify_genre_organizer.py:293-294 | each batch genre's new list is the old list (or empty) followed by the batch's list; other genres are unchanged |
| `Pipeline.MergeTotal` | spotify_genre_organizer.py:293-294 | the number of entries grows by exactly the batch's number |
| `Pipeline.ProcessLibrary` | spotify_genre_organizer.py:263-276 | the batch size is the formula's (in [20, 50]), not the tiered one; the number of batches is `total_batches`, the number of slices; the aggregate is the in-order merge of the successful batch results over the slices, skipping failed batches |
| `Pipeline.ResolveBatches` | spotify_genre_organizer.py:285-304 | the loop over `range(0, len, batch_size)` resolves the slices in order and leaves in `all_genres` the in-order merge of the successful results; a batch that raises contributes nothing |
| `Pipeline.FoldResults` | spotify_genre_organizer.py:285-304 | defines the aggregate after merging the results in order, skipping failed batches; `FoldContents`, `FoldIdsWithin`, `FoldTotal` state its properties |
| `Pipeline.FoldContents` | spotify_genre_organizer.py:285-304 | each genre's aggregate list holds exactly, with multiplicity, the entries the successful batches produced for it |
| `Pipeline.CompletionOrderIrrelevant` | spotify_genre_organizer.py:383-387 | the batch results merged in any completion order (any permutation of them) give every genre the same entries, as a multiset |
| `Pipeline.ContributedPerm` | spotify_genre_organizer.py:383-387 | what the results contribute to a genre, as a multiset, is the same for any permutation of the results |
| `Pipeline.FoldIdsWithin` | spotify_genre_organizer.py:285-304 | if every successful batch lists only ids of a set, so does the aggregate: no fabricated ids |
| `Pipeline.FoldTotal` | spotify_genre_organizer.py:285-304 | the aggregate's number of entries is the sum of the successful batches' numbers |
| `Pipeline.NothingResolvedNothingMerged` | spotify_genre_organizer.py:285-304 | when every batch fails or yields nothing, the aggregate stays empty |
| `Credentials.ValidateCredentials` | spotify_genre_organizer.py:392-396 | valid iff both credentials are set and 32 characters long; "missing" iff either is unset or empty; "invalid format" iff both are present but one is not 32 long |

## Left out

- OAuth and client construction (lines 33-67), the urllib3 and tenacity retry settings (lines 25-31, 44-49, 69) and the startup `.cache` deletion (lines 224-228): library configuration and file-system I/O.
- `ArtistCache.ArtistGenreCache.GetArtistGenres`: the `@retry` decorator re-runs the whole call after an exception; remote failures are not modelled, so neither is the re-run.
- All remote calls are inputs: `fetch` for `sp.artists`, `tracksData` for `sp.tracks`, `resolve` for a whole `get_genres_for_tracks` call, and the already-drained list for the paged `current_user_saved_tracks` / `sp.next`. Track and artist records keep only their ids, artist ids and genres.
- The `sp.artists` call at line 115: its result `artist_data` is only used by the unreachable code after the `return`.
- The clock is an integer number of seconds. `total_seconds()` is a float, and the two `datetime.now()` calls of one call read the same `now`.
- Wall-clock logic: the 300-second batch timeout (lines 117-119), the pacing delay and `time.sleep` (lines 296-300, 143). A timed-out batch is simply a `None` result of `resolve`.
- `ThreadPoolExecutor` / `as_completed` (lines 372-389): concurrency is not modelled. The merge is a sequential fold in completion order, and `Pipeline.CompletionOrderIrrelevant` shows that any order of the results (any permutation) gives every genre the same entries.
- `generate_report` (lines 146-184), `update_genre_playlists` (lines 186-220) and the playlist name from `genre.title()`: file writing, timestamp formatting, remote playlist calls and Unicode casing.
- The aggregate `GenreMap` is a map, so the insertion order of the genre keys of the `defaultdict(list)` (the order in which the report and `update_genre_playlists` visit genres) is not modelled; each genre's list keeps its order.
- Dead or broken code: the quadratic matching after the `return` (lines 134-140), `process_batch` (lines 324-366, which reads an undefined `track_ids`) and all progress `print`s.
- `Batching.Chunks`: the model requires a positive batch size. `range` with step 0 raises, and the only caller passes a size in [20, 50].

## Findings

| source | as written | input that shows it | evidently intended | confidence | as-written member | corrected member |
|---|---|---|---|---|---|---|
| spotify_genre_organizer.py:130 | the inversion loop reads `artist_genres`, a name never defined in `get_genres_for_tracks`. The first (track, artist) pair raises `NameError`, `main` skips the batch, and every batch whose tracks have artists is lost. | tracks A:[X], B:[X,Y] (any batch with an artist) | `artist_genres = get_artist_genres(sp, list(artists))`, as the comment at lines 88-89 says, then invert with that mapping | high; not executed | `GenreInversion.UndefinedNameDropsBatch` | `GenreInversion.GenresForTracks` |

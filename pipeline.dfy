/**
 * The batch loop of `main`: slice the liked tracks, resolve each batch, and extend
 * `all_genres[genre]` with each successful batch's lists. A batch whose resolution raises is
 * skipped. The same per-genre merge closes the thread-pool variant, in completion order.
 */
module Pipeline {
  import opened Types
  import opened Batching

  /** The aggregate after merging one batch result: every genre's list followed by the batch's list for it (missing lists are empty). */
  function MergeMaps(all: GenreMap, batch: GenreMap): (r: GenreMap)
    ensures r.Keys == all.Keys + batch.Keys
    ensures forall g :: g in batch ==> r[g] == Get(all, g) + batch[g]
    ensures forall g :: g in all && g !in batch ==> r[g] == all[g]
  {
    map g | g in all.Keys + batch.Keys :: Get(all, g) + Get(batch, g)
  }

  lemma MergeEmpty(all: GenreMap)
    ensures MergeMaps(all, map[]) == all
  {
    forall g | g in all ensures Get(all, g) + Get(map[], g) == all[g] {
      assert all[g] + [] == all[g];
    }
  }

  /** Merging a batch is merging its genre `g` first, then the rest of the batch. */
  lemma MergeSplit(all: GenreMap, batch: GenreMap, g: Genre)
    requires g in batch
    ensures MergeMaps(all, batch) == MergeMaps(all[g := Get(all, g) + batch[g]], batch - {g})
  {
    var all' := all[g := Get(all, g) + batch[g]];
    var rest := batch - {g};
    var lhs, rhs := MergeMaps(all, batch), MergeMaps(all', rest);
    assert lhs.Keys == rhs.Keys;
    forall h | h in lhs ensures lhs[h] == rhs[h] {
      if h == g {
        assert Get(rest, g) == [];
        assert rhs[h] == (Get(all, g) + batch[g]) + [];
      }
    }
  }

  /** The number of (genre, track id) entries of a genre map. */
  ghost function Total(m: GenreMap): nat
    decreases |m|
  {
    if m == map[] then 0
    else
      var g :| g in m;
      assert (m - {g}).Keys == m.Keys - {g};
      |m[g]| + Total(m - {g})
  }

  lemma {:induction false} TotalRemove(m: GenreMap, g: Genre)
    requires g in m
    ensures Total(m) == |m[g]| + Total(m - {g})
    decreases |m|
  {
    var k :| k in m && Total(m) == |m[k]| + Total(m - {k});
    if k != g {
      assert (m - {k}).Keys == m.Keys - {k};
      assert (m - {g}).Keys == m.Keys - {g};
      TotalRemove(m - {k}, g);
      TotalRemove(m - {g}, k);
      assert m - {k} - {g} == m - {g} - {k};
    }
  }

  /**
   * The merge takes each genre of the batch to the old list followed by the batch's list, keeps
   * every other genre, and grows the number of entries by exactly the batch's.
   */
  lemma {:induction false} MergeTotal(all: GenreMap, batch: GenreMap)
    ensures Total(MergeMaps(all, batch)) == Total(all) + Total(batch)
    decreases |batch|
  {
    if batch == map[] {
      MergeEmpty(all);
    } else {
      var g :| g in batch;
      var rest := batch - {g};
      assert |rest| < |batch| by { assert rest.Keys == batch.Keys - {g}; }
      var all' := all[g := Get(all, g) + batch[g]];
      MergeSplit(all, batch, g);
      MergeTotal(all', rest);
      TotalRemove(batch, g);
      TotalAppend(all, g, batch[g]);
    }
  }

  /** Extending one genre's list by `s` adds `|s|` entries. */
  lemma TotalAppend(m: GenreMap, g: Genre, s: seq<TrackId>)
    ensures Total(m[g := Get(m, g) + s]) == Total(m) + |s|
  {
    var m' := m[g := Get(m, g) + s];
    TotalRemove(m', g);
    if g in m {
      TotalRemove(m, g);
      assert m' - {g} == m - {g};
    } else {
      assert m' - {g} == m;
    }
  }

  /** The loop that extends `all_genres` with one batch result, in place. */
  method MergeBatch(allGenres: GenreMap, batchGenres: GenreMap) returns (merged: GenreMap)
    ensures merged == MergeMaps(allGenres, batchGenres)
    ensures forall g :: g in batchGenres ==> g in merged && merged[g] == Get(allGenres, g) + batchGenres[g]
    ensures forall g :: g !in batchGenres ==> (g in merged <==> g in allGenres) && Get(merged, g) == Get(allGenres, g)
  {
    merged := allGenres;
    var pending := batchGenres.Keys;
    assert batchGenres - pending == map[];
    MergeEmpty(allGenres);
    while pending != {}
      invariant pending <= batchGenres.Keys
      invariant merged == MergeMaps(allGenres, batchGenres - pending)
      decreases pending
    {
      var genre :| genre in pending;
      ghost var done := batchGenres - pending;
      merged := merged[genre := Get(merged, genre) + batchGenres[genre]];
      pending := pending - {genre};
      assert batchGenres - pending == done[genre := batchGenres[genre]];
    }
    assert batchGenres - pending == batchGenres;
  }

  /** The aggregate after merging, in order, every batch result that did not fail (`None`). */
  function FoldResults(all: GenreMap, results: seq<Option<GenreMap>>): GenreMap
    decreases |results|
  {
    if results == [] then all
    else
      var n := |results| - 1;
      var prev := FoldResults(all, results[..n]);
      match results[n]
      case Some(batch) => MergeMaps(prev, batch)
      case None => prev
  }

  /** The per-batch results, in batch order. */
  function Resolve(batches: seq<seq<TrackId>>, resolve: seq<TrackId> -> Option<GenreMap>): seq<Option<GenreMap>>
  {
    seq(|batches|, i requires 0 <= i < |batches| => resolve(batches[i]))
  }

  /**
   * The batch loop of `main`: the tiered size is computed and then overwritten by the formula,
   * `total_batches` is the ceiling division, and each slice `liked_tracks[i:i+batch_size]` goes to
   * `resolve` (one call of `get_genres_for_tracks`; `None` when it raises, and the batch is skipped).
   */
  method ProcessLibrary(likedTracks: seq<TrackId>, totalSongs: int, resolve: seq<TrackId> -> Option<GenreMap>)
    returns (allGenres: GenreMap, batchSize: int, totalBatches: int)
    ensures 20 <= batchSize <= 50 && batchSize == FormulaBatchSize(totalSongs)
    ensures totalBatches == |Chunks(likedTracks, batchSize)|
    ensures allGenres == FoldResults(map[], Resolve(Chunks(likedTracks, batchSize), resolve))
  {
    batchSize := CalculateBatchSize(totalSongs);
    batchSize := FormulaBatchSize(totalSongs);
    totalBatches := TotalBatches(|likedTracks|, batchSize);
    ChunksCount(likedTracks, batchSize);

    allGenres := ResolveBatches(likedTracks, batchSize, resolve);
  }

  /**
   * The `for i in range(0, len(liked_tracks), batch_size)` loop of `main`: each slice is resolved in
   * order and its result, when there is one, merged into `all_genres`.
   */
  method ResolveBatches(likedTracks: seq<TrackId>, batchSize: nat, resolve: seq<TrackId> -> Option<GenreMap>)
    returns (allGenres: GenreMap)
    requires batchSize > 0
    ensures allGenres == FoldResults(map[], Resolve(Chunks(likedTracks, batchSize), resolve))
  {
    allGenres := map[];
    var n := |likedTracks|;
    ghost var done: seq<seq<TrackId>> := [];
    var i := 0;
    assert likedTracks[0..] == likedTracks;
    while i < n
      invariant 0 <= i
      invariant Chunks(likedTracks, batchSize) == done + Chunks(likedTracks[Min(i, n)..], batchSize)
      invariant allGenres == FoldResults(map[], Resolve(done, resolve))
      decreases n - i
    {
      var batch := likedTracks[i..Min(i + batchSize, n)];
      ghost var rest := Chunks(likedTracks[Min(i + batchSize, n)..], batchSize);
      assert Chunks(likedTracks, batchSize) == (done + [batch]) + rest by {
        ChunksStep(likedTracks, batchSize, i);
        assert Min(i, n) == i;
        assert done + ([batch] + rest) == (done + [batch]) + rest;
      }
      var result := resolve(batch);
      match result {
        case Some(genres) => allGenres := MergeBatch(allGenres, genres);
        case None =>
      }
      FoldResolveStep(map[], done, batch, resolve);
      done := done + [batch];
      i := i + batchSize;
    }
    assert likedTracks[Min(i, n)..] == [];
    assert Chunks<TrackId>([], batchSize) == [];
    assert done == Chunks(likedTracks, batchSize);
  }

  /** Resolving one more batch folds its result in after the others. */
  lemma FoldResolveStep(all: GenreMap, done: seq<seq<TrackId>>, batch: seq<TrackId>,
                        resolve: seq<TrackId> -> Option<GenreMap>)
    ensures FoldResults(all, Resolve(done + [batch], resolve)) ==
            match resolve(batch)
            case Some(genres) => MergeMaps(FoldResults(all, Resolve(done, resolve)), genres)
            case None => FoldResults(all, Resolve(done, resolve))
  {
    var rs := Resolve(done + [batch], resolve);
    assert rs[..|done|] == Resolve(done, resolve);
    assert rs[|done|] == resolve(batch);
  }

  // ---------------------------------------------------------------------------------------------
  // Properties of the aggregate

  /** The entries contributed by the successful results to genre `g`, as a multiset. */
  ghost function Contributed(results: seq<Option<GenreMap>>, g: Genre): multiset<TrackId>
    decreases |results|
  {
    if results == [] then multiset{}
    else
      var n := |results| - 1;
      Contributed(results[..n], g) + Part(results[n], g)
  }

  /** What one batch result contributes to genre `g`. */
  ghost function Part(result: Option<GenreMap>, g: Genre): multiset<TrackId>
  {
    match result
    case Some(batch) => multiset(Get(batch, g))
    case None => multiset{}
  }

  /**
   * Each genre's aggregate list holds its initial entries plus, with multiplicity, every entry
   * that a successful batch produced for it; failed batches contribute nothing (union, not
   * intersection, across batches).
   */
  lemma {:induction false} FoldContents(all: GenreMap, results: seq<Option<GenreMap>>, g: Genre)
    ensures multiset(Get(FoldResults(all, results), g)) == multiset(Get(all, g)) + Contributed(results, g)
    decreases |results|
  {
    if results != [] {
      var n := |results| - 1;
      FoldContents(all, results[..n], g);
    }
  }

  lemma {:induction false} ContributedAppend(a: seq<Option<GenreMap>>, b: seq<Option<GenreMap>>, g: Genre)
    ensures Contributed(a + b, g) == Contributed(a, g) + Contributed(b, g)
    decreases |b|
  {
    if b == [] {
      assert a + b == a;
    } else {
      var n := |b| - 1;
      assert Contributed(a + b, g) == Contributed(a + b[..n], g) + Part(b[n], g) by {
        var ab := a + b;
        assert ab[..|ab| - 1] == a + b[..n];
        assert ab[|ab| - 1] == b[n];
      }
      ContributedAppend(a, b[..n], g);
      var ca, cb, p := Contributed(a, g), Contributed(b[..n], g), Part(b[n], g);
      assert Contributed(b, g) == cb + p;
      assert (ca + cb) + p == ca + (cb + p);
    }
  }

  /**
   * The batch results arriving in any completion order (any permutation of them) give every genre
   * the same entries (the same multiset); only their order differs.
   */
  lemma CompletionOrderIrrelevant(all: GenreMap, results: seq<Option<GenreMap>>,
                                  completed: seq<Option<GenreMap>>, g: Genre)
    requires multiset(results) == multiset(completed)
    ensures multiset(Get(FoldResults(all, results), g)) == multiset(Get(FoldResults(all, completed), g))
  {
    FoldContents(all, results, g);
    FoldContents(all, completed, g);
    ContributedPerm(results, completed, g);
  }

  /** What the results contribute to a genre does not depend on their order. */
  lemma {:induction false} ContributedPerm(rs: seq<Option<GenreMap>>, qs: seq<Option<GenreMap>>, g: Genre)
    requires multiset(rs) == multiset(qs)
    ensures Contributed(rs, g) == Contributed(qs, g)
    decreases |rs|
  {
    if rs == [] {
      assert qs == [] by { assert |qs| == |multiset(qs)|; }
    } else {
      var n := |rs| - 1;
      var x := rs[n];
      assert rs[..n] + rs[n + 1..] == rs[..n];
      assert x in multiset(qs);
      var j :| 0 <= j < |qs| && qs[j] == x;
      var front, back := qs[..j], qs[j + 1..];
      PermRemove(rs, n, qs, j);
      RemoveAt(qs, j);
      ContributedPerm(rs[..n], front + back, g);
      ContributedAppend(front, back, g);
      ContributedAppend(front + [x], back, g);
      ContributedAppend(front, [x], g);
      ContributedSingle(x, g);
    }
  }

  lemma ContributedSingle(x: Option<GenreMap>, g: Genre)
    ensures Contributed([x], g) == Part(x, g)
  {
    assert [x][..0] == [];
  }

  /** No fabricated ids: if every successful batch only lists ids of `ids`, so does the aggregate. */
  lemma {:induction false} FoldIdsWithin(all: GenreMap, results: seq<Option<GenreMap>>, ids: set<TrackId>)
    requires IdsWithin(all, ids)
    requires forall k :: 0 <= k < |results| && results[k].Some? ==> IdsWithin(results[k].value, ids)
    ensures IdsWithin(FoldResults(all, results), ids)
    decreases |results|
  {
    if results != [] {
      var n := |results| - 1;
      var prefix := results[..n];
      forall k | 0 <= k < |prefix| && prefix[k].Some? ensures IdsWithin(prefix[k].value, ids) {
        assert prefix[k] == results[k];
      }
      FoldIdsWithin(all, prefix, ids);
      var prev := FoldResults(all, prefix);
      if results[n].Some? {
        var merged := MergeMaps(prev, results[n].value);
        forall g, t | g in merged && t in merged[g] ensures t in ids {
          assert merged[g] == Get(prev, g) + Get(results[n].value, g);
        }
      }
    }
  }

  /** The aggregate's number of entries is the sum of the successful batches' numbers. */
  ghost function TotalOf(results: seq<Option<GenreMap>>): nat
    decreases |results|
  {
    if results == [] then 0
    else
      var n := |results| - 1;
      TotalOf(results[..n]) + match results[n] { case Some(batch) => Total(batch) case None => 0 }
  }

  lemma {:induction false} FoldTotal(all: GenreMap, results: seq<Option<GenreMap>>)
    ensures Total(FoldResults(all, results)) == Total(all) + TotalOf(results)
    decreases |results|
  {
    if results != [] {
      var n := |results| - 1;
      FoldTotal(all, results[..n]);
      if results[n].Some? {
        MergeTotal(FoldResults(all, results[..n]), results[n].value);
      }
    }
  }

  /** Batches that all fail or yield nothing leave the aggregate empty. */
  lemma {:induction false} NothingResolvedNothingMerged(results: seq<Option<GenreMap>>)
    requires forall k :: 0 <= k < |results| ==> results[k] == None || results[k] == Some(map[])
    ensures FoldResults(map[], results) == map[]
    decreases |results|
  {
    if results != [] {
      var n := |results| - 1;
      var prefix := results[..n];
      forall k | 0 <= k < |prefix| ensures prefix[k] == None || prefix[k] == Some(map[]) {
        assert prefix[k] == results[k];
      }
      NothingResolvedNothingMerged(prefix);
      MergeEmpty(map[]);
    }
  }
}

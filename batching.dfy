/**
 * How `main` sizes and slices the liked-track list: the tiered `calculate_batch_size`, the
 * min/max formula that overwrites it, the ceiling division for `total_batches`, and the slices
 * `liked_tracks[i:i+batch_size]` for `i` in `range(0, n, batch_size)`.
 */
module Batching {

  function Min(a: int, b: int): int { if a <= b then a else b }
  function Max(a: int, b: int): int { if a >= b then a else b }

  /** The service's maximum number of tracks per request. */
  const BaseSize := 50

  /** `calculate_batch_size(total_songs)`: smaller batches for larger libraries. */
  function CalculateBatchSize(totalSongs: int): (r: int)
    ensures totalSongs > 3000 ==> r == 20
    ensures 1000 < totalSongs <= 3000 ==> r == 30
    ensures totalSongs <= 1000 ==> r == BaseSize
  {
    if totalSongs > 3000 then Min(BaseSize, 20)
    else if totalSongs > 1000 then Min(BaseSize, 30)
    else Min(BaseSize, 50)
  }

  /**
   * `min(50, max(20, 100 - total_songs // 100))`, the batch size `main` actually uses.
   * Python's `//` floors; Dafny's `/` is Euclidean, which agrees with flooring for the divisor 100.
   */
  function FormulaBatchSize(totalSongs: int): (r: int)
    ensures 20 <= r <= BaseSize
    ensures r == BaseSize <==> totalSongs < 5100
    ensures r == 20 <==> totalSongs >= 8000
    ensures 5100 <= totalSongs < 8000 ==> r == 100 - totalSongs / 100
  {
    Min(BaseSize, Max(20, 100 - totalSongs / 100))
  }

  /** The size used never falls below the tiered one, and differs from it on libraries of 1001..7999 songs. */
  lemma TieredSizeIsOverwritten(totalSongs: int)
    ensures CalculateBatchSize(totalSongs) <= FormulaBatchSize(totalSongs)
    ensures CalculateBatchSize(totalSongs) == FormulaBatchSize(totalSongs) <==> totalSongs <= 1000 || totalSongs >= 8000
  {
  }

  /**
   * The number of batches announced for `n` tracks: `n` divided by `batchSize`, rounded up, that
   * is, the fewest batches of at most `batchSize` tracks that hold all `n`.
   */
  function TotalBatches(n: nat, batchSize: nat): (r: nat)
    requires batchSize > 0
    ensures n <= r * batchSize
    ensures r == 0 || (r - 1) * batchSize < n
  {
    var r := (n + batchSize - 1) / batchSize;
    assert n + batchSize - 1 == r * batchSize + (n + batchSize - 1) % batchSize;
    assert (r - 1) * batchSize == r * batchSize - batchSize;
    r
  }

  /** The slices of `s` of length `size`, the last one possibly shorter. */
  function Chunks<T>(s: seq<T>, size: nat): seq<seq<T>>
    requires size > 0
    decreases |s|
  {
    if s == [] then []
    else if |s| <= size then [s]
    else [s[..size]] + Chunks(s[size..], size)
  }

  function Flatten<T>(batches: seq<seq<T>>): seq<T>
  {
    if batches == [] then [] else batches[0] + Flatten(batches[1..])
  }

  lemma FlattenAppend<T>(a: seq<seq<T>>, b: seq<seq<T>>)
    ensures Flatten(a + b) == Flatten(a) + Flatten(b)
  {
    if a != [] {
      FlattenAppend(a[1..], b);
      assert (a + b)[1..] == a[1..] + b;
      assert (a + b)[0] == a[0];
      assert Flatten(a + b) == a[0] + (Flatten(a[1..]) + Flatten(b));
    } else {
      assert a + b == b;
    }
  }

  /** The batches, concatenated in order, give back the whole list. */
  lemma {:induction false} ChunksFlatten<T>(s: seq<T>, size: nat)
    requires size > 0
    ensures Flatten(Chunks(s, size)) == s
    decreases |s|
  {
    if s != [] && |s| > size {
      ChunksFlatten(s[size..], size);
      assert s[..size] + s[size..] == s;
    }
  }

  /** Every batch is non-empty and at most `size` long; all but the last are exactly `size` long. */
  lemma {:induction false} ChunksSizes<T>(s: seq<T>, size: nat)
    requires size > 0
    ensures var c := Chunks(s, size);
            && (forall i :: 0 <= i < |c| ==> 0 < |c[i]| <= size)
            && (forall i :: 0 <= i < |c| - 1 ==> |c[i]| == size)
    decreases |s|
  {
    if s != [] && |s| > size {
      ChunksSizes(s[size..], size);
      var c := Chunks(s, size);
      assert forall i :: 1 <= i < |c| ==> c[i] == Chunks(s[size..], size)[i - 1];
    }
  }

  /** The number of batches is `total_batches`. */
  lemma {:induction false} ChunksCount<T>(s: seq<T>, size: nat)
    requires size > 0
    ensures |Chunks(s, size)| == TotalBatches(|s|, size)
    decreases |s|
  {
    if s != [] {
      if |s| <= size {
        DivUnit(|s| + size - 1, size);
      } else {
        ChunksCount(s[size..], size);
        DivStep(|s| - size + size - 1, size);
      }
    }
  }

  lemma DivUnit(x: int, d: int)
    requires d <= x < 2 * d
    ensures x / d == 1
  {
  }

  lemma DivStep(x: int, d: int)
    requires d > 0
    ensures (x + d) / d == x / d + 1
  {
    var q := x / d;
    assert q * d <= x < q * d + d;
    assert (q + 1) * d == q * d + d;
    DivUnique(x + d, d, q + 1);
  }

  lemma DivUnique(a: int, d: int, q: int)
    requires d > 0 && q * d <= a < q * d + d
    ensures a / d == q
  {
    var q', r' := a / d, a % d;
    assert a == q' * d + r' && 0 <= r' < d;
    var k := q' - q;
    assert k * d == q' * d - q * d;
    assert -d < k * d < d;
  }

  /** Batch `k` is the slice `s[k * size : k * size + size]`, clamped to the end of the list. */
  lemma {:induction false} ChunkIsSlice<T>(s: seq<T>, size: nat, k: nat)
    requires size > 0 && k < |Chunks(s, size)|
    ensures k * size < |s|
    ensures Chunks(s, size)[k] == s[k * size .. Min(k * size + size, |s|)]
    decreases |s|
  {
    if k > 0 {
      var tail := s[size..];
      assert |s| > size;
      assert Chunks(s, size) == [s[..size]] + Chunks(tail, size);
      assert Chunks(s, size)[k] == Chunks(tail, size)[k - 1];
      ChunkIsSlice(tail, size, k - 1);
      var lo := (k - 1) * size;
      assert lo + size == k * size;
      assert tail[lo .. Min(lo + size, |tail|)] == s[k * size .. Min(k * size + size, |s|)];
    }
  }

  /** The batches of `s[i..]` are the slice `s[i:i+size]` followed by the batches of what remains. */
  lemma ChunksStep<T>(s: seq<T>, size: nat, i: nat)
    requires size > 0 && i < |s|
    ensures Chunks(s[i..], size) == [s[i..Min(i + size, |s|)]] + Chunks(s[Min(i + size, |s|)..], size)
  {
    var rest := s[i..];
    if |rest| > size {
      assert rest[..size] == s[i..i + size];
      assert rest[size..] == s[i + size..];
    } else {
      assert rest == s[i..Min(i + size, |s|)];
      assert s[Min(i + size, |s|)..] == [];
    }
  }
}

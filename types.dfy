/** Identifiers, records and helpers shared by every part of the genre organizer. */
module Types {

  /** Opaque identifiers and tags handed out by the music service. */
  type ArtistId = string
  type TrackId = string
  type Genre = string

  /** Genre -> track ids, in the order the ids were appended (a `defaultdict(list)`). */
  type GenreMap = map<Genre, seq<TrackId>>

  /** A value that may be absent: a JSON `null`, a missing key, an unset global. */
  datatype Option<+T> = None | Some(value: T)

  /** An artist record of the remote `artists` response; `genres` is None when the key is missing. */
  datatype Artist = Artist(id: ArtistId, genres: Option<seq<Genre>>)

  /** A track record of the remote `tracks` response, reduced to its id and its artists' ids. */
  datatype Track = Track(id: TrackId, artists: seq<ArtistId>)

  /** The genres of an artist record; a record without genres has none. */
  function GenresOf(artist: Artist): seq<Genre>
  {
    match artist.genres
    case Some(genres) => genres
    case None => []
  }

  /** The list stored under `k`, or the empty list when `k` is absent. */
  function Get<K, V>(m: map<K, seq<V>>, k: K): seq<V>
  {
    if k in m then m[k] else []
  }

  /** Every track id listed under any genre of `m` belongs to `ids`. */
  ghost predicate IdsWithin(m: GenreMap, ids: set<TrackId>)
  {
    forall g, t :: g in m && t in m[g] ==> t in ids
  }

  /** A non-empty sequence is its prefix followed by its last element. */
  lemma Snoc<T>(s: seq<T>)
    requires s != []
    ensures s == s[..|s| - 1] + [s[|s| - 1]]
  {
  }

  /** Counting `x` in a non-empty sequence: its prefix's count plus one if the last element is `x`. */
  lemma CountSnoc<T>(s: seq<T>, x: T)
    requires s != []
    ensures multiset(s)[x] == multiset(s[..|s| - 1])[x] + (if s[|s| - 1] == x then 1 else 0)
    ensures x in s <==> x in s[..|s| - 1] || s[|s| - 1] == x
  {
    Snoc(s);
  }

  lemma AppendAssoc<T>(a: seq<T>, b: seq<T>, c: seq<T>)
    ensures a + b + c == a + (b + c)
  {
  }

  /** Taking out the element at position `j` removes one occurrence of it from the multiset. */
  lemma RemoveAt<T>(s: seq<T>, j: nat)
    requires j < |s|
    ensures s == s[..j] + [s[j]] + s[j + 1..]
    ensures multiset(s) == multiset(s[..j] + s[j + 1..]) + multiset{s[j]}
  {
    assert s == s[..j] + [s[j]] + s[j + 1..];
  }

  /** Taking one equal element out of two permutations of each other leaves permutations. */
  lemma PermRemove<T>(s: seq<T>, i: nat, t: seq<T>, j: nat)
    requires i < |s| && j < |t| && s[i] == t[j]
    requires multiset(s) == multiset(t)
    ensures multiset(s[..i] + s[i + 1..]) == multiset(t[..j] + t[j + 1..])
  {
    RemoveAt(s, i);
    RemoveAt(t, j);
    var a, b := multiset(s[..i] + s[i + 1..]), multiset(t[..j] + t[j + 1..]);
    forall y ensures a[y] == b[y] {
      assert (a + multiset{s[i]})[y] == (b + multiset{s[i]})[y];
    }
  }
}

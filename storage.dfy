/**
 * The in-memory store `MemStorage`: a table of movies keyed by a surrogate id,
 * a table of like/dislike records keyed by a surrogate id, and one id counter
 * per table. Each table is modelled by a pure value (`MovieTable`,
 * `LikeTable`) with the operation that specifies how the store changes it; the
 * class `MemStorage` holds the fields the TypeScript `MemStorage` mutates and its methods are
 * proved to act on those fields exactly as the specifying operations say.
 */
module Storage {
  import opened Wrappers
  import opened Seqs
  import opened Schema
  import OM = OrderedMaps

  // ---------------------------------------------------------------------------
  // The like table: `userLikes` and `likeIdCounter`
  // ---------------------------------------------------------------------------

  datatype LikeTable = LikeTable(likes: OM.OrderedMap<UserLike>, nextId: nat)

  predicate IsLikeFor(like: UserLike, tmdbId: int, username: string)
  {
    like.tmdbId == tmdbId && like.username == username
  }

  /** The lookup key of `getLikeByTmdbIdAndUsername`, as a predicate on records. */
  function LikeKey(tmdbId: int, username: string): UserLike -> bool
  {
    (like: UserLike) => IsLikeFor(like, tmdbId, username)
  }

  /** The selection of `getLikedMoviesByUsername`, as a predicate on records. */
  function LikedByKey(username: string): UserLike -> bool
  {
    (like: UserLike) => like.username == username && like.liked
  }

  /** No two stored records share a (tmdbId, username) pair. */
  ghost predicate PairsUnique(m: map<nat, UserLike>)
  {
    forall a, b :: a in m && b in m && IsLikeFor(m[b], m[a].tmdbId, m[a].username) ==> a == b
  }

  /**
   * The store invariant of the like table: ids are handed out from 1 upwards by
   * the counter, so every key is below it, each record carries its own key as
   * its `id`, and each (tmdbId, username) pair has at most one record.
   */
  ghost predicate LikeTableValid(t: LikeTable)
  {
    && OM.Valid(t.likes)
    && 1 <= t.nextId
    && (forall k :: k in t.likes.entries ==> 1 <= k < t.nextId && t.likes.entries[k].id == k)
    && PairsUnique(t.likes.entries)
  }

  /** `new Map()` with the counter at 1. */
  function EmptyLikeTable(): (t: LikeTable)
    ensures LikeTableValid(t)
  {
    LikeTable(OM.Empty(), 1)
  }

  /** `getLikeByTmdbIdAndUsername`: the first record, in insertion order, for the pair. */
  function FindLike(likes: seq<UserLike>, tmdbId: int, username: string): Option<UserLike>
  {
    Find(likes, LikeKey(tmdbId, username))
  }

  /** `getLikedMoviesByUsername`: the user's records flagged as liked, in insertion order. */
  function LikedBy(likes: seq<UserLike>, username: string): seq<UserLike>
  {
    Filter(likes, LikedByKey(username))
  }

  /** `like.liked !== undefined ? like.liked : true`. */
  function StoredFlag(liked: Option<bool>): bool
  {
    liked.GetOr(true)
  }

  /** A record listed by the table is the one stored under its own id. */
  lemma ListedLikeIsStored(t: LikeTable, x: UserLike)
    requires LikeTableValid(t) && x in OM.Values(t.likes)
    ensures x.id in t.likes.entries && t.likes.entries[x.id] == x
  {
    var i :| 0 <= i < |t.likes.keys| && OM.Values(t.likes)[i] == x;
    OM.ValuesAreEntries(t.likes, i);
  }

  /** When `find` fails, no stored record has the pair. */
  lemma NoStoredLikeFor(t: LikeTable, tmdbId: int, username: string)
    requires LikeTableValid(t) && FindLike(OM.Values(t.likes), tmdbId, username).None?
    ensures forall k :: k in t.likes.entries ==> !IsLikeFor(t.likes.entries[k], tmdbId, username)
  {
    forall k | k in t.likes.entries
      ensures !IsLikeFor(t.likes.entries[k], tmdbId, username)
    {
      OM.EntriesAreListed(t.likes, k);
      var i :| 0 <= i < |t.likes.keys| && t.likes.keys[i] == k && OM.Values(t.likes)[i] == t.likes.entries[k];
      assert !LikeKey(tmdbId, username)(OM.Values(t.likes)[i]);
    }
  }

  /**
   * `saveLike`: an upsert keyed on (tmdbId, username). An existing record keeps
   * its id and pair and gets the new flag; otherwise a record is created under
   * the counter's value and the counter moves on by one. The result pairs the
   * new table with the record returned to the caller.
   */
  function UpsertLike(t: LikeTable, like: InsertUserLike): (r: (LikeTable, UserLike))
    requires LikeTableValid(t)
    ensures LikeTableValid(r.0)
    ensures IsLikeFor(r.1, like.tmdbId, like.username) && r.1.liked == StoredFlag(like.liked)
    ensures r.1.id in r.0.likes.entries && r.0.likes.entries[r.1.id] == r.1
  {
    match FindLike(OM.Values(t.likes), like.tmdbId, like.username)
    case Some(existing) =>
      ListedLikeIsStored(t, existing);
      var updated := existing.(liked := StoredFlag(like.liked));
      (LikeTable(OM.Set(t.likes, existing.id, updated), t.nextId), updated)
    case None =>
      NoStoredLikeFor(t, like.tmdbId, like.username);
      var created := UserLike(t.nextId, like.tmdbId, like.username, StoredFlag(like.liked));
      (LikeTable(OM.Set(t.likes, t.nextId, created), t.nextId + 1), created)
  }

  /** A series of `saveLike` calls, in order. */
  function SaveLikes(t: LikeTable, likes: seq<InsertUserLike>): (r: LikeTable)
    requires LikeTableValid(t)
    ensures LikeTableValid(r)
    ensures t.nextId <= r.nextId <= t.nextId + |likes|
    decreases |likes|
  {
    if |likes| == 0 then t
    else SaveLikes(UpsertLike(t, likes[0]).0, likes[1..])
  }

  /**
   * `saveLike` on a pair already stored under key `k`: only that record's flag
   * changes; its id and pair, the key order, the counter and every other
   * record stay as they were.
   */
  lemma UpsertLikeUpdatesExisting(t: LikeTable, like: InsertUserLike, k: nat)
    requires LikeTableValid(t)
    requires k in t.likes.entries && IsLikeFor(t.likes.entries[k], like.tmdbId, like.username)
    ensures UpsertLike(t, like).1 == t.likes.entries[k].(liked := StoredFlag(like.liked))
    ensures UpsertLike(t, like).1.id == k
    ensures UpsertLike(t, like).0.nextId == t.nextId
    ensures UpsertLike(t, like).0.likes.keys == t.likes.keys
    ensures UpsertLike(t, like).0.likes.entries == t.likes.entries[k := UpsertLike(t, like).1]
  {
    match FindLike(OM.Values(t.likes), like.tmdbId, like.username)
    case Some(existing) =>
      ListedLikeIsStored(t, existing);
    case None =>
      NoStoredLikeFor(t, like.tmdbId, like.username);
  }

  /**
   * `saveLike` on a pair not stored yet: the new record gets the counter's
   * value as id, is appended after all existing records, and the counter
   * grows by exactly one; no existing record changes.
   */
  lemma UpsertLikeInsertsNew(t: LikeTable, like: InsertUserLike)
    requires LikeTableValid(t)
    requires forall k :: k in t.likes.entries ==> !IsLikeFor(t.likes.entries[k], like.tmdbId, like.username)
    ensures UpsertLike(t, like).1 == UserLike(t.nextId, like.tmdbId, like.username, StoredFlag(like.liked))
    ensures UpsertLike(t, like).0.nextId == t.nextId + 1
    ensures t.nextId !in t.likes.entries
    ensures UpsertLike(t, like).0.likes.entries == t.likes.entries[t.nextId := UpsertLike(t, like).1]
    ensures OM.Values(UpsertLike(t, like).0.likes) == OM.Values(t.likes) + [UpsertLike(t, like).1]
  {
    match FindLike(OM.Values(t.likes), like.tmdbId, like.username)
    case Some(existing) =>
      ListedLikeIsStored(t, existing);
      assert false;
    case None =>
      var created := UserLike(t.nextId, like.tmdbId, like.username, StoredFlag(like.liked));
      OM.SetNewValues(t.likes, t.nextId, created);
  }

  /** After `saveLike`, the pair has exactly one record: the one returned. */
  lemma UpsertLikeSingleRecord(t: LikeTable, like: InsertUserLike, k: nat)
    requires LikeTableValid(t)
    requires k in UpsertLike(t, like).0.likes.entries
    requires IsLikeFor(UpsertLike(t, like).0.likes.entries[k], like.tmdbId, like.username)
    ensures k == UpsertLike(t, like).1.id
    ensures UpsertLike(t, like).0.likes.entries[k] == UpsertLike(t, like).1
  {
  }

  /**
   * Two `saveLike` calls for the same pair: the second reuses the record of
   * the first (same id, counter untouched) and the flag is the latest one.
   */
  lemma LastWriteWins(t: LikeTable, tmdbId: int, username: string, first: Option<bool>, second: Option<bool>)
    requires LikeTableValid(t)
    ensures var r1 := UpsertLike(t, InsertUserLike(tmdbId, username, first));
            var r2 := UpsertLike(r1.0, InsertUserLike(tmdbId, username, second));
            && r2.1.id == r1.1.id
            && r2.0.nextId == r1.0.nextId
            && r2.0.likes.keys == r1.0.likes.keys
            && r2.1.liked == StoredFlag(second)
  {
    var r1 := UpsertLike(t, InsertUserLike(tmdbId, username, first));
    UpsertLikeUpdatesExisting(r1.0, InsertUserLike(tmdbId, username, second), r1.1.id);
  }

  /** Membership in `getLikedMoviesByUsername`: exactly the user's records whose flag is `true`. */
  lemma LikedByMembers(likes: seq<UserLike>, username: string, x: UserLike)
    ensures x in LikedBy(likes, username) <==> x in likes && x.username == username && x.liked
  {
    var r := LikedBy(likes, username);
    if x in r {
      var i :| 0 <= i < |r| && r[i] == x;
      assert LikedByKey(username)(r[i]);
    }
    if x in likes && x.username == username && x.liked {
      var i :| 0 <= i < |likes| && likes[i] == x;
      assert LikedByKey(username)(likes[i]);
    }
  }

  /**
   * After `saveLike` for a pair, the user's liked list has a record for that
   * movie exactly when the stored flag is `true`.
   */
  lemma LikedByAfterUpsert(t: LikeTable, like: InsertUserLike, x: UserLike)
    requires LikeTableValid(t)
    ensures x in LikedBy(OM.Values(UpsertLike(t, like).0.likes), like.username) && x.tmdbId == like.tmdbId
            <==> x == UpsertLike(t, like).1 && StoredFlag(like.liked)
  {
    var r := UpsertLike(t, like);
    var vals := OM.Values(r.0.likes);
    LikedByMembers(vals, like.username, x);
    if x in vals {
      ListedLikeIsStored(r.0, x);
    }
    if x == r.1 {
      OM.EntriesAreListed(r.0.likes, r.1.id);
    }
  }

  /**
   * The like flow end to end: user "u" likes movie 1, which then appears in
   * their liked list; disliking it afterwards empties the list again.
   */
  lemma LikeThenDislike()
    ensures var t1 := UpsertLike(EmptyLikeTable(), InsertUserLike(1, "u", Some(true))).0;
            var t2 := UpsertLike(t1, InsertUserLike(1, "u", Some(false))).0;
            && LikedBy(OM.Values(t1.likes), "u") == [UserLike(1, 1, "u", true)]
            && LikedBy(OM.Values(t2.likes), "u") == []
  {
    var t1 := UpsertLike(EmptyLikeTable(), InsertUserLike(1, "u", Some(true))).0;
    UpsertLikeInsertsNew(EmptyLikeTable(), InsertUserLike(1, "u", Some(true)));
    assert t1.likes.keys == [1];
    assert OM.Values(t1.likes) == [UserLike(1, 1, "u", true)];
    UpsertLikeUpdatesExisting(t1, InsertUserLike(1, "u", Some(false)), 1);
    var t2 := UpsertLike(t1, InsertUserLike(1, "u", Some(false))).0;
    assert t2.likes.keys == [1];
    assert OM.Values(t2.likes) == [UserLike(1, 1, "u", false)];
  }

  // ---------------------------------------------------------------------------
  // The movie table: `movies` and `movieIdCounter`
  // ---------------------------------------------------------------------------

  datatype MovieTable = MovieTable(movies: OM.OrderedMap<Movie>, nextId: nat)

  /** The lookup key of `getMovieByTmdbId`, as a predicate on records. */
  function TmdbKey(tmdbId: int): Movie -> bool
  {
    (movie: Movie) => movie.tmdbId == tmdbId
  }

  /** No two stored movies share a tmdbId. */
  ghost predicate TmdbIdsUnique(m: map<nat, Movie>)
  {
    forall a, b :: a in m && b in m && m[a].tmdbId == m[b].tmdbId ==> a == b
  }

  /** The store invariant of the movie table, as for the like table. */
  ghost predicate MovieTableValid(t: MovieTable)
  {
    && OM.Valid(t.movies)
    && 1 <= t.nextId
    && (forall k :: k in t.movies.entries ==> 1 <= k < t.nextId && t.movies.entries[k].id == k)
    && TmdbIdsUnique(t.movies.entries)
  }

  function EmptyMovieTable(): (t: MovieTable)
    ensures MovieTableValid(t)
  {
    MovieTable(OM.Empty(), 1)
  }

  /** `getMovieByTmdbId`: the first stored movie, in insertion order, with that tmdbId. */
  function FindMovieByTmdbId(movies: seq<Movie>, tmdbId: int): Option<Movie>
  {
    Find(movies, TmdbKey(tmdbId))
  }

  /** `s || null` for an optional string: `null`, `undefined` and `""` all become `null`. */
  function OrNull(s: Option<string>): Option<string>
  {
    if s == Some("") then None else s
  }

  /** The record `saveMovie` builds for a movie not stored yet. */
  function NewMovie(id: nat, m: InsertMovie): Movie
  {
    Movie(id, m.tmdbId, m.title, m.overview,
          OrNull(m.posterPath), OrNull(m.backdropPath), OrNull(m.releaseDate), OrNull(m.voteAverage),
          m.genres)
  }

  lemma ListedMovieIsStored(t: MovieTable, x: Movie)
    requires MovieTableValid(t) && x in OM.Values(t.movies)
    ensures x.id in t.movies.entries && t.movies.entries[x.id] == x
  {
    var i :| 0 <= i < |t.movies.keys| && OM.Values(t.movies)[i] == x;
    OM.ValuesAreEntries(t.movies, i);
  }

  lemma NoStoredMovieFor(t: MovieTable, tmdbId: int)
    requires MovieTableValid(t) && FindMovieByTmdbId(OM.Values(t.movies), tmdbId).None?
    ensures forall k :: k in t.movies.entries ==> t.movies.entries[k].tmdbId != tmdbId
  {
    forall k | k in t.movies.entries
      ensures t.movies.entries[k].tmdbId != tmdbId
    {
      OM.EntriesAreListed(t.movies, k);
      var i :| 0 <= i < |t.movies.keys| && t.movies.keys[i] == k && OM.Values(t.movies)[i] == t.movies.entries[k];
      assert !TmdbKey(tmdbId)(OM.Values(t.movies)[i]);
    }
  }

  /**
   * `saveMovie`: insert-if-absent keyed on tmdbId. The movie returned is the
   * one stored for that tmdbId, whether it was there before or just created.
   */
  function InsertMovieIfAbsent(t: MovieTable, m: InsertMovie): (r: (MovieTable, Movie))
    requires MovieTableValid(t)
    ensures MovieTableValid(r.0)
    ensures r.1.tmdbId == m.tmdbId
    ensures r.1.id in r.0.movies.entries && r.0.movies.entries[r.1.id] == r.1
  {
    match FindMovieByTmdbId(OM.Values(t.movies), m.tmdbId)
    case Some(existing) =>
      ListedMovieIsStored(t, existing);
      (t, existing)
    case None =>
      NoStoredMovieFor(t, m.tmdbId);
      var created := NewMovie(t.nextId, m);
      (MovieTable(OM.Set(t.movies, t.nextId, created), t.nextId + 1), created)
  }

  /** A movie already stored under key `k` is returned as it is, and the table does not change. */
  lemma InsertMovieExisting(t: MovieTable, m: InsertMovie, k: nat)
    requires MovieTableValid(t)
    requires k in t.movies.entries && t.movies.entries[k].tmdbId == m.tmdbId
    ensures InsertMovieIfAbsent(t, m) == (t, t.movies.entries[k])
  {
    match FindMovieByTmdbId(OM.Values(t.movies), m.tmdbId)
    case Some(existing) =>
      ListedMovieIsStored(t, existing);
    case None =>
      NoStoredMovieFor(t, m.tmdbId);
  }

  /**
   * A movie not stored yet gets the counter's value as id and is appended; the
   * counter grows by one; the optional text columns are stored as null when
   * missing or empty, and `genres` is stored as null only when missing.
   */
  lemma InsertMovieNew(t: MovieTable, m: InsertMovie)
    requires MovieTableValid(t)
    requires forall k :: k in t.movies.entries ==> t.movies.entries[k].tmdbId != m.tmdbId
    ensures var r := InsertMovieIfAbsent(t, m);
            && r.1.id == t.nextId
            && r.0.nextId == t.nextId + 1
            && t.nextId !in t.movies.entries
            && OM.Values(r.0.movies) == OM.Values(t.movies) + [r.1]
            && r.1.title == m.title && r.1.overview == m.overview
            && r.1.posterPath == (if m.posterPath == Some("") then None else m.posterPath)
            && r.1.backdropPath == (if m.backdropPath == Some("") then None else m.backdropPath)
            && r.1.releaseDate == (if m.releaseDate == Some("") then None else m.releaseDate)
            && r.1.voteAverage == (if m.voteAverage == Some("") then None else m.voteAverage)
            && r.1.genres == m.genres
  {
    match FindMovieByTmdbId(OM.Values(t.movies), m.tmdbId)
    case Some(existing) =>
      ListedMovieIsStored(t, existing);
      assert false;
    case None =>
      OM.SetNewValues(t.movies, t.nextId, NewMovie(t.nextId, m));
  }

  /**
   * `saveMovie` is idempotent per tmdbId: saving again with the same tmdbId,
   * whatever the other fields say, returns the stored movie and changes nothing.
   */
  lemma InsertMovieIdempotent(t: MovieTable, m: InsertMovie, again: InsertMovie)
    requires MovieTableValid(t) && again.tmdbId == m.tmdbId
    ensures var r := InsertMovieIfAbsent(t, m);
            InsertMovieIfAbsent(r.0, again) == r
  {
    var r := InsertMovieIfAbsent(t, m);
    InsertMovieExisting(r.0, again, r.1.id);
  }

  // ---------------------------------------------------------------------------
  // The store object
  // ---------------------------------------------------------------------------

  class MemStorage {
    var movies: OM.OrderedMap<Movie>
    var userLikes: OM.OrderedMap<UserLike>
    var movieIdCounter: nat
    var likeIdCounter: nat

    function MovieState(): MovieTable
      reads this
    {
      MovieTable(movies, movieIdCounter)
    }

    function LikeState(): LikeTable
      reads this
    {
      LikeTable(userLikes, likeIdCounter)
    }

    ghost predicate Valid()
      reads this
    {
      MovieTableValid(MovieState()) && LikeTableValid(LikeState())
    }

    constructor ()
      ensures Valid()
      ensures MovieState() == EmptyMovieTable() && LikeState() == EmptyLikeTable()
    {
      movies := OM.Empty();
      userLikes := OM.Empty();
      movieIdCounter := 1;
      likeIdCounter := 1;
    }

    /** `getMovie(id)`: the movie stored under that id, if any. */
    method GetMovie(id: int) returns (r: Option<Movie>)
      requires Valid()
      ensures r.Some? ==> r.value in OM.Values(movies) && r.value.id == id
      ensures r.None? <==> forall i :: 0 <= i < |movies.keys| ==> OM.Values(movies)[i].id != id
    {
      if id >= 0 && id in movies.entries {
        r := Some(movies.entries[id]);
        OM.EntriesAreListed(movies, id);
      } else {
        r := None;
        forall i | 0 <= i < |movies.keys|
          ensures OM.Values(movies)[i].id != id
        {
          OM.ValuesAreEntries(movies, i);
        }
      }
    }

    /** `getMovieByTmdbId`: a scan over the stored movies in insertion order. */
    method GetMovieByTmdbId(tmdbId: int) returns (r: Option<Movie>)
      requires Valid()
      ensures r == FindMovieByTmdbId(OM.Values(movies), tmdbId)
    {
      var all := OM.Values(movies);
      var i := 0;
      while i < |all|
        invariant 0 <= i <= |all|
        invariant FindMovieByTmdbId(all, tmdbId) == Find(all[i..], TmdbKey(tmdbId))
      {
        FindStep(all, TmdbKey(tmdbId), i);
        if all[i].tmdbId == tmdbId {
          return Some(all[i]);
        }
        i := i + 1;
      }
      return None;
    }

    /** `saveMovie`: insert-if-absent keyed on tmdbId; the like table is not touched. */
    method SaveMovie(movie: InsertMovie) returns (r: Movie)
      requires Valid()
      modifies this
      ensures Valid()
      ensures (MovieState(), r) == InsertMovieIfAbsent(old(MovieState()), movie)
      ensures LikeState() == old(LikeState())
    {
      ghost var spec := InsertMovieIfAbsent(MovieState(), movie);
      var existing := GetMovieByTmdbId(movie.tmdbId);
      if existing.Some? {
        return existing.value;
      }
      var id := movieIdCounter;
      movieIdCounter := movieIdCounter + 1;
      r := NewMovie(id, movie);
      movies := OM.Set(movies, id, r);
      assert (MovieState(), r) == spec;
    }

    /** `saveLike`: upsert keyed on (tmdbId, username); the movie table is not touched. */
    method SaveLike(like: InsertUserLike) returns (r: UserLike)
      requires Valid()
      modifies this
      ensures Valid()
      ensures (LikeState(), r) == UpsertLike(old(LikeState()), like)
      ensures MovieState() == old(MovieState())
    {
      ghost var spec := UpsertLike(LikeState(), like);
      var existing := GetLikeByTmdbIdAndUsername(like.tmdbId, like.username);
      if existing.Some? {
        r := existing.value.(liked := StoredFlag(like.liked));
        userLikes := OM.Set(userLikes, existing.value.id, r);
        assert (LikeState(), r) == spec;
        return;
      }
      var id := likeIdCounter;
      likeIdCounter := likeIdCounter + 1;
      r := UserLike(id, like.tmdbId, like.username, StoredFlag(like.liked));
      userLikes := OM.Set(userLikes, id, r);
      assert (LikeState(), r) == spec;
    }

    /** `getLikeByTmdbIdAndUsername`: a scan over the like records in insertion order. */
    method GetLikeByTmdbIdAndUsername(tmdbId: int, username: string) returns (r: Option<UserLike>)
      requires Valid()
      ensures r == FindLike(OM.Values(userLikes), tmdbId, username)
    {
      var all := OM.Values(userLikes);
      var i := 0;
      while i < |all|
        invariant 0 <= i <= |all|
        invariant FindLike(all, tmdbId, username) == Find(all[i..], LikeKey(tmdbId, username))
      {
        FindStep(all, LikeKey(tmdbId, username), i);
        if all[i].tmdbId == tmdbId && all[i].username == username {
          return Some(all[i]);
        }
        i := i + 1;
      }
      return None;
    }

    /** `getLikedMoviesByUsername`: the filter over the like records in insertion order. */
    method GetLikedMoviesByUsername(username: string) returns (r: seq<UserLike>)
      requires Valid()
      ensures r == LikedBy(OM.Values(userLikes), username)
    {
      var all := OM.Values(userLikes);
      r := [];
      var i := 0;
      while i < |all|
        invariant 0 <= i <= |all|
        invariant r == LikedBy(all[..i], username)
      {
        assert all[..i + 1] == all[..i] + [all[i]];
        FilterAppend(all[..i], [all[i]], LikedByKey(username));
        if all[i].username == username && all[i].liked {
          r := r + [all[i]];
        }
        i := i + 1;
      }
      assert all[..i] == all;
    }
  }
}

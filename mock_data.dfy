/**
 * The fixture catalog of the server: a fixed genre list, a fixed list of
 * twelve movies, and the detail record built for one of them. The runtime of
 * a detail record is drawn by `mockMovieDetails` with `Math.random()`; here it is the parameter `draw`,
 * the value of `Math.floor(Math.random() * 60)`, which lies in 0..59.
 */
module MockData {
  import opened Wrappers
  import opened Seqs
  import opened Schema

  const MockGenres: seq<Genre> := [
    Genre(28, "Action"),
    Genre(12, "Adventure"),
    Genre(16, "Animation"),
    Genre(35, "Comedy"),
    Genre(80, "Crime"),
    Genre(18, "Drama"),
    Genre(10751, "Family"),
    Genre(14, "Fantasy"),
    Genre(36, "History"),
    Genre(27, "Horror"),
    Genre(10402, "Music"),
    Genre(9648, "Mystery"),
    Genre(10749, "Romance"),
    Genre(878, "Science Fiction"),
    Genre(10770, "TV Movie"),
    Genre(53, "Thriller"),
    Genre(10752, "War"),
    Genre(37, "Western")
  ]

  /** The ids of `MockGenres`, in order. */
  const MockGenreIds: seq<int> := [28, 12, 16, 35, 80, 18, 10751, 14, 36, 27, 10402, 9648, 10749, 878, 10770, 53, 10752, 37]

  const MockMovies: seq<TmdbMovie> := [
    TmdbMovie(1, "The Adventure Begins",
      "A thrilling journey through unknown lands where heroes are made and legends are born.",
      Some("/poster1.jpg"), Some("/backdrop1.jpg"), Some("2025-01-15"), 8.7, Some([28, 12, 14]), None),
    TmdbMovie(2, "City of Shadows",
      "In a metropolis plagued by crime, one detective risks everything to uncover the truth.",
      Some("/poster2.jpg"), Some("/backdrop2.jpg"), Some("2024-11-05"), 7.9, Some([80, 53, 9648]), None),
    TmdbMovie(3, "Love in Paris",
      "Two strangers meet in the city of love and find their lives forever changed.",
      Some("/poster3.jpg"), Some("/backdrop3.jpg"), Some("2025-02-14"), 8.2, Some([10749, 18]), None),
    TmdbMovie(4, "Galactic Odyssey",
      "The fate of humanity rests in the hands of explorers venturing to the edge of the universe.",
      Some("/poster4.jpg"), Some("/backdrop4.jpg"), Some("2024-09-21"), 9.1, Some([878, 12, 28]), None),
    TmdbMovie(5, "Laugh Factory",
      "A struggling comedian gets the opportunity of a lifetime, but success comes at a price.",
      Some("/poster5.jpg"), Some("/backdrop5.jpg"), Some("2024-08-03"), 7.6, Some([35, 18]), None),
    TmdbMovie(6, "Historical Heroes",
      "Based on true events, a group of unlikely allies changes the course of history.",
      Some("/poster6.jpg"), Some("/backdrop6.jpg"), Some("2024-12-12"), 8.4, Some([36, 18, 10752]), None),
    TmdbMovie(7, "Enchanted Forest",
      "A family adventure into a magical world where nothing is quite as it seems.",
      Some("/poster7.jpg"), Some("/backdrop7.jpg"), Some("2025-03-20"), 7.8, Some([10751, 14, 12]), None),
    TmdbMovie(8, "Midnight Terror",
      "What started as a simple house party becomes a fight for survival as night falls.",
      Some("/poster8.jpg"), Some("/backdrop8.jpg"), Some("2024-10-31"), 6.9, Some([27, 53]), None),
    TmdbMovie(9, "The Final Heist",
      "A master thief assembles a team for one last job that will set them up for life.",
      Some("/poster9.jpg"), Some("/backdrop9.jpg"), Some("2025-01-05"), 8.0, Some([80, 28, 53]), None),
    TmdbMovie(10, "Rhythms of Life",
      "A musical journey following a talented but unknown band as they rise to stardom.",
      Some("/poster10.jpg"), Some("/backdrop10.jpg"), Some("2024-07-15"), 7.5, Some([10402, 18]), None),
    TmdbMovie(11, "Western Frontiers",
      "In the untamed wilderness of the Old West, a sheriff fights to protect a town from outlaws.",
      Some("/poster11.jpg"), Some("/backdrop11.jpg"), Some("2024-08-25"), 7.7, Some([37, 28]), None),
    TmdbMovie(12, "Animated Dreams",
      "In a world where drawings come to life, an artist discovers the power of imagination.",
      Some("/poster12.jpg"), Some("/backdrop12.jpg"), Some("2025-04-10"), 8.6, Some([16, 10751, 14]), None)
  ]

  datatype CastMember = CastMember(id: int, name: string, character: string, profilePath: string)
  datatype CrewMember = CrewMember(id: int, name: string, job: string, department: string)
  datatype Credits = Credits(cast: seq<CastMember>, crew: seq<CrewMember>)

  /**
   * The detail form: the summary movie with `genres` filled in, plus runtime,
   * adult flag and credits.
   */
  datatype MovieDetail = MovieDetail(movie: TmdbMovie, runtime: int, adult: bool, credits: Credits)

  /** The credits every fixture detail carries. */
  const MockCredits := Credits(
    [ CastMember(101, "John Actor", "Main Character", "/actor1.jpg"),
      CastMember(102, "Jane Star", "Supporting Role", "/actor2.jpg"),
      CastMember(103, "Bob Famous", "Villain", "/actor3.jpg"),
      CastMember(104, "Alice Talented", "Friend", "/actor4.jpg"),
      CastMember(105, "Tom Performer", "Mentor", "/actor5.jpg") ],
    [ CrewMember(201, "Famous Director", "Director", "Directing"),
      CrewMember(202, "Talented Writer", "Screenplay", "Writing"),
      CrewMember(203, "Music Composer", "Original Music Composer", "Sound") ])

  function GenreKey(gid: int): Genre -> bool
  {
    (g: Genre) => g.id == gid
  }

  function MovieKey(id: int): TmdbMovie -> bool
  {
    (m: TmdbMovie) => m.id == id
  }

  function IsDirector(): CrewMember -> bool
  {
    (c: CrewMember) => c.job == "Director"
  }

  /** `mockGenres.genres.find(g => g.id === gid) || { id: gid, name: "Unknown" }`. */
  function GenreOf(gid: int): Genre
  {
    Find(MockGenres, GenreKey(gid)).GetOr(Genre(gid, "Unknown"))
  }

  /** `genre_ids.map(...)` with the lookup above. */
  function GenresOf(ids: seq<int>): seq<Genre>
  {
    seq(|ids|, i requires 0 <= i < |ids| => GenreOf(ids[i]))
  }

  /** `genre_ids?.map(...)`: `undefined` stays `undefined`. */
  function DetailGenres(ids: Option<seq<int>>): Option<seq<Genre>>
  {
    match ids
    case None => None
    case Some(gids) => Some(GenresOf(gids))
  }

  /** `mockMovieDetails(id)`; `None` stands for the `null` returned for an unknown id. */
  function MockMovieDetails(id: int, draw: int): Option<MovieDetail>
    requires 0 <= draw < 60
  {
    match Find(MockMovies, MovieKey(id))
    case None => None
    case Some(m) => Some(MovieDetail(m.(genres := DetailGenres(m.genreIds)), draw + 90, false, MockCredits))
  }

  /** The fixture movies are numbered 1 to 12 in order, so their ids are distinct. */
  lemma MockMovieIds()
    ensures |MockMovies| == 12
    ensures forall i :: 0 <= i < |MockMovies| ==> MockMovies[i].id == i + 1
    ensures forall i, j :: 0 <= i < |MockMovies| && 0 <= j < |MockMovies| && MockMovies[i].id == MockMovies[j].id ==> i == j
  {
  }

  /** A detail record exists exactly for the ids of the fixture movies. */
  lemma DetailsFoundIff(id: int, draw: int)
    requires 0 <= draw < 60
    ensures MockMovieDetails(id, draw).Some? <==> exists i :: 0 <= i < |MockMovies| && MockMovies[i].id == id
    ensures MockMovieDetails(id, draw).Some? <==> 1 <= id <= 12
  {
    MockMovieIds();
    if 1 <= id <= 12 {
      assert MovieKey(id)(MockMovies[id - 1]);
    }
  }

  /**
   * The detail record of a fixture movie is that movie, every field kept (so
   * its id is the one asked for), with `genres` filled in from its genre ids.
   */
  lemma DetailsOfMovie(id: int, draw: int)
    requires 0 <= draw < 60 && 1 <= id <= 12
    ensures MockMovieDetails(id, draw) == Some(MovieDetail(
      MockMovies[id - 1].(genres := DetailGenres(MockMovies[id - 1].genreIds)), draw + 90, false, MockCredits))
    ensures MockMovieDetails(id, draw).value.movie.id == id
  {
    MockMovieIds();
    FindUnique(MockMovies, MovieKey(id), id - 1);
  }

  /** A genre id is always kept; its name is the listed one, or "Unknown" if the id is not listed. */
  lemma GenreOfLookup(gid: int)
    ensures GenreOf(gid).id == gid
    ensures gid in MockGenreIds ==> GenreOf(gid) in MockGenres
    ensures gid !in MockGenreIds ==> GenreOf(gid) == Genre(gid, "Unknown")
  {
    assert forall k :: 0 <= k < |MockGenres| ==> MockGenres[k].id == MockGenreIds[k];
    if gid in MockGenreIds {
      var k :| 0 <= k < |MockGenreIds| && MockGenreIds[k] == gid;
      assert GenreKey(gid)(MockGenres[k]);
    } else {
      assert forall k :: 0 <= k < |MockGenres| ==> !GenreKey(gid)(MockGenres[k]);
    }
  }

  /** Detail genres line up with the genre ids: same length, same order, same ids. */
  lemma GenresLineUp(ids: seq<int>)
    ensures |GenresOf(ids)| == |ids|
    ensures forall i :: 0 <= i < |ids| ==> GenresOf(ids)[i].id == ids[i]
  {
    forall i | 0 <= i < |ids| ensures GenresOf(ids)[i].id == ids[i] {
      GenreOfLookup(ids[i]);
    }
  }

  /** The genres of a detail record are the lookups of its genre ids, which every fixture movie has. */
  lemma DetailsGenres(id: int, draw: int)
    requires 0 <= draw < 60 && MockMovieDetails(id, draw).Some?
    ensures var d := MockMovieDetails(id, draw).value;
            && d.movie.genreIds.Some?
            && d.movie.genres == Some(GenresOf(d.movie.genreIds.value))
  {
    var m := Find(MockMovies, MovieKey(id)).value;
    var i :| 0 <= i < |MockMovies| && MockMovies[i] == m;
    FixtureGenreIdsListed(i, 0);
  }

  /** Every genre id used by a fixture movie is listed in the fixture genres. */
  lemma FixtureGenreIdsListed(i: nat, j: nat)
    requires i < |MockMovies|
    ensures MockMovies[i].genreIds.Some?
    ensures j < |MockMovies[i].genreIds.value| ==> MockMovies[i].genreIds.value[j] in MockGenreIds
  {
  }

  /** No listed genre is called "Unknown". */
  lemma ListedGenresNamed(g: Genre)
    requires g in MockGenres
    ensures g.name != "Unknown"
  {
    var k :| 0 <= k < |MockGenres| && MockGenres[k] == g;
    assert MockGenres[k].name[0] != 'U';
  }

  /** A listed genre id never resolves to "Unknown". */
  lemma ListedGenreKnown(gid: int)
    requires gid in MockGenreIds
    ensures GenreOf(gid) in MockGenres && GenreOf(gid).name != "Unknown"
  {
    GenreOfLookup(gid);
    ListedGenresNamed(GenreOf(gid));
  }

  /** So no fixture detail ever shows the "Unknown" genre. */
  lemma DetailsNeverUnknown(id: int, draw: int, k: nat)
    requires 0 <= draw < 60 && MockMovieDetails(id, draw).Some?
    requires MockMovieDetails(id, draw).value.movie.genres.Some?
    requires k < |MockMovieDetails(id, draw).value.movie.genres.value|
    ensures MockMovieDetails(id, draw).value.movie.genres.value[k] in MockGenres
    ensures MockMovieDetails(id, draw).value.movie.genres.value[k].name != "Unknown"
  {
    var m := Find(MockMovies, MovieKey(id)).value;
    var i :| 0 <= i < |MockMovies| && MockMovies[i] == m;
    var ids := m.genreIds.value;
    assert MockMovieDetails(id, draw).value.movie.genres.value == GenresOf(ids);
    GenresLineUp(ids);
    FixtureGenreIdsListed(i, k);
    ListedGenreKnown(ids[k]);
  }

  /** The fixed parts of a detail: not adult, five cast members, exactly one director, runtime 90..149. */
  lemma DetailsFixedParts(id: int, draw: int)
    requires 0 <= draw < 60 && MockMovieDetails(id, draw).Some?
    ensures var d := MockMovieDetails(id, draw).value;
            && !d.adult
            && |d.credits.cast| == 5
            && Count(d.credits.crew, IsDirector()) == 1
            && 90 <= d.runtime <= 149
  {
    var crew := MockCredits.crew;
    assert IsDirector()(crew[0]) && !IsDirector()(crew[1]) && !IsDirector()(crew[2]);
    assert crew[1..][1..][1..] == [];
  }
}

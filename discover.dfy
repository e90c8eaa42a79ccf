/**
 * The Discover page: which genre and page of the catalog is requested, which
 * movie the detail modal shows, and the notification a swipe raises.
 */
module Discover {
  import opened Wrappers
  import opened Seqs
  import opened Strings
  import opened Schema

  // ---------------------------------------------------------------------------
  // The request URL
  // ---------------------------------------------------------------------------

  const DiscoverPath := "/api/movies/discover?"
  const GenreParam := "genre="
  const PageParam := "page="
  const AllGenres := "all"

  /** The query string opens with a genre parameter unless every genre is selected. */
  function GenreQuery(genre: string): string
  {
    if genre != AllGenres then GenreParam + genre + "&" else ""
  }

  /** The URL the catalog query fetches for a genre selection and a page. */
  function DiscoverUrl(genre: string, page: nat): (url: string)
    ensures |url| > |DiscoverPath|
    ensures url[..|DiscoverPath|] == DiscoverPath
  {
    DiscoverPath + GenreQuery(genre) + PageParam + NatToString(page)
  }

  predicate StartsWith(s: string, prefix: string)
  {
    |prefix| <= |s| && s[..|prefix|] == prefix
  }

  /** `t` occurs in `s` at position `i`. */
  predicate OccursAt(s: string, t: string, i: nat)
  {
    i + |t| <= |s| && s[i..i + |t|] == t
  }

  /** `t` occurs somewhere in `s`. */
  ghost predicate Contains(s: string, t: string)
  {
    exists i: nat :: i <= |s| && OccursAt(s, t, i)
  }

  /** The tail `page=<digits>` of a URL. */
  function ParsePage(rest: string): (r: Option<nat>)
  {
    if StartsWith(rest, PageParam) && |rest| > |PageParam| && AllDigits(rest[|PageParam|..])
    then Some(ParseNat(rest[|PageParam|..]))
    else None
  }

  predicate IsAmp(c: char)
  {
    c == '&'
  }

  /** `<genre>&page=<digits>`. */
  function ParseGenreTail(tail: string): Option<(string, nat)>
  {
    match FirstIndex(tail, IsAmp)
    case None => None
    case Some(k) =>
      match ParsePage(tail[k + 1..])
      case None => None
      case Some(p) => Some((tail[..k], p))
  }

  /**
   * Reads the genre selection and the page back out of a discover URL, the
   * genre being everything between `genre=` and the first `&`.
   */
  function ParseDiscoverUrl(url: string): (r: Option<(string, nat)>)
  {
    if StartsWith(url, DiscoverPath) then ParseQuery(url[|DiscoverPath|..]) else None
  }

  /** The query string of a discover URL. */
  function ParseQuery(query: string): Option<(string, nat)>
  {
    if StartsWith(query, GenreParam) then
      ParseGenreTail(query[|GenreParam|..])
    else
      match ParsePage(query)
      case None => None
      case Some(p) => Some((AllGenres, p))
  }

  lemma ParsePageOf(page: nat)
    ensures ParsePage(PageParam + NatToString(page)) == Some(page)
  {
    var rest := PageParam + NatToString(page);
    assert rest[..|PageParam|] == PageParam;
    assert rest[|PageParam|..] == NatToString(page);
    ParseNatToString(page);
  }

  lemma FirstAmpAfter(genre: string, after: string)
    requires forall i :: 0 <= i < |genre| ==> genre[i] != '&'
    ensures FirstIndex(genre + "&" + after, IsAmp) == Some(|genre|)
  {
    var tail := genre + "&" + after;
    assert forall j :: 0 <= j < |genre| ==> tail[j] == genre[j];
    assert IsAmp(tail[|genre|]);
  }

  lemma ParseGenreTailOf(genre: string, page: nat)
    requires forall i :: 0 <= i < |genre| ==> genre[i] != '&'
    ensures ParseGenreTail(genre + "&" + (PageParam + NatToString(page))) == Some((genre, page))
  {
    var after := PageParam + NatToString(page);
    var tail := genre + "&" + after;
    FirstAmpAfter(genre, after);
    assert tail[..|genre|] == genre;
    assert tail[|genre| + 1..] == after;
    ParsePageOf(page);
  }

  lemma ParseQueryOneGenre(genre: string, page: nat)
    requires forall i :: 0 <= i < |genre| ==> genre[i] != '&'
    ensures ParseQuery(GenreParam + (genre + "&" + (PageParam + NatToString(page)))) == Some((genre, page))
  {
    var tail := genre + "&" + (PageParam + NatToString(page));
    var query := GenreParam + tail;
    assert query[..|GenreParam|] == GenreParam;
    assert query[|GenreParam|..] == tail;
    ParseGenreTailOf(genre, page);
  }

  lemma ParseQueryAllGenres(page: nat)
    ensures ParseQuery(PageParam + NatToString(page)) == Some((AllGenres, page))
  {
    var query := PageParam + NatToString(page);
    assert query[..|GenreParam|][0] == 'p';
    ParsePageOf(page);
  }

  /**
   * The URL determines the selection it was built from, for any genre id
   * without an `&` in it (the genre ids of the catalog are numerals).
   */
  lemma DiscoverUrlRoundTrip(genre: string, page: nat)
    requires forall i :: 0 <= i < |genre| ==> genre[i] != '&'
    ensures ParseDiscoverUrl(DiscoverUrl(genre, page)) == Some((genre, page))
  {
    var pageTail := PageParam + NatToString(page);
    var query := GenreQuery(genre) + pageTail;
    var url := DiscoverUrl(genre, page);
    assert url == DiscoverPath + query;
    assert url[|DiscoverPath|..] == query;
    if genre != AllGenres {
      assert query == GenreParam + (genre + "&" + pageTail);
      ParseQueryOneGenre(genre, page);
    } else {
      assert query == pageTail;
      ParseQueryAllGenres(page);
    }
  }

  /** Different pages of the same genre selection are different requests. */
  lemma DiscoverUrlPageInjective(genre: string, p: nat, q: nat)
    requires DiscoverUrl(genre, p) == DiscoverUrl(genre, q)
    ensures p == q
  {
    var prefix := DiscoverPath + GenreQuery(genre) + PageParam;
    assert DiscoverUrl(genre, p)[|prefix|..] == NatToString(p);
    assert DiscoverUrl(genre, q)[|prefix|..] == NatToString(q);
    NatToStringInjective(p, q);
  }

  lemma ContainsThirdChar(s: string, t: string)
    requires Contains(s, t)
    requires |t| > 2
    ensures exists j :: 0 <= j < |s| && s[j] == t[2]
  {
    var i: nat :| i <= |s| && OccursAt(s, t, i);
    assert s[i + 2] == s[i..i + |t|][2];
  }

  /** Without a genre the URL has no letter 'n' in it, while "genre=" has one. */
  lemma AllGenresUrlHasNoN(page: nat)
    ensures forall j :: 0 <= j < |DiscoverUrl(AllGenres, page)| ==> DiscoverUrl(AllGenres, page)[j] != 'n'
  {
    var digits := NatToString(page);
    var url := DiscoverUrl(AllGenres, page);
    assert url == DiscoverPath + PageParam + digits;
    forall j | 0 <= j < |url|
      ensures url[j] != 'n'
    {
      if j < |DiscoverPath| {
        assert url[j] == DiscoverPath[j];
      } else if j < |DiscoverPath| + |PageParam| {
        assert url[j] == PageParam[j - |DiscoverPath|];
      } else {
        assert url[j] == digits[j - |DiscoverPath| - |PageParam|];
      }
    }
  }

  /** The URL carries a genre parameter exactly when a single genre is selected. */
  lemma DiscoverUrlGenreIff(genre: string, page: nat)
    ensures Contains(DiscoverUrl(genre, page), GenreParam) <==> genre != AllGenres
  {
    var url := DiscoverUrl(genre, page);
    if genre != AllGenres {
      assert url == DiscoverPath + (GenreParam + genre + "&" + PageParam + NatToString(page));
      assert OccursAt(url, GenreParam, |DiscoverPath|);
    } else if Contains(url, GenreParam) {
      ContainsThirdChar(url, GenreParam);
      AllGenresUrlHasNoN(page);
      assert false;
    }
  }

  // ---------------------------------------------------------------------------
  // handleSwipe
  // ---------------------------------------------------------------------------

  datatype Toast = Toast(title: string, description: string, duration: nat)

  const LikedTitle := "Liked"
  const LikedSuffix := " has been added to your matches"
  const ToastDuration := 1500

  /** The notification shown after a swipe. */
  function SwipeToast(direction: string, movie: TmdbMovie): (t: Option<Toast>)
    ensures t.Some? <==> direction == "right"
    ensures t.Some? ==> t.value.title == LikedTitle && t.value.duration == ToastDuration
    ensures t.Some? ==> StartsWith(t.value.description, movie.title)
  {
    if direction == "right" then
      var d := movie.title + LikedSuffix;
      assert d[..|movie.title|] == movie.title;
      Some(Toast(LikedTitle, d, ToastDuration))
    else None
  }

  // ---------------------------------------------------------------------------
  // The page state
  // ---------------------------------------------------------------------------

  class DiscoverPage {
    var selectedGenre: string
    var page: nat
    var selectedMovie: Option<int>
    var isModalOpen: bool

    /** Pages are numbered from one. */
    ghost predicate Valid()
      reads this
    {
      page >= 1
    }

    /** The URL of the catalog query for the current state. */
    function RequestUrl(): string
      reads this
    {
      DiscoverUrl(selectedGenre, page)
    }

    constructor ()
      ensures Valid()
      ensures selectedGenre == AllGenres && page == 1
      ensures selectedMovie == None && !isModalOpen
      ensures RequestUrl() == DiscoverPath + PageParam + "1"
    {
      selectedGenre := AllGenres;
      page := 1;
      selectedMovie := None;
      isModalOpen := false;
    }

    /** `handleSelectGenre`: a new selection starts over at the first page. */
    method SelectGenre(genreId: string)
      requires Valid()
      modifies this
      ensures Valid()
      ensures selectedGenre == genreId && page == 1
      ensures selectedMovie == old(selectedMovie) && isModalOpen == old(isModalOpen)
      ensures RequestUrl() == DiscoverUrl(genreId, 1)
    {
      selectedGenre := genreId;
      page := 1;
    }

    /** `handleInfoClick`: open the detail modal on a movie. */
    method InfoClick(movie: TmdbMovie)
      requires Valid()
      modifies this
      ensures Valid()
      ensures selectedMovie == Some(movie.id) && isModalOpen
      ensures selectedGenre == old(selectedGenre) && page == old(page)
    {
      selectedMovie := Some(movie.id);
      isModalOpen := true;
    }

    /** `handleCloseModal`; the modal's like and dislike buttons do the same. */
    method CloseModal()
      requires Valid()
      modifies this
      ensures Valid()
      ensures !isModalOpen
      ensures selectedMovie == old(selectedMovie)
      ensures selectedGenre == old(selectedGenre) && page == old(page)
    {
      isModalOpen := false;
    }

    method ModalLike()
      requires Valid()
      modifies this
      ensures Valid()
      ensures !isModalOpen
      ensures selectedMovie == old(selectedMovie)
      ensures selectedGenre == old(selectedGenre) && page == old(page)
    {
      CloseModal();
    }

    method ModalDislike()
      requires Valid()
      modifies this
      ensures Valid()
      ensures !isModalOpen
      ensures selectedMovie == old(selectedMovie)
      ensures selectedGenre == old(selectedGenre) && page == old(page)
    {
      CloseModal();
    }

    /**
     * `handleRefresh`, also the deck's `onEmpty`: the next page of the same
     * selection, so the request differs from the one before.
     */
    method Refresh()
      requires Valid()
      modifies this
      ensures Valid()
      ensures page == old(page) + 1 && selectedGenre == old(selectedGenre)
      ensures selectedMovie == old(selectedMovie) && isModalOpen == old(isModalOpen)
      ensures RequestUrl() != old(RequestUrl())
    {
      ghost var before := RequestUrl();
      page := page + 1;
      if RequestUrl() == before {
        DiscoverUrlPageInjective(selectedGenre, page, page - 1);
      }
    }
  }
}

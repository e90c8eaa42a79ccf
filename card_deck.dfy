/**
 * The swipe deck of the client: the movies of the current page, the index of
 * the card on top, the feedback overlay drawn over that card, and the handles
 * of the mounted cards. A value `DeckState` with one function per event is
 * the specification; the class `SwipeDeck` holds the same state in the fields
 * the component overwrites, and each of its methods is proved to perform the
 * corresponding transition.
 */
module CardDeck {
  import opened Wrappers
  import opened Schema

  /** The like/dislike feedback drawn over the top card. */
  datatype Overlay = Overlay(like: bool, visible: bool)

  const Hidden := Overlay(false, false)

  /** The body POSTed to `/api/movies/like` for a swipe. */
  datatype LikePost = LikePost(tmdbId: int, username: string, liked: bool)

  /** What the deck shows: the spinner, the "No more movies!" panel, or the cards. */
  datatype View = Spinner | NoMoreMovies | Cards

  /** The properties one card is rendered with. */
  datatype CardView = CardView(offset: int, isTop: bool, overlay: Option<Overlay>)

  /**
   * `cardRefs[i]` says whether `childRefs.current[i]` holds the handle of a
   * mounted card (a truthy value) or is empty (`null` or a hole).
   */
  datatype DeckState = DeckState(
    movies: seq<TmdbMovie>,
    currentIndex: nat,
    lastDirection: Option<string>,
    overlay: Overlay,
    cardRefs: seq<bool>)

  /** The cursor never passes the end of the current list. */
  predicate DeckInvariant(s: DeckState)
  {
    s.currentIndex <= |s.movies|
  }

  /** `Array(n).fill(0).map((_, i) => childRefs.current[i] || null)`. */
  function RebuildRefs(refs: seq<bool>, n: nat): (r: seq<bool>)
    ensures |r| == n
    ensures forall i :: 0 <= i < n && i < |refs| ==> r[i] == refs[i]
    ensures forall i :: |refs| <= i < n ==> !r[i]
  {
    seq(n, i requires 0 <= i < n => i < |refs| && refs[i])
  }

  /** The reset effect that runs when a new movie list arrives. */
  function OnNewMovies(s: DeckState, movies: seq<TmdbMovie>): (r: DeckState)
    ensures DeckInvariant(r)
  {
    s.(movies := movies, currentIndex := 0, cardRefs := RebuildRefs(s.cardRefs, |movies|))
  }

  /** `childRefs.current[index] = el`: writing past the end grows the array with holes. */
  function SetRef(refs: seq<bool>, index: nat, present: bool): (r: seq<bool>)
    ensures |r| == if index < |refs| then |refs| else index + 1
    ensures r[index] == present
    ensures forall i :: 0 <= i < |r| && i != index ==> r[i] == (i < |refs| && refs[i])
  {
    if index < |refs| then refs[index := present]
    else refs + seq(index - |refs|, _ => false) + [present]
  }

  function OnRefAttached(s: DeckState, index: nat, present: bool): DeckState
  {
    s.(cardRefs := SetRef(s.cardRefs, index, present))
  }

  /** `canSwipe`. */
  predicate CanSwipe(s: DeckState)
  {
    s.currentIndex < |s.movies|
  }

  /** `childRefs.current[currentIndex]` is truthy. */
  predicate TopCardMounted(s: DeckState)
  {
    s.currentIndex < |s.cardRefs| && s.cardRefs[s.currentIndex]
  }

  /**
   * `swiped(direction, index)`, delivered by the card library when the card at
   * `index` leaves: the cursor moves behind it, the overlay is hidden, and the
   * card's movie is reported to `onSwipe`.
   */
  function OnSwiped(s: DeckState, direction: string, index: nat): (r: (DeckState, TmdbMovie))
    requires index < |s.movies|
    ensures DeckInvariant(r.0)
  {
    (s.(lastDirection := Some(direction), currentIndex := index + 1, overlay := Hidden), s.movies[index])
  }

  /**
   * `swipe(dir)`, from the like and dislike buttons: when a mounted top card
   * exists, the overlay shows the direction and a like record is posted for
   * the top movie; otherwise nothing happens.
   */
  function OnSwipe(s: DeckState, dir: string, username: string): (r: (DeckState, Option<LikePost>))
  {
    if CanSwipe(s) && TopCardMounted(s) then
      (s.(overlay := Overlay(dir == "right", true)),
       Some(LikePost(s.movies[s.currentIndex].id, username, dir == "right")))
    else (s, None)
  }

  /** The likes query is invalidated only after a right swipe whose post succeeded. */
  predicate InvalidatesLikes(dir: string, postSucceeded: bool)
  {
    postSucceeded && dir == "right"
  }

  /** The condition of the effect that calls `onEmpty`. */
  predicate FiresOnEmpty(s: DeckState)
  {
    s.currentIndex >= |s.movies| && |s.movies| > 0
  }

  function Render(s: DeckState, isLoading: bool): View
  {
    if isLoading then Spinner
    else if |s.movies| == 0 || s.currentIndex >= |s.movies| then NoMoreMovies
    else Cards
  }

  /** The card at position `index`: its rank from the top, whether it is on top, and its overlay. */
  function CardAt(s: DeckState, index: nat): (c: CardView)
    ensures c.isTop <==> c.offset == 0
    ensures c.overlay.Some? <==> c.isTop
    ensures c.overlay.Some? ==> c.overlay.value == s.overlay
  {
    CardView(index - s.currentIndex, index == s.currentIndex,
             if index == s.currentIndex then Some(s.overlay) else None)
  }

  /** Swiping the top card once per direction in `dirs`, collecting the movies reported. */
  function SwipeTopCards(s: DeckState, dirs: seq<string>): (r: (DeckState, seq<TmdbMovie>))
    requires s.currentIndex + |dirs| <= |s.movies|
    decreases |dirs|
  {
    if |dirs| == 0 then (s, [])
    else
      var (next, movie) := OnSwiped(s, dirs[0], s.currentIndex);
      var (last, rest) := SwipeTopCards(next, dirs[1..]);
      (last, [movie] + rest)
  }

  /**
   * A new list resets the cursor to its first card: the deck shows cards
   * exactly when the list is not empty, and `onEmpty` does not fire.
   */
  lemma NewMoviesReset(s: DeckState, movies: seq<TmdbMovie>)
    ensures OnNewMovies(s, movies).currentIndex == 0
    ensures OnNewMovies(s, movies).movies == movies
    ensures CanSwipe(OnNewMovies(s, movies)) <==> |movies| > 0
    ensures !FiresOnEmpty(OnNewMovies(s, movies))
    ensures Render(OnNewMovies(s, movies), false) == Cards <==> |movies| > 0
  {
  }

  /**
   * Swiping the top cards one after another consumes the list strictly in
   * order: the cursor advances by one per swipe, the movies reported are the
   * next ones of the list, and the list itself does not change.
   */
  lemma {:induction false} SwipeTopCardsInOrder(s: DeckState, dirs: seq<string>)
    requires s.currentIndex + |dirs| <= |s.movies|
    ensures SwipeTopCards(s, dirs).0.currentIndex == s.currentIndex + |dirs|
    ensures SwipeTopCards(s, dirs).0.movies == s.movies
    ensures SwipeTopCards(s, dirs).1 == s.movies[s.currentIndex..s.currentIndex + |dirs|]
    decreases |dirs|
  {
    if |dirs| > 0 {
      var next := OnSwiped(s, dirs[0], s.currentIndex).0;
      SwipeTopCardsInOrder(next, dirs[1..]);
      assert s.movies[s.currentIndex..s.currentIndex + |dirs|]
          == [s.movies[s.currentIndex]] + s.movies[next.currentIndex..next.currentIndex + |dirs| - 1];
    }
  }

  /**
   * After k swipes on a freshly received list of n movies: the cursor is at k,
   * a card can still be swiped iff k < n, and `onEmpty` fires iff k == n > 0.
   */
  lemma SwipesUntilExhausted(s: DeckState, movies: seq<TmdbMovie>, dirs: seq<string>)
    requires |dirs| <= |movies|
    ensures var after := SwipeTopCards(OnNewMovies(s, movies), dirs).0;
            && after.currentIndex == |dirs|
            && (CanSwipe(after) <==> |dirs| < |movies|)
            && (FiresOnEmpty(after) <==> |dirs| == |movies| && |movies| > 0)
            && (Render(after, false) == NoMoreMovies <==> |dirs| == |movies|)
  {
    SwipeTopCardsInOrder(OnNewMovies(s, movies), dirs);
  }

  /**
   * `swipe` posts exactly when a mounted top card exists; the post is for the
   * top movie with `liked` true iff the direction is "right", the overlay
   * shows the same verdict, and neither the cursor nor the list moves.
   */
  lemma SwipeEffect(s: DeckState, dir: string, username: string)
    ensures var (next, post) := OnSwipe(s, dir, username);
            && (post.Some? <==> CanSwipe(s) && TopCardMounted(s))
            && next.currentIndex == s.currentIndex && next.movies == s.movies && next.cardRefs == s.cardRefs
            && (post.Some? ==> post.value.tmdbId == s.movies[s.currentIndex].id
                               && post.value.username == username
                               && post.value.liked == (dir == "right")
                               && next.overlay == Overlay(post.value.liked, true))
            && (post.None? ==> next == s)
  {
  }

  /** The empty panel shows exactly when the list is empty or used up, and always when `onEmpty` fires. */
  lemma EmptyViewIff(s: DeckState)
    requires DeckInvariant(s)
    ensures Render(s, false) == NoMoreMovies <==> |s.movies| == 0 || s.currentIndex == |s.movies|
    ensures Render(s, false) == Cards <==> CanSwipe(s)
    ensures FiresOnEmpty(s) ==> Render(s, false) == NoMoreMovies
    ensures FiresOnEmpty(s) <==> s.currentIndex == |s.movies| && |s.movies| > 0
  {
  }

  // ---------------------------------------------------------------------------
  // Which gestures record a like
  // ---------------------------------------------------------------------------

  /** How the top card leaves: through the like/dislike buttons, or dragged off by hand. */
  datatype Gesture = Button(dir: string) | Drag(dir: string)

  /**
   * One gesture on a deck with a card left, as the component handles it. A
   * button runs `swipe` (overlay and post); once the card has left, the card
   * library reports it to `swiped`. A drag reaches `swiped` directly, which
   * posts nothing. Returns the new state and the records posted.
   */
  function GestureAsWritten(s: DeckState, g: Gesture, username: string): (r: (DeckState, seq<LikePost>))
    requires CanSwipe(s)
  {
    match g
    case Button(dir) =>
      var (shown, post) := OnSwipe(s, dir, username);
      if post.Some? then (OnSwiped(shown, dir, shown.currentIndex).0, [post.value]) else (shown, [])
    case Drag(dir) => (OnSwiped(s, dir, s.currentIndex).0, [])
  }

  /** The corrected `swipe`: it only shows the overlay and starts the card's exit. */
  function OnSwipeCorrected(s: DeckState, dir: string): DeckState
  {
    if CanSwipe(s) && TopCardMounted(s) then s.(overlay := Overlay(dir == "right", true)) else s
  }

  /** The corrected `swiped`: the record of the card that left is posted here, whatever moved it. */
  function OnSwipedPersisting(s: DeckState, direction: string, index: nat, username: string): (r: (DeckState, LikePost))
    requires index < |s.movies|
    ensures r.0 == OnSwiped(s, direction, index).0
  {
    (OnSwiped(s, direction, index).0, LikePost(s.movies[index].id, username, direction == "right"))
  }

  function GestureCorrected(s: DeckState, g: Gesture, username: string): (r: (DeckState, seq<LikePost>))
    requires CanSwipe(s)
  {
    match g
    case Button(dir) =>
      if TopCardMounted(s) then
        var shown := OnSwipeCorrected(s, dir);
        var (next, post) := OnSwipedPersisting(shown, dir, shown.currentIndex, username);
        (next, [post])
      else (s, [])
    case Drag(dir) =>
      var (next, post) := OnSwipedPersisting(s, dir, s.currentIndex, username);
      (next, [post])
  }

  /** A run of drags: each one takes the top card off. */
  function DragsAsWritten(s: DeckState, dirs: seq<string>, username: string): (r: (DeckState, seq<LikePost>))
    requires s.currentIndex + |dirs| <= |s.movies|
    decreases |dirs|
  {
    if |dirs| == 0 then (s, [])
    else
      var (next, posts) := GestureAsWritten(s, Drag(dirs[0]), username);
      var (last, rest) := DragsAsWritten(next, dirs[1..], username);
      (last, posts + rest)
  }

  function DragsCorrected(s: DeckState, dirs: seq<string>, username: string): (r: (DeckState, seq<LikePost>))
    requires s.currentIndex + |dirs| <= |s.movies|
    decreases |dirs|
  {
    if |dirs| == 0 then (s, [])
    else
      var (next, posts) := GestureCorrected(s, Drag(dirs[0]), username);
      var (last, rest) := DragsCorrected(next, dirs[1..], username);
      (last, posts + rest)
  }

  /** The record the design expects for the card at `index` swiped in direction `dir`. */
  function ExpectedPost(s: DeckState, index: nat, dir: string, username: string): LikePost
    requires index < |s.movies|
  {
    LikePost(s.movies[index].id, username, dir == "right")
  }

  /**
   * As written, dragging cards off the deck records nothing: the cursor walks
   * through the cards exactly as for any swipe, and no like is posted.
   */
  lemma {:induction false} DragsRecordNothing(s: DeckState, dirs: seq<string>, username: string)
    requires s.currentIndex + |dirs| <= |s.movies|
    ensures DragsAsWritten(s, dirs, username).1 == []
    ensures DragsAsWritten(s, dirs, username).0 == SwipeTopCards(s, dirs).0
    decreases |dirs|
  {
    if |dirs| > 0 {
      DragsRecordNothing(OnSwiped(s, dirs[0], s.currentIndex).0, dirs[1..], username);
    }
  }

  /** The smallest case: one movie dragged to the right advances the deck and posts no like. */
  lemma DragRightOnOneMovie(m: TmdbMovie, username: string)
    ensures var s := DeckState([m], 0, None, Hidden, [true]);
            var (next, posts) := GestureAsWritten(s, Drag("right"), username);
            && next.currentIndex == 1 && FiresOnEmpty(next)
            && posts == []
  {
  }

  /**
   * Corrected, every dragged card posts exactly one record, in deck order,
   * for that card's movie with `liked` true iff it went right; the deck
   * moves exactly as before.
   */
  lemma {:induction false} DragsRecordEachCard(s: DeckState, dirs: seq<string>, username: string)
    requires s.currentIndex + |dirs| <= |s.movies|
    ensures DragsCorrected(s, dirs, username).0 == SwipeTopCards(s, dirs).0
    ensures |DragsCorrected(s, dirs, username).1| == |dirs|
    ensures forall i :: 0 <= i < |dirs| ==>
              DragsCorrected(s, dirs, username).1[i] == ExpectedPost(s, s.currentIndex + i, dirs[i], username)
    decreases |dirs|
  {
    if |dirs| > 0 {
      var next := OnSwiped(s, dirs[0], s.currentIndex).0;
      DragsRecordEachCard(next, dirs[1..], username);
      var rest := DragsCorrected(next, dirs[1..], username).1;
      var posts := DragsCorrected(s, dirs, username).1;
      assert posts == [ExpectedPost(s, s.currentIndex, dirs[0], username)] + rest;
      forall i | 0 <= i < |dirs|
        ensures posts[i] == ExpectedPost(s, s.currentIndex + i, dirs[i], username)
      {
        if i > 0 {
          assert posts[i] == rest[i - 1];
          assert dirs[1..][i - 1] == dirs[i];
        }
      }
    }
  }

  /**
   * Corrected, a single gesture of either kind posts one record exactly when
   * the top card leaves, and the buttons still do nothing without a mounted
   * card, so the deck state agrees with the code's.
   */
  lemma EveryGestureRecordsOnce(s: DeckState, g: Gesture, username: string)
    requires CanSwipe(s)
    ensures var (next, posts) := GestureCorrected(s, g, username);
            && next.movies == s.movies
            && (next.currentIndex == s.currentIndex + 1 <==> g.Drag? || TopCardMounted(s))
            && (next.currentIndex == s.currentIndex + 1 ==>
                  posts == [ExpectedPost(s, s.currentIndex, g.dir, username)])
            && (next.currentIndex != s.currentIndex + 1 ==> posts == [] && next == s)
            && next == GestureAsWritten(s, g, username).0
  {
  }

  class SwipeDeck {
    var movies: seq<TmdbMovie>
    var currentIndex: nat
    var lastDirection: Option<string>
    var overlay: Overlay
    var cardRefs: seq<bool>

    function State(): DeckState
      reads this
    {
      DeckState(movies, currentIndex, lastDirection, overlay, cardRefs)
    }

    ghost predicate Valid()
      reads this
    {
      DeckInvariant(State())
    }

    /** Mounting with a first list: the initial state, then the reset effect. */
    constructor (initial: seq<TmdbMovie>)
      ensures Valid()
      ensures State() == OnNewMovies(DeckState(initial, 0, None, Hidden, []), initial)
    {
      movies := initial;
      currentIndex := 0;
      lastDirection := None;
      overlay := Hidden;
      cardRefs := RebuildRefs([], |initial|);
    }

    /** A new `movies` prop: the reset effect. */
    method ReceiveMovies(next: seq<TmdbMovie>)
      requires Valid()
      modifies this
      ensures Valid()
      ensures State() == OnNewMovies(old(State()), next)
      ensures movies == next && currentIndex == 0
      ensures |cardRefs| == |next|
      ensures overlay == old(overlay) && lastDirection == old(lastDirection)
    {
      movies := next;
      currentIndex := 0;
      cardRefs := RebuildRefs(cardRefs, |next|);
    }

    /** The ref callback of the card at `index`. */
    method AttachRef(index: nat, present: bool)
      requires Valid()
      modifies this
      ensures Valid()
      ensures State() == OnRefAttached(old(State()), index, present)
      ensures cardRefs[index] == present
      ensures movies == old(movies) && currentIndex == old(currentIndex) && overlay == old(overlay)
    {
      cardRefs := SetRef(cardRefs, index, present);
    }

    /** `swiped(direction, index)`; returns the movie handed to `onSwipe`. */
    method Swiped(direction: string, index: nat) returns (reported: TmdbMovie)
      requires Valid() && index < |movies|
      modifies this
      ensures Valid()
      ensures (State(), reported) == OnSwiped(old(State()), direction, index)
      ensures currentIndex == index + 1 && overlay == Hidden && reported == movies[index]
      ensures movies == old(movies) && cardRefs == old(cardRefs)
    {
      lastDirection := Some(direction);
      currentIndex := index + 1;
      reported := movies[index];
      overlay := Hidden;
    }

    /**
     * `swipe(dir)`; returns the body posted, if any, and whether the likes
     * query is invalidated, given whether the post succeeded. A failed post
     * is only logged: nothing is rolled back.
     */
    method Swipe(dir: string, username: string, postSucceeded: bool) returns (post: Option<LikePost>, invalidate: bool)
      requires Valid()
      modifies this
      ensures Valid()
      ensures (State(), post) == OnSwipe(old(State()), dir, username)
      ensures invalidate <==> post.Some? && InvalidatesLikes(dir, postSucceeded)
      ensures currentIndex == old(currentIndex) && movies == old(movies)
    {
      post := None;
      invalidate := false;
      if currentIndex < |movies| && currentIndex < |cardRefs| && cardRefs[currentIndex] {
        overlay := Overlay(dir == "right", true);
        post := Some(LikePost(movies[currentIndex].id, username, dir == "right"));
        if postSucceeded && dir == "right" {
          invalidate := true;
        }
      }
    }
  }
}

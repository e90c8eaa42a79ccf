# MovieMatcher core in Dafny

MovieMatcher is a "Tinder for movies" web app. The server keeps user likes
in an in-memory store, `MemStorage`. The store also has a movie table
(`saveMovie`, `getMovie`, `getMovieByTmdbId`), but no route calls it: the like
routes use only `saveLike` and `getLikedMoviesByUsername`.

The client turns catalog image paths and runtimes into display strings and
shows a deck of movie cards. The like and dislike buttons post a like or
dislike record for the top card. Dragging a card off the deck moves to the next
card but posts nothing (see "## Findings"). The Discover page chooses which
genre and page of the catalog the deck shows.

server/mockData.ts holds fixture genres and movies and a `mockMovieDetails`
builder. Nothing imports it: every catalog route calls the upstream API, and
server/routes.ts:9 falls back to a built-in key when none is configured. It is
modelled as written.

This project models those pieces and proves their properties:

| file | module | models |
|---|---|---|
| `wrappers.dfy`, `seqs.dfy`, `strings.dfy` | `Wrappers`, `Seqs`, `Strings` | `Option`; `Array.find`/`filter` as `Find`/`FirstIndex`/`Filter`; decimal rendering of numbers |
| `ordered_map.dfy` | `OrderedMaps` | a JavaScript `Map` with numeric keys: entries plus insertion order, which `values()` follows |
| `schema.dfy` | `Schema` | the row and insert shapes of `movies` and `user_likes`, the catalog movie and genre shapes |
| `storage.dfy` | `Storage` | `MemStorage`: the class with its two maps and two id counters, plus the pure tables that specify each method |
| `tmdb.dfy` | `TmdbFormat` | `getTmdbImageUrl` and `formatRuntime`, with inverse parsers |
| `mock_data.dfy` | `MockData` | the fixture genres and movies, transcribed; `mockMovieDetails` |
| `card_deck.dfy` | `CardDeck` | the swipe deck's state and events (`DeckState` plus its transition functions), and the class `SwipeDeck` that performs them |
| `discover.dfy` | `Discover` | the catalog request URL and its parser, the swipe notification, and the class `DiscoverPage` with the page's state and handlers |

The JavaScript semantics the model spells out:

- A `Map` iterates in insertion order. `set` on a key that is already present
  keeps that key's position (`OrderedMaps.Set`).
- `x || null` turns `""` into `null` (`Storage.OrNull`). `!path` is true for
  `null` and for `""` (`TmdbFormat.MissingPath`).
- `%` truncates toward zero (`TmdbFormat.JsRem`). `Math.floor(m / 60)`
  floors, which is Dafny's `/` for the divisor 60.
- `Math.random()` in `mockMovieDetails` becomes the parameter
  `draw = Math.floor(Math.random() * 60)`, with `0 <= draw < 60`.

## Model

| member | source | states |
|---|---|---|
| Seqs.FirstIndex | server/storage.ts:40-44 | the index found satisfies the predicate and no earlier element does; none is found iff no element satisfies it (the search under `Array.find`) |
| Seqs.Find | server/storage.ts:90-94 | `Array.find`: the element found is in the sequence and satisfies the predicate; none is found iff no element does |
| Seqs.FindStep | server/storage.ts:40-44 | one step of the first-match search: the head if it matches, otherwise the search over the tail |
| Seqs.FindUnique | server/storage.ts:90-94 | when the matching element is unique, `find` returns that element |
| Seqs.Filter | server/storage.ts:96-100 | `Array.filter`: every kept element comes from the input and satisfies the predicate; every matching input element is kept |
| Seqs.FilterAppend | server/storage.ts:96-100 | filtering distributes over concatenation, which lets a loop filter element by element |
| Seqs.Count | server/mockData.ts:171-175 | how many elements match: at most the length, and zero iff none match |
| Strings.DigitChar | client/src/lib/tmdb.ts:47-50 | the character rendered for a digit is a decimal digit with that value |
| Strings.DigitValue | client/src/lib/tmdb.ts:47-50 | a digit character's value is below ten |
| Strings.NatToString | client/src/lib/tmdb.ts:47-50 | the template rendering of a non-negative number is a non-empty digit string, with no leading zero unless the number is 0 |
| Strings.IntToString | client/src/lib/tmdb.ts:47-50 | the template rendering of an integer: a minus sign and then digits for negatives, the plain digits otherwise |
| Strings.ParseNatToString | client/src/lib/tmdb.ts:47-50 | parsing the rendering of a number gives the number back |
| Strings.NatToStringInjective | client/src/pages/Discover.tsx:22 | different numbers have different renderings |
| OrderedMaps.Empty | server/storage.ts:30-31 | `new Map()` is a valid map with no entries |
| OrderedMaps.Values | server/storage.ts:41 | `Array.from(map.values())` has one value per key, in key order |
| OrderedMaps.Set | server/storage.ts:62 | `map.set(k, v)` stores `v` under `k`; if `k` was present its position is kept, otherwise `k` is appended |
| OrderedMaps.ValuesAreEntries | server/storage.ts:41 | every listed value is the entry stored under some key |
| OrderedMaps.EntriesAreListed | server/storage.ts:41 | every stored entry is listed among the values |
| OrderedMaps.SetExistingValues | server/storage.ts:75 | overwriting a present key replaces its value at the same position of `values()` and changes nothing else |
| OrderedMaps.SetNewValues | server/storage.ts:86 | setting a new key appends its value at the end of `values()` |
| Storage.EmptyLikeTable | server/storage.ts:29-34 | the empty like table satisfies the store invariant: ids below the counter, each like stored under its own id, at most one like per (movie, user) pair |
| Storage.FindLike | server/storage.ts:90-94 | no contract of its own: `getLikeByTmdbIdAndUsername`'s search, the first stored like of the (movie, user) pair; its properties are stated by Storage.NoStoredLikeFor, Storage.ListedLikeIsStored and Storage.MemStorage.GetLikeByTmdbIdAndUsername |
| Storage.LikedBy | server/storage.ts:96-100 | no contract of its own: `getLikedMoviesByUsername`'s filter; Storage.LikedByMembers states its contents and Storage.MemStorage.GetLikedMoviesByUsername its order |
| Storage.StoredFlag | server/storage.ts:73 | no contract of its own: the stored flag is `liked` when given and `true` when missing, used by Storage.UpsertLike and the lemmas about it |
| Storage.ListedLikeIsStored | server/storage.ts:90-94 | a like returned by the lookup is the one stored under its id |
| Storage.NoStoredLikeFor | server/storage.ts:90-94 | when the lookup finds nothing, no stored like belongs to that (movie, user) pair |
| Storage.UpsertLike | server/storage.ts:66-88 | `saveLike` keeps the store invariant (one like per pair, ids from the counter); the result belongs to the pair, is stored under its own id, and is liked unless `liked` was explicitly `false` |
| Storage.UpsertLikeUpdatesExisting | server/storage.ts:67-77 | when the pair already has a like, that record is re-saved under the same id, with the same key order and counter and only `liked` replaced |
| Storage.UpsertLikeInsertsNew | server/storage.ts:79-87 | when the pair has no like, a record with the next id is appended and the counter advances by one |
| Storage.UpsertLikeSingleRecord | server/storage.ts:66-88 | after a save, the only record of that pair is the one returned |
| Storage.LastWriteWins | server/storage.ts:66-88 | saving the same pair twice keeps the record id, the key order and the counter of the first save, and stores the flag of the second |
| Storage.LikedByMembers | server/storage.ts:96-100 | a like is in the user's liked list iff it is stored, belongs to that user, and is liked |
| Storage.LikedByAfterUpsert | server/storage.ts:96-100 | after a save, a record for that movie is in the user's liked list iff it is the saved record and the stored flag is true |
| Storage.LikeThenDislike | server/storage.ts:66-100 | after a like of a movie on an empty store, the user's liked list is exactly that record; after a dislike of the same movie, the list is empty |
| Storage.SaveLikes | server/storage.ts:66-88 | a sequence of saves keeps the store invariant, and the counter grows by at most one per save |
| Storage.EmptyMovieTable | server/storage.ts:29-34 | the empty movie table satisfies the invariant: ids below the counter, each movie stored under its own id, `tmdbId` unique |
| Storage.FindMovieByTmdbId | server/storage.ts:40-44 | no contract of its own: the first stored movie with the `tmdbId`; its properties are stated by Storage.NoStoredMovieFor, Storage.ListedMovieIsStored and Storage.MemStorage.GetMovieByTmdbId |
| Storage.OrNull | server/storage.ts:56-59 | no contract of its own: the fallback to null of an optional string field, where `""` becomes null; Storage.InsertMovieNew states its effect on each field |
| Storage.NewMovie | server/storage.ts:53-61 | no contract of its own: the record built for a new movie; Storage.InsertMovieNew states its id and its fields |
| Storage.ListedMovieIsStored | server/storage.ts:40-44 | a movie returned by the lookup is the one stored under its id |
| Storage.NoStoredMovieFor | server/storage.ts:40-44 | when the lookup finds nothing, no stored movie has that `tmdbId` |
| Storage.InsertMovieIfAbsent | server/storage.ts:46-64 | `saveMovie` keeps the invariant (`tmdbId` stays unique); the result has the requested `tmdbId` and is stored under its own id |
| Storage.InsertMovieExisting | server/storage.ts:47-50 | a movie whose `tmdbId` is already stored leaves the store unchanged and returns the stored record, ignoring the new fields |
| Storage.InsertMovieNew | server/storage.ts:52-63 | a new movie gets the next id and is appended, the counter advances by one, and empty strings in the optional fields are stored as null |
| Storage.InsertMovieIdempotent | server/storage.ts:46-64 | saving any movie with the same `tmdbId` again changes nothing and returns the first record |
| Storage.MemStorage.constructor | server/storage.ts:29-34 | both maps start empty and both counters start at 1 |
| Storage.MemStorage.GetMovie | server/storage.ts:36-38 | the movie returned has the requested id; nothing is returned iff no stored movie has that id |
| Storage.MemStorage.GetMovieByTmdbId | server/storage.ts:40-44 | the loop returns the first stored movie, in insertion order, that has the `tmdbId` |
| Storage.MemStorage.SaveMovie | server/storage.ts:46-64 | the new movie map, counter and result are those of `InsertMovieIfAbsent`, and the likes are unchanged |
| Storage.MemStorage.SaveLike | server/storage.ts:66-88 | the new like map, counter and result are those of `UpsertLike`, and the movies are unchanged |
| Storage.MemStorage.GetLikeByTmdbIdAndUsername | server/storage.ts:90-94 | the loop returns the first stored like of the (movie, user) pair |
| Storage.MemStorage.GetLikedMoviesByUsername | server/storage.ts:96-100 | the loop returns the user's liked records, in insertion order |
| TmdbFormat.GetTmdbImageUrl | client/src/lib/tmdb.ts:12-22 | no contract of its own: `getTmdbImageUrl`; TmdbFormat.ImageUrlRoundTrip (placeholder for a missing path, path recoverable otherwise) and TmdbFormat.ImageUrlInjective state its properties |
| TmdbFormat.MissingPath | client/src/lib/tmdb.ts:13 | no contract of its own: the `!path` test, true for a missing path and for `""`; TmdbFormat.ImageUrlRoundTrip states its effect on the URL |
| TmdbFormat.ImageUrlRoundTrip | client/src/lib/tmdb.ts:12-22 | a missing or empty path gives the placeholder of its kind; otherwise the path can be read back out of the URL |
| TmdbFormat.SizeCharOfUrl | client/src/lib/tmdb.ts:20-21 | the size segment of the URL is `w5…` for posters and `w1…` for backdrops |
| TmdbFormat.ImageUrlInjective | client/src/lib/tmdb.ts:12-22 | different (path, kind) pairs give different image URLs |
| TmdbFormat.JsRem | client/src/lib/tmdb.ts:45 | JavaScript `%`: the remainder takes the sign of the dividend and is smaller in magnitude than the divisor |
| TmdbFormat.SplitRuntime | client/src/lib/tmdb.ts:44-45 | a non-negative runtime splits into hours and minutes below 60 that add back up; a negative one gives a negative hour count and a non-positive remainder |
| TmdbFormat.FormatRuntime | client/src/lib/tmdb.ts:41-51 | no contract of its own: `formatRuntime`; TmdbFormat.NotAvailableIffMissing, TmdbFormat.FormatRuntimeShapes, TmdbFormat.FormatRuntimeRoundTrip, TmdbFormat.FormatRuntimeInjective and TmdbFormat.NegativeRuntime state its properties |
| TmdbFormat.FirstAfterDigits | client/src/lib/tmdb.ts:47-50 | the first non-digit marker after a run of digits is found right after the digits |
| TmdbFormat.ParseMinutesOf | client/src/lib/tmdb.ts:47 | `"<r>m"` reads back as `r` minutes |
| TmdbFormat.ParseMinutesOnly | client/src/lib/tmdb.ts:47 | `"<r>m"` parses as 0 hours and `r` minutes |
| TmdbFormat.ParseAtHours | client/src/lib/tmdb.ts:48-50 | a rendering that starts with `"<h>h"` is read as `h` hours followed by the rest |
| TmdbFormat.ParseHoursOnly | client/src/lib/tmdb.ts:48 | `"<h>h"` parses as `h` hours and 0 minutes |
| TmdbFormat.ParseMinutesAfterHours | client/src/lib/tmdb.ts:50 | the `" <r>m"` after the hours reads back as `r` minutes |
| TmdbFormat.ParseHoursAndMinutes | client/src/lib/tmdb.ts:50 | `"<h>h <r>m"` parses as `h` hours and `r` minutes |
| TmdbFormat.FormatRuntimeRoundTrip | client/src/lib/tmdb.ts:41-51 | a positive runtime's rendering parses back to hours and minutes below 60 that add up to the runtime |
| TmdbFormat.FormatRuntimeInjective | client/src/lib/tmdb.ts:41-51 | different positive runtimes render differently |
| TmdbFormat.NotAvailableIffMissing | client/src/lib/tmdb.ts:42 | the rendering is "N/A" iff the runtime is missing or 0 |
| TmdbFormat.FormatRuntimeShapes | client/src/lib/tmdb.ts:47-50 | under an hour gives `"<m>m"`, whole hours give `"<h>h"`, and anything else gives `"<h>h <r>m"` |
| TmdbFormat.NegativeRuntime | client/src/lib/tmdb.ts:44-50 | a negative runtime is not rejected: -30 renders as "-1h -30m", whose parts do not add up to -30 |
| MockData.MockMovieIds | server/mockData.ts:28-149 | there are twelve fixture movies with ids 1 to 12, in order, each id used once |
| MockData.MockMovieDetails | server/mockData.ts:152-177 | no contract of its own: `mockMovieDetails` with the random draw as a parameter; MockData.DetailsFoundIff, MockData.DetailsOfMovie, MockData.DetailsGenres, MockData.DetailsNeverUnknown and MockData.DetailsFixedParts state its properties |
| MockData.GenreOf | server/mockData.ts:159 | no contract of its own: the listed genre with the id, or `{id, "Unknown"}`; MockData.GenreOfLookup and MockData.ListedGenreKnown state it |
| MockData.GenresOf | server/mockData.ts:158-160 | no contract of its own: the ids resolved one by one; MockData.GenresLineUp states length, order and ids |
| MockData.DetailGenres | server/mockData.ts:158-160 | no contract of its own: the optional chaining `genre_ids?.map(...)`, where a missing list stays missing; MockData.DetailsGenres states it for the fixtures |
| MockData.DetailsFoundIff | server/mockData.ts:152-154 | details exist iff a fixture movie has the id, which is iff the id is between 1 and 12 |
| MockData.DetailsOfMovie | server/mockData.ts:152-176 | the details are the fixture movie with genres resolved, runtime `90 + draw`, `adult` false and the fixed credits |
| MockData.GenreOfLookup | server/mockData.ts:158-160 | a genre id resolves to the listed genre with that id, or to `{id, "Unknown"}` when none is listed |
| MockData.GenresLineUp | server/mockData.ts:158-160 | the resolved genres keep the length and the order of the ids |
| MockData.DetailsGenres | server/mockData.ts:156-160 | the details' genres are the fixture movie's genre ids, resolved one by one |
| MockData.FixtureGenreIdsListed | server/mockData.ts:4-149 | every genre id used by a fixture movie is one of the listed genres |
| MockData.ListedGenresNamed | server/mockData.ts:4-25 | no listed genre is called "Unknown" |
| MockData.ListedGenreKnown | server/mockData.ts:4-25 | a listed genre id resolves to its listed genre, not to the "Unknown" fallback |
| MockData.DetailsNeverUnknown | server/mockData.ts:152-160 | for the fixture movies, no resolved genre is the "Unknown" fallback |
| MockData.DetailsFixedParts | server/mockData.ts:161-175 | the details are never adult, the cast has five members, the crew has exactly one Director, and the runtime is between 90 and 149 |
| CardDeck.RebuildRefs | client/src/components/TinderCardDeck.tsx:36-38 | the rebuilt handle array has one slot per movie; it keeps the old handles and leaves the new slots empty |
| CardDeck.OnNewMovies | client/src/components/TinderCardDeck.tsx:33-39 | after the reset the cursor is within the new list |
| CardDeck.SetRef | client/src/components/TinderCardDeck.tsx:120 | assigning a handle at an index stores it there and leaves other slots as they were; past the end the array grows with empty slots |
| CardDeck.OnRefAttached | client/src/components/TinderCardDeck.tsx:120 | no contract of its own: the ref callback `childRefs.current[index] = el` as a deck transition, which only changes the handles; CardDeck.SwipeDeck.AttachRef and CardDeck.SetRef state its effect |
| CardDeck.OnSwiped | client/src/components/TinderCardDeck.tsx:54-59 | after a card leaves, the cursor stays within the list |
| CardDeck.CanSwipe | client/src/components/TinderCardDeck.tsx:52 | no contract of its own: `currentIndex < movies.length`; CardDeck.NewMoviesReset, CardDeck.SwipesUntilExhausted and CardDeck.EmptyViewIff state when it holds |
| CardDeck.TopCardMounted | client/src/components/TinderCardDeck.tsx:66 | no contract of its own: `childRefs.current[currentIndex]` is truthy; CardDeck.SwipeEffect states that `swipe` acts only when it holds |
| CardDeck.OnSwipe | client/src/components/TinderCardDeck.tsx:65-91 | no contract of its own: `swipe(dir)`; CardDeck.SwipeEffect states its effect in both directions |
| CardDeck.InvalidatesLikes | client/src/components/TinderCardDeck.tsx:85-87 | no contract of its own: invalidation after a successful right swipe; CardDeck.SwipeDeck.Swipe states when the flag is set |
| CardDeck.FiresOnEmpty | client/src/components/TinderCardDeck.tsx:41-46 | no contract of its own: the exhaustion effect's condition; CardDeck.SwipesUntilExhausted and CardDeck.EmptyViewIff state when it holds |
| CardDeck.Render | client/src/components/TinderCardDeck.tsx:94-113 | no contract of its own: spinner, empty panel or cards; CardDeck.EmptyViewIff and CardDeck.NewMoviesReset state which view shows |
| CardDeck.CardAt | client/src/components/TinderCardDeck.tsx:127-131 | a card is on top iff its offset from the cursor is 0, and only the top card carries the overlay |
| CardDeck.NewMoviesReset | client/src/components/TinderCardDeck.tsx:33-46 | a new list puts the cursor at 0; a card can be swiped and cards are shown iff the list is non-empty; `onEmpty` does not fire |
| CardDeck.SwipeTopCardsInOrder | client/src/components/TinderCardDeck.tsx:54-59 | swiping top cards one after another advances the cursor by one each time and reports the list's movies in order |
| CardDeck.SwipeTopCards | client/src/components/TinderCardDeck.tsx:54-59 | no contract of its own: k successive `swiped` calls on the top card; CardDeck.SwipeTopCardsInOrder and CardDeck.SwipesUntilExhausted state its effect |
| CardDeck.SwipesUntilExhausted | client/src/components/TinderCardDeck.tsx:41-52 | after k swipes on a fresh list of n movies, a swipe is possible iff k < n, `onEmpty` fires iff k = n > 0, and the empty panel shows iff k = n |
| CardDeck.SwipeEffect | client/src/components/TinderCardDeck.tsx:65-91 | `swipe` posts iff a mounted top card exists; the post is for the top movie, with `liked` true iff the direction is right; the overlay shows the same verdict; otherwise nothing changes |
| CardDeck.EmptyViewIff | client/src/components/TinderCardDeck.tsx:102 | the empty panel shows iff the list is empty or used up, and cards show iff a swipe is possible; `onEmpty` fires only when the empty panel shows |
| CardDeck.GestureAsWritten | client/src/components/TinderCardDeck.tsx:54-91 | no contract of its own: one gesture as written; a button runs `swipe` and then `swiped`, and a drag runs `swiped` only. CardDeck.DragRightOnOneMovie and CardDeck.EveryGestureRecordsOnce are about it |
| CardDeck.DragsAsWritten | client/src/components/TinderCardDeck.tsx:54-59 | no contract of its own: a run of drags as written; CardDeck.DragsRecordNothing states what it posts |
| CardDeck.DragsRecordNothing | client/src/components/TinderCardDeck.tsx:54-59 | as written, any run of drags moves the cursor exactly as the swipes do and posts no record at all |
| CardDeck.DragRightOnOneMovie | client/src/components/TinderCardDeck.tsx:54-59 | as written, dragging the only movie to the right empties the deck, fires `onEmpty`, and posts no like |
| CardDeck.OnSwipeCorrected | client/src/components/TinderCardDeck.tsx:65-75 | no contract of its own: the corrected `swipe`, which only shows the overlay when a mounted top card exists |
| CardDeck.OnSwipedPersisting | client/src/components/TinderCardDeck.tsx:54-59 | the corrected `swiped` leaves the deck exactly as `swiped` does, and also yields the record of the card that left |
| CardDeck.GestureCorrected | client/src/components/TinderCardDeck.tsx:54-91 | no contract of its own: one gesture with the post moved into `swiped`; CardDeck.EveryGestureRecordsOnce states it |
| CardDeck.DragsCorrected | client/src/components/TinderCardDeck.tsx:54-59 | no contract of its own: a run of drags, corrected; CardDeck.DragsRecordEachCard states it |
| CardDeck.ExpectedPost | client/src/components/TinderCardDeck.tsx:79-83 | no contract of its own: the body `swipe` posts for a card, which is `{tmdbId, username, liked: dir === 'right'}` |
| CardDeck.DragsRecordEachCard | client/src/components/TinderCardDeck.tsx:54-91 | corrected, a run of drags leaves the deck as the code does and posts one record per card, in deck order, with `liked` true iff that card went right |
| CardDeck.EveryGestureRecordsOnce | client/src/components/TinderCardDeck.tsx:54-91 | corrected, each gesture posts one record for the top movie exactly when the top card leaves, and nothing otherwise; a button does nothing without a mounted card; the deck state is the code's |
| CardDeck.SwipeDeck.constructor | client/src/components/TinderCardDeck.tsx:26-39 | the initial state followed by the reset effect |
| CardDeck.SwipeDeck.ReceiveMovies | client/src/components/TinderCardDeck.tsx:33-39 | the fields after a new list are those of `OnNewMovies` |
| CardDeck.SwipeDeck.AttachRef | client/src/components/TinderCardDeck.tsx:120 | the handle array after a ref callback is that of `SetRef` |
| CardDeck.SwipeDeck.Swiped | client/src/components/TinderCardDeck.tsx:54-59 | the fields and the reported movie are those of `OnSwiped` |
| CardDeck.SwipeDeck.Swipe | client/src/components/TinderCardDeck.tsx:65-91 | the fields and the post are those of `OnSwipe`; the likes query is invalidated iff a post was made, the direction is right, and the post succeeded |
| Discover.GenreQuery | client/src/pages/Discover.tsx:22 | no contract of its own: the `genre=<id>&` part, present unless the genre is "all"; Discover.DiscoverUrlGenreIff and Discover.DiscoverUrlRoundTrip state its effect on the URL |
| Discover.DiscoverUrl | client/src/pages/Discover.tsx:22 | the URL starts with the discover endpoint |
| Discover.ParsePageOf | client/src/pages/Discover.tsx:22 | the `page=<n>` tail reads back as `n` |
| Discover.FirstAmpAfter | client/src/pages/Discover.tsx:22 | in `<genre>&…`, the first `&` is the one right after the genre |
| Discover.ParseGenreTailOf | client/src/pages/Discover.tsx:22 | `<genre>&page=<n>` reads back as that genre and page |
| Discover.ParseQueryOneGenre | client/src/pages/Discover.tsx:22 | the query string of a single genre reads back as that genre and page |
| Discover.ParseQueryAllGenres | client/src/pages/Discover.tsx:22 | a query string without a genre reads back as "all" and the page |
| Discover.DiscoverUrlRoundTrip | client/src/pages/Discover.tsx:22 | the URL determines the genre selection and the page it was built from |
| Discover.DiscoverUrlPageInjective | client/src/pages/Discover.tsx:22 | two pages of the same selection give different URLs |
| Discover.AllGenresUrlHasNoN | client/src/pages/Discover.tsx:22 | the URL for all genres contains no 'n' |
| Discover.DiscoverUrlGenreIff | client/src/pages/Discover.tsx:22 | the URL contains `genre=` iff the selection is not "all" |
| Discover.SwipeToast | client/src/pages/Discover.tsx:41-49 | a notification is raised iff the direction is "right"; it is titled "Liked", lasts 1500 ms, and its text begins with the movie title |
| Discover.DiscoverPage.constructor | client/src/pages/Discover.tsx:12-15 | the page starts with genre "all", page 1, no selected movie and the modal closed; the first request has no genre parameter |
| Discover.DiscoverPage.RequestUrl | client/src/pages/Discover.tsx:19-22 | no contract of its own: the URL fetched for the page's current query key (genre, page); Discover.DiscoverPage.SelectGenre and Discover.DiscoverPage.Refresh state how it changes |
| Discover.DiscoverPage.SelectGenre | client/src/pages/Discover.tsx:31-34 | selecting a genre sets it and resets the page to 1; the modal state is unchanged |
| Discover.DiscoverPage.InfoClick | client/src/pages/Discover.tsx:36-39 | the selected movie becomes the clicked movie's id and the modal opens; genre and page are unchanged |
| Discover.DiscoverPage.CloseModal | client/src/pages/Discover.tsx:51-53 | only the modal closes; the genre, the page and the selected movie are kept |
| Discover.DiscoverPage.ModalLike | client/src/pages/Discover.tsx:83-85 | Discover's `onLike` callback only closes the modal, keeping the genre, the page and the selected movie; MovieDetail posts the like before calling it |
| Discover.DiscoverPage.ModalDislike | client/src/pages/Discover.tsx:86-88 | Discover's `onDislike` callback only closes the modal, keeping the genre, the page and the selected movie; MovieDetail posts the dislike before calling it |
| Discover.DiscoverPage.Refresh | client/src/pages/Discover.tsx:55-60 | the page goes up by exactly one and the genre is kept, so the next request differs from the previous one |

## Findings

| source | as written | input that shows it | evidently intended | confidence | as-written member | corrected member |
|---|---|---|---|---|---|---|
| client/src/components/TinderCardDeck.tsx:54-91 | only `swipe`, which the like and dislike buttons call, posts to `/api/movies/like`; a card dragged off the deck goes straight to `swiped`, which moves the cursor and posts nothing | a deck with one movie, dragged to the right: the deck is used up and no like is recorded | every swipe of either kind records one like or dislike for the card that left | medium, not executed | CardDeck.DragsRecordNothing | CardDeck.DragsRecordEachCard |

The corrected step moves the post from `swipe` into `swiped`. `swipe` keeps only the overlay, and the card's exit follows through the card library. `CardDeck.EveryGestureRecordsOnce` proves that the corrected step leaves the deck in the same state as the code does. Every cursor and exhaustion lemma therefore holds for both. The class `SwipeDeck` keeps the code as written.

## Left out

- Network and I/O are left out. That covers the `fetch` and its `response.ok` check, `apiRequest`, the react-query cache, `refetch`, `invalidateQueries` (modelled as a returned flag) and `toast` (modelled as a returned value). The model is about the values these calls receive, not the calls.
- The 200 ms `setTimeout` in `swipe(dir)` and the card library's gesture handling are left out. How a card leaves the screen is not modelled: a card that leaves is delivered as `Swiped`, and `CardDeck.Gesture` only records whether a button or a drag moved it.
- Asynchronous ordering is left out. Each `MemStorage` method runs as one atomic step (its `await` only waits on the store's own code), and so does each swipe post.
- React's effect scheduling is not modelled. The effects are functions of the state, the exhaustion effect is the predicate `FiresOnEmpty`, and a new list arrives atomically through `OnNewMovies`. React behaves differently in one case. Say the deck is used up (`currentIndex = n`) and react-query already has the next page cached, with between 1 and n movies. The render that delivers it runs the exhaustion effect (client/src/components/TinderCardDeck.tsx:41-46) before the reset. That effect sees the old cursor and a new `onEmpty`, so `onEmpty` fires again and a page is skipped. CardDeck.NewMoviesReset: its "`onEmpty` does not fire" holds only because `OnNewMovies` is atomic, and does not cover that case.
- `InsertUserLike.liked` is an `Option<bool>`, and `None` stands for a missing `liked`. The store tests `like.liked !== undefined`, so a `null` would be stored as `liked: null`, but a null never reaches it. server/routes.ts:79 parses the body with `insertUserLikeSchema`, where `liked` is an optional boolean, and answers 400 to a null.
- Numbers are unbounded integers. The client's runtime is an integer: fractional runtimes and `NaN` are left out, and so is the width of a JavaScript number. `vote_average` of a catalog movie is a Dafny `real`.
- `Math.random()` in `mockMovieDetails` becomes the `draw` parameter.
- The `mockGenres` response wrapper `{ genres: [...] }` is flattened to the list itself.
- `formatReleaseDate` in client/src/lib/tmdb.ts is not part of this model: it depends on `Date` and on locale formatting.
- server/routes.ts and server/tmdbApi.ts are not part of this model (Express handlers, axios calls, `Math.random` and `Date`), and neither are the scripts, MovieCard's styling, GenreFilter and the other pages.
- client/src/components/MovieDetail.tsx is not part of this model. Its like and dislike buttons (`handleLike` and `handleDislike`, lines 29-70) POST `{tmdbId, username, liked}` to `/api/movies/like` and then call Discover's `onLike`/`onDislike`. `handleLike` also invalidates the likes query and shows a toast. On a failed post they show an error toast and leave the modal open. Only the callbacks they end with are modelled (`ModalLike`, `ModalDislike`).
- Discover.DiscoverUrlRoundTrip: holds only for genre ids without an `&`. The catalog's genre ids are numerals; the URL does not escape the genre.

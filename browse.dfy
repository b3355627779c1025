/**
  /browse: fetch a category's movies, load the details of the first ten
  (skipping those whose details fail), and page through them with Previous
  and Next buttons; Watch Now hands the movie on screen to the torrent menu
  of /watchparty.

  TMDB's answers are inputs: `fetch` is the category's list and
  `details` maps a TMDB id to the outcome of its details request.
*/
module Browse {
  import opened Js
  import Tmdb
  import Torrents
  import opened Sessions
  import WatchParty

  type Movie = Tmdb.Movie
  type Details = Tmdb.Details

  /** The browseData entry of one user. */
  datatype BrowseSession = BrowseSession(category: string, movies: seq<Details>, currentIndex: int)

  /** The movie on screen is one of the loaded movies. */
  predicate OnScreen(s: BrowseSession) {
    0 <= s.currentIndex < |s.movies|
  }

  /** Every stored session shows a loaded movie. */
  predicate AllOnScreen(entries: map<string, BrowseSession>) {
    forall k :: k in entries ==> OnScreen(entries[k])
  }

  /** Which buttons are disabled. */
  datatype Buttons = Buttons(prevDisabled: bool, nextDisabled: bool, watchDisabled: bool)

  datatype Reply =
    | NotConfigured
    | Expired
    | NoMovies
    | Failed(message: string)
    | LoadFailed                                   // no details could be loaded
    | Page(movie: Details, position: nat, total: nat, buttons: Buttons)
    | NoMore                                       // out of bounds
    | NoImdbId
    | Handed(offer: WatchParty.Reply)

  const TypeError := "TypeError"

  function Min(a: int, b: int): int { if a < b then a else b }

  /** Where the movies come from. */
  datatype Source = Trending | ByGenre(genreId: Option<nat>)

  /** 'popular' is the trending list; any other category is GENRE_IDS'
      entry for it, undefined when there is none. */
  function SourceFor(category: string): (src: Source)
    ensures src == Trending <==> category == "popular"
    ensures src.ByGenre? ==> (src.genreId.Some? <==> category in Tmdb.GenreIds)
  {
    if category == "popular" then Trending
    else ByGenre(if category in Tmdb.GenreIds then Some(Tmdb.GenreIds[category]) else None)
  }

  /** The categories the command offers. */
  const Categories := ["popular", "action", "comedy", "scifi", "horror", "drama"]

  /** Every category the command offers names a list: none asks for an
      undefined genre. */
  lemma CategoriesHaveSources()
    ensures forall i :: 0 <= i < |Categories| ==>
      SourceFor(Categories[i]) == Trending || SourceFor(Categories[i]).genreId.Some?
  {
    Tmdb.GenreIdsSize();
  }

  // ---------------------------------------------------------------------
  // Loading

  /** The details that loaded, in list order. */
  function Loaded(ms: seq<Movie>, details: int -> Result<Details>): (ds: seq<Details>)
    ensures |ds| <= |ms|
  {
    if ms == [] then []
    else
      (match details(ms[0].tmdbId) case Ok(d) => [d] case Err(_) => []) + Loaded(ms[1..], details)
  }

  lemma {:induction false} LoadedAppend(ms: seq<Movie>, m: Movie, details: int -> Result<Details>)
    ensures Loaded(ms + [m], details) ==
      Loaded(ms, details) + (match details(m.tmdbId) case Ok(d) => [d] case Err(_) => [])
  {
    if ms == [] {
      assert ms + [m] == [m];
    } else {
      assert (ms + [m])[1..] == ms[1..] + [m];
      LoadedAppend(ms[1..], m, details);
    }
  }

  /** When no request fails, the loaded list is the details of each movie,
      in order. */
  lemma {:induction false} LoadedAll(ms: seq<Movie>, details: int -> Result<Details>)
    requires forall i :: 0 <= i < |ms| ==> details(ms[i].tmdbId).Ok?
    ensures |Loaded(ms, details)| == |ms|
    ensures forall i :: 0 <= i < |ms| ==> Loaded(ms, details)[i] == details(ms[i].tmdbId).value
  {
    if ms != [] {
      LoadedAll(ms[1..], details);
      assert Loaded(ms, details) == [details(ms[0].tmdbId).value] + Loaded(ms[1..], details);
    }
  }

  /** Every loaded movie is the details of one of the listed movies. */
  lemma {:induction false} LoadedFrom(ms: seq<Movie>, details: int -> Result<Details>)
    ensures forall d :: d in Loaded(ms, details) ==> exists i :: 0 <= i < |ms| && details(ms[i].tmdbId) == Ok(d)
  {
    if ms != [] {
      LoadedFrom(ms[1..], details);
      forall d | d in Loaded(ms, details)
        ensures exists i :: 0 <= i < |ms| && details(ms[i].tmdbId) == Ok(d)
      {
        if details(ms[0].tmdbId) == Ok(d) {
        } else {
          assert d in Loaded(ms[1..], details);
          var i :| 0 <= i < |ms[1..]| && details(ms[1..][i].tmdbId) == Ok(d);
          assert ms[i + 1] == ms[1..][i];
        }
      }
    }
  }

  /** The loop that loads the first ten movies, skipping failures. */
  method Preload(movies: seq<Movie>, details: int -> Result<Details>) returns (loaded: seq<Details>)
    ensures loaded == Loaded(Prefix(movies, 10), details)
    ensures |loaded| <= 10
  {
    loaded := [];
    var n := Min(10, |movies|);
    var i := 0;
    while i < n
      invariant 0 <= i <= n
      invariant loaded == Loaded(movies[..i], details)
    {
      LoadedAppend(movies[..i], movies[i], details);
      assert movies[..i + 1] == movies[..i] + [movies[i]];
      match details(movies[i].tmdbId) {
        case Ok(d) => loaded := loaded + [d];
        case Err(_) =>
      }
      i := i + 1;
    }
    assert movies[..n] == Prefix(movies, 10);
  }

  // ---------------------------------------------------------------------
  // Paging

  /** The buttons under the movie at index i: Previous off on the first,
      Next off on the last, Watch Now off without an IMDb id. */
  function ButtonsAt(ms: seq<Details>, i: nat): Buttons
    requires i < |ms|
  {
    Buttons(i == 0, i >= |ms| - 1, !Tmdb.Given(ms[i].imdbId))
  }

  /** customId.split('-')[1] */
  function ControlType(customId: string): Option<string> {
    Field(Split(customId, '-'), 1)
  }

  /** Next moves one on, Previous one back, anything else stays. */
  function Step(index: int, kind: Option<string>): int {
    if kind == Some("next") then index + 1 else if kind == Some("prev") then index - 1 else index
  }

  /** A disabled button is exactly one whose press would leave the list. */
  lemma DisabledIffBlocked(ms: seq<Details>, i: nat)
    requires i < |ms|
    ensures ButtonsAt(ms, i).prevDisabled <==> !(0 <= Step(i, Some("prev")) < |ms|)
    ensures ButtonsAt(ms, i).nextDisabled <==> !(0 <= Step(i, Some("next")) < |ms|)
  {
  }

  /** The command: fetch, load, store the session at the first movie.
      `source` is the list it fetched, `loaded` the details it loaded. */
  method Command(store: Store<BrowseSession>, userId: string, apiKey: Option<string>, category: string,
                 fetch: Result<seq<Movie>>, details: int -> Result<Details>)
    returns (source: Option<Source>, reply: Reply)
    requires store.Valid() && AllOnScreen(store.entries)
    modifies store
    ensures store.Valid() && AllOnScreen(store.entries)
    ensures apiKey.None? || Trim(apiKey.value) == "" ==> reply == NotConfigured && source.None?
    ensures apiKey.Some? && Trim(apiKey.value) != "" ==>
      source == Some(SourceFor(category))
      && (fetch.Err? ==> reply == Failed(fetch.error))
      && (fetch == Ok([]) ==> reply == NoMovies)
      && (fetch.Ok? && fetch.value != [] ==>
            var loaded := Loaded(Prefix(fetch.value, 10), details);
            (loaded == [] ==> reply == LoadFailed)
            && (loaded != [] ==>
                  reply == Page(loaded[0], 1, |loaded|, ButtonsAt(loaded, 0))
                  && store.entries == old(store.entries)[userId := BrowseSession(category, loaded, 0)]))
    ensures !reply.Page? ==> store.entries == old(store.entries)
  {
    if apiKey.None? || Trim(apiKey.value) == "" {
      return None, NotConfigured;
    }
    source := Some(SourceFor(category));
    if fetch.Err? {
      return source, Failed(fetch.error);
    }
    if fetch.value == [] {
      return source, NoMovies;
    }
    var loaded := Preload(fetch.value, details);
    if loaded == [] {
      return source, LoadFailed;
    }
    store.Put(userId, BrowseSession(category, loaded, 0));
    reply := Page(loaded[0], 1, |loaded|, Buttons(true, |loaded| <= 1, !Tmdb.Given(loaded[0].imdbId)));
  }

  /** Previous and Next: move within the loaded movies, or reply that
      there are no more and stay. */
  method Navigate(store: Store<BrowseSession>, userId: string, customId: string)
    returns (reply: Reply)
    requires store.Valid()
    modifies store
    ensures store.Valid()
    ensures AllOnScreen(old(store.entries)) ==> AllOnScreen(store.entries)
    ensures userId !in old(store.entries) ==> reply == Expired && store.entries == old(store.entries)
    ensures userId in old(store.entries) ==>
      var s := old(store.entries)[userId];
      var next := Step(s.currentIndex, ControlType(customId));
      (!(0 <= next < |s.movies|) ==> reply == NoMore && store.entries == old(store.entries))
      && (0 <= next < |s.movies| ==>
            reply == Page(s.movies[next], next + 1, |s.movies|, ButtonsAt(s.movies, next))
            && store.entries == old(store.entries)[userId := s.(currentIndex := next)])
  {
    var session := store.Get(userId);
    if session.None? {
      return Expired;
    }
    var s := session.value;
    var next := Step(s.currentIndex, ControlType(customId));
    if next < 0 || next >= |s.movies| {
      return NoMore;
    }
    store.Set(userId, s.(currentIndex := next));
    reply := Page(s.movies[next], next + 1, |s.movies|, ButtonsAt(s.movies, next));
  }

  /** Watch Now: hand the movie on screen to the torrent menu, when it has
      an IMDb id.  `torrents` is the outcome of its movie search. */
  method Watch(store: Store<BrowseSession>, watchStore: Store<WatchParty.Session>, userId: string,
               torrents: seq<Torrents.Torrent>)
    returns (reply: Reply)
    requires store.Valid() && watchStore.Valid()
    modifies watchStore
    ensures watchStore.Valid()
    ensures userId !in store.entries ==> reply == Expired && watchStore.entries == old(watchStore.entries)
    ensures userId in store.entries && !OnScreen(store.entries[userId]) ==>
      reply == Failed(TypeError) && watchStore.entries == old(watchStore.entries)
    ensures userId in store.entries && OnScreen(store.entries[userId]) ==>
      var s := store.entries[userId];
      var movie := s.movies[s.currentIndex];
      (!Tmdb.Given(movie.imdbId) ==> reply == NoImdbId && watchStore.entries == old(watchStore.entries))
      && (Tmdb.Given(movie.imdbId) ==>
            reply.Handed?
            && (torrents == [] ==> reply.offer == WatchParty.NoTorrents && watchStore.entries == old(watchStore.entries))
            && (torrents != [] ==>
                  reply.offer == WatchParty.QualityMenu(WatchParty.TorrentOptions(movie.imdbId.value, torrents))
                  && watchStore.entries == old(watchStore.entries)[userId :=
                       WatchParty.Session(Some(WatchParty.MovieRecord(movie)), Some(torrents), None, None)]))
  {
    var session := store.Get(userId);
    if session.None? {
      return Expired;
    }
    var s := session.value;
    if !OnScreen(s) {
      return Failed(TypeError);
    }
    var movie := s.movies[s.currentIndex];
    if !Tmdb.Given(movie.imdbId) {
      return NoImdbId;
    }
    var offer := WatchParty.OfferMovie(watchStore, userId, movie, torrents);
    reply := Handed(offer);
  }
}

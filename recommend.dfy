/**
  /recommend: three select menus ask for a genre, a rating band and a
  period; the last one fetches the genre's first TMDB page, filters it by
  the answers, and recommends one of the first ten that remain, with a
  Watch Now and a Try Again button.  Try Again repeats the draw, leaving
  out the movie just recommended; Watch Now hands the movie to the torrent
  menu of /watchparty.

  TMDB's answers and the random draw are inputs: `fetch` is the genre
  page, `details` the details of the movie drawn, and `draw` any natural
  number standing for Math.random().
*/
module Recommend {
  import opened Js
  import Tmdb
  import Torrents
  import opened Sessions
  import WatchParty

  type Movie = Tmdb.Movie

  datatype Preferences = Preferences(genre: Option<string>, rating: Option<string>, year: Option<string>)

  /** The recommendData entry of one user. */
  datatype RecommendSession = RecommendSession(step: nat, preferences: Preferences, recommended: Option<Tmdb.Details>)

  /** { step: 1, preferences: {} } */
  const FirstStep := RecommendSession(1, Preferences(None, None, None), None)

  datatype Reply =
    | NotConfigured                 // no TMDB key
    | Expired                       // no session
    | GenreMenu
    | RatingMenu
    | YearMenu
    | Unanswered                    // a select of another type: no reply
    | NoMovies
    | Failed(message: string)
    | Recommendation(movie: Tmdb.Details, watchId: string, watchDisabled: bool)
    | NoImdbId
    | Handed(offer: WatchParty.Reply)

  /** The TypeError reading a property of a movie that is not there. */
  const TypeError := "TypeError"

  function Min(a: int, b: int): int { if a < b then a else b }

  /** The values of the genre menu. */
  const OfferedGenres := ["action", "comedy", "drama", "scifi", "horror", "romance"]

  /** GENRE_IDS[genre] || GENRE_IDS.action */
  function GenreId(genre: Option<string>): (id: nat)
    ensures genre.Some? && genre.value in Tmdb.GenreIds ==> id == Tmdb.GenreIds[genre.value]
    ensures genre.None? || genre.value !in Tmdb.GenreIds ==> id == 28
  {
    if genre.Some? && genre.value in Tmdb.GenreIds && Tmdb.GenreIds[genre.value] != 0 then Tmdb.GenreIds[genre.value]
    else Tmdb.GenreIds["action"]
  }

  /** Every genre the menu offers has its own id: none falls back to
      action's. */
  lemma OfferedGenresHaveIds()
    ensures forall i :: 0 <= i < |OfferedGenres| ==> OfferedGenres[i] in Tmdb.GenreIds
    ensures forall i :: 1 <= i < |OfferedGenres| ==> GenreId(Some(OfferedGenres[i])) != 28
  {
    Tmdb.GenreIdsSize();
  }

  // ---------------------------------------------------------------------
  // Filtering

  /** The rating band's bound, in tenths: 8.0 for 'high', 7.0 for 'good'
      and 6.0 for anything else. */
  function MinTenths(rating: Option<string>): nat {
    if rating == Some("high") then 80 else if rating == Some("good") then 70 else 60
  }

  /** parseFloat(m.rating) >= bound, where 'N/A' reads as NaN and passes
      no bound. */
  predicate RatedAtLeast(m: Movie, tenths: nat) {
    m.rating.Tenths? && m.rating.n >= tenths
  }

  /** The period's first year: 2023 for 'new', 2020 for 'recent', none for
      anything else. */
  function SinceYear(year: Option<string>): Option<int> {
    if year == Some("new") then Some(2023) else if year == Some("recent") then Some(2020) else None
  }

  /** parseInt(m.year) >= since, where a year that is not a number passes
      no bound. */
  predicate ReleasedSince(m: Movie, since: int) {
    ParseInt(m.year).Int? && ParseInt(m.year).n >= since
  }

  /** What the answers ask of a movie. */
  predicate Matches(m: Movie, prefs: Preferences) {
    RatedAtLeast(m, MinTenths(prefs.rating))
    && (SinceYear(prefs.year).None? || ReleasedSince(m, SinceYear(prefs.year).value))
  }

  /** The rating filter, then the year filter, then the fallback to the
      first ten movies when nothing passed. */
  function Candidates(movies: seq<Movie>, prefs: Preferences): (c: seq<Movie>)
    ensures |c| <= |movies|
    ensures forall m :: m in c ==> m in movies
    ensures movies != [] ==> c != []
  {
    var tenths := MinTenths(prefs.rating);
    var rated := Filter(movies, (m: Movie) => RatedAtLeast(m, tenths));
    var dated := match SinceYear(prefs.year)
                 case None => rated
                 case Some(since) => Filter(rated, (m: Movie) => ReleasedSince(m, since));
    if dated == [] then Prefix(movies, 10) else dated
  }

  /** The candidates are the movies that match the answers, or, when none
      does, the first ten; either way there is one whenever the page has
      one. */
  lemma CandidatesMatch(movies: seq<Movie>, prefs: Preferences)
    ensures movies != [] ==> Candidates(movies, prefs) != []
    ensures (exists m :: m in movies && Matches(m, prefs)) ==>
      (forall m :: m in Candidates(movies, prefs) <==> m in movies && Matches(m, prefs))
      && Candidates(movies, prefs) == Filter(movies, (m: Movie) => Matches(m, prefs))
    ensures (forall m :: m in movies ==> !Matches(m, prefs)) ==> Candidates(movies, prefs) == Prefix(movies, 10)
  {
    var tenths := MinTenths(prefs.rating);
    var rated := Filter(movies, (m: Movie) => RatedAtLeast(m, tenths));
    var dated := match SinceYear(prefs.year)
                 case None => rated
                 case Some(since) => Filter(rated, (m: Movie) => ReleasedSince(m, since));
    assert forall m :: m in dated <==> m in movies && Matches(m, prefs);
    match SinceYear(prefs.year) {
      case None =>
        FilterSame(movies, (m: Movie) => RatedAtLeast(m, tenths), (m: Movie) => Matches(m, prefs));
      case Some(since) =>
        FilterFilter(movies, (m: Movie) => RatedAtLeast(m, tenths), (m: Movie) => ReleasedSince(m, since),
                     (m: Movie) => Matches(m, prefs));
    }
    if forall m :: m in movies ==> !Matches(m, prefs) {
      match SinceYear(prefs.year)
      case None =>
        FilterNone(movies, (m: Movie) => RatedAtLeast(m, tenths));
      case Some(since) =>
        FilterNone(rated, (m: Movie) => ReleasedSince(m, since));
    }
    CandidatesNonEmpty(movies, prefs);
  }

  lemma CandidatesNonEmpty(movies: seq<Movie>, prefs: Preferences)
    ensures movies != [] ==> Candidates(movies, prefs) != []
  {
    if movies != [] {
      assert movies[0] in Prefix(movies, 10);
    }
  }

  /** filtered[Math.floor(Math.random() * Math.min(10, filtered.length))]:
      one of the first ten, none from an empty list. */
  function Pick(c: seq<Movie>, draw: nat): (m: Option<Movie>)
    ensures m.Some? <==> c != []
    ensures m.Some? ==> exists i :: 0 <= i < Min(10, |c|) && m.value == c[i]
  {
    if c == [] then None else Some(c[draw % Min(10, |c|)])
  }

  /** Every one of the first ten can be drawn. */
  lemma PickReachesEach(c: seq<Movie>, i: nat)
    requires i < Min(10, |c|)
    ensures Pick(c, i) == Some(c[i])
  {
  }

  /** Try Again leaves out the movie just recommended, when more than one
      candidate is left. */
  function Exclude(c: seq<Movie>, recommended: Option<Tmdb.Details>): (r: seq<Movie>)
    ensures recommended.None? || |c| <= 1 ==> r == c
    ensures recommended.Some? && |c| > 1 ==>
      forall m :: m in r <==> m in c && m.tmdbId != recommended.value.tmdbId
    ensures recommended.Some? && |c| > 1 ==>
      forall m :: multiset(r)[m] == if m.tmdbId != recommended.value.tmdbId then multiset(c)[m] else 0
  {
    if recommended.Some? && |c| > 1 then
      var keep := (m: Movie) => m.tmdbId != recommended.value.tmdbId;
      forall m ensures multiset(Filter(c, keep))[m] == if keep(m) then multiset(c)[m] else 0 {
        FilterCount(c, keep, m);
      }
      Filter(c, keep)
    else c
  }

  /** Try Again keeps the remaining candidates in their order: excluding
      from a list made of two parts excludes from each part. */
  lemma ExcludeKeepsOrder(a: seq<Movie>, b: seq<Movie>, recommended: Tmdb.Details)
    requires |a| > 1 && |b| > 1
    ensures Exclude(a + b, Some(recommended)) == Exclude(a, Some(recommended)) + Exclude(b, Some(recommended))
  {
    FilterAppend(a, b, (m: Movie) => m.tmdbId != recommended.tmdbId);
  }

  /** With two candidates of different ids, Try Again still has one to
      draw, and never the movie just recommended. */
  lemma ExcludeLeavesAnother(c: seq<Movie>, recommended: Tmdb.Details, i: nat, j: nat)
    requires i < j < |c| && c[i].tmdbId != c[j].tmdbId
    ensures Exclude(c, Some(recommended)) != []
    ensures forall m :: m in Exclude(c, Some(recommended)) ==> m.tmdbId != recommended.tmdbId
  {
    var r := Exclude(c, Some(recommended));
    if c[i].tmdbId != recommended.tmdbId {
      assert c[i] in r;
    } else {
      assert c[j] in r;
    }
  }

  /** The candidates are all one movie id: Try Again has nothing left to
      draw and fails. */
  lemma ExcludeEmptiesOneId(c: seq<Movie>, recommended: Tmdb.Details)
    requires |c| > 1 && forall i :: 0 <= i < |c| ==> c[i].tmdbId == recommended.tmdbId
    ensures Exclude(c, Some(recommended)) == []
    ensures Pick(Exclude(c, Some(recommended)), 0).None?
  {
    FilterNone(c, (m: Movie) => m.tmdbId != recommended.tmdbId);
  }

  // ---------------------------------------------------------------------
  // Buttons

  /** The Watch Now button's custom id: the IMDb id, or the TMDB id. */
  function WatchId(d: Tmdb.Details): string {
    "recommend" + "-" + ("watch" + "-" + if Tmdb.Given(d.imdbId) then d.imdbId.value else IntToString(d.tmdbId))
  }

  /** customId.split('-')[1] */
  function ControlType(customId: string): Option<string> {
    Field(Split(customId, '-'), 1)
  }

  /** The Watch Now button is read as a watch button, whatever id it
      carries. */
  lemma WatchIdIsWatch(d: Tmdb.Details)
    ensures ControlType(WatchId(d)) == Some("watch")
  {
    var rest := if Tmdb.Given(d.imdbId) then d.imdbId.value else IntToString(d.tmdbId);
    SecondField("recommend", '-', "watch", rest);
  }

  /** The reply that recommends a movie: its Watch Now button is disabled
      exactly when it has no IMDb id. */
  function Recommended(d: Tmdb.Details): (r: Reply)
    ensures r.Recommendation? && r.movie == d
    ensures r.watchDisabled <==> !Tmdb.Given(d.imdbId)
    ensures ControlType(r.watchId) == Some("watch")
  {
    WatchIdIsWatch(d);
    Recommendation(d, WatchId(d), !Tmdb.Given(d.imdbId))
  }

  // ---------------------------------------------------------------------
  // The handlers

  /** The command: with a TMDB key, start a session at step 1. */
  method Start(store: Store<RecommendSession>, userId: string, apiKey: Option<string>)
    returns (reply: Reply)
    requires store.Valid()
    modifies store
    ensures store.Valid()
    ensures apiKey.None? || Trim(apiKey.value) == "" ==> reply == NotConfigured && store.entries == old(store.entries)
    ensures apiKey.Some? && Trim(apiKey.value) != "" ==>
      reply == GenreMenu && store.entries == old(store.entries)[userId := FirstStep]
  {
    if apiKey.None? || Trim(apiKey.value) == "" {
      return NotConfigured;
    }
    store.Put(userId, FirstStep);
    reply := GenreMenu;
  }

  /** The three select menus.  `fetch`, `draw` and `details` are used by
      the year menu only; `genreId` is the genre it fetched and `picked`
      the movie whose details it asked for. */
  method Select(store: Store<RecommendSession>, userId: string, customId: string, value: string,
                fetch: Result<seq<Movie>>, draw: nat, details: Result<Tmdb.Details>)
    returns (genreId: Option<nat>, picked: Option<Movie>, reply: Reply)
    requires store.Valid()
    modifies store
    ensures store.Valid()
    ensures userId !in old(store.entries) ==> reply == Expired && store.entries == old(store.entries)
    ensures userId in old(store.entries) ==>
      var s := old(store.entries)[userId];
      var p := s.preferences;
      var kind := ControlType(customId);
      (kind == Some("genre") ==>
         reply == RatingMenu
         && store.entries == old(store.entries)[userId := s.(step := 2, preferences := p.(genre := Some(value)))])
      && (kind == Some("rating") ==>
         reply == YearMenu
         && store.entries == old(store.entries)[userId := s.(step := 3, preferences := p.(rating := Some(value)))])
      && (kind != Some("genre") && kind != Some("rating") && kind != Some("year") ==>
           reply == Unanswered && store.entries == old(store.entries))
      && (kind == Some("year") ==>
           var answered := s.(preferences := p.(year := Some(value)));
           genreId == Some(GenreId(p.genre))
           && (fetch.Err? ==> reply == Failed(fetch.error))
           && (fetch == Ok([]) ==> reply == NoMovies)
           && (fetch.Ok? && fetch.value != [] ==>
                 picked == Pick(Candidates(fetch.value, answered.preferences), draw) && picked.Some?
                 && reply == (if details.Ok? then Recommended(details.value) else Failed(details.error)))
           && store.entries == old(store.entries)[userId :=
                if reply.Recommendation? then answered.(recommended := Some(details.value)) else answered])
  {
    genreId, picked := None, None;
    var session := store.Get(userId);
    if session.None? {
      return genreId, picked, Expired;
    }
    var s := session.value;
    var p := s.preferences;
    var kind := ControlType(customId);
    if kind == Some("genre") {
      store.Set(userId, s.(step := 2, preferences := p.(genre := Some(value))));
      return genreId, picked, RatingMenu;
    }
    if kind == Some("rating") {
      store.Set(userId, s.(step := 3, preferences := p.(rating := Some(value))));
      return genreId, picked, YearMenu;
    }
    if kind != Some("year") {
      return genreId, picked, Unanswered;
    }
    var answered := s.(preferences := p.(year := Some(value)));
    store.Set(userId, answered);
    genreId := Some(GenreId(p.genre));
    if fetch.Err? {
      return genreId, picked, Failed(fetch.error);
    }
    if fetch.value == [] {
      return genreId, picked, NoMovies;
    }
    CandidatesNonEmpty(fetch.value, answered.preferences);
    picked := Pick(Candidates(fetch.value, answered.preferences), draw);
    if details.Err? {
      return genreId, picked, Failed(details.error);
    }
    store.Set(userId, answered.(recommended := Some(details.value)));
    reply := Recommended(details.value);
  }

  /** Try Again: the year menu's draw on the stored answers, leaving out
      the movie just recommended. */
  method Again(store: Store<RecommendSession>, userId: string,
               fetch: Result<seq<Movie>>, draw: nat, details: Result<Tmdb.Details>)
    returns (genreId: Option<nat>, picked: Option<Movie>, reply: Reply)
    requires store.Valid()
    modifies store
    ensures store.Valid()
    ensures userId !in old(store.entries) ==> reply == Expired && store.entries == old(store.entries)
    ensures userId in old(store.entries) ==>
      var s := old(store.entries)[userId];
      genreId == Some(GenreId(s.preferences.genre))
      && (fetch.Err? ==> reply == Failed(fetch.error))
      && (fetch == Ok([]) ==> reply == NoMovies)
      && (fetch.Ok? && fetch.value != [] ==>
            picked == Pick(Exclude(Candidates(fetch.value, s.preferences), s.recommended), draw)
            && reply == (if picked.None? then Failed(TypeError)
                         else if details.Ok? then Recommended(details.value) else Failed(details.error)))
      && store.entries == old(store.entries)[userId :=
           if reply.Recommendation? then s.(recommended := Some(details.value)) else s]
  {
    genreId, picked := None, None;
    var session := store.Get(userId);
    if session.None? {
      return genreId, picked, Expired;
    }
    var s := session.value;
    genreId := Some(GenreId(s.preferences.genre));
    if fetch.Err? {
      return genreId, picked, Failed(fetch.error);
    }
    if fetch.value == [] {
      return genreId, picked, NoMovies;
    }
    var c := Exclude(Candidates(fetch.value, s.preferences), s.recommended);
    picked := Pick(c, draw);
    if picked.None? {
      return genreId, picked, Failed(TypeError);
    }
    if details.Err? {
      return genreId, picked, Failed(details.error);
    }
    store.Set(userId, s.(recommended := Some(details.value)));
    reply := Recommended(details.value);
  }

  /** Watch Now: hand the recommended movie to the torrent menu, when it has
      an IMDb id.  `torrents` is the outcome of its movie search. */
  method Watch(store: Store<RecommendSession>, watchStore: Store<WatchParty.Session>, userId: string,
               torrents: seq<Torrents.Torrent>)
    returns (reply: Reply)
    requires store.Valid() && watchStore.Valid()
    modifies watchStore
    ensures watchStore.Valid()
    ensures userId !in store.entries ==> reply == Expired && watchStore.entries == old(watchStore.entries)
    ensures userId in store.entries ==>
      var movie := store.entries[userId].recommended;
      (movie.None? || !Tmdb.Given(movie.value.imdbId) ==> reply == NoImdbId && watchStore.entries == old(watchStore.entries))
      && (movie.Some? && Tmdb.Given(movie.value.imdbId) ==>
          reply.Handed?
          && (torrents == [] ==> reply.offer == WatchParty.NoTorrents && watchStore.entries == old(watchStore.entries))
          && (torrents != [] ==>
                reply.offer == WatchParty.QualityMenu(WatchParty.TorrentOptions(movie.value.imdbId.value, torrents))
                && watchStore.entries == old(watchStore.entries)[userId :=
                     WatchParty.Session(Some(WatchParty.MovieRecord(movie.value)), Some(torrents), None, None)]))
  {
    var session := store.Get(userId);
    if session.None? {
      return Expired;
    }
    var movie := session.value.recommended;
    if movie.None? || !Tmdb.Given(movie.value.imdbId) {
      return NoImdbId;
    }
    var offer := WatchParty.OfferMovie(watchStore, userId, movie.value, torrents);
    reply := Handed(offer);
  }
}

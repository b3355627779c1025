/**
  The TMDB client (TMDBService): the records it makes of a movie list and
  of one movie's details, and the table of genre ids.

  Ratings are kept in tenths: vote_average.toFixed(1) is the one place a
  float is rendered, and a rating is used only through that text.
*/
module Tmdb {
  import opened Js

  const ImageBaseUrl := "https://image.tmdb.org/t/p/w500"

  /** The genre ids of GENRE_IDS. */
  const GenreIds: map<string, nat> := map[
    "action" := 28, "comedy" := 35, "horror" := 27, "scifi" := 878,
    "drama" := 18, "thriller" := 53, "romance" := 10749]

  lemma GenreIdsSize()
    ensures |GenreIds| == 7
    ensures GenreIds.Keys == {"action", "comedy", "horror", "scifi", "drama", "thriller", "romance"}
  {
    assert GenreIds.Keys == {"action", "comedy", "horror", "scifi", "drama", "thriller", "romance"};
  }

  /** A rating as toFixed(1) renders it, or 'N/A'. */
  datatype Rating = NotRated | Tenths(n: nat)

  function RatingText(r: Rating): string {
    match r
    case NotRated => "N/A"
    case Tenths(n) => NatToString(n / 10) + "." + NatToString(n % 10)
  }

  /** A movie of a TMDB list, with the fields the service reads; None is a
      missing or null field. */
  datatype RawMovie = RawMovie(
    id: int,
    title: Option<string>,
    releaseDate: Option<string>,
    voteAverage: Option<nat>,
    voteCount: Option<int>,
    overview: Option<string>,
    posterPath: Option<string>,
    backdropPath: Option<string>)

  datatype Movie = Movie(
    tmdbId: int,
    title: Option<string>,
    year: string,
    rating: Rating,
    votes: int,
    overview: string,
    poster: Option<string>,
    backdrop: Option<string>)

  predicate Given(s: Option<string>) { s.Some? && s.value != "" }

  /** release_date.split('-')[0], or 'N/A' without a date. */
  function Year(releaseDate: Option<string>): (y: string)
    ensures !Given(releaseDate) ==> y == "N/A"
    ensures Given(releaseDate) ==> '-' !in y && StartsWith(releaseDate.value, y)
  {
    if Given(releaseDate) then Before(releaseDate.value, '-') else "N/A"
  }

  /** For a date in the form TMDB sends, YYYY-MM-DD, the year is its four
      digits and reads back as that number. */
  lemma YearOfDate(date: string, year: nat)
    requires |date| == 10 && date[4] == '-' && date[7] == '-'
    requires forall i :: 0 <= i < 4 ==> IsDigit(date[i])
    requires ParseInt(date[..4]) == Int(year)
    ensures Year(Some(date)) == date[..4]
    ensures ParseInt(Year(Some(date))) == Int(year)
  {
    var t := Before(date, '-');
    assert '-' in date by { assert date[4] == '-'; }
    assert t == date[..|t|];
  }

  function Rated(voteAverage: Option<nat>): (r: Rating)
    ensures r == NotRated <==> voteAverage.None? || voteAverage.value == 0
    ensures r.Tenths? ==> r.n == voteAverage.value
  {
    if voteAverage.None? || voteAverage.value == 0 then NotRated else Tenths(voteAverage.value)
  }

  /** imageBaseURL + path for a truthy path, or null. */
  function Image(path: Option<string>): (url: Option<string>)
    ensures url.Some? <==> Given(path)
    ensures url.Some? ==> StartsWith(url.value, ImageBaseUrl) && EndsWith(url.value, path.value)
  {
    if Given(path) then
      var u := ImageBaseUrl + path.value;
      assert u[..|ImageBaseUrl|] == ImageBaseUrl;
      assert u[|u| - |path.value|..] == path.value;
      Some(u)
    else None
  }

  function Votes(voteCount: Option<int>): (v: int)
    ensures voteCount.None? || voteCount.value == 0 ==> v == 0
    ensures voteCount.Some? ==> v == voteCount.value
  {
    if voteCount.None? then 0 else voteCount.value
  }

  function FormatMovie(m: RawMovie): (r: Movie)
    ensures r.tmdbId == m.id && r.title == m.title
    ensures r.overview == if Given(m.overview) then m.overview.value else "No overview available"
  {
    Movie(m.id, m.title, Year(m.releaseDate), Rated(m.voteAverage), Votes(m.voteCount),
          if Given(m.overview) then m.overview.value else "No overview available",
          Image(m.posterPath), Image(m.backdropPath))
  }

  /** formatMovies: one record per input movie, in order. */
  function FormatMovies(ms: seq<RawMovie>): (rs: seq<Movie>)
    ensures |rs| == |ms|
    ensures forall i :: 0 <= i < |ms| ==> rs[i] == FormatMovie(ms[i])
    ensures forall i :: 0 <= i < |ms| ==> rs[i].tmdbId == ms[i].id
  {
    if ms == [] then [] else [FormatMovie(ms[0])] + FormatMovies(ms[1..])
  }

  // ---------------------------------------------------------------------
  // Details

  datatype CrewMember = CrewMember(job: Option<string>, name: Option<string>)

  /** The details response with external_ids and credits appended. */
  datatype RawDetails = RawDetails(
    id: int,
    imdbId: Option<string>,
    title: Option<string>,
    releaseDate: Option<string>,
    voteAverage: Option<nat>,
    voteCount: Option<int>,
    runtime: Option<int>,
    genres: Option<seq<Option<string>>>,
    overview: Option<string>,
    crew: Option<seq<CrewMember>>,
    cast: Option<seq<Option<string>>>,
    posterPath: Option<string>,
    backdropPath: Option<string>,
    tagline: Option<string>,
    budget: Option<int>,
    revenue: Option<int>)

  /** An amount rendered in millions, or 'N/A'. */
  datatype Money = NoAmount | Amount(dollars: int)

  datatype Details = Details(
    tmdbId: int,
    imdbId: Option<string>,
    title: Option<string>,
    year: string,
    releaseDate: string,
    rating: Rating,
    votes: int,
    runtime: string,
    genres: string,
    overview: string,
    director: string,
    cast: string,
    poster: Option<string>,
    backdrop: Option<string>,
    tagline: string,
    budget: Money,
    revenue: Money)

  /** Array.prototype.join renders a missing name as empty. */
  function Names(names: seq<Option<string>>): (ns: seq<string>)
    ensures |ns| == |names|
    ensures forall i :: 0 <= i < |names| ==> ns[i] == names[i].GetOr("")
  {
    if names == [] then [] else [names[0].GetOr("")] + Names(names[1..])
  }

  /** The first crew member whose job is 'Director'. */
  function FindDirector(crew: seq<CrewMember>): (k: Option<nat>)
    ensures k.Some? ==> k.value < |crew| && crew[k.value].job == Some("Director")
    ensures k.Some? ==> forall i :: 0 <= i < k.value ==> crew[i].job != Some("Director")
    ensures k.None? ==> forall i :: 0 <= i < |crew| ==> crew[i].job != Some("Director")
  {
    if crew == [] then None
    else if crew[0].job == Some("Director") then Some(0)
    else match FindDirector(crew[1..])
      case None => None
      case Some(k) => Some(k + 1)
  }

  /** The director's name, or 'N/A' without a director or without a name. */
  function Director(crew: Option<seq<CrewMember>>): (d: string)
    ensures d == "N/A" || (crew.Some? && exists i :: 0 <= i < |crew.value| && crew.value[i].job == Some("Director") && crew.value[i].name == Some(d))
    ensures crew.Some? && FindDirector(crew.value).Some? && Given(crew.value[FindDirector(crew.value).value].name) ==>
      d == crew.value[FindDirector(crew.value).value].name.value
    ensures crew.None? || (forall i :: 0 <= i < |crew.value| ==> crew.value[i].job != Some("Director")) ==> d == "N/A"
  {
    if crew.None? then "N/A"
    else match FindDirector(crew.value)
      case None => "N/A"
      case Some(k) => if Given(crew.value[k].name) then crew.value[k].name.value else "N/A"
  }

  /** The first three cast names joined with ', ', or 'N/A' when that is
      empty.  A missing name joins as the empty string. */
  function Cast(cast: Option<seq<Option<string>>>): (c: string)
    ensures c != ""
    ensures cast.None? ==> c == "N/A"
    ensures cast.Some? && Join(Names(Prefix(cast.value, 3)), ", ") == "" ==> c == "N/A"
    ensures cast.Some? && Join(Names(Prefix(cast.value, 3)), ", ") != "" ==> c == Join(Names(Prefix(cast.value, 3)), ", ")
  {
    if cast.None? then "N/A"
    else
      var joined := Join(Names(Prefix(cast.value, 3)), ", ");
      if joined == "" then "N/A" else joined
  }

  /** Joining with a non-empty separator gives the empty string exactly
      for no parts or one empty part. */
  lemma JoinEmpty(parts: seq<string>, sep: string)
    requires sep != ""
    ensures Join(parts, sep) == "" <==> |parts| == 0 || (|parts| == 1 && parts[0] == "")
  {
    if |parts| >= 2 {
      assert |Join(parts, sep)| >= |sep|;
    }
  }

  /** The cast is 'N/A' when there is no cast list, an empty one, or a
      single member without a name. */
  lemma CastMissing(cast: Option<seq<Option<string>>>)
    ensures cast.None? || cast.value == [] || (|cast.value| == 1 && cast.value[0].GetOr("") == "") ==> Cast(cast) == "N/A"
    ensures cast.Some? && |cast.value| >= 2 ==> Cast(cast) == Join(Names(Prefix(cast.value, 3)), ", ")
  {
    if cast.Some? {
      JoinEmpty(Names(Prefix(cast.value, 3)), ", ");
    }
  }

  /** With three or more members, the cast names exactly the first three,
      in order; later members are dropped. */
  lemma CastOfMany(cast: seq<Option<string>>)
    requires |cast| >= 3
    ensures Cast(Some(cast)) == cast[0].GetOr("") + ", " + cast[1].GetOr("") + ", " + cast[2].GetOr("")
  {
    var ns := Names(Prefix(cast, 3));
    JoinEmpty(ns, ", ");
    var a, b, c := cast[0].GetOr(""), cast[1].GetOr(""), cast[2].GetOr("");
    assert ns == [a, b, c];
    assert ns[1..] == [b, c] && ns[1..][1..] == [c];
    assert Join(ns[1..], ", ") == b + ", " + c;
    assert Join(ns, ", ") == cast[0].GetOr("") + ", " + (cast[1].GetOr("") + ", " + cast[2].GetOr(""));
  }

  /** With named cast members, the cast is the first three names in
      order: the part before the first ', ' is the first actor. */
  lemma CastStartsWithFirstActor(cast: seq<Option<string>>)
    requires |cast| >= 1 && Given(cast[0])
    ensures StartsWith(Cast(Some(cast)), cast[0].value)
    ensures |cast| == 1 ==> Cast(Some(cast)) == cast[0].value
  {
    var ns := Names(Prefix(cast, 3));
    assert ns[0] == cast[0].value;
    JoinStartsWithFirst(ns, ", ");
  }

  lemma JoinStartsWithFirst(parts: seq<string>, sep: string)
    requires |parts| >= 1
    ensures StartsWith(Join(parts, sep), parts[0])
  {
    if |parts| > 1 {
      var j := Join(parts, sep);
      assert j[..|parts[0]|] == parts[0];
    }
  }

  /** The runtime in minutes, or 'N/A' when it is missing or 0. */
  function Runtime(runtime: Option<int>): (r: string)
    ensures runtime.None? || runtime.value == 0 ==> r == "N/A"
    ensures runtime.Some? && runtime.value != 0 ==> r == IntToString(runtime.value) + " min"
  {
    if runtime.None? || runtime.value == 0 then "N/A"
    else IntToString(runtime.value) + " min"
  }

  /** Reading the number back from a runtime other than 'N/A' gives the
      runtime TMDB reported. */
  lemma RuntimeReadsBack(runtime: int)
    requires runtime != 0
    ensures EndsWith(Runtime(Some(runtime)), " min")
    ensures var r := Runtime(Some(runtime)); ParseInt(r[..|r| - 4]) == Int(runtime)
  {
    var r := Runtime(Some(runtime));
    assert r[..|r| - 4] == IntToString(runtime);
    assert r[|r| - 4..] == " min";
    ParseIntOfIntToString(runtime);
  }

  /** The genre names joined with ', ', or 'N/A' when that is empty. */
  function Genres(genres: Option<seq<Option<string>>>): (g: string)
    ensures g != ""
    ensures genres.None? ==> g == "N/A"
    ensures genres.Some? && Join(Names(genres.value), ", ") == "" ==> g == "N/A"
    ensures genres.Some? && Join(Names(genres.value), ", ") != "" ==> g == Join(Names(genres.value), ", ")
  {
    if genres.None? then "N/A"
    else
      var joined := Join(Names(genres.value), ", ");
      if joined == "" then "N/A" else joined
  }

  /** Genres are 'N/A' exactly when there are none or a single unnamed
      one; otherwise every genre is listed. */
  lemma GenresMissing(genres: Option<seq<Option<string>>>)
    ensures genres.None? || genres.value == [] || (|genres.value| == 1 && genres.value[0].GetOr("") == "") ==> Genres(genres) == "N/A"
    ensures genres.Some? && |genres.value| >= 2 ==> Genres(genres) == Join(Names(genres.value), ", ")
  {
    if genres.Some? {
      JoinEmpty(Names(genres.value), ", ");
    }
  }

  function MoneyOf(raw: Option<int>): (m: Money)
    ensures m == NoAmount <==> raw.None? || raw.value == 0
  {
    if raw.None? || raw.value == 0 then NoAmount else Amount(raw.value)
  }

  /** formatMovieDetails */
  function FormatMovieDetails(d: RawDetails): (r: Details)
    ensures r.tmdbId == d.id
    ensures r.imdbId.Some? <==> Given(d.imdbId)
    ensures r.imdbId.Some? ==> r.imdbId == d.imdbId
    ensures r.releaseDate == if Given(d.releaseDate) then d.releaseDate.value else "N/A"
    ensures r.year == Year(d.releaseDate)
    ensures r.tagline == d.tagline.GetOr("")
  {
    Details(d.id, if Given(d.imdbId) then d.imdbId else None, d.title, Year(d.releaseDate),
            if Given(d.releaseDate) then d.releaseDate.value else "N/A",
            Rated(d.voteAverage), Votes(d.voteCount), Runtime(d.runtime), Genres(d.genres),
            if Given(d.overview) then d.overview.value else "No overview available",
            Director(d.crew), Cast(d.cast), Image(d.posterPath), Image(d.backdropPath),
            d.tagline.GetOr(""), MoneyOf(d.budget), MoneyOf(d.revenue))
  }
}

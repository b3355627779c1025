/**
  The OMDb client (IMDbService): the search parameters and the pruning of
  missing ones, the checks on each response, the renaming of a details
  record, the episode list of a season and the autocomplete choices.

  Each HTTP response is an input: the body as an object, or a failure.
*/
module Imdb {
  import opened Js

  const SearchFailed := "Failed to search IMDb"
  const DetailsFailed := "Failed to get movie details"
  const SeasonFailed := "Failed to get season details"

  // ---------------------------------------------------------------------
  // Search parameters

  /** A parameter value: None is undefined. */
  type Params = map<string, Option<Json>>

  predicate Nullish(v: Option<Json>) { v.None? || v == Some(JNull) }

  /** The parameters searchByTitle starts from. */
  function SearchParams(apiKey: string, title: Option<Json>, kind: Option<Json>, year: Option<Json>): Params {
    map["apikey" := Some(JStr(apiKey)), "s" := title, "type" := kind, "y" := year]
  }

  /** The parameters that are neither null nor undefined, unchanged. */
  function Defined(params: Params): Params {
    map k | k in params && !Nullish(params[k]) :: params[k]
  }

  /** The forEach over the keys that deletes every null or undefined
      parameter from the object in place. */
  method PruneParams(params: Params) returns (pruned: Params)
    ensures pruned == Defined(params)
    ensures forall k :: k in pruned <==> k in params && !Nullish(params[k])
    ensures forall k :: k in pruned ==> pruned[k] == params[k]
  {
    pruned := params;
    var keys := params.Keys;
    while keys != {}
      invariant keys <= params.Keys
      invariant forall k :: k in pruned <==> k in params && (k in keys || !Nullish(params[k]))
      invariant forall k :: k in pruned ==> pruned[k] == params[k]
      decreases keys
    {
      var k :| k in keys;
      if Nullish(params[k]) {
        pruned := pruned - {k};
      }
      keys := keys - {k};
    }
  }

  /** The search request always carries the key and sends the title, type
      and year exactly when they are given. */
  lemma SearchParamsDefined(apiKey: string, title: Option<Json>, kind: Option<Json>, year: Option<Json>)
    ensures "apikey" in Defined(SearchParams(apiKey, title, kind, year))
    ensures "s" in Defined(SearchParams(apiKey, title, kind, year)) <==> !Nullish(title)
    ensures "type" in Defined(SearchParams(apiKey, title, kind, year)) <==> !Nullish(kind)
    ensures "y" in Defined(SearchParams(apiKey, title, kind, year)) <==> !Nullish(year)
    ensures |Defined(SearchParams(apiKey, title, kind, year)).Keys| <= 4
  {
    var p := SearchParams(apiKey, title, kind, year);
    assert p.Keys == {"apikey", "s", "type", "y"};
    assert Defined(p).Keys <= p.Keys;
    assert |p.Keys| == 4;
    SubsetCard(Defined(p).Keys, p.Keys);
  }

  lemma SubsetCard(a: set<string>, b: set<string>)
    requires a <= b
    ensures |a| <= |b|
  {
    if a != {} {
      var x :| x in a;
      SubsetCard(a - {x}, b - {x});
    }
  }

  // ---------------------------------------------------------------------
  // Responses

  predicate Refused(body: Object) { Prop(body, "Response") == Some(JStr("False")) }

  /** searchByTitle after the request: nothing for a refused search or a
      body without results, the Search value otherwise, and one fixed
      message for any failure. */
  function SearchOutcome(body: Result<Object>): (r: Result<Json>)
    ensures r.Err? <==> body.Err?
    ensures r.Err? ==> r.error == SearchFailed
    ensures body.Ok? && Refused(body.value) ==> r == Ok(JArr([]))
    ensures body.Ok? && !Refused(body.value) && IsTruthy(Prop(body.value, "Search")) ==> r == Ok(body.value["Search"])
    ensures body.Ok? && !IsTruthy(Prop(body.value, "Search")) ==> r == Ok(JArr([]))
  {
    match body
    case Err(_) => Err(SearchFailed)
    case Ok(b) =>
      if Refused(b) then Ok(JArr([]))
      else if IsTruthy(Prop(b, "Search")) then Ok(b["Search"])
      else Ok(JArr([]))
  }

  /** The OMDb field names and the names formatMovieData gives them; the
      poster is handled apart. */
  const MovieFields: seq<(string, string)> := [
    ("imdbID", "imdbId"), ("Title", "title"), ("Year", "year"), ("Rated", "rated"),
    ("Released", "released"), ("Runtime", "runtime"), ("Genre", "genre"), ("Director", "director"),
    ("Writer", "writer"), ("Actors", "actors"), ("Plot", "plot"), ("Language", "language"),
    ("Country", "country"), ("Awards", "awards"), ("Ratings", "ratings"), ("imdbRating", "imdbRating"),
    ("imdbVotes", "imdbVotes"), ("Type", "type"), ("totalSeasons", "totalSeasons"), ("Metascore", "metascore"),
    ("BoxOffice", "boxOffice"), ("Production", "production"), ("Website", "website")]

  predicate DistinctTargets(fields: seq<(string, string)>) {
    forall i, j :: 0 <= i < j < |fields| ==> fields[i].1 != fields[j].1
  }

  /** Each field present under its source name, copied under its new name. */
  function CopyFields(data: Object, fields: seq<(string, string)>): (r: Object)
    ensures forall k :: k in r ==> exists i :: 0 <= i < |fields| && fields[i].1 == k
  {
    if fields == [] then map[]
    else
      var rest := CopyFields(data, fields[1..]);
      if fields[0].0 in data then rest[fields[0].1 := data[fields[0].0]] else rest
  }

  lemma {:induction false} CopyFieldsCopies(data: Object, fields: seq<(string, string)>)
    requires DistinctTargets(fields)
    ensures forall i :: 0 <= i < |fields| ==>
      (fields[i].1 in CopyFields(data, fields) <==> fields[i].0 in data)
      && (fields[i].0 in data ==> CopyFields(data, fields)[fields[i].1] == data[fields[i].0])
  {
    if fields != [] {
      CopyFieldsCopies(data, fields[1..]);
      var r := CopyFields(data, fields);
      var rest := CopyFields(data, fields[1..]);
      forall i | 0 <= i < |fields[1..]| ensures fields[1..][i].1 != fields[0].1 {
        assert fields[1..][i] == fields[i + 1];
      }
      assert fields[0].1 !in rest;
      forall i | 1 <= i < |fields|
        ensures (fields[i].1 in r <==> fields[i].0 in data) && (fields[i].0 in data ==> r[fields[i].1] == data[fields[i].0])
      {
        assert fields[1..][i - 1] == fields[i];
        assert fields[i].1 != fields[0].1;
      }
    }
  }

  /** formatMovieData */
  function FormatMovieData(data: Object): (r: Object)
    ensures "poster" in r <==> "Poster" in data
    ensures "Poster" in data ==> r["poster"] == if data["Poster"] == JStr("N/A") then JNull else data["Poster"]
    ensures forall k :: k in r ==> k == "poster" || exists i :: 0 <= i < |MovieFields| && MovieFields[i].1 == k
  {
    MovieFieldsDistinct();
    var r := CopyFields(data, MovieFields);
    if "Poster" in data then r["poster" := if data["Poster"] == JStr("N/A") then JNull else data["Poster"]]
    else r
  }

  lemma MovieFieldsDistinct()
    ensures DistinctTargets(MovieFields)
    ensures forall i :: 0 <= i < |MovieFields| ==> MovieFields[i].1 != "poster"
  {
    TargetsDistinctFrom(0, 8);
    TargetsDistinctFrom(8, 16);
    TargetsDistinctFrom(16, 23);
  }

  /** The new names at positions lo to hi differ from every later one. */
  lemma TargetsDistinctFrom(lo: nat, hi: nat)
    requires (lo, hi) == (0, 8) || (lo, hi) == (8, 16) || (lo, hi) == (16, 23)
    ensures forall i, j :: lo <= i < hi && i < j < |MovieFields| ==> MovieFields[i].1 != MovieFields[j].1
  {
  }

  /** Every OMDb field is copied unchanged under its new name, and nothing
      else appears but the poster, which is null where OMDb says 'N/A'. */
  lemma FormatMovieDataFields(data: Object)
    ensures forall i :: 0 <= i < |MovieFields| ==>
      (MovieFields[i].1 in FormatMovieData(data) <==> MovieFields[i].0 in data)
      && (MovieFields[i].0 in data ==> FormatMovieData(data)[MovieFields[i].1] == data[MovieFields[i].0])
    ensures "poster" in FormatMovieData(data) <==> "Poster" in data
    ensures Prop(data, "Poster") == Some(JStr("N/A")) ==> FormatMovieData(data)["poster"] == JNull
    ensures "Poster" in data && data["Poster"] != JStr("N/A") ==> FormatMovieData(data)["poster"] == data["Poster"]
    ensures forall k :: k in FormatMovieData(data) ==>
      k == "poster" || exists i :: 0 <= i < |MovieFields| && MovieFields[i].1 == k
  {
    MovieFieldsDistinct();
    CopyFieldsCopies(data, MovieFields);
  }

  /** getDetailsByImdbId and getDetailsByTitle after the request: the
      formatted record, and one fixed message for a refused lookup or any
      other failure. */
  function DetailsOutcome(body: Result<Object>): (r: Result<Object>)
    ensures r.Err? <==> body.Err? || Refused(body.value)
    ensures r.Err? ==> r.error == DetailsFailed
    ensures r.Ok? ==> r.value == FormatMovieData(body.value)
  {
    if body.Err? || Refused(body.value) then Err(DetailsFailed) else Ok(FormatMovieData(body.value))
  }

  // ---------------------------------------------------------------------
  // Seasons

  datatype Episode = Episode(episode: Option<Json>, title: Option<Json>, released: Option<Json>,
                             imdbRating: Option<Json>, imdbId: Option<Json>)

  datatype Season = Season(title: Option<Json>, season: Option<Json>, totalSeasons: Option<Json>, episodes: seq<Episode>)

  /** The record made of one episode; reading a property of null fails. */
  function EpisodeOf(ep: Json): (r: Result<Episode>)
    ensures r.Err? <==> ep.JNull?
  {
    if ep.JNull? then Err("TypeError")
    else Ok(Episode(PropOf(Some(ep), "Episode"), PropOf(Some(ep), "Title"), PropOf(Some(ep), "Released"),
                    PropOf(Some(ep), "imdbRating"), PropOf(Some(ep), "imdbID")))
  }

  /** Episodes.map(...) */
  function MapEpisodes(items: seq<Json>): (r: Result<seq<Episode>>)
    ensures r.Err? <==> exists i :: 0 <= i < |items| && items[i].JNull?
    ensures r.Ok? ==> |r.value| == |items| && forall i :: 0 <= i < |items| ==> Ok(r.value[i]) == EpisodeOf(items[i])
  {
    if items == [] then Ok([])
    else match (EpisodeOf(items[0]), MapEpisodes(items[1..]))
      case (Ok(e), Ok(es)) =>
        assert forall i :: 1 <= i < |items| ==> items[i] == items[1..][i - 1];
        Ok([e] + es)
      case (Err(m), _) => Err(m)
      case (Ok(_), Err(m)) =>
        var i :| 0 <= i < |items[1..]| && items[1..][i].JNull?;
        assert items[i + 1].JNull?;
        Err(m)
  }

  /** getSeasonDetails after the request: the season with one episode
      record per listed episode, in order; a refused lookup, a missing
      episode list or any other failure gives one fixed message. */
  function SeasonOutcome(body: Result<Object>): (r: Result<Season>)
    ensures body.Err? || Refused(body.value) ==> r == Err(SeasonFailed)
    ensures r.Err? ==> r.error == SeasonFailed
    ensures r.Ok? ==> exists items :: Prop(body.value, "Episodes") == Some(JArr(items)) && MapEpisodes(items) == Ok(r.value.episodes)
    ensures (body.Ok? && !Refused(body.value) && Prop(body.value, "Episodes").Some? && body.value["Episodes"].JArr?
             && MapEpisodes(body.value["Episodes"].items).Ok?) ==> r.Ok?
  {
    if body.Err? || Refused(body.value) then Err(SeasonFailed)
    else match Prop(body.value, "Episodes")
      case Some(JArr(items)) =>
        (match MapEpisodes(items)
         case Ok(es) => Ok(Season(Prop(body.value, "Title"), Prop(body.value, "Season"), Prop(body.value, "totalSeasons"), es))
         case Err(_) => Err(SeasonFailed))
      case _ => Err(SeasonFailed)
  }

  // ---------------------------------------------------------------------
  // Autocomplete

  /** One autocomplete choice. */
  datatype Choice = Choice(name: string, value: Option<Json>)

  function ChoiceName(result: Json): string {
    Text(PropOf(Some(result), "Title")) + " (" + Text(PropOf(Some(result), "Year")) + ") - " + Text(PropOf(Some(result), "Type"))
  }

  function Choices(results: seq<Json>): (cs: seq<Choice>)
    ensures |cs| == |results|
    ensures forall i :: 0 <= i < |results| ==> cs[i] == Choice(ChoiceName(results[i]), PropOf(Some(results[i]), "imdbID"))
  {
    if results == [] then []
    else [Choice(ChoiceName(results[0]), PropOf(Some(results[0]), "imdbID"))] + Choices(results[1..])
  }

  /** One of the first n results is null. */
  predicate NullBefore(items: seq<Json>, n: nat) {
    exists i :: 0 <= i < |items| && i < n && items[i].JNull?
  }

  /** getAutocompleteOptions: the first 25 results in search order, each
      named 'Title (Year) - Type' with its IMDb id as value; a failed
      search, a result that is not a list, or a null result gives no
      choices.  Only the first 25 results are read, so a null result
      after them changes nothing. */
  function AutocompleteOptions(search: Result<Json>): (cs: seq<Choice>)
    ensures |cs| <= 25
    ensures search.Err? ==> cs == []
    ensures search.Ok? && !search.value.JArr? ==> cs == []
    ensures search.Ok? && search.value.JArr? && NullBefore(search.value.items, 25) ==> cs == []
    ensures search.Ok? && search.value.JArr? && !NullBefore(search.value.items, 25) ==>
      |cs| == (if |search.value.items| < 25 then |search.value.items| else 25)
      && (forall i :: 0 <= i < |cs| ==> cs[i].value == PropOf(Some(search.value.items[i]), "imdbID"))
      && (forall i :: 0 <= i < |cs| ==> cs[i].name == ChoiceName(search.value.items[i]))
  {
    match search
    case Ok(JArr(items)) =>
      var first := Prefix(items, 25);
      assert forall i :: 0 <= i < |first| ==> first[i] == items[i];
      if NullBefore(items, 25) then [] else Choices(first)
    case _ => []
  }

  /** Results after the first 25 are never read: appending anything,
      nulls included, leaves the choices as they were. */
  lemma AutocompleteIgnoresTail(items: seq<Json>, rest: seq<Json>)
    requires |items| >= 25
    ensures AutocompleteOptions(Ok(JArr(items + rest))) == AutocompleteOptions(Ok(JArr(items)))
  {
    var all := items + rest;
    assert Prefix(all, 25) == Prefix(items, 25);
    assert forall i :: 0 <= i < 25 ==> all[i] == items[i];
    assert NullBefore(all, 25) == NullBefore(items, 25);
  }
}

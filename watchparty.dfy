/**
  The /watchparty flow: the command looks a title up and offers seasons or
  torrents, the season menu offers episodes, the episode menu offers a
  series' torrents, and the torrent menu turns the chosen torrent into a
  Real-Debrid stream and a watchparty.me room.  The handlers pass what
  they need from one step to the next in two places: the option values
  ('_'-joined codes) and the user's watchpartyData entry.

  Replies are reduced to what they say; the embeds around them are left
  out.  The lookups a handler makes (OMDb, Torrentio, Real-Debrid) are
  inputs: each handler makes each of them at most once.
*/
module WatchParty {
  import opened Js
  import Imdb
  import Tmdb
  import Torrents
  import RealDebrid
  import WatchPartyService
  import Components
  import opened Sessions

  type Torrent = Torrents.Torrent

  /** The watchpartyData entry of one user: an object whose fields the
      handlers set one at a time; None is a field that was never set. */
  datatype Session = Session(
    movieData: Option<Object>,
    torrents: Option<seq<Torrent>>,
    imdbId: Option<string>,
    season: Option<Num>)

  /** `{}` */
  const NoFields := Session(None, None, None, None)

  datatype SelectOption = SelectOption(caption: string, value: string, description: string)

  /** What a handler replies. */
  datatype Reply =
    | MissingInput                                        // neither title nor imdb_id
    | Failed(message: string)                             // the catch-all error reply
    | SeasonMenu(plot: string, options: seq<SelectOption>)
    | NoTorrents
    | TorrentMenu(plot: string, options: seq<SelectOption>)
    | NoEpisodes
    | EpisodeMenu(options: seq<SelectOption>)
    | SeriesTorrentMenu(options: seq<SelectOption>)
    | Expired                                             // no session
    | InvalidSelection
    | StreamFailed(message: string)                       // Real-Debrid failed; pick again
    | PartyReady(partyUrl: string, streamUrl: string)
    | QualityMenu(options: seq<SelectOption>)             // offered from /recommend or /browse

  /** Discord accepts at most 25 options in a select menu. */
  const MaxOptions := 25

  function Min(a: int, b: int): int { if a < b then a else b }

  /** `${x}` of a value that may be undefined. */
  function Shown(x: Option<string>): string {
    match x
    case None => "undefined"
    case Some(s) => s
  }

  // ---------------------------------------------------------------------
  // Option values

  function MovieTorrentValue(imdbId: string, index: nat): string {
    "torrent_" + imdbId + "_movie_" + NatToString(index)
  }

  function SeasonValue(imdbId: string, season: nat): string {
    Join(["season", imdbId, NatToString(season)], "_")
  }

  function EpisodeValue(imdbId: string, season: Num, episode: string): string {
    Join(["episode", imdbId, NumToString(season), episode], "_")
  }

  function SeriesTorrentValue(imdbId: string, index: nat, season: Num, episode: Num): string {
    "torrent_" + imdbId + "_series_" + NatToString(index) + "_" + NumToString(season) + "_" + NumToString(episode)
  }

  /** The season menu's reading of a value: parts[1] and parseInt(parts[2]). */
  function DecodeSeason(value: string): (Option<string>, Num) {
    var parts := Split(value, '_');
    (Field(parts, 1), ParseIntField(Field(parts, 2)))
  }

  /** The episode menu's reading: parts[1], parseInt(parts[2]) and
      parseInt(parts[3]). */
  function DecodeEpisode(value: string): (Option<string>, Num, Num) {
    var parts := Split(value, '_');
    (Field(parts, 1), ParseIntField(Field(parts, 2)), ParseIntField(Field(parts, 3)))
  }

  /** The torrent menu's reading: parseInt of the last part. */
  function TorrentIndex(value: string): Num {
    ParseInt(LastField(Split(value, '_')))
  }

  lemma DigitsHaveNoUnderscore(n: nat)
    ensures '_' !in NatToString(n)
  {
    var s := NatToString(n);
    forall i | 0 <= i < |s| ensures s[i] != '_' {
      assert IsDigit(s[i]);
    }
  }

  /** A season value decodes to the id and season it was made of, when the
      id has no '_'. */
  lemma SeasonValueRoundTrip(imdbId: string, season: nat)
    requires '_' !in imdbId
    ensures DecodeSeason(SeasonValue(imdbId, season)) == (Some(imdbId), Int(season))
  {
    DigitsHaveNoUnderscore(season);
    SplitJoin(["season", imdbId, NatToString(season)], '_');
    ParseIntOfNatToString(season);
  }

  /** An episode value decodes to the id, season and episode it was made
      of, when neither the id nor the episode text has a '_'. */
  lemma EpisodeValueRoundTrip(imdbId: string, season: Num, episode: string)
    requires '_' !in imdbId && '_' !in episode
    ensures DecodeEpisode(EpisodeValue(imdbId, season, episode)) == (Some(imdbId), season, ParseInt(episode))
  {
    var s := NumToString(season);
    EpisodeValueSplits(imdbId, s, episode);
    DecodeEpisodeOfParts(EpisodeValue(imdbId, season, episode), ["episode", imdbId, s, episode]);
    ParseIntOfNumToString(season);
  }

  lemma EpisodeValueSplits(imdbId: string, s: string, episode: string)
    requires '_' !in imdbId && '_' !in s && '_' !in episode
    ensures Split(Join(["episode", imdbId, s, episode], "_"), '_') == ["episode", imdbId, s, episode]
  {
    SplitJoin(["episode", imdbId, s, episode], '_');
  }

  lemma DecodeEpisodeOfParts(value: string, parts: seq<string>)
    requires Split(value, '_') == parts && |parts| >= 4
    ensures DecodeEpisode(value) == (Some(parts[1]), ParseInt(parts[2]), ParseInt(parts[3]))
  {
  }

  /** A movie torrent value gives back its index, whatever the id holds. */
  lemma MovieTorrentValueRoundTrip(imdbId: string, index: nat)
    ensures TorrentIndex(MovieTorrentValue(imdbId, index)) == Int(index)
  {
    var s := NatToString(index);
    assert MovieTorrentValue(imdbId, index) == ("torrent_" + imdbId + "_movie") + ['_'] + s;
    DigitsHaveNoUnderscore(index);
    LastFieldAfter("torrent_" + imdbId + "_movie", '_', s);
    ParseIntOfNatToString(index);
  }

  /** A series torrent value gives back the episode, not the index: its
      last part is the episode number. */
  lemma SeriesTorrentValueGivesEpisode(imdbId: string, index: nat, season: Num, episode: Num)
    ensures TorrentIndex(SeriesTorrentValue(imdbId, index, season, episode)) == episode
  {
    var e := NumToString(episode);
    var front := "torrent_" + imdbId + "_series_" + NatToString(index) + "_" + NumToString(season);
    assert SeriesTorrentValue(imdbId, index, season, episode) == front + ['_'] + e;
    ParseIntOfNumToString(episode);
    LastFieldAfter(front, '_', e);
  }

  // ---------------------------------------------------------------------
  // Menus

  function TorrentOption(t: Torrent, imdbId: string, index: nat): SelectOption {
    SelectOption(Take(t.displayName, 100), MovieTorrentValue(imdbId, index), "Quality: " + t.quality)
  }

  /** torrents.slice(0, 25).map((torrent, index) => ...) with movie values. */
  function TorrentOptions(imdbId: string, ts: seq<Torrent>): (opts: seq<SelectOption>)
    ensures |opts| == Min(|ts|, MaxOptions)
    ensures forall i :: 0 <= i < |opts| ==> opts[i] == TorrentOption(ts[i], imdbId, i)
  {
    var p := Prefix(ts, MaxOptions);
    seq(|p|, i requires 0 <= i < |p| => TorrentOption(p[i], imdbId, i))
  }

  /** The torrent the torrent menu picks for a value, if any. */
  function Selection(torrents: seq<Torrent>, value: string): (k: Option<nat>)
    ensures k.Some? <==> TorrentIndex(value).Int? && 0 <= TorrentIndex(value).n < |torrents|
    ensures k.Some? ==> k.value == TorrentIndex(value).n
  {
    match TorrentIndex(value)
    case Int(n) => if 0 <= n < |torrents| then Some(n) else None
    case NaN => None
  }

  /** Each option of a movie torrent menu selects its own torrent. */
  lemma TorrentOptionSelects(imdbId: string, ts: seq<Torrent>, i: nat)
    requires i < |TorrentOptions(imdbId, ts)|
    ensures Selection(ts, TorrentOptions(imdbId, ts)[i].value) == Some(i)
  {
    MovieTorrentValueRoundTrip(imdbId, i);
  }

  function SeriesTorrentOptions(imdbId: string, season: Num, episode: Num, ts: seq<Torrent>): (opts: seq<SelectOption>)
    ensures |opts| == Min(|ts|, MaxOptions)
    ensures forall i :: 0 <= i < |opts| ==> opts[i].value == SeriesTorrentValue(imdbId, i, season, episode)
    ensures forall i :: 0 <= i < |opts| ==>
      opts[i].caption == Take(ts[i].displayName, 100) && opts[i].description == "Quality: " + ts[i].quality
  {
    var p := Prefix(ts, MaxOptions);
    seq(|p|, i requires 0 <= i < |p| =>
      SelectOption(Take(p[i].displayName, 100), SeriesTorrentValue(imdbId, i, season, episode), "Quality: " + p[i].quality))
  }

  /** Were a series option read by the torrent menu, it would select the
      torrent numbered like the episode, whichever option was chosen. */
  lemma SeriesOptionSelectsByEpisode(imdbId: string, season: Num, episode: Num, ts: seq<Torrent>, i: nat)
    requires i < |SeriesTorrentOptions(imdbId, season, episode, ts)|
    ensures Selection(ts, SeriesTorrentOptions(imdbId, season, episode, ts)[i].value) ==
      if episode.Int? && 0 <= episode.n < |ts| then Some(episode.n) else None
  {
    SeriesTorrentValueGivesEpisode(imdbId, i, season, episode);
  }

  /** The custom ids of the select-menu handlers. */
  const SelectKeys: set<string> := {"recommend-", "watchparty-season-select", "watchparty-episode-select", "watchparty-torrent-select"}

  const EpisodeTorrentMenu := "watchparty-episode-torrent-select"

  /** The series torrent menu has no handler: with the select handlers
      registered in any order, the listener finds none for it. */
  lemma EpisodeTorrentMenuUnhandled(r: Components.Registry)
    requires forall i :: 0 <= i < |r| ==> r[i].0 in SelectKeys
    ensures Components.Resolve(r, EpisodeTorrentMenu).None?
  {
    forall i | 0 <= i < |r|
      ensures r[i].0 != EpisodeTorrentMenu && !Components.PrefixMatch(r[i].0, EpisodeTorrentMenu)
    {
      var k := r[i].0;
      if k == "recommend-" {
        assert EpisodeTorrentMenu[0] != k[0];
      } else {
        assert k[|k| - 1] == 't';
      }
    }
  }

  function SeasonOption(imdbId: string, season: nat): SelectOption {
    SelectOption("Season " + NatToString(season), SeasonValue(imdbId, season),
                 "Select episodes from season " + NatToString(season))
  }

  /** parseInt(totalSeasons) || 1 */
  function SeasonCount(totalSeasons: Option<Json>): (n: int)
    ensures n != 0
  {
    match ParseInt(Text(totalSeasons))
    case Int(k) => if k != 0 then k else 1
    case NaN => 1
  }

  /** A count OMDb writes as digits is read as that count. */
  lemma SeasonCountOfDigits(n: nat)
    requires n > 0
    ensures SeasonCount(Some(JStr(NatToString(n)))) == n
  {
    ParseIntOfNatToString(n);
  }

  /** A missing count, or OMDb's 'N/A', is one season. */
  lemma SeasonCountUnknown()
    ensures SeasonCount(None) == 1
    ensures SeasonCount(Some(JStr("N/A"))) == 1
  {
    ParseIntOfWord("undefined");
    ParseIntOfWord("N/A");
  }

  /** The loop that offers seasons 1 to min(count, 25). */
  method SeasonOptions(imdbId: string, count: int) returns (opts: seq<SelectOption>)
    ensures |opts| == if count <= 0 then 0 else Min(count, MaxOptions)
    ensures forall i :: 0 <= i < |opts| ==> opts[i] == SeasonOption(imdbId, i + 1)
  {
    opts := [];
    var i := 1;
    while i <= Min(count, MaxOptions)
      invariant 1 <= i && |opts| == i - 1
      invariant i - 1 <= if count <= 0 then 0 else Min(count, MaxOptions)
      invariant forall j :: 0 <= j < |opts| ==> opts[j] == SeasonOption(imdbId, j + 1)
    {
      opts := opts + [SeasonOption(imdbId, i)];
      i := i + 1;
    }
  }

  /** Each season option takes the season menu to that season of that
      title. */
  lemma SeasonOptionDecodes(imdbId: string, i: nat)
    requires '_' !in imdbId
    ensures DecodeSeason(SeasonOption(imdbId, i + 1).value) == (Some(imdbId), Int(i + 1))
  {
    SeasonValueRoundTrip(imdbId, i + 1);
  }

  function EpisodeOption(imdbId: Option<string>, season: Num, ep: Imdb.Episode): SelectOption {
    SelectOption(
      Take("Episode " + Text(ep.episode) + ": " + Text(ep.title), 100),
      EpisodeValue(Shown(imdbId), season, Text(ep.episode)),
      "Rating: " + if IsTruthy(ep.imdbRating) then Text(ep.imdbRating) else "N/A")
  }

  function EpisodeOptions(imdbId: Option<string>, season: Num, eps: seq<Imdb.Episode>): (opts: seq<SelectOption>)
    ensures |opts| == Min(|eps|, MaxOptions)
    ensures forall i :: 0 <= i < |opts| ==> |opts[i].caption| <= 100
    ensures forall i :: 0 <= i < |opts| ==> opts[i] == EpisodeOption(imdbId, season, eps[i])
  {
    var p := Prefix(eps, MaxOptions);
    seq(|p|, i requires 0 <= i < |p| => EpisodeOption(imdbId, season, p[i]))
  }

  /** Every episode caption starts with "Episode " and fits in 100 characters. */
  lemma EpisodeCaptions(imdbId: Option<string>, season: Num, eps: seq<Imdb.Episode>)
    ensures forall i :: 0 <= i < |EpisodeOptions(imdbId, season, eps)| ==>
      StartsWith(EpisodeOptions(imdbId, season, eps)[i].caption, "Episode ")
      && |EpisodeOptions(imdbId, season, eps)[i].caption| <= 100
  {
    var opts := EpisodeOptions(imdbId, season, eps);
    forall i | 0 <= i < |opts|
      ensures StartsWith(opts[i].caption, "Episode ") && |opts[i].caption| <= 100
    {
      EpisodeCaption(imdbId, season, eps[i]);
    }
  }

  /** An episode caption is "Episode " and the rest, cut to 100 characters. */
  lemma EpisodeCaption(imdbId: Option<string>, season: Num, ep: Imdb.Episode)
    ensures |EpisodeOption(imdbId, season, ep).caption| <= 100
    ensures StartsWith(EpisodeOption(imdbId, season, ep).caption, "Episode ")
  {
    var text := "Episode " + Text(ep.episode) + ": " + Text(ep.title);
    assert text[..8] == "Episode ";
    var c := Take(text, 100);
    assert c[..8] == text[..8];
  }

  /** Each episode option takes the episode menu to that episode of the
      same title and season. */
  lemma EpisodeOptionDecodes(imdbId: string, season: Num, eps: seq<Imdb.Episode>, i: nat)
    requires '_' !in imdbId
    requires i < |EpisodeOptions(Some(imdbId), season, eps)|
    requires '_' !in Text(eps[i].episode)
    ensures DecodeEpisode(EpisodeOptions(Some(imdbId), season, eps)[i].value) ==
      (Some(imdbId), season, ParseInt(Text(eps[i].episode)))
  {
    EpisodeValueRoundTrip(imdbId, season, Text(eps[i].episode));
  }

  // ---------------------------------------------------------------------
  // The command

  datatype DetailsLookup = ById(id: string) | ByTitle(title: string)

  predicate Given(s: Option<string>) { s.Some? && s.value != "" }

  /** Which lookup the command makes: imdb_id first, then a title that
      starts with 'tt' as an id, then the title. */
  function LookupFor(title: Option<string>, imdbId: Option<string>): (l: Option<DetailsLookup>)
    ensures l.None? <==> !Given(title) && !Given(imdbId)
    ensures Given(imdbId) ==> l == Some(ById(imdbId.value))
    ensures !Given(imdbId) && Given(title) ==>
      l == Some(if StartsWith(title.value, "tt") then ById(title.value) else ByTitle(title.value))
  {
    if Given(imdbId) then Some(ById(imdbId.value))
    else if Given(title) then Some(if StartsWith(title.value, "tt") then ById(title.value) else ByTitle(title.value))
    else None
  }

  /** The message of every TypeError a handler's catch reports. */
  const TypeError := "TypeError"

  /** The embed's description: the plot cut to 300 characters, with '...'
      when cut, or 'No plot available'; a plot that is not text fails. */
  function PlotText(plot: Option<Json>): (r: Result<string>)
    ensures !IsTruthy(plot) || plot == Some(JStr("N/A")) ==> r == Ok("*No plot available*")
    ensures IsTruthy(plot) && plot != Some(JStr("N/A")) && !plot.value.JStr? ==> r == Err(TypeError)
    ensures IsTruthy(plot) && plot.value.JStr? && plot.value.s != "N/A" ==>
      var s := plot.value.s;
      r.Ok? && (|s| <= 300 ==> r.value == "*" + s + "*") && (|s| > 300 ==> r.value == "*" + s[..300] + "...*")
  {
    if IsTruthy(plot) && plot != Some(JStr("N/A")) then
      match plot.value
      case JStr(s) => Ok("*" + Take(s, 300) + (if |s| > 300 then "..." else "") + "*")
      case _ => Err(TypeError)
    else Ok("*No plot available*")
  }

  /** movieData.type, which the embed upper-cases: anything but text fails. */
  function Kind(movieData: Object): (r: Result<string>)
    ensures r.Ok? <==> Prop(movieData, "type").Some? && Prop(movieData, "type").value.JStr?
  {
    match Prop(movieData, "type")
    case Some(JStr(t)) => Ok(t)
    case _ => Err(TypeError)
  }

  /** The embed the command builds: its description and the type; the
      plot is read before the type. */
  function Embed(movieData: Object): (r: Result<(string, string)>)
    ensures PlotText(Prop(movieData, "plot")).Err? ==> r == Err(TypeError)
    ensures r.Ok? <==> PlotText(Prop(movieData, "plot")).Ok? && Kind(movieData).Ok?
    ensures r.Ok? ==> r.value == (PlotText(Prop(movieData, "plot")).value, Kind(movieData).value)
  {
    match PlotText(Prop(movieData, "plot"))
    case Err(e) => Err(e)
    case Ok(plot) =>
      match Kind(movieData)
      case Err(e) => Err(e)
      case Ok(k) => Ok((plot, k))
  }

  /** The command.  `details` is the outcome of the lookup `lookup` names;
      `torrents` the outcome of the movie search, made only for a movie. */
  method Command(store: Store<Session>, userId: string, title: Option<string>, imdbId: Option<string>,
                 details: Result<Object>, torrents: seq<Torrent>)
    returns (lookup: Option<DetailsLookup>, reply: Reply)
    requires store.Valid()
    modifies store
    ensures store.Valid()
    ensures lookup == LookupFor(title, imdbId)
    ensures lookup.None? ==> reply == MissingInput
    ensures lookup.Some? && details.Err? ==> reply == Failed(details.error)
    ensures lookup.Some? && details.Ok? && Embed(details.value).Err? ==> reply == Failed(TypeError)
    ensures lookup.Some? && details.Ok? && Embed(details.value).Ok? && Embed(details.value).value.1 == "series" ==>
      var id := Text(Prop(details.value, "imdbId"));
      var count := SeasonCount(Prop(details.value, "totalSeasons"));
      reply.SeasonMenu? && reply.plot == Embed(details.value).value.0
      && |reply.options| == (if count <= 0 then 0 else Min(count, MaxOptions))
      && forall i :: 0 <= i < |reply.options| ==> reply.options[i] == SeasonOption(id, i + 1)
    ensures lookup.Some? && details.Ok? && Embed(details.value).Ok? && Embed(details.value).value.1 != "series" ==>
      reply == (if torrents == [] then NoTorrents
                else TorrentMenu(Embed(details.value).value.0, TorrentOptions(Text(Prop(details.value, "imdbId")), torrents)))
    ensures reply.TorrentMenu? ==>
      store.entries == old(store.entries)[userId := Session(Some(details.value), Some(torrents), None, None)]
    ensures !reply.TorrentMenu? ==> store.entries == old(store.entries)
  {
    lookup := LookupFor(title, imdbId);
    if lookup.None? {
      return lookup, MissingInput;
    }
    if details.Err? {
      return lookup, Failed(details.error);
    }
    var movieData := details.value;
    var embed := Embed(movieData);
    if embed.Err? {
      return lookup, Failed(embed.error);
    }
    var id := Text(Prop(movieData, "imdbId"));
    if embed.value.1 == "series" {
      var options := SeasonOptions(id, SeasonCount(Prop(movieData, "totalSeasons")));
      return lookup, SeasonMenu(embed.value.0, options);
    }
    if torrents == [] {
      return lookup, NoTorrents;
    }
    store.Put(userId, Session(Some(movieData), Some(torrents), None, None));
    reply := TorrentMenu(embed.value.0, TorrentOptions(id, torrents));
  }

  // ---------------------------------------------------------------------
  // The season menu

  /** userData = watchpartyData.get(user) || {}, with imdbId and season set. */
  function WithSeason(old_: Option<Session>, imdbId: Option<string>, season: Num): (s: Session)
    ensures s.imdbId == imdbId && s.season == Some(season)
    ensures old_.Some? ==> s.movieData == old_.value.movieData && s.torrents == old_.value.torrents
    ensures old_.None? ==> s.movieData.None? && s.torrents.None?
  {
    old_.GetOr(NoFields).(imdbId := imdbId, season := Some(season))
  }

  /** The season menu.  `seasonData` is the outcome of the season lookup
      for the decoded id and season. */
  method SeasonSelect(store: Store<Session>, userId: string, value: string, seasonData: Result<Imdb.Season>)
    returns (request: (Option<string>, Num), reply: Reply)
    requires store.Valid()
    modifies store
    ensures store.Valid()
    ensures request == DecodeSeason(value)
    ensures seasonData.Err? ==> reply == Failed(seasonData.error)
    ensures seasonData.Ok? && seasonData.value.episodes == [] ==> reply == NoEpisodes
    ensures seasonData.Ok? && seasonData.value.episodes != [] ==>
      reply == EpisodeMenu(EpisodeOptions(request.0, request.1, seasonData.value.episodes))
    ensures reply.EpisodeMenu? ==>
      store.entries == old(store.entries)[userId := WithSeason(old(store.Get(userId)), request.0, request.1)]
    ensures !reply.EpisodeMenu? ==> store.entries == old(store.entries)
  {
    request := DecodeSeason(value);
    if seasonData.Err? {
      return request, Failed(seasonData.error);
    }
    if seasonData.value.episodes == [] {
      return request, NoEpisodes;
    }
    var options := EpisodeOptions(request.0, request.1, seasonData.value.episodes);
    var merged := WithSeason(store.Get(userId), request.0, request.1);
    store.Put(userId, merged);
    reply := EpisodeMenu(options);
  }

  // ---------------------------------------------------------------------
  // The episode menu

  /** { ...showData, season, episode, displayTitle } */
  function EpisodeRecord(show: Object, season: Num, episode: Num): (m: Object)
    ensures m.Keys == show.Keys + {"season", "episode", "displayTitle"}
    ensures forall k :: k in show && k !in {"season", "episode", "displayTitle"} ==> m[k] == show[k]
    ensures Prop(m, "displayTitle") == Some(JStr(Text(Prop(show, "title")) + " - S" + NumToString(season) + "E" + NumToString(episode)))
  {
    show["season" := NumJson(season)]["episode" := NumJson(episode)]
      ["displayTitle" := JStr(Text(Prop(show, "title")) + " - S" + NumToString(season) + "E" + NumToString(episode))]
  }

  /** The season and episode the record holds read back as the numbers
      the menu decoded. */
  lemma EpisodeRecordReadsBack(show: Object, season: Num, episode: Num)
    ensures ParseInt(Text(Prop(EpisodeRecord(show, season, episode), "season"))) == season
    ensures ParseInt(Text(Prop(EpisodeRecord(show, season, episode), "episode"))) == episode
  {
    var m := EpisodeRecord(show, season, episode);
    assert m["season"] == NumJson(season);
    assert m["episode"] == NumJson(episode);
    NumJsonText(season);
    NumJsonText(episode);
  }

  lemma NumJsonText(x: Num)
    ensures ParseInt(Text(Some(NumJson(x)))) == x
  {
    assert Text(Some(NumJson(x))) == NumToString(x);
    ParseIntOfNumToString(x);
  }

  /** The show's plot is read with substring when it is truthy and not
      'N/A': a plot that is not text fails. */
  predicate PlotReadable(plot: Option<Json>) {
    !IsTruthy(plot) || plot == Some(JStr("N/A")) || plot.value.JStr?
  }

  function WithEpisode(old_: Option<Session>, record: Object, torrents: seq<Torrent>): (s: Session)
    ensures s.movieData == Some(record) && s.torrents == Some(torrents)
    ensures old_.Some? ==> s.imdbId == old_.value.imdbId && s.season == old_.value.season
    ensures old_.None? ==> s.imdbId.None? && s.season.None?
  {
    old_.GetOr(NoFields).(movieData := Some(record), torrents := Some(torrents))
  }

  /** The episode menu.  `show` is the outcome of the details lookup for the
      decoded id, `torrents` that of the series search. */
  method EpisodeSelect(store: Store<Session>, userId: string, value: string, show: Result<Object>, torrents: seq<Torrent>)
    returns (request: (Option<string>, Num, Num), reply: Reply)
    requires store.Valid()
    modifies store
    ensures store.Valid()
    ensures request == DecodeEpisode(value)
    ensures show.Err? ==> reply == Failed(show.error)
    ensures show.Ok? && torrents == [] ==> reply == NoTorrents
    ensures show.Ok? && torrents != [] && !PlotReadable(Prop(show.value, "plot")) ==> reply == Failed(TypeError)
    ensures show.Ok? && torrents != [] && PlotReadable(Prop(show.value, "plot")) ==>
      reply == SeriesTorrentMenu(SeriesTorrentOptions(Shown(request.0), request.1, request.2, torrents))
    ensures reply.SeriesTorrentMenu? ==>
      store.entries == old(store.entries)[userId :=
        WithEpisode(old(store.Get(userId)), EpisodeRecord(show.value, request.1, request.2), torrents)]
    ensures !reply.SeriesTorrentMenu? ==> store.entries == old(store.entries)
  {
    request := DecodeEpisode(value);
    if show.Err? {
      return request, Failed(show.error);
    }
    if torrents == [] {
      return request, NoTorrents;
    }
    if !PlotReadable(Prop(show.value, "plot")) {
      return request, Failed(TypeError);
    }
    var options := SeriesTorrentOptions(Shown(request.0), request.1, request.2, torrents);
    var record := EpisodeRecord(show.value, request.1, request.2);
    store.Put(userId, WithEpisode(store.Get(userId), record, torrents));
    reply := SeriesTorrentMenu(options);
  }

  // ---------------------------------------------------------------------
  // The torrent menu

  /** Real-Debrid yields a stream: every request succeeds and the torrent
      holds a link. */
  predicate Streams(api: RealDebrid.Responses) {
    api.added.Ok? && api.selected.Ok? && api.info.Ok? && api.info.value.Some?
    && RealDebrid.Truthy(RealDebrid.ChooseLink(api.info.value.value)) && api.unrestricted.Ok?
  }

  /** The torrent menu.  `api` is what Real-Debrid answers for the chosen
      torrent's magnet link; `calls` the requests made to it. */
  method TorrentSelect(store: Store<Session>, userId: string, value: string, api: RealDebrid.Responses)
    returns (calls: seq<RealDebrid.Call>, reply: Reply)
    requires store.Valid()
    modifies store
    ensures store.Valid()
    ensures userId !in old(store.entries) ==> reply == Expired && calls == []
    ensures userId in old(store.entries) && old(store.entries)[userId].torrents.None? ==>
      reply == Failed(TypeError) && calls == []
    ensures userId in old(store.entries) && old(store.entries)[userId].torrents.Some? ==>
      var session := old(store.entries)[userId];
      var pick := Selection(session.torrents.value, value);
      (pick.None? ==> reply == InvalidSelection && calls == [])
      && (pick.Some? && session.movieData.None? ==> reply == Failed(TypeError) && calls == [])
      && (pick.Some? && session.movieData.Some? ==>
            var outcome := RealDebrid.Outcome(session.torrents.value[pick.value].magnetLink, api);
            |calls| >= 1 && calls[0] == RealDebrid.AddMagnet(session.torrents.value[pick.value].magnetLink)
            && calls == outcome.0
            && (reply.StreamFailed? <==> outcome.1.Err?)
            && (reply.StreamFailed? ==> reply.message == outcome.1.error)
            && (reply.PartyReady? ==> reply.streamUrl == outcome.1.value)
            && (reply.StreamFailed? || reply.PartyReady?)
            && (reply.PartyReady? <==> Streams(api))
            && (reply.PartyReady? ==> reply.streamUrl == api.unrestricted.value))
    ensures reply.PartyReady? ==>
      reply.partyUrl == WatchPartyService.CreateRoom(reply.streamUrl, Text(Prop(old(store.entries)[userId].movieData.value, "title")))
      && store.entries == old(store.entries) - {userId}
    ensures !reply.PartyReady? ==> store.entries == old(store.entries)
  {
    calls := [];
    var session := store.Get(userId);
    if session.None? {
      return calls, Expired;
    }
    var torrents := session.value.torrents;
    if torrents.None? {
      return calls, Failed(TypeError);
    }
    var pick := Selection(torrents.value, value);
    if pick.None? {
      return calls, InvalidSelection;
    }
    var movieData := session.value.movieData;
    if movieData.None? {
      return calls, Failed(TypeError);
    }
    var streamingUrl;
    calls, streamingUrl := RealDebrid.GetStreamingLink(torrents.value[pick.value].magnetLink, api);
    if streamingUrl.Err? {
      return calls, StreamFailed(streamingUrl.error);
    }
    var partyUrl := WatchPartyService.CreateRoom(streamingUrl.value, Text(Prop(movieData.value, "title")));
    reply := PartyReady(partyUrl, streamingUrl.value);
    store.Delete(userId);
  }

  // ---------------------------------------------------------------------
  // Handing a TMDB movie to the torrent menu

  /** null for a missing image URL. */
  function Nullable(x: Option<string>): Json {
    match x
    case None => JNull
    case Some(s) => JStr(s)
  }

  /** The movieData record /recommend and /browse make of a TMDB movie, in
      the shape the torrent menu reads. */
  function MovieRecord(d: Tmdb.Details): (m: Object)
    ensures Prop(m, "type") == Some(JStr("movie"))
    ensures Prop(m, "plot") == Some(JStr(d.overview))
    ensures d.title.Some? <==> Prop(m, "title").Some?
    ensures d.title.Some? ==> Prop(m, "title") == Some(JStr(d.title.value))
  {
    var fields := map[
      "imdbId" := Nullable(d.imdbId), "year" := JStr(d.year), "poster" := Nullable(d.poster),
      "imdbRating" := JStr(Tmdb.RatingText(d.rating)), "imdbVotes" := JStr(IntToString(d.votes)),
      "runtime" := JStr(d.runtime), "genre" := JStr(d.genres), "director" := JStr(d.director),
      "plot" := JStr(d.overview), "type" := JStr("movie")];
    if d.title.Some? then fields["title" := JStr(d.title.value)] else fields
  }

  /** The record carries the id the torrent values are made of. */
  lemma MovieRecordId(d: Tmdb.Details)
    requires d.imdbId.Some?
    ensures Text(Prop(MovieRecord(d), "imdbId")) == d.imdbId.value
  {
    assert MovieRecord(d)["imdbId"] == JStr(d.imdbId.value);
  }

  /** imdbVotes, votes.toString(), reads back as the vote count. */
  lemma MovieRecordVotes(d: Tmdb.Details)
    ensures ParseInt(Text(Prop(MovieRecord(d), "imdbVotes"))) == Int(d.votes)
  {
    assert MovieRecord(d)["imdbVotes"] == JStr(IntToString(d.votes));
    ParseIntOfIntToString(d.votes);
  }

  /** The command's embed builds from the record: a text plot and type
      'movie'. */
  lemma MovieRecordEmbeds(d: Tmdb.Details)
    ensures Embed(MovieRecord(d)) == Ok((PlotText(Some(JStr(d.overview))).value, "movie"))
  {
    var m := MovieRecord(d);
    assert Prop(m, "plot") == Some(JStr(d.overview));
    assert Kind(m) == Ok("movie");
  }

  /** The Watch Now buttons of /recommend and /browse: search the movie's
      torrents, offer the first 25, and store the record and the torrents
      for the torrent menu. */
  method OfferMovie(store: Store<Session>, userId: string, d: Tmdb.Details, torrents: seq<Torrent>)
    returns (reply: Reply)
    requires store.Valid() && d.imdbId.Some?
    modifies store
    ensures store.Valid()
    ensures torrents == [] ==> reply == NoTorrents && store.entries == old(store.entries)
    ensures torrents != [] ==>
      reply == QualityMenu(TorrentOptions(d.imdbId.value, torrents))
      && store.entries == old(store.entries)[userId := Session(Some(MovieRecord(d)), Some(torrents), None, None)]
  {
    if torrents == [] {
      return NoTorrents;
    }
    reply := QualityMenu(TorrentOptions(d.imdbId.value, torrents));
    store.Put(userId, Session(Some(MovieRecord(d)), Some(torrents), None, None));
  }
}

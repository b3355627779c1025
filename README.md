# Watch-party bot and Discord Activity — a Dafny model

This project models the core of a Discord bot for watching films together:
the slash commands and components that look a title up on IMDb or TMDB,
gather torrent streams, turn the one chosen into a Real-Debrid link and a
watch-party room, and the Discord Activity page (`discord-activity/`) that
plays a stream in sync among the people in a voice channel.

The modules follow the source files:

- `Js` holds the JavaScript built-ins the handlers use: `split`/`join`, `substring`, `slice`, `trim`, `filter`, `map`, `toUpperCase` on ASCII, `parseInt`, number-to-string rendering, JSON values and truthiness.
- `Uri` holds `encodeURIComponent` and `decodeURIComponent` over UTF-8, and `URLSearchParams` parsing of a query string.
- `Tmdb`, `Imdb`, `Torrents`, `RealDebrid` and `WatchPartyService` model the service clients. HTTP responses are inputs. The requests made are outputs, recorded where the order matters (`RealDebrid.GetStreamingLink`).
- `Components` models the component listener, which routes a button or menu by custom id.
- `Sessions` models the per-user maps the handlers keep on the client object (`watchpartyData`, `recommendData`, `browseData`), as a class with lazy creation.
- `WatchParty`, `Recommend`, `Browse` and `Autocomplete` model the slash commands and component handlers that drive those sessions.
- `Activity` models the `/watch` activity command, its five-minute launch records and the launch button.
- `Player` models the video-player adapter of the Activity page.
- `Playback` models the page's coordinator: start-up, host election, inbound commands and outbound events.

Facts about the code that the model keeps:

- The host is the participant with the earliest join time. Ties stay in list order, because the sort is stable and has no id tie-break.
- A roster update elects a host only while none is set. There is no re-election when the host leaves.
- Nothing is re-broadcast when someone joins.
- Inbound commands are applied at once, with no queue, but only once the ACTIVITY_MESSAGE subscription is in place (see "## Findings").
- Seek times and rates are passed through unclamped.
- The Activity page decodes the launch query twice (App.jsx:62-71), and each /watch timer deletes the user's launch key whatever record it then holds (slashcommand-watchparty-activity.js:100-102). `Playback.Coordinator.Init` and `Activity.Launches.Tick` follow this code as written; the corrected behaviour is modelled beside it (see "## Findings").

## Model

| member | source | states |
|---|---|---|
| Js.Take | bot/commands/Entertainment/slashcommand-watchparty.js:141 | substring(0, n) is the prefix of exactly min(n, length) characters, so the whole string when it is short enough |
| Js.Prefix | bot/commands/Entertainment/slashcommand-watchparty.js:140 | slice(0, n) keeps exactly min(n, length) leading elements |
| Js.IndexOf | bot/services/TMDBService.js:105 | the index found is the first occurrence; None exactly when the character is absent |
| Js.Before | bot/services/TMDBService.js:105 | split(c)[0] is the longest prefix without c, followed in the input by c whenever c occurs |
| Js.BeforeSub | bot/services/TorrentService.js:156 | split(sep)[0] is a prefix with no earlier occurrence of sep, and sep follows it when it is shorter than the input |
| Js.Filter | bot/components/SelectMenu/recommend-select.js:128-132 | filter never grows the list and keeps an element exactly when it is in the input and satisfies the predicate |
| Js.FilterCount | bot/components/SelectMenu/recommend-select.js:128-132 | filter keeps every copy of a passing element and none of a failing one |
| Js.FilterAppend | bot/components/SelectMenu/recommend-select.js:128-132 | filter distributes over concatenation, so it keeps the input order |
| Js.FilterFilter | bot/components/SelectMenu/recommend-select.js:128-133 | filtering twice is filtering once by both predicates |
| Js.Map | bot/services/TorrentService.js:39 | map gives one result per element, in order |
| Js.FilterNone | bot/components/SelectMenu/recommend-select.js:128-133 | filtering with a predicate no element meets gives the empty list |
| Js.Trim | bot/services/TorrentService.js:156 | trim gives a contiguous slice of the input, with only whitespace before and after it and none at either of its ends |
| Js.TrimStart | bot/services/TorrentService.js:156 | trimStart drops only leading whitespace and leaves a suffix not starting with it |
| Js.TrimEnd | bot/services/TorrentService.js:156 | trimEnd drops only trailing whitespace and leaves a prefix not ending with it |
| Js.TrimStartAt | bot/services/TorrentService.js:156 | after whitespace up to the first other character, trimStart gives the text from that character |
| Js.UpperAscii | bot/services/TorrentService.js:119 | toUpperCase maps every character, keeping the length |
| Js.LowerAscii | src/services/RealDebridService.js:21 | toLowerCase maps every character, keeping the length |
| Js.Split | bot/components/SelectMenu/watchparty-season-select.js:19 | split gives at least one field and no field contains the separator |
| Js.SplitJoin | bot/components/SelectMenu/watchparty-season-select.js:19 | splitting a join of separator-free parts gives the parts back |
| Js.SecondField | bot/components/SelectMenu/recommend-select.js:29 | split(sep)[1] of 'a sep b sep rest' is b |
| Js.LastFieldAfter | bot/components/SelectMenu/watchparty-torrent-select.js:34-35 | the last field after a separator is the text after the last separator |
| Js.NatToString | bot/commands/Entertainment/slashcommand-watchparty.js:106 | a rendered natural number is a non-empty string of digits |
| Js.ParseIntOfNatToString | bot/components/SelectMenu/watchparty-season-select.js:21 | parseInt reads a rendered natural number back |
| Js.ParseIntOfIntToString | src/components/Button/recommend-buttons.js:194 | parseInt reads a rendered integer back, negatives included |
| Js.ParseIntOfNegative | src/components/Button/recommend-buttons.js:194 | parseInt of a '-' followed by decimal digits is the negated value of the digits |
| Js.ParseIntOfNumToString | bot/components/SelectMenu/watchparty-episode-select.js:22-23 | parseInt reads back any number rendered into a custom id, and the rendering has no '_' |
| Js.ParseIntOfWord | bot/commands/Entertainment/slashcommand-watchparty.js:100 | parseInt of a text whose first character is neither white space, a sign nor a digit is NaN |
| Js.Prop | bot/components/SelectMenu/watchparty-episode-select.js:50 | reading a property gives a value exactly when the key is present |
| Js.ParseInt | bot/components/SelectMenu/watchparty-season-select.js:21 | parseInt of an empty or all-white-space text is NaN, and of a non-empty run of decimal digits is their value |
| Js.Join | bot/services/TMDBService.js:121 | join of at least one part starts with the first part and ends with the last |
| Js.Text | bot/services/IMDbService.js:183 | template interpolation writes 'undefined' for a missing property, a string as itself, an empty array as '', a one-string array as that string, and a number so that parseInt reads it back |
| Uri.Utf8 | bot/services/WatchPartyService.js:16 | a character encodes to 1-4 UTF-8 bytes with the lead-byte ranges and continuation bytes of UTF-8 |
| Uri.Utf8RoundTrip | discord-activity/src/App.jsx:67 | decoding the UTF-8 bytes of a string gives the string back |
| Uri.EncodeChar | bot/services/WatchPartyService.js:16 | a character stays itself exactly when unreserved, and is otherwise written as %XX escapes |
| Uri.EncodeComponent | bot/services/WatchPartyService.js:16 | encodeURIComponent gives only unreserved characters and '%' |
| Uri.EncodeComponentAppend | bot/commands/Entertainment/slashcommand-watchparty-activity.js:58 | encoding distributes over concatenation |
| Uri.EncodeUnreservedIdentity | bot/commands/Entertainment/slashcommand-watchparty-activity.js:58 | a string of unreserved characters encodes to itself |
| Uri.EncodedHasNoDelimiters | bot/commands/Entertainment/slashcommand-watchparty-activity.js:58 | an encoded value holds no '&', '=', '+', '#', '?' or '/' and so cannot break the query string |
| Uri.DecodeComponent | discord-activity/src/App.jsx:67 | a successful decode is no longer than its input, and strictly shorter when the input has a '%' |
| Uri.DecodeEncodeComponent | discord-activity/src/App.jsx:67-70 | decodeURIComponent inverts encodeURIComponent |
| Uri.DecodeWithoutPercent | discord-activity/src/App.jsx:67 | a string without '%' decodes to itself |
| Uri.DecodeStrayPercent | discord-activity/src/App.jsx:70 | a '%' not followed by two hex digits makes decodeURIComponent throw |
| Uri.DecodeWithPercentChanges | discord-activity/src/App.jsx:67 | a string with a '%' never decodes to itself |
| Uri.ReplacePlus | discord-activity/src/App.jsx:62 | form decoding turns every '+' into a space and changes nothing else |
| Uri.PercentDecodeEncoded | discord-activity/src/App.jsx:62 | the percent-decoded bytes of an encoded string are the string's UTF-8 bytes |
| Uri.FormDecodeEncodeComponent | discord-activity/src/App.jsx:62-64 | URLSearchParams' decoding inverts encodeURIComponent |
| Uri.ParsePairsEncoded | discord-activity/src/App.jsx:62 | a 'name=encoded' piece parses to the pair of the name and the original value |
| Uri.QueryGet | discord-activity/src/App.jsx:63-64 | get returns only a value of a parsed pair under that name |
| Uri.QueryOfOne | bot/services/WatchPartyService.js:16 | get on '?name=encoded' gives the original value |
| Uri.QueryOfTwo | discord-activity/src/App.jsx:62-64 | get on a two-parameter query gives each original value under its own name |
| Uri.ParseQueryOfTwo | discord-activity/src/App.jsx:62 | a two-parameter query parses to exactly the two original pairs |
| Uri.ParseQuery | discord-activity/src/App.jsx:62 | an empty search or a bare '?' has no parameters, and a search without '&' has at most one |
| Uri.ParsePairs | discord-activity/src/App.jsx:62 | there are never more pairs than pieces, and exactly one pair per piece when no piece is empty |
| Uri.FormDecode | discord-activity/src/App.jsx:62 | a name or value of ASCII characters other than '+' and '%' decodes to itself |
| Uri.PercentDecodeWithoutPercent | discord-activity/src/App.jsx:62 | bytes without a '%' are left as they are by percent-decoding |
| Uri.Lookup | discord-activity/src/App.jsx:63-64 | get is null exactly when no pair has that name, and otherwise gives the value of the first pair with that name |
| Uri.DecodeStep | discord-activity/src/App.jsx:67 | one decoding step reads one to four bytes, gives U+FFFD when they are malformed, and reads an ASCII byte as its own character |
| Uri.Utf8Decode | discord-activity/src/App.jsx:67 | decoding never gives more characters than bytes, and ASCII bytes decode one to one to the same code points |
| Tmdb.GenreIdsSize | bot/services/TMDBService.js:146-154 | the genre table has exactly the seven genres offered |
| Tmdb.Year | bot/services/TMDBService.js:105 | the year is 'N/A' without a date, and otherwise a dash-free prefix of the date |
| Tmdb.YearOfDate | bot/services/TMDBService.js:105 | for a YYYY-MM-DD date the year is its four digits and parses back to that number |
| Tmdb.Rated | bot/services/TMDBService.js:106 | the rating is 'N/A' exactly when the vote average is missing or zero |
| Tmdb.Image | bot/services/TMDBService.js:109-110 | an image URL exists exactly when the path is truthy, and it is the base URL followed by the path |
| Tmdb.Votes | bot/services/TMDBService.js:107 | the vote count is the given count, or 0 when missing |
| Tmdb.FormatMovie | bot/services/TMDBService.js:102-111 | a list entry keeps the id and title, and the overview falls back to 'No overview available' |
| Tmdb.FormatMovies | bot/services/TMDBService.js:101-112 | formatting a list gives one record per movie in order |
| Tmdb.Names | bot/services/TMDBService.js:121 | join renders a missing name as the empty string |
| Tmdb.FindDirector | bot/services/TMDBService.js:120 | finds the first crew member whose job is 'Director', or none when no one has that job |
| Tmdb.Director | bot/services/TMDBService.js:120 | the director is 'N/A' or the name of a crew member whose job is 'Director', namely the first one when that one has a name |
| Tmdb.Cast | bot/services/TMDBService.js:121 | the cast is the first three names joined with ', ', and 'N/A' when there is no cast list or the join is empty |
| Tmdb.JoinEmpty | bot/services/TMDBService.js:121 | a join with a separator is empty exactly for no parts or one empty part |
| Tmdb.CastMissing | bot/services/TMDBService.js:121 | the cast is 'N/A' without a list, for an empty one or for a single unnamed member, and the join for two or more members |
| Tmdb.CastOfMany | bot/services/TMDBService.js:121 | with three or more members the cast names exactly the first three, in order |
| Tmdb.CastStartsWithFirstActor | bot/services/TMDBService.js:121 | the cast text starts with the first actor's name, and is that name for a single actor |
| Tmdb.JoinStartsWithFirst | bot/services/TMDBService.js:121 | a join starts with its first part |
| Tmdb.Runtime | bot/services/TMDBService.js:131 | the runtime is 'N/A' when missing or zero, and otherwise the number followed by ' min' |
| Tmdb.RuntimeReadsBack | bot/services/TMDBService.js:131 | the number before ' min' parses back to the runtime |
| Tmdb.Genres | bot/services/TMDBService.js:132 | the genres are all names joined with ', ', and 'N/A' when there is no list or the join is empty |
| Tmdb.GenresMissing | bot/services/TMDBService.js:132 | the genres are 'N/A' without a list, for an empty one or for a single unnamed genre, and the join for two or more |
| Tmdb.MoneyOf | bot/services/TMDBService.js:139-140 | a budget or revenue is 'N/A' exactly when missing or zero |
| Tmdb.FormatMovieDetails | bot/services/TMDBService.js:119-142 | the details keep the ids, date, year and tagline, and the IMDb id is present exactly when given |
| Imdb.PruneParams | bot/services/IMDbService.js:26-31 | deleting the undefined parameters keeps exactly the defined keys with their values |
| Imdb.SearchParamsDefined | bot/services/IMDbService.js:19-31 | the search request always sends the key, and each of s, type and y exactly when given |
| Imdb.SearchOutcome | bot/services/IMDbService.js:33-43 | a failed request is an error; a refused or empty search gives an empty list; otherwise the Search array |
| Imdb.CopyFields | bot/services/IMDbService.js:105-133 | the record only has keys that are targets of the field table |
| Imdb.CopyFieldsCopies | bot/services/IMDbService.js:105-133 | each target field is present exactly when its source field is, with the same value |
| Imdb.MovieFieldsDistinct | bot/services/IMDbService.js:106-131 | the field table's targets are distinct and none of them is 'poster' |
| Imdb.FormatMovieData | bot/services/IMDbService.js:105-133 | the result has a poster exactly when the response has one, null for 'N/A', and no keys besides the poster and the renamed movie fields |
| Imdb.FormatMovieDataFields | bot/services/IMDbService.js:105-133 | every movie field is copied from the response, and the poster is null when it is 'N/A' |
| Imdb.DetailsOutcome | bot/services/IMDbService.js:51-70 | a failed or refused lookup is an error, and otherwise the response formatted as a movie record |
| Imdb.EpisodeOf | bot/services/IMDbService.js:159-165 | reading an episode fails exactly on a null entry |
| Imdb.MapEpisodes | bot/services/IMDbService.js:159-165 | the episode list fails exactly when an entry is null, and otherwise maps each entry in order |
| Imdb.SeasonOutcome | bot/services/IMDbService.js:141-171 | a failed or refused season lookup is an error; a success holds the mapped Episodes array |
| Imdb.Choices | bot/services/IMDbService.js:182-185 | one choice per result, named 'Title (Year) - Type' with the IMDb id as value |
| Imdb.AutocompleteOptions | bot/services/IMDbService.js:178-190 | at most 25 choices; none on failure, on a non-list result or when one of the first 25 results is null; otherwise one choice per result among the first 25, in order, named 'Title (Year) - Type' with the IMDb id as value |
| Imdb.AutocompleteIgnoresTail | bot/services/IMDbService.js:182 | results after the first 25, nulls included, change nothing |
| Torrents.AltAt | bot/services/TorrentService.js:109 | the first alternative of a group that matches at a position, or none |
| Torrents.Leftmost | bot/services/TorrentService.js:117-118 | the leftmost position where some alternative matches, with no match earlier |
| Torrents.ExtractQuality | bot/services/TorrentService.js:107-124 | the quality is 'Unknown' exactly when no pattern occurs, and otherwise the upper-cased leftmost match of the first group that occurs |
| Torrents.UpperPatternsNotUnknown | bot/services/TorrentService.js:107-124 | no upper-cased pattern is 'Unknown', so a match is never mistaken for no match |
| Torrents.QualityRank | bot/services/TorrentService.js:131-144 | a quality ranks as the rank table says for its upper-case spelling, and 0 when the table does not hold it |
| Torrents.MatchedGroup | bot/services/TorrentService.js:116-121 | the index of the first pattern group that occurs in the title |
| Torrents.RankOfPattern | bot/services/TorrentService.js:131-144 | every pattern of group g ranks 5 - g |
| Torrents.RankOfSuffix | bot/services/TorrentService.js:116-144 | the rank of a quality found among the later groups follows its group |
| Torrents.RankOfQuality | bot/services/TorrentService.js:107-144 | the rank of the extracted quality is 5 minus the first group that occurs, and 0 when none occurs |
| Torrents.SeedersDigits | bot/services/TorrentService.js:72 | the digits captured are those after the leftmost seeder emoji at which the pattern matches; none when it matches nowhere |
| Torrents.DigitsAfter | bot/services/TorrentService.js:72 | the digits \s*(\d+) captures are a whole run after white space, and the only such capture |
| Torrents.SeedersOfTitle | bot/services/TorrentService.js:72-73 | a title whose only seeder emoji is followed by white space and digits has that many seeders |
| Torrents.Seeders | bot/services/TorrentService.js:72-73 | the seeder count is 0 without the marker and otherwise the parsed digits |
| Torrents.NumberPrefix | bot/services/TorrentService.js:76 | the longest prefix of number characters |
| Torrents.SizeAt | bot/services/TorrentService.js:76 | after the disk emoji and optional white space, the capture is a number, white space and a K/M/G/T unit ending in B, and the only such capture there |
| Torrents.SizeText | bot/services/TorrentService.js:76-77 | the size is the capture at the leftmost disk emoji where the pattern matches, and none when it matches nowhere |
| Torrents.SizeTextOfTitle | bot/services/TorrentService.js:76-77 | a title whose only disk emoji is followed by a size has that size |
| Torrents.SizeTextFirst | bot/services/TorrentService.js:76-77 | a size after the first disk emoji is the one found |
| Torrents.StreamTitle | bot/services/TorrentService.js:66 | the title is the stream title, else the name, else 'Unknown' |
| Torrents.Provider | bot/services/TorrentService.js:80 | the provider is the title's first line, or 'Unknown' when that line is empty |
| Torrents.MagnetLink | bot/services/TorrentService.js:83 | the magnet link is the btih URN of the info hash, then '&dn=', then the encoded title |
| Torrents.MagnetNameDecodes | bot/services/TorrentService.js:83 | the display name decodes back to the title and holds no '&', so it cannot end the parameter early |
| Torrents.CleanProvider | bot/services/TorrentService.js:156 | the cleaned provider is the trimmed text before the first line break or gear emoji, whichever comes first |
| Torrents.DisplayName | bot/services/TorrentService.js:154-159 | the option label is a prefix of the full text, at most 100 characters, and the whole text when it fits |
| Torrents.ParseStream | bot/services/TorrentService.js:64-100 | each field of a parsed torrent is what its scanner gives for the stream's title: quality, its rank, seeders, size or 'Unknown', provider, magnet link and label, with the hash kept |
| Torrents.ParsedRank | bot/services/TorrentService.js:64-100 | a parsed torrent ranks 5 minus the first pattern group its title matches |
| Torrents.InsertTorrent | bot/services/TorrentService.js:43-50 | inserting adds exactly the one torrent |
| Torrents.SortTorrents | bot/services/TorrentService.js:43-50 | the sort is a permutation |
| Torrents.InsertTorrentRanked | bot/services/TorrentService.js:43-50 | inserting into a ranked list keeps it ranked by quality, then by seeders |
| Torrents.SortTorrentsRanked | bot/services/TorrentService.js:43-50 | the sorted list is ranked by quality rank, then by seeders, both descending |
| Torrents.InsertTorrentKeys | bot/services/TorrentService.js:43-50 | inserting keeps the order among torrents of equal key |
| Torrents.SortTorrentsStable | bot/services/TorrentService.js:43-50 | the sort is stable: torrents of equal rank and seeders keep their order |
| Torrents.StreamId | bot/services/TorrentService.js:19-24 | a movie is looked up by its IMDb id, an episode by 'id:season:episode' |
| Torrents.ParseAll | bot/services/TorrentService.js:37-40 | the torrents are as many as the streams with an info hash, never more than the streams, each with a non-empty hash |
| Torrents.ParseAllAt | bot/services/TorrentService.js:37-40 | the i-th torrent is the i-th stream with an info hash, parsed |
| Torrents.SearchResult | bot/services/TorrentService.js:32-56 | a failed or empty response gives no torrents, and otherwise the parsed streams sorted |
| Torrents.SearchResultProperties | bot/services/TorrentService.js:37-52 | the result is ranked, a permutation of the parsed streams and stable |
| Torrents.BestQuality | bot/services/TorrentService.js:166-180 | the best torrent is the first with at least 5 seeders, or the first torrent when there is none |
| Torrents.FirstViable | bot/services/TorrentService.js:172-179 | finds the first torrent with at least 5 seeders, or none when there is no such torrent |
| Torrents.OfQuality | bot/services/TorrentService.js:187-199 | a group holds only torrents of that quality from the list |
| Torrents.OfQualitySnoc | bot/services/TorrentService.js:190-196 | appending a torrent appends it to its own group only |
| Torrents.OfQualityEmpty | bot/services/TorrentService.js:192-194 | a quality no torrent has has an empty group |
| Torrents.GroupByQuality | bot/services/TorrentService.js:187-199 | the map has a key exactly for each quality present, holding its non-empty group in list order |
| Torrents.GroupMap | bot/services/TorrentService.js:189-196 | every group is non-empty and holds only input torrents of that group's quality |
| Torrents.GroupMapGroups | bot/services/TorrentService.js:189-196 | pushing every torrent in turn onto its quality's group, creating the group on first use, leaves one group per quality present, each holding exactly that quality's torrents in list order |
| RealDebrid.FindHash | src/services/RealDebridService.js:20 | the first position from which 40 hex characters follow |
| RealDebrid.ExtractHash | src/services/RealDebridService.js:19-22 | the link is returned unchanged when it holds no hash, and otherwise the first hash, lower-cased |
| RealDebrid.AvailabilityPath | src/services/RealDebridService.js:24 | the path is empty without links and the link's hash for one link |
| RealDebrid.Hashes | src/services/RealDebridService.js:19-22 | one hash per link, in order |
| RealDebrid.AvailabilityPathFields | src/services/RealDebridService.js:19-24 | splitting the path on '/' gives the hashes back |
| RealDebrid.HashesHaveNoSlash | src/services/RealDebridService.js:19-22 | an extracted hash never contains '/', so it cannot split the availability path |
| RealDebrid.ExtractHashOfMagnet | src/services/RealDebridService.js:19-22 | the hash read from a magnet built by the torrent service is its info hash, lower-cased |
| RealDebrid.HashAfterPrefix | src/services/RealDebridService.js:20-21 | a hash directly after a prefix without one is the hash found |
| RealDebrid.FindHashFirst | src/services/RealDebridService.js:20 | the search finds the first hash position |
| RealDebrid.ReduceFrom | src/services/RealDebridService.js:148-150 | the reduce keeps the first of the longest links |
| RealDebrid.ChooseLink | src/services/RealDebridService.js:148-154 | when some link is non-empty the choice is a longest link and truthy; when all are empty it is falsy |
| RealDebrid.ChooseLinkLongest | src/services/RealDebridService.js:148-154 | the chosen link is the first longest one, and it is falsy exactly when all links are empty |
| RealDebrid.ReduceFalsy | src/services/RealDebridService.js:148-150 | the reduce from an empty start is falsy exactly when all links are empty |
| RealDebrid.Wrapped | src/services/RealDebridService.js:29-32 | a request failure becomes the step's own message, and a success is passed through |
| RealDebrid.AvailabilityUrl | src/services/RealDebridService.js:17-33 | the availability request goes to '/torrents/instantAvailability/' followed by the hashes joined with '/' |
| RealDebrid.AvailabilityUrlFields | src/services/RealDebridService.js:19-25 | when every link holds a hash, the path after the endpoint splits back into the hashes, one per link, in order |
| RealDebrid.Outcome | src/services/RealDebridService.js:129-164 | the run starts by adding the magnet and makes at most six calls; it succeeds exactly when every response succeeds, the info has links and a non-empty one is chosen, and then returns the unrestricted link after add, wait, select all, wait, info, unrestrict of the chosen link; a failure is one of the six step errors |
| RealDebrid.GetStreamingLink | src/services/RealDebridService.js:129-164 | the calls run add, wait, select all, wait, info, unrestrict; each failure stops the run with that step's message; torrent info without links stops it with the TypeError; the longest link is unrestricted |
| RealDebrid.DeleteTorrent | src/services/RealDebridService.js:171-179 | the delete request names the torrent, and failures are swallowed |
| WatchPartyService.CreateRoom | bot/services/WatchPartyService.js:14-17 | the room URL is the room page with the encoded video URL as its parameter |
| WatchPartyService.CreateWatchPartyUrl | bot/services/WatchPartyService.js:26-28 | the party URL is the room URL of the same video |
| WatchPartyService.TitleIgnored | bot/services/WatchPartyService.js:14-28 | the title does not affect the room URL |
| WatchPartyService.CreateRoomInjective | bot/services/WatchPartyService.js:16 | different videos get different rooms |
| WatchPartyService.CreateRoomDecodes | bot/services/WatchPartyService.js:16 | decoding the parameter gives the video URL back |
| WatchPartyService.CreateRoomQuery | bot/services/WatchPartyService.js:16 | the room page reads the video URL from its query |
| WatchPartyService.ValidateUrl | bot/services/WatchPartyService.js:35-46 | a URL is valid exactly when the HEAD request answers 200 |
| Components.Get | src/client/handler/ComponentsListener.js:27 | the exact-key lookup finds an entry with that key, or none exists |
| Components.FirstPrefix | src/client/handler/ComponentsListener.js:30-37 | the first entry whose dash-ended key prefixes the custom id, or none exists |
| Components.Lookup | src/client/handler/ComponentsListener.js:27-37 | the lookup loop resolves to the exact match, else the first prefix match |
| Components.ExactWins | src/client/handler/ComponentsListener.js:27-37 | an exact key wins over every prefix match |
| Components.PrefixFallback | src/client/handler/ComponentsListener.js:29-37 | without an exact key, a component is found exactly when a prefix matches, and it is the first one |
| Components.PlainKeyMatchesOnlyExactly | src/client/handler/ComponentsListener.js:32 | a key not ending in '-' only ever matches exactly |
| Components.Resolve | src/client/handler/ComponentsListener.js:26-63 | the button and select-menu lookup takes the exact key when one is registered, and otherwise a key ending in '-' that starts the id; it finds nothing exactly when neither exists |
| Components.LaunchActivityNeverMatches | src/client/handler/ComponentsListener.js:26-39 | a 'launch_activity_<user>' id with a non-empty user never resolves to the entry under the bare key 'launch_activity_' |
| Components.ResolveExact | src/client/handler/ComponentsListener.js:78-104 | the modal and autocomplete lookup finds a component exactly when one is registered under that key, and the one it finds has that key |
| Components.HandleComponent | src/client/handler/ComponentsListener.js:26-49 | an unknown id is ignored, a non-public component is refused to other users, otherwise the resolved component runs |
| Components.HandleExact | src/client/handler/ComponentsListener.js:78-104 | modals and autocompletes are ignored without an exact key, and otherwise run the component with that key |
| Sessions.Store.constructor | bot/components/SelectMenu/watchparty-torrent-select.js:20 | the map starts out not created and empty |
| Sessions.Store.Get | bot/components/SelectMenu/watchparty-torrent-select.js:20 | get gives the stored value exactly when the key is present |
| Sessions.Store.Create | bot/commands/Entertainment/slashcommand-watchparty.js:154-156 | creating the map keeps its entries |
| Sessions.Store.Set | bot/components/SelectMenu/recommend-select.js:36 | set updates that key only |
| Sessions.Store.Delete | bot/components/SelectMenu/watchparty-torrent-select.js:130 | delete removes that key only |
| Sessions.Store.Put | bot/commands/Entertainment/slashcommand-watchparty.js:154-160 | creating the map if needed and setting a key updates that key only |
| WatchParty.DigitsHaveNoUnderscore | bot/commands/Entertainment/slashcommand-watchparty.js:106 | a rendered season number has no '_' |
| WatchParty.SeasonValueRoundTrip | bot/components/SelectMenu/watchparty-season-select.js:18-21 | the season menu reads back the IMDb id and season the command put in the option value |
| WatchParty.EpisodeValueRoundTrip | bot/components/SelectMenu/watchparty-episode-select.js:19-23 | the episode menu reads back the id, season and episode the season menu put in the value |
| WatchParty.EpisodeValueSplits | bot/components/SelectMenu/watchparty-season-select.js:42 | an episode value splits into its four fields |
| WatchParty.DecodeEpisodeOfParts | bot/components/SelectMenu/watchparty-episode-select.js:19-23 | the decoded episode comes from fields 1, 2 and 3 |
| WatchParty.MovieTorrentValueRoundTrip | bot/components/SelectMenu/watchparty-torrent-select.js:34-35 | the torrent menu reads back the index of a movie torrent option |
| WatchParty.SeriesTorrentValueGivesEpisode | bot/components/SelectMenu/watchparty-episode-select.js:71 | for a series option the torrent menu reads the episode number as the index |
| WatchParty.TorrentOptions | bot/commands/Entertainment/slashcommand-watchparty.js:140-144 | one option per torrent, for at most 25, each valued with its own index |
| WatchParty.Selection | bot/components/SelectMenu/watchparty-torrent-select.js:34-43 | a selection is valid exactly when the parsed index is within the torrent list |
| WatchParty.TorrentOptionSelects | bot/components/SelectMenu/watchparty-torrent-select.js:34-36 | choosing the i-th movie option selects torrent i |
| WatchParty.SeriesTorrentOptions | bot/components/SelectMenu/watchparty-episode-select.js:69-73 | one option per torrent, for at most 25, each carrying the season and episode, captioned with the torrent's name cut to its first min(100, length) characters and described by its quality |
| WatchParty.SeriesOptionSelectsByEpisode | bot/components/SelectMenu/watchparty-torrent-select.js:34-36 | choosing any series option selects the torrent at the episode number, not the one chosen |
| WatchParty.EpisodeTorrentMenuUnhandled | bot/components/SelectMenu/watchparty-episode-select.js:76 | no registered menu key matches the series torrent menu's custom id, so it is never handled |
| WatchParty.SeasonCount | bot/commands/Entertainment/slashcommand-watchparty.js:100 | the season count is never 0 |
| WatchParty.SeasonCountOfDigits | bot/commands/Entertainment/slashcommand-watchparty.js:100 | a numeric totalSeasons gives that count |
| WatchParty.SeasonCountUnknown | bot/commands/Entertainment/slashcommand-watchparty.js:100 | a missing or 'N/A' totalSeasons gives one season |
| WatchParty.SeasonOptions | bot/commands/Entertainment/slashcommand-watchparty.js:101-109 | one option per season 1..min(count, 25) |
| WatchParty.SeasonOptionDecodes | bot/commands/Entertainment/slashcommand-watchparty.js:106 | every season option decodes to its id and season |
| WatchParty.EpisodeOptions | bot/components/SelectMenu/watchparty-season-select.js:40-44 | one option per episode, for at most 25, each the episode's own option, its caption at most 100 characters |
| WatchParty.EpisodeCaptions | bot/components/SelectMenu/watchparty-season-select.js:40-44 | every episode caption starts with 'Episode ' and fits in 100 characters |
| WatchParty.EpisodeOptionDecodes | bot/components/SelectMenu/watchparty-season-select.js:42 | every episode option decodes to the id, the season and that episode's number |
| WatchParty.LookupFor | bot/commands/Entertainment/slashcommand-watchparty.js:58-67 | look up by IMDb id when given, else by title; neither is an error |
| WatchParty.PlotText | bot/commands/Entertainment/slashcommand-watchparty.js:74-76 | a missing or 'N/A' plot gives the placeholder, a string plot is cut to 300 characters, and another value throws a TypeError |
| WatchParty.Kind | bot/commands/Entertainment/slashcommand-watchparty.js:84 | the embed needs a string type |
| WatchParty.Embed | bot/commands/Entertainment/slashcommand-watchparty.js:74-84 | the embed succeeds exactly when the plot and the type can be read |
| WatchParty.Command | bot/commands/Entertainment/slashcommand-watchparty.js:39-176 | /watchparty: missing input, lookup failure, series, movie without torrents and torrent menu outcomes, storing the session only for the torrent menu |
| WatchParty.WithSeason | bot/components/SelectMenu/watchparty-season-select.js:58-61 | the session gets the id and the season and keeps its movie data and torrents |
| WatchParty.SeasonSelect | bot/components/SelectMenu/watchparty-season-select.js:14-75 | the season menu decodes its value, errors on a failed or empty season, and stores the season only for an episode menu |
| WatchParty.EpisodeRecord | bot/components/SelectMenu/watchparty-episode-select.js:88-93 | the episode record is the show plus season, episode and 'Title - SxEy' |
| WatchParty.EpisodeRecordReadsBack | bot/components/SelectMenu/watchparty-episode-select.js:88-93 | the record's season and episode read back as numbers |
| WatchParty.WithEpisode | bot/components/SelectMenu/watchparty-episode-select.js:87-95 | the session gets the record and the torrents and keeps the id and season |
| WatchParty.EpisodeSelect | bot/components/SelectMenu/watchparty-episode-select.js:15-111 | the episode menu errors on a failed show, no torrents or an unreadable plot, and otherwise stores the episode and offers its torrents |
| WatchParty.TorrentSelect | bot/components/SelectMenu/watchparty-torrent-select.js:15-140 | an expired session or a bad index makes no Real-Debrid call; for a valid pick the calls are exactly the Real-Debrid run on the picked torrent's magnet, a failure of that run is replied with that run's error text, and a success creates a room on the unrestricted link with the movie's title and only then deletes the session |
| WatchParty.MovieRecord | src/components/Button/recommend-buttons.js:187-202 | the movie record has type 'movie', the overview as plot and the title when given |
| WatchParty.MovieRecordId | src/components/Button/recommend-buttons.js:189 | the record's imdbId reads back as the movie's IMDb id |
| WatchParty.MovieRecordVotes | src/components/Button/recommend-buttons.js:194 | the record's vote count reads back as the movie's |
| WatchParty.MovieRecordEmbeds | src/components/Button/recommend-buttons.js:187-202 | the record renders as a movie embed with its overview |
| WatchParty.OfferMovie | src/components/Button/recommend-buttons.js:159-208 | no torrents leaves the session, and otherwise the movie and its torrents are stored and offered |
| Recommend.GenreId | bot/components/SelectMenu/recommend-select.js:115 | the genre id from the table, or 28 (action) when the genre is unknown |
| Recommend.OfferedGenresHaveIds | src/commands/Entertainment/slashcommand-recommend.js:53-60 | every genre offered has an id, and only action maps to 28 |
| Recommend.Candidates | bot/components/SelectMenu/recommend-select.js:125-145 | candidates are taken from the movies, are never more than them, and are never empty when there are movies |
| Recommend.CandidatesMatch | bot/components/SelectMenu/recommend-select.js:125-145 | candidates are the movies passing both filters, in order, when any passes, else the first 10, and never empty for a non-empty list |
| Recommend.Pick | bot/components/SelectMenu/recommend-select.js:148 | the pick is one of the first 10 candidates, and there is none only without candidates |
| Recommend.PickReachesEach | bot/components/SelectMenu/recommend-select.js:148 | every one of the first 10 candidates can be picked |
| Recommend.Exclude | src/components/Button/recommend-buttons.js:78-81 | with several candidates every copy of the last recommended movie is dropped and every other movie keeps its count |
| Recommend.ExcludeKeepsOrder | src/components/Button/recommend-buttons.js:78-81 | excluding distributes over concatenation, so the remaining candidates keep their order |
| Recommend.ExcludeLeavesAnother | src/components/Button/recommend-buttons.js:78-84 | with two distinct movies another one remains, and it is never the last recommended |
| Recommend.ExcludeEmptiesOneId | src/components/Button/recommend-buttons.js:78-85 | when all candidates share the last id, none remains and nothing can be picked |
| Recommend.WatchIdIsWatch | bot/components/SelectMenu/recommend-select.js:194 | the watch button's id routes to the 'watch' action |
| Recommend.Recommended | bot/components/SelectMenu/recommend-select.js:191-202 | the reply shows the movie and disables watch exactly without an IMDb id |
| Recommend.Start | src/commands/Entertainment/slashcommand-recommend.js:25-67 | /recommend needs an API key and otherwise starts an empty session |
| Recommend.Select | bot/components/SelectMenu/recommend-select.js:15-213 | the select menu needs a session, records genre, rating or year, and recommends from the filtered discover list |
| Recommend.Again | src/components/Button/recommend-buttons.js:30-138 | 'again' needs a session and recommends a different movie when there is one |
| Recommend.Watch | src/components/Button/recommend-buttons.js:140-209 | 'watch' needs a session and an IMDb id, and offers the torrents of the recommended movie |
| Browse.SourceFor | src/commands/Entertainment/slashcommand-browse.js:52-58 | 'popular' reads trending, and any other category discovers its genre |
| Browse.CategoriesHaveSources | src/commands/Entertainment/slashcommand-browse.js:18-25 | every offered category has a list to read |
| Browse.Loaded | src/commands/Entertainment/slashcommand-browse.js:71-79 | only movies whose details load are kept |
| Browse.LoadedAppend | src/commands/Entertainment/slashcommand-browse.js:71-79 | loading distributes over appending a movie |
| Browse.LoadedAll | src/commands/Entertainment/slashcommand-browse.js:71-79 | when every detail loads, the details come in the list's order |
| Browse.LoadedFrom | src/commands/Entertainment/slashcommand-browse.js:71-79 | every loaded detail is the details of some listed movie |
| Browse.Preload | src/commands/Entertainment/slashcommand-browse.js:71-79 | the loop loads the details of the first 10 movies |
| Browse.DisabledIffBlocked | bot/components/Button/browse-buttons.js:135-152 | prev and next are disabled exactly when their step would leave the list |
| Browse.Command | src/commands/Entertainment/slashcommand-browse.js:37-131 | /browse needs an API key, errors on an empty or unloadable list, and otherwise stores the session at index 0 |
| Browse.Navigate | bot/components/Button/browse-buttons.js:106-158 | the buttons need a session and move by one within the list, refusing to leave it |
| Browse.Watch | bot/components/Button/browse-buttons.js:33-104 | 'watch' needs a session and an IMDb id, and offers the torrents of the movie on screen |
| Player.ChooseSource | discord-activity/src/components/VideoPlayer.jsx:73-76 | HLS exactly for an .m3u8 URL where hls.js is supported, and the plain URL otherwise |
| Player.Recovery | discord-activity/src/components/VideoPlayer.jsx:94-112 | only fatal errors act: reload on network errors, recover on media errors, destroy otherwise |
| Player.VideoPlayer.constructor | discord-activity/src/components/VideoPlayer.jsx:7-10 | a new player is unmounted with no seek in progress |
| Player.VideoPlayer.Setup | discord-activity/src/components/VideoPlayer.jsx:45-151 | mounting picks the source, loads HLS where chosen, and gives controls and listeners to the host only |
| Player.VideoPlayer.Play | discord-activity/src/components/VideoPlayer.jsx:13-17 | play starts a mounted video and changes nothing else |
| Player.VideoPlayer.Pause | discord-activity/src/components/VideoPlayer.jsx:18-22 | pause stops a mounted video and changes nothing else |
| Player.VideoPlayer.SetCurrentTime | discord-activity/src/components/VideoPlayer.jsx:26-34 | a seek sets the time, raises the seeking flag and arms its timer |
| Player.VideoPlayer.SetPlaybackRate | discord-activity/src/components/VideoPlayer.jsx:38-42 | setting the rate changes only the rate |
| Player.VideoPlayer.SeekTimerFires | discord-activity/src/components/VideoPlayer.jsx:30-32 | the seek timer lowers the flag |
| Player.VideoPlayer.CurrentTime | discord-activity/src/components/VideoPlayer.jsx:23-25 | the time is 0 before mounting |
| Player.VideoPlayer.PlaybackRate | discord-activity/src/components/VideoPlayer.jsx:35-37 | the rate is never 0; it falls back to 1 |
| Player.VideoPlayer.Report | discord-activity/src/components/VideoPlayer.jsx:126-147 | the player takes on the event's state; only a listening player reports, a seek with the value it ended at, a rate change with the new rate, and a seek made by the player itself not at all |
| Player.VideoPlayer.ReadySignal | discord-activity/src/components/VideoPlayer.jsx:89-122 | onReady fires exactly for the signal the set-up effect attached it to: MANIFEST_PARSED when hls.js plays the stream, player.ready otherwise, and nothing before set-up |
| Player.ReadyAfterSetup | discord-activity/src/components/VideoPlayer.jsx:73-122 | after set-up, MANIFEST_PARSED fires onReady exactly when the URL contains '.m3u8' and hls.js is supported, and player.ready fires it exactly in every other case |
| Player.VideoPlayer.HlsError | discord-activity/src/components/VideoPlayer.jsx:94-112 | an HLS error adds its recovery call and changes nothing else |
| Player.SeekIsNotEchoed | discord-activity/src/components/VideoPlayer.jsx:138-142 | the seeked event of a programmatic seek is not reported |
| Playback.InsertByJoin | discord-activity/src/App.jsx:83-85 | inserting adds exactly the one participant |
| Playback.SortByJoin | discord-activity/src/App.jsx:83-85 | the sort is a permutation |
| Playback.InsertByJoinSorted | discord-activity/src/App.jsx:83-85 | inserting keeps the list ordered by join time |
| Playback.SortByJoinSorted | discord-activity/src/App.jsx:83-85 | the sorted list is ordered by join time |
| Playback.FirstEarliest | discord-activity/src/App.jsx:82-86 | the first participant with the earliest join time |
| Playback.SortHeadIsFirstEarliest | discord-activity/src/App.jsx:83-86 | the stable sort puts that participant first |
| Playback.ElectHost | discord-activity/src/App.jsx:82-87 | the host is a participant and is the first to have joined |
| Playback.InitialHost | discord-activity/src/App.jsx:80-90 | the host at start-up is the elected participant, or the local user when the roster is empty |
| Playback.ElectedJoinedFirst | discord-activity/src/App.jsx:82-86 | no participant joined before the host |
| Playback.StreamParamsAsWritten | discord-activity/src/App.jsx:62-74 | a missing stream URL is an error, and the URL read is a second decode of the query value |
| Playback.StreamParams | discord-activity/src/App.jsx:62-74 | a missing or empty stream URL is the only error; the URL and title are the query values, decoded once |
| Playback.SecondDecode | discord-activity/src/App.jsx:66-71 | the second decode agrees with the first only when the URL has no '%' |
| Playback.ErrorText | discord-activity/src/App.jsx:108-111 | the error shown is the message, or the fallback when it is empty |
| Playback.Coordinator.constructor | discord-activity/src/App.jsx:10-21 | the page starts loading, without a host, and titled 'Watch Party' |
| Playback.Coordinator.Fail | discord-activity/src/App.jsx:108-111 | the catch block shows the error's message, or the default text when it is empty, and stops loading without subscribing to the roster or electing a host |
| Playback.Coordinator.Init | discord-activity/src/App.jsx:24-112 | start-up stops at the first failure with its message: readiness, authentication, the launch query decoded twice, the roster request; otherwise it shows the stream with the elected host; the sync effect runs while loading and does not subscribe |
| Playback.Coordinator.Start | discord-activity/src/App.jsx:77-107 | start-up records the roster, the host and the launch parameters, subscribes to the roster and stops loading; the local user is host exactly when elected |
| Playback.Coordinator.RosterUpdate | discord-activity/src/App.jsx:94-105 | a roster update replaces the list and elects a host only while none is set |
| Playback.Coordinator.MountPlayer | discord-activity/src/App.jsx:217-226 | the player mounts with controls and listeners for the host only |
| Playback.Coordinator.HandleCommand | discord-activity/src/App.jsx:123-142 | a command plays, pauses, seeks or sets the rate of the mounted player |
| Playback.Coordinator.SyncEffect | discord-activity/src/App.jsx:119-154 | the sync effect subscribes to ACTIVITY_MESSAGE exactly when the SDK is set and the player is mounted, and otherwise returns without changing anything |
| Playback.Coordinator.Inbound | discord-activity/src/App.jsx:123-149 | without the subscription a message changes nothing; with it, messages sent by the local user are ignored and others are applied |
| Playback.Coordinator.MountPlayerSubscribed | discord-activity/src/App.jsx:119-154 | corrected: mounting the player also runs the sync effect, so the subscription is then in place |
| Playback.Coordinator.SendCommand | discord-activity/src/App.jsx:157-166 | only a ready host publishes, and sending changes nothing else |
| Playback.Coordinator.LocalEvent | discord-activity/src/App.jsx:168-191 | a host publishes each event of its player once, a seek with its position and a rate change with its rate; a seek made by the player itself is not published, and a non-host publishes nothing |
| Playback.SyncSeek | discord-activity/src/App.jsx:124-191 | corrected: with the subscription in place, a seek the host makes is published and moves a viewer's player to the same position, without being reported back |
| Playback.SyncRate | discord-activity/src/App.jsx:124-191 | corrected: with the subscription in place, a rate the host picks is published and set on a viewer's player |
| Playback.ViewerIgnoresHostAsWritten | discord-activity/src/App.jsx:24-154 | as written, a viewer's start-up never subscribes to ACTIVITY_MESSAGE, so a host's seek and rate leave its player at position 0 and rate 1 |
| Playback.ViewerFollowsHost | discord-activity/src/App.jsx:24-154 | corrected, a rendered viewer is subscribed and a host's seek and rate move its player to that position and rate |
| Playback.Coordinator.SeekTimerTick | discord-activity/src/components/VideoPlayer.jsx:30-32 | the seek timer lowers the flag |
| Playback.NonHostStaysSilent | discord-activity/src/App.jsx:168-191 | any sequence of local events publishes nothing for a non-host |
| Activity.TitleOr | bot/commands/Entertainment/slashcommand-watchparty-activity.js:45 | the title is the given one, or 'Watch Party' |
| Activity.ActivityUrl | bot/commands/Entertainment/slashcommand-watchparty-activity.js:58 | the activity URL is the page plus the encoded query |
| Activity.NamesArePlain | bot/commands/Entertainment/slashcommand-watchparty-activity.js:58 | the parameter names are distinct and need no encoding |
| Activity.LaunchParamsRoundTrip | bot/commands/Entertainment/slashcommand-watchparty-activity.js:58 | the page, decoding once, reads back the stream URL and title the command wrote |
| Activity.LaunchParamsAsWritten | discord-activity/src/App.jsx:62-71 | the page as written reads them back exactly when neither holds a '%' |
| Activity.StrayPercentTitleFails | discord-activity/src/App.jsx:69-71 | a title with a stray '%' makes the page as written fail |
| Activity.PercentTitleExample | discord-activity/src/App.jsx:69-71 | the title '100% Wolf' fails as written and reads back when decoded once |
| Activity.Record | bot/commands/Entertainment/slashcommand-watchparty-activity.js:91-102 | storing a record sets that key only and arms a timer for it |
| Activity.Pending | bot/commands/Entertainment/slashcommand-watchparty-activity.js:100-102 | the timers still pending are those not yet due |
| Activity.EarlyExpiry | bot/commands/Entertainment/slashcommand-watchparty-activity.js:99-102 | as written, a second /watch within five minutes loses its record to the first timer |
| Activity.Fire | bot/commands/Entertainment/slashcommand-watchparty-activity.js:100-102 | firing timers only deletes records, never changing one |
| Activity.FireAsWritten | bot/commands/Entertainment/slashcommand-watchparty-activity.js:100-102 | as written, firing timers only deletes records, never changing one |
| Activity.FireAsWrittenKeeps | bot/commands/Entertainment/slashcommand-watchparty-activity.js:100-102 | as written, a record survives when none of its key's timers is due |
| Activity.FireAsWrittenRemoves | bot/commands/Entertainment/slashcommand-watchparty-activity.js:100-102 | as written, a due timer deletes its key, whatever record the key then holds |
| Activity.ExpireAsWritten | bot/commands/Entertainment/slashcommand-watchparty-activity.js:99-102 | as written, the due timers are dropped, a record stays exactly when no due timer has its key, and kept records are unchanged |
| Activity.Expire | bot/commands/Entertainment/slashcommand-watchparty-activity.js:99-102 | corrected, the due timers are dropped, only unchanged records stay, and a record younger than five minutes always stays |
| Activity.ExpireAsWrittenBound | bot/commands/Entertainment/slashcommand-watchparty-activity.js:99-102 | as written, a record never outlives its five minutes |
| Activity.ExpireAsWrittenArmed | bot/commands/Entertainment/slashcommand-watchparty-activity.js:99-102 | as written, expiry keeps every remaining record armed |
| Activity.FireKeepsYoung | bot/commands/Entertainment/slashcommand-watchparty-activity.js:99-102 | a record younger than five minutes survives every timer |
| Activity.FireRemovesDue | bot/commands/Entertainment/slashcommand-watchparty-activity.js:100-102 | a record whose own timer is due is deleted |
| Activity.ExpireExact | bot/commands/Entertainment/slashcommand-watchparty-activity.js:99-102 | a record lives exactly its five minutes |
| Activity.RecordArmed | bot/commands/Entertainment/slashcommand-watchparty-activity.js:91-102 | storing a record keeps every record armed |
| Activity.ExpireArmed | bot/commands/Entertainment/slashcommand-watchparty-activity.js:99-102 | expiry keeps every remaining record armed |
| Activity.Launches.constructor | bot/commands/Entertainment/slashcommand-watchparty-activity.js:87-89 | the store starts empty |
| Activity.Launches.Watch | bot/commands/Entertainment/slashcommand-watchparty-activity.js:34-110 | the command needs a voice channel and a valid URL, and then stores the launch under the user's key |
| Activity.Launches.Tick | bot/commands/Entertainment/slashcommand-watchparty-activity.js:100-102 | due timers fire as written, deleting their key whatever record it holds; remaining records are unchanged and stay armed |
| Activity.Press | bot/components/Button/watchparty-activity-button.js:13-53 | the button joins exactly when the record exists and the user is in its channel |
| Activity.ButtonAfterWatch | bot/components/Button/watchparty-activity-button.js:19-53 | pressed within five minutes from the same channel, with no earlier timer of the user due and no '%' in the values, the button gives the title and URL, from which the page as written reads back the stream |
| Activity.ButtonAfterWatchCorrected | bot/components/Button/watchparty-activity-button.js:19-53 | with the generation check and a single decode, the same holds for any earlier records and any values |
| Autocomplete.InsertSpace | bot/components/autocomplete/movieinfo-title-autocomplete.js:48-49 | the result is one character longer with a space at the split point, and taking that space out gives the query back |
| Autocomplete.RemoveSpaces | bot/components/autocomplete/movieinfo-title-autocomplete.js:40-49 | the reference inverse of every rewrite: its result holds no space |
| Autocomplete.RemoveInsertedSpace | bot/components/autocomplete/movieinfo-title-autocomplete.js:48-49 | removing spaces after inserting one gives the query back |
| Autocomplete.CamelSpace | bot/components/autocomplete/movieinfo-title-autocomplete.js:40 | the camelCase rewrite never shortens the query and keeps its first character |
| Autocomplete.CamelSpaceUnspaces | bot/components/autocomplete/movieinfo-title-autocomplete.js:40 | the camelCase rewrite only inserts spaces |
| Autocomplete.CamelSpaceChanges | bot/components/autocomplete/movieinfo-title-autocomplete.js:40-41 | the rewrite changes the query exactly when it has a lowercase-uppercase pair |
| Autocomplete.CamelSpaceSplitsAll | bot/components/autocomplete/movieinfo-title-autocomplete.js:40 | no lowercase-uppercase pair is left |
| Autocomplete.CamelSpaceIdempotent | bot/components/autocomplete/movieinfo-title-autocomplete.js:40 | rewriting twice changes nothing more |
| Autocomplete.RunFrom | bot/components/autocomplete/movieinfo-title-autocomplete.js:48-49 | counts the characters '.' matches from a position, stopping at the first line terminator |
| Autocomplete.LongRun | bot/components/autocomplete/movieinfo-title-autocomplete.js:48-49 | the first position from which '.' matches at least four characters, where both patterns first match |
| Autocomplete.FirstSplit | bot/components/autocomplete/movieinfo-title-autocomplete.js:48 | variation 1's split point comes after at least 3 characters and before the end |
| Autocomplete.LastSplit | bot/components/autocomplete/movieinfo-title-autocomplete.js:49 | variation 2's split point leaves at least one character before it and 3 after it |
| Autocomplete.Rewrite | bot/components/autocomplete/movieinfo-title-autocomplete.js:48-49 | a variation is the query with a space at its split point, or the query itself when the pattern does not match |
| Autocomplete.VariationsOfLine | bot/components/autocomplete/movieinfo-title-autocomplete.js:47-50 | on a one-line query, variation 1 splits after the 4th character (the 3rd for 4 characters) and variation 2 before the last 3 |
| Autocomplete.VariationsOfShort | bot/components/autocomplete/movieinfo-title-autocomplete.js:47-50 | a query of at most 3 characters has no variation |
| Autocomplete.Keep | bot/components/autocomplete/movieinfo-title-autocomplete.js:52-53 | the variations kept are those that differ from the query |
| Autocomplete.Candidates | bot/components/autocomplete/movieinfo-title-autocomplete.js:35-58 | the query itself is always searched first |
| Autocomplete.CamelRetry | bot/components/autocomplete/movieinfo-title-autocomplete.js:38-43 | the camelCase retry is tried only when it differs |
| Autocomplete.CandidatesOfSpaceFree | bot/components/autocomplete/movieinfo-title-autocomplete.js:35-58 | a query without spaces is tried as it is, then camel-cased, then at its split points |
| Autocomplete.CandidatesRestore | bot/components/autocomplete/movieinfo-title-autocomplete.js:38-58 | every retry differs from the query and gives it back once its spaces are removed |
| Autocomplete.TryVariations | bot/components/autocomplete/movieinfo-title-autocomplete.js:52-57 | the variations are searched in order until one finds something |
| Autocomplete.RetryVariations | bot/components/autocomplete/movieinfo-title-autocomplete.js:46-58 | after the query and its camelCase rewrite missed, the split-point rewrites are searched until one finds something |
| Autocomplete.Retry | bot/components/autocomplete/movieinfo-title-autocomplete.js:35-58 | the searches are the candidates up to and including the first that finds something |
| Autocomplete.Suggest | bot/components/autocomplete/movieinfo-title-autocomplete.js:13-68 | other options get nothing, short queries the placeholder, no results 'no_results', and otherwise the first results found |

## Left out

- HTTP requests (axios), Discord replies, deferrals and edits, and the Discord Embedded App SDK are not modelled. Their results are inputs, and the requests and messages sent are outputs.
- Network errors are modelled only as failures of those inputs, and request timeouts are not modelled.
- The 2-second waits of getStreamingLink are recorded as Wait calls, not as elapsed time.
- The 100 ms seek flag and the five-minute launch timers are modelled as explicit timer events. There is no wall-clock time.
- Activity.Launches.Tick fires all due timers at once rather than one callback at a time.
- Math.random is a parameter: the draw picks index `draw % n`, so every candidate can be picked.
- Concurrency is not modelled. Each handler runs to completion, and a component handler started without `await` is treated as finished before the next event.
- String lengths are counted in Unicode scalar values, but JavaScript counts UTF-16 code units. substring(0, 100), `length < 2` and the regex `.{3,4}` therefore differ for characters outside the Basic Multilingual Plane.
- The vote average is kept in tenths. toFixed(1) is its only rendering, and floating-point rounding is not modelled.
- Recommend.GenreId looks genre names up in a plain table. A name such as 'constructor' that an object literal inherits from its prototype is not modelled.
- Torrents.SortTorrents: the source sorts the array in place. The model sorts a sequence, so in-place update and aliasing are not captured.
- `new URL(...)` is not modelled. Whether it accepts a URL is an input of Activity.Launches.Watch.
- Numbers are unbounded integers: player positions and rates, the SEEK and RATE values, join times and JSON numbers. IEEE doubles, fractional seconds and rates such as 1.5 are not modelled, and neither is rounding.
- RealDebrid.GetStreamingLink: torrent info without a `links` field stops the run with the TypeError text of `reduce` on undefined (RealDebridService.js:147-149). An add response without an `id` is not modelled; its id is taken as given.
- Torrents.ParseAll: parseTorrentStream's catch block (TorrentService.js:96-99) is not modelled. No step of the parse can throw on a title made of Unicode scalar values, which is what the model's strings are. A stream whose title holds a lone surrogate would make encodeURIComponent throw a URIError; the catch and the `filter(t => t !== null)` would then drop it, and the model does not capture that.
- A thrown TypeError is modelled by its kind only, without its message text.
- Embed colours, footers, emoji, loading texts and button labels are not modelled, beyond the custom ids and values the handlers read back.
- The second copy of the recommend select menu (src/components/SelectMenu/recommend-select.js) is not modelled separately. It differs from bot/components/SelectMenu/recommend-select.js only in reply texts, and Recommend.Select models both.
- Autocomplete.Suggest: the catch block that responds with an empty list when a search throws is not modelled. Searches are total functions here; IMDbService already turns request failures into no choices.
- The ACTIVITY_MESSAGE subscription (App.jsx:119-154) depends only on discordSdk and auth. Both are set while the loading screen is shown (App.jsx:30, 59, 193-195), so the effect returns early every time it runs, and nothing runs it again once the player is mounted. As written, then, no participant applies another's commands; see "## Findings". `Playback.Coordinator.Init` and `Playback.Coordinator.MountPlayer` follow the code, and `Playback.SyncSeek` and `Playback.SyncRate` hold only for a viewer subscribed by the corrected `Playback.Coordinator.MountPlayerSubscribed`. How React schedules effects is not modelled beyond this.
- The bot/ component listener is not part of this model. Components.LaunchActivityNeverMatches is about the listener at src/client/handler/ComponentsListener.js.
- The help command, the movie-info command and the participants, loading and error screens are not part of this model.

## Findings

| source | as written | input that shows it | evidently intended | confidence | as-written member | corrected member |
|---|---|---|---|---|---|---|
| bot/commands/Entertainment/slashcommand-watchparty-activity.js:100-102 | each /watch arms a timer that deletes the user's launch key after five minutes, whatever record the key holds by then | the same user runs /watch at 0 ms and again at 60000 ms; at 300000 ms the first timer deletes the second record, which is only four minutes old | a record lives five minutes from its own /watch | not executed | Activity.EarlyExpiry | Activity.ExpireExact |
| discord-activity/src/App.jsx:62-71 | the stream URL and title are decoded by URLSearchParams and then again by decodeURIComponent | the title '100% Wolf' is read back by URLSearchParams as '100% Wolf', and decodeURIComponent then throws a URIError, so the page shows an error; a stream URL containing '%2F' is changed | each value is decoded once, giving back what the command encoded | not executed | Activity.PercentTitleExample | Activity.LaunchParamsRoundTrip |
| discord-activity/src/App.jsx:119-154 | the sync effect subscribes to ACTIVITY_MESSAGE only if the player is mounted, but it depends only on discordSdk and auth, which are both set while the loading screen hides the player | any viewer: after start-up and mounting the player, the host seeks to 120 and sets rate 2; the viewer's player stays at 0 and rate 1 | each participant subscribes once its player is mounted and follows the host's play, pause, seek and rate | not executed | Playback.ViewerIgnoresHostAsWritten | Playback.ViewerFollowsHost |

The rows above name both halves. `Activity.Launches.Tick` uses `Activity.ExpireAsWritten`, `Playback.Coordinator.Init` reads the query with `Playback.StreamParamsAsWritten`, and `Playback.Coordinator.MountPlayer` leaves the sync effect unrun, as the code does. `Playback.Coordinator.MountPlayerSubscribed` is the corrected mounting that `Playback.SyncSeek`, `Playback.SyncRate` and `Playback.ViewerFollowsHost` rely on. `Activity.ExpireExact`, `Activity.LaunchParamsRoundTrip` and `Activity.ButtonAfterWatchCorrected` prove the intended behaviour of the corrected definitions `Activity.Expire` and `Playback.StreamParams`.

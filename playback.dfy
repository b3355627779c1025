/**
  The Activity's App component as one participant sees it: it connects to
  Discord, reads the stream URL and title from its launch query, elects a
  host from the participants' join times, and then keeps its player in
  step with the others.  The host publishes PLAY, PAUSE, SEEK and RATE
  commands; every other participant applies the commands it receives.

  The Discord Embedded App SDK is an oracle: its answers (whether it
  became ready, who the user is, the participant roster, inbound
  messages) are inputs, and what the App hands to sendActivityMessage is
  recorded in `published`.
*/
module Playback {
  import opened Js
  import opened Uri
  import opened Player

  /** A participant of the Activity instance and when it joined, in
      milliseconds. */
  datatype Participant = Participant(id: string, joined: int)

  /** The data of an ACTIVITY_MESSAGE. */
  datatype Command = Play | Pause | Seek(time: int) | Rate(rate: int) | Unknown(kind: string)

  // ---------------------------------------------------------------------
  // Host election

  /** Inserts p in front of the first participant that did not join
      strictly earlier, so that equal join times keep their order. */
  function InsertByJoin(p: Participant, sorted: seq<Participant>): (r: seq<Participant>)
    ensures |r| == |sorted| + 1
    ensures multiset(r) == multiset(sorted) + multiset{p}
  {
    if sorted == [] then [p]
    else
      assert sorted == [sorted[0]] + sorted[1..];
      if sorted[0].joined < p.joined then [sorted[0]] + InsertByJoin(p, sorted[1..])
      else [p] + sorted
  }

  /** The participants sorted by join time with a stable sort, as
      Array.prototype.sort does with the comparator a.joined - b.joined. */
  function SortByJoin(ps: seq<Participant>): (r: seq<Participant>)
    ensures |r| == |ps|
    ensures multiset(r) == multiset(ps)
  {
    if ps == [] then []
    else
      assert ps == [ps[0]] + ps[1..];
      InsertByJoin(ps[0], SortByJoin(ps[1..]))
  }

  predicate SortedByJoin(r: seq<Participant>) {
    forall i, j :: 0 <= i < j < |r| ==> r[i].joined <= r[j].joined
  }

  /** Inserting keeps every join time at or above a common lower bound. */
  lemma {:induction false} InsertByJoinAbove(p: Participant, sorted: seq<Participant>, m: int)
    requires m <= p.joined
    requires forall i :: 0 <= i < |sorted| ==> m <= sorted[i].joined
    ensures forall i :: 0 <= i < |InsertByJoin(p, sorted)| ==> m <= InsertByJoin(p, sorted)[i].joined
  {
    if sorted != [] && sorted[0].joined < p.joined {
      InsertByJoinAbove(p, sorted[1..], m);
    }
  }

  lemma ConsSorted(a: Participant, rest: seq<Participant>)
    requires SortedByJoin(rest)
    requires forall i :: 0 <= i < |rest| ==> a.joined <= rest[i].joined
    ensures SortedByJoin([a] + rest)
  {
    var r := [a] + rest;
    forall i, j | 0 <= i < j < |r| ensures r[i].joined <= r[j].joined {
      assert r[j] == rest[j - 1];
      if i > 0 { assert r[i] == rest[i - 1]; }
    }
  }

  lemma {:induction false} InsertByJoinSorted(p: Participant, sorted: seq<Participant>)
    requires SortedByJoin(sorted)
    ensures SortedByJoin(InsertByJoin(p, sorted))
  {
    if sorted == [] {
    } else if sorted[0].joined < p.joined {
      var tail := sorted[1..];
      assert SortedByJoin(tail) by {
        forall i, j | 0 <= i < j < |tail| ensures tail[i].joined <= tail[j].joined {
          assert tail[i] == sorted[i + 1] && tail[j] == sorted[j + 1];
        }
      }
      InsertByJoinSorted(p, tail);
      assert forall i :: 0 <= i < |tail| ==> sorted[0].joined <= tail[i].joined by {
        forall i | 0 <= i < |tail| ensures sorted[0].joined <= tail[i].joined {
          assert tail[i] == sorted[i + 1];
        }
      }
      InsertByJoinAbove(p, tail, sorted[0].joined);
      ConsSorted(sorted[0], InsertByJoin(p, tail));
    } else {
      ConsSorted(p, sorted);
    }
  }

  /** The sorted copy really is ordered by join time. */
  lemma {:induction false} SortByJoinSorted(ps: seq<Participant>)
    ensures SortedByJoin(SortByJoin(ps))
  {
    if ps != [] {
      SortByJoinSorted(ps[1..]);
      InsertByJoinSorted(ps[0], SortByJoin(ps[1..]));
    }
  }

  /** The first position holding the smallest join time: an independent
      description of whom the election picks. */
  function FirstEarliest(ps: seq<Participant>): (k: nat)
    requires |ps| > 0
    ensures k < |ps|
    ensures forall j :: 0 <= j < |ps| ==> ps[k].joined <= ps[j].joined
    ensures forall j :: 0 <= j < k ==> ps[j].joined > ps[k].joined
  {
    if |ps| == 1 then 0
    else
      var k := FirstEarliest(ps[1..]);
      if ps[0].joined <= ps[k + 1].joined then 0 else k + 1
  }

  /** The head of the stable sort is the first participant among those
      with the smallest join time. */
  lemma {:induction false} SortHeadIsFirstEarliest(ps: seq<Participant>)
    requires |ps| > 0
    ensures SortByJoin(ps)[0] == ps[FirstEarliest(ps)]
  {
    if |ps| > 1 {
      SortHeadIsFirstEarliest(ps[1..]);
      var rest := SortByJoin(ps[1..]);
      assert rest[0] == ps[1..][FirstEarliest(ps[1..])];
    }
  }

  /** The host chosen at start-up from a non-empty roster: the first
      entry of the copy sorted by join time. */
  function ElectHost(ps: seq<Participant>): (host: string)
    requires |ps| > 0
    ensures host == ps[FirstEarliest(ps)].id
    ensures exists i :: 0 <= i < |ps| && ps[i].id == host
  {
    SortHeadIsFirstEarliest(ps);
    SortByJoin(ps)[0].id
  }

  /** The host at start-up: the elected participant, or the local user
      when nobody else is connected. */
  function InitialHost(uid: string, roster: seq<Participant>): (host: string)
    ensures roster == [] ==> host == uid
    ensures roster != [] ==> host == ElectHost(roster)
  {
    if |roster| > 0 then ElectHost(roster) else uid
  }

  /** Whoever the election picks joined no later than anybody else. */
  lemma ElectedJoinedFirst(ps: seq<Participant>, q: Participant)
    requires |ps| > 0 && q in ps
    ensures exists i :: 0 <= i < |ps| && ps[i].id == ElectHost(ps) && ps[i].joined <= q.joined
  {
    var k := FirstEarliest(ps);
    var j :| 0 <= j < |ps| && ps[j] == q;
    assert ps[k].joined <= ps[j].joined;
  }

  // ---------------------------------------------------------------------
  // Launch parameters

  /** The stream URL and the title (when one is given) as App.jsx reads
      them: URLSearchParams decodes them once and decodeURIComponent a
      second time; a missing or empty stream URL is an error. */
  function StreamParamsAsWritten(search: string): (r: Result<(string, Option<string>)>)
    ensures QueryGet(search, "streamUrl").GetOr("") == "" ==> r == Err("No stream URL provided")
    ensures r.Ok? ==> DecodeComponent(QueryGet(search, "streamUrl").value) == Ok(r.value.0)
  {
    var encodedUrl := QueryGet(search, "streamUrl");
    if encodedUrl.GetOr("") == "" then Err("No stream URL provided")
    else match DecodeComponent(encodedUrl.value)
      case Err(e) => Err(e)
      case Ok(url) =>
        var title := QueryGet(search, "title");
        if title.GetOr("") == "" then Ok((url, None))
        else match DecodeComponent(title.value)
          case Err(e) => Err(e)
          case Ok(t) => Ok((url, Some(t)))
  }

  /** The launch parameters decoded once, by URLSearchParams, as the
      activity command encoded them once: only a missing or empty stream
      URL is an error. */
  function StreamParams(search: string): (r: Result<(string, Option<string>)>)
    ensures r.Err? <==> QueryGet(search, "streamUrl").GetOr("") == ""
    ensures r.Err? ==> r.error == "No stream URL provided"
    ensures r.Ok? ==> Some(r.value.0) == QueryGet(search, "streamUrl")
    ensures r.Ok? ==> (r.value.1.Some? <==> QueryGet(search, "title").GetOr("") != "")
    ensures r.Ok? && r.value.1.Some? ==> r.value.1 == QueryGet(search, "title")
  {
    var url := QueryGet(search, "streamUrl");
    if url.GetOr("") == "" then Err("No stream URL provided")
    else
      var title := QueryGet(search, "title");
      Ok((url.value, if title.GetOr("") == "" then None else title))
  }

  /** Where the stream URL has no '%', decoding twice agrees with decoding
      once; where it has one, the second decode changes or rejects it. */
  lemma SecondDecode(search: string)
    requires StreamParams(search).Ok?
    ensures '%' !in StreamParams(search).value.0 ==>
      StreamParamsAsWritten(search).Ok? ==> StreamParamsAsWritten(search).value.0 == StreamParams(search).value.0
    ensures '%' in StreamParams(search).value.0 ==>
      StreamParamsAsWritten(search).Err? || StreamParamsAsWritten(search).value.0 != StreamParams(search).value.0
  {
    var url := StreamParams(search).value.0;
    if '%' !in url {
      DecodeWithoutPercent(url);
    } else {
      DecodeWithPercentChanges(url);
    }
  }

  /** The text the error screen shows for a thrown error. */
  function ErrorText(message: string): (t: string)
    ensures t != ""
    ensures message != "" ==> t == message
  {
    if message == "" then "Failed to initialize Discord Activity" else message
  }

  // ---------------------------------------------------------------------
  // One participant

  class Coordinator {
    const player: VideoPlayer
    /** Whether the browser supports hls.js. */
    const hlsSupported: bool
    /** auth?.user?.id */
    var localId: Option<string>
    /** discordSdk is set */
    var sdkReady: bool
    var loading: bool
    var error: Option<string>
    var streamUrl: string
    var title: string
    var participants: seq<Participant>
    /** hostIdRef.current */
    var hostId: Option<string>
    var isHost: bool
    /** The roster subscription is in place. */
    var rosterSubscribed: bool
    /** The ACTIVITY_MESSAGE subscription is in place. */
    var messagesSubscribed: bool
    /** Commands handed to sendActivityMessage, in order. */
    var published: seq<Command>

    /** The video player is rendered, so the App holds its handle. */
    predicate Rendered()
      reads this
    {
      !loading && error.None?
    }

    predicate Valid()
      reads this, player
    {
      player.Valid()
      && (hostId.Some? ==> localId.Some? && isHost == (localId.value == hostId.value))
      && (rosterSubscribed ==> hostId.Some? && sdkReady)
      && (Rendered() ==> rosterSubscribed)
      && (player.mounted ==> Rendered() && player.listening == isHost && player.controls == isHost)
      && (|published| > 0 ==> sdkReady)
      && (messagesSubscribed ==> sdkReady && player.mounted)
    }

    /** The component's first render. */
    constructor (hls: bool)
      ensures Valid()
      ensures hlsSupported == hls && fresh(player)
      ensures loading && error == None && !sdkReady && localId == None
      ensures hostId == None && !isHost && participants == [] && published == []
      ensures title == "Watch Party" && streamUrl == "" && !messagesSubscribed
      ensures !player.mounted && !player.seeking && player.time == 0 && player.rate == 1 && !player.playing
    {
      player := new VideoPlayer();
      hlsSupported := hls;
      localId := None;
      sdkReady := false;
      loading := true;
      error := None;
      streamUrl := "";
      title := "Watch Party";
      participants := [];
      hostId := None;
      isHost := false;
      rosterSubscribed := false;
      messagesSubscribed := false;
      published := [];
    }

    /** The start-up sequence.  readyFailure is the error of sdk.ready(),
        if it failed; auth is the authenticated user id, or the error of
        the authorize/token/authenticate exchange; search is the page's
        query string, read as the page reads it (decoded twice); roster is
        what getInstanceConnectedParticipants answered: its error, or its
        participants field, which may be missing.  With an empty roster
        the local user becomes host. */
    method Init(readyFailure: Option<string>, auth: Result<string>, search: string,
                roster: Result<Option<seq<Participant>>>)
      requires Valid() && loading && error == None && !sdkReady && hostId == None
      requires !rosterSubscribed && !player.mounted && published == []
      modifies this
      ensures Valid()
      ensures !loading && published == [] && !messagesSubscribed
      ensures sdkReady <==> readyFailure.None?
      ensures readyFailure.Some? ==> error == Some(ErrorText(readyFailure.value))
      ensures readyFailure.None? && auth.Err? ==> error == Some(ErrorText(auth.error))
      ensures readyFailure.None? && auth.Ok? ==> localId == Some(auth.value)
      ensures readyFailure.None? && auth.Ok? && StreamParamsAsWritten(search).Err? ==>
        error == Some(ErrorText(StreamParamsAsWritten(search).error)) && hostId == old(hostId)
      ensures readyFailure.None? && auth.Ok? && StreamParamsAsWritten(search).Ok? && roster.Err? ==>
        error == Some(ErrorText(roster.error)) && hostId == old(hostId)
      ensures Rendered() <==> readyFailure.None? && auth.Ok? && StreamParamsAsWritten(search).Ok? && roster.Ok?
      ensures Rendered() ==> (isHost <==> hostId == Some(auth.value))
      ensures Rendered() ==>
        streamUrl == StreamParamsAsWritten(search).value.0
        && title == StreamParamsAsWritten(search).value.1.GetOr(old(title))
        && participants == roster.value.GetOr([])
        && hostId == Some(InitialHost(auth.value, roster.value.GetOr([])))
        && rosterSubscribed
    {
      if readyFailure.Some? {
        Fail(readyFailure.value);
        return;
      }
      sdkReady := true;
      SyncEffect();
      if auth.Err? {
        Fail(auth.error);
        return;
      }
      localId := Some(auth.value);
      SyncEffect();
      var params := StreamParamsAsWritten(search);
      if params.Err? {
        Fail(params.error);
        return;
      }
      if roster.Err? {
        Fail(roster.error);
        return;
      }
      var ps := roster.value.GetOr([]);
      var host := InitialHost(auth.value, ps);
      Start(auth.value, params.value.0, params.value.1, ps, host);
    }

    /** The catch block of the start-up: show the error and stop loading. */
    method Fail(message: string)
      requires Valid() && loading && error == None && !rosterSubscribed && !player.mounted
      modifies this
      ensures Valid() && !loading && error == Some(ErrorText(message))
      ensures sdkReady == old(sdkReady) && localId == old(localId) && hostId == old(hostId)
      ensures published == old(published) && !rosterSubscribed && messagesSubscribed == old(messagesSubscribed)
    {
      error := Some(ErrorText(message));
      loading := false;
    }

    /** Start-up once the user is known, the launch parameters were read
        and the host was elected: record the roster and the host, subscribe
        to roster updates, and stop loading. */
    method Start(uid: string, url: string, givenTitle: Option<string>, roster: seq<Participant>, host: string)
      requires Valid() && loading && error == None && sdkReady && localId == Some(uid) && hostId == None
      requires !rosterSubscribed && !player.mounted && published == []
      modifies this
      ensures Valid() && Rendered() && rosterSubscribed
      ensures published == [] && sdkReady && localId == Some(uid)
      ensures streamUrl == url && title == givenTitle.GetOr(old(title)) && participants == roster
      ensures hostId == Some(host) && messagesSubscribed == old(messagesSubscribed)
      ensures isHost <==> host == uid
    {
      streamUrl := url;
      title := givenTitle.GetOr(title);
      participants := roster;
      hostId := Some(host);
      isHost := uid == host;
      rosterSubscribed := true;
      loading := false;
    }

    /** The roster subscription: the list is always replaced, and a host is
        elected only while hostIdRef holds nothing (null or an empty id). */
    method RosterUpdate(roster: seq<Participant>)
      requires Valid() && rosterSubscribed
      modifies this, player
      ensures Valid()
      ensures participants == roster
      ensures old(hostId.value) != "" ==> hostId == old(hostId) && isHost == old(isHost) && unchanged(player)
      ensures old(hostId.value) == "" && |roster| > 0 ==> hostId == Some(ElectHost(roster))
      ensures old(hostId.value) == "" && |roster| == 0 ==> hostId == old(hostId)
      ensures published == old(published) && localId == old(localId) && sdkReady == old(sdkReady)
      ensures loading == old(loading) && error == old(error) && rosterSubscribed
    {
      participants := roster;
      if |roster| > 0 && hostId.value == "" {
        hostId := Some(ElectHost(roster));
        var changed := isHost != (localId.value == hostId.value);
        isHost := localId.value == hostId.value;
        if player.mounted && changed {
          // The player is set up again for the new role.
          player.Setup(streamUrl, isHost, hlsSupported);
        }
      }
    }

    /** Corrected mounting: the sync effect also depends on the player's
        handle, so it runs again once the player is mounted and the
        subscription is made. */
    method MountPlayerSubscribed()
      requires Valid() && Rendered() && !player.mounted
      modifies this, player
      ensures Valid() && Rendered() && messagesSubscribed
      ensures player.mounted && player.listening == isHost && player.controls == isHost
      ensures player.source == ChooseSource(streamUrl, hlsSupported)
      ensures player.time == 0 && player.rate == 1 && !player.playing && player.seeking == old(player.seeking)
      ensures localId == old(localId) && isHost == old(isHost) && hostId == old(hostId)
    {
      MountPlayer();
      SyncEffect();
    }

    /** The video player's effect runs once the App renders it. */
    method MountPlayer()
      requires Valid() && Rendered() && !player.mounted
      modifies player
      ensures Valid()
      ensures player.mounted && player.listening == isHost && player.controls == isHost
      ensures player.source == ChooseSource(streamUrl, hlsSupported)
      ensures player.time == 0 && player.rate == 1 && !player.playing && player.seeking == old(player.seeking)
    {
      player.Setup(streamUrl, isHost, hlsSupported);
    }

    /** handleCommand: applies a command to the player's handle; without a
        handle, or for an unknown type, nothing happens. */
    method HandleCommand(cmd: Command)
      requires Valid()
      modifies player
      ensures Valid()
      ensures !Rendered() || cmd.Unknown? ==> unchanged(player)
      ensures Rendered() && cmd == Play ==> player.playing == (old(player.playing) || player.mounted)
      ensures Rendered() && cmd == Pause ==> player.playing == (old(player.playing) && !player.mounted)
      ensures Rendered() && cmd.Seek? && player.mounted ==> player.time == cmd.time && player.seeking
      ensures Rendered() && cmd.Rate? && player.mounted ==> player.rate == cmd.rate
      ensures cmd.Rate? ==> player.time == old(player.time) && player.seeking == old(player.seeking)
      ensures player.mounted == old(player.mounted) && player.listening == old(player.listening)
    {
      if !Rendered() {
        return;
      }
      match cmd
      case Play => player.Play();
      case Pause => player.Pause();
      case Seek(t) => player.SetCurrentTime(t);
      case Rate(r) => player.SetPlaybackRate(r);
      case Unknown(_) =>
    }

    /** The sync effect, run after a render in which discordSdk or auth
        changed: it returns at once while the SDK or the player's handle is
        missing, and otherwise subscribes to ACTIVITY_MESSAGE. */
    method SyncEffect()
      requires Valid()
      modifies this
      ensures Valid()
      ensures messagesSubscribed <==> old(messagesSubscribed) || (sdkReady && player.mounted)
      ensures localId == old(localId) && sdkReady == old(sdkReady) && isHost == old(isHost)
      ensures hostId == old(hostId) && participants == old(participants) && rosterSubscribed == old(rosterSubscribed)
      ensures loading == old(loading) && error == old(error) && published == old(published)
      ensures streamUrl == old(streamUrl) && title == old(title)
    {
      if sdkReady && player.mounted {
        messagesSubscribed := true;
      }
    }

    /** An ACTIVITY_MESSAGE arrives from sender.  Without the subscription
        nobody hears it; with it, the local user's own messages are
        dropped and all others are applied. */
    method Inbound(sender: string, cmd: Command)
      requires Valid()
      modifies player
      ensures Valid()
      ensures !messagesSubscribed || localId == Some(sender) ==> unchanged(player)
      ensures messagesSubscribed && localId != Some(sender) && Rendered() && cmd.Seek? ==> player.time == cmd.time && player.seeking
      ensures messagesSubscribed && localId != Some(sender) && Rendered() && cmd.Rate? ==> player.rate == cmd.rate
      ensures messagesSubscribed && localId != Some(sender) && Rendered() && cmd == Play ==> player.playing
      ensures messagesSubscribed && localId != Some(sender) && Rendered() && cmd == Pause ==> !player.playing
      ensures cmd.Rate? ==> player.time == old(player.time) && player.seeking == old(player.seeking)
      ensures player.mounted == old(player.mounted) && player.listening == old(player.listening)
    {
      if messagesSubscribed && localId != Some(sender) {
        HandleCommand(cmd);
      }
    }

    /** sendCommand: only a host with a connected SDK publishes; a failed
        publish is only logged, so the attempt is all that is recorded. */
    method SendCommand(cmd: Command)
      modifies this
      ensures sdkReady && isHost ==> published == old(published) + [cmd]
      ensures !(sdkReady && isHost) ==> published == old(published)
      ensures localId == old(localId) && sdkReady == old(sdkReady) && isHost == old(isHost)
      ensures hostId == old(hostId) && participants == old(participants) && rosterSubscribed == old(rosterSubscribed)
      ensures loading == old(loading) && error == old(error) && messagesSubscribed == old(messagesSubscribed)
      ensures streamUrl == old(streamUrl) && title == old(title)
    {
      if !sdkReady || !isHost {
        return;
      }
      published := published + [cmd];
    }

    /** A video.js event on this participant's player, passed through the
        player's listeners to handlePlay, handlePause, handleSeek or
        handleRateChange. */
    method LocalEvent(ev: MediaEvent)
      requires Valid()
      modifies this, player
      ensures Valid()
      ensures !isHost ==> published == old(published)
      ensures |old(published)| <= |published| <= |old(published)| + 1
      ensures published[..|old(published)|] == old(published)
      ensures isHost && ev == PlayEvent && player.listening ==> published == old(published) + [Play]
      ensures isHost && ev == PauseEvent && player.listening ==> published == old(published) + [Pause]
      ensures isHost && ev.SeekedEvent? && player.listening && !player.seeking ==>
        published == old(published) + [Seek(ev.position)]
      ensures ev.SeekedEvent? && player.seeking ==> published == old(published)
      ensures isHost && ev.RateChangeEvent? && player.listening ==> published == old(published) + [Rate(ev.speed)]
      ensures player.mounted && ev.SeekedEvent? ==> player.time == ev.position
      ensures player.mounted && ev.RateChangeEvent? ==> player.rate == ev.speed
      ensures player.seeking == old(player.seeking) && player.listening == old(player.listening)
      ensures localId == old(localId) && isHost == old(isHost) && hostId == old(hostId)
    {
      var out := player.Report(ev);
      match out {
        case None =>
        case Some(o) =>
          var cmd := match o
            case Played => Play
            case Paused => Pause
            case Seeked(t) => Seek(t)
            case RateChanged(r) => Rate(r);
          if isHost {
            SendCommand(cmd);
          }
      }
    }

    /** A 100 ms seek timer of the player fires. */
    method SeekTimerTick()
      requires Valid() && player.seekTimers > 0
      modifies player
      ensures Valid()
      ensures !player.seeking
    {
      player.SeekTimerFires();
    }
  }

  /** A participant who is not host never publishes, whatever happens to
      its player. */
  method NonHostStaysSilent(c: Coordinator, events: seq<MediaEvent>)
    requires c.Valid() && !c.isHost
    modifies c, c.player
    ensures c.published == old(c.published)
  {
    var i := 0;
    while i < |events|
      invariant 0 <= i <= |events|
      invariant c.Valid() && !c.isHost
      invariant c.published == old(c.published)
    {
      c.LocalEvent(events[i]);
      i := i + 1;
    }
  }

  /** A seek the host makes by hand reaches every other participant: the
      host publishes it, and a viewer that receives it moves its player to
      the same position without reporting the seek back. */
  method SyncSeek(host: Coordinator, viewer: Coordinator, t: int)
    requires host != viewer && host.player != viewer.player
    requires host.Valid() && viewer.Valid()
    requires host.isHost && host.player.listening && !host.player.seeking
    requires viewer.Rendered() && viewer.messagesSubscribed && viewer.localId != host.localId
    modifies host, host.player, viewer.player
    ensures host.published == old(host.published) + [Seek(t)]
    ensures host.player.time == t && viewer.player.time == t
    ensures viewer.player.seeking
  {
    host.LocalEvent(SeekedEvent(t));
    viewer.Inbound(host.localId.value, host.published[|host.published| - 1]);
  }

  /** Likewise for a rate the host picks from the rate menu. */
  method SyncRate(host: Coordinator, viewer: Coordinator, r: int)
    requires host != viewer && host.player != viewer.player
    requires host.Valid() && viewer.Valid()
    requires host.isHost && host.player.listening
    requires viewer.Rendered() && viewer.messagesSubscribed && viewer.localId != host.localId
    modifies host, host.player, viewer.player
    ensures host.published == old(host.published) + [Rate(r)]
    ensures host.player.rate == r && viewer.player.rate == r
  {
    host.LocalEvent(RateChangeEvent(r));
    viewer.Inbound(host.localId.value, host.published[|host.published| - 1]);
  }

  /** A viewer's start-up as the page is written: the sync effect runs when
      discordSdk and auth are set, both while the loading screen is shown,
      and never again once the player is mounted.  A host's seek and rate
      then leave the viewer's player where it started. */
  method ViewerIgnoresHostAsWritten(hls: bool, auth: Result<string>, search: string,
                                    roster: Result<Option<seq<Participant>>>, hostId: string, t: int, r: int)
    returns (viewer: Coordinator)
    ensures viewer.Valid() && !viewer.messagesSubscribed
    ensures viewer.Rendered() <==> auth.Ok? && StreamParamsAsWritten(search).Ok? && roster.Ok?
    ensures viewer.Rendered() ==> viewer.player.mounted
    ensures viewer.player.time == 0 && viewer.player.rate == 1 && !viewer.player.seeking
  {
    viewer := new Coordinator(hls);
    viewer.Init(None, auth, search, roster);
    if viewer.Rendered() {
      viewer.MountPlayer();
    }
    viewer.Inbound(hostId, Seek(t));
    viewer.Inbound(hostId, Rate(r));
  }

  /** The same start-up with the corrected effect: once the page renders,
      a host's seek and rate reach the viewer's player. */
  method ViewerFollowsHost(hls: bool, auth: Result<string>, search: string,
                           roster: Result<Option<seq<Participant>>>, hostId: string, t: int, r: int)
    returns (viewer: Coordinator)
    ensures viewer.Valid()
    ensures viewer.Rendered() <==> auth.Ok? && StreamParamsAsWritten(search).Ok? && roster.Ok?
    ensures viewer.Rendered() ==> viewer.messagesSubscribed && viewer.player.mounted
    ensures viewer.Rendered() && auth.value != hostId ==>
      viewer.player.time == t && viewer.player.rate == r && viewer.player.seeking
  {
    viewer := new Coordinator(hls);
    viewer.Init(None, auth, search, roster);
    if viewer.Rendered() {
      viewer.MountPlayerSubscribed();
    }
    viewer.Inbound(hostId, Seek(t));
    viewer.Inbound(hostId, Rate(r));
  }
}

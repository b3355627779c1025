/**
  The Activity's VideoPlayer component, seen from outside: an imperative
  handle (play, pause, currentTime and playbackRate) over a video.js player,
  the choice between an hls.js stream and a direct mp4 source, the
  host-only listeners that report local playback changes, and the seeking
  flag that keeps a programmatic seek from being reported back.

  Times and rates are opaque integers; the browser's media element itself
  is not modelled, only what the component does with it.
*/
module Player {
  import opened Js

  /** What the host's player reports through onPlay, onPause, onSeek and
      onRateChange. */
  datatype Outbound = Played | Paused | Seeked(time: int) | RateChanged(rate: int)

  /** The video.js events the component listens to, each with the state
      the media element has reached: the position a seek ended at, the
      rate a rate change set. */
  datatype MediaEvent = PlayEvent | PauseEvent | SeekedEvent(position: int) | RateChangeEvent(speed: int)

  /** Which source the player was given. */
  datatype Source = NoSource | HlsStream(url: string) | Mp4(url: string)

  datatype HlsErrorType = NetworkError | MediaError | OtherError

  /** The signals onReady can be attached to: hls.js's MANIFEST_PARSED
      event, or video.js's player.ready callback. */
  datatype ReadySource = ManifestParsed | PlayerReady

  /** Calls made on the hls.js instance, in order. */
  datatype HlsCall = LoadSource(url: string) | AttachMedia | StartLoad | RecoverMediaError | Destroy

  /** HLS is used exactly for URLs containing ".m3u8" when the browser
      supports hls.js; every other URL is handed to video.js as mp4. */
  function ChooseSource(url: string, hlsSupported: bool): (s: Source)
    ensures s.HlsStream? <==> Contains(url, ".m3u8") && hlsSupported
    ensures s.HlsStream? ==> s.url == url
    ensures s.Mp4? ==> s.url == url
    ensures !s.NoSource?
  {
    if Contains(url, ".m3u8") && hlsSupported then HlsStream(url) else Mp4(url)
  }

  /** The recovery step for an hls.js error: fatal network errors restart
      loading, fatal media errors ask for recovery, other fatal errors
      destroy the instance, and non-fatal errors are ignored. */
  function Recovery(fatal: bool, kind: HlsErrorType): (r: Option<HlsCall>)
    ensures r.None? <==> !fatal
    ensures r == Some(StartLoad) <==> fatal && kind == NetworkError
    ensures r == Some(RecoverMediaError) <==> fatal && kind == MediaError
    ensures r == Some(Destroy) <==> fatal && kind == OtherError
  {
    if !fatal then None
    else match kind
      case NetworkError => Some(StartLoad)
      case MediaError => Some(RecoverMediaError)
      case OtherError => Some(Destroy)
  }

  class VideoPlayer {
    /** playerRef.current is set: the video.js player exists. */
    var mounted: bool
    /** Whether the built-in controls are shown. */
    var controls: bool
    /** The play/pause/seeked/ratechange listeners are registered. */
    var listening: bool
    /** seekingRef.current */
    var seeking: bool
    /** 100 ms timers scheduled by the currentTime setter that have not fired. */
    var seekTimers: nat
    var time: int
    var rate: int
    var playing: bool
    var source: Source
    /** Calls made on the current hls.js instance. */
    var hlsCalls: seq<HlsCall>
    /** The signal the effect attached onReady to, once it has run. */
    var readyOn: Option<ReadySource>

    predicate Valid()
      reads this
    {
      (listening ==> mounted)
      && (!mounted ==> source == NoSource && !controls)
      && (source.HlsStream? ==> |hlsCalls| >= 2 && hlsCalls[..2] == [LoadSource(source.url), AttachMedia])
      && (!source.HlsStream? ==> hlsCalls == [])
      && (readyOn.Some? <==> mounted)
      && (mounted ==> readyOn == Some(if source.HlsStream? then ManifestParsed else PlayerReady))
    }

    /** The component before its effect has run. */
    constructor ()
      ensures Valid()
      ensures !mounted && !listening && !seeking && seekTimers == 0
      ensures source == NoSource && hlsCalls == [] && readyOn == None
      ensures time == 0 && rate == 1 && !playing
    {
      mounted := false;
      controls := false;
      listening := false;
      seeking := false;
      seekTimers := 0;
      time := 0;
      rate := 1;
      playing := false;
      source := NoSource;
      hlsCalls := [];
      readyOn := None;
    }

    /** The effect: create the player with controls only for the host,
        pick the source, and register the reporting listeners only for the
        host.  The seeking flag is a ref of the component and survives. */
    method Setup(url: string, isHost: bool, hlsSupported: bool)
      modifies this
      ensures Valid()
      ensures mounted
      ensures controls == isHost && listening == isHost
      ensures source == ChooseSource(url, hlsSupported)
      ensures hlsCalls == if source.HlsStream? then [LoadSource(url), AttachMedia] else []
      ensures readyOn == Some(if source.HlsStream? then ManifestParsed else PlayerReady)
      ensures time == 0 && rate == 1 && !playing
      ensures seeking == old(seeking) && seekTimers == old(seekTimers)
    {
      mounted := true;
      controls := isHost;
      time := 0;
      rate := 1;
      playing := false;
      source := ChooseSource(url, hlsSupported);
      if source.HlsStream? {
        hlsCalls := [LoadSource(url), AttachMedia];
        readyOn := Some(ManifestParsed);
      } else {
        hlsCalls := [];
        readyOn := Some(PlayerReady);
      }
      if isHost {
        listening := true;
      } else {
        listening := false;
        controls := false;
      }
    }

    method Play()
      modifies this
      ensures mounted ==> playing
      ensures !mounted ==> playing == old(playing)
      ensures mounted == old(mounted) && time == old(time) && rate == old(rate)
      ensures seeking == old(seeking) && seekTimers == old(seekTimers)
      ensures listening == old(listening) && controls == old(controls)
      ensures source == old(source) && hlsCalls == old(hlsCalls) && readyOn == old(readyOn)
    {
      if mounted {
        playing := true;
      }
    }

    method Pause()
      modifies this
      ensures mounted ==> !playing
      ensures !mounted ==> playing == old(playing)
      ensures mounted == old(mounted) && time == old(time) && rate == old(rate)
      ensures seeking == old(seeking) && seekTimers == old(seekTimers)
      ensures listening == old(listening) && controls == old(controls)
      ensures source == old(source) && hlsCalls == old(hlsCalls) && readyOn == old(readyOn)
    {
      if mounted {
        playing := false;
      }
    }

    /** The currentTime setter: raise the seeking flag, seek, and schedule
        the timer that lowers the flag again. */
    method SetCurrentTime(t: int)
      modifies this
      ensures mounted ==> seeking && time == t && seekTimers == old(seekTimers) + 1
      ensures !mounted ==> seeking == old(seeking) && time == old(time) && seekTimers == old(seekTimers)
      ensures mounted == old(mounted) && playing == old(playing) && rate == old(rate)
      ensures listening == old(listening) && controls == old(controls)
      ensures source == old(source) && hlsCalls == old(hlsCalls) && readyOn == old(readyOn)
    {
      if mounted {
        seeking := true;
        time := t;
        seekTimers := seekTimers + 1;
      }
    }

    method SetPlaybackRate(r: int)
      modifies this
      ensures mounted ==> rate == r
      ensures !mounted ==> rate == old(rate)
      ensures mounted == old(mounted) && playing == old(playing) && time == old(time)
      ensures seeking == old(seeking) && seekTimers == old(seekTimers)
      ensures listening == old(listening) && controls == old(controls)
      ensures source == old(source) && hlsCalls == old(hlsCalls) && readyOn == old(readyOn)
    {
      if mounted {
        rate := r;
      }
    }

    /** One of the 100 ms timers fires and lowers the flag, whichever seek
        scheduled it. */
    method SeekTimerFires()
      requires seekTimers > 0
      modifies this
      ensures !seeking && seekTimers == old(seekTimers) - 1
      ensures mounted == old(mounted) && playing == old(playing) && time == old(time) && rate == old(rate)
      ensures listening == old(listening) && controls == old(controls)
      ensures source == old(source) && hlsCalls == old(hlsCalls) && readyOn == old(readyOn)
    {
      seeking := false;
      seekTimers := seekTimers - 1;
    }

    /** The currentTime getter: the player's time, or 0 without a player. */
    function CurrentTime(): (t: int)
      reads this
      ensures !mounted ==> t == 0
      ensures mounted ==> t == time
    {
      if mounted then time else 0
    }

    /** The playbackRate getter: a falsy rate, or no player, reads as 1, so
        the getter never yields 0. */
    function PlaybackRate(): (r: int)
      reads this
      ensures r != 0
      ensures mounted && rate != 0 ==> r == rate
      ensures !mounted || rate == 0 ==> r == 1
    {
      if mounted && rate != 0 then rate else 1
    }

    /** A video.js event: the player takes on the state the event carries,
        and the component reports it.  Only a host's player has listeners,
        and a seek while the flag is raised is not reported; a seek or rate
        change is reported with the value the player reads after it. */
    method Report(ev: MediaEvent) returns (out: Option<Outbound>)
      modifies this
      ensures mounted ==> playing == (if ev.PlayEvent? then true else if ev.PauseEvent? then false else old(playing))
      ensures mounted ==> time == (if ev.SeekedEvent? then ev.position else old(time))
      ensures mounted ==> rate == (if ev.RateChangeEvent? then ev.speed else old(rate))
      ensures !mounted ==> playing == old(playing) && time == old(time) && rate == old(rate)
      ensures mounted == old(mounted) && seeking == old(seeking) && seekTimers == old(seekTimers)
      ensures listening == old(listening) && controls == old(controls)
      ensures source == old(source) && hlsCalls == old(hlsCalls) && readyOn == old(readyOn)
      ensures !listening ==> out == None
      ensures listening && ev == PlayEvent ==> out == Some(Played)
      ensures listening && ev == PauseEvent ==> out == Some(Paused)
      ensures listening && ev.SeekedEvent? ==> out == if seeking then None else Some(Seeked(ev.position))
      ensures listening && ev.RateChangeEvent? ==> out == Some(RateChanged(ev.speed))
    {
      if mounted {
        match ev {
          case PlayEvent => playing := true;
          case PauseEvent => playing := false;
          case SeekedEvent(t) => time := t;
          case RateChangeEvent(r) => rate := r;
        }
      }
      if !listening {
        return None;
      }
      match ev {
        case PlayEvent => out := Some(Played);
        case PauseEvent => out := Some(Paused);
        case SeekedEvent(t) => out := if seeking then None else Some(Seeked(t));
        case RateChangeEvent(r) => out := Some(RateChanged(r));
      }
    }

    /** A ready signal arrives: onReady is called when the effect attached
        it to that signal, and not before the effect has run. */
    method ReadySignal(signal: ReadySource) returns (fires: bool)
      ensures fires <==> readyOn == Some(signal)
    {
      fires := readyOn.Some? && readyOn.value == signal;
    }

    /** The hls.js ERROR handler. */
    method HlsError(fatal: bool, kind: HlsErrorType)
      requires Valid()
      modifies this
      ensures Valid()
      ensures source.HlsStream? && Recovery(fatal, kind).Some? ==> hlsCalls == old(hlsCalls) + [Recovery(fatal, kind).value]
      ensures !source.HlsStream? || !fatal ==> hlsCalls == old(hlsCalls)
      ensures mounted == old(mounted) && playing == old(playing) && time == old(time) && rate == old(rate)
      ensures seeking == old(seeking) && seekTimers == old(seekTimers)
      ensures listening == old(listening) && controls == old(controls) && source == old(source)
      ensures readyOn == old(readyOn)
    {
      if source.HlsStream? {
        var step := Recovery(fatal, kind);
        if step.Some? {
          hlsCalls := hlsCalls + [step.value];
        }
      }
    }
  }

  /** After the effect, onReady follows the source that was chosen: an
      .m3u8 stream under hls.js is ready when its manifest is parsed, any
      other URL when video.js says the player is ready, and no other signal
      calls it. */
  method ReadyAfterSetup(p: VideoPlayer, url: string, isHost: bool, hlsSupported: bool, signal: ReadySource)
    returns (fires: bool)
    modifies p
    ensures fires <==>
      (signal == ManifestParsed && Contains(url, ".m3u8") && hlsSupported)
      || (signal == PlayerReady && !(Contains(url, ".m3u8") && hlsSupported))
  {
    p.Setup(url, isHost, hlsSupported);
    fires := p.ReadySignal(signal);
  }

  /** A programmatic seek is never reported back before its timer fires:
      right after the setter, the seeked event yields nothing. */
  method SeekIsNotEchoed(p: VideoPlayer, t: int) returns (out: Option<Outbound>)
    requires p.mounted
    modifies p
    ensures p.time == t
    ensures out == None
  {
    p.SetCurrentTime(t);
    out := p.Report(SeekedEvent(t));
  }
}

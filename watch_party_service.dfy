/**
  WatchPartyService: the watchparty.me room URL and the reachability rule.
  Both URL builders take a title and ignore it.
*/
module WatchPartyService {
  import opened Js
  import Uri

  /** The page of watchparty.me that creates a room. */
  const RoomPage := "https://www.watchparty.me/create"
  const VideoParam := "video"
  const RoomPrefix := RoomPage + ("?" + VideoParam + "=")

  /** createRoom(videoUrl, title): the room URL carries the percent-encoded
      video URL and nothing else. */
  function CreateRoom(videoUrl: string, title: string): (url: string)
    ensures StartsWith(url, RoomPrefix)
    ensures url[|RoomPrefix|..] == Uri.EncodeComponent(videoUrl)
  {
    var url := RoomPrefix + Uri.EncodeComponent(videoUrl);
    assert url[..|RoomPrefix|] == RoomPrefix;
    url
  }

  /** createWatchPartyUrl(videoUrl, title). */
  function CreateWatchPartyUrl(videoUrl: string, title: string): (url: string)
    ensures StartsWith(url, RoomPrefix)
    ensures url[|RoomPrefix|..] == Uri.EncodeComponent(videoUrl)
  {
    var url := RoomPrefix + Uri.EncodeComponent(videoUrl);
    assert url[..|RoomPrefix|] == RoomPrefix;
    url
  }

  /** The title never matters, and both builders agree. */
  lemma TitleIgnored(videoUrl: string, t1: string, t2: string)
    ensures CreateRoom(videoUrl, t1) == CreateRoom(videoUrl, t2)
    ensures CreateRoom(videoUrl, t1) == CreateWatchPartyUrl(videoUrl, t2)
  {
    var a := CreateRoom(videoUrl, t1);
    var b := CreateWatchPartyUrl(videoUrl, t2);
    assert a == a[..|RoomPrefix|] + a[|RoomPrefix|..];
    assert b == b[..|RoomPrefix|] + b[|RoomPrefix|..];
  }

  /** Different videos give different rooms. */
  lemma CreateRoomInjective(v1: string, v2: string, title: string)
    requires CreateRoom(v1, title) == CreateRoom(v2, title)
    ensures v1 == v2
  {
    Uri.DecodeEncodeComponent(v1);
    Uri.DecodeEncodeComponent(v2);
  }

  /** The video URL comes back from the room URL by percent-decoding what
      follows the prefix (section 2.1 of RFC 3986). */
  lemma CreateRoomDecodes(videoUrl: string, title: string)
    ensures Uri.DecodeComponent(CreateRoom(videoUrl, title)[|RoomPrefix|..]) == Ok(videoUrl)
  {
    Uri.DecodeEncodeComponent(videoUrl);
  }

  /** The video URL also comes back as the 'video' value of the room URL's
      query, read as a browser reads it. */
  lemma CreateRoomQuery(videoUrl: string, title: string)
    ensures Uri.QueryGet(CreateRoom(videoUrl, title)[|RoomPage|..], VideoParam) == Some(videoUrl)
  {
    RoomQueryText(videoUrl, title);
    VideoParamUnreserved();
    Uri.QueryOfOne(VideoParam, videoUrl);
  }

  lemma RoomQueryText(videoUrl: string, title: string)
    ensures CreateRoom(videoUrl, title)[|RoomPage|..] == "?" + VideoParam + "=" + Uri.EncodeComponent(videoUrl)
  {
    var e := Uri.EncodeComponent(videoUrl);
    var q := "?" + VideoParam + "=";
    assert CreateRoom(videoUrl, title) == RoomPage + (q + e);
    assert (RoomPage + (q + e))[|RoomPage|..] == q + e;
  }

  lemma VideoParamUnreserved()
    ensures VideoParam != [] && forall i :: 0 <= i < |VideoParam| ==> Uri.Unreserved(VideoParam[i])
  {
  }

  /** validateUrl: the outcome of the HEAD request is its status or an
      error; only status 200 is valid. */
  function ValidateUrl(head: Result<int>): (valid: bool)
    ensures valid <==> head == Ok(200)
  {
    match head
    case Err(_) => false
    case Ok(status) => status == 200
  }
}

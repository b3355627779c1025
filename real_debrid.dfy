/**
  The Real-Debrid client: the info-hash extraction behind the instant
  availability check, the choice of the largest link, the sequence of API
  calls that turns a magnet link into a streaming URL, and the way each
  call's failure is reported.

  The HTTP requests themselves are outside the model: each call's outcome
  is an input, and the calls made are returned as a trace.
*/
module RealDebrid {
  import opened Js
  import Uri
  import Torrents

  const BaseUrl := "https://api.real-debrid.com/rest/1.0"

  /** The instant-availability endpoint; the hashes follow it. */
  const AvailabilityEndpoint := BaseUrl + "/torrents/instantAvailability/"

  // ---------------------------------------------------------------------
  // Info-hash extraction

  /** /btih:([a-fA-F0-9]{40})/i matches at position i of link. */
  predicate HashAt(link: string, i: nat) {
    i + 45 <= |link| && EqualsIgnoreCase(link[i..i + 5], "btih:")
    && forall j :: i + 5 <= j < i + 45 ==> Uri.IsHexChar(link[j])
  }

  /** The leftmost match at or after position i. */
  function FindHash(link: string, i: nat): (p: Option<nat>)
    ensures p.Some? ==> i <= p.value && HashAt(link, p.value)
    ensures p.Some? ==> forall q :: i <= q < p.value ==> !HashAt(link, q)
    ensures p.None? ==> forall q :: i <= q ==> !HashAt(link, q)
    decreases |link| - i
  {
    if i + 45 > |link| then None
    else if HashAt(link, i) then Some(i)
    else FindHash(link, i + 1)
  }

  predicate IsLowerHex(c: char) { '0' <= c <= '9' || 'a' <= c <= 'f' }

  /** The hash of one magnet link or hash: the 40 hex digits after the
      leftmost 'btih:', lower-cased, or the input unchanged when there is
      no such match. */
  function ExtractHash(link: string): (h: string)
    ensures FindHash(link, 0).None? ==> h == link
    ensures FindHash(link, 0).Some? ==>
      |h| == 40 && (forall k :: 0 <= k < 40 ==> IsLowerHex(h[k]))
      && EqualsIgnoreCase(h, link[FindHash(link, 0).value + 5..FindHash(link, 0).value + 45])
  {
    match FindHash(link, 0)
    case None => link
    case Some(p) =>
      LowerAscii(link[p + 5..p + 45])
  }

  /** The path segment of the availability request: one entry per link,
      in order, joined with '/'. */
  function AvailabilityPath(links: seq<string>): (path: string)
    ensures links == [] ==> path == ""
    ensures |links| == 1 ==> path == ExtractHash(links[0])
  {
    Join(Hashes(links), "/")
  }

  function Hashes(links: seq<string>): (hs: seq<string>)
    ensures |hs| == |links|
    ensures forall i :: 0 <= i < |links| ==> hs[i] == ExtractHash(links[i])
  {
    if links == [] then [] else [ExtractHash(links[0])] + Hashes(links[1..])
  }

  /** Every link carries a 40-character hexadecimal hash. */
  predicate AllHashed(links: seq<string>) {
    forall i :: 0 <= i < |links| ==> FindHash(links[i], 0).Some?
  }

  /** When every link carries a hash, the request path splits back into
      exactly those hashes, one per link and in order. */
  lemma AvailabilityPathFields(links: seq<string>)
    requires |links| >= 1
    requires AllHashed(links)
    ensures Split(AvailabilityPath(links), '/') == Hashes(links)
  {
    var hs := Hashes(links);
    HashesHaveNoSlash(links);
    assert AvailabilityPath(links) == Join(hs, ['/']);
    SplitJoin(hs, '/');
  }

  lemma HashesHaveNoSlash(links: seq<string>)
    requires AllHashed(links)
    ensures forall i :: 0 <= i < |links| ==> '/' !in Hashes(links)[i]
  {
    var hs := Hashes(links);
    forall i | 0 <= i < |hs| ensures '/' !in hs[i] {
      var h := ExtractHash(links[i]);
      assert hs[i] == h;
      assert forall k :: 0 <= k < |h| ==> IsLowerHex(h[k]);
      assert !IsLowerHex('/');
    }
  }

  /** The prefix of every magnet link TorrentService builds, up to the hash. */
  const MagnetPrefix := "magnet:?xt=urn:btih:"

  /** A magnet link built from a 40-digit hash gives back that hash, in
      lower case: the two services agree on where the hash sits. */
  lemma ExtractHashOfMagnet(hash: string, title: string)
    requires |hash| == 40 && forall k :: 0 <= k < 40 ==> Uri.IsHexChar(hash[k])
    ensures ExtractHash(Torrents.MagnetLink(hash, title)) == LowerAscii(hash)
  {
    HashAfterPrefix(Torrents.MagnetLink(hash, title), hash);
  }

  lemma SchemeHasNoB()
    ensures forall q :: 0 <= q < 15 ==> "magnet:?xt=urn:"[q] != 'b' && "magnet:?xt=urn:"[q] != 'B'
  {
  }

  /** No match starts at a character other than 'b' or 'B'. */
  lemma NoHashAtNonB(m: string, q: nat)
    requires q < |m| && m[q] != 'b' && m[q] != 'B'
    ensures !HashAt(m, q)
  {
    if q + 45 <= |m| {
      assert m[q..q + 5][0] == m[q];
      assert ToLowerAscii(m[q]) != 'b';
    }
  }

  lemma HashAfterPrefix(m: string, hash: string)
    requires |hash| == 40 && forall k :: 0 <= k < 40 ==> Uri.IsHexChar(hash[k])
    requires StartsWith(m, MagnetPrefix + hash + "&dn=")
    ensures ExtractHash(m) == LowerAscii(hash)
  {
    MagnetParts(m, hash);
    NoHashInScheme(m);
    BtihHashAt(m, hash);
    FindHashFirst(m, 0, 15);
  }

  /** The pieces of a link that starts with the magnet prefix and a hash. */
  lemma MagnetParts(m: string, hash: string)
    requires |hash| == 40
    requires StartsWith(m, MagnetPrefix + hash + "&dn=")
    ensures |m| >= 60 && m[..15] == "magnet:?xt=urn:" && m[15..20] == "btih:" && m[20..60] == hash
  {
    var pre := MagnetPrefix + hash;
    assert m[..60] == pre by {
      assert m[..|MagnetPrefix + hash + "&dn="|][..60] == pre;
    }
    PrefixPieces(hash);
    assert m[..15] == m[..60][..15];
    assert m[15..20] == m[..60][15..20];
    assert m[20..60] == m[..60][20..60];
  }

  lemma PrefixPieces(hash: string)
    requires |hash| == 40
    ensures (MagnetPrefix + hash)[..15] == "magnet:?xt=urn:"
    ensures (MagnetPrefix + hash)[15..20] == "btih:"
    ensures (MagnetPrefix + hash)[20..60] == hash
  {
    var scheme, btih := "magnet:?xt=urn:", "btih:";
    assert MagnetPrefix == scheme + btih;
    var pre := scheme + (btih + hash);
    assert MagnetPrefix + hash == pre;
    assert pre[..15] == scheme;
    assert pre[15..20] == (btih + hash)[..5] == btih;
    assert pre[20..60] == (btih + hash)[5..45] == hash;
  }

  /** No match starts inside "magnet:?xt=urn:". */
  lemma NoHashInScheme(m: string)
    requires |m| >= 15 && m[..15] == "magnet:?xt=urn:"
    ensures forall q :: 0 <= q < 15 ==> !HashAt(m, q)
  {
    SchemeHasNoB();
    forall q | 0 <= q < 15 ensures !HashAt(m, q) {
      assert m[q] == m[..15][q];
      NoHashAtNonB(m, q);
    }
  }

  lemma BtihHashAt(m: string, hash: string)
    requires |hash| == 40 && forall k :: 0 <= k < 40 ==> Uri.IsHexChar(hash[k])
    requires |m| >= 60 && m[15..20] == "btih:" && m[20..60] == hash
    ensures HashAt(m, 15)
  {
    assert EqualsIgnoreCase(m[15..20], "btih:");
    forall j | 20 <= j < 60 ensures Uri.IsHexChar(m[j]) {
      assert m[j] == hash[j - 20];
    }
  }

  lemma {:induction false} FindHashFirst(link: string, i: nat, p: nat)
    requires i <= p && HashAt(link, p)
    requires forall q :: i <= q < p ==> !HashAt(link, q)
    ensures FindHash(link, i) == Some(p)
    decreases p - i
  {
    if i < p {
      FindHashFirst(link, i + 1, p);
    }
  }

  // ---------------------------------------------------------------------
  // Choosing the link

  /** One step of the reduce: an absent or empty (falsy) accumulator, or a
      strictly longer link, is replaced by the link. */
  function Keep(largest: Option<string>, link: string): Option<string> {
    if largest.None? || largest.value == "" || |link| > |largest.value| then Some(link) else largest
  }

  function Reduce(acc: Option<string>, links: seq<string>): Option<string>
    decreases |links|
  {
    if links == [] then acc else Reduce(Keep(acc, links[0]), links[1..])
  }

  /** links.reduce(..., null) */
  function ChooseLink(links: seq<string>): (chosen: Option<string>)
    ensures (exists i :: 0 <= i < |links| && links[i] != "") ==>
      Truthy(chosen)
      && (exists k :: 0 <= k < |links| && chosen == Some(links[k]) && forall i :: 0 <= i < |links| ==> |links[i]| <= |links[k]|)
    ensures (forall i :: 0 <= i < |links| ==> links[i] == "") ==> !Truthy(chosen)
  {
    ReduceFalsy(None, links);
    Reduce(None, links)
  }

  /** The JavaScript truthiness of the chosen link. */
  predicate Truthy(o: Option<string>) { o.Some? && o.value != "" }

  /** links[k] is a longest link, and every link before it is shorter. */
  predicate FirstLongest(links: seq<string>, k: nat) {
    k < |links|
    && (forall i :: 0 <= i < |links| ==> |links[i]| <= |links[k]|)
    && (forall i :: 0 <= i < k ==> |links[i]| < |links[k]|)
  }

  lemma {:induction false} ReduceFrom(a: string, ls: seq<string>) returns (k: nat)
    requires a != ""
    ensures FirstLongest([a] + ls, k) && Reduce(Some(a), ls) == Some(([a] + ls)[k])
    decreases |ls|
  {
    if ls == [] {
      k := 0;
    } else if |ls[0]| > |a| {
      assert Reduce(Some(a), ls) == Reduce(Some(ls[0]), ls[1..]);
      var k' := ReduceFrom(ls[0], ls[1..]);
      assert [ls[0]] + ls[1..] == ls;
      LongestAfterLonger(a, ls, k');
      k := k' + 1;
    } else {
      assert Reduce(Some(a), ls) == Reduce(Some(a), ls[1..]);
      var k' := ReduceFrom(a, ls[1..]);
      k := LongestAfterShorter(a, ls, k');
    }
  }

  /** A link longer than a, put after a, moves the first longest one place on. */
  lemma LongestAfterLonger(a: string, ls: seq<string>, k: nat)
    requires ls != [] && |ls[0]| > |a| && FirstLongest(ls, k)
    ensures FirstLongest([a] + ls, k + 1) && ([a] + ls)[k + 1] == ls[k]
  {
    var s := [a] + ls;
    forall i | 1 <= i < |s| ensures s[i] == ls[i - 1] { }
  }

  /** A link no longer than a, put after a, does not change which link is
      the first longest. */
  lemma LongestAfterShorter(a: string, ls: seq<string>, k: nat) returns (m: nat)
    requires ls != [] && |ls[0]| <= |a| && FirstLongest([a] + ls[1..], k)
    ensures FirstLongest([a] + ls, m) && ([a] + ls)[m] == ([a] + ls[1..])[k]
  {
    var s := [a] + ls;
    var t := [a] + ls[1..];
    m := if k == 0 then 0 else k + 1;
    assert s[0] == a && t[0] == a && s[1] == ls[0];
    assert s[m] == t[k];
    assert forall i :: 2 <= i < |s| ==> s[i] == t[i - 1];
    assert |t[0]| <= |t[k]|;
    forall i | 0 <= i < |s| ensures |s[i]| <= |s[m]| {
      if i >= 2 {
        assert |t[i - 1]| <= |t[k]|;
      }
    }
    forall i | 0 <= i < m ensures |s[i]| < |s[m]| {
      assert 0 < k;
      assert |t[0]| < |t[k]|;
      if i >= 2 {
        assert |t[i - 1]| < |t[k]|;
      }
    }
  }

  /** The chosen link is the first of the longest links, unless every link
      is empty; then nothing usable is chosen. */
  lemma {:induction false} ChooseLinkLongest(links: seq<string>)
    ensures (exists i :: 0 <= i < |links| && links[i] != "") ==>
      exists k :: 0 <= k < |links| && FirstLongest(links, k) && ChooseLink(links) == Some(links[k])
    ensures (forall i :: 0 <= i < |links| ==> links[i] == "") ==> !Truthy(ChooseLink(links))
  {
    ReduceFalsy(None, links);
  }

  lemma {:induction false} ReduceFalsy(acc: Option<string>, ls: seq<string>)
    requires !Truthy(acc)
    decreases |ls|
    ensures (exists i :: 0 <= i < |ls| && ls[i] != "") ==>
      exists k :: 0 <= k < |ls| && FirstLongest(ls, k) && Reduce(acc, ls) == Some(ls[k])
    ensures (forall i :: 0 <= i < |ls| ==> ls[i] == "") ==> !Truthy(Reduce(acc, ls))
  {
    if ls != [] {
      if ls[0] != "" {
        var k := ReduceFrom(ls[0], ls[1..]);
        assert [ls[0]] + ls[1..] == ls;
      } else {
        ReduceFalsy(Some(""), ls[1..]);
        if exists i :: 0 <= i < |ls| && ls[i] != "" {
          var i :| 0 <= i < |ls| && ls[i] != "";
          assert ls[1..][i - 1] != "";
          var k' :| 0 <= k' < |ls[1..]| && FirstLongest(ls[1..], k') && Reduce(Some(""), ls[1..]) == Some(ls[1..][k']);
          assert FirstLongest(ls, k' + 1) by {
            forall j | 0 <= j < |ls| ensures |ls[j]| <= |ls[k' + 1]| {
              if j > 0 { assert ls[j] == ls[1..][j - 1]; }
            }
            forall j | 0 <= j < k' + 1 ensures |ls[j]| < |ls[k' + 1]| {
              if j > 0 {
                assert ls[j] == ls[1..][j - 1];
              } else {
                assert |ls[1..][i - 1]| <= |ls[1..][k']|;
              }
            }
          }
        } else {
          forall j | 0 <= j < |ls[1..]| ensures ls[1..][j] == "" {
            assert ls[1..][j] == ls[j + 1];
          }
        }
      }
    }
  }

  // ---------------------------------------------------------------------
  // The calls

  const AvailabilityFailed := "Failed to check torrent availability"
  const AddMagnetFailed := "Failed to add magnet to Real-Debrid"
  const TorrentInfoFailed := "Failed to get torrent info"
  const SelectFilesFailed := "Failed to select torrent files"
  const UnrestrictFailed := "Failed to unrestrict link"
  const NoVideoFile := "No video file found in torrent"
  /** The TypeError message of calling reduce on a missing links array. */
  const LinksMissing := "Cannot read properties of undefined (reading 'reduce')"

  /** A single-call wrapper: a success passes through, and any failure is
      replaced by the wrapper's own message. */
  function Wrapped<T>(outcome: Result<T>, message: string): (r: Result<T>)
    ensures r.Ok? <==> outcome.Ok?
    ensures outcome.Ok? ==> r == outcome
    ensures r.Err? ==> r.error == message
  {
    match outcome
    case Ok(v) => Ok(v)
    case Err(_) => Err(message)
  }

  /** checkInstantAvailability: the request path and what the caller sees
      of the response. */
  function AvailabilityUrl(links: seq<string>): (url: string)
    ensures url == AvailabilityEndpoint + AvailabilityPath(links)
  {
    AvailabilityEndpoint + AvailabilityPath(links)
  }

  /** When every link carries a hash, the request path names the hash of
      each link, in order, as its '/'-separated fields after the endpoint. */
  lemma AvailabilityUrlFields(links: seq<string>)
    requires |links| >= 1
    requires AllHashed(links)
    ensures StartsWith(AvailabilityUrl(links), AvailabilityEndpoint)
    ensures Split(AvailabilityUrl(links)[|AvailabilityEndpoint|..], '/') == Hashes(links)
  {
    EndpointFields(AvailabilityEndpoint, links);
  }

  /** The path after any endpoint prefix splits back into the hashes. */
  lemma EndpointFields(pre: string, links: seq<string>)
    requires |links| >= 1
    requires AllHashed(links)
    ensures StartsWith(pre + AvailabilityPath(links), pre)
    ensures Split((pre + AvailabilityPath(links))[|pre|..], '/') == Hashes(links)
  {
    ConcatSplit(pre, AvailabilityPath(links));
    AvailabilityPathFields(links);
  }

  /** The outcome of each request of getStreamingLink, as the server
      answers: the torrent id from addMagnet, the links array of the
      torrent info (None when the info has no such field), and the
      download URL from unrestrict. */
  datatype Responses = Responses(
    added: Result<string>,
    selected: Result<()>,
    info: Result<Option<seq<string>>>,
    unrestricted: Result<string>)

  datatype Call = AddMagnet(magnet: string) | Wait(ms: nat) | SelectFiles(id: string, files: string)
                | GetTorrentInfo(id: string) | UnrestrictLink(link: string)

  /** What getStreamingLink does for a magnet link and the server's answers:
      the requests it makes, in order, and its outcome.  A failed step ends
      the run with that step's message; torrent info without links ends it
      with the TypeError of reduce; otherwise the longest link is
      unrestricted. */
  function Outcome(magnet: string, api: Responses): (r: (seq<Call>, Result<string>))
    ensures |r.0| >= 1 && r.0[0] == AddMagnet(magnet) && |r.0| <= 6
    ensures r.1.Ok? <==>
      api.added.Ok? && api.selected.Ok? && api.info.Ok? && api.info.value.Some?
      && Truthy(ChooseLink(api.info.value.value)) && api.unrestricted.Ok?
    ensures r.1.Ok? ==>
      r.1.value == api.unrestricted.value
      && r.0 == [AddMagnet(magnet), Wait(2000), SelectFiles(api.added.value, "all"), Wait(2000),
                 GetTorrentInfo(api.added.value), UnrestrictLink(ChooseLink(api.info.value.value).value)]
    ensures r.1.Err? ==>
      r.1.error in {AddMagnetFailed, SelectFilesFailed, TorrentInfoFailed, LinksMissing, NoVideoFile, UnrestrictFailed}
  {
    if api.added.Err? then ([AddMagnet(magnet)], Err(AddMagnetFailed))
    else
      var id := api.added.value;
      var upToSelect := [AddMagnet(magnet), Wait(2000), SelectFiles(id, "all")];
      if api.selected.Err? then (upToSelect, Err(SelectFilesFailed))
      else
        var upToInfo := upToSelect + [Wait(2000), GetTorrentInfo(id)];
        if api.info.Err? then (upToInfo, Err(TorrentInfoFailed))
        else if api.info.value.None? then (upToInfo, Err(LinksMissing))
        else
          var videoFile := ChooseLink(api.info.value.value);
          if !Truthy(videoFile) then (upToInfo, Err(NoVideoFile))
          else (upToInfo + [UnrestrictLink(videoFile.value)], Wrapped(api.unrestricted, UnrestrictFailed))
  }

  /** getStreamingLink: add the magnet, wait, select all files, wait, read
      the torrent info, choose the longest link and unrestrict it.  Each
      step's failure ends the run with that step's message, which is
      passed on unchanged. */
  method GetStreamingLink(magnet: string, api: Responses) returns (calls: seq<Call>, result: Result<string>)
    ensures (calls, result) == Outcome(magnet, api)
    ensures |calls| >= 1 && calls[0] == AddMagnet(magnet)
    ensures api.added.Err? ==> calls == [AddMagnet(magnet)] && result == Err(AddMagnetFailed)
    ensures api.added.Ok? ==>
      |calls| >= 3 && calls[..3] == [AddMagnet(magnet), Wait(2000), SelectFiles(api.added.value, "all")]
    ensures api.added.Ok? && api.selected.Err? ==> |calls| == 3 && result == Err(SelectFilesFailed)
    ensures api.added.Ok? && api.selected.Ok? ==>
      |calls| >= 5 && calls[3..5] == [Wait(2000), GetTorrentInfo(api.added.value)]
    ensures api.added.Ok? && api.selected.Ok? && api.info.Err? ==> |calls| == 5 && result == Err(TorrentInfoFailed)
    ensures api.added.Ok? && api.selected.Ok? && api.info.Ok? && api.info.value.None? ==>
      |calls| == 5 && result == Err(LinksMissing)
    ensures api.added.Ok? && api.selected.Ok? && api.info.Ok? && api.info.value.Some? && !Truthy(ChooseLink(api.info.value.value)) ==>
      |calls| == 5 && result == Err(NoVideoFile)
    ensures api.added.Ok? && api.selected.Ok? && api.info.Ok? && api.info.value.Some? && Truthy(ChooseLink(api.info.value.value)) ==>
      calls == calls[..5] + [UnrestrictLink(ChooseLink(api.info.value.value).value)]
      && result == Wrapped(api.unrestricted, UnrestrictFailed)
    ensures |calls| <= 6
    ensures forall i :: 0 <= i < |calls| && (calls[i].SelectFiles? || calls[i].GetTorrentInfo?) ==>
      api.added.Ok? && calls[i].id == api.added.value
  {
    calls := [AddMagnet(magnet)];
    var added := Wrapped(api.added, AddMagnetFailed);
    if added.Err? {
      return calls, Err(added.error);
    }
    var torrentId := added.value;
    calls := calls + [Wait(2000), SelectFiles(torrentId, "all")];
    assert calls == [AddMagnet(magnet), Wait(2000), SelectFiles(torrentId, "all")];
    var selected := Wrapped(api.selected, SelectFilesFailed);
    if selected.Err? {
      return calls, Err(selected.error);
    }
    calls := calls + [Wait(2000), GetTorrentInfo(torrentId)];
    var info := Wrapped(api.info, TorrentInfoFailed);
    if info.Err? {
      return calls, Err(info.error);
    }
    if info.value.None? {
      return calls, Err(LinksMissing);
    }
    var videoFile := ChooseLink(info.value.value);
    if !Truthy(videoFile) {
      return calls, Err(NoVideoFile);
    }
    calls := calls + [UnrestrictLink(videoFile.value)];
    result := Wrapped(api.unrestricted, UnrestrictFailed);
  }

  /** deleteTorrent: the request path, and an outcome that is always a
      success because failures are only logged. */
  function DeleteTorrent(torrentId: string, outcome: Result<()>): (r: (string, Result<()>))
    ensures r.1 == Ok(())
    ensures StartsWith(r.0, BaseUrl + "/torrents/delete/") && EndsWith(r.0, torrentId)
  {
    var pre := BaseUrl + "/torrents/delete/";
    var path := pre + torrentId;
    assert path[..|pre|] == pre;
    assert path[|path| - |torrentId|..] == torrentId;
    (path, Ok(()))
  }
}

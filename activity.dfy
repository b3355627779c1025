/**
  /watch and its Launch Watch Party button: the command stores, under
  'launch_activity_' and the user's id, the activity URL that carries the
  stream URL and the title in its query string, and arms a timer that
  deletes the record five minutes later; the button, pressed from the same
  voice channel, replies with that URL.

  Clock and timers: `now` is the time in milliseconds at which a command
  runs or at which pending timers are looked at; the timers armed are kept
  with the records, and Expire runs those whose delay has passed, in the
  order they were armed.
*/
module Activity {
  import opened Js
  import opened Uri
  import Playback

  const ActivityBase := "https://eva-11s8nuj39-rytales-projects.vercel.app/"
  const LaunchKeyPrefix := "launch_activity_"
  const DefaultTitle := "Watch Party"
  const UrlParam := "streamUrl"
  const TitleParam := "title"

  /** The record's lifetime: 5 * 60 * 1000 ms. */
  const Lifetime := 300000

  function LaunchKey(userId: string): string { LaunchKeyPrefix + userId }

  /** getString('title') || 'Watch Party' */
  function TitleOr(title: Option<string>): (t: string)
    ensures t != ""
    ensures title.Some? && title.value != "" ==> t == title.value
  {
    if title.Some? && title.value != "" then title.value else DefaultTitle
  }

  /** The query string of the activity URL. */
  function LaunchSearch(url: string, title: string): string {
    "?" + UrlParam + "=" + EncodeComponent(url) + "&" + TitleParam + "=" + EncodeComponent(title)
  }

  function ActivityUrl(url: string, title: string): (u: string)
    ensures StartsWith(u, ActivityBase) && u[|ActivityBase|..] == LaunchSearch(url, title)
  {
    var u := ActivityBase + LaunchSearch(url, title);
    assert u[..|ActivityBase|] == ActivityBase;
    u
  }

  lemma NamesArePlain()
    ensures UrlParam != [] && forall i :: 0 <= i < |UrlParam| ==> Unreserved(UrlParam[i])
    ensures TitleParam != [] && forall i :: 0 <= i < |TitleParam| ==> Unreserved(TitleParam[i])
    ensures UrlParam != TitleParam
  {
  }

  /** The activity page reads back the stream URL and the title the
      command wrote, once each is decoded a single time. */
  lemma LaunchParamsRoundTrip(url: string, title: string)
    requires url != "" && title != ""
    ensures Playback.StreamParams(LaunchSearch(url, title)) == Ok((url, Some(title)))
  {
    NamesArePlain();
    QueryOfTwo(UrlParam, url, TitleParam, title);
  }

  /** The page as written decodes a second time: it reads the same values
      only when neither holds a '%'. */
  lemma LaunchParamsAsWritten(url: string, title: string)
    requires url != "" && title != ""
    ensures '%' !in url && '%' !in title ==>
      Playback.StreamParamsAsWritten(LaunchSearch(url, title)) == Ok((url, Some(title)))
    ensures '%' in url || '%' in title ==>
      Playback.StreamParamsAsWritten(LaunchSearch(url, title)) != Ok((url, Some(title)))
  {
    NamesArePlain();
    QueryOfTwo(UrlParam, url, TitleParam, title);
    if '%' in url {
      DecodeWithPercentChanges(url);
    } else {
      DecodeWithoutPercent(url);
      if '%' in title {
        DecodeWithPercentChanges(title);
      } else {
        DecodeWithoutPercent(title);
      }
    }
  }

  /** A title with a '%' that starts no escape makes the page as written
      fail, while a single decode reads the title back. */
  lemma StrayPercentTitleFails(url: string, a: string, rest: string)
    requires url != "" && '%' !in url && '%' !in a
    requires PercentAt("%" + rest).None?
    ensures Playback.StreamParamsAsWritten(LaunchSearch(url, a + "%" + rest)).Err?
    ensures Playback.StreamParams(LaunchSearch(url, a + "%" + rest)) == Ok((url, Some(a + "%" + rest)))
  {
    var title := a + "%" + rest;
    NamesArePlain();
    QueryOfTwo(UrlParam, url, TitleParam, title);
    DecodeWithoutPercent(url);
    DecodeStrayPercent(a, rest);
  }

  /** '100% Wolf' is such a title. */
  lemma PercentTitleExample(url: string)
    requires url != "" && '%' !in url
    ensures Playback.StreamParamsAsWritten(LaunchSearch(url, "100% Wolf")).Err?
    ensures Playback.StreamParams(LaunchSearch(url, "100% Wolf")) == Ok((url, Some("100% Wolf")))
  {
    assert "100% Wolf" == "100" + "%" + " Wolf";
    assert PercentAt("%" + " Wolf").None? by { assert !IsHexChar((("%" + " Wolf"))[1]); }
    StrayPercentTitleFails(url, "100", " Wolf");
  }

  // ---------------------------------------------------------------------
  // The records and their timers

  /** The activityData entry, with the time it was stored at. */
  datatype Launch = Launch(url: string, streamUrl: string, title: string, channelId: string, guildId: string, stamp: int)

  /** A pending setTimeout: the key it deletes and the time it was armed. */
  datatype Timer = Timer(key: string, stamp: int)

  datatype Board = Board(entries: map<string, Launch>, timers: seq<Timer>)

  function Due(t: Timer): int { t.stamp + Lifetime }

  /** activityData.set(key, record), then setTimeout for the key. */
  function Record(b: Board, key: string, rec: Launch): (r: Board)
    ensures key in r.entries && r.entries[key] == rec
    ensures forall k :: k != key ==> (k in r.entries <==> k in b.entries)
    ensures |r.timers| == |b.timers| + 1 && r.timers[|b.timers|] == Timer(key, rec.stamp)
  {
    Board(b.entries[key := rec], b.timers + [Timer(key, rec.stamp)])
  }

  function Pending(timers: seq<Timer>, now: int): (ps: seq<Timer>)
    ensures forall t :: t in ps <==> t in timers && now < Due(t)
  {
    Filter(timers, (t: Timer) => now < Due(t))
  }

  /** The timers fire as written: each deletes its key, whatever record the
      key holds by then. */
  function FireAsWritten(entries: map<string, Launch>, timers: seq<Timer>, now: int): (r: map<string, Launch>)
    ensures forall k :: k in r ==> k in entries && r[k] == entries[k]
  {
    if timers == [] then entries
    else
      var t := timers[0];
      FireAsWritten(if Due(t) <= now then entries - {t.key} else entries, timers[1..], now)
  }

  /** The as-written expiry at time now: a key survives exactly when none
      of the timers armed for it is due, whatever record each was armed
      for; the due timers are gone. */
  function ExpireAsWritten(b: Board, now: int): (r: Board)
    ensures forall t :: t in r.timers <==> t in b.timers && now < Due(t)
    ensures forall k :: k in r.entries <==> k in b.entries && NoneDue(b.timers, k, now)
    ensures forall k :: k in r.entries ==> r.entries[k] == b.entries[k]
  {
    var r := Board(FireAsWritten(b.entries, b.timers, now), Pending(b.timers, now));
    assert forall k :: k in r.entries <==> k in b.entries && NoneDue(b.timers, k, now) by {
      forall k ensures k in r.entries <==> k in b.entries && NoneDue(b.timers, k, now) {
        if k in b.entries && NoneDue(b.timers, k, now) {
          FireAsWrittenKeeps(b.entries, b.timers, now, k);
        } else if !NoneDue(b.timers, k, now) {
          var i :| 0 <= i < |b.timers| && b.timers[i].key == k && Due(b.timers[i]) <= now;
          FireAsWrittenRemoves(b.entries, b.timers, now, k, i);
        }
      }
    }
    r
  }

  /** No timer armed for key k is due at time now. */
  predicate NoneDue(timers: seq<Timer>, k: string, now: int) {
    forall i :: 0 <= i < |timers| && timers[i].key == k ==> now < Due(timers[i])
  }

  /** Run twice within five minutes, /watch loses its second record when
      the first timer fires, long before that record's five minutes. */
  lemma EarlyExpiry(key: string, first: Launch, second: Launch)
    requires first.stamp == 0 && second.stamp == 60000
    ensures var b := Record(Record(Board(map[], []), key, first), key, second);
      key !in ExpireAsWritten(b, Lifetime).entries
      && key in Expire(b, Lifetime).entries
  {
    var b := Record(Record(Board(map[], []), key, first), key, second);
    var t0, t1 := Timer(key, 0), Timer(key, 60000);
    assert b.timers == [t0, t1];
    assert b.entries == map[key := second];
    var after := b.entries - {key};
    assert [t0, t1][1..] == [t1] && [t1][1..] == [];
    calc {
      FireAsWritten(b.entries, [t0, t1], Lifetime);
      FireAsWritten(after, [t1], Lifetime);
      FireAsWritten(after, [], Lifetime);
    }
    assert key !in after;
    FireKeepsYoung(b.entries, b.timers, Lifetime, key);
  }

  /** As written, a key survives exactly when none of its timers is due. */
  lemma {:induction false} FireAsWrittenKeeps(entries: map<string, Launch>, timers: seq<Timer>, now: int, k: string)
    requires k in entries
    requires forall i :: 0 <= i < |timers| && timers[i].key == k ==> now < Due(timers[i])
    ensures k in FireAsWritten(entries, timers, now) && FireAsWritten(entries, timers, now)[k] == entries[k]
  {
    if timers != [] {
      var t := timers[0];
      var next := if Due(t) <= now then entries - {t.key} else entries;
      assert k in next && next[k] == entries[k];
      forall i | 0 <= i < |timers[1..]| && timers[1..][i].key == k ensures now < Due(timers[1..][i]) {
        assert timers[1..][i] == timers[i + 1];
      }
      FireAsWrittenKeeps(next, timers[1..], now, k);
    }
  }

  lemma {:induction false} FireAsWrittenRemoves(entries: map<string, Launch>, timers: seq<Timer>, now: int, k: string, i: nat)
    requires i < |timers| && timers[i].key == k && Due(timers[i]) <= now
    ensures k !in FireAsWritten(entries, timers, now)
  {
    var t := timers[0];
    var next := if Due(t) <= now then entries - {t.key} else entries;
    if i == 0 {
      assert k !in next;
    } else {
      FireAsWrittenRemoves(next, timers[1..], now, k, i - 1);
    }
  }

  /** As written, a record never outlives its five minutes, though it may
      go sooner (EarlyExpiry): its own timer is among those that fire. */
  lemma ExpireAsWrittenBound(b: Board, now: int, k: string)
    requires Armed(b) && k in b.entries && b.entries[k].stamp + Lifetime <= now
    ensures k !in ExpireAsWritten(b, now).entries
  {
    var i :| 0 <= i < |b.timers| && b.timers[i] == Timer(k, b.entries[k].stamp);
    FireAsWrittenRemoves(b.entries, b.timers, now, k, i);
  }

  /** Firing as written keeps every remaining record armed. */
  lemma ExpireAsWrittenArmed(b: Board, now: int)
    requires Armed(b)
    ensures Armed(ExpireAsWritten(b, now))
  {
    var e := ExpireAsWritten(b, now);
    forall k | k in e.entries ensures Timer(k, e.entries[k].stamp) in e.timers {
      assert e.entries[k] == b.entries[k];
      var i :| 0 <= i < |b.timers| && b.timers[i] == Timer(k, b.entries[k].stamp);
      assert now < Due(b.timers[i]);
    }
  }

  /** A timer deletes its key only while the key still holds the record it
      was armed for. */
  function Fire(entries: map<string, Launch>, timers: seq<Timer>, now: int): (r: map<string, Launch>)
    ensures forall k :: k in r ==> k in entries && r[k] == entries[k]
  {
    if timers == [] then entries
    else
      var t := timers[0];
      var deletes := Due(t) <= now && t.key in entries && entries[t.key].stamp == t.stamp;
      Fire(if deletes then entries - {t.key} else entries, timers[1..], now)
  }

  /** The corrected expiry at time now: the due timers are gone, no
      record changes, and every record younger than five minutes stays. */
  function Expire(b: Board, now: int): (r: Board)
    ensures forall t :: t in r.timers <==> t in b.timers && now < Due(t)
    ensures forall k :: k in r.entries ==> k in b.entries && r.entries[k] == b.entries[k]
    ensures forall k :: k in b.entries && now < b.entries[k].stamp + Lifetime ==> k in r.entries
  {
    var r := Board(Fire(b.entries, b.timers, now), Pending(b.timers, now));
    assert forall k :: k in b.entries && now < b.entries[k].stamp + Lifetime ==> k in r.entries by {
      forall k | k in b.entries && now < b.entries[k].stamp + Lifetime ensures k in r.entries {
        FireKeepsYoung(b.entries, b.timers, now, k);
      }
    }
    r
  }

  /** A record younger than five minutes survives every timer. */
  lemma {:induction false} FireKeepsYoung(entries: map<string, Launch>, timers: seq<Timer>, now: int, k: string)
    requires k in entries && now < entries[k].stamp + Lifetime
    ensures k in Fire(entries, timers, now) && Fire(entries, timers, now)[k] == entries[k]
  {
    if timers != [] {
      var t := timers[0];
      var deletes := Due(t) <= now && t.key in entries && entries[t.key].stamp == t.stamp;
      var next := if deletes then entries - {t.key} else entries;
      assert k in next && next[k] == entries[k];
      FireKeepsYoung(next, timers[1..], now, k);
    }
  }

  /** A record whose own timer is pending and due goes. */
  lemma {:induction false} FireRemovesDue(entries: map<string, Launch>, timers: seq<Timer>, now: int, k: string, i: nat)
    requires i < |timers| && timers[i].key == k && Due(timers[i]) <= now
    requires k in entries ==> entries[k].stamp == timers[i].stamp
    ensures k !in Fire(entries, timers, now)
  {
    var t := timers[0];
    var deletes := Due(t) <= now && t.key in entries && entries[t.key].stamp == t.stamp;
    var next := if deletes then entries - {t.key} else entries;
    if i == 0 {
      assert k !in next;
    } else {
      FireRemovesDue(next, timers[1..], now, k, i - 1);
    }
  }

  /** Every stored record has its own timer pending. */
  predicate Armed(b: Board) {
    forall k :: k in b.entries ==> Timer(k, b.entries[k].stamp) in b.timers
  }

  /** With the generation check, a record lives exactly its five minutes:
      it is there before they end and gone once they have. */
  lemma ExpireExact(b: Board, now: int, k: string)
    requires Armed(b) && k in b.entries
    ensures now < b.entries[k].stamp + Lifetime ==>
      k in Expire(b, now).entries && Expire(b, now).entries[k] == b.entries[k]
    ensures b.entries[k].stamp + Lifetime <= now ==> k !in Expire(b, now).entries
  {
    if now < b.entries[k].stamp + Lifetime {
      FireKeepsYoung(b.entries, b.timers, now, k);
    } else {
      var i :| 0 <= i < |b.timers| && b.timers[i] == Timer(k, b.entries[k].stamp);
      FireRemovesDue(b.entries, b.timers, now, k, i);
    }
  }

  /** Storing a record and expiring timers keep every record armed. */
  lemma RecordArmed(b: Board, key: string, rec: Launch)
    requires Armed(b)
    ensures Armed(Record(b, key, rec))
  {
    var r := Record(b, key, rec);
    forall k | k in r.entries ensures Timer(k, r.entries[k].stamp) in r.timers {
      if k != key {
        assert Timer(k, b.entries[k].stamp) in b.timers;
      } else {
        assert r.timers[|b.timers|] == Timer(key, rec.stamp);
      }
    }
  }

  lemma ExpireArmed(b: Board, now: int)
    requires Armed(b)
    ensures Armed(Expire(b, now))
  {
    var e := Expire(b, now);
    forall k | k in e.entries ensures Timer(k, e.entries[k].stamp) in e.timers {
      assert e.entries[k] == b.entries[k];
      ExpireExact(b, now, k);
    }
  }

  // ---------------------------------------------------------------------
  // The command and the button

  datatype Channel = Channel(id: string, guildId: string)

  datatype Reply =
    | NotInVoice
    | InvalidUrl
    | Started(title: string, launchKey: string)
    | Expired
    | NoVoice
    | OtherChannel
    | Join(title: string, url: string)

  /** activityData, with the timers armed on it. */
  class Launches {
    var board: Board

    constructor ()
      ensures board == Board(map[], [])
    {
      board := Board(map[], []);
    }

    /** The command run at time now by a user in voice channel `voice`.
        `urlValid` is whether `new URL(url)` accepts the URL. */
    method Watch(userId: string, voice: Option<Channel>, url: string, title: Option<string>, urlValid: bool, now: int)
      returns (reply: Reply)
      modifies this
      ensures voice.None? ==> reply == NotInVoice && board == old(board)
      ensures voice.Some? && !urlValid ==> reply == InvalidUrl && board == old(board)
      ensures voice.Some? && urlValid ==>
        var t := TitleOr(title);
        reply == Started(t, LaunchKey(userId))
        && board == Record(old(board), LaunchKey(userId),
                           Launch(ActivityUrl(url, t), url, t, voice.value.id, voice.value.guildId, now))
      ensures Armed(old(board)) ==> Armed(board)
    {
      if voice.None? {
        return NotInVoice;
      }
      if !urlValid {
        return InvalidUrl;
      }
      var t := TitleOr(title);
      var rec := Launch(ActivityUrl(url, t), url, t, voice.value.id, voice.value.guildId, now);
      reply := Started(t, LaunchKey(userId));
      if Armed(board) {
        RecordArmed(board, LaunchKey(userId), rec);
      }
      board := Record(board, LaunchKey(userId), rec);
    }

    /** The timers whose delay has passed by `now` fire; each deletes its
        key, whatever record the key holds by then. */
    method Tick(now: int)
      modifies this
      ensures board == ExpireAsWritten(old(board), now)
      ensures Armed(old(board)) ==> Armed(board)
      ensures forall k :: k in board.entries ==> k in old(board).entries && board.entries[k] == old(board).entries[k]
    {
      if Armed(board) {
        ExpireAsWrittenArmed(board, now);
      }
      board := ExpireAsWritten(board, now);
    }
  }

  /** The button, pressed by a user in voice channel `voice`: it only
      reads the record stored under its custom id, and gives its title and
      URL exactly when the record is there and the user is in the record's
      channel. */
  function Press(b: Board, customId: string, voice: Option<string>): (reply: Reply)
    ensures customId !in b.entries <==> reply == Expired
    ensures reply == NoVoice <==> customId in b.entries && voice.None?
    ensures reply.Join? <==>
      customId in b.entries && voice == Some(b.entries[customId].channelId)
    ensures reply.Join? ==>
      reply == Join(b.entries[customId].title, b.entries[customId].url)
  {
    if customId !in b.entries then Expired
    else
      var rec := b.entries[customId];
      if voice.None? then NoVoice
      else if voice.value != rec.channelId then OtherChannel
      else Join(rec.title, rec.url)
  }

  /** Pressed within five minutes from the channel the command ran in, the
      button gives the title and the activity URL, and the activity page
      reads back the stream URL and the title from its query.  As written,
      this needs two things the command does not ensure: no earlier /watch
      by the same user has a timer due by then (it would delete the new
      record), and neither value holds a '%' (the page decodes twice). */
  lemma ButtonAfterWatch(b: Board, userId: string, url: string, title: string, ch: Channel, stamp: int, now: int)
    requires url != "" && title != "" && '%' !in url && '%' !in title && now < stamp + Lifetime
    requires forall i :: 0 <= i < |b.timers| && b.timers[i].key == LaunchKey(userId) ==> now < Due(b.timers[i])
    ensures var rec := Launch(ActivityUrl(url, title), url, title, ch.id, ch.guildId, stamp);
      Press(ExpireAsWritten(Record(b, LaunchKey(userId), rec), now), LaunchKey(userId), Some(ch.id))
        == Join(title, ActivityUrl(url, title))
    ensures Playback.StreamParamsAsWritten(ActivityUrl(url, title)[|ActivityBase|..]) == Ok((url, Some(title)))
  {
    var key := LaunchKey(userId);
    var rec := Launch(ActivityUrl(url, title), url, title, ch.id, ch.guildId, stamp);
    var r := Record(b, key, rec);
    forall i | 0 <= i < |r.timers| && r.timers[i].key == key ensures now < Due(r.timers[i]) {
      if i < |b.timers| {
        assert r.timers[i] == b.timers[i];
      }
    }
    FireAsWrittenKeeps(r.entries, r.timers, now, key);
    LaunchParamsAsWritten(url, title);
  }

  /** With the corrections of ExpireExact and LaunchParamsRoundTrip, the
      same holds for any earlier records and any values. */
  lemma ButtonAfterWatchCorrected(b: Board, userId: string, url: string, title: string, ch: Channel, stamp: int, now: int)
    requires Armed(b) && url != "" && title != "" && now < stamp + Lifetime
    ensures var rec := Launch(ActivityUrl(url, title), url, title, ch.id, ch.guildId, stamp);
      Press(Expire(Record(b, LaunchKey(userId), rec), now), LaunchKey(userId), Some(ch.id))
        == Join(title, ActivityUrl(url, title))
    ensures Playback.StreamParams(ActivityUrl(url, title)[|ActivityBase|..]) == Ok((url, Some(title)))
  {
    var rec := Launch(ActivityUrl(url, title), url, title, ch.id, ch.guildId, stamp);
    var r := Record(b, LaunchKey(userId), rec);
    RecordArmed(b, LaunchKey(userId), rec);
    ExpireExact(r, now, LaunchKey(userId));
    LaunchParamsRoundTrip(url, title);
  }
}

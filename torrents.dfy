/**
  TorrentService: turning the Torrentio stream list for a title into
  ranked torrent options.  Each stream's title is scanned for its
  quality, seeders and size, a magnet link (BitTorrent BEP 9) is built
  from its info-hash, and the list is ordered best quality first, then
  most seeders first, keeping the input order among equals.

  The HTTP request is an oracle: its outcome is an input.
*/
module Torrents {
  import opened Js
  import opened Uri

  const Person: char := '\U{1F464}'
  const Disk: char := '\U{1F4BE}'
  /** The gear emoji with its variation selector, as written in the source. */
  const Gear: string := "\U{2699}\U{FE0F}"

  /** One entry of the Torrentio "streams" array. */
  datatype Stream = Stream(title: Option<string>, name: Option<string>, infoHash: Option<string>)

  datatype Torrent = Torrent(
    title: string,
    quality: string,
    qualityRank: nat,
    seeders: nat,
    size: string,
    provider: string,
    infoHash: string,
    magnetLink: string,
    displayName: string)

  // ---------------------------------------------------------------------
  // Quality

  /** The quality patterns, in the order they are tried; the first holds
      the alternatives of /2160p|4K|UHD/i. */
  const QualityPatterns: seq<seq<string>> := [["2160p", "4K", "UHD"], ["1080p"], ["720p"], ["480p"], ["360p"]]

  /** pat matches case-insensitively at position i of s. */
  predicate MatchesAt(s: string, i: nat, pat: string) {
    i + |pat| <= |s| && EqualsIgnoreCase(s[i..i + |pat|], pat)
  }

  /** pat occurs somewhere in s, case-insensitively. */
  predicate Occurs(s: string, pat: string) {
    exists i :: 0 <= i <= |s| && MatchesAt(s, i, pat)
  }

  /** The first alternative that matches at position i. */
  function AltAt(s: string, i: nat, alts: seq<string>): (r: Option<nat>)
    ensures r.Some? ==> r.value < |alts| && MatchesAt(s, i, alts[r.value])
    ensures r.Some? ==> forall k :: 0 <= k < r.value ==> !MatchesAt(s, i, alts[k])
    ensures r.None? ==> forall k :: 0 <= k < |alts| ==> !MatchesAt(s, i, alts[k])
  {
    if alts == [] then None
    else if MatchesAt(s, i, alts[0]) then Some(0)
    else match AltAt(s, i, alts[1..])
      case None => None
      case Some(k) => Some(k + 1)
  }

  /** The leftmost match of an alternation, scanning from position i: the
      alternative that matched and where. */
  function Leftmost(s: string, alts: seq<string>, i: nat): (r: Option<(nat, nat)>)
    ensures r.Some? ==> i <= r.value.1 && r.value.0 < |alts| && MatchesAt(s, r.value.1, alts[r.value.0])
    ensures r.Some? ==> forall p: nat, k :: i <= p < r.value.1 && 0 <= k < |alts| ==> !MatchesAt(s, p, alts[k])
    ensures r.None? ==> forall p: nat, k :: i <= p && 0 <= k < |alts| ==> !MatchesAt(s, p, alts[k])
    decreases |s| + 1 - i
  {
    if i > |s| then None
    else match AltAt(s, i, alts)
      case Some(k) => Some((k, i))
      case None => Leftmost(s, alts, i + 1)
  }

  /** The quality as the source computes it, pattern group by pattern group. */
  function QualityFrom(title: string, groups: seq<seq<string>>): string {
    if groups == [] then "Unknown"
    else match Leftmost(title, groups[0], 0)
      case Some(m) => UpperAscii(groups[0][m.0])
      case None => QualityFrom(title, groups[1..])
  }

  /** extractQuality: the patterns are tried in order and the first one
      found anywhere in the title decides; its match is upper-cased.  A
      title matching none of them is 'Unknown'. */
  method ExtractQuality(title: string) returns (quality: string)
    ensures quality == QualityFrom(title, QualityPatterns)
    ensures quality == "Unknown" <==>
      forall g, k :: 0 <= g < |QualityPatterns| && 0 <= k < |QualityPatterns[g]| ==> !Occurs(title, QualityPatterns[g][k])
    ensures quality != "Unknown" ==>
      exists g, k :: 0 <= g < |QualityPatterns| && 0 <= k < |QualityPatterns[g]|
        && quality == UpperAscii(QualityPatterns[g][k]) && Occurs(title, QualityPatterns[g][k])
        && forall h, j :: 0 <= h < g && 0 <= j < |QualityPatterns[h]| ==> !Occurs(title, QualityPatterns[h][j])
  {
    var g := 0;
    while g < |QualityPatterns|
      invariant 0 <= g <= |QualityPatterns|
      invariant QualityFrom(title, QualityPatterns) == QualityFrom(title, QualityPatterns[g..])
      invariant forall h, j :: 0 <= h < g && 0 <= j < |QualityPatterns[h]| ==> !Occurs(title, QualityPatterns[h][j])
    {
      var m := Leftmost(title, QualityPatterns[g], 0);
      if m.Some? {
        quality := UpperAscii(QualityPatterns[g][m.value.0]);
        assert Occurs(title, QualityPatterns[g][m.value.0]);
        UpperPatternsNotUnknown(g, m.value.0);
        return;
      }
      assert forall j :: 0 <= j < |QualityPatterns[g]| ==> !Occurs(title, QualityPatterns[g][j]);
      assert QualityPatterns[g..][1..] == QualityPatterns[g + 1..];
      g := g + 1;
    }
    quality := "Unknown";
  }

  lemma UpperPatternsNotUnknown(g: nat, k: nat)
    requires g < |QualityPatterns| && k < |QualityPatterns[g]|
    ensures UpperAscii(QualityPatterns[g][k]) != "Unknown"
  {
    assert |UpperAscii(QualityPatterns[g][k])| != 7 || UpperAscii(QualityPatterns[g][k])[0] != 'U' || UpperAscii(QualityPatterns[g][k])[1] != 'n';
  }

  /** getQualityRank: the rank table looked up with the upper-cased
      quality; anything not in the table ranks 0. */
  /** The rank table, keyed by upper-case quality. */
  const RankTable: map<string, nat> :=
    map["4K" := 5, "2160P" := 5, "UHD" := 5, "1080P" := 4, "720P" := 3, "480P" := 2, "360P" := 1, "UNKNOWN" := 0]

  function QualityRank(quality: string): (rank: nat)
    ensures rank <= 5
    ensures UpperAscii(quality) in RankTable ==> rank == RankTable[UpperAscii(quality)]
    ensures UpperAscii(quality) !in RankTable ==> rank == 0
  {
    var q := UpperAscii(quality);
    if q == "4K" || q == "2160P" || q == "UHD" then 5
    else if q == "1080P" then 4
    else if q == "720P" then 3
    else if q == "480P" then 2
    else if q == "360P" then 1
    else 0
  }

  /** The index of the first pattern group that occurs in the title, or
      the number of groups when none does. */
  function MatchedGroup(title: string, groups: seq<seq<string>>): (g: nat)
    ensures g <= |groups|
    ensures g < |groups| ==> exists k :: 0 <= k < |groups[g]| && Occurs(title, groups[g][k])
  {
    if groups == [] then 0
    else match Leftmost(title, groups[0], 0)
      case Some(m) =>
        assert Occurs(title, groups[0][m.0]);
        0
      case None => 1 + MatchedGroup(title, groups[1..])
  }

  lemma UpperAsciiOf(s: string, t: string)
    requires |s| == |t| && forall i :: 0 <= i < |s| ==> ToUpperAscii(s[i]) == t[i]
    ensures UpperAscii(s) == t
  {
  }

  /** Each pattern of group g, once upper-cased, ranks 5 - g. */
  lemma RankOfPattern(g: nat, k: nat)
    requires g < |QualityPatterns| && k < |QualityPatterns[g]|
    ensures QualityRank(UpperAscii(QualityPatterns[g][k])) == 5 - g
  {
    if g == 0 {
      RankOfFirstGroup(k);
    } else {
      RankOfLaterGroup(g);
    }
  }

  lemma RankOfFirstGroup(k: nat)
    requires k < 3
    ensures QualityRank(UpperAscii(QualityPatterns[0][k])) == 5
  {
    if k == 0 {
      UpperAsciiOf("2160p", "2160P");
      UpperAsciiOf("2160P", "2160P");
    } else if k == 1 {
      UpperAsciiOf("4K", "4K");
    } else {
      UpperAsciiOf("UHD", "UHD");
    }
  }

  lemma RankOfLaterGroup(g: nat)
    requires 1 <= g < 5
    ensures QualityRank(UpperAscii(QualityPatterns[g][0])) == 5 - g
  {
    if g == 1 {
      RankOf1080();
    } else if g == 2 {
      RankOf720();
    } else if g == 3 {
      RankOf480();
    } else {
      RankOf360();
    }
  }

  lemma RankOf1080()
    ensures QualityRank(UpperAscii("1080p")) == 4
  {
    RankOfResolution("1080p", "1080P");
  }

  lemma RankOf720()
    ensures QualityRank(UpperAscii("720p")) == 3
  {
    RankOfResolution("720p", "720P");
  }

  lemma RankOf480()
    ensures QualityRank(UpperAscii("480p")) == 2
  {
    RankOfResolution("480p", "480P");
  }

  lemma RankOf360()
    ensures QualityRank(UpperAscii("360p")) == 1
  {
    RankOfResolution("360p", "360P");
  }

  /** A resolution pattern ranks as its upper-case spelling. */
  lemma RankOfResolution(p: string, u: string)
    requires |p| == |u| && forall i :: 0 <= i < |p| ==> ToUpperAscii(p[i]) == u[i]
    requires forall i :: 0 <= i < |u| ==> ToUpperAscii(u[i]) == u[i]
    ensures QualityRank(UpperAscii(p)) == QualityRank(u)
  {
    UpperAsciiOf(p, u);
    UpperAsciiOf(u, u);
  }



  lemma {:induction false} RankOfSuffix(title: string, g: nat)
    requires g <= |QualityPatterns|
    ensures QualityRank(QualityFrom(title, QualityPatterns[g..])) == 5 - g - MatchedGroup(title, QualityPatterns[g..])
    decreases |QualityPatterns| - g
  {
    var P := QualityPatterns[g..];
    if g == |QualityPatterns| {
      assert P == [];
      UpperAsciiOf("Unknown", "UNKNOWN");
    } else {
      assert P[0] == QualityPatterns[g];
      match Leftmost(title, P[0], 0)
      case Some(m) =>
        RankOfPattern(g, m.0);
      case None =>
        assert P[1..] == QualityPatterns[g + 1..];
        RankOfSuffix(title, g + 1);
    }
  }

  /** The rank of the extracted quality is 5 for a title matching the
      first pattern group, one less for each later group, and 0 for a
      title matching none: better patterns rank higher. */
  lemma RankOfQuality(title: string)
    ensures QualityRank(QualityFrom(title, QualityPatterns)) == 5 - MatchedGroup(title, QualityPatterns)
  {
    RankOfSuffix(title, 0);
    assert QualityPatterns[0..] == QualityPatterns;
  }

  // ---------------------------------------------------------------------
  // Scanning the stream title

  /** \s*(\d+) matched at the start of a: white space a[..w], then d, the
      whole run of digits that follows it. */
  predicate DigitsMatch(a: string, w: nat, d: string) {
    w + |d| <= |a| && |d| > 0 && AllSpace(a[..w]) && a[w..w + |d|] == d && AllDigits(d)
    && (w + |d| == |a| || !IsDigit(a[w + |d|]))
  }

  /** The digits \s*(\d+) captures at the start of a, if it matches there. */
  function DigitsAfter(a: string): (r: Option<string>)
    ensures r.Some? ==> exists w: nat :: DigitsMatch(a, w, r.value)
    ensures forall w: nat, d :: DigitsMatch(a, w, d) ==> r == Some(d)
  {
    var t := TrimStart(a);
    var d := DigitPrefix(t, 10);
    DigitsMatchUnique(a);
    DigitPrefixShape(t);
    if |d| > 0 then
      DigitsAfterMatch(a, |a| - |t|, t, d);
      Some(d)
    else None
  }

  lemma DigitsAfterMatch(a: string, w: nat, t: string, d: string)
    requires w + |t| == |a| && t == a[w..] && AllSpace(a[..w])
    requires 0 < |d| <= |t| && d == t[..|d|] && AllDigits(d)
    requires |d| == |t| || !IsDigit(t[|d|])
    ensures DigitsMatch(a, w, d)
  {
    assert a[w..][..|d|] == a[w..w + |d|];
  }

  /** DigitPrefix is the whole run of decimal digits at the start of t. */
  lemma {:induction false} DigitPrefixShape(t: string)
    ensures AllDigits(DigitPrefix(t, 10))
    ensures |DigitPrefix(t, 10)| < |t| ==> !IsDigit(t[|DigitPrefix(t, 10)|])
  {
    if |t| > 0 && DigitValue(t[0], 10).Some? {
      DigitPrefixShape(t[1..]);
      var d := DigitPrefix(t[1..], 10);
      assert DigitPrefix(t, 10) == [t[0]] + d;
      assert forall i :: 0 < i <= |d| ==> ([t[0]] + d)[i] == d[i - 1];
      if |d| < |t[1..]| {
        assert t[|d| + 1] == t[1..][|d|];
      }
    }
  }

  /** A match of \s*(\d+) is the one DigitsAfter finds. */
  lemma DigitsMatchUnique(a: string)
    ensures forall w: nat, d :: DigitsMatch(a, w, d) ==> DigitPrefix(TrimStart(a), 10) == d
  {
    forall w: nat, d | DigitsMatch(a, w, d) ensures DigitPrefix(TrimStart(a), 10) == d {
      DigitsMatchFound(a, w, d);
    }
  }

  lemma DigitsMatchFound(a: string, w: nat, d: string)
    requires DigitsMatch(a, w, d)
    ensures DigitPrefix(TrimStart(a), 10) == d
  {
    var rest := a[w + |d|..];
    assert a[w..] == d + rest;
    assert a[w] == d[0];
    TrimStartAt(a, w);
    DigitPrefixStops(d, rest);
  }

  /** The first hit of a scan: f(k) for the least k in [i, n) where f
      gives something, as a global regular-expression search finds the
      leftmost match. */
  function FirstHit<T>(n: nat, f: nat -> Option<T>, i: nat): Option<T>
    decreases n - i
  {
    if i >= n then None
    else if f(i).Some? then f(i)
    else FirstHit(n, f, i + 1)
  }

  lemma {:induction false} FirstHitLeftmost<T>(n: nat, f: nat -> Option<T>, i: nat)
    ensures FirstHit(n, f, i).Some? ==>
      exists j :: i <= j < n && f(j) == FirstHit(n, f, i) && forall k :: i <= k < j ==> f(k).None?
    ensures FirstHit(n, f, i).None? ==> forall k :: i <= k < n ==> f(k).None?
    decreases n - i
  {
    if i < n && f(i).None? {
      FirstHitLeftmost(n, f, i + 1);
    }
  }

  /** The scan stops at the first k where f gives something. */
  lemma {:induction false} FirstHitAt<T>(n: nat, f: nat -> Option<T>, i: nat, j: nat)
    requires i <= j < n && f(j).Some?
    requires forall k :: i <= k < j ==> f(k).None?
    ensures FirstHit(n, f, i) == f(j)
    decreases j - i
  {
    if i < j {
      FirstHitAt(n, f, i + 1, j);
    }
  }

  /** /👤\s*(\d+)/ matches at position i of s: the capture, if it does. */
  function SeedersAt(s: string, i: nat): Option<string> {
    if i < |s| && s[i] == Person then DigitsAfter(s[i + 1..]) else None
  }

  /** The digits /👤\s*(\d+)/ captures: at the first person emoji that is
      followed, after optional white space, by a digit. */
  function SeedersDigits(s: string): (r: Option<string>)
    ensures r.Some? ==> |r.value| > 0 && AllDigits(r.value)
    ensures r.Some? ==> exists j :: 0 <= j < |s| && s[j] == Person && SeedersAt(s, j) == r
                                  && forall k :: 0 <= k < j ==> SeedersAt(s, k).None?
    ensures r.None? ==> forall k :: 0 <= k < |s| ==> SeedersAt(s, k).None?
  {
    SeedersLeftmost(s);
    FirstHit(|s|, (k: nat) => SeedersAt(s, k), 0)
  }

  lemma SeedersLeftmost(s: string)
    ensures var r := FirstHit(|s|, (k: nat) => SeedersAt(s, k), 0);
      (r.Some? ==> |r.value| > 0 && AllDigits(r.value))
      && (r.Some? ==> exists j :: 0 <= j < |s| && s[j] == Person && SeedersAt(s, j) == r
                                 && forall k :: 0 <= k < j ==> SeedersAt(s, k).None?)
      && (r.None? ==> forall k :: 0 <= k < |s| ==> SeedersAt(s, k).None?)
  {
    var f := (k: nat) => SeedersAt(s, k);
    FirstHitLeftmost(|s|, f, 0);
    assert forall k: nat :: f(k) == SeedersAt(s, k);
    var r := FirstHit(|s|, f, 0);
    if r.Some? {
      var j :| 0 <= j < |s| && SeedersAt(s, j) == r;
      var w :| DigitsMatch(s[j + 1..], w, r.value);
    }
  }

  /** The seeder count: parseInt of the captured digits, or 0. */
  function Seeders(title: string): (n: nat)
    ensures SeedersDigits(title).None? ==> n == 0
    ensures SeedersDigits(title).Some? ==> ParseInt(SeedersDigits(title).value) == Int(n)
  {
    match SeedersDigits(title)
    case None => 0
    case Some(d) =>
      ParseIntOfDigits(d);
      DigitsValue(d, 10)
  }

  /** A title whose only person emoji is followed by white space and a run
      of digits has that run as its seeder count. */
  lemma SeedersOfTitle(head: string, spaces: string, digits: string, tail: string)
    requires Person !in head && AllSpace(spaces)
    requires |digits| > 0 && AllDigits(digits)
    requires |tail| == 0 || !IsDigit(tail[0])
    ensures SeedersDigits(head + [Person] + spaces + digits + tail) == Some(digits)
    ensures Seeders(head + [Person] + spaces + digits + tail) == DigitsValue(digits, 10)
  {
    var a := spaces + digits + tail;
    DigitsOfParts(spaces, digits, tail);
    AppendFour(head, [Person], spaces, digits, tail);
    SeedersOfText(head, a, |spaces|, digits);
    ParseIntOfDigits(digits);
  }

  lemma AppendFour(h: string, p: string, x: string, y: string, z: string)
    ensures h + p + x + y + z == h + p + (x + y + z)
  {
  }

  lemma DigitsOfParts(spaces: string, digits: string, tail: string)
    requires AllSpace(spaces) && |digits| > 0 && AllDigits(digits)
    requires |tail| == 0 || !IsDigit(tail[0])
    ensures DigitsMatch(spaces + digits + tail, |spaces|, digits)
  {
    var a := spaces + digits + tail;
    assert a[..|spaces|] == spaces;
    assert a[|spaces|..|spaces| + |digits|] == digits;
    if |tail| > 0 {
      assert a[|spaces| + |digits|] == tail[0];
    }
  }

  lemma SeedersOfText(head: string, a: string, w: nat, digits: string)
    requires Person !in head && DigitsMatch(a, w, digits)
    ensures SeedersDigits(head + [Person] + a) == Some(digits)
  {
    var s := head + [Person] + a;
    assert s[|head|] == Person && s[|head| + 1..] == a;
    assert SeedersAt(s, |head|) == Some(digits);
    forall k | 0 <= k < |head| ensures SeedersAt(s, k).None? {
      assert s[k] == head[k];
    }
  }

  predicate IsNumberChar(c: char) { IsDigit(c) || c == '.' }

  predicate AllNumber(x: string) {
    forall i :: 0 <= i < |x| ==> IsNumberChar(x[i])
  }

  predicate IsUnitLetter(c: char) {
    c == 'K' || c == 'M' || c == 'G' || c == 'T' || c == 'k' || c == 'm' || c == 'g' || c == 't'
  }

  /** The longest prefix of digits and dots. */
  function NumberPrefix(s: string): (n: string)
    ensures |n| <= |s| && n == s[..|n|]
    ensures AllNumber(n)
    ensures |n| < |s| ==> !IsNumberChar(s[|n|])
  {
    if |s| > 0 && IsNumberChar(s[0]) then
      var n := [s[0]] + NumberPrefix(s[1..]);
      assert forall i :: 0 < i < |n| ==> n[i] == NumberPrefix(s[1..])[i - 1];
      n
    else []
  }

  /** \s*([\d.]+\s*[KMGT]B) with the i flag matched at the start of s: the
      white space s[..w], then v, made of the run of digits and dots
      v[..n], white space, a unit letter and B. */
  predicate SizeMatch(s: string, w: nat, n: nat, v: string) {
    w + |v| <= |s| && AllSpace(s[..w]) && v == s[w..w + |v|]
    && 0 < n && n + 2 <= |v| && AllNumber(v[..n]) && AllSpace(v[n..|v| - 2])
    && IsUnitLetter(v[|v| - 2]) && (v[|v| - 1] == 'B' || v[|v| - 1] == 'b')
  }

  /** What \s*([\d.]+\s*[KMGT]B) captures at the start of s, if it matches
      there. */
  function SizeAt(s: string): (r: Option<string>)
    ensures r.Some? ==> exists w: nat, n: nat :: SizeMatch(s, w, n, r.value)
    ensures forall w: nat, n: nat, v :: SizeMatch(s, w, n, v) ==> r == Some(v)
  {
    var a := TrimStart(s);
    var num := NumberPrefix(a);
    SizeMatchUnique(s);
    if |num| > 0 then
      var b := a[|num|..];
      var c := TrimStart(b);
      var r := UnitAfter(num, b);
      if r.Some? then
        SizeAtMatch(s, |s| - |a|, a, num, b, |b| - |c|, c, r.value);
        r
      else r
    else None
  }

  /** The rest of the size group after its number: white space, then a
      unit letter and B. */
  function UnitAfter(num: string, b: string): Option<string>
  {
    var c := TrimStart(b);
    if |c| >= 2 && IsUnitLetter(c[0]) && (c[1] == 'B' || c[1] == 'b') then
      Some(num + b[..|b| - |c|] + c[..2])
    else None
  }

  lemma SizeAtMatch(s: string, w: nat, a: string, num: string, b: string, k: nat, c: string, v: string)
    requires w + |a| == |s| && a == s[w..] && AllSpace(s[..w])
    requires 0 < |num| <= |a| && num == a[..|num|] && AllNumber(num) && b == a[|num|..]
    requires k + |c| == |b| && c == b[k..] && AllSpace(b[..k])
    requires |c| >= 2 && IsUnitLetter(c[0]) && (c[1] == 'B' || c[1] == 'b')
    requires v == num + b[..k] + c[..2]
    ensures SizeMatch(s, w, |num|, v)
  {
    var n := |num|;
    assert a[..|v|] == v;
    assert s[w..][..|v|] == s[w..w + |v|];
    assert v[..n] == num;
    assert v[n..|v| - 2] == b[..k];
  }

  /** NumberPrefix stops at the first character that is not a digit or a dot. */
  lemma {:induction false} NumberPrefixStops(n: string, rest: string)
    requires AllNumber(n)
    requires |rest| == 0 || !IsNumberChar(rest[0])
    ensures NumberPrefix(n + rest) == n
  {
    if |n| > 0 {
      assert (n + rest)[1..] == n[1..] + rest;
      assert AllNumber(n[1..]) by {
        assert forall i :: 0 <= i < |n[1..]| ==> n[1..][i] == n[i + 1];
      }
      NumberPrefixStops(n[1..], rest);
      assert [n[0]] + n[1..] == n;
    } else {
      assert n + rest == rest;
    }
  }

  /** A match of \s*([\d.]+\s*[KMGT]B) is the one SizeAt finds. */
  lemma SizeMatchUnique(s: string)
    ensures forall w: nat, n: nat, v :: SizeMatch(s, w, n, v) ==>
      NumberPrefix(TrimStart(s)) == v[..n]
      && UnitAfter(v[..n], TrimStart(s)[n..]) == Some(v)
  {
    forall w: nat, n: nat, v | SizeMatch(s, w, n, v)
      ensures NumberPrefix(TrimStart(s)) == v[..n] && UnitAfter(v[..n], TrimStart(s)[n..]) == Some(v)
    {
      SizeMatchFound(s, w, n, v);
    }
  }

  lemma SizeMatchFound(s: string, w: nat, n: nat, v: string)
    requires SizeMatch(s, w, n, v)
    ensures NumberPrefix(TrimStart(s)) == v[..n]
    ensures UnitAfter(v[..n], TrimStart(s)[n..]) == Some(v)
  {
    var num, sp, unit := v[..n], v[n..|v| - 2], v[|v| - 2..];
    var tail := s[w + |v|..];
    assert v == num + sp + unit;
    assert s[w..] == v + tail;
    assert v + tail == num + (sp + unit + tail);
    assert s[w] == num[0];
    TrimStartAt(s, w);
    SizeOfParts(num, sp, unit, tail);
  }

  /** The number, white space and unit of a size, read back by the scanner. */
  lemma SizeOfParts(num: string, sp: string, unit: string, tail: string)
    requires |num| > 0 && AllNumber(num) && AllSpace(sp)
    requires |unit| == 2 && IsUnitLetter(unit[0]) && (unit[1] == 'B' || unit[1] == 'b')
    ensures NumberPrefix(num + (sp + unit + tail)) == num
    ensures (num + (sp + unit + tail))[|num|..] == sp + unit + tail
    ensures UnitAfter(num, sp + unit + tail) == Some(num + sp + unit)
  {
    var b := sp + unit + tail;
    NumberBeforeUnit(num, sp, unit, tail);
    assert (num + b)[|num|..] == b;
    UnitAfterSpaces(num, sp, unit, tail);
  }

  lemma NumberBeforeUnit(num: string, sp: string, unit: string, tail: string)
    requires AllNumber(num) && AllSpace(sp) && |unit| == 2 && IsUnitLetter(unit[0])
    ensures NumberPrefix(num + (sp + unit + tail)) == num
  {
    var b := sp + unit + tail;
    assert b[0] == if |sp| > 0 then sp[0] else unit[0];
    NumberPrefixStops(num, b);
  }

  lemma UnitAfterSpaces(num: string, sp: string, unit: string, tail: string)
    requires AllSpace(sp)
    requires |unit| == 2 && IsUnitLetter(unit[0]) && (unit[1] == 'B' || unit[1] == 'b')
    ensures UnitAfter(num, sp + unit + tail) == Some(num + sp + unit)
  {
    var c := unit + tail;
    var b := sp + c;
    assert sp + unit + tail == b;
    TrimSpaces(sp, c);
    assert b[..|b| - |c|] == sp;
    assert c[..2] == unit;
  }

  lemma TrimSpaces(sp: string, c: string)
    requires AllSpace(sp) && |c| > 0 && !IsSpace(c[0])
    ensures TrimStart(sp + c) == c
  {
    var b := sp + c;
    assert b[..|sp|] == sp && b[|sp|] == c[0];
    TrimStartAt(b, |sp|);
    assert b[|sp|..] == c;
  }

  /** /💾\s*([\d.]+\s*[KMGT]B)/i matches at position i of s: the capture,
      if it does. */
  function SizeAtPos(s: string, i: nat): Option<string> {
    if i < |s| && s[i] == Disk then SizeAt(s[i + 1..]) else None
  }

  /** The size /💾\s*([\d.]+\s*[KMGT]B)/i captures, at its leftmost match. */
  function SizeText(s: string): (r: Option<string>)
    ensures r.Some? ==> exists j :: 0 <= j < |s| && s[j] == Disk && SizeAtPos(s, j) == r
                                  && forall k :: 0 <= k < j ==> SizeAtPos(s, k).None?
    ensures r.None? ==> forall k :: 0 <= k < |s| ==> SizeAtPos(s, k).None?
  {
    SizeTextLeftmost(s);
    FirstHit(|s|, (k: nat) => SizeAtPos(s, k), 0)
  }

  lemma SizeTextLeftmost(s: string)
    ensures var r := FirstHit(|s|, (k: nat) => SizeAtPos(s, k), 0);
      (r.Some? ==> exists j :: 0 <= j < |s| && s[j] == Disk && SizeAtPos(s, j) == r
                               && forall k :: 0 <= k < j ==> SizeAtPos(s, k).None?)
      && (r.None? ==> forall k :: 0 <= k < |s| ==> SizeAtPos(s, k).None?)
  {
    var f := (k: nat) => SizeAtPos(s, k);
    FirstHitLeftmost(|s|, f, 0);
    assert forall k: nat :: f(k) == SizeAtPos(s, k);
  }

  /** A title whose only disk emoji is followed by white space and a size
      has that size. */
  lemma SizeTextOfTitle(head: string, spaces: string, num: string, sp: string, unit: string, tail: string)
    requires Disk !in head && AllSpace(spaces)
    requires |num| > 0 && AllNumber(num) && AllSpace(sp)
    requires |unit| == 2 && IsUnitLetter(unit[0]) && (unit[1] == 'B' || unit[1] == 'b')
    ensures SizeText(head + [Disk] + spaces + num + sp + unit + tail) == Some(num + sp + unit)
  {
    var v := num + sp + unit;
    var a := spaces + v + tail;
    AppendSeven(head, [Disk], spaces, num, sp, unit, tail);
    SizeOfSpaced(spaces, num, sp, unit, tail);
    SizeTextOfText(head, a, v);
  }

  lemma SizeOfSpaced(spaces: string, num: string, sp: string, unit: string, tail: string)
    requires AllSpace(spaces) && |num| > 0 && AllNumber(num) && AllSpace(sp)
    requires |unit| == 2 && IsUnitLetter(unit[0]) && (unit[1] == 'B' || unit[1] == 'b')
    ensures SizeAt(spaces + (num + sp + unit) + tail) == Some(num + sp + unit)
  {
    SizeOfSpacedParts(spaces, num, sp, unit, tail);
    SizeAtOfMatch(spaces + (num + sp + unit) + tail, |spaces|, |num|, num + sp + unit);
  }

  lemma SizeAtOfMatch(s: string, w: nat, n: nat, v: string)
    requires SizeMatch(s, w, n, v)
    ensures SizeAt(s) == Some(v)
  {
  }

  lemma AppendSeven(h: string, d: string, x: string, n: string, p: string, u: string, t: string)
    ensures h + d + x + n + p + u + t == h + d + (x + (n + p + u) + t)
  {
  }

  lemma SizeOfSpacedParts(spaces: string, num: string, sp: string, unit: string, tail: string)
    requires AllSpace(spaces) && |num| > 0 && AllNumber(num) && AllSpace(sp)
    requires |unit| == 2 && IsUnitLetter(unit[0]) && (unit[1] == 'B' || unit[1] == 'b')
    ensures SizeMatch(spaces + (num + sp + unit) + tail, |spaces|, |num|, num + sp + unit)
  {
    var v := num + sp + unit;
    var a := spaces + v + tail;
    assert a[..|spaces|] == spaces;
    assert a[|spaces|..|spaces| + |v|] == v;
    assert v[..|num|] == num;
    assert v[|num|..|v| - 2] == sp;
    assert v[|v| - 2..] == unit;
  }

  lemma SizeTextOfText(head: string, a: string, v: string)
    requires Disk !in head && SizeAt(a) == Some(v)
    ensures SizeText(head + [Disk] + a) == Some(v)
  {
    FirstDisk(head, a);
    SizeTextFirst(head + [Disk] + a, |head|, v);
  }

  /** The disk emoji after a head without one is the first. */
  lemma FirstDisk(head: string, a: string)
    requires Disk !in head
    ensures var s := head + [Disk] + a;
      s[|head|] == Disk && s[|head| + 1..] == a && forall k :: 0 <= k < |head| ==> s[k] != Disk
  {
    var s := head + [Disk] + a;
    assert forall k :: 0 <= k < |head| ==> s[k] == head[k];
    assert s[|head| + 1..] == a;
  }

  /** The size is the one after the first disk emoji, when a size follows it. */
  lemma SizeTextFirst(s: string, j: nat, v: string)
    requires j < |s| && s[j] == Disk && SizeAt(s[j + 1..]) == Some(v)
    requires forall k :: 0 <= k < j ==> s[k] != Disk
    ensures SizeText(s) == Some(v)
  {
    assert SizeAtPos(s, j) == Some(v);
    var r := SizeText(s);
    assert r.Some?;
    var i :| 0 <= i < |s| && s[i] == Disk && SizeAtPos(s, i) == r
             && forall k :: 0 <= k < i ==> SizeAtPos(s, k).None?;
    assert i >= j;
    assert !(i > j);
  }

  /** The stream title: title, else name, else 'Unknown' (empty strings
      count as missing). */
  function StreamTitle(st: Stream): (t: string)
    ensures t != ""
    ensures st.title.GetOr("") != "" ==> t == st.title.value
    ensures st.title.GetOr("") == "" && st.name.GetOr("") != "" ==> t == st.name.value
    ensures st.title.GetOr("") == "" && st.name.GetOr("") == "" ==> t == "Unknown"
  {
    if st.title.GetOr("") != "" then st.title.value
    else if st.name.GetOr("") != "" then st.name.value
    else "Unknown"
  }

  /** The provider: the title's first line, or 'Unknown' when it is empty. */
  function Provider(title: string): (p: string)
    ensures p != "" && '\n' !in p
    ensures Before(title, '\n') != "" ==> p == Before(title, '\n')
    ensures Before(title, '\n') == "" ==> p == "Unknown"
  {
    if Before(title, '\n') == "" then "Unknown" else Before(title, '\n')
  }

  /** The magnet URI of BEP 9 with the info-hash and the encoded title as
      display name. */
  function MagnetLink(infoHash: string, title: string): (m: string)
    ensures m == MagnetPrefix(infoHash) + EncodeComponent(title)
  {
    var m := MagnetPrefix(infoHash) + EncodeComponent(title);
    m
  }

  /** The part of a magnet link before its display name. */
  function MagnetPrefix(infoHash: string): string {
    "magnet:?xt=urn:btih:" + infoHash + "&dn="
  }

  /** The display name of a magnet link decodes back to the stream title,
      and holds no '&' that would end the parameter early. */
  lemma MagnetNameDecodes(infoHash: string, title: string)
    ensures StartsWith(MagnetLink(infoHash, title), MagnetPrefix(infoHash))
    ensures DecodeComponent(MagnetLink(infoHash, title)[|MagnetPrefix(infoHash)|..]) == Ok(title)
    ensures '&' !in MagnetLink(infoHash, title)[|MagnetPrefix(infoHash)|..]
  {
    var m := MagnetLink(infoHash, title);
    var pre := MagnetPrefix(infoHash);
    assert m[..|pre|] == pre;
    assert m[|pre|..] == EncodeComponent(title);
    DecodeEncodeComponent(title);
    EncodedHasNoDelimiters(title);
  }

  /** The provider text is cut at k: k is the first newline or the first
      gear emoji, or the end of the text. */
  predicate FirstCut(p: string, k: nat) {
    k <= |p| && '\n' !in p[..k]
    && (forall i: nat :: i + |Gear| <= k ==> !GearAt(p, i))
    && (k == |p| || p[k] == '\n' || GearAt(p, k))
  }

  /** The gear emoji starts at position i of p. */
  predicate GearAt(p: string, i: nat) {
    i + |Gear| <= |p| && p[i..i + |Gear|] == Gear
  }

  /** The display name's provider part: first line, text before the gear
      emoji, trimmed. */
  function CleanProvider(provider: string): (c: string)
    ensures |c| <= |provider|
    ensures |c| > 0 ==> !IsSpace(c[0]) && !IsSpace(c[|c| - 1])
    ensures exists k: nat :: FirstCut(provider, k) && c == Trim(provider[..k])
  {
    var line := Before(provider, '\n');
    var head := BeforeSub(line, Gear);
    CutOfProvider(provider, line, head);
    Trim(head)
  }

  lemma CutOfProvider(p: string, line: string, head: string)
    requires line == Before(p, '\n') && head == BeforeSub(line, Gear)
    ensures FirstCut(p, |head|) && head == p[..|head|]
  {
    var k := |head|;
    assert line == p[..|line|] && head == line[..k];
    assert head == p[..k];
    forall i: nat | i + |Gear| <= k ensures !GearAt(p, i) {
      SliceWithin(p, line, i, |Gear|);
    }
    if k < |line| {
      SliceWithin(p, line, k, |Gear|);
    }
  }

  /** The full display text before it is cut to 100 characters. */
  function DisplayText(quality: string, size: string, seeders: nat, provider: string): string {
    quality + " | " + size + " | " + [Person] + " " + NatToString(seeders) + " | " + CleanProvider(provider)
  }

  /** formatDisplayName: at most 100 characters of the display text. */
  function DisplayName(quality: string, size: string, seeders: nat, provider: string): (name: string)
    ensures |name| <= 100
    ensures StartsWith(DisplayText(quality, size, seeders, provider), name)
    ensures |DisplayText(quality, size, seeders, provider)| <= 100 ==> name == DisplayText(quality, size, seeders, provider)
    ensures |DisplayText(quality, size, seeders, provider)| >= 100 ==> |name| == 100
  {
    Take(DisplayText(quality, size, seeders, provider), 100)
  }

  /** parseTorrentStream for a stream that has an info-hash. */
  function ParseStream(st: Stream): (t: Torrent)
    requires Hashed(st)
    ensures t.title == StreamTitle(st) && t.infoHash == st.infoHash.value
    ensures t.quality == QualityFrom(t.title, QualityPatterns)
    ensures t.qualityRank == QualityRank(t.quality)
    ensures t.seeders == Seeders(t.title) && t.size == SizeText(t.title).GetOr("Unknown")
    ensures t.provider == Provider(t.title)
    ensures t.magnetLink == MagnetLink(t.infoHash, t.title)
    ensures t.displayName == DisplayName(t.quality, t.size, t.seeders, t.provider)
  {
    var title := StreamTitle(st);
    var quality := QualityFrom(title, QualityPatterns);
    var seeders := Seeders(title);
    var size := SizeText(title).GetOr("Unknown");
    var provider := Provider(title);
    Torrent(title, quality, QualityRank(quality), seeders, size, provider,
            st.infoHash.value, MagnetLink(st.infoHash.value, title),
            DisplayName(quality, size, seeders, provider))
  }

  /** A parsed torrent ranks by the first quality pattern group its title
      matches. */
  lemma ParsedRank(st: Stream)
    requires Hashed(st)
    ensures ParseStream(st).qualityRank == 5 - MatchedGroup(StreamTitle(st), QualityPatterns)
  {
    RankOfQuality(StreamTitle(st));
  }

  // ---------------------------------------------------------------------
  // Ordering

  /** a sorts strictly before b: better quality, or the same quality and
      more seeders. */
  predicate Outranks(a: Torrent, b: Torrent) {
    a.qualityRank > b.qualityRank || (a.qualityRank == b.qualityRank && a.seeders > b.seeders)
  }

  function InsertTorrent(x: Torrent, sorted: seq<Torrent>): (r: seq<Torrent>)
    ensures |r| == |sorted| + 1
    ensures multiset(r) == multiset(sorted) + multiset{x}
  {
    if sorted == [] then [x]
    else
      assert sorted == [sorted[0]] + sorted[1..];
      if Outranks(sorted[0], x) then [sorted[0]] + InsertTorrent(x, sorted[1..])
      else [x] + sorted
  }

  /** The stable sort Array.prototype.sort performs with the comparator
      of searchByImdbId. */
  function SortTorrents(ts: seq<Torrent>): (r: seq<Torrent>)
    ensures |r| == |ts|
    ensures multiset(r) == multiset(ts)
  {
    if ts == [] then []
    else
      assert ts == [ts[0]] + ts[1..];
      InsertTorrent(ts[0], SortTorrents(ts[1..]))
  }

  predicate Ranked(r: seq<Torrent>) {
    forall i, j :: 0 <= i < j < |r| ==> !Outranks(r[j], r[i])
  }

  lemma {:induction false} InsertTorrentRanked(x: Torrent, sorted: seq<Torrent>)
    requires Ranked(sorted)
    ensures Ranked(InsertTorrent(x, sorted))
  {
    var r := InsertTorrent(x, sorted);
    if sorted == [] {
    } else if Outranks(sorted[0], x) {
      InsertTorrentRanked(x, sorted[1..]);
      assert r == [sorted[0]] + InsertTorrent(x, sorted[1..]);
      forall j | 0 < j < |r| ensures !Outranks(r[j], r[0]) {
        assert r[j] in multiset(r[1..]) by {
          assert r[j] == r[1..][j - 1];
        }
        assert multiset(r[1..]) == multiset(sorted[1..]) + multiset{x};
        if r[j] != x {
          assert r[j] in sorted[1..];
        }
      }
    } else {
      assert r == [x] + sorted;
      forall i, j | 0 <= i < j < |r| ensures !Outranks(r[j], r[i]) {
        if i == 0 {
          assert r[j] == sorted[j - 1];
          if j > 1 {
            assert !Outranks(sorted[j - 1], sorted[0]);
          }
        } else {
          assert r[i] == sorted[i - 1] && r[j] == sorted[j - 1];
        }
      }
    }
  }

  /** The sorted list is ordered best first. */
  lemma {:induction false} SortTorrentsRanked(ts: seq<Torrent>)
    ensures Ranked(SortTorrents(ts))
  {
    if ts != [] {
      SortTorrentsRanked(ts[1..]);
      InsertTorrentRanked(ts[0], SortTorrents(ts[1..]));
    }
  }

  predicate SameKey(a: Torrent, rank: nat, seeders: nat) {
    a.qualityRank == rank && a.seeders == seeders
  }

  /** The torrents with a given rank and seeder count, in list order. */
  function WithKey(ts: seq<Torrent>, rank: nat, seeders: nat): seq<Torrent> {
    if ts == [] then []
    else Keyed(ts[0], rank, seeders) + WithKey(ts[1..], rank, seeders)
  }

  lemma InsertBelow(x: Torrent, sorted: seq<Torrent>)
    requires sorted != [] && Outranks(sorted[0], x)
    ensures InsertTorrent(x, sorted) == [sorted[0]] + InsertTorrent(x, sorted[1..])
  {
  }

  lemma InsertHere(x: Torrent, sorted: seq<Torrent>)
    requires sorted != [] && !Outranks(sorted[0], x)
    ensures InsertTorrent(x, sorted) == [x] + sorted
  {
  }

  /** The torrent alone when it has the key, nothing otherwise. */
  function Keyed(a: Torrent, rank: nat, seeders: nat): seq<Torrent> {
    if SameKey(a, rank, seeders) then [a] else []
  }

  lemma WithKeyCons(a: Torrent, rest: seq<Torrent>, rank: nat, seeders: nat)
    ensures WithKey([a] + rest, rank, seeders) == Keyed(a, rank, seeders) + WithKey(rest, rank, seeders)
  {
    assert ([a] + rest)[0] == a && ([a] + rest)[1..] == rest;
  }

  /** A torrent that outranks x has a different key from x, so putting it
      in front of both sides keeps x's place among its equals. */
  lemma KeysAfterHead(h: Torrent, x: Torrent, rest: seq<Torrent>, ins: seq<Torrent>, rank: nat, seeders: nat)
    requires Outranks(h, x)
    requires WithKey(ins, rank, seeders) == Keyed(x, rank, seeders) + WithKey(rest, rank, seeders)
    ensures WithKey([h] + ins, rank, seeders) == Keyed(x, rank, seeders) + WithKey([h] + rest, rank, seeders)
  {
    WithKeyCons(h, ins, rank, seeders);
    WithKeyCons(h, rest, rank, seeders);
    if SameKey(x, rank, seeders) {
      assert Keyed(h, rank, seeders) == [];
    } else {
      assert Keyed(x, rank, seeders) == [];
    }
  }

  lemma {:induction false} InsertTorrentKeys(x: Torrent, sorted: seq<Torrent>, rank: nat, seeders: nat)
    ensures WithKey(InsertTorrent(x, sorted), rank, seeders) == Keyed(x, rank, seeders) + WithKey(sorted, rank, seeders)
  {
    if sorted == [] {
      WithKeyCons(x, [], rank, seeders);
    } else if Outranks(sorted[0], x) {
      InsertTorrentKeys(x, sorted[1..], rank, seeders);
      InsertBelow(x, sorted);
      assert sorted == [sorted[0]] + sorted[1..];
      KeysAfterHead(sorted[0], x, sorted[1..], InsertTorrent(x, sorted[1..]), rank, seeders);
    } else {
      InsertHere(x, sorted);
      WithKeyCons(x, sorted, rank, seeders);
    }
  }

  /** Torrents that compare equal keep their input order. */
  lemma {:induction false} SortTorrentsStable(ts: seq<Torrent>, rank: nat, seeders: nat)
    ensures WithKey(SortTorrents(ts), rank, seeders) == WithKey(ts, rank, seeders)
  {
    if ts != [] {
      SortTorrentsStable(ts[1..], rank, seeders);
      InsertTorrentKeys(ts[0], SortTorrents(ts[1..]), rank, seeders);
    }
  }

  // ---------------------------------------------------------------------
  // The search

  datatype StreamKind = Movie | Series(season: Num, episode: Num)

  /** The stream id of the request: the IMDb id of a movie, or
      'imdbId:season:episode' for an episode. */
  function StreamId(imdbId: string, kind: StreamKind): (id: string)
    ensures kind.Movie? ==> id == imdbId
    ensures kind.Series? ==> id == Join([imdbId, NumToString(kind.season), NumToString(kind.episode)], ":")
  {
    match kind
    case Movie => imdbId
    case Series(s, e) =>
      var parts := [imdbId, NumToString(s), NumToString(e)];
      assert parts[1..][1..] == [NumToString(e)];
      assert Join(parts[1..], ":") == NumToString(s) + ":" + NumToString(e);
      assert Join(parts, ":") == imdbId + ":" + (NumToString(s) + ":" + NumToString(e));
      imdbId + ":" + NumToString(s) + ":" + NumToString(e)
  }

  /** A slice of a prefix of p is the same slice of p. */
  lemma SliceWithin(p: string, line: string, i: nat, n: nat)
    requires |line| <= |p| && line == p[..|line|] && i + n <= |line|
    ensures p[i..i + n] == line[i..][..n]
  {
  }

  predicate Hashed(st: Stream) {
    st.infoHash.GetOr("") != ""
  }

  /** The streams that carry an info-hash, each parsed, in their order. */
  function ParseAll(streams: seq<Stream>): (ts: seq<Torrent>)
    ensures |ts| == |Filter(streams, Hashed)| <= |streams|
  {
    var hashed := Filter(streams, Hashed);
    assert forall i :: 0 <= i < |hashed| ==> hashed[i] in hashed;
    Map(hashed, ParseStream)
  }

  /** The i-th torrent is the i-th stream that carries an info-hash, parsed. */
  lemma ParseAllAt(streams: seq<Stream>, i: nat)
    requires i < |ParseAll(streams)|
    ensures Hashed(Filter(streams, Hashed)[i])
    ensures ParseAll(streams)[i] == ParseStream(Filter(streams, Hashed)[i])
    ensures ParseAll(streams)[i].infoHash != ""
  {
    var hashed := Filter(streams, Hashed);
    assert hashed[i] in hashed;
    var t := ParseStream(hashed[i]);
    assert t.infoHash == hashed[i].infoHash.value;
  }

  /** The post-fetch part of searchByImdbId.  response is the outcome of
      the request: a failure, a body without streams, or the streams. */
  function SearchResult(response: Result<Option<seq<Stream>>>): (ts: seq<Torrent>)
    ensures response.Err? || response.value.None? ==> ts == []
    ensures response.Ok? && response.value.Some? ==> ts == SortTorrents(ParseAll(response.value.value))
  {
    match response
    case Err(_) => []
    case Ok(None) => []
    case Ok(Some(streams)) => SortTorrents(ParseAll(streams))
  }

  /** The search result is ranked, holds exactly the parsed streams, and
      keeps the input order among torrents that compare equal. */
  lemma SearchResultProperties(streams: seq<Stream>, rank: nat, seeders: nat)
    ensures Ranked(SearchResult(Ok(Some(streams))))
    ensures multiset(SearchResult(Ok(Some(streams)))) == multiset(ParseAll(streams))
    ensures WithKey(SearchResult(Ok(Some(streams))), rank, seeders) == WithKey(ParseAll(streams), rank, seeders)
  {
    SortTorrentsRanked(ParseAll(streams));
    SortTorrentsStable(ParseAll(streams), rank, seeders);
  }

  // ---------------------------------------------------------------------
  // Picking and grouping

  /** getBestQuality: nothing for an empty list, else the first torrent
      with at least 5 seeders, else the first torrent. */
  function BestQuality(ts: seq<Torrent>): (r: Option<Torrent>)
    ensures ts == [] <==> r.None?
    ensures r.Some? ==> r.value in ts
    ensures r.Some? && r.value.seeders < 5 ==> r.value == ts[0] && forall i :: 0 <= i < |ts| ==> ts[i].seeders < 5
    ensures r.Some? && r.value.seeders >= 5 ==> exists k :: 0 <= k < |ts| && ts[k] == r.value && forall i :: 0 <= i < k ==> ts[i].seeders < 5
  {
    if ts == [] then None
    else match FirstViable(ts)
      case None => Some(ts[0])
      case Some(k) => Some(ts[k])
  }

  function FirstViable(ts: seq<Torrent>): (k: Option<nat>)
    ensures k.Some? ==> k.value < |ts| && ts[k.value].seeders >= 5 && forall i :: 0 <= i < k.value ==> ts[i].seeders < 5
    ensures k.None? ==> forall i :: 0 <= i < |ts| ==> ts[i].seeders < 5
  {
    if ts == [] then None
    else if ts[0].seeders >= 5 then Some(0)
    else match FirstViable(ts[1..])
      case None => None
      case Some(k) => Some(k + 1)
  }

  /** The torrents of one quality, in list order. */
  function OfQuality(ts: seq<Torrent>, quality: string): (r: seq<Torrent>)
    ensures forall i :: 0 <= i < |r| ==> r[i].quality == quality && r[i] in ts
  {
    if ts == [] then [] else IfQuality(ts[0], quality) + OfQuality(ts[1..], quality)
  }

  /** The one-torrent group of t, when t has that quality. */
  function IfQuality(t: Torrent, quality: string): seq<Torrent> {
    if t.quality == quality then [t] else []
  }

  lemma {:induction false} OfQualitySnoc(ts: seq<Torrent>, t: Torrent, quality: string)
    ensures OfQuality(ts + [t], quality) == OfQuality(ts, quality) + IfQuality(t, quality)
  {
    if ts == [] {
      assert OfQuality([t], quality) == IfQuality(t, quality) + OfQuality([], quality);
    } else {
      var head := IfQuality(ts[0], quality);
      assert (ts + [t])[1..] == ts[1..] + [t];
      assert OfQuality(ts + [t], quality) == head + OfQuality(ts[1..] + [t], quality);
      OfQualitySnoc(ts[1..], t, quality);
      assert OfQuality(ts, quality) == head + OfQuality(ts[1..], quality);
      assert head + (OfQuality(ts[1..], quality) + IfQuality(t, quality))
        == (head + OfQuality(ts[1..], quality)) + IfQuality(t, quality);
    }
  }

  lemma OfQualityEmpty(ts: seq<Torrent>, quality: string)
    requires forall i :: 0 <= i < |ts| ==> ts[i].quality != quality
    ensures OfQuality(ts, quality) == []
  {
  }

  /** grouped holds one group per quality of ts, each with every torrent
      of that quality in list order. */
  ghost predicate Groups(ts: seq<Torrent>, grouped: map<string, seq<Torrent>>) {
    GroupKeys(ts, grouped) && GroupContents(ts, grouped)
  }

  /** A group exactly for each quality that occurs. */
  ghost predicate GroupKeys(ts: seq<Torrent>, grouped: map<string, seq<Torrent>>) {
    forall q :: q in grouped <==> exists i :: 0 <= i < |ts| && ts[i].quality == q
  }

  /** Each group holds the torrents of its quality, in order, and is not empty. */
  ghost predicate GroupContents(ts: seq<Torrent>, grouped: map<string, seq<Torrent>>) {
    forall q :: q in grouped ==> grouped[q] == OfQuality(ts, q) && |grouped[q]| > 0
  }

  /** The group of q so far, empty before its first torrent. */
  function GroupOf(grouped: map<string, seq<Torrent>>, q: string): seq<Torrent> {
    if q in grouped then grouped[q] else []
  }

  /** Pushing the next torrent onto its group keeps the groups exact. */
  lemma GroupsSnoc(ts: seq<Torrent>, i: nat, grouped: map<string, seq<Torrent>>,
                   next: map<string, seq<Torrent>>)
    requires i < |ts| && Groups(ts[..i], grouped)
    requires next == Push(grouped, ts[i])
    ensures Groups(ts[..i + 1], next)
  {
    var t, before, after := ts[i], ts[..i], ts[..i + 1];
    assert after == before + [t];
    KeysSnoc(before, t, after, grouped, next);
    ContentsSnoc(before, t, after, grouped, next);
  }

  lemma KeysSnoc(before: seq<Torrent>, t: Torrent, after: seq<Torrent>,
                 grouped: map<string, seq<Torrent>>, next: map<string, seq<Torrent>>)
    requires after == before + [t]
    requires GroupKeys(before, grouped)
    requires next == Push(grouped, t)
    ensures GroupKeys(after, next)
  {
    forall q ensures q in next <==> exists j :: 0 <= j < |after| && after[j].quality == q {
      if q in grouped {
        var j :| 0 <= j < |before| && before[j].quality == q;
        assert after[j] == before[j];
      }
      if q == t.quality {
        assert after[|before|] == t;
      }
      if exists j :: 0 <= j < |after| && after[j].quality == q {
        var j :| 0 <= j < |after| && after[j].quality == q;
        if j < |before| {
          assert before[j] == after[j];
        }
      }
    }
  }

  lemma ContentsSnoc(before: seq<Torrent>, t: Torrent, after: seq<Torrent>,
                     grouped: map<string, seq<Torrent>>, next: map<string, seq<Torrent>>)
    requires after == before + [t]
    requires GroupKeys(before, grouped) && GroupContents(before, grouped)
    requires next == Push(grouped, t)
    ensures GroupContents(after, next)
  {
    forall q | q in next ensures next[q] == OfQuality(after, q) && |next[q]| > 0 {
      if q == t.quality {
        var group := GroupOf(grouped, q);
        if q !in grouped {
          assert forall j :: 0 <= j < |before| ==> before[j].quality != q;
          OfQualityEmpty(before, q);
        }
        assert next[q] == group + [t];
        PushedGroup(before, t, group);
      } else {
        assert next[q] == grouped[q];
        OtherGroup(before, t, q, grouped[q]);
      }
    }
  }

  lemma PushedGroup(before: seq<Torrent>, t: Torrent, group: seq<Torrent>)
    requires group == OfQuality(before, t.quality)
    ensures group + [t] == OfQuality(before + [t], t.quality)
  {
    OfQualitySnoc(before, t, t.quality);
    assert IfQuality(t, t.quality) == [t];
  }

  lemma OtherGroup(before: seq<Torrent>, t: Torrent, q: string, group: seq<Torrent>)
    requires q != t.quality && group == OfQuality(before, q)
    ensures group == OfQuality(before + [t], q)
  {
    OfQualitySnoc(before, t, q);
    assert IfQuality(t, q) == [];
  }

  /** Pushing t onto its group, creating the group first when needed. */
  function Push(grouped: map<string, seq<Torrent>>, t: Torrent): map<string, seq<Torrent>> {
    grouped[t.quality := GroupOf(grouped, t.quality) + [t]]
  }

  /** The groups after pushing every torrent of ts in order. */
  function GroupMap(ts: seq<Torrent>): (grouped: map<string, seq<Torrent>>)
    ensures forall q :: q in grouped ==> |grouped[q]| > 0
    ensures forall q, t :: q in grouped && t in grouped[q] ==> t.quality == q && t in ts
    decreases |ts|
  {
    if ts == [] then map[] else Push(GroupMap(ts[..|ts| - 1]), ts[|ts| - 1])
  }

  lemma {:induction false} GroupMapGroups(ts: seq<Torrent>)
    ensures Groups(ts, GroupMap(ts))
    decreases |ts|
  {
    if ts != [] {
      var n := |ts| - 1;
      var prev := GroupMap(ts[..n]);
      GroupMapGroups(ts[..n]);
      assert GroupMap(ts) == Push(prev, ts[n]);
      GroupsSnoc(ts, n, prev, GroupMap(ts));
      assert ts[..n + 1] == ts;
    }
  }

  /** groupByQuality: one group per quality that occurs, holding every
      torrent of that quality in list order. */
  method GroupByQuality(ts: seq<Torrent>) returns (grouped: map<string, seq<Torrent>>)
    ensures GroupKeys(ts, grouped)
    ensures GroupContents(ts, grouped)
  {
    grouped := map[];
    var i := 0;
    while i < |ts|
      invariant 0 <= i <= |ts|
      invariant grouped == GroupMap(ts[..i])
    {
      var t := ts[i];
      var group: seq<Torrent> := [];
      if t.quality in grouped {
        group := grouped[t.quality];
      }
      assert ts[..i + 1][..i] == ts[..i];
      grouped := grouped[t.quality := group + [t]];
      i := i + 1;
    }
    assert ts[..i] == ts;
    GroupMapGroups(ts);
  }
}

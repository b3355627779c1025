/**
  Percent-encoding as the Activity launch link uses it: the bot builds the
  query with encodeURIComponent, the browser parses it with URLSearchParams
  (the application/x-www-form-urlencoded parser of the WHATWG URL
  Standard, section 5.1), and the Activity then applies decodeURIComponent
  once more.  Characters are encoded to UTF-8 as RFC 3629 defines it.
*/
module Uri {
  import opened Js

  type Byte = b: int | 0 <= b < 256

  // ---------------------------------------------------------------------
  // UTF-8 (RFC 3629)

  /** The UTF-8 encoding of one scalar value. */
  function Utf8(c: char): (bs: seq<Byte>)
    ensures 1 <= |bs| <= 4
    ensures (|bs| == 1) == (c as int < 0x80)
    ensures bs[0] < 0x80 || 0xC2 <= bs[0] <= 0xF4
    ensures |bs| == 1 ==> bs[0] == c as int
    ensures |bs| == 2 ==> 0xC2 <= bs[0] <= 0xDF
    ensures |bs| == 3 ==> 0xE0 <= bs[0] <= 0xEF
    ensures |bs| == 4 ==> 0xF0 <= bs[0] <= 0xF4
    ensures forall i :: 1 <= i < |bs| ==> 0x80 <= bs[i] <= 0xBF
  {
    var k := c as int;
    if k < 0x80 then [k]
    else if k < 0x800 then
      var a := k / 64;
      [0xC0 + a, 0x80 + (k - a * 64)]
    else if k < 0x10000 then
      var a := k / 4096;
      var r := k - a * 4096;
      var b := r / 64;
      [0xE0 + a, 0x80 + b, 0x80 + (r - b * 64)]
    else
      var a := k / 262144;
      var r1 := k - a * 262144;
      var b := r1 / 4096;
      var r2 := r1 - b * 4096;
      var d := r2 / 64;
      [0xF0 + a, 0x80 + b, 0x80 + d, 0x80 + (r2 - d * 64)]
  }

  function Utf8String(s: string): (bs: seq<Byte>)
    ensures |bs| >= |s|
  {
    if s == [] then [] else Utf8(s[0]) + Utf8String(s[1..])
  }

  const Replacement: char := '\U{FFFD}'

  /** The outcome of decoding one character at the front of a byte sequence:
      the character, how many bytes it took, and whether those bytes were a
      well-formed encoding.  An ill-formed prefix decodes to U+FFFD and uses
      its maximal subpart (at least one byte), as the WHATWG Encoding
      Standard's UTF-8 decoder does. */
  datatype Step = Step(c: char, used: nat, ok: bool)

  function DecodeStep(bs: seq<Byte>): (st: Step)
    requires |bs| > 0
    ensures 1 <= st.used <= |bs| && st.used <= 4
    ensures !st.ok ==> st.c == Replacement
    ensures bs[0] < 0x80 ==> st == Step(bs[0] as char, 1, true)
  {
    var b0 := bs[0] as int;
    if b0 < 0x80 then Step(b0 as char, 1, true)
    else if 0xC2 <= b0 <= 0xDF then
      if |bs| < 2 || !(0x80 <= bs[1] <= 0xBF) then Step(Replacement, 1, false)
      else Step(((b0 - 0xC0) * 64 + (bs[1] as int - 0x80)) as char, 2, true)
    else if 0xE0 <= b0 <= 0xEF then
      var lo := if b0 == 0xE0 then 0xA0 else 0x80;
      var hi := if b0 == 0xED then 0x9F else 0xBF;
      if |bs| < 2 || !(lo <= bs[1] <= hi) then Step(Replacement, 1, false)
      else if |bs| < 3 || !(0x80 <= bs[2] <= 0xBF) then Step(Replacement, 2, false)
      else Step(((b0 - 0xE0) * 4096 + (bs[1] as int - 0x80) * 64 + (bs[2] as int - 0x80)) as char, 3, true)
    else if 0xF0 <= b0 <= 0xF4 then
      var lo := if b0 == 0xF0 then 0x90 else 0x80;
      var hi := if b0 == 0xF4 then 0x8F else 0xBF;
      if |bs| < 2 || !(lo <= bs[1] <= hi) then Step(Replacement, 1, false)
      else if |bs| < 3 || !(0x80 <= bs[2] <= 0xBF) then Step(Replacement, 2, false)
      else if |bs| < 4 || !(0x80 <= bs[3] <= 0xBF) then Step(Replacement, 3, false)
      else Step(((b0 - 0xF0) * 262144 + (bs[1] as int - 0x80) * 4096
                 + (bs[2] as int - 0x80) * 64 + (bs[3] as int - 0x80)) as char, 4, true)
    else Step(Replacement, 1, false)
  }

  /** UTF-8 decode with replacement. */
  function Utf8Decode(bs: seq<Byte>): (s: string)
    ensures |s| <= |bs|
    ensures AsciiBytes(bs) ==> |s| == |bs| && forall i :: 0 <= i < |s| ==> s[i] as int == bs[i]
    decreases |bs|
  {
    if |bs| == 0 then []
    else
      var st := DecodeStep(bs);
      assert AsciiBytes(bs) ==> AsciiBytes(bs[1..]);
      [st.c] + Utf8Decode(bs[st.used..])
  }

  predicate AsciiBytes(bs: seq<Byte>) {
    forall i :: 0 <= i < |bs| ==> bs[i] < 0x80
  }

  lemma DecodeStepUtf8Two(c: char, rest: seq<Byte>)
    requires 0x80 <= c as int < 0x800
    ensures DecodeStep(Utf8(c) + rest) == Step(c, 2, true)
  {
    var bs := Utf8(c) + rest;
    assert bs[0] == Utf8(c)[0] && bs[1] == Utf8(c)[1];
  }

  lemma DecodeStepUtf8Three(c: char, rest: seq<Byte>)
    requires 0x800 <= c as int < 0x10000
    ensures DecodeStep(Utf8(c) + rest) == Step(c, 3, true)
  {
    var k := c as int;
    var bs := Utf8(c) + rest;
    var a := k / 4096;
    var r := k - a * 4096;
    var b := r / 64;
    assert bs[0] == 0xE0 + a && bs[1] == 0x80 + b && bs[2] == 0x80 + (r - b * 64);
    assert a == 0 ==> b >= 0x20;
    assert a == 0xD ==> b < 0x20;
  }

  lemma DecodeStepUtf8Four(c: char, rest: seq<Byte>)
    requires 0x10000 <= c as int
    ensures DecodeStep(Utf8(c) + rest) == Step(c, 4, true)
  {
    var k := c as int;
    var bs := Utf8(c) + rest;
    var a := k / 262144;
    var r1 := k - a * 262144;
    var b := r1 / 4096;
    var r2 := r1 - b * 4096;
    var d := r2 / 64;
    assert bs[0] == 0xF0 + a && bs[1] == 0x80 + b && bs[2] == 0x80 + d && bs[3] == 0x80 + (r2 - d * 64);
    assert a == 0 ==> b >= 0x10;
    assert a == 4 ==> b < 0x10;
  }

  /** Decoding reads back every encoded character, whatever follows it. */
  lemma DecodeStepUtf8(c: char, rest: seq<Byte>)
    ensures DecodeStep(Utf8(c) + rest) == Step(c, |Utf8(c)|, true)
  {
    var k := c as int;
    if k < 0x80 {
      assert (Utf8(c) + rest)[0] == k;
    } else if k < 0x800 {
      DecodeStepUtf8Two(c, rest);
    } else if k < 0x10000 {
      DecodeStepUtf8Three(c, rest);
    } else {
      DecodeStepUtf8Four(c, rest);
    }
  }

  /** UTF-8 decoding inverts UTF-8 encoding. */
  lemma {:induction false} Utf8RoundTrip(s: string)
    ensures Utf8Decode(Utf8String(s)) == s
  {
    if s != [] {
      var bs := Utf8String(s);
      DecodeStepUtf8(s[0], Utf8String(s[1..]));
      assert bs[|Utf8(s[0])|..] == Utf8String(s[1..]);
      Utf8RoundTrip(s[1..]);
    }
  }

  /** ASCII text encodes to its own code points, one byte each. */
  lemma {:induction false} Utf8StringAscii(s: string)
    requires forall i :: 0 <= i < |s| ==> s[i] as int < 0x80
    ensures |Utf8String(s)| == |s|
    ensures forall i :: 0 <= i < |s| ==> Utf8String(s)[i] == s[i] as int
  {
    if s != [] {
      Utf8StringAscii(s[1..]);
    }
  }

  lemma {:induction false} Utf8StringAppend(a: string, b: string)
    ensures Utf8String(a + b) == Utf8String(a) + Utf8String(b)
  {
    if a == [] {
      assert a + b == b;
    } else {
      assert (a + b)[1..] == a[1..] + b;
      Utf8StringAppend(a[1..], b);
    }
  }

  // ---------------------------------------------------------------------
  // encodeURIComponent

  /** The characters encodeURIComponent leaves alone: letters, digits and
      - _ . ! ~ * ' ( ) */
  predicate Unreserved(c: char) {
    'A' <= c <= 'Z' || 'a' <= c <= 'z' || '0' <= c <= '9'
    || c == '-' || c == '_' || c == '.' || c == '!' || c == '~' || c == '*'
    || c == '\'' || c == '(' || c == ')'
  }

  predicate IsHexChar(c: char) {
    '0' <= c <= '9' || 'A' <= c <= 'F' || 'a' <= c <= 'f'
  }

  function HexChar(d: nat): (c: char)
    requires d < 16
    ensures IsHexChar(c) && Unreserved(c)
  {
    if d < 10 then (48 + d) as char else (55 + d) as char
  }

  function HexValue(c: char): nat
    requires IsHexChar(c)
  {
    if '0' <= c <= '9' then c as int - 48
    else if 'A' <= c <= 'F' then c as int - 55
    else c as int - 87
  }

  /** A byte written as a percent sign and two upper-case hex digits. */
  function PercentByte(b: Byte): (s: string)
    ensures |s| == 3 && s[0] == '%'
    ensures forall i :: 0 <= i < |s| ==> Unreserved(s[i]) || s[i] == '%'
  {
    ['%', HexChar(b / 16), HexChar(b % 16)]
  }

  function PercentBytes(bs: seq<Byte>): (s: string)
    ensures |s| == 3 * |bs|
    ensures forall i :: 0 <= i < |s| ==> Unreserved(s[i]) || s[i] == '%'
  {
    if bs == [] then [] else PercentByte(bs[0]) + PercentBytes(bs[1..])
  }

  function EncodeChar(c: char): (s: string)
    ensures |s| >= 1
    ensures Unreserved(c) <==> s == [c]
    ensures forall i :: 0 <= i < |s| ==> Unreserved(s[i]) || s[i] == '%'
  {
    if Unreserved(c) then [c] else PercentBytes(Utf8(c))
  }

  /** encodeURIComponent. */
  function EncodeComponent(s: string): (e: string)
    ensures forall i :: 0 <= i < |e| ==> Unreserved(e[i]) || e[i] == '%'
  {
    if s == [] then [] else EncodeChar(s[0]) + EncodeComponent(s[1..])
  }

  lemma {:induction false} EncodeComponentAppend(a: string, b: string)
    ensures EncodeComponent(a + b) == EncodeComponent(a) + EncodeComponent(b)
  {
    if a == [] {
      assert a + b == b;
    } else {
      assert (a + b)[1..] == a[1..] + b;
      EncodeComponentAppend(a[1..], b);
    }
  }

  /** Text made only of unreserved characters is left unchanged. */
  lemma {:induction false} EncodeUnreservedIdentity(s: string)
    requires forall i :: 0 <= i < |s| ==> Unreserved(s[i])
    ensures EncodeComponent(s) == s
  {
    if s != [] {
      EncodeUnreservedIdentity(s[1..]);
      assert [s[0]] + s[1..] == s;
    }
  }

  /** No query delimiter survives encoding. */
  lemma EncodedHasNoDelimiters(s: string)
    ensures '&' !in EncodeComponent(s) && '=' !in EncodeComponent(s)
    ensures '+' !in EncodeComponent(s) && '#' !in EncodeComponent(s)
    ensures '?' !in EncodeComponent(s) && '/' !in EncodeComponent(s)
  {
    var e := EncodeComponent(s);
    forall i | 0 <= i < |e| ensures e[i] != '&' && e[i] != '=' && e[i] != '+' && e[i] != '#' && e[i] != '?' && e[i] != '/' {
      assert Unreserved(e[i]) || e[i] == '%';
    }
  }

  // ---------------------------------------------------------------------
  // decodeURIComponent

  /** The byte written as %XY at the front of s, if s starts that way. */
  function PercentAt(s: string): Option<Byte> {
    if |s| >= 3 && s[0] == '%' && IsHexChar(s[1]) && IsHexChar(s[2])
    then Some(HexValue(s[1]) * 16 + HexValue(s[2]))
    else None
  }

  /** The number of leading one bits of a byte, as the Decode operation of
      ECMA-262 counts them to size a multi-byte sequence. */
  function LeadingOnes(b: Byte): nat {
    if b < 0x80 then 0 else if b < 0xC0 then 1 else if b < 0xE0 then 2
    else if b < 0xF0 then 3 else if b < 0xF8 then 4 else 5
  }

  /** Reads n percent-escapes from the front of s; every byte after the
      first must be a continuation byte (10xxxxxx). */
  function Gather(s: string, n: nat, first: bool): (r: Option<seq<Byte>>)
    ensures r.Some? ==> |r.value| == n && 3 * n <= |s|
    decreases n
  {
    if n == 0 then Some([])
    else match PercentAt(s)
      case None => None
      case Some(b) =>
        if !first && !(0x80 <= b <= 0xBF) then None
        else match Gather(s[3..], n - 1, false)
          case None => None
          case Some(more) => Some([b] + more)
  }

  /** Puts c in front of a decoded remainder, passing an error through. */
  function Prepend(c: char, r: Result<string>): Result<string> {
    match r
    case Err(e) => Err(e)
    case Ok(t) => Ok([c] + t)
  }

  /** decodeURIComponent: every %XY sequence must form a well-formed UTF-8
      encoding, otherwise a URIError is thrown. */
  function DecodeComponent(s: string): (r: Result<string>)
    ensures r.Ok? ==> |r.value| <= |s|
    ensures r.Ok? && '%' in s ==> |r.value| < |s|
    decreases |s|
  {
    if |s| == 0 then Ok([])
    else if s[0] != '%' then Prepend(s[0], DecodeComponent(s[1..]))
    else match PercentAt(s)
      case None => Err("URI malformed")
      case Some(b) =>
        if b < 0x80 then Prepend(b as char, DecodeComponent(s[3..]))
        else
          var n := LeadingOnes(b);
          if n == 1 || n > 4 then Err("URI malformed")
          else match Gather(s, n, true)
            case None => Err("URI malformed")
            case Some(octets) =>
              var st := DecodeStep(octets);
              if !st.ok || st.used != n then Err("URI malformed")
              else Prepend(st.c, DecodeComponent(s[3 * n..]))
  }

  lemma PercentAtByte(b: Byte, rest: string)
    ensures PercentAt(PercentByte(b) + rest) == Some(b)
  {
    var s := PercentByte(b) + rest;
    assert s[1] == HexChar(b / 16) && s[2] == HexChar(b % 16);
  }

  lemma {:induction false} GatherPercentBytes(bs: seq<Byte>, rest: string, first: bool)
    requires forall i :: (if first then 1 else 0) <= i < |bs| ==> 0x80 <= bs[i] <= 0xBF
    ensures Gather(PercentBytes(bs) + rest, |bs|, first) == Some(bs)
  {
    if bs != [] {
      var s := PercentBytes(bs) + rest;
      PercentAtByte(bs[0], PercentBytes(bs[1..]) + rest);
      assert s == PercentByte(bs[0]) + (PercentBytes(bs[1..]) + rest);
      assert s[3..] == PercentBytes(bs[1..]) + rest;
      GatherPercentBytes(bs[1..], rest, false);
      assert [bs[0]] + bs[1..] == bs;
    }
  }

  lemma DecodeEscapedChar(c: char, rest: string)
    requires !Unreserved(c)
    ensures DecodeComponent(PercentBytes(Utf8(c)) + rest) == Prepend(c, DecodeComponent(rest))
  {
    if c as int < 0x80 {
      DecodeEscapedAscii(c, rest);
    } else {
      DecodeEscapedMulti(c, rest);
    }
  }

  /** One escape for an ASCII character decodes as that character. */
  lemma DecodeEscapedAscii(c: char, rest: string)
    requires c as int < 0x80
    ensures DecodeComponent(PercentBytes(Utf8(c)) + rest) == Prepend(c, DecodeComponent(rest))
  {
    var b: Byte := c as int;
    assert Utf8(c) == [b];
    assert PercentBytes([b]) == PercentByte(b) + PercentBytes([]);
    var s := PercentByte(b) + rest;
    PercentAtByte(b, rest);
    assert s[3..] == rest;
  }

  /** The escapes of a multi-byte encoding decode as its one character. */
  lemma DecodeEscapedMulti(c: char, rest: string)
    requires c as int >= 0x80
    ensures DecodeComponent(PercentBytes(Utf8(c)) + rest) == Prepend(c, DecodeComponent(rest))
  {
    var bs := Utf8(c);
    var s := PercentBytes(bs) + rest;
    assert s == PercentByte(bs[0]) + (PercentBytes(bs[1..]) + rest);
    PercentAtByte(bs[0], PercentBytes(bs[1..]) + rest);
    GatherPercentBytes(bs, rest, true);
    DecodeStepUtf8(c, []);
    assert bs + [] == bs;
    DecodeMultiByte(s, bs, c);
    assert s[3 * |bs|..] == rest;
  }

  /** decodeURIComponent on a well-formed escaped multi-byte sequence at
      the front of s. */
  lemma DecodeMultiByte(s: string, bs: seq<Byte>, c: char)
    requires |s| >= 3 && s[0] == '%' && |bs| >= 1
    requires PercentAt(s) == Some(bs[0]) && 0xC2 <= bs[0] <= 0xF4
    requires LeadingOnes(bs[0]) == |bs|
    requires Gather(s, |bs|, true) == Some(bs)
    requires DecodeStep(bs) == Step(c, |bs|, true)
    ensures DecodeComponent(s) == Prepend(c, DecodeComponent(s[3 * |bs|..]))
  {
  }

  lemma DecodeEncodedChar(c: char, rest: string)
    ensures DecodeComponent(EncodeChar(c) + rest) == Prepend(c, DecodeComponent(rest))
  {
    if Unreserved(c) {
      assert (EncodeChar(c) + rest)[1..] == rest;
    } else {
      DecodeEscapedChar(c, rest);
    }
  }

  /** decodeURIComponent inverts encodeURIComponent. */
  lemma {:induction false} DecodeEncodeComponent(s: string)
    ensures DecodeComponent(EncodeComponent(s)) == Ok(s)
  {
    if s != [] {
      DecodeEncodeComponent(s[1..]);
      DecodeEncodedChar(s[0], EncodeComponent(s[1..]));
      assert [s[0]] + s[1..] == s;
    }
  }

  /** Text without a percent sign comes back unchanged from decodeURIComponent. */
  lemma {:induction false} DecodeWithoutPercent(s: string)
    requires '%' !in s
    ensures DecodeComponent(s) == Ok(s)
  {
    if s != [] {
      DecodeWithoutPercent(s[1..]);
      assert [s[0]] + s[1..] == s;
    }
  }

  /** A '%' that does not start an escape makes decodeURIComponent throw. */
  lemma {:induction false} DecodeStrayPercent(a: string, rest: string)
    requires '%' !in a
    requires PercentAt("%" + rest).None?
    ensures DecodeComponent(a + "%" + rest).Err?
  {
    if a == [] {
      assert a + "%" + rest == "%" + rest;
    } else {
      assert (a + "%" + rest)[1..] == a[1..] + "%" + rest;
      DecodeStrayPercent(a[1..], rest);
    }
  }

  /** Text with a percent sign never comes back unchanged: it is either
      rejected or shortened. */
  lemma DecodeWithPercentChanges(s: string)
    requires '%' in s
    ensures DecodeComponent(s) != Ok(s)
  {
  }

  // ---------------------------------------------------------------------
  // URLSearchParams

  /** The percent-decode of the WHATWG URL Standard on bytes: a %XY escape
      becomes its byte, anything else (a stray % included) stays. */
  function PercentDecodeBytes(bs: seq<Byte>): (r: seq<Byte>)
    decreases |bs|
  {
    if |bs| == 0 then []
    else if bs[0] == 0x25 && |bs| >= 3 && IsHexChar(bs[1] as char) && IsHexChar(bs[2] as char) then
      [HexValue(bs[1] as char) * 16 + HexValue(bs[2] as char)] + PercentDecodeBytes(bs[3..])
    else [bs[0]] + PercentDecodeBytes(bs[1..])
  }

  function ReplacePlus(s: string): (t: string)
    ensures |t| == |s|
    ensures forall i :: 0 <= i < |s| ==> t[i] == if s[i] == '+' then ' ' else s[i]
  {
    if s == [] then [] else [if s[0] == '+' then ' ' else s[0]] + ReplacePlus(s[1..])
  }

  /** How the form-urlencoded parser decodes one name or value: '+' becomes
      a space, escapes are decoded leniently, and the bytes are read as
      UTF-8 with replacement. */
  function FormDecode(s: string): (t: string)
    ensures PlainAscii(s) ==> t == s
  {
    if PlainAscii(s) then
      assert ReplacePlus(s) == s;
      Utf8StringAscii(s);
      var bs := Utf8String(s);
      assert AsciiBytes(bs);
      assert 0x25 !in bs by {
        forall i | 0 <= i < |bs| ensures bs[i] != 0x25 { assert s[i] != '%'; }
      }
      PercentDecodeWithoutPercent(bs);
      var t := Utf8Decode(PercentDecodeBytes(Utf8String(ReplacePlus(s))));
      assert t == s;
      t
    else
      Utf8Decode(PercentDecodeBytes(Utf8String(ReplacePlus(s))))
  }

  /** ASCII text with neither '%' nor '+': nothing for the form decoder to
      change. */
  predicate PlainAscii(s: string) {
    forall i :: 0 <= i < |s| ==> s[i] as int < 0x80 && s[i] != '%' && s[i] != '+'
  }

  lemma {:induction false} PercentDecodeWithoutPercent(bs: seq<Byte>)
    requires 0x25 !in bs
    ensures PercentDecodeBytes(bs) == bs
    decreases |bs|
  {
    if bs != [] {
      PercentDecodeWithoutPercent(bs[1..]);
      assert [bs[0]] + bs[1..] == bs;
    }
  }

  /** The name/value pairs of a query string, in order. */
  function ParsePairs(pieces: seq<string>): (pairs: seq<(string, string)>)
    ensures |pairs| <= |pieces|
    ensures (forall i :: 0 <= i < |pieces| ==> pieces[i] != "") ==> |pairs| == |pieces|
  {
    if pieces == [] then []
    else if pieces[0] == "" then ParsePairs(pieces[1..])
    else
      var p := pieces[0];
      var name := Before(p, '=');
      var value := if |name| < |p| then p[|name| + 1..] else "";
      [(FormDecode(name), FormDecode(value))] + ParsePairs(pieces[1..])
  }

  /** new URLSearchParams(search): a leading '?' is dropped, the rest is
      split on '&'. */
  function ParseQuery(search: string): (pairs: seq<(string, string)>)
    ensures search == "" || search == "?" ==> pairs == []
    ensures '&' !in search ==> |pairs| <= 1
  {
    var body := if |search| > 0 && search[0] == '?' then search[1..] else search;
    if '&' !in body then
      SplitNoSeparator(body, '&');
      ParsePairs(Split(body, '&'))
    else
      ParsePairs(Split(body, '&'))
  }

  function Lookup(pairs: seq<(string, string)>, name: string): (v: Option<string>)
    ensures v.None? <==> forall i :: 0 <= i < |pairs| ==> pairs[i].0 != name
    ensures v.Some? ==>
      exists i :: 0 <= i < |pairs| && pairs[i] == (name, v.value) && forall j :: 0 <= j < i ==> pairs[j].0 != name
  {
    if pairs == [] then None
    else if pairs[0].0 == name then Some(pairs[0].1)
    else Lookup(pairs[1..], name)
  }

  /** params.get(name): the first value under that name, or null. */
  function QueryGet(search: string, name: string): (r: Option<string>)
    ensures r.Some? ==> exists p :: p in ParseQuery(search) && p == (name, r.value)
  {
    LookupFound(ParseQuery(search), name);
    Lookup(ParseQuery(search), name)
  }

  lemma LookupFound(pairs: seq<(string, string)>, name: string)
    ensures Lookup(pairs, name).Some? ==> (name, Lookup(pairs, name).value) in pairs
  {
  }

  /** The ASCII bytes of the encoded text decode, escape by escape, to the
      UTF-8 bytes of the original character. */
  lemma PercentDecodeEncodedChar(c: char, rest: seq<Byte>)
    ensures PercentDecodeBytes(Utf8String(EncodeChar(c)) + rest) == Utf8(c) + PercentDecodeBytes(rest)
  {
    if Unreserved(c) {
      assert Utf8String([c]) == [c as int];
      assert (Utf8String(EncodeChar(c)) + rest)[1..] == rest;
    } else {
      PercentDecodeBytesOf(Utf8(c), rest);
    }
  }

  lemma HexValueOfHexChar(d: nat)
    requires d < 16
    ensures HexValue(HexChar(d)) == d
  {
  }

  /** The ASCII bytes of the escapes of bs, followed by rest. */
  function EscapesThen(bs: seq<Byte>, rest: seq<Byte>): (r: seq<Byte>)
    ensures |r| == 3 * |bs| + |rest|
  {
    if bs == [] then rest else EscapeByte(bs[0]) + EscapesThen(bs[1..], rest)
  }

  lemma {:induction false} EscapesThenOf(bs: seq<Byte>, rest: seq<Byte>)
    ensures Utf8String(PercentBytes(bs)) + rest == EscapesThen(bs, rest)
  {
    if bs == [] {
      assert Utf8String(PercentBytes(bs)) + rest == rest;
    } else {
      var tail := Utf8String(PercentBytes(bs[1..]));
      Utf8OfPercentBytesStep(bs);
      EscapesThenOf(bs[1..], rest);
      EscapesThenStep(bs, rest, EscapeByte(bs[0]), tail);
    }
  }

  lemma Utf8OfPercentBytesStep(bs: seq<Byte>)
    requires bs != []
    ensures Utf8String(PercentBytes(bs)) == EscapeByte(bs[0]) + Utf8String(PercentBytes(bs[1..]))
  {
    assert PercentBytes(bs) == PercentByte(bs[0]) + PercentBytes(bs[1..]);
    Utf8StringAppend(PercentByte(bs[0]), PercentBytes(bs[1..]));
    Utf8OfEscape(bs[0]);
  }

  lemma EscapesThenStep(bs: seq<Byte>, rest: seq<Byte>, e: seq<Byte>, tail: seq<Byte>)
    requires bs != [] && e == EscapeByte(bs[0])
    requires tail + rest == EscapesThen(bs[1..], rest)
    ensures (e + tail) + rest == EscapesThen(bs, rest)
  {
    EscapesThenUnfold(bs, rest);
    AppendAssoc(e, tail, rest);
  }

  lemma EscapesThenUnfold(bs: seq<Byte>, rest: seq<Byte>)
    requires bs != []
    ensures EscapesThen(bs, rest) == EscapeByte(bs[0]) + EscapesThen(bs[1..], rest)
  {
  }

  lemma AppendAssoc<T>(a: seq<T>, b: seq<T>, c: seq<T>)
    ensures (a + b) + c == a + (b + c)
  {
  }

  lemma Utf8OfEscape(b: Byte)
    ensures Utf8String(PercentByte(b)) == EscapeByte(b)
  {
    Utf8StringAscii(PercentByte(b));
  }

  lemma {:induction false} PercentDecodeEscapes(bs: seq<Byte>, rest: seq<Byte>)
    ensures PercentDecodeBytes(EscapesThen(bs, rest)) == bs + PercentDecodeBytes(rest)
  {
    if bs == [] {
      assert EscapesThen(bs, rest) == rest;
    } else {
      PercentDecodeEscapesStep(bs, rest);
      PercentDecodeEscapes(bs[1..], rest);
      ConsAssoc(bs, PercentDecodeBytes(rest));
    }
  }

  lemma PercentDecodeEscapesStep(bs: seq<Byte>, rest: seq<Byte>)
    requires bs != []
    ensures PercentDecodeBytes(EscapesThen(bs, rest)) == [bs[0]] + PercentDecodeBytes(EscapesThen(bs[1..], rest))
  {
    assert EscapesThen(bs, rest) == EscapeByte(bs[0]) + EscapesThen(bs[1..], rest);
    PercentDecodeEscape(bs[0], EscapesThen(bs[1..], rest));
  }

  lemma ConsAssoc<T>(xs: seq<T>, d: seq<T>)
    requires xs != []
    ensures [xs[0]] + (xs[1..] + d) == xs + d
  {
    assert xs == [xs[0]] + xs[1..];
  }

  /** The three ASCII bytes of the escape %XY of b. */
  function EscapeByte(b: Byte): seq<Byte> {
    [0x25, HexChar(b / 16) as int, HexChar(b % 16) as int]
  }

  lemma PercentDecodeEscape(b: Byte, more: seq<Byte>)
    ensures PercentDecodeBytes(EscapeByte(b) + more) == [b] + PercentDecodeBytes(more)
  {
    var h := HexChar(b / 16);
    var l := HexChar(b % 16);
    var x := EscapeByte(b) + more;
    assert x[0] == 0x25 && x[1] as char == h && x[2] as char == l && x[3..] == more;
    HexValueOfHexChar(b / 16);
    HexValueOfHexChar(b % 16);
  }

  lemma PercentDecodeBytesOf(bs: seq<Byte>, rest: seq<Byte>)
    ensures PercentDecodeBytes(Utf8String(PercentBytes(bs)) + rest) == bs + PercentDecodeBytes(rest)
  {
    EscapesThenOf(bs, rest);
    PercentDecodeEscapes(bs, rest);
  }

  lemma {:induction false} PercentDecodeEncoded(s: string)
    ensures PercentDecodeBytes(Utf8String(EncodeComponent(s))) == Utf8String(s)
  {
    if s != [] {
      Utf8StringAppend(EncodeChar(s[0]), EncodeComponent(s[1..]));
      PercentDecodeEncodedChar(s[0], Utf8String(EncodeComponent(s[1..])));
      PercentDecodeEncoded(s[1..]);
    }
  }

  lemma {:induction false} ReplacePlusIdentity(s: string)
    requires '+' !in s
    ensures ReplacePlus(s) == s
  {
    if s != [] {
      ReplacePlusIdentity(s[1..]);
      assert [s[0]] + s[1..] == s;
    }
  }

  /** URLSearchParams decodes exactly what encodeURIComponent encoded. */
  lemma FormDecodeEncodeComponent(s: string)
    ensures FormDecode(EncodeComponent(s)) == s
  {
    EncodedHasNoDelimiters(s);
    ReplacePlusIdentity(EncodeComponent(s));
    PercentDecodeEncoded(s);
    Utf8RoundTrip(s);
  }

  /** A name made only of unreserved characters reads back as itself. */
  lemma FormDecodePlain(name: string)
    requires forall i :: 0 <= i < |name| ==> Unreserved(name[i])
    ensures FormDecode(name) == name
  {
    EncodeUnreservedIdentity(name);
    FormDecodeEncodeComponent(name);
  }

  /** A piece name=encodeURIComponent(v) with a plain name parses to the
      pair (name, v). */
  lemma ParsePairsEncoded(name: string, v: string, rest: seq<string>)
    requires name != [] && forall i :: 0 <= i < |name| ==> Unreserved(name[i])
    ensures ParsePairs([name + "=" + EncodeComponent(v)] + rest) == [(name, v)] + ParsePairs(rest)
  {
    var p := name + "=" + EncodeComponent(v);
    BeforeFirst(name, '=', EncodeComponent(v));
    assert p[|name| + 1..] == EncodeComponent(v);
    FormDecodePlain(name);
    FormDecodeEncodeComponent(v);
    assert ([p] + rest)[1..] == rest;
  }

  /** The text before the first c of a + [c] + b is a, when a has no c. */
  lemma {:induction false} BeforeFirst(a: string, c: char, b: string)
    requires c !in a
    ensures Before(a + [c] + b, c) == a
  {
    IndexOfFirst(a, c, b);
  }

  lemma {:induction false} IndexOfFirst(a: string, c: char, b: string)
    requires c !in a
    ensures IndexOf(a + [c] + b, c) == Some(|a|)
  {
    if a != [] {
      assert (a + [c] + b)[1..] == a[1..] + [c] + b;
      IndexOfFirst(a[1..], c, b);
    }
  }

  /** A piece name=encodeURIComponent(v) with a plain name has no '&'. */
  lemma PieceHasNoAmpersand(name: string, v: string)
    requires forall i :: 0 <= i < |name| ==> Unreserved(name[i])
    ensures '&' !in name + "=" + EncodeComponent(v)
  {
    EncodedHasNoDelimiters(v);
    assert '&' !in name;
  }

  /** The query '?name=' + encodeURIComponent(v) gives v back under name. */
  lemma QueryOfOne(name: string, v: string)
    requires name != [] && forall i :: 0 <= i < |name| ==> Unreserved(name[i])
    ensures QueryGet("?" + name + "=" + EncodeComponent(v), name) == Some(v)
  {
    var body := name + "=" + EncodeComponent(v);
    assert ("?" + name + "=" + EncodeComponent(v)) == "?" + body;
    assert ("?" + body)[1..] == body;
    PieceHasNoAmpersand(name, v);
    SplitNoSeparator(body, '&');
    ParsePairsEncoded(name, v, []);
    assert [body] + [] == [body];
    assert ParseQuery("?" + body) == [(name, v)];
  }

  /** The query '?a=' + enc(x) + '&b=' + enc(y) with distinct plain names
      gives x back under a and y under b. */
  lemma QueryOfTwo(a: string, x: string, b: string, y: string)
    requires a != [] && forall i :: 0 <= i < |a| ==> Unreserved(a[i])
    requires b != [] && forall i :: 0 <= i < |b| ==> Unreserved(b[i])
    requires a != b
    ensures QueryGet("?" + a + "=" + EncodeComponent(x) + "&" + b + "=" + EncodeComponent(y), a) == Some(x)
    ensures QueryGet("?" + a + "=" + EncodeComponent(x) + "&" + b + "=" + EncodeComponent(y), b) == Some(y)
  {
    var ex := EncodeComponent(x);
    var ey := EncodeComponent(y);
    QueryShape(a, ex, b, ey);
    ParseQueryOfTwo(a, x, b, y);
    LookupOfTwo(a, x, b, y);
  }

  lemma QueryShape(a: string, ex: string, b: string, ey: string)
    ensures "?" + a + "=" + ex + "&" + b + "=" + ey == "?" + (a + "=" + ex + "&" + (b + "=" + ey))
  {
  }

  lemma LookupOfTwo(a: string, x: string, b: string, y: string)
    requires a != b
    ensures Lookup([(a, x), (b, y)], a) == Some(x)
    ensures Lookup([(a, x), (b, y)], b) == Some(y)
  {
    assert [(a, x), (b, y)][1..] == [(b, y)];
  }

  lemma ParseQueryOfTwo(a: string, x: string, b: string, y: string)
    requires a != [] && forall i :: 0 <= i < |a| ==> Unreserved(a[i])
    requires b != [] && forall i :: 0 <= i < |b| ==> Unreserved(b[i])
    ensures ParseQuery("?" + (a + "=" + EncodeComponent(x) + "&" + (b + "=" + EncodeComponent(y)))) == [(a, x), (b, y)]
  {
    var p1 := a + "=" + EncodeComponent(x);
    var p2 := b + "=" + EncodeComponent(y);
    PieceHasNoAmpersand(a, x);
    PieceHasNoAmpersand(b, y);
    ParseQueryOfPieces(p1, p2);
    ParsePairsEncoded(b, y, []);
    ParsePairsEncoded(a, x, [p2]);
    ParsePairsOfTwo(p1, p2, (a, x), (b, y));
  }

  lemma ParsePairsOfTwo(p1: string, p2: string, r1: (string, string), r2: (string, string))
    requires ParsePairs([p1] + [p2]) == [r1] + ParsePairs([p2])
    requires ParsePairs([p2] + []) == [r2] + ParsePairs([])
    ensures ParsePairs([p1, p2]) == [r1, r2]
  {
    assert [p1, p2] == [p1] + [p2];
    assert [p2] + [] == [p2];
  }

  lemma ParseQueryOfPieces(p1: string, p2: string)
    requires '&' !in p1 && '&' !in p2
    ensures ParseQuery("?" + (p1 + "&" + p2)) == ParsePairs([p1, p2])
  {
    var body := p1 + "&" + p2;
    assert ("?" + body)[1..] == body;
    assert '&' in body by { assert body[|p1|] == '&'; }
    ParseQueryOfBody("?" + body);
    SplitOfTwo(p1, p2, '&');
  }

  /** A query with a leading '?' and a '&' in its body splits the body. */
  lemma ParseQueryOfBody(search: string)
    requires |search| > 0 && search[0] == '?' && '&' in search[1..]
    ensures ParseQuery(search) == ParsePairs(Split(search[1..], '&'))
  {
  }
}

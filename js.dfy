/**
  The few JavaScript value semantics the bot and the Activity rely on:
  undefined/null as Option, thrown errors as Result, the number parseInt
  yields (NaN or an integer), and the String methods the handlers use
  (split on one character, join, trim, substring, startsWith, endsWith).

  Strings are sequences of Unicode scalar values.  JavaScript counts
  UTF-16 code units, so lengths differ from the source's only for
  characters outside the Basic Multilingual Plane.
*/
module Js {

  /** undefined or null (None), or a present value. */
  datatype Option<+T> = None | Some(value: T) {
    function GetOr(default: T): T {
      match this
      case Some(v) => v
      case None => default
    }
  }

  /** A value, or the message of the Error that was thrown instead. */
  datatype Result<+T> = Ok(value: T) | Err(error: string)

  /** What parseInt returns: NaN, or an integer. */
  datatype Num = NaN | Int(n: int)

  // ---------------------------------------------------------------------
  // Characters

  /** The characters matched by the regular-expression class \s and removed
      by String.prototype.trim: WhiteSpace and LineTerminator of ECMA-262. */
  predicate IsSpace(c: char) {
    var k := c as int;
    k == 0x09 || k == 0x0A || k == 0x0B || k == 0x0C || k == 0x0D || k == 0x20
    || k == 0xA0 || k == 0x1680 || (0x2000 <= k <= 0x200A) || k == 0x2028
    || k == 0x2029 || k == 0x202F || k == 0x205F || k == 0x3000 || k == 0xFEFF
  }

  predicate HasSpace(s: string) {
    exists i :: 0 <= i < |s| && IsSpace(s[i])
  }

  predicate IsDigit(c: char) { '0' <= c <= '9' }

  predicate IsLowerAscii(c: char) { 'a' <= c <= 'z' }

  predicate IsUpperAscii(c: char) { 'A' <= c <= 'Z' }

  function ToUpperAscii(c: char): (u: char)
    ensures IsLowerAscii(c) ==> u as int == c as int - 32
    ensures !IsLowerAscii(c) ==> u == c
  {
    if IsLowerAscii(c) then (c as int - 32) as char else c
  }

  function ToLowerAscii(c: char): (l: char)
    ensures IsUpperAscii(c) ==> l as int == c as int + 32
    ensures !IsUpperAscii(c) ==> l == c
  {
    if IsUpperAscii(c) then (c as int + 32) as char else c
  }

  function UpperAscii(s: string): (u: string)
    ensures |u| == |s|
    ensures forall i :: 0 <= i < |s| ==> u[i] == ToUpperAscii(s[i])
  {
    if s == [] then [] else [ToUpperAscii(s[0])] + UpperAscii(s[1..])
  }

  function LowerAscii(s: string): (l: string)
    ensures |l| == |s|
    ensures forall i :: 0 <= i < |s| ==> l[i] == ToLowerAscii(s[i])
  {
    if s == [] then [] else [ToLowerAscii(s[0])] + LowerAscii(s[1..])
  }

  /** Equality as a case-insensitive regular expression without the u flag
      sees it for the ASCII patterns of this code base. */
  predicate EqualsIgnoreCase(a: string, b: string) {
    |a| == |b| && forall i :: 0 <= i < |a| ==> ToLowerAscii(a[i]) == ToLowerAscii(b[i])
  }

  // ---------------------------------------------------------------------
  // Substrings

  predicate StartsWith(s: string, prefix: string) {
    |prefix| <= |s| && s[..|prefix|] == prefix
  }

  predicate EndsWith(s: string, suffix: string) {
    |suffix| <= |s| && s[|s| - |suffix|..] == suffix
  }

  /** A concatenation starts with its first part, and the second part follows it. */
  lemma ConcatSplit(a: string, b: string)
    ensures StartsWith(a + b, a) && (a + b)[|a|..] == b
  {
    assert (a + b)[..|a|] == a;
  }

  /** str.includes(sub). */
  predicate Contains(s: string, sub: string) {
    StartsWith(s, sub) || (|s| > 0 && Contains(s[1..], sub))
  }

  /** str.substring(0, n) for n >= 0. */
  function Take(s: string, n: nat): (t: string)
    ensures |t| == if |s| < n then |s| else n
    ensures t == s[..|t|]
    ensures |s| <= n ==> t == s
  {
    if |s| <= n then s else s[..n]
  }

  /** array.slice(0, n) for n >= 0. */
  function Prefix<T>(s: seq<T>, n: nat): (t: seq<T>)
    ensures |t| == if |s| < n then |s| else n
    ensures t == s[..|t|]
  {
    if |s| <= n then s else s[..n]
  }

  /** Index of the first occurrence of c, if any. */
  function IndexOf(s: string, c: char): (r: Option<nat>)
    ensures r.None? <==> c !in s
    ensures r.Some? ==> r.value < |s| && s[r.value] == c && c !in s[..r.value]
  {
    if |s| == 0 then None
    else if s[0] == c then Some(0)
    else match IndexOf(s[1..], c)
      case None => None
      case Some(i) => assert s[1..][..i] == s[1..i + 1]; Some(i + 1)
  }

  /** str.split(c)[0]: the text before the first c, or all of str. */
  function Before(s: string, c: char): (t: string)
    ensures c !in t
    ensures StartsWith(s, t)
    ensures c in s ==> |t| < |s| && s[|t|] == c
    ensures c !in s ==> t == s
  {
    match IndexOf(s, c)
    case None => s
    case Some(i) => s[..i]
  }

  /** str.split(sep)[0] for a separator of one or more characters: the text
      before the first occurrence of sep, or all of str. */
  function BeforeSub(s: string, sep: string): (t: string)
    requires |sep| > 0
    ensures StartsWith(s, t)
    ensures |t| < |s| ==> StartsWith(s[|t|..], sep)
    ensures forall i :: 0 <= i < |t| ==> !StartsWith(s[i..], sep)
  {
    if StartsWith(s, sep) then ""
    else if |s| == 0 then ""
    else
      var r := [s[0]] + BeforeSub(s[1..], sep);
      assert forall i :: 1 <= i < |r| ==> s[i..] == s[1..][i - 1..];
      r
  }

  /** Array.prototype.filter: the elements that satisfy p, in order. */
  function Filter<T(!new)>(s: seq<T>, p: T -> bool): (r: seq<T>)
    ensures |r| <= |s|
    ensures forall x :: x in r <==> x in s && p(x)
  {
    if s == [] then []
    else (if p(s[0]) then [s[0]] else []) + Filter(s[1..], p)
  }

  /** filter keeps every occurrence of a passing element and none of a
      failing one. */
  lemma {:induction false} FilterCount<T(!new)>(s: seq<T>, p: T -> bool, x: T)
    ensures multiset(Filter(s, p))[x] == if p(x) then multiset(s)[x] else 0
  {
    if s != [] {
      FilterCount(s[1..], p, x);
      assert s == [s[0]] + s[1..];
      assert multiset(s) == multiset([s[0]]) + multiset(s[1..]);
    }
  }

  /** filter distributes over concatenation, so it keeps the input order. */
  lemma {:induction false} FilterAppend<T(!new)>(a: seq<T>, b: seq<T>, p: T -> bool)
    ensures Filter(a + b, p) == Filter(a, p) + Filter(b, p)
  {
    if a == [] {
      assert a + b == b;
    } else {
      var head := if p(a[0]) then [a[0]] else [];
      assert (a + b)[0] == a[0] && (a + b)[1..] == a[1..] + b;
      assert Filter(a + b, p) == head + Filter(a[1..] + b, p);
      FilterAppend(a[1..], b, p);
      assert Filter(a, p) == head + Filter(a[1..], p);
      assert head + (Filter(a[1..], p) + Filter(b, p)) == (head + Filter(a[1..], p)) + Filter(b, p);
    }
  }

  /** Filtering twice is filtering once by both predicates. */
  lemma {:induction false} FilterFilter<T(!new)>(s: seq<T>, p: T -> bool, q: T -> bool, pq: T -> bool)
    requires forall x :: pq(x) == (p(x) && q(x))
    ensures Filter(Filter(s, p), q) == Filter(s, pq)
  {
    if s != [] {
      FilterFilter(s[1..], p, q, pq);
      if p(s[0]) {
        var fs := Filter(s, p);
        assert fs == [s[0]] + Filter(s[1..], p);
        assert fs[0] == s[0] && fs[1..] == Filter(s[1..], p);
        assert Filter(fs, q) == (if q(s[0]) then [s[0]] else []) + Filter(fs[1..], q);
      } else {
        assert Filter(s, p) == Filter(s[1..], p);
      }
    }
  }

  /** Predicates that agree everywhere filter alike. */
  lemma {:induction false} FilterSame<T(!new)>(s: seq<T>, p: T -> bool, q: T -> bool)
    requires forall x :: p(x) == q(x)
    ensures Filter(s, p) == Filter(s, q)
  {
    if s != [] {
      FilterSame(s[1..], p, q);
    }
  }

  /** Array.prototype.map with a callback that is defined on every element. */
  function Map<A, B>(s: seq<A>, f: A --> B): (r: seq<B>)
    requires forall i :: 0 <= i < |s| ==> f.requires(s[i])
    ensures |r| == |s|
    ensures forall i :: 0 <= i < |s| ==> r[i] == f(s[i])
  {
    if s == [] then []
    else [f(s[0])] + Map(s[1..], f)
  }

  /** filter keeps nothing when no element passes. */
  lemma {:induction false} FilterNone<T(!new)>(s: seq<T>, p: T -> bool)
    requires forall x :: x in s ==> !p(x)
    ensures Filter(s, p) == []
  {
    if s != [] {
      assert s[0] in s;
      FilterNone(s[1..], p);
    }
  }

  /** Removes the leading characters that satisfy IsSpace. */
  function TrimStart(s: string): (t: string)
    ensures |t| <= |s| && t == s[|s| - |t|..]
    ensures AllSpace(s[..|s| - |t|])
    ensures |t| > 0 ==> !IsSpace(t[0])
  {
    if |s| > 0 && IsSpace(s[0]) then TrimStart(s[1..]) else s
  }

  /** Removes the trailing characters that satisfy IsSpace. */
  function TrimEnd(s: string): (t: string)
    ensures |t| <= |s| && t == s[..|t|]
    ensures AllSpace(s[|t|..])
    ensures |t| > 0 ==> !IsSpace(t[|t| - 1])
  {
    if |s| > 0 && IsSpace(s[|s| - 1]) then TrimEnd(s[..|s| - 1]) else s
  }

  /** String.prototype.trim. */
  function Trim(s: string): (t: string)
    ensures |t| <= |s|
    ensures |t| > 0 ==> !IsSpace(t[0]) && !IsSpace(t[|t| - 1])
    ensures exists a :: TrimmedAt(s, a, t)
  {
    TrimSlice(s, TrimStart(s), TrimEnd(TrimStart(s)));
    TrimEnd(TrimStart(s))
  }

  lemma TrimSlice(s: string, u: string, t: string)
    requires |u| <= |s| && u == s[|s| - |u|..] && AllSpace(s[..|s| - |u|])
    requires |t| <= |u| && t == u[..|t|] && AllSpace(u[|t|..])
    ensures TrimmedAt(s, |s| - |u|, t)
  {
    var a := |s| - |u|;
    assert s[a..][..|t|] == s[a..a + |t|];
    assert u[|t|..] == s[a + |t|..];
  }

  /** When s has only white space before position k and none at k, trim
      removes exactly that white space. */
  lemma TrimStartAt(s: string, k: nat)
    requires k < |s| && AllSpace(s[..k]) && !IsSpace(s[k])
    ensures TrimStart(s) == s[k..]
  {
    var t := TrimStart(s);
    var j := |s| - |t|;
    assert j <= k by {
      assert forall i :: 0 <= i < j ==> s[..j][i] == s[i];
    }
    assert j >= k by {
      assert forall i :: 0 <= i < k ==> s[..k][i] == s[i];
    }
  }

  /** t is s[a..a + |t|] and s holds only spaces outside that slice. */
  predicate TrimmedAt(s: string, a: nat, t: string) {
    a + |t| <= |s| && t == s[a..a + |t|] && AllSpace(s[..a]) && AllSpace(s[a + |t|..])
  }

  predicate AllDigits(d: string) {
    forall i :: 0 <= i < |d| ==> IsDigit(d[i])
  }

  predicate AllSpace(s: string) {
    forall i :: 0 <= i < |s| ==> IsSpace(s[i])
  }

  /** A string without spaces at its ends trims to itself. */
  lemma TrimPlain(s: string)
    requires |s| > 0 ==> !IsSpace(s[0]) && !IsSpace(s[|s| - 1])
    ensures Trim(s) == s
  {
  }

  // ---------------------------------------------------------------------
  // split and join

  /** str.split(sep) for a one-character separator. */
  function Split(s: string, sep: char): (parts: seq<string>)
    ensures |parts| >= 1
    ensures forall i :: 0 <= i < |parts| ==> sep !in parts[i]
  {
    if |s| == 0 then [""]
    else
      var rest := Split(s[1..], sep);
      if s[0] == sep then [""] + rest else [[s[0]] + rest[0]] + rest[1..]
  }

  /** array.join(sep). */
  function Join(parts: seq<string>, sep: string): (r: string)
    ensures |parts| >= 1 ==> StartsWith(r, parts[0]) && EndsWith(r, parts[|parts| - 1])
  {
    if |parts| == 0 then ""
    else if |parts| == 1 then parts[0]
    else parts[0] + sep + Join(parts[1..], sep)
  }

  /** parts[k], or undefined past the end. */
  function Field(parts: seq<string>, k: nat): Option<string> {
    if k < |parts| then Some(parts[k]) else None
  }

  /** parts[parts.length - 1] of a non-empty array. */
  function LastField(parts: seq<string>): string
    requires |parts| > 0
  {
    parts[|parts| - 1]
  }

  lemma {:induction false} SplitNoSeparator(s: string, sep: char)
    requires sep !in s
    ensures Split(s, sep) == [s]
  {
    if |s| > 0 {
      SplitNoSeparator(s[1..], sep);
      assert [s[0]] + s[1..] == s;
    }
  }

  lemma {:induction false} SplitAfterPrefix(a: string, sep: char, b: string)
    requires sep !in a
    ensures Split(a + [sep] + b, sep) == [a] + Split(b, sep)
  {
    if |a| == 0 {
      assert a + [sep] + b == [sep] + b;
      assert ([sep] + b)[1..] == b;
    } else {
      assert (a + [sep] + b)[1..] == a[1..] + [sep] + b;
      SplitAfterPrefix(a[1..], sep, b);
      assert [a[0]] + a[1..] == a;
    }
  }

  /** A separator splits the text around it into the pieces of each side. */
  lemma {:induction false} SplitAppend(a: string, sep: char, b: string)
    ensures Split(a + [sep] + b, sep) == Split(a, sep) + Split(b, sep)
  {
    if |a| == 0 {
      assert a + [sep] + b == [sep] + b;
      assert ([sep] + b)[1..] == b;
    } else {
      assert (a + [sep] + b)[1..] == a[1..] + [sep] + b;
      SplitAppend(a[1..], sep, b);
    }
  }

  /** The second piece of a + sep + b + sep + rest is b, when neither a nor
      b holds the separator. */
  lemma SecondField(a: string, sep: char, b: string, rest: string)
    requires sep !in a && sep !in b
    ensures Field(Split(a + [sep] + (b + [sep] + rest), sep), 1) == Some(b)
  {
    SplitAfterPrefix(a, sep, b + [sep] + rest);
    SplitAfterPrefix(b, sep, rest);
  }

  /** The last piece of a + sep + b is the last piece of b. */
  lemma LastFieldAfter(a: string, sep: char, b: string)
    requires sep !in b
    ensures LastField(Split(a + [sep] + b, sep)) == b
  {
    SplitAppend(a, sep, b);
    SplitNoSeparator(b, sep);
  }

  /** Splitting what join produced gives back the parts, provided no part
      contains the separator. */
  /** Two separator-free fields around one separator split back apart. */
  lemma SplitOfTwo(a: string, b: string, sep: char)
    requires sep !in a && sep !in b
    ensures Split(a + [sep] + b, sep) == [a, b]
  {
    assert [a, b][1..] == [b];
    assert Join([a, b], [sep]) == a + [sep] + b;
    SplitJoin([a, b], sep);
  }

  lemma {:induction false} SplitJoin(parts: seq<string>, sep: char)
    requires |parts| >= 1
    requires forall i :: 0 <= i < |parts| ==> sep !in parts[i]
    ensures Split(Join(parts, [sep]), sep) == parts
  {
    if |parts| == 1 {
      SplitNoSeparator(parts[0], sep);
    } else {
      SplitJoin(parts[1..], sep);
      SplitAfterPrefix(parts[0], sep, Join(parts[1..], [sep]));
      assert [parts[0]] + parts[1..] == parts;
    }
  }

  // ---------------------------------------------------------------------
  // Numbers

  function DigitChar(d: nat): (c: char)
    requires d < 10
    ensures IsDigit(c)
  {
    (48 + d) as char
  }

  /** The decimal rendering JavaScript gives a non-negative safe integer. */
  function NatToString(n: nat): (s: string)
    ensures |s| >= 1
    ensures forall i :: 0 <= i < |s| ==> IsDigit(s[i])
  {
    if n < 10 then [DigitChar(n)] else NatToString(n / 10) + [DigitChar(n % 10)]
  }

  function IntToString(i: int): string {
    if i < 0 then "-" + NatToString(-i) else NatToString(i)
  }

  /** Template-literal rendering of a parseInt result. */
  function NumToString(x: Num): string {
    match x
    case NaN => "NaN"
    case Int(n) => IntToString(n)
  }

  /** The value of c as a digit in the given radix (10 or 16), if it is one. */
  function DigitValue(c: char, radix: nat): Option<nat> {
    if '0' <= c <= '9' then Some(c as int - 48)
    else if radix == 16 && 'a' <= c <= 'f' then Some(c as int - 87)
    else if radix == 16 && 'A' <= c <= 'F' then Some(c as int - 55)
    else None
  }

  /** The longest prefix of s made of digits of the radix. */
  function DigitPrefix(s: string, radix: nat): (d: string)
    ensures |d| <= |s| && d == s[..|d|]
    ensures forall i :: 0 <= i < |d| ==> DigitValue(d[i], radix).Some?
  {
    if |s| > 0 && DigitValue(s[0], radix).Some? then [s[0]] + DigitPrefix(s[1..], radix)
    else []
  }

  /** The value of a string of digits of the radix, most significant first. */
  function DigitsValue(d: string, radix: nat): nat {
    if |d| == 0 then 0
    else DigitsValue(d[..|d| - 1], radix) * radix + DigitValue(d[|d| - 1], radix).GetOr(0)
  }

  /** parseInt(s) with no radix argument: skip leading white space, read an
      optional sign, read hexadecimal after a 0x or 0X prefix and decimal
      otherwise, and stop at the first character that is not a digit;
      NaN when no digit was read. */
  function ParseInt(s: string): (r: Num)
    ensures AllSpace(s) ==> r == NaN
    ensures |s| > 0 && AllDigits(s) ==> r == Int(DigitsValue(s, 10))
  {
    if |s| > 0 && AllDigits(s) then
      TrimStartUnchanged(s);
      ParseUnsignedOfDigits(s);
      ParseSigned(TrimStart(s))
    else
      ParseSigned(TrimStart(s))
  }

  /** The optional sign, then the unsigned number. */
  function ParseSigned(t: string): Num {
    if |t| > 0 && t[0] == '-' then
      match ParseUnsigned(t[1..])
      case NaN => NaN
      case Int(n) => Int(-n)
    else if |t| > 0 && t[0] == '+' then ParseUnsigned(t[1..])
    else ParseUnsigned(t)
  }

  /** Hexadecimal after a 0x or 0X prefix, decimal otherwise. */
  function ParseUnsigned(u: string): Num {
    if |u| >= 2 && u[0] == '0' && (u[1] == 'x' || u[1] == 'X') then ParseDigits(u[2..], 16)
    else ParseDigits(u, 10)
  }

  /** The value of the leading digits, NaN when there are none. */
  function ParseDigits(v: string, radix: nat): Num {
    var d := DigitPrefix(v, radix);
    if |d| == 0 then NaN else Int(DigitsValue(d, radix))
  }

  /** parseInt applied to an optional field: parseInt(undefined) is NaN. */
  function ParseIntField(f: Option<string>): Num {
    match f
    case None => NaN
    case Some(s) => ParseInt(s)
  }

  lemma {:induction false} DigitPrefixOfDigits(s: string)
    requires forall i :: 0 <= i < |s| ==> IsDigit(s[i])
    ensures DigitPrefix(s, 10) == s
  {
    if |s| > 0 {
      DigitPrefixOfDigits(s[1..]);
      assert [s[0]] + s[1..] == s;
    }
  }

  lemma {:induction false} ValueOfNatToString(n: nat)
    ensures forall i :: 0 <= i < |NatToString(n)| ==> DigitValue(NatToString(n)[i], 10).Some?
    ensures DigitsValue(NatToString(n), 10) == n
  {
    var s := NatToString(n);
    if n >= 10 {
      ValueOfNatToString(n / 10);
      assert s[..|s| - 1] == NatToString(n / 10);
    }
  }

  lemma TrimStartUnchanged(s: string)
    requires |s| == 0 || !IsSpace(s[0])
    ensures TrimStart(s) == s
  {
  }

  /** A non-empty run of decimal digits reads as its value, without any
      sign or prefix in front. */
  lemma ParseUnsignedOfDigits(d: string)
    requires |d| > 0 && forall i :: 0 <= i < |d| ==> IsDigit(d[i])
    ensures ParseUnsigned(d) == Int(DigitsValue(d, 10))
  {
    assert !(|d| >= 2 && d[0] == '0' && (d[1] == 'x' || d[1] == 'X')) by {
      assert |d| < 2 || IsDigit(d[1]);
    }
    DigitPrefixOfDigits(d);
  }

  /** parseInt reads a plain string of decimal digits as its value. */
  lemma ParseIntOfDigits(d: string)
    requires |d| > 0 && forall i :: 0 <= i < |d| ==> IsDigit(d[i])
    ensures ParseInt(d) == Int(DigitsValue(d, 10))
  {
    assert IsDigit(d[0]);
    TrimStartUnchanged(d);
    assert ParseSigned(d) == ParseUnsigned(d);
    ParseUnsignedOfDigits(d);
  }

  /** Decimal rendering and parseInt are inverse on non-negative integers. */
  lemma ParseIntOfNatToString(n: nat)
    ensures ParseInt(NatToString(n)) == Int(n)
  {
    ValueOfNatToString(n);
    ParseIntOfDigits(NatToString(n));
  }

  /** parseInt reads a '-' followed by decimal digits as the negated value. */
  lemma ParseIntOfNegative(d: string)
    requires |d| > 0 && AllDigits(d)
    ensures ParseInt("-" + d) == Int(-(DigitsValue(d, 10) as int))
  {
    var t := "-" + d;
    assert t[1..] == d;
    assert !AllDigits(t) by { assert !IsDigit(t[0]); }
    TrimStartUnchanged(t);
    ParseUnsignedOfDigits(d);
    assert ParseSigned(t) == Int(-(DigitsValue(d, 10) as int));
  }

  /** parseInt reads the integer back from its decimal rendering. */
  lemma ParseIntOfIntToString(i: int)
    ensures ParseInt(IntToString(i)) == Int(i)
  {
    if i < 0 {
      var d := NatToString(-i);
      assert IntToString(i) == "-" + d;
      ValueOfNatToString(-i);
      assert DigitsValue(d, 10) == -i;
      ParseIntOfNegative(d);
      assert ParseInt("-" + d) == Int(i);
    } else {
      assert IntToString(i) == NatToString(i);
      ParseIntOfNatToString(i);
    }
  }

  /** parseInt reads back the rendering of any of its own results. */
  lemma ParseIntOfNumToString(x: Num)
    ensures ParseInt(NumToString(x)) == x
    ensures '_' !in NumToString(x) && '-' !in NumToString(x)[1..]
  {
    match x
    case NaN =>
      assert NumToString(x) == "NaN";
      ParseIntOfWord("NaN");
    case Int(n) =>
      ParseIntOfIntToString(n);
      IntToStringPlain(n);
  }

  /** A rendered integer holds digits after an optional leading '-'. */
  lemma IntToStringPlain(i: int)
    ensures '_' !in IntToString(i) && '-' !in IntToString(i)[1..]
  {
    var s := NatToString(if i < 0 then -i else i);
    assert forall k :: 0 <= k < |s| ==> IsDigit(s[k]);
    if i < 0 {
      assert IntToString(i)[1..] == s;
    } else {
      assert IntToString(i)[1..] == s[1..];
    }
  }

  /** parseInt reads NaN from a string that starts with a character that
      is neither white space, a sign nor a digit. */
  lemma ParseIntOfWord(s: string)
    requires |s| > 0 && !IsSpace(s[0]) && !IsDigit(s[0]) && s[0] != '-' && s[0] != '+'
    ensures ParseInt(s) == NaN
  {
    TrimStartUnchanged(s);
    assert ParseSigned(s) == ParseUnsigned(s);
    assert DigitValue(s[0], 10).None?;
    assert DigitPrefix(s, 10) == [];
  }

  /** parseInt stops at the first character that is not a digit. */
  lemma {:induction false} DigitPrefixStops(d: string, rest: string)
    requires forall i :: 0 <= i < |d| ==> IsDigit(d[i])
    requires |rest| == 0 || !IsDigit(rest[0])
    ensures DigitPrefix(d + rest, 10) == d
  {
    if |d| > 0 {
      DigitPrefixStops(d[1..], rest);
      assert (d + rest)[1..] == d[1..] + rest;
      assert [d[0]] + d[1..] == d;
    } else {
      assert d + rest == rest;
    }
  }

  // ---------------------------------------------------------------------
  // JSON values

  /** A JSON value as it arrives from an API and is then handled as a
      JavaScript value; a key missing from an object stands for undefined. */
  datatype Json = JNull | JBool(b: bool) | JNum(n: int) | JNaN | JStr(s: string) | JArr(items: seq<Json>) | JObj(fields: map<string, Json>)

  /** A parseInt result as a value. */
  function NumJson(x: Num): (v: Json)
    ensures ScalarText(Some(v)) == NumToString(x)
  {
    match x
    case NaN => JNaN
    case Int(n) => JNum(n)
  }

  /** A plain object: its own enumerable properties. */
  type Object = map<string, Json>

  /** obj.key, with None for undefined. */
  function Prop(o: Object, key: string): (v: Option<Json>)
    ensures v.Some? <==> key in o
    ensures v.Some? ==> v.value == o[key]
  {
    if key in o then Some(o[key]) else None
  }

  /** obj?.key on a value that may be undefined or null, or any other
      value: properties of null and undefined are undefined here, as with
      optional chaining, and scalars have none of the keys used. */
  function PropOf(v: Option<Json>, key: string): Option<Json> {
    match v
    case Some(JObj(o)) => Prop(o, key)
    case _ => None
  }

  /** JavaScript truthiness of a possibly undefined value. */
  predicate IsTruthy(v: Option<Json>) {
    match v
    case None => false
    case Some(JNull) => false
    case Some(JBool(b)) => b
    case Some(JNum(n)) => n != 0
    case Some(JNaN) => false
    case Some(JStr(s)) => s != ""
    case Some(_) => true
  }

  /** String(v) for a value that is not an array. */
  function ScalarText(v: Option<Json>): string {
    match v
    case None => "undefined"
    case Some(JNull) => "null"
    case Some(JBool(b)) => if b then "true" else "false"
    case Some(JNum(n)) => IntToString(n)
    case Some(JNaN) => "NaN"
    case Some(JStr(s)) => s
    case Some(JArr(_)) => ""
    case Some(JObj(_)) => "[object Object]"
  }

  /** `${v}` in a template literal: arrays are their items joined with
      ',', with null and undefined items empty.  An array nested inside an
      array renders as '' here, where JavaScript would join it too; the
      values the handlers render never nest arrays. */
  function Text(v: Option<Json>): (t: string)
    ensures v.None? ==> t == "undefined"
    ensures v.Some? && v.value.JStr? ==> t == v.value.s
    ensures v.Some? && v.value.JNum? ==> ParseInt(t) == Int(v.value.n)
    ensures v.Some? && v.value.JArr? && v.value.items == [] ==> t == ""
    ensures v.Some? && v.value.JArr? && |v.value.items| == 1 && v.value.items[0].JStr? ==> t == v.value.items[0].s
  {
    match v
    case Some(JArr(items)) => Join(ItemTexts(items), ",")
    case Some(JNum(n)) => ParseIntOfIntToString(n); ScalarText(v)
    case _ => ScalarText(v)
  }

  function ItemTexts(items: seq<Json>): (ts: seq<string>)
    ensures |ts| == |items|
  {
    if items == [] then []
    else [if items[0].JNull? then "" else ScalarText(Some(items[0]))] + ItemTexts(items[1..])
  }
}

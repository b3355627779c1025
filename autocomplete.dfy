/**
  The title autocomplete of /movieinfo: short queries get a placeholder,
  and a query without results is retried with spaces put in, first between
  a lower-case and an upper-case letter ('TheMatrix' becomes 'The Matrix'),
  then at two fixed split points, stopping at the first search that finds
  something.

  The OMDb search behind getAutocompleteOptions is an oracle: `search`
  gives the choices for a query, and a failed search gives none.
*/
module Autocomplete {
  import opened Js
  import Imdb

  const PlaceholderName := "Type at least 2 characters to search..."

  function Placeholder(): Imdb.Choice {
    Imdb.Choice(PlaceholderName, Some(JStr("placeholder")))
  }

  function NoResults(query: string): Imdb.Choice {
    Imdb.Choice("No results found for \"" + query + "\". Try adding spaces or using IMDb ID", Some(JStr("no_results")))
  }

  // ---------------------------------------------------------------------
  // Inserted spaces

  /** The text with one space put in at position k. */
  function InsertSpace(s: string, k: nat): (r: string)
    requires k <= |s|
    ensures |r| == |s| + 1 && r[k] == ' '
    ensures r[..k] + r[k + 1..] == s
  {
    var r := s[..k] + " " + s[k..];
    assert r[..k] == s[..k] && r[k + 1..] == s[k..];
    r
  }

  /** The text with every U+0020 space taken out. */
  function RemoveSpaces(s: string): (r: string)
    ensures ' ' !in r
  {
    if s == [] then [] else (if s[0] == ' ' then [] else [s[0]]) + RemoveSpaces(s[1..])
  }

  lemma {:induction false} RemoveSpacesAppend(a: string, b: string)
    ensures RemoveSpaces(a + b) == RemoveSpaces(a) + RemoveSpaces(b)
  {
    if a == [] {
      assert a + b == b;
    } else {
      var head := if a[0] == ' ' then [] else [a[0]];
      assert (a + b)[0] == a[0] && (a + b)[1..] == a[1..] + b;
      assert RemoveSpaces(a + b) == head + RemoveSpaces(a[1..] + b);
      RemoveSpacesAppend(a[1..], b);
      assert RemoveSpaces(a) == head + RemoveSpaces(a[1..]);
    }
  }

  lemma {:induction false} RemoveSpacesNone(s: string)
    requires ' ' !in s
    ensures RemoveSpaces(s) == s
  {
    if s != [] {
      RemoveSpacesNone(s[1..]);
    }
  }

  /** Taking the spaces out again undoes an inserted space. */
  lemma RemoveInsertedSpace(s: string, k: nat)
    requires k <= |s|
    ensures RemoveSpaces(InsertSpace(s, k)) == RemoveSpaces(s)
  {
    assert s == s[..k] + s[k..];
    RemoveSpaceBetween(s[..k], s[k..]);
  }

  lemma RemoveSpaceBetween(front: string, back: string)
    ensures RemoveSpaces(front + " " + back) == RemoveSpaces(front + back)
  {
    assert front + " " + back == front + (" " + back);
    RemoveSpacesAppend(front, back);
    RemoveSpacesAppend(front, " " + back);
    assert (" " + back)[1..] == back;
  }

  // ---------------------------------------------------------------------
  // query.replace(/([a-z])([A-Z])/g, '$1 $2')

  predicate CamelBreak(s: string, i: nat)
    requires i + 1 < |s|
  {
    IsLowerAscii(s[i]) && IsUpperAscii(s[i + 1])
  }

  /** A space between every lower-case ASCII letter and the upper-case
      ASCII letter after it.  The matches of the global replace cannot
      overlap, since no letter is both, so each such pair gets its space. */
  function CamelSpace(s: string): (r: string)
    ensures |r| >= |s|
    ensures |s| > 0 ==> |r| > 0 && r[0] == s[0]
  {
    if |s| < 2 then s
    else if IsLowerAscii(s[0]) && IsUpperAscii(s[1]) then [s[0], ' '] + CamelSpace(s[1..])
    else [s[0]] + CamelSpace(s[1..])
  }

  /** The rewrite only inserts spaces. */
  lemma {:induction false} CamelSpaceUnspaces(s: string)
    requires ' ' !in s
    ensures RemoveSpaces(CamelSpace(s)) == s
  {
    if |s| < 2 {
      RemoveSpacesNone(s);
    } else {
      assert s[0] != ' ' && ' ' !in s[1..];
      CamelSpaceUnspaces(s[1..]);
      var rest := CamelSpace(s[1..]);
      var front := if IsLowerAscii(s[0]) && IsUpperAscii(s[1]) then [s[0], ' '] else [s[0]];
      assert CamelSpace(s) == front + rest;
      RemoveSpacesAppend(front, rest);
      assert RemoveSpaces(front) == [s[0]] by {
        assert front[1..] == [] || front[1..] == [' '];
      }
      assert s == [s[0]] + s[1..];
    }
  }

  predicate NoBreak(s: string) {
    forall i :: 0 <= i < |s| - 1 ==> !CamelBreak(s, i)
  }

  lemma NoBreakCons(s: string)
    requires |s| >= 2
    ensures NoBreak(s) <==> !CamelBreak(s, 0) && NoBreak(s[1..])
  {
    if !CamelBreak(s, 0) && NoBreak(s[1..]) {
      forall i | 0 < i < |s| - 1 ensures !CamelBreak(s, i) {
        assert !CamelBreak(s[1..], i - 1);
      }
    }
    if NoBreak(s) {
      forall i | 0 <= i < |s| - 2 ensures !CamelBreak(s[1..], i) {
        assert !CamelBreak(s, i + 1);
      }
    }
  }

  /** The rewrite changes the query exactly when it has a lower-case letter
      followed by an upper-case one. */
  lemma {:induction false} CamelSpaceChanges(s: string)
    ensures CamelSpace(s) == s <==> NoBreak(s)
  {
    if |s| >= 2 {
      CamelSpaceChanges(s[1..]);
      NoBreakCons(s);
      var r := CamelSpace(s);
      if CamelBreak(s, 0) {
        assert |r| > |s|;
      } else {
        assert r == [s[0]] + CamelSpace(s[1..]);
        assert r[1..] == CamelSpace(s[1..]);
        assert s == [s[0]] + s[1..];
      }
    }
  }

  /** Its result has no lower-case letter directly before an upper-case one. */
  lemma {:induction false} CamelSpaceSplitsAll(s: string)
    ensures forall i :: 0 <= i < |CamelSpace(s)| - 1 ==> !CamelBreak(CamelSpace(s), i)
  {
    if |s| >= 2 {
      CamelSpaceSplitsAll(s[1..]);
      var rest := CamelSpace(s[1..]);
      var r := CamelSpace(s);
      if IsLowerAscii(s[0]) && IsUpperAscii(s[1]) {
        forall i | 0 <= i < |r| - 1 ensures !CamelBreak(r, i) {
          if i >= 2 {
            assert r[i] == rest[i - 2] && r[i + 1] == rest[i - 1];
            assert !CamelBreak(rest, i - 2);
          }
        }
      } else {
        forall i | 0 <= i < |r| - 1 ensures !CamelBreak(r, i) {
          if i >= 1 {
            assert r[i] == rest[i - 1] && r[i + 1] == rest[i];
            assert !CamelBreak(rest, i - 1);
          }
        }
      }
    }
  }

  /** So rewriting twice is rewriting once. */
  lemma CamelSpaceIdempotent(s: string)
    ensures CamelSpace(CamelSpace(s)) == CamelSpace(s)
  {
    CamelSpaceSplitsAll(s);
    CamelSpaceChanges(CamelSpace(s));
    assert NoBreak(CamelSpace(s));
  }

  // ---------------------------------------------------------------------
  // query.replace(/(.{3,4})(.+)/, '$1 $2') and query.replace(/(.+)(.{3,4})/, '$1 $2')

  /** The characters the regular-expression '.' does not match. */
  predicate IsLineTerminator(c: char) {
    c == '\n' || c == '\r' || c == ' ' || c == ' '
  }

  /** The number of characters '.' matches from position p on. */
  function RunFrom(s: string, p: nat): (n: nat)
    requires p <= |s|
    ensures p + n <= |s|
    ensures forall i :: p <= i < p + n ==> !IsLineTerminator(s[i])
    ensures p + n < |s| ==> IsLineTerminator(s[p + n])
    decreases |s| - p
  {
    if p == |s| || IsLineTerminator(s[p]) then 0 else 1 + RunFrom(s, p + 1)
  }

  /** The first position, from p on, where both patterns match: four or
      more characters that '.' matches. */
  function LongRun(s: string, p: nat): (r: Option<nat>)
    requires p <= |s|
    ensures r.Some? ==> p <= r.value && r.value + 4 <= |s| && RunFrom(s, r.value) >= 4
    ensures r.Some? ==> forall q :: p <= q < r.value ==> RunFrom(s, q) < 4
    ensures r.None? ==> forall q :: p <= q <= |s| ==> RunFrom(s, q) < 4
    decreases |s| - p
  {
    if RunFrom(s, p) >= 4 then Some(p)
    else if p == |s| then None
    else LongRun(s, p + 1)
  }

  /** (.{3,4}) takes four characters when (.+) still finds one after them,
      otherwise three; the space goes between the groups. */
  function FirstSplit(s: string): (k: Option<nat>)
    ensures k.Some? ==> 3 <= k.value < |s|
  {
    match LongRun(s, 0)
    case None => None
    case Some(p) => Some(if RunFrom(s, p) >= 5 then p + 4 else p + 3)
  }

  /** (.+) takes all it can and gives back three characters to (.{3,4}). */
  function LastSplit(s: string): (k: Option<nat>)
    ensures k.Some? ==> 1 <= k.value && k.value + 3 <= |s|
  {
    match LongRun(s, 0)
    case None => None
    case Some(p) => Some(p + RunFrom(s, p) - 3)
  }

  function Rewrite(s: string, k: Option<nat>): (r: string)
    requires k.Some? ==> k.value <= |s|
    ensures k.None? ==> r == s
    ensures k.Some? ==> r == InsertSpace(s, k.value)
  {
    if k.None? then s else InsertSpace(s, k.value)
  }

  function Variation1(s: string): string { Rewrite(s, FirstSplit(s)) }

  function Variation2(s: string): string { Rewrite(s, LastSplit(s)) }

  lemma {:induction false} RunToEnd(s: string, p: nat)
    requires p <= |s|
    requires forall i :: 0 <= i < |s| ==> !IsLineTerminator(s[i])
    ensures RunFrom(s, p) == |s| - p
    decreases |s| - p
  {
    if p < |s| {
      RunToEnd(s, p + 1);
    }
  }

  /** On a single line of at least four characters, variation 1 puts a
      space after the fourth character (after the third when there are
      only four) and variation 2 before the last three; each differs from
      the query and only adds a space. */
  lemma VariationsOfLine(s: string)
    requires |s| >= 4
    requires forall i :: 0 <= i < |s| ==> !IsLineTerminator(s[i])
    ensures Variation1(s) == InsertSpace(s, if |s| >= 5 then 4 else 3)
    ensures Variation2(s) == InsertSpace(s, |s| - 3)
    ensures Variation1(s) != s && Variation2(s) != s
  {
    RunToEnd(s, 0);
  }

  /** With no line break among four characters, neither pattern matches
      and the query is left as it is. */
  lemma VariationsOfShort(s: string)
    requires |s| <= 3
    ensures Variation1(s) == s && Variation2(s) == s
  {
  }

  // ---------------------------------------------------------------------
  // The retries

  /** The rewritten queries that differ from the query, in order. */
  function Keep(vs: seq<string>, query: string): (ks: seq<string>)
    ensures forall k :: k in ks <==> k in vs && k != query
  {
    if vs == [] then []
    else Keep(vs[..|vs| - 1], query) + (if vs[|vs| - 1] != query then [vs[|vs| - 1]] else [])
  }

  /** The queries the handler may search, in the order it tries them. */
  function Candidates(query: string): (cs: seq<string>)
    ensures |cs| > 0 && cs[0] == query
  {
    [query] + if HasSpace(query) then [] else CamelRetry(query) + VariationRetries(query)
  }

  function CamelRetry(query: string): (cs: seq<string>)
    ensures |cs| <= 1
  {
    if CamelSpace(query) != query then [CamelSpace(query)] else []
  }

  function VariationRetries(query: string): seq<string> {
    if |query| > 3 then Keep([Variation1(query), Variation2(query)], query) else []
  }

  /** A rewrite that changed a space-free query gives it back once the
      spaces are taken out. */
  predicate Restores(c: string, query: string) {
    c != query && RemoveSpaces(c) == query
  }

  lemma CamelRetryRestores(query: string)
    requires ' ' !in query
    ensures forall c :: c in CamelRetry(query) ==> Restores(c, query)
  {
    CamelSpaceUnspaces(query);
  }

  lemma RewriteRestores(query: string, k: Option<nat>)
    requires ' ' !in query
    requires k.Some? ==> k.value <= |query|
    ensures Rewrite(query, k) != query ==> Restores(Rewrite(query, k), query)
  {
    if k.Some? {
      RemoveSpacesNone(query);
      RemoveInsertedSpace(query, k.value);
    }
  }

  lemma VariationRetriesRestore(query: string)
    requires ' ' !in query
    ensures forall c :: c in VariationRetries(query) ==> Restores(c, query)
  {
    if |query| > 3 {
      RewriteRestores(query, FirstSplit(query));
      RewriteRestores(query, LastSplit(query));
    }
  }

  /** Every retry differs from the query and gives the query back once the
      spaces are taken out again. */
  lemma CandidatesRestore(query: string)
    ensures forall i :: 0 < i < |Candidates(query)| ==> Restores(Candidates(query)[i], query)
  {
    var cs := Candidates(query);
    if !HasSpace(query) {
      assert ' ' !in query;
      var tail := CamelRetry(query) + VariationRetries(query);
      assert cs == [query] + tail;
      CamelRetryRestores(query);
      VariationRetriesRestore(query);
      forall i | 0 < i < |cs| ensures Restores(cs[i], query) {
        assert cs[i] == tail[i - 1];
        assert tail[i - 1] in CamelRetry(query) || tail[i - 1] in VariationRetries(query);
      }
    }
  }

  predicate Misses(tried: seq<string>, search: string -> seq<Imdb.Choice>) {
    forall i :: 0 <= i < |tried| ==> search(tried[i]) == []
  }

  /** `tried` is the candidates up to and including the first search that
      finds something, or all of them when none does. */
  predicate FirstHit(tried: seq<string>, query: string, search: string -> seq<Imdb.Choice>) {
    tried != [] && tried <= Candidates(query)
    && Misses(tried[..|tried| - 1], search)
    && (search(tried[|tried| - 1]) == [] ==> tried == Candidates(query))
  }

  /** The loop over the variations: those that differ from the query are
      searched in order until one finds something. */
  method TryVariations(vs: seq<string>, query: string, search: string -> seq<Imdb.Choice>)
    returns (tried: seq<string>, options: seq<Imdb.Choice>)
    ensures tried <= Keep(vs, query)
    ensures tried == [] ==> options == []
    ensures tried != [] ==> options == search(tried[|tried| - 1]) && Misses(tried[..|tried| - 1], search)
    ensures options == [] ==> tried == Keep(vs, query)
  {
    tried := [];
    options := [];
    var i := 0;
    while i < |vs|
      invariant 0 <= i <= |vs|
      invariant tried == Keep(vs[..i], query)
      invariant options == [] && Misses(tried, search)
    {
      assert vs[..i + 1][..i] == vs[..i];
      if vs[i] != query {
        tried := tried + [vs[i]];
        options := search(vs[i]);
        if options != [] {
          KeepPrefix(vs, i + 1, query);
          return;
        }
      }
      i := i + 1;
    }
    assert vs[..i] == vs;
  }

  lemma {:induction false} KeepPrefix(vs: seq<string>, n: nat, query: string)
    requires n <= |vs|
    ensures Keep(vs[..n], query) <= Keep(vs, query)
    decreases |vs| - n
  {
    if n < |vs| {
      KeepPrefix(vs, n + 1, query);
      assert vs[..n + 1][..n] == vs[..n];
    } else {
      assert vs[..n] == vs;
    }
  }

  /** The searches made for a query of at least two characters: the query,
      then, when that found nothing, the rewrites. */
  method Retry(query: string, search: string -> seq<Imdb.Choice>)
    returns (tried: seq<string>, options: seq<Imdb.Choice>)
    ensures FirstHit(tried, query, search)
    ensures options == search(tried[|tried| - 1])
  {
    tried := [query];
    options := search(query);
    if options != [] || HasSpace(query) {
      return;
    }
    CandidatesOfSpaceFree(query);
    var spaced := CamelSpace(query);
    if spaced != query {
      tried := tried + [spaced];
      options := search(spaced);
    }
    assert tried == [query] + CamelRetry(query);
    if options == [] && |query| > 3 {
      tried, options := RetryVariations(query, search, tried);
    } else if options == [] {
      assert VariationRetries(query) == [];
    } else {
      assert tried <= Candidates(query);
    }
  }

  /** Without a space, the candidates are the query, its camel-case rewrite
      and the split-point rewrites, in that order. */
  lemma CandidatesOfSpaceFree(query: string)
    requires !HasSpace(query)
    ensures Candidates(query) == ([query] + CamelRetry(query)) + VariationRetries(query)
  {
    assert [query] + (CamelRetry(query) + VariationRetries(query)) == ([query] + CamelRetry(query)) + VariationRetries(query);
  }

  /** The last stage: after the query and its camel-case rewrite all
      missed, the split-point rewrites are searched in order. */
  method RetryVariations(query: string, search: string -> seq<Imdb.Choice>, head: seq<string>)
    returns (tried: seq<string>, options: seq<Imdb.Choice>)
    requires !HasSpace(query) && |query| > 3
    requires head == [query] + CamelRetry(query) && Misses(head, search)
    ensures FirstHit(tried, query, search)
    ensures options == search(tried[|tried| - 1])
  {
    var vs := [Variation1(query), Variation2(query)];
    var rest := VariationRetries(query);
    assert rest == Keep(vs, query);
    CandidatesOfSpaceFree(query);
    var more, found := TryVariations(vs, query, search);
    tried, options := Join(head, more, found, rest, search);
  }

  /** The tries of both stages together, and what the last of them found. */
  method Join(head: seq<string>, more: seq<string>, found: seq<Imdb.Choice>, rest: seq<string>,
              search: string -> seq<Imdb.Choice>)
    returns (tried: seq<string>, options: seq<Imdb.Choice>)
    requires head != [] && Misses(head, search)
    requires more <= rest
    requires more == [] ==> found == []
    requires more != [] ==> found == search(more[|more| - 1]) && Misses(more[..|more| - 1], search)
    requires found == [] ==> more == rest
    ensures tried == head + more && tried <= head + rest
    ensures Misses(tried[..|tried| - 1], search)
    ensures options == search(tried[|tried| - 1])
    ensures options == [] ==> tried == head + rest
  {
    Extend(head, more, rest, search);
    tried := head + more;
    if more != [] {
      assert tried[|tried| - 1] == more[|more| - 1];
      options := found;
    } else {
      assert tried == head;
      options := search(head[|head| - 1]);
    }
  }

  /** Searches that all missed, followed by the searches of a later stage,
      form the tries of both stages together. */
  lemma Extend(head: seq<string>, more: seq<string>, rest: seq<string>, search: string -> seq<Imdb.Choice>)
    requires head != [] && Misses(head[..|head| - 1], search)
    requires more != [] || rest != [] ==> search(head[|head| - 1]) == []
    requires more <= rest
    requires more != [] ==> Misses(more[..|more| - 1], search)
    ensures head + more <= head + rest
    ensures Misses((head + more)[..|head + more| - 1], search)
  {
    if more != [] {
      assert (head + more)[..|head + more| - 1] == head + more[..|more| - 1];
    } else {
      assert head + more == head;
    }
  }

  /** The autocomplete handler: `focused` and `query` are the focused
      option's name and value.  `tried` records the searches made, in
      order; `reply` is what it responds with.  The searches are the
      candidates up to and including the first that finds something. */
  method Suggest(focused: string, query: string, search: string -> seq<Imdb.Choice>)
    returns (tried: seq<string>, reply: seq<Imdb.Choice>)
    ensures focused != "title" ==> tried == [] && reply == []
    ensures focused == "title" && |query| < 2 ==> tried == [] && reply == [Placeholder()]
    ensures focused == "title" && |query| >= 2 ==>
      FirstHit(tried, query, search)
      && reply == if search(tried[|tried| - 1]) != [] then search(tried[|tried| - 1]) else [NoResults(query)]
  {
    if focused != "title" {
      return [], [];
    }
    if |query| < 2 {
      return [], [Placeholder()];
    }
    var options;
    tried, options := Retry(query, search);
    if options == [] {
      reply := [NoResults(query)];
    } else {
      reply := options;
    }
  }
}

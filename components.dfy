/**
  ComponentsListener: how an interaction finds the component that handles
  it, and the permission check before a button or select menu runs.

  A registry is a Map in insertion order, written as a sequence of
  (key, component) entries with distinct keys.
*/
module Components {
  import opened Js

  /** A registered component: its name and its options.public flag, None
      when the option is absent. */
  datatype Component = Component(name: string, isPublic: Option<bool>)

  type Registry = seq<(string, Component)>

  predicate DistinctKeys(r: Registry) {
    forall i, j :: 0 <= i < j < |r| ==> r[i].0 != r[j].0
  }

  /** map.get(key), as the index of the entry under key. */
  function Get(r: Registry, key: string): (k: Option<nat>)
    ensures k.Some? ==> k.value < |r| && r[k.value].0 == key
    ensures k.None? <==> forall i :: 0 <= i < |r| ==> r[i].0 != key
  {
    if r == [] then None
    else if r[0].0 == key then Some(0)
    else match Get(r[1..], key)
      case None => None
      case Some(k) => Some(k + 1)
  }

  /** A key that ends in '-' matches every customId it starts. */
  predicate PrefixMatch(key: string, customId: string) {
    EndsWith(key, "-") && StartsWith(customId, key)
  }

  /** The first entry, in insertion order, whose key prefix-matches. */
  function FirstPrefix(r: Registry, customId: string): (k: Option<nat>)
    ensures k.Some? ==> k.value < |r| && PrefixMatch(r[k.value].0, customId)
    ensures k.Some? ==> forall i :: 0 <= i < k.value ==> !PrefixMatch(r[i].0, customId)
    ensures k.None? <==> forall i :: 0 <= i < |r| ==> !PrefixMatch(r[i].0, customId)
  {
    if r == [] then None
    else if PrefixMatch(r[0].0, customId) then Some(0)
    else match FirstPrefix(r[1..], customId)
      case None => None
      case Some(k) => Some(k + 1)
  }

  /** Which entry handles a button or select menu: the exact key, else the
      first prefix key. */
  function Resolve(r: Registry, customId: string): (k: Option<nat>)
    ensures k.Some? ==> k.value < |r| && (r[k.value].0 == customId || PrefixMatch(r[k.value].0, customId))
    ensures k.None? <==> forall i :: 0 <= i < |r| ==> r[i].0 != customId && !PrefixMatch(r[i].0, customId)
    ensures Get(r, customId).Some? ==> k == Get(r, customId)
  {
    if Get(r, customId).Some? then Get(r, customId) else FirstPrefix(r, customId)
  }

  /** The lookup of a button or select menu: map.get, then a scan of the
      entries that stops at the first prefix match. */
  method Lookup(r: Registry, customId: string) returns (found: Option<nat>)
    ensures found == Resolve(r, customId)
    ensures found.Some? ==> found.value < |r|
  {
    found := Get(r, customId);
    if found.None? {
      var i := 0;
      while i < |r|
        invariant 0 <= i <= |r|
        invariant forall j :: 0 <= j < i ==> !PrefixMatch(r[j].0, customId)
      {
        if PrefixMatch(r[i].0, customId) {
          found := Some(i);
          break;
        }
        i := i + 1;
      }
    }
  }

  /** An exact key always wins over a prefix key. */
  lemma ExactWins(r: Registry, customId: string, k: nat)
    requires DistinctKeys(r)
    requires k < |r| && r[k].0 == customId
    ensures Resolve(r, customId) == Some(k)
  {
    var g := Get(r, customId);
    assert g.Some?;
    assert g.value == k;
  }

  /** Without an exact key the chosen entry is the first that
      prefix-matches, and nothing is chosen when none does. */
  lemma PrefixFallback(r: Registry, customId: string)
    requires forall i :: 0 <= i < |r| ==> r[i].0 != customId
    ensures Resolve(r, customId).Some? <==> exists i :: 0 <= i < |r| && PrefixMatch(r[i].0, customId)
    ensures Resolve(r, customId).Some? ==>
      var k := Resolve(r, customId).value;
      k < |r| && PrefixMatch(r[k].0, customId) && forall i :: 0 <= i < k ==> !PrefixMatch(r[i].0, customId)
  {
    assert Get(r, customId).None?;
  }

  /** A key that does not end in '-' is chosen only for exactly that id. */
  lemma PlainKeyMatchesOnlyExactly(r: Registry, customId: string)
    requires Resolve(r, customId).Some?
    requires !EndsWith(r[Resolve(r, customId).value].0, "-")
    ensures r[Resolve(r, customId).value].0 == customId
  {
  }

  const LaunchActivityKey := "launch_activity_"

  /** The activity button is registered as 'launch_activity_', but its
      messages carry 'launch_activity_<userId>': under this listener that
      key never handles them. */
  lemma LaunchActivityNeverMatches(r: Registry, userId: string)
    requires userId != ""
    ensures Resolve(r, LaunchActivityKey + userId).Some? ==>
      r[Resolve(r, LaunchActivityKey + userId).value].0 != LaunchActivityKey
  {
    var id := LaunchActivityKey + userId;
    assert |id| > |LaunchActivityKey|;
    assert LaunchActivityKey[|LaunchActivityKey| - 1] == '_';
    var k := Resolve(r, id);
    if k.Some? && r[k.value].0 == LaunchActivityKey {
      assert !EndsWith(LaunchActivityKey, "-");
      PlainKeyMatchesOnlyExactly(r, id);
    }
  }

  /** A modal is found by its customId and an autocomplete by its command
      name, exactly, with no prefix fallback. */
  function ResolveExact(r: Registry, key: string): (k: Option<nat>)
    ensures k.Some? <==> exists i :: 0 <= i < |r| && r[i].0 == key
    ensures k.Some? ==> k.value < |r| && r[k.value].0 == key
  {
    Get(r, key)
  }

  /** What the listener does with an interaction. */
  datatype Outcome =
    | Ignored                  // no component: nothing runs, nothing is replied
    | NotPublic                // the ephemeral COMPONENT_NOT_PUBLIC reply
    | Ran(component: Component)

  /** checkUserPermissions: a component marked public: false may be used
      only by the user the message was sent to. */
  predicate Permitted(c: Component, userId: string, originalUserId: string) {
    !(c.isPublic == Some(false) && userId != originalUserId)
  }

  /** A button or select menu interaction. */
  method HandleComponent(r: Registry, customId: string, userId: string, originalUserId: string)
    returns (out: Outcome)
    ensures out == Ignored <==> Resolve(r, customId).None?
    ensures out == NotPublic <==>
      Resolve(r, customId).Some? && !Permitted(r[Resolve(r, customId).value].1, userId, originalUserId)
    ensures out.Ran? ==> (Resolve(r, customId).Some? && out.component == r[Resolve(r, customId).value].1
                          && Permitted(out.component, userId, originalUserId))
  {
    var found := Lookup(r, customId);
    if found.None? {
      return Ignored;
    }
    var c := r[found.value].1;
    if !Permitted(c, userId, originalUserId) {
      return NotPublic;
    }
    return Ran(c);
  }

  /** A modal submit or autocomplete interaction: no permission check. */
  function HandleExact(r: Registry, key: string): (out: Outcome)
    ensures out != NotPublic
    ensures out == Ignored <==> forall i :: 0 <= i < |r| ==> r[i].0 != key
    ensures out.Ran? ==> exists i :: 0 <= i < |r| && r[i].0 == key && r[i].1 == out.component
  {
    match ResolveExact(r, key)
    case None => Ignored
    case Some(k) => Ran(r[k].1)
  }
}

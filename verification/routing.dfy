/** Which upstream a publish goes to. */
module Routing {
  import opened Wrappers
  import opened Topics

  /** Some pattern of the upstream matches the key. */
  predicate Matches(patterns: seq<string>, key: string) {
    exists p :: p in patterns && Match(key, p)
  }

  /** What that means: some pattern is in the topic relation with the key and the guard lets it through. */
  ghost predicate RoutesTo(patterns: seq<string>, key: string) {
    exists p :: p in patterns && Topic(key, p) && !Guarded(key, p)
  }

  lemma MatchesIffRoutesTo(patterns: seq<string>, key: string)
    ensures Matches(patterns, key) <==> RoutesTo(patterns, key)
  {
    forall p | p in patterns
      ensures Match(key, p) <==> Topic(key, p) && !Guarded(key, p)
    {
      MatchIffTopicUnguarded(key, p);
    }
  }

  method AnyMatch(patterns: seq<string>, key: string) returns (found: bool)
    ensures found <==> Matches(patterns, key)
  {
    for k := 0 to |patterns|
      invariant forall j :: 0 <= j < k ==> !Match(key, patterns[j])
    {
      if Match(key, patterns[k]) {
        return true;
      }
    }
    return false;
  }

  /** GetChannelWithIndex: the first upstream with a matching pattern, otherwise upstream 0, and that
      upstream's own channel for the id. */
  method GetChannelWithIndex(patterns: seq<seq<string>>, channels: seq<map<int, int>>, id: int, key: string)
    returns (ch: Option<int>, index: nat)
    requires |patterns| == |channels| > 0
    ensures index < |patterns|
    ensures forall j :: 0 <= j < index ==> !RoutesTo(patterns[j], key)
    ensures RoutesTo(patterns[index], key)
      || (index == 0 && forall j :: 0 <= j < |patterns| ==> !RoutesTo(patterns[j], key))
    ensures ch == if id in channels[index] then Some(channels[index][id]) else None
  {
    var i := 0;
    while i < |patterns|
      invariant 0 <= i <= |patterns|
      invariant forall j :: 0 <= j < i ==> !RoutesTo(patterns[j], key)
    {
      MatchesIffRoutesTo(patterns[i], key);
      var found := AnyMatch(patterns[i], key);
      if found {
        ch := if id in channels[i] then Some(channels[i][id]) else None;
        return ch, i;
      }
      i := i + 1;
    }
    ch := if id in channels[0] then Some(channels[0][id]) else None;
    index := 0;
  }

  /** GetChannel looks at every upstream and keeps the last with a matching pattern. */
  method GetChannelIndex(patterns: seq<seq<string>>, key: string) returns (index: nat)
    requires |patterns| > 0
    ensures index < |patterns|
    ensures forall j :: index < j < |patterns| ==> !RoutesTo(patterns[j], key)
    ensures RoutesTo(patterns[index], key)
      || (index == 0 && forall j :: 0 <= j < |patterns| ==> !RoutesTo(patterns[j], key))
  {
    var routed: Option<nat> := None;
    for i := 0 to |patterns|
      invariant routed.Some? ==> routed.value < i && RoutesTo(patterns[routed.value], key)
      invariant forall j :: (if routed.Some? then routed.value + 1 else 0) <= j < i ==> !RoutesTo(patterns[j], key)
    {
      MatchesIffRoutesTo(patterns[i], key);
      var found := AnyMatch(patterns[i], key);
      if found {
        routed := Some(i);
      }
    }
    index := if routed.Some? then routed.value else 0;
  }

  ghost predicate IsFirst(patterns: seq<seq<string>>, key: string, i: nat) {
    && i < |patterns|
    && (forall j :: 0 <= j < i ==> !RoutesTo(patterns[j], key))
    && (RoutesTo(patterns[i], key) || (i == 0 && forall j :: 0 <= j < |patterns| ==> !RoutesTo(patterns[j], key)))
  }

  ghost predicate IsLast(patterns: seq<seq<string>>, key: string, i: nat) {
    && i < |patterns|
    && (forall j :: i < j < |patterns| ==> !RoutesTo(patterns[j], key))
    && (RoutesTo(patterns[i], key) || (i == 0 && forall j :: 0 <= j < |patterns| ==> !RoutesTo(patterns[j], key)))
  }

  /** The two lookups choose the same upstream exactly when no two upstreams match the key. */
  lemma LookupsAgreeIff(patterns: seq<seq<string>>, key: string, first: nat, last: nat)
    requires IsFirst(patterns, key, first) && IsLast(patterns, key, last)
    ensures first == last <==>
      !exists i, j :: 0 <= i < j < |patterns| && RoutesTo(patterns[i], key) && RoutesTo(patterns[j], key)
  {
    if first != last {
      assert RoutesTo(patterns[first], key) && RoutesTo(patterns[last], key);
    }
  }
}

// server.go: the containers that hand the things to the server, and the
// href prefix each thing is given when the server is built.

/** `ThingsType`: a single thing, or a list of things with an mDNS name. */
datatype ThingsType = SingleThing(thing: Thing) | MultipleThings(things: seq<Thing>, name: string)
{
  /**
    `Thing(idx)`: a single thing is returned whatever the index; a list is
    indexed, and an index out of range is a Go panic.
   */
  function ThingAt(idx: int): (t: Thing)
    requires MultipleThings? ==> 0 <= idx < |things|
    ensures SingleThing? ==> t == thing
    ensures MultipleThings? ==> t == things[idx]
  {
    if SingleThing? then thing else things[idx]
  }

  /** `Things`: a one-element list, or the stored list. */
  function Things(): (ts: seq<Thing>)
    ensures SingleThing? ==> ts == [thing]
    ensures MultipleThings? ==> ts == things
  {
    if SingleThing? then [thing] else things
  }

  /** `Name`: the single thing's title, or the stored name. */
  function Name(): (n: string)
    ensures SingleThing? ==> n == thing.title
    ensures MultipleThings? ==> n == name
  {
    if SingleThing? then thing.title else name
  }
}

/** `ThingAt` and `Things` describe the same things, position by position. */
lemma ThingAtAgreesWithThings(tt: ThingsType, idx: nat)
  requires idx < |tt.Things()|
  ensures tt.ThingAt(idx) == tt.Things()[idx]
{
}

/** The server's record of its things, name and base path (the HTTP server itself is left out). */
datatype ThingServer = ThingServer(things: seq<Thing>, name: string, basePath: string)

/**
  The prefix `NewWebThingServer` gives the thing at position `i` of `count`
  things: the base path without trailing '/' for a lone thing, "/<i>"
  otherwise.
 */
function ThingPrefix(count: nat, basePath: string, i: nat): (p: string)
  ensures count == 1 ==> p == Routing.TrimRight(basePath)
  ensures count != 1 ==> p == "/" + Routing.Decimal(i)
{
  if count == 1 then Routing.TrimRight(basePath) else "/" + Routing.Decimal(i)
}

/**
  In multi-thing mode no two positions share a prefix; in single-thing mode
  the prefix never ends in '/' and extends to the base path by slashes only.
 */
lemma {:induction false} ThingPrefixesDistinct(count: nat, basePath: string, i: nat, j: nat)
  ensures count != 1 && i != j ==> ThingPrefix(count, basePath, i) != ThingPrefix(count, basePath, j)
  ensures count == 1 ==> ThingPrefix(count, basePath, i) <= basePath
  ensures count == 1 && ThingPrefix(count, basePath, i) != "" ==>
    ThingPrefix(count, basePath, i)[|ThingPrefix(count, basePath, i)| - 1] != '/'
{
  if count != 1 && i != j {
    Routing.DecimalInjective(i, j);
    assert ThingPrefix(count, basePath, i)[1..] == Routing.Decimal(i);
    assert ThingPrefix(count, basePath, j)[1..] == Routing.Decimal(j);
  }
}

predicate Distinct(things: seq<Thing>)
{
  forall i, j :: 0 <= i < j < |things| ==> things[i] != things[j]
}

/** No two things of the list share a property object or an action object. */
ghost predicate PartsDisjoint(things: seq<Thing>)
  reads (set t | t in things)`properties, (set t | t in things)`actions
{
  forall i, j :: 0 <= i < j < |things| ==>
    things[i].properties.Values !! things[j].properties.Values
    && things[i].ActionObjects() !! things[j].ActionObjects()
}

/**
  `NewWebThingServer`, without the route registration: with exactly one
  thing, the thing's prefix is the base path without trailing '/'; with any
  other number, the thing at position i gets "/<i>" (when a thing appears
  twice in the list, its later position wins). `SetHrefPrefix` carries
  each prefix to the thing's properties and actions.
 */
method NewWebThingServer(thingsType: ThingsType, basePath: string) returns (server: ThingServer)
  modifies (set t | t in thingsType.Things())`hrefPrefix
  modifies (set t, p | t in thingsType.Things() && p in t.properties.Values :: p)`hrefPrefix
  modifies (set t, a | t in thingsType.Things() && a in t.ActionObjects() :: a)`hrefPrefix
  ensures server == ThingServer(thingsType.Things(), thingsType.Name(), basePath)
  ensures |server.things| == 1 ==>
    server.things[0].hrefPrefix == ThingPrefix(1, basePath, 0) && server.things[0].HrefsConsistent()
  ensures |server.things| != 1 && Distinct(server.things) ==>
    forall i :: 0 <= i < |server.things| ==>
      server.things[i].hrefPrefix == ThingPrefix(|server.things|, basePath, i)
  ensures |server.things| != 1 && Distinct(server.things) && PartsDisjoint(server.things) ==>
    forall i :: 0 <= i < |server.things| ==> server.things[i].HrefsConsistent()
{
  var things := thingsType.Things();
  server := ThingServer(things, thingsType.Name(), basePath);
  if |things| == 1 {
    things[0].SetHrefPrefix(ThingPrefix(1, basePath, 0));
    return;
  }
  var i := 0;
  while i < |things|
    invariant 0 <= i <= |things|
    invariant forall t :: t in things ==> t.properties == old(t.properties) && t.actions == old(t.actions)
    invariant Distinct(things) ==> forall j :: 0 <= j < i ==> things[j].hrefPrefix == ThingPrefix(|things|, basePath, j)
    invariant Distinct(things) && PartsDisjoint(things) ==> forall j :: 0 <= j < i ==> things[j].HrefsConsistent()
  {
    things[i].SetHrefPrefix(ThingPrefix(|things|, basePath, i));
    i := i + 1;
  }
}

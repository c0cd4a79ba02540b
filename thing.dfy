// thing.go: the aggregate root. A thing owns its properties, the action and
// event kinds it supports, the instances of its actions, its event log and
// its subscribers, and broadcasts every change to the subscribers.

import opened Json

/**
  The payload of one broadcast: `{messageType, data}`. A property's data is
  its description: its metadata with one `property` link to its href.
 */
datatype Message =
  | PropertyStatus(metadata: PropertyMetadata, href: string)
  | ActionStatus(action: Description)
  | EventMessage(event: Description)

/** One message sent to every subscriber registered at that moment. */
datatype Broadcast = Broadcast(message: Message, recipients: set<string>)

datatype ThingError = GeneralPropertyError | PropertyRejected(cause: PropertyError) | EventNotFound

/** `AvailableEvent`: an event kind's metadata and its per-event subscribers. */
datatype AvailableEvent = AvailableEvent(metadata: Bytes, subscribers: set<string>)

/** `NewAvailableEvent`: no per-event subscribers yet. */
function NewAvailableEvent(metadata: Bytes): (e: AvailableEvent)
  ensures e.metadata == metadata && e.subscribers == {}
{
  AvailableEvent(metadata, {})
}

/** `AvailableAction`: an action kind's metadata and its input schema, if one was loaded. */
datatype AvailableAction = AvailableAction(metadata: Bytes, schema: Option<Bytes>)
{
  /**
    `ValidateActionInput`: without a schema every input is accepted; with one,
    the input is accepted when `encoding/json` can marshal it, which
    `marshals` reports.
   */
  function ValidateActionInput(input: Option<Bytes>, marshals: bool): (ok: bool)
    ensures schema.None? ==> ok
    ensures !ok <==> schema.Some? && !marshals
  {
    schema.None? || marshals
  }
}

/** `NewAvailableAction`: the schema is never loaded, so it stays absent. */
function NewAvailableAction(metadata: Bytes): (a: AvailableAction)
  ensures a.metadata == metadata && a.schema.None?
  ensures forall input, marshals :: a.ValidateActionInput(input, marshals)
{
  AvailableAction(metadata, None)
}

/** The last action in `list` whose id is `id`, if any. */
function LastMatch(list: seq<Action>, id: string): (r: Option<Action>)
  ensures r.Some? ==> r.value.id == id && r.value in list
  ensures r.None? <==> forall k :: 0 <= k < |list| ==> list[k].id != id
  ensures r.Some? ==> exists k :: 0 <= k < |list| && list[k] == r.value
                        && forall j :: k < j < |list| ==> list[j].id != id
{
  if |list| == 0 then None
  else if list[|list| - 1].id == id then Some(list[|list| - 1])
  else LastMatch(list[..|list| - 1], id)
}

/** An action appended last is the one found by its id. */
lemma LastMatchAppend(list: seq<Action>, a: Action)
  ensures LastMatch(list + [a], a.id) == Some(a)
{
  assert (list + [a])[|list + [a]| - 1] == a;
}

/** Go's outcome of a call: a returned value, or a run-time panic. */
datatype GoOutcome<T> = Returns(value: T) | Panic

/**
  The presence test of `RemoveAction` as written: the looked-up action is
  dereferenced before it is checked, so a lookup that finds nothing panics.
 */
function RemoveActionCheckAsWritten(list: seq<Action>, id: string): (o: GoOutcome<bool>)
  ensures o == Panic <==> LastMatch(list, id).None?
  ensures o.Returns? ==> (o.value <==> id != "")
{
  match LastMatch(list, id)
  case None => Panic
  case Some(a) => Returns(a.id != "")
}

/**
  After a removal has overwritten every slot holding `id`, removing `id`
  again panics as written, whereas the presence test the model uses
  reports absence.
 */
lemma SecondRemovalAsWritten(before: seq<Action>, after: seq<Action>, id: string)
  requires id != ""
  requires |after| == |before|
  requires forall k :: 0 <= k < |before| ==>
    (before[k].id == id ==> after[k].id == "") && (before[k].id != id ==> after[k] == before[k])
  ensures RemoveActionCheckAsWritten(after, id) == Panic
  ensures !(id != "" && LastMatch(after, id).Some?)
{
  assert forall k :: 0 <= k < |after| ==> after[k].id != id;
}

/** ASCII case folding, the part of `strings.EqualFold` the model covers. */
function FoldAscii(c: char): char
{
  if 'A' <= c <= 'Z' then (c as int - 'A' as int + 'a' as int) as char else c
}

predicate EqualFold(a: string, b: string)
{
  |a| == |b| && forall i :: 0 <= i < |a| ==> FoldAscii(a[i]) == FoldAscii(b[i])
}

/** Whether `EventDescriptions(name)` reports event `e`: every event for the empty name, else a name match up to case. */
predicate Selected(e: Event, name: string)
{
  name == "" || EqualFold(e.name, name)
}

/** The descriptions `EventDescriptions(name)` collects from the log `evs`, in log order. */
function FilterEvents(evs: seq<Event>, name: string): seq<Description>
{
  if |evs| == 0 then []
  else FilterEvents(evs[..|evs| - 1], name)
       + (if Selected(evs[|evs| - 1], name) then [evs[|evs| - 1].AsEventDescription()] else [])
}

/** With an empty name, every event of the log is described, in order. */
lemma {:induction false} FilterEventsAll(evs: seq<Event>)
  ensures |FilterEvents(evs, "")| == |evs|
  ensures forall i :: 0 <= i < |evs| ==> FilterEvents(evs, "")[i] == evs[i].AsEventDescription()
{
  if |evs| > 0 {
    FilterEventsAll(evs[..|evs| - 1]);
  }
}

/** The positions of the log that `FilterEvents` describes, oldest first. */
function SelectedPositions(evs: seq<Event>, name: string): seq<nat>
{
  if |evs| == 0 then []
  else SelectedPositions(evs[..|evs| - 1], name) + (if Selected(evs[|evs| - 1], name) then [|evs| - 1] else [])
}

/** The positions are exactly the selected ones, each once, in increasing order. */
lemma {:induction false} SelectedPositionsExact(evs: seq<Event>, name: string)
  ensures forall j :: 0 <= j < |SelectedPositions(evs, name)| ==>
    SelectedPositions(evs, name)[j] < |evs| && Selected(evs[SelectedPositions(evs, name)[j]], name)
  ensures forall j, k :: 0 <= j < k < |SelectedPositions(evs, name)| ==>
    SelectedPositions(evs, name)[j] < SelectedPositions(evs, name)[k]
  ensures forall i :: 0 <= i < |evs| && Selected(evs[i], name) ==> i in SelectedPositions(evs, name)
{
  if |evs| > 0 {
    var init := evs[..|evs| - 1];
    SelectedPositionsExact(init, name);
    assert forall i :: 0 <= i < |init| ==> init[i] == evs[i];
  }
}

/** The j-th description is that of the event at the j-th selected position. */
lemma {:induction false} FilterEventsAtPositions(evs: seq<Event>, name: string)
  ensures |FilterEvents(evs, name)| == |SelectedPositions(evs, name)|
  ensures forall j :: 0 <= j < |SelectedPositions(evs, name)| ==>
    SelectedPositions(evs, name)[j] < |evs|
    && FilterEvents(evs, name)[j] == evs[SelectedPositions(evs, name)[j]].AsEventDescription()
{
  if |evs| > 0 {
    var init := evs[..|evs| - 1];
    FilterEventsAtPositions(init, name);
    assert forall i :: 0 <= i < |init| ==> init[i] == evs[i];
  }
}

/**
  With a name, the descriptions are those of exactly the selected events, in
  log order: `idx` lists their positions in increasing order, every selected
  position is among them, and the j-th description is that of event `idx[j]`.
 */
lemma FilterEventsMatching(evs: seq<Event>, name: string) returns (idx: seq<nat>)
  ensures |FilterEvents(evs, name)| == |idx| <= |evs|
  ensures forall j :: 0 <= j < |idx| ==> idx[j] < |evs| && Selected(evs[idx[j]], name)
  ensures forall j :: 0 <= j < |idx| ==> FilterEvents(evs, name)[j] == evs[idx[j]].AsEventDescription()
  ensures forall j, k :: 0 <= j < k < |idx| ==> idx[j] < idx[k]
  ensures forall i :: 0 <= i < |evs| && Selected(evs[i], name) ==> i in idx
{
  idx := SelectedPositions(evs, name);
  SelectedPositionsExact(evs, name);
  FilterEventsAtPositions(evs, name);
  IncreasingBelowIsShort(idx, |evs|);
}

/** An increasing list of naturals below `n` has at most `n` elements. */
lemma {:induction false} IncreasingBelowIsShort(xs: seq<nat>, n: nat)
  requires forall j :: 0 <= j < |xs| ==> xs[j] < n
  requires forall j, k :: 0 <= j < k < |xs| ==> xs[j] < xs[k]
  ensures |xs| <= n
{
  if |xs| > 0 {
    IncreasingBelowIsShort(xs[..|xs| - 1], xs[|xs| - 1]);
  }
}

/** Every description produced names a selected event kind. */
lemma FilterEventsSound(evs: seq<Event>, name: string)
  ensures forall d :: d in FilterEvents(evs, name) ==> name == "" || EqualFold(d.key, name)
{
  var idx := FilterEventsMatching(evs, name);
  forall d | d in FilterEvents(evs, name)
    ensures name == "" || EqualFold(d.key, name)
  {
    var j :| 0 <= j < |FilterEvents(evs, name)| && FilterEvents(evs, name)[j] == d;
    assert d == evs[idx[j]].AsEventDescription();
  }
}

/**
  The first half of `PerformAction`: the action kind's generator (modelled
  as `NewAction` with a fresh id, no input and the request time) followed
  by `SetInput` and `SetHrefPrefix`.
 */
method GenerateAction(thing: Thing, name: string, input: Option<Bytes>, newId: string, requestedAt: string, prefix: string)
  returns (a: Action)
  requires |requestedAt| > 0
  ensures fresh(a)
  ensures a.id == newId && a.thing == thing && a.name == name && a.input == input
  ensures a.hrefPrefix == prefix && a.href == "/actions/" + name + "/" + newId
  ensures a.status == StatusCreated && a.timeRequested == requestedAt && a.timeCompleted == ""
  ensures a.cancelCalls == 0
{
  a := new Action(newId, thing, name, None, requestedAt);
  a.SetInput(input);
  a.SetHrefPrefix(prefix);
}

/**
  The slot rewrite of `RemoveAction`: every slot holding `id` is overwritten
  by a fresh empty Action; the other slots and the length are kept.
 */
method Tombstoned(list: seq<Action>, id: string) returns (out: seq<Action>)
  ensures |out| == |list|
  ensures forall k :: 0 <= k < |list| && list[k].id == id ==> fresh(out[k]) && out[k].Tombstone()
  ensures forall k :: 0 <= k < |list| && list[k].id != id ==> out[k] == list[k]
{
  out := list;
  var k := 0;
  while k < |out|
    invariant 0 <= k <= |out| && |out| == |list|
    invariant forall j :: 0 <= j < k && list[j].id == id ==> fresh(out[j]) && out[j].Tombstone()
    invariant forall j :: 0 <= j < |list| && (k <= j || list[j].id != id) ==> out[j] == list[j]
  {
    if out[k].id == id {
      var tombstone := new Action.Empty();
      out := out[k := tombstone];
    }
    k := k + 1;
  }
}

class Thing {
  const id: string
  const context: string
  const atType: seq<string>
  const title: string
  const description: string
  var properties: map<string, Property>
  var availableActions: map<string, AvailableAction>
  var availableEvents: map<string, AvailableEvent>
  var actions: map<string, seq<Action>>
  var events: seq<Event>
  /** The ids of the subscribed websocket connections. */
  var subscribers: set<string>
  var hrefPrefix: string
  /** Every message broadcast so far, oldest first. */
  var broadcasts: seq<Broadcast>

  /**
    The thing's invariant: a property is stored under its own name, no action
    kind has a schema (none is ever loaded) and no event kind has subscribers
    of its own (`AddEventSubscriber` adds none).
   */
  ghost predicate Valid()
    reads this`properties, this`availableActions, this`availableEvents
  {
    && (forall n :: n in properties ==> properties[n].name == n)
    && (forall n :: n in availableActions ==> availableActions[n].schema.None?)
    && (forall n :: n in availableEvents ==> availableEvents[n].subscribers == {})
  }

  /** The instances of action `name`, oldest first; none when the name has no list. */
  function ActionList(name: string): (list: seq<Action>)
    reads this`actions
    ensures name in actions ==> list == actions[name]
    ensures name !in actions ==> list == []
  {
    if name in actions then actions[name] else []
  }

  /** Every action object in every list, tombstones included. */
  ghost function ActionObjects(): set<Action>
    reads this`actions
  {
    set n, i | n in actions && 0 <= i < |actions[n]| :: actions[n][i]
  }

  /**
    Every property and every live (non-tombstone) action carries the thing's
    own href prefix.
   */
  ghost predicate HrefsConsistent()
    reads this`hrefPrefix, this`properties, this`actions, properties.Values`hrefPrefix, ActionObjects()`hrefPrefix
  {
    && (forall n :: n in properties ==> properties[n].hrefPrefix == hrefPrefix)
    && (forall n, i :: n in actions && 0 <= i < |actions[n]| && actions[n][i].id != "" ==>
          actions[n][i].hrefPrefix == hrefPrefix)
  }

  /** `NewThing`: empty tables, no subscribers, no prefix. */
  constructor (id: string, title: string, atType: seq<string>, description: string)
    ensures Valid() && HrefsConsistent()
    ensures this.id == id && this.title == title && this.atType == atType && this.description == description
    ensures context == "https://iot.mozilla.org/schemas"
    ensures properties == map[] && availableActions == map[] && availableEvents == map[] && actions == map[]
    ensures events == [] && subscribers == {} && hrefPrefix == "" && broadcasts == []
  {
    this.id := id;
    this.title := title;
    context := "https://iot.mozilla.org/schemas";
    this.atType := atType;
    this.description := description;
    properties := map[];
    availableActions := map[];
    availableEvents := map[];
    actions := map[];
    events := [];
    subscribers := {};
    hrefPrefix := "";
    broadcasts := [];
  }

  /** `Href`: the prefix, or "/" when there is none. */
  function Href(): (h: string)
    reads this
    ensures hrefPrefix == "" ==> h == "/"
    ensures hrefPrefix != "" ==> h == hrefPrefix
    ensures |h| > 0
  {
    if hrefPrefix != "" then hrefPrefix else "/"
  }

  /**
    `SetHrefPrefix`: the thing, every property and every action slot of
    every list (tombstones included) take the new prefix; nothing else
    changes.
   */
  method SetHrefPrefix(prefix: string)
    modifies this`hrefPrefix, properties.Values`hrefPrefix, ActionObjects()`hrefPrefix
    ensures hrefPrefix == prefix
    ensures forall n :: n in properties ==> properties[n].hrefPrefix == prefix
    ensures forall n, i :: n in actions && 0 <= i < |actions[n]| ==> actions[n][i].hrefPrefix == prefix
    ensures HrefsConsistent()
  {
    hrefPrefix := prefix;
    var names := properties.Keys;
    while names != {}
      invariant hrefPrefix == prefix
      invariant names <= properties.Keys
      invariant forall n :: n in properties.Keys - names ==> properties[n].hrefPrefix == prefix
      decreases names
    {
      var n :| n in names;
      properties[n].SetHrefPrefix(prefix);
      names := names - {n};
    }
    var lists := actions.Keys;
    while lists != {}
      invariant hrefPrefix == prefix
      invariant lists <= actions.Keys
      invariant forall n :: n in properties ==> properties[n].hrefPrefix == prefix
      invariant forall n, i :: n in actions.Keys - lists && 0 <= i < |actions[n]| ==> actions[n][i].hrefPrefix == prefix
      decreases lists
    {
      var n :| n in lists;
      var list := actions[n];
      var k := 0;
      while k < |list|
        invariant 0 <= k <= |list|
        invariant hrefPrefix == prefix
        invariant forall n :: n in properties ==> properties[n].hrefPrefix == prefix
        invariant forall m, i :: m in actions.Keys - lists && 0 <= i < |actions[m]| ==> actions[m][i].hrefPrefix == prefix
        invariant forall i :: 0 <= i < k ==> list[i].hrefPrefix == prefix
      {
        list[k].SetHrefPrefix(prefix);
        k := k + 1;
      }
      lists := lists - {n};
    }
  }

  /** `AddProperty`: stamped with the thing's prefix and stored under its name, replacing any namesake. */
  method AddProperty(p: Property)
    requires Valid()
    modifies this`properties, p`hrefPrefix
    ensures Valid()
    ensures p.hrefPrefix == hrefPrefix
    ensures properties == old(properties)[p.name := p]
    ensures old(HrefsConsistent()) ==> HrefsConsistent()
  {
    p.SetHrefPrefix(hrefPrefix);
    properties := properties[p.name := p];
  }

  /** `RemoveProperty`: deletes that name only; a no-op when it is absent. */
  method RemoveProperty(p: Property)
    requires Valid()
    modifies this`properties
    ensures Valid()
    ensures properties == old(properties) - {p.name}
    ensures old(HrefsConsistent()) ==> HrefsConsistent()
  {
    if p.name in properties {
      properties := properties - {p.name};
    }
  }

  /** `findProperty`: the property stored under the name, if any. */
  function FindProperty(name: string): (r: Option<Property>)
    reads this
    ensures r.Some? <==> name in properties
    ensures r.Some? ==> r.value == properties[name]
  {
    if name in properties then Some(properties[name]) else None
  }

  /** `hasProperty`: whether a property is stored under the name. */
  predicate HasProperty(name: string)
    reads this
    ensures HasProperty(name) <==> FindProperty(name).Some?
  {
    name in properties
  }

  /** `Properties`: each property's name mapped to its current value. */
  function PropertyValues(): (m: map<string, JsonValue>)
    reads this, properties.Values, set n | n in properties :: properties[n].value
    ensures m.Keys == properties.Keys
    ensures forall n :: n in properties ==> m[n] == properties[n].value.Get()
  {
    map n | n in properties :: properties[n].value.lastValue
  }

  /** `Property`: the stored property's Value, or a fresh empty Value when there is none. */
  method PropertyValue(name: string) returns (v: Value)
    ensures name in properties ==> v == properties[name].value
    ensures name !in properties ==> fresh(v) && v.lastValue == Null && v.forwarders == []
  {
    var found := FindProperty(name);
    if found.Some? {
      v := found.value.value;
    } else {
      v := new Value(Null, []);
    }
  }

  /**
    `SetProperty`: an unknown name is a general property error; otherwise the
    property's `SetValue` decides, and only that property may change.
   */
  method SetProperty(name: string, v: Value) returns (err: Option<ThingError>)
    modifies properties.Values`value
    ensures name !in properties ==> err == Some(GeneralPropertyError)
    ensures name in properties ==>
      var p := properties[name];
      var check := ValidateValue(p.metadata, old(v.lastValue));
      && (check.None? ==> err.None? && p.value == v)
      && (check.Some? ==> err == Some(PropertyRejected(check.value)) && p.value == old(p.value))
    ensures forall q :: q in properties.Values && (name !in properties || q != properties[name]) ==> q.value == old(q.value)
  {
    if name !in properties {
      return Some(GeneralPropertyError);
    }
    var p := properties[name];
    var check := p.SetValue(v);
    err := if check.None? then None else Some(PropertyRejected(check.value));
  }

  /** `Action`: the last instance of action `name` with the given id. */
  method LookupAction(name: string, actionId: string) returns (r: Option<Action>)
    ensures r == LastMatch(ActionList(name), actionId)
  {
    if name !in actions {
      return None;
    }
    var list := actions[name];
    r := None;
    var k := 0;
    while k < |list|
      invariant 0 <= k <= |list|
      invariant r == LastMatch(list[..k], actionId)
    {
      assert list[..k + 1][..k] == list[..k];
      if list[k].id == actionId {
        r := Some(list[k]);
      }
      k := k + 1;
    }
    assert list[..k] == list;
  }

  /** `AddEvent`: the event is always appended to the log, even when it cannot be broadcast. */
  method AddEvent(e: Event)
    modifies this`events, this`broadcasts
    ensures events == old(events) + [e]
    ensures e.name in availableEvents ==>
      broadcasts == old(broadcasts) + [Broadcast(EventMessage(e.AsEventDescription()), subscribers)]
    ensures e.name !in availableEvents ==> broadcasts == old(broadcasts)
  {
    events := events + [e];
    var _ := EventNotify(e);
  }

  /** `AddAvailableEvent`: registers (or re-registers) an event kind. */
  method AddAvailableEvent(name: string, metadata: Bytes)
    requires Valid()
    modifies this`availableEvents
    ensures Valid()
    ensures availableEvents == old(availableEvents)[name := NewAvailableEvent(metadata)]
  {
    availableEvents := availableEvents[name := NewAvailableEvent(metadata)];
  }

  /**
    `PerformAction`: an unknown name yields nothing and changes nothing. A
    registered name always passes validation (no schema is ever loaded), so
    exactly one new action, carrying the input and the thing's prefix, is
    announced and appended at the end of its list; the other lists are
    unchanged. The action class's generator is modelled as `NewAction` with a
    fresh id and the request time, both parameters; `inputMarshals` stands
    for what `encoding/json` would say about the input.
   */
  method PerformAction(name: string, input: Option<Bytes>, inputMarshals: bool, newId: string, requestedAt: string)
    returns (r: Option<Action>)
    requires Valid() && |requestedAt| > 0
    modifies this`actions, this`broadcasts
    ensures Valid()
    ensures name !in availableActions ==> r.None? && actions == old(actions) && broadcasts == old(broadcasts)
    ensures name in availableActions ==> r.Some? && fresh(r.value)
    ensures r.Some? ==>
      var a := r.value;
      && a.id == newId && a.thing == this && a.name == name && a.input == input
      && a.hrefPrefix == hrefPrefix && a.href == "/actions/" + name + "/" + newId
      && a.status == StatusCreated && a.timeRequested == requestedAt && a.timeCompleted == ""
      && actions == old(actions)[name := old(ActionList(name)) + [a]]
      && broadcasts == old(broadcasts) + [Broadcast(ActionStatus(a.AsActionDescription()), subscribers)]
    ensures r.Some? ==> LastMatch(ActionList(name), newId) == r
    ensures old(HrefsConsistent()) ==> HrefsConsistent()
  {
    if name !in availableActions {
      return None;
    }
    var actionType := availableActions[name];
    if !actionType.ValidateActionInput(input, inputMarshals) {
      return None;
    }
    var a := GenerateAction(this, name, input, newId, requestedAt, hrefPrefix);
    ActionNotify(a);
    LastMatchAppend(ActionList(name), a);
    ghost var lists := actions;
    actions := actions[name := ActionList(name) + [a]];
    r := Some(a);
    if old(HrefsConsistent()) {
      forall n, i | n in actions && 0 <= i < |actions[n]| && actions[n][i].id != ""
        ensures actions[n][i].hrefPrefix == hrefPrefix
      {
        if n != name || i < |actions[n]| - 1 {
          assert actions[n][i] == lists[n][i];
        }
      }
    }
  }

  /**
    `RemoveAction`, with the lookup made total: when an instance with that
    (non-empty) id exists, its `Cancel` runs once, every slot with that id is
    overwritten by an empty Action, the list keeps its length, and the result
    is true; otherwise the result is false and nothing changes.
   */
  method RemoveAction(name: string, actionId: string) returns (removed: bool)
    modifies this`actions, ActionObjects()`cancelCalls
    ensures removed <==> actionId != "" && LastMatch(old(ActionList(name)), actionId).Some?
    ensures !removed ==> actions == old(actions)
    ensures removed ==>
      var before := old(ActionList(name));
      && name in actions && |actions[name]| == |before|
      && (forall k :: 0 <= k < |before| && before[k].id == actionId ==>
            fresh(actions[name][k]) && actions[name][k].Tombstone())
      && (forall k :: 0 <= k < |before| && before[k].id != actionId ==> actions[name][k] == before[k])
      && LastMatch(before, actionId).value.cancelCalls == old(LastMatch(before, actionId).value.cancelCalls) + 1
    ensures removed ==> LastMatch(ActionList(name), actionId).None?
    ensures forall a :: a in old(ActionObjects()) && !(removed && a == old(LastMatch(ActionList(name), actionId)).value) ==>
      a.cancelCalls == old(a.cancelCalls)
    ensures forall n :: n != name ==> (n in actions <==> n in old(actions)) && (n in actions ==> actions[n] == old(actions[n]))
    ensures old(HrefsConsistent()) ==> HrefsConsistent()
  {
    var found := LookupAction(name, actionId);
    if found.None? || found.value.id == "" {
      return false;
    }
    found.value.Cancel();
    var list := Tombstoned(actions[name], actionId);
    actions := actions[name := list];
    removed := true;
  }

  /** `AddAvailableAction`: registers the kind and starts an empty instance list, dropping any earlier one. */
  method AddAvailableAction(name: string, metadata: Bytes)
    requires Valid()
    modifies this`availableActions, this`actions
    ensures Valid()
    ensures availableActions == old(availableActions)[name := NewAvailableAction(metadata)]
    ensures actions == old(actions)[name := []]
    ensures old(HrefsConsistent()) ==> HrefsConsistent()
  {
    availableActions := availableActions[name := NewAvailableAction(metadata)];
    actions := actions[name := []];
  }

  /** `AddSubscriber`: the connection's id joins the subscribers. */
  method AddSubscriber(wsId: string)
    modifies this`subscribers
    ensures subscribers == old(subscribers) + {wsId}
  {
    subscribers := subscribers + {wsId};
  }

  /**
    `RemoveSubscriber`: the id leaves the subscribers, and the per-event
    clean-up deletes every available event kind.
   */
  method RemoveSubscriber(wsId: string)
    requires Valid()
    modifies this`subscribers, this`availableEvents
    ensures Valid()
    ensures subscribers == old(subscribers) - {wsId}
    ensures availableEvents == map[]
  {
    if wsId in subscribers {
      subscribers := subscribers - {wsId};
    }
    var names := availableEvents.Keys;
    while names != {}
      invariant Valid()
      invariant subscribers == old(subscribers) - {wsId}
      invariant availableEvents.Keys == names
      decreases names
    {
      var n :| n in names;
      var _ := RemoveEventSubscriber(n);
      names := names - {n};
    }
  }

  /**
    `RemoveEventSubscriber`: closes the event kind's own subscribers, of
    which there are none, and deletes the event kind.
   */
  method RemoveEventSubscriber(name: string) returns (err: Option<string>)
    requires Valid()
    modifies this`availableEvents
    ensures Valid()
    ensures err.None?
    ensures availableEvents == old(availableEvents) - {name}
  {
    if name in availableEvents {
      assert availableEvents[name].subscribers == {};
      availableEvents := availableEvents - {name};
    }
    return None;
  }

  /** `PropertyNotify`: broadcasts the property's description (metadata and href). */
  method PropertyNotify(p: Property)
    modifies this`broadcasts
    ensures broadcasts == old(broadcasts) + [Broadcast(PropertyStatus(p.metadata, p.Href()), subscribers)]
  {
    broadcasts := broadcasts + [Broadcast(PropertyStatus(p.metadata, p.Href()), subscribers)];
  }

  /** `ActionNotify`: broadcasts the action's current description. */
  method ActionNotify(a: Action)
    modifies this`broadcasts
    ensures broadcasts == old(broadcasts) + [Broadcast(ActionStatus(a.AsActionDescription()), subscribers)]
  {
    broadcasts := broadcasts + [Broadcast(ActionStatus(a.AsActionDescription()), subscribers)];
  }

  /** `EventNotify`: an event of an unregistered kind is an error and is not broadcast. */
  method EventNotify(e: Event) returns (err: Option<ThingError>)
    modifies this`broadcasts
    ensures e.name !in availableEvents ==> err == Some(EventNotFound) && broadcasts == old(broadcasts)
    ensures e.name in availableEvents ==>
      err.None? && broadcasts == old(broadcasts) + [Broadcast(EventMessage(e.AsEventDescription()), subscribers)]
  {
    if e.name !in availableEvents {
      return Some(EventNotFound);
    }
    broadcasts := broadcasts + [Broadcast(EventMessage(e.AsEventDescription()), subscribers)];
    err := None;
  }

  /** `EventDescriptions`: the whole log for "", else the events whose name matches up to case. */
  method EventDescriptions(name: string) returns (ds: seq<Description>)
    ensures ds == FilterEvents(events, name)
  {
    ds := [];
    var k := 0;
    while k < |events|
      invariant 0 <= k <= |events|
      invariant ds == FilterEvents(events[..k], name)
    {
      assert events[..k + 1][..k] == events[..k];
      var e := events[k];
      if name == "" || EqualFold(e.name, name) {
        ds := ds + [e.AsEventDescription()];
      }
      k := k + 1;
    }
    assert events[..k] == events;
  }
}

# webthing-go core, modelled in Dafny

This project models the core of webthing-go, a Go library that exposes
physical devices as Web Things over HTTP and WebSocket. Each Web Thing has
properties, actions and events. The model covers:

- **Thing** (`thing.dfy`): the aggregate root. It holds its properties, the
  action and event kinds it offers, the instances of each action, its event
  log, its subscribers, and its href prefix. Every notification it would
  write to its subscribers is recorded in `broadcasts`, together with the set
  of subscribers present at that moment.
- **Action** (`action.dfy`): one invocation of an action. Its status goes
  created → pending → completed, and it is addressed by an href of the form
  `/actions/<name>/<id>`.
- **Property** and **Value** (`property.dfy`, `value.dfy`): a named, typed
  value, the check a new value must pass, and the last-value cell with its
  forwarder callbacks.
- **Event** (`event.dfy`): an immutable record, and how it is described.
- **Json** (`json.dfy`): Go's dynamic values behind `interface{}`, Go's
  `==` on them (including the panic on slices and maps), raw JSON bytes, and
  rendered descriptions.
- **Routing** (`routing.dfy`):
  - `trimSlash` and `strings.TrimRight`;
  - both versions of `resource`: the unanchored pattern of `utils.go` and
    the anchored one of `server.go`;
  - `matchActionOrID`, and the decision between the id route and the
    no-id route in `ActionsHandle.Handle`;
  - the method sets of the handlers and `BaseHandle`'s method dispatch;
  - `strconv.Itoa`.
- **Server** (`server.dfy`): the `SingleThing` and `MultipleThings`
  containers, and the href prefix each thing receives in
  `NewWebThingServer`.

Objects that the Go code updates in place are Dafny classes, with `modifies`
and `reads` frames: Thing, Action, Property and Value. Events,
available-action and available-event records, descriptions and messages are
datatypes. Each Thing method states its whole effect:

- the new tables;
- the broadcasts appended;
- that the lists it does not touch are unchanged.

Each method also preserves `HrefsConsistent`: every property and every live
action carries the thing's prefix.

The model takes these as parameters instead of computing them:

- wall-clock timestamps (`Timestamp()`);
- the id of a generated action;
- whether an action's perform routine panics;
- whether `encoding/json` can marshal an action input.

Where the code and its documentation differ, the model follows the code:

- `Value.NotifyOfExternalUpdate` notifies nobody. The event emission is
  commented out (value.go:54), so a property change made through a Value is
  not broadcast.
- A perform routine that panics leaves the action "pending". The deferred
  `recover` in `Start` swallows the panic before `Finish` runs.
- `RemoveSubscriber` deletes every available event kind, not only the
  subscriber's entries. `RemoveEventSubscriber` deletes the whole kind after
  closing its (always empty) subscriber set.
- Server mode is chosen by the number of things in the list, not by the
  container type. A `MultipleThings` holding one thing is served as a single
  thing.

`server.go` and `utils.go`/`actions-handle.go` each define a `trimSlash`:

- The two `trimSlash` copies are identical (server.go:375-381,
  utils.go:18-24), so `Routing.TrimSlash` models both.
- The two `resource` and the two `matchActionOrID` differ only in how the
  one-segment pattern is anchored. That is why they are modelled separately.

## Model

| member | source | states |
|---|---|---|
| Json.Compare | value.go:50-56 | Go `==` on interfaces: different dynamic types are unequal; comparing two slices or two maps panics; `Equal` only for identical values, and identical comparable values are `Equal` |
| ForwarderCalls | value.go:30-35 | a commanded write calls every forwarder exactly once, in slice order, with the written value |
| UpdatedValue | value.go:50-56 | a nil update keeps the value; the value changes only to a non-nil value that compares unequal, and such a value is always stored |
| UpdateIdempotent | value.go:50-56 | repeating an external update changes nothing |
| UpdateNeverStoresNil | value.go:51 | nil is never stored over a non-nil value |
| Value.constructor | value.go:23-25 | the initial value (possibly nil) and the forwarders are stored, no forwarder has been called |
| Value.Get | value.go:43-45 | returns the last stored value |
| Value.NotifyOfExternalUpdate | value.go:50-56 | the new last value is `UpdatedValue` of the old one; the panic is reported exactly when two slices or two maps are compared |
| Value.Set | value.go:30-38 | every forwarder is called once in order with the value, even a nil or unchanged one; then the update behaves as an external update; the forwarder list is a constant |
| Event.AsEventDescription | event.go:42-52 | one top-level key, the event name; "timestamp" is the event time; "data" is present exactly when the data is non-empty and then holds it |
| NewEvent | event.go:31-38 | thing, name and data are stored verbatim, with the supplied timestamp |
| DescribeAction | action.go:83-106 | one top-level key, the action name; href, status and timeRequested always present; input exactly when there is one; timeCompleted exactly when non-empty; no other field |
| Action.constructor | action.go:62-79 | status "created", prefix "", href `/actions/<name>/<id>`, no completion time, the input stored as given |
| Action.Empty | thing.go:398 | the empty Action that overwrites a removed slot has no id, name, thing, href or request time |
| Action.Href | action.go:128-130 | the prefix followed by the action's href |
| Action.SetHrefPrefix | action.go:110-112 | only the prefix changes |
| Action.SetInput | action.go:165-169 | a nil input keeps the current input, any other replaces it |
| Action.AsActionDescription | action.go:83-106 | the description is `DescribeAction` of the current name, input, full href, status and times |
| Action.StatusMessage | thing.go:488-492 | the action-status message names the action and carries the given status |
| Action.Start | action.go:172-186 | status "pending" and one notification; if the perform routine panics the status stays "pending" and nothing more is sent; otherwise `Finish` follows, giving exactly two notifications; with no thing nothing is sent |
| Action.Finish | action.go:190-195 | status "completed", the completion time set, one notification; nothing else changes |
| Action.Cancel | action.go:23-24 | the cancel routine is invoked once more |
| Validate | property.go:182-206 | booleans only for "boolean", strings only for "string", Go integers for "integer" or "number", floats only for "number", `go/types.Array` only for "array"; nil, decoded arrays and objects and other types never |
| IntegerIsNumber | property.go:196-199 | whatever is valid for "integer" is valid for "number" |
| ValidateValue | property.go:69-88 | undecodable metadata is an error; a read-only property rejects every value; otherwise the value is accepted exactly when it has the declared type |
| SetValueCheckAsWritten | property.go:134-141 | as written, the check rejects every new value |
| SetValueAsWrittenNeverSucceeds | property.go:134-141 | as written, a writable boolean property refuses a boolean value that the held-value check accepts |
| Property.constructor | property.go:47-61 | href `/properties/<name>`, prefix "", a copy of the given Value, one property notification sent to the thing |
| Property.Href | property.go:120-122 | the prefix followed by `/properties/<name>` |
| Property.SetHrefPrefix | property.go:113-115 | only the prefix changes |
| Property.SetValue | property.go:134-141 | on a validation error the stored Value is kept and the error returned; only on success is it replaced |
| NewAvailableEvent | thing.go:540-542 | the metadata is stored, with no per-event subscribers |
| AvailableAction.ValidateActionInput | thing.go:605-616 | without a schema every input passes; with one, the input fails exactly when it cannot be marshalled |
| NewAvailableAction | thing.go:563-580 | no schema is loaded, so every input is valid |
| LastMatch | thing.go:323-336 | the result has the id and is in the list; it is absent exactly when no slot has the id; no later slot has the id |
| LastMatchAppend | thing.go:378 | an action appended at the end is what a lookup by its id finds |
| GenerateAction | thing.go:371-375 | a fresh action with the requested name, id, time and input, carrying the given prefix, status "created" |
| Tombstoned | thing.go:396-400 | every slot with the id becomes a fresh empty Action; other slots and the length are kept |
| RemoveActionCheckAsWritten | thing.go:389-393 | as written, the presence test panics exactly when no slot has the id |
| SecondRemovalAsWritten | thing.go:389-403 | after a removal has overwritten the slots, removing the same id again panics as written, where the corrected test reports absence |
| FilterEventsAll | thing.go:230-240 | with an empty name, every logged event is described, in log order |
| FilterEventsMatching | thing.go:230-240 | the descriptions are exactly those of the selected events, in log order: an increasing list of positions holds every selected position and nothing else, and the j-th description is that of the j-th selected event |
| SelectedPositionsExact | thing.go:230-240 | the positions `EventDescriptions` reports are exactly the selected ones (all of them for the empty name, else names equal up to ASCII case), increasing and within the log |
| FilterEventsAtPositions | thing.go:230-240 | one description per selected position, the j-th being that of the event at the j-th position |
| FilterEventsSound | thing.go:230-240 | with a name, every description produced is of an event whose name equals it up to ASCII case |
| Thing.constructor | thing.go:40-56 | empty property, action and event tables, no events, no subscribers, prefix "", the fixed context; the invariants hold |
| Thing.Href | thing.go:117-123 | "/" when the prefix is empty, the prefix otherwise |
| Thing.SetHrefPrefix | thing.go:135-145 | the thing, every property and every action slot of every list (tombstones included) take the prefix; nothing else changes |
| Thing.ActionList | thing.go:324-328 | the list of the name, empty when the name has none |
| Thing.AddProperty | thing.go:245-248 | the property gets the thing's prefix and is stored under its name, replacing a same-name entry |
| Thing.RemoveProperty | thing.go:253-257 | only that name is deleted; a no-op when absent |
| Thing.FindProperty | thing.go:263-268 | found exactly when the name is stored, and then the stored property |
| Thing.HasProperty | thing.go:297-302 | true exactly when `findProperty` finds the name |
| Thing.PropertyValues | thing.go:285-291 | every stored name mapped to its property's current value |
| Thing.PropertyValue | thing.go:275-280 | the stored property's Value, or a fresh empty Value when absent |
| Thing.SetProperty | thing.go:310-316 | an unknown name is a general property error; otherwise the property's corrected `SetValue` decides whether its Value is replaced, so a well-typed value for a writable property is accepted; no other property changes. As written it inherits the `SetValue` defect and returns an error for every known property (`SetValueCheckAsWritten`) |
| Thing.LookupAction | thing.go:323-336 | the last slot of the name's list with the id, none when the name has no list or no slot matches |
| Thing.AddEvent | thing.go:341-344 | the event is always appended at the end of the log; it is broadcast only when its kind is available |
| Thing.AddAvailableEvent | thing.go:351-353 | the event kind is (re)registered with no subscribers |
| Thing.PerformAction | thing.go:360-383 | an unregistered name gives nothing and changes nothing; a registered one appends exactly one new action, with the input and the prefix, at the end of its list, announces it once, and a lookup by its id finds it; other lists unchanged |
| Thing.RemoveAction | thing.go:389-403 | true exactly when a slot has the (non-empty) id: then Cancel runs once, every slot with the id is overwritten by an empty Action, the length is kept and the id can no longer be found; otherwise false and nothing changes; no action other than the cancelled one has its cancel routine run; other lists unchanged |
| Thing.AddAvailableAction | thing.go:411-414 | the kind is registered and its instance list reset to empty |
| Thing.AddSubscriber | thing.go:419-421 | the connection's id joins the subscribers |
| Thing.RemoveSubscriber | thing.go:426-434 | the id leaves the subscribers and every available event kind is deleted |
| Thing.RemoveEventSubscriber | thing.go:446-457 | the event kind is deleted; no error, since its subscriber set is always empty |
| Thing.PropertyNotify | thing.go:467-483 | one broadcast of the property's metadata and href to the current subscribers |
| Thing.ActionNotify | thing.go:488-504 | one broadcast of the action's current description to the current subscribers |
| Thing.EventNotify | thing.go:509-530 | an event of an unregistered kind is an error and nothing is sent; otherwise one broadcast of its description |
| Thing.EventDescriptions | thing.go:230-240 | the descriptions `FilterEvents` selects from the log, in log order |
| ThingsType.ThingAt | server.go:157-194 | a single thing is returned for any index; a list is indexed, within range |
| ThingsType.Things | server.go:162-199 | a one-element list, or the stored list |
| ThingsType.Name | server.go:167-204 | the single thing's title, or the stored name |
| ThingAtAgreesWithThings | server.go:125-142 | `Thing(idx)` is element idx of `Things()` |
| ThingPrefix | server.go:34-68 | the base path without trailing '/' for one thing, "/<i>" for thing i otherwise |
| ThingPrefixesDistinct | server.go:65-68 | with several things no two positions share a prefix; a single thing's prefix is a prefix of the base path and does not end in '/' |
| NewWebThingServer | server.go:27-93 | the server holds the container's things and name and the base path; a lone thing gets the trimmed base path and its properties and actions follow it; the thing at position i of a list of distinct things gets "/<i>", and when no two things share a property or action object every thing's properties and live actions carry its prefix |
| Routing.TrimSlash | utils.go:18-24 | the result is a prefix of the path, at most one shorter, and shorter exactly when the path is longer than one character and ends in '/' |
| Routing.TrimSlashExamples | utils.go:18-24 | "/" is kept, a single trailing '/' is dropped, only one of two is |
| Routing.TrimRight | server.go:36-37 | the result is a prefix, does not end in '/', and everything removed is '/' |
| Routing.TrimRightIdempotent | server.go:37 | trimming twice is trimming once |
| Routing.KeywordLenAt | utils.go:36 | a non-zero length means a collection name followed by '/' starts there |
| Routing.AlnumRun | utils.go:36 | the run from i holds only letters and digits and stops before the first other character |
| Routing.FindMatch | utils.go:27 | the leftmost matching position at or after p, none exactly when there is none |
| Routing.Resource | utils.go:26-37 | an error exactly when the pattern occurs nowhere; otherwise a non-empty alphanumeric name, the maximal run after the leftmost "<collection>/" |
| Routing.CaptureUnique | utils.go:26-37 | the leftmost match and its capture are unique |
| Routing.ResourceOfCapture | utils.go:26-37 | whatever the pattern captures is what `resource` returns |
| Routing.NoMatchAt | utils.go:36 | no match starts at a character other than 'p', 'a', 'e' |
| Routing.KeywordLenOf | utils.go:36 | a collection name followed by '/' at p gives its own length plus one |
| Routing.ResourceAfterPlainPrefix | utils.go:26-37 | behind a prefix where no collection name starts (such as "/things/0/"), "<collection>/<name>" yields the name |
| Routing.ResourceAnchored | server.go:382-392 | success only on "/<collection>/<name>" with a non-empty alphanumeric name, which is returned |
| Routing.ResourceAnchoredComplete | server.go:382-392 | every "/<collection>/<name>" with a non-empty alphanumeric name is accepted |
| Routing.AnchoredAgreesWithUnanchored | server.go:382-392 | wherever the anchored pattern matches, the unanchored one returns the same name |
| Routing.LineOf | actions-handle.go:34 | the text before the first newline |
| Routing.LastSlash | actions-handle.go:34 | the position of the last '/', none exactly when there is none |
| Routing.SplitAtLastSlash | actions-handle.go:34-37 | name + "/" + id is the line and the id holds no '/'; none exactly when the line has no '/' |
| Routing.TwoSegment | actions-handle.go:34-37 | matches only behind "/actions/"; name + "/" + id is the first line of the rest, the id has no '/'; fails exactly when that line has no '/' |
| Routing.MatchActionOrId | actions-handle.go:33-44 | the two-segment split wins; otherwise the unanchored resource gives the name with an empty id; outside "/actions/" the id is always empty |
| Routing.MatchActionOrIdAnchored | server.go:495-506 | the same, with the anchored resource as fallback |
| Routing.MatchersAgree | server.go:495-506 | wherever the anchored matcher succeeds, the unanchored one gives the same result |
| Routing.MatchActionOrIdInstance | actions-handle.go:34-37 | "/actions/<name>/<id>" parses back into name and id when the id has no '/' and neither has a newline |
| Routing.MatchActionOrIdNameOnly | actions-handle.go:39-43 | "/actions/<name>" with an alphanumeric name parses as the name with an empty id |
| Routing.Implements | server.go:236-268 | every handler has GET; PUT only the property handler; DELETE only the action-instance handler; POST the actions, action and action-instance handlers |
| Routing.BaseHandle | server.go:236-269 | GET/POST/PUT/DELETE go to the handler's method when it has one and get 405 otherwise; any other method gets no status |
| Routing.BaseHandleDelegatesOnlyImplemented | server.go:236-269 | a handler's method is reached exactly when it implements the request's method, and only that method |
| Routing.ThingsHandle | server.go:278-286 | with exactly one thing the request goes to that thing's handler |
| Routing.RouteOf | actions-handle.go:19-30 | the instance route exactly when a non-empty id was parsed, the name route when only a name was, the collection when parsing failed |
| Routing.ActionsHandle | actions-handle.go:18-31 | an instance path whose action is not found is a bad request; otherwise the instance, name or collection handler dispatches the method |
| Routing.DeleteNeedsInstanceId | actions-handle.go:19-28 | DELETE reaches an action only through an instance path with a non-empty id whose action exists |
| Routing.Decimal | server.go:67 | non-empty, digits only, no leading zero |
| Routing.DecimalRoundTrip | server.go:67 | reading the digits back gives the index |
| Routing.DecimalInjective | server.go:67 | different indices give different strings |

## Left out

- HTTP and WebSocket plumbing is left out: request bodies, response writing, CORS and JSON headers, route registration with `http.HandleFunc`, the `ThingHandle.Get` WebSocket upgrade, and every handler's `Get`/`Post`/`Put`/`Delete` body. The model covers the path parsing and method dispatch that choose the handler.
- A subscriber's `Write` can fail part-way through a broadcast. The model records each broadcast once, addressed to the whole subscriber set.
- JSON marshalling is not modelled. This covers `AsThingDescription`, `PropertyDescriptions`, `ActionDescriptions` and `AsPropertyDescription`'s merge of metadata with the link, and descriptions are kept as structured values. Marshalling failures, such as an action input that is not valid JSON, are also out.
- The thing's `uiHref` and `SetUiHref`, and the plain getters (`ID`, `Title`, `Context`, `Type`, `Description`, `Metadata`, and `Name`/`Thing`/`Data`/`Time` of events) are not modelled as members: they are the fields themselves.
- Goroutines are not modelled: `go action.Start()` is a plain call. Perform and cancel routines are user code. Only whether a perform routine panics is modelled, and how often Cancel runs.
- GenerateAction: the action kind's `Generator` is user code, and the model fixes its result to a fresh `NewAction` for the thing. A generator that returns nil, or an action that is already listed, is not covered.
- Action.Cancel: a nil `Cancel` field would panic; the model counts the call instead.
- Timestamps come from the wall clock, so they are parameters here. Their format and ordering are not modelled.
- FilterEvents: `strings.EqualFold` is modelled on ASCII letters only. Unicode case folding is out.
- Json.Compare: floating-point equality (NaN, and +0 against -0) is real-number equality here, and struct and pointer values are compared by type name and identity.
- AvailableAction.ValidateActionInput: the schema is never loaded, so the branch that marshals the input is unreachable through the thing, and the schema is modelled as absent.
- Routing.TrimSlash: requires a non-empty path. Go panics on the empty string, and a request URI is never empty.
- NewWebThingServer: the per-position prefix is stated for lists of distinct things; when a thing appears twice in the list, its later position wins. The push-down to properties and actions is stated for things that share no property or action object, since a shared object keeps the prefix of the last thing that set it.

## Findings

| source | as written | input that shows it | evidently intended | confidence | as-written member | corrected member |
|---|---|---|---|---|---|---|
| property.go:134-141 | `SetValue` validates the `*Value` wrapper itself, which no primitive type accepts, so every call fails; `Thing.SetProperty` (thing.go:310-316) returns that error for every known property | a writable property with metadata `{"type": "boolean"}` and a new Value holding `true` | validate the value the new Value holds | not executed | SetValueAsWrittenNeverSucceeds | Property.SetValue, used by Thing.SetProperty |
| thing.go:389-403 | `RemoveAction` dereferences the lookup result before checking it, so a name or id with no matching slot panics | removing an action id a second time, after the first removal overwrote its slot | report absence (false) | not executed | SecondRemovalAsWritten | Thing.RemoveAction |

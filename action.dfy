// action.go: one invocation of an action, with its created -> pending ->
// completed status and the href under which it is addressed.

const StatusCreated := "created"
const StatusPending := "pending"
const StatusCompleted := "completed"

/**
  The description of an action instance:
  `{ name: { "input"?, "href", "status", "timeRequested", "timeCompleted"? } }`.
  The input appears only when there is one and the completion time only when
  it is non-empty.
 */
function DescribeAction(name: string, input: Option<Bytes>, href: string, status: string,
                        timeRequested: string, timeCompleted: string): (d: Description)
  ensures d.key == name
  ensures "href" in d.fields && d.fields["href"] == Text(href)
  ensures "status" in d.fields && d.fields["status"] == Text(status)
  ensures "timeRequested" in d.fields && d.fields["timeRequested"] == Text(timeRequested)
  ensures "input" in d.fields <==> input.Some?
  ensures input.Some? ==> d.fields["input"] == Raw(input.value)
  ensures "timeCompleted" in d.fields <==> timeCompleted != ""
  ensures timeCompleted != "" ==> d.fields["timeCompleted"] == Text(timeCompleted)
  ensures d.fields.Keys <= {"input", "timeCompleted", "href", "status", "timeRequested"}
{
  var always := map["href" := Text(href), "status" := Text(status), "timeRequested" := Text(timeRequested)];
  var withInput := if input.Some? then always["input" := Raw(input.value)] else always;
  Description(name, if timeCompleted != "" then withInput["timeCompleted" := Text(timeCompleted)] else withInput)
}

class Action {
  const id: string
  /** The owning thing; nil only in the empty Action that tombstones a removed slot. */
  const thing: Thing?
  const name: string
  var input: Option<Bytes>
  var hrefPrefix: string
  const href: string
  var status: string
  const timeRequested: string
  var timeCompleted: string
  /** How many times the action's `Cancel` routine has been invoked. */
  var cancelCalls: nat

  /**
    `NewAction`: status "created", no prefix, href `/actions/<name>/<id>`, no
    completion time. The request time, read from the wall clock in the
    source, is a parameter.
   */
  constructor (id: string, thing: Thing?, name: string, input: Option<Bytes>, timeRequested: string)
    requires |timeRequested| > 0
    ensures this.id == id && this.thing == thing && this.name == name && this.input == input
    ensures hrefPrefix == "" && href == "/actions/" + name + "/" + id
    ensures status == StatusCreated && this.timeRequested == timeRequested && timeCompleted == ""
    ensures cancelCalls == 0
  {
    this.id := id;
    this.thing := thing;
    this.name := name;
    this.input := input;
    hrefPrefix := "";
    href := "/actions/" + name + "/" + id;
    status := StatusCreated;
    this.timeRequested := timeRequested;
    timeCompleted := "";
    cancelCalls := 0;
  }

  /** `&Action{}`: the zero Action, written over a removed slot. */
  constructor Empty()
    ensures Tombstone()
    ensures input.None? && hrefPrefix == "" && status == "" && timeCompleted == "" && cancelCalls == 0
  {
    id := "";
    thing := null;
    name := "";
    input := None;
    hrefPrefix := "";
    href := "";
    status := "";
    timeRequested := "";
    timeCompleted := "";
    cancelCalls := 0;
  }

  /** The constant part of an empty Action: no id, name, thing, href or request time. */
  predicate Tombstone()
  {
    id == "" && name == "" && thing == null && href == "" && timeRequested == ""
  }

  /** `Href`: the thing's prefix followed by `/actions/<name>/<id>`. */
  function Href(): (h: string)
    reads this
    ensures h == hrefPrefix + href
  {
    hrefPrefix + href
  }

  /** `SetHrefPrefix`: only the prefix changes. */
  method SetHrefPrefix(prefix: string)
    modifies this`hrefPrefix
    ensures hrefPrefix == prefix
  {
    hrefPrefix := prefix;
  }

  /** `SetInput`: a nil input leaves the current input in place. */
  method SetInput(newInput: Option<Bytes>)
    modifies this`input
    ensures newInput.Some? ==> input == newInput
    ensures newInput.None? ==> input == old(input)
  {
    if newInput.Some? {
      input := newInput;
    }
  }

  /** `AsActionDescription`, rendered from the current fields. */
  function AsActionDescription(): (d: Description)
    reads this
    ensures d == DescribeAction(name, input, Href(), status, timeRequested, timeCompleted)
  {
    DescribeAction(name, input, Href(), status, timeRequested, timeCompleted)
  }

  /** The message that announces the action with the given status and completion time. */
  function StatusMessage(s: string, completed: string): (m: Message)
    reads this
    ensures m.ActionStatus? && m.action.key == name
    ensures "status" in m.action.fields && m.action.fields["status"] == Text(s)
  {
    ActionStatus(DescribeAction(name, input, Href(), s, timeRequested, completed))
  }

  /**
    `Start`: status "pending" and one notification, then the perform routine,
    then `Finish`. `performFails` says whether the perform routine panics;
    the deferred `recover` swallows the panic, so `Finish` is never reached
    and the status stays "pending". Without a thing, the first notification
    itself panics and is swallowed the same way.
   */
  method Start(performFails: bool, completedAt: string)
    requires |completedAt| > 0
    modifies this`status, this`timeCompleted, {thing}`broadcasts
    ensures thing == null || performFails ==> status == StatusPending && timeCompleted == old(timeCompleted)
    ensures thing != null && performFails ==>
      thing.broadcasts == old(thing.broadcasts)
        + [Broadcast(StatusMessage(StatusPending, old(timeCompleted)), thing.subscribers)]
    ensures thing != null && !performFails ==> status == StatusCompleted && timeCompleted == completedAt
    ensures thing != null && !performFails ==>
      thing.broadcasts == old(thing.broadcasts)
        + [Broadcast(StatusMessage(StatusPending, old(timeCompleted)), thing.subscribers),
           Broadcast(StatusMessage(StatusCompleted, completedAt), thing.subscribers)]
  {
    status := StatusPending;
    if thing == null {
      return;
    }
    thing.ActionNotify(this);
    if performFails {
      return;
    }
    Finish(completedAt);
  }

  /**
    `Finish`: status "completed", the completion time, and one notification;
    id, name, input, href and request time are untouched.
   */
  method Finish(completedAt: string)
    requires thing != null && |completedAt| > 0
    modifies this`status, this`timeCompleted, thing`broadcasts
    ensures status == StatusCompleted && timeCompleted == completedAt
    ensures thing.broadcasts == old(thing.broadcasts)
      + [Broadcast(StatusMessage(StatusCompleted, completedAt), thing.subscribers)]
  {
    status := StatusCompleted;
    timeCompleted := completedAt;
    thing.ActionNotify(this);
  }

  /** `Cancel`: the action's cancel routine; its own effect is outside the model. */
  method Cancel()
    modifies this`cancelCalls
    ensures cancelCalls == old(cancelCalls) + 1
  {
    cancelCalls := cancelCalls + 1;
  }
}

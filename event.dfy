// event.go: an immutable record of something that happened on a thing.

/**
  An Event. Being a datatype value, an event is never mutated after
  construction; its fields are its accessors (`Thing`, `Name`, `Data`,
  `Time`).
 */
datatype Event = Event(thing: Thing, name: string, data: Bytes, time: string)
{
  /**
    `AsEventDescription`: `{ name: { "timestamp": time, "data": data } }`,
    with "data" omitted when the data is empty (`omitempty` on a
    `json.RawMessage`).
   */
  function AsEventDescription(): (d: Description)
    ensures d.key == name
    ensures "timestamp" in d.fields && d.fields["timestamp"] == Text(time)
    ensures "data" in d.fields <==> |data| > 0
    ensures "data" in d.fields ==> d.fields["data"] == Raw(data)
    ensures d.fields.Keys <= {"timestamp", "data"}
  {
    var fields := map["timestamp" := Text(time)];
    Description(name, if |data| > 0 then fields["data" := Raw(data)] else fields)
  }
}

/**
  `NewEvent`: the thing, name and data are stored verbatim; the timestamp,
  read from the wall clock in the source, is a parameter.
 */
function NewEvent(thing: Thing, name: string, data: Bytes, time: string): (e: Event)
  requires |time| > 0
  ensures e.thing == thing && e.name == name && e.data == data && e.time == time
{
  Event(thing, name, data, time)
}

// property.go: a named, typed value of a thing, with its href and the check a
// new value must pass.

/**
  The two fields of a property's metadata that validation reads, as
  `json.Unmarshal` into a property object yields them; `Unparsable` stands
  for metadata that does not decode.
 */
datatype PropertyMetadata = Unparsable | PropertyMetadata(primitive: string, readOnly: bool)

datatype PropertyError = MetadataError | ReadOnlyError | InvalidValueError

/**
  `validate`: whether a value has the declared primitive type (section 3.5
  of draft-zyp-json-schema-04), as far as the type switch recognises one:
  booleans, strings, Go signed integers (for "integer" and "number"), Go
  floats (for "number" only) and `go/types.Array` (for "array"). Everything
  else is rejected: nil, decoded JSON arrays and objects, other Go types and
  any other declared type name.
 */
function Validate(primitive: string, v: JsonValue): (ok: bool)
  ensures ok && primitive == "boolean" ==> v.Bool?
  ensures ok && primitive == "string" ==> v.Str?
  ensures ok && primitive == "integer" ==> v.Integer?
  ensures ok && primitive == "number" ==> v.Integer? || v.Float?
  ensures ok && primitive == "array" ==> v.TypesArray?
  ensures ok ==> primitive in {"boolean", "string", "integer", "number", "array"}
  ensures v.Bool? ==> (ok <==> primitive == "boolean")
  ensures v.Str? ==> (ok <==> primitive == "string")
  ensures v.Integer? ==> (ok <==> primitive == "integer" || primitive == "number")
  ensures v.Float? ==> (ok <==> primitive == "number")
  ensures v.TypesArray? ==> (ok <==> primitive == "array")
  ensures v.Null? || v.Array? || v.Object? || v.Opaque? ==> !ok
{
  match v
  case TypesArray(_, _) => primitive == "array"
  case Bool(_) => primitive == "boolean"
  case Str(_) => primitive == "string"
  case Integer(_, _) => primitive == "integer" || primitive == "number"
  case Float(_, _) => primitive == "number"
  case _ => false
}

/** Every value valid for "integer" is valid for "number": number includes integer. */
lemma IntegerIsNumber(v: JsonValue)
  ensures Validate("integer", v) ==> Validate("number", v)
{
}

/**
  `ValidateValue`: undecodable metadata is an error, a read-only property
  rejects every value, and otherwise the value must have the declared type.
 */
function ValidateValue(meta: PropertyMetadata, v: JsonValue): (err: Option<PropertyError>)
  ensures meta.Unparsable? ==> err == Some(MetadataError)
  ensures meta.PropertyMetadata? && meta.readOnly ==> err == Some(ReadOnlyError)
  ensures err.None? <==> meta.PropertyMetadata? && !meta.readOnly && Validate(meta.primitive, v)
{
  if meta.Unparsable? then Some(MetadataError)
  else if meta.readOnly then Some(ReadOnlyError)
  else if !Validate(meta.primitive, v) then Some(InvalidValueError)
  else None
}

/** The `*Value` pointer that `SetValue` hands to `ValidateValue` as written. */
const ValuePointer := Opaque("*webthing.Value", 0)

/**
  Validation as `SetValue` performs it in the source: the argument is the
  `*Value` wrapper itself, not the value it holds.
 */
function SetValueCheckAsWritten(meta: PropertyMetadata, candidate: JsonValue): (err: Option<PropertyError>)
  ensures err.Some?
{
  ValidateValue(meta, ValuePointer)
}

/** As written, `SetValue` fails for every property and every new value. */
lemma SetValueAsWrittenNeverSucceeds(meta: PropertyMetadata, candidate: JsonValue)
  ensures SetValueCheckAsWritten(meta, candidate).Some?
  ensures meta == PropertyMetadata("boolean", false) && candidate.Bool? ==>
    SetValueCheckAsWritten(meta, candidate) == Some(InvalidValueError) && ValidateValue(meta, candidate).None?
{
}

class Property {
  const thing: Thing
  const name: string
  var value: Value
  var hrefPrefix: string
  const href: string := "/properties/" + name
  const metadata: PropertyMetadata

  /**
    `NewProperty`: href `/properties/<name>`, no prefix, a copy of the given
    Value (Go passes the struct by value), and one property notification to
    the thing.
   */
  constructor (thing: Thing, name: string, initial: Value, metadata: PropertyMetadata)
    modifies thing`broadcasts
    ensures this.thing == thing && this.name == name && this.metadata == metadata
    ensures hrefPrefix == "" && Href() == "/properties/" + name
    ensures fresh(value) && value.lastValue == initial.lastValue && value.forwarders == initial.forwarders
    ensures thing.broadcasts == old(thing.broadcasts) + [Broadcast(PropertyStatus(metadata, "/properties/" + name), thing.subscribers)]
  {
    this.thing := thing;
    this.name := name;
    value := new Value(initial.lastValue, initial.forwarders);
    hrefPrefix := "";
    this.metadata := metadata;
    new;
    thing.PropertyNotify(this);
  }

  /** `Href`: the prefix followed by `/properties/<name>`. */
  function Href(): (h: string)
    reads this
    ensures h == hrefPrefix + "/properties/" + name
  {
    hrefPrefix + href
  }

  /** `SetHrefPrefix`: only the prefix changes. */
  method SetHrefPrefix(prefix: string)
    modifies this`hrefPrefix
    ensures hrefPrefix == prefix && Href() == prefix + "/properties/" + name
  {
    hrefPrefix := prefix;
  }

  /**
    `SetValue`, validating the value the new Value holds: on failure the
    stored Value is kept and the error returned; on success the new Value
    replaces it.
   */
  method SetValue(newValue: Value) returns (err: Option<PropertyError>)
    modifies this`value
    ensures err == ValidateValue(metadata, old(newValue.lastValue))
    ensures err.None? ==> value == newValue
    ensures err.Some? ==> value == old(value)
  {
    err := ValidateValue(metadata, newValue.lastValue);
    if err.None? {
      value := newValue;
    }
  }
}

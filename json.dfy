/**
  Values that flow through a Web Thing: the dynamic values stored behind Go's
  `interface{}` (property values), raw JSON byte strings (`json.RawMessage`:
  action inputs, event data, metadata), and the rendered descriptions that the
  thing sends to its subscribers.
 */
module Json {

  /** `json.RawMessage`: an unparsed JSON document. */
  type Bytes = seq<bv8>

  datatype Option<+T> = None | Some(value: T)

  /** Go's signed integer kinds, the ones the property validator recognises. */
  datatype IntKind = Int | Int8 | Int16 | Int32 | Int64

  datatype FloatKind = Float32 | Float64

  /**
    The dynamic value held by a Go `interface{}`. Decoded JSON produces Null,
    Bool, Float(Float64, _), Str, Array and Object; user code can store any Go
    value, for example an `int`. `TypesArray` is a value of type
    `go/types.Array`, and `Opaque` stands for any other dynamic type (a
    pointer, a struct, an unsigned integer), told apart by its type name and
    an identity.
   */
  datatype JsonValue =
    | Null
    | Bool(b: bool)
    | Integer(ikind: IntKind, i: int)
    | Float(fkind: FloatKind, f: real)
    | Str(s: string)
    | Array(elems: seq<JsonValue>)
    | Object(members: map<string, JsonValue>)
    | TypesArray(length: int, elem: nat)
    | Opaque(typeName: string, identity: nat)

  /** The dynamic type of an interface value; `NilType` for the nil interface. */
  datatype GoType =
    | NilType | BoolType | IntType(ikind: IntKind) | FloatType(fkind: FloatKind)
    | StringType | SliceType | MapType | TypesArrayType | NamedType(name: string)

  function DynamicType(v: JsonValue): GoType
  {
    match v
    case Null => NilType
    case Bool(_) => BoolType
    case Integer(k, _) => IntType(k)
    case Float(k, _) => FloatType(k)
    case Str(_) => StringType
    case Array(_) => SliceType
    case Object(_) => MapType
    case TypesArray(_, _) => TypesArrayType
    case Opaque(t, _) => NamedType(t)
  }

  datatype Comparison = Equal | Unequal | Panics

  /**
    Go's `==` on two interface values: values of different dynamic types are
    unequal (so `int` 50 differs from `float64` 50); equal dynamic types that
    are not comparable (slices, maps) make the comparison panic; otherwise the
    values are compared.
   */
  function Compare(a: JsonValue, b: JsonValue): (c: Comparison)
    ensures DynamicType(a) != DynamicType(b) ==> c == Unequal
    ensures c == Panics <==> (a.Array? && b.Array?) || (a.Object? && b.Object?)
    ensures c == Equal ==> a == b
    ensures a == b && !a.Array? && !a.Object? ==> c == Equal
  {
    if DynamicType(a) != DynamicType(b) then Unequal
    else if a.Array? || a.Object? then Panics
    else if a == b then Equal
    else Unequal
  }

  /** One entry of a rendered description object. */
  datatype Field = Text(text: string) | Raw(raw: Bytes)

  /**
    A description with exactly one top-level key: `{ key: { fields } }`, as
    action and event descriptions are rendered.
   */
  datatype Description = Description(key: string, fields: map<string, Field>)
}

// value.go: the last known value of one property, with change detection and
// the forwarder callbacks that push commanded writes to the device.

/**
  A forwarder callback (`func(interface{})`). The callback's effect on the
  device is outside the model; what is modelled is which forwarder was
  called, with which value, in which order.
 */
datatype Forwarder = Forwarder(id: nat)

/** The calls that commanded write `v` makes: every forwarder once, in order. */
function ForwarderCalls(fs: seq<Forwarder>, v: JsonValue): (calls: seq<(Forwarder, JsonValue)>)
  ensures |calls| == |fs|
  ensures forall k :: 0 <= k < |fs| ==> calls[k] == (fs[k], v)
{
  seq(|fs|, k requires 0 <= k < |fs| => (fs[k], v))
}

/**
  The last value after an external update with `v`: a nil update is ignored,
  so is a value equal to the current one, and so is one whose comparison
  panics (the panic leaves the field unassigned); any other value is stored.
 */
function UpdatedValue(last: JsonValue, v: JsonValue): (r: JsonValue)
  ensures v.Null? ==> r == last
  ensures r != last ==> r == v && !v.Null? && Compare(v, last) == Unequal
  ensures !v.Null? && Compare(v, last) == Unequal ==> r == v
{
  if !v.Null? && Compare(v, last) == Unequal then v else last
}

/** Whether an external update with `v` panics: comparing two slices or two maps. */
predicate UpdatePanics(last: JsonValue, v: JsonValue)
{
  !v.Null? && Compare(v, last) == Panics
}

/** Repeating an external update changes nothing the second time. */
lemma UpdateIdempotent(last: JsonValue, v: JsonValue)
  ensures UpdatedValue(UpdatedValue(last, v), v) == UpdatedValue(last, v)
{
}

/** Nil is never stored: a stored nil can only be the initial value. */
lemma UpdateNeverStoresNil(last: JsonValue, v: JsonValue)
  requires !last.Null?
  ensures !UpdatedValue(last, v).Null?
{
}

class Value {
  /** `lastValue`: Null stands for the nil interface. */
  var lastValue: JsonValue
  /** `valueForwarder`: no method of Value replaces the slice. */
  const forwarders: seq<Forwarder>
  /** The forwarder calls made so far, oldest first. */
  var forwarded: seq<(Forwarder, JsonValue)>

  /** `NewValue(initialValue, valueForwarder...)`. */
  constructor (initial: JsonValue, forwarders: seq<Forwarder>)
    ensures lastValue == initial && this.forwarders == forwarders && forwarded == []
  {
    lastValue := initial;
    this.forwarders := forwarders;
    forwarded := [];
  }

  /** `Get`: the last known value (Null before any value was stored). */
  function Get(): (v: JsonValue)
    reads this
    ensures v == lastValue
  {
    lastValue
  }

  /**
    `NotifyOfExternalUpdate`: stores `v` only when it is non-nil and differs
    from the current value. `panicked` reports Go's run-time panic on
    comparing two uncomparable values; the value is then left unchanged.
   */
  method NotifyOfExternalUpdate(v: JsonValue) returns (panicked: bool)
    modifies this`lastValue
    ensures lastValue == UpdatedValue(old(lastValue), v)
    ensures panicked == UpdatePanics(old(lastValue), v)
  {
    panicked := false;
    if !v.Null? {
      var c := Compare(v, lastValue);
      if c == Panics {
        panicked := true;
      } else if c == Unequal {
        lastValue := v;
      }
    }
  }

  /**
    `Set`: a commanded write. Every forwarder is called once with `v`, in
    slice order, whatever `v` is; then the write behaves as an external
    update.
   */
  method Set(v: JsonValue) returns (panicked: bool)
    modifies this`lastValue, this`forwarded
    ensures forwarded == old(forwarded) + ForwarderCalls(forwarders, v)
    ensures lastValue == UpdatedValue(old(lastValue), v)
    ensures panicked == UpdatePanics(old(lastValue), v)
  {
    var i := 0;
    while i < |forwarders|
      invariant 0 <= i <= |forwarders|
      invariant forwarded == old(forwarded) + ForwarderCalls(forwarders[..i], v)
      invariant lastValue == old(lastValue)
    {
      forwarded := forwarded + [(forwarders[i], v)];
      i := i + 1;
    }
    assert forwarders[..i] == forwarders;
    panicked := NotifyOfExternalUpdate(v);
  }
}

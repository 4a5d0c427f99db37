/**
  The change-detection helpers: each compares a field's current value with
  the value it was loaded with. A null on one side only is a change, nulls on
  both sides are not; when both sides are present each helper has its own
  comparison.
 */
module ChangeDetection {
  import opened Wrappers
  import opened JsValues

  /** A Date's `getTime()`: milliseconds, or `None` (NaN) for an invalid date. */
  type Time = Number

  /** Something that can say whether it was edited: the result of its `changed()`. */
  datatype Changeable = Changeable(changed: bool)

  /** `a != b` on JavaScript numbers: NaN differs from everything, itself included. */
  predicate NumbersDiffer(a: Number, b: Number) {
    a.None? || b.None? || a.value != b.value
  }

  /** hasDateChanged. `parseDate(s)` stands for `new Date(s).getTime()`. The
      date is unchanged exactly when both sides are null, or when both are
      present and denote the same valid instant. */
  function HasDateChanged(value: Option<Time>, original: Option<string>, parseDate: string -> Time): (r: bool)
    ensures !r <==> (value.None? && original.None?) ||
                    (value.Some? && original.Some? && value.value.Some? && value.value == parseDate(original.value))
  {
    if value.None? then original.Some?
    else if original.None? then true
    else NumbersDiffer(value.value, parseDate(original.value))
  }

  /** hasObjectChanged: a change of null-ness, or a present object that reports a change. */
  function HasObjectChanged<T>(value: Option<Changeable>, original: Option<T>): (r: bool)
    ensures r <==> value.None? != original.None? || (value.Some? && value.value.changed)
  {
    if value.None? then original.Some?
    else if original.None? then true
    else value.value.changed
  }

  /** `items.some(v => v.changed())`, scanning from the front. */
  function AnyChanged(items: seq<Changeable>): (r: bool)
    ensures r <==> exists i :: 0 <= i < |items| && items[i].changed
    decreases |items|
  {
    if items == [] then false
    else if items[0].changed then true
    else
      var r := AnyChanged(items[1..]);
      assert forall i :: 1 <= i < |items| ==> items[i] == items[1..][i - 1];
      r
  }

  /** hasArrayOfObjectsChanged: a change of null-ness, a change of length, or
      an element that reports a change. */
  function HasArrayOfObjectsChanged<T>(value: Option<seq<Changeable>>, original: Option<seq<T>>): (r: bool)
    ensures r <==> value.None? != original.None? ||
                   (value.Some? && original.Some? &&
                    (|value.value| != |original.value| || exists i :: 0 <= i < |value.value| && value.value[i].changed))
  {
    if value.None? then original.Some?
    else if original.None? then true
    else |value.value| != |original.value| || AnyChanged(value.value)
  }

  /** `a.some((v, i) => v != b[i])` on two arrays of the same length, scanning from the front. */
  function AnyDiffers(a: seq<Value>, b: seq<Value>): (r: bool)
    requires |a| == |b|
    ensures r <==> exists i :: 0 <= i < |a| && !LooseEquals(a[i], b[i])
    decreases |a|
  {
    if a == [] then false
    else if !LooseEquals(a[0], b[0]) then true
    else
      var r := AnyDiffers(a[1..], b[1..]);
      assert forall i :: 1 <= i < |a| ==> a[i] == a[1..][i - 1] && b[i] == b[1..][i - 1];
      r
  }

  /** hasArrayChanged: a change of null-ness, a change of length, or an index
      whose elements are not loosely equal (`!=`). */
  function HasArrayChanged(value: Option<seq<Value>>, original: Option<seq<Value>>): (r: bool)
    ensures r <==> value.None? != original.None? ||
                   (value.Some? && original.Some? &&
                    !(|value.value| == |original.value| &&
                      forall i :: 0 <= i < |value.value| ==> LooseEquals(value.value[i], original.value[i])))
  {
    if value.None? then original.Some?
    else if original.None? then true
    else |value.value| != |original.value| || AnyDiffers(value.value, original.value)
  }

  /** All four helpers treat null the same way: null on both sides is no
      change, null on exactly one side is a change. */
  lemma NullHandlingAgrees<T>(parseDate: string -> Time, d: Time, s: string, o: Changeable, t: T,
                              os: seq<Changeable>, ts: seq<T>, vs: seq<Value>)
    ensures !HasDateChanged(None, None, parseDate) && HasDateChanged(None, Some(s), parseDate) &&
            HasDateChanged(Some(d), None, parseDate)
    ensures !HasObjectChanged<T>(None, None) && HasObjectChanged(None, Some(t)) &&
            HasObjectChanged<T>(Some(o), None)
    ensures !HasArrayOfObjectsChanged<T>(None, None) && HasArrayOfObjectsChanged(None, Some(ts)) &&
            HasArrayOfObjectsChanged<T>(Some(os), None)
    ensures !HasArrayChanged(None, None) && HasArrayChanged(None, Some(vs)) && HasArrayChanged(Some(vs), None)
  {
  }

  /** Comparing two arrays does not depend on which one is the current value,
      and an array compared with itself is unchanged. */
  lemma HasArrayChangedSymmetricReflexive(a: Option<seq<Value>>, b: Option<seq<Value>>)
    ensures HasArrayChanged(a, b) == HasArrayChanged(b, a)
    ensures !HasArrayChanged(a, a)
  {
    if a.Some? && b.Some? && |a.value| == |b.value| {
      forall i | 0 <= i < |a.value|
        ensures LooseEquals(a.value[i], b.value[i]) == LooseEquals(b.value[i], a.value[i])
      {
        LooseEqualsReflexiveSymmetric(a.value[i], b.value[i]);
      }
    }
    if a.Some? {
      forall i | 0 <= i < |a.value|
        ensures LooseEquals(a.value[i], a.value[i])
      {
        LooseEqualsReflexiveSymmetric(a.value[i], a.value[i]);
      }
    }
  }

  /** On arrays of strings the helper reports exactly sequence inequality. */
  lemma StringArraysChangedIffDifferent(a: seq<Value>, b: seq<Value>)
    requires forall i :: 0 <= i < |a| ==> a[i].Str?
    requires forall i :: 0 <= i < |b| ==> b[i].Str?
    ensures HasArrayChanged(Some(a), Some(b)) <==> a != b
  {
    if |a| == |b| {
      forall i | 0 <= i < |a|
        ensures LooseEquals(a[i], b[i]) <==> a[i] == b[i]
      {
        LooseEqualsSameKind(a[i], b[i]);
      }
      if forall i :: 0 <= i < |a| ==> a[i] == b[i] {
        assert a == b;
      }
    }
  }

  /** With mixed types the loose comparison hides a change: the number 1
      replaced by the string "1" is not reported. */
  lemma LooseComparisonHidesTypeChange()
    ensures !HasArrayChanged(Some([Num(1)]), Some([Str("1")]))
  {
    ToNumberOfNumberToString(1);
    assert NumberToString(1) == "1";
  }
}

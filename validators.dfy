/**
  The predicate validators. Each one turns the current value of the field it
  watches into an error message, or `None` when the value is acceptable. The
  reactive wrapper that recomputes them when the value changes is not modelled:
  each validator is a function of the value it reads.
 */
module Validators {
  import opened Wrappers
  import opened JsValues
  import opened Messages

  /** The strings `/^\S+@\S+\.\S+$/` accepts: no white space anywhere, and a
      split into a + "@" + b + "." + c with a, b and c non-empty (an `@` or a
      `.` may also occur inside a, b or c). */
  ghost predicate EmailPattern(s: string) {
    && (forall k :: 0 <= k < |s| ==> !IsSpace(s[k]))
    && exists i, j :: 0 < i && i + 1 < j && j + 1 < |s| && s[i] == '@' && s[j] == '.'
  }

  /** The first index at or after `from` that holds `c`, if there is one. */
  function IndexOf(s: string, c: char, from: nat): (r: Option<nat>)
    ensures r.None? ==> forall k :: from <= k < |s| ==> s[k] != c
    ensures r.Some? ==> from <= r.value < |s| && s[r.value] == c
    ensures r.Some? ==> forall k :: from <= k < r.value ==> s[k] != c
    decreases |s| - from
  {
    if from >= |s| then None
    else if s[from] == c then Some(from)
    else IndexOf(s, c, from + 1)
  }

  /** A decision procedure for `EmailPattern`: take the first `@` after the
      first character, then the first `.` at least two characters after it. */
  predicate MatchesEmail(s: string) {
    && (forall k :: 0 <= k < |s| ==> !IsSpace(s[k]))
    && match IndexOf(s, '@', 1)
       case None => false
       case Some(i) =>
         match IndexOf(s, '.', i + 2)
         case None => false
         case Some(j) => j + 1 < |s|
  }

  lemma MatchesEmailIffPattern(s: string)
    ensures MatchesEmail(s) <==> EmailPattern(s)
  {
    if EmailPattern(s) {
      var i, j :| 0 < i && i + 1 < j && j + 1 < |s| && s[i] == '@' && s[j] == '.';
      var at := IndexOf(s, '@', 1);
      assert at.Some? && at.value <= i;
      var dot := IndexOf(s, '.', at.value + 2);
      assert dot.Some? && dot.value <= j;
    }
    if MatchesEmail(s) {
      var i := IndexOf(s, '@', 1).value;
      var j := IndexOf(s, '.', i + 2).value;
      assert 0 < i && i + 1 < j && j + 1 < |s| && s[i] == '@' && s[j] == '.';
    }
  }

  /** A number's decimal string has no `@`, so it never looks like an e-mail. */
  lemma NumberIsNotEmail(n: int)
    ensures !EmailPattern(NumberToString(n))
  {
    var s := NumberToString(n);
    assert forall k :: 0 <= k < |s| ==> s[k] != '@';
  }

  /** Of all values converted to strings, only strings can look like an e-mail:
      "null" and a number's digits have no `@`. */
  lemma OnlyStringsLookLikeEmail(v: Value)
    ensures EmailPattern(ToString(v)) ==> v.Str?
  {
    if v.Num? {
      NumberIsNotEmail(v.n);
    } else if v.Null? {
      var s := ToString(v);
      assert forall k :: 0 <= k < |s| ==> s[k] != '@';
    }
  }

  /** isEmail: the value, converted to a string as `RegExp.test` does, must
      match the e-mail pattern. Only a string can. */
  function IsEmail(m: MessageTable, v: Value): (r: Option<string>)
    ensures r.None? <==> v.Str? && EmailPattern(v.s)
    ensures r.Some? ==> r.value == m.email
  {
    var s := ToString(v);
    MatchesEmailIffPattern(s);
    OnlyStringsLookLikeEmail(v);
    if MatchesEmail(s) then None else Some(m.email)
  }

  /** isRequired as the bundled build has it: `value == null || value === ""`.
      Every falsy value fails except the number 0. */
  function IsRequiredStrict(m: MessageTable, v: Value): (r: Option<string>)
    ensures r.Some? <==> !Truthy(v) && v != Num(0)
    ensures r.Some? ==> r.value == m.required
  {
    if LooseEquals(v, Null) || v == Str("") then Some(m.required) else None
  }

  /** isRequired as the module sources have it: `value == null || value == ""`.
      The loose comparison makes the number 0 equal to "", so exactly the falsy
      values fail. */
  function IsRequiredLoose(m: MessageTable, v: Value): (r: Option<string>)
    ensures r.Some? <==> !Truthy(v)
    ensures r.Some? ==> r.value == m.required
  {
    if LooseEquals(v, Null) || LooseEquals(v, Str("")) then Some(m.required) else None
  }

  /** The two isRequired variants disagree on exactly one value: the number 0. */
  lemma RequiredVariantsDifferOnlyOnZero(m: MessageTable, v: Value)
    ensures IsRequiredStrict(m, v) != IsRequiredLoose(m, v) <==> v == Num(0)
  {
  }

  /** JavaScript's `length` of a string: the number of UTF-16 code units, so a
      character above U+FFFF (stored as a surrogate pair) counts twice. */
  function Utf16Length(s: string): (r: nat)
    ensures r >= |s|
    ensures (forall k :: 0 <= k < |s| ==> s[k] <= '\U{FFFF}') ==> r == |s|
    decreases |s|
  {
    if s == [] then 0
    else (if s[0] > '\U{FFFF}' then 2 else 1) + Utf16Length(s[1..])
  }

  /** `value.length` as a number: a string's UTF-16 length; `undefined` (NaN) for a number. */
  function Length(v: Value): Number {
    if v.Str? then Some(Utf16Length(v.s)) else None
  }

  /** hasMinLength: a falsy value, or a string shorter than `minLength` (in
      UTF-16 code units), fails with the minimum-length message. A non-zero number has no length and passes. */
  function HasMinLength(m: MessageTable, minLength: int, v: Value): (r: Option<string>)
    ensures r.Some? <==> !Truthy(v) || (v.Str? && Utf16Length(v.s) < minLength)
    ensures r.Some? ==> r.value == Format(m.minLength, NumberToString(minLength))
  {
    if !Truthy(v) || Less(Length(v), Some(minLength)) then
      Some(Format(m.minLength, NumberToString(minLength)))
    else None
  }

  /** hasMaxLength: a falsy value, or a string longer than `maxLength` (in
      UTF-16 code units), fails
      with the maximum-length message. The empty string fails too. */
  function HasMaxLength(m: MessageTable, maxLength: int, v: Value): (r: Option<string>)
    ensures r.Some? <==> !Truthy(v) || (v.Str? && Utf16Length(v.s) > maxLength)
    ensures r.Some? ==> r.value == Format(m.maxLength, NumberToString(maxLength))
  {
    if !Truthy(v) || Less(Some(maxLength), Length(v)) then
      Some(Format(m.maxLength, NumberToString(maxLength)))
    else None
  }

  /** isAtLeast: a falsy value (0 included), or one whose number is below `min`,
      fails with the minimum-value message. A value that is not a number passes. */
  function IsAtLeast(m: MessageTable, min: int, v: Value): (r: Option<string>)
    ensures r.None? <==> Truthy(v) && (ToNumeric(v).None? || min <= ToNumeric(v).value)
    ensures r.Some? ==> r.value == Format(m.minValue, NumberToString(min))
  {
    if !Truthy(v) || Less(ToNumeric(v), Some(min)) then
      Some(Format(m.minValue, NumberToString(min)))
    else None
  }

  /** isAtMost: a falsy value (0 included), or one whose number is above `max`,
      fails with the maximum-value message. */
  function IsAtMost(m: MessageTable, max: int, v: Value): (r: Option<string>)
    ensures r.None? <==> Truthy(v) && (ToNumeric(v).None? || ToNumeric(v).value <= max)
    ensures r.Some? ==> r.value == Format(m.maxValue, NumberToString(max))
  {
    if !Truthy(v) || Less(Some(max), ToNumeric(v)) then
      Some(Format(m.maxValue, NumberToString(max)))
    else None
  }

  /** isInRange: the lower bound is checked first (a falsy value counts as below
      it), then the upper bound; a value that fails both reports only the lower one. */
  function IsInRange(m: MessageTable, min: int, max: int, v: Value): (r: Option<string>)
    ensures r.None? <==> Truthy(v) && (ToNumeric(v).None? || min <= ToNumeric(v).value <= max)
    ensures !Truthy(v) || Less(ToNumeric(v), Some(min)) ==>
      r == Some(Format(m.minValue, NumberToString(min)))
  {
    if !Truthy(v) || Less(ToNumeric(v), Some(min)) then
      Some(Format(m.minValue, NumberToString(min)))
    else if Less(Some(max), ToNumeric(v)) then
      Some(Format(m.maxValue, NumberToString(max)))
    else None
  }

  /** isInRange behaves as isAtLeast followed by isAtMost, reporting the first
      of the two that fails. */
  lemma InRangeIsAtLeastThenAtMost(m: MessageTable, min: int, max: int, v: Value)
    ensures IsInRange(m, min, max, v) ==
      if IsAtLeast(m, min, v).Some? then IsAtLeast(m, min, v) else IsAtMost(m, max, v)
  {
  }

  /** areSame: the value must be loosely equal (`==`) to the other field's value. */
  function AreSame(m: MessageTable, v: Value, other: Value): (r: Option<string>)
    ensures r.None? <==> LooseEquals(v, other)
    ensures r.Some? ==> r.value == m.areSame
  {
    if LooseEquals(v, other) then None else Some(m.areSame)
  }

  /** areSame does not depend on which of the two fields carries the validator,
      accepts a field compared with itself, and on two strings is exact equality. */
  lemma AreSameSymmetricReflexive(m: MessageTable, a: Value, b: Value)
    ensures AreSame(m, a, b) == AreSame(m, b, a)
    ensures AreSame(m, a, a) == None
    ensures a.Str? && b.Str? ==> (AreSame(m, a, b).None? <==> a == b)
  {
    LooseEqualsReflexiveSymmetric(a, b);
    if a.Str? && b.Str? {
      LooseEqualsSameKind(a, b);
    }
  }

  /** A number and its decimal string are "the same" for areSame. */
  lemma AreSameNumberAndString(m: MessageTable, n: int)
    ensures AreSame(m, Num(n), Str(NumberToString(n))) == None
  {
    LooseEqualsNumberAndItsString(n);
  }
}

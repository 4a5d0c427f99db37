/**
  The part of JavaScript's value semantics that the validators depend on:
  truthiness, loose equality (`==`), the conversion of a string to a number
  and of a number to a string, and `<` / `>` on numbers.
  Numbers are unbounded integers here; `None` in a `Number` stands for NaN.
  JavaScript's numbers are doubles: they lose integer precision above 2^53,
  and `String(n)` switches to exponent form from 1e21. Neither is modelled.
 */
module JsValues {
  import opened Wrappers

  /** A field value. `Null` stands for both `null` and `undefined`. */
  datatype Value = Null | Str(s: string) | Num(n: int)

  /** A JavaScript number as an unbounded integer; `None` is NaN. A double
      rounds an integer above 2^53, which this type does not. */
  type Number = Option<int>

  /** JavaScript truthiness: `null`, `undefined`, `""` and `0` are falsy. */
  predicate Truthy(v: Value) {
    match v
    case Null => false
    case Str(s) => s != ""
    case Num(n) => n != 0
  }

  /** The characters `\s` matches in a JavaScript regular expression; the same
      set (WhiteSpace and LineTerminator) is what string-to-number conversion trims. */
  predicate IsSpace(c: char) {
    || c == '\t' || c == '\n' || c == '\U{000B}' || c == '\U{000C}' || c == '\r'
    || c == ' ' || c == '\U{00A0}' || c == '\U{1680}'
    || ('\U{2000}' <= c <= '\U{200A}')
    || c == '\U{2028}' || c == '\U{2029}' || c == '\U{202F}' || c == '\U{205F}'
    || c == '\U{3000}' || c == '\U{FEFF}'
  }

  predicate IsDigit(c: char) {
    '0' <= c <= '9'
  }

  predicate AllDigits(s: string) {
    forall k :: 0 <= k < |s| ==> IsDigit(s[k])
  }

  /** The string without its leading and trailing white space. */
  function Trim(s: string): (r: string)
    ensures r == "" || (!IsSpace(r[0]) && !IsSpace(r[|r| - 1]))
    ensures s != "" && !IsSpace(s[0]) && !IsSpace(s[|s| - 1]) ==> r == s
    decreases |s|
  {
    if s == [] then s
    else if IsSpace(s[0]) then Trim(s[1..])
    else if IsSpace(s[|s| - 1]) then Trim(s[..|s| - 1])
    else s
  }

  /** The value of a non-empty run of decimal digits, most significant first. */
  function DigitsValue(s: string): nat
    requires AllDigits(s)
    decreases |s|
  {
    if s == [] then 0
    else DigitsValue(s[..|s| - 1]) * 10 + (s[|s| - 1] as int - '0' as int)
  }

  /**
    JavaScript's `Number(s)` for the strings this model can represent: white space
    around the number is ignored, an empty or all-blank string is 0, and an optional
    sign may precede the decimal digits. Anything else (fractions, exponents,
    hexadecimal, `Infinity`) is NaN here.
   */
  function ToNumber(s: string): Number {
    var t := Trim(s);
    if t == "" then Some(0)
    else if (t[0] == '-' || t[0] == '+') && |t| > 1 && AllDigits(t[1..]) then
      Some(if t[0] == '-' then -(DigitsValue(t[1..]) as int) else DigitsValue(t[1..]))
    else if AllDigits(t) then Some(DigitsValue(t))
    else None
  }

  function DigitChar(d: nat): (c: char)
    requires d < 10
    ensures IsDigit(c) && c as int - '0' as int == d
  {
    ('0' as int + d) as char
  }

  /** The decimal digits of a natural number, without leading zeros. */
  function NatToString(n: nat): (r: string)
    ensures r != "" && AllDigits(r)
    decreases n
  {
    if n < 10 then [DigitChar(n)] else NatToString(n / 10) + [DigitChar(n % 10)]
  }

  /** JavaScript's `String(n)` for an integer below 1e21 in magnitude, exact
      here for every integer; JavaScript prints 1e21 and above in exponent form. */
  function NumberToString(n: int): (r: string)
    ensures r != ""
    ensures forall k :: 0 <= k < |r| ==> IsDigit(r[k]) || r[k] == '-'
  {
    if n < 0 then "-" + NatToString(-n) else NatToString(n)
  }

  lemma {:induction false} DigitsOfNatToString(n: nat)
    ensures DigitsValue(NatToString(n)) == n
    decreases n
  {
    if n >= 10 {
      var s := NatToString(n);
      assert s[..|s| - 1] == NatToString(n / 10);
      DigitsOfNatToString(n / 10);
    }
  }

  /** Converting a number to a string and back gives the number again. */
  lemma ToNumberOfNumberToString(n: int)
    ensures ToNumber(NumberToString(n)) == Some(n)
  {
    var s := NumberToString(n);
    assert Trim(s) == s;
    if n < 0 {
      assert s[1..] == NatToString(-n);
      DigitsOfNatToString(-n);
    } else {
      DigitsOfNatToString(n);
    }
  }

  /** JavaScript's `String(v)`. */
  function ToString(v: Value): string {
    match v
    case Null => "null"
    case Str(s) => s
    case Num(n) => NumberToString(n)
  }

  /** The number a value converts to before `<` or `>` compares it with a
      number. `Null` gives 0, which is what `null` converts to; `undefined`
      would give NaN. No caller reaches this case: every comparison in the
      validators sits behind a `!value()` guard, which rejects both. */
  function ToNumeric(v: Value): Number {
    match v
    case Null => Some(0)
    case Str(s) => ToNumber(s)
    case Num(n) => Some(n)
  }

  /** `a < b` on JavaScript numbers: false whenever either side is NaN. */
  predicate Less(a: Number, b: Number) {
    a.Some? && b.Some? && a.value < b.value
  }

  /** JavaScript's abstract equality `a == b`. */
  predicate LooseEquals(a: Value, b: Value) {
    match (a, b)
    case (Null, Null) => true
    case (Null, _) => false
    case (_, Null) => false
    case (Str(x), Str(y)) => x == y
    case (Num(x), Num(y)) => x == y
    case (Num(x), Str(y)) => ToNumber(y) == Some(x)
    case (Str(x), Num(y)) => ToNumber(x) == Some(y)
  }

  /** Loose equality is reflexive on these values (there is no NaN among them) and symmetric. */
  lemma LooseEqualsReflexiveSymmetric(a: Value, b: Value)
    ensures LooseEquals(a, a)
    ensures LooseEquals(a, b) == LooseEquals(b, a)
  {
  }

  /** On two strings, or on two numbers, loose equality is plain equality. */
  lemma LooseEqualsSameKind(a: Value, b: Value)
    requires (a.Str? && b.Str?) || (a.Num? && b.Num?)
    ensures LooseEquals(a, b) <==> a == b
  {
  }

  /** A number is loosely equal to its own decimal string. */
  lemma LooseEqualsNumberAndItsString(n: int)
    ensures LooseEquals(Num(n), Str(NumberToString(n)))
  {
    ToNumberOfNumberToString(n);
  }
}

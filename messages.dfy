/**
  The error-message templates and the `{0}` formatter that fills them in.
  The library keeps the templates in one process-wide table that the host
  application may overwrite; here the table is an immutable record passed to
  whoever needs it.
 */
module Messages {
  import opened Wrappers

  /** One template per validator kind. */
  datatype MessageTable = MessageTable(
    email: string,
    required: string,
    minLength: string,
    maxLength: string,
    minValue: string,
    maxValue: string,
    areSame: string)

  /** The table the library ships with. */
  const DefaultMessages := MessageTable(
    "Wrong e-mail format",
    "Required field",
    "At least {0} characters long",
    "At most {0} characters long",
    "At least {0}",
    "At most {0}",
    "The two fields must be identical")

  /** The placeholder `{0}` starts at index `k` of `f`. */
  predicate PlaceholderAt(f: string, k: int) {
    0 <= k && k + 3 <= |f| && f[k] == '{' && f[k + 1] == '0' && f[k + 2] == '}'
  }

  /** The first placeholder at or after `from`, if there is one. */
  function FindPlaceholder(f: string, from: nat): (r: Option<nat>)
    ensures r.None? ==> forall k :: from <= k ==> !PlaceholderAt(f, k)
    ensures r.Some? ==> from <= r.value && PlaceholderAt(f, r.value)
    ensures r.Some? ==> forall k :: from <= k < r.value ==> !PlaceholderAt(f, k)
    decreases |f| - from
  {
    if from + 3 > |f| then None
    else if PlaceholderAt(f, from) then Some(from)
    else FindPlaceholder(f, from + 1)
  }

  /**
    `f.replace("{0}", a)`: the first placeholder of `f`, and only that one, is
    replaced by `a`; a template without a placeholder comes back unchanged.
    (`a` is always a number's decimal string here, so the `$` patterns of
    JavaScript's `replace` never arise.)
   */
  function Format(f: string, a: string): (r: string)
    ensures (forall k :: !PlaceholderAt(f, k)) ==> r == f
    ensures forall k :: PlaceholderAt(f, k) && (forall j :: 0 <= j < k ==> !PlaceholderAt(f, j)) ==>
      r == f[..k] + a + f[k + 3..]
  {
    match FindPlaceholder(f, 0)
    case None => f
    case Some(k) => f[..k] + a + f[k + 3..]
  }

  /** Only the first placeholder is replaced: the text before it and everything
      after it, later placeholders included, are kept verbatim. */
  lemma FormatKeepsPrefixAndSuffix(p: string, a: string, q: string)
    requires forall j :: !PlaceholderAt(p, j)
    ensures Format(p + "{0}" + q, a) == p + a + q
  {
    var f := p + "{0}" + q;
    assert PlaceholderAt(f, |p|);
    forall j | 0 <= j < |p|
      ensures !PlaceholderAt(f, j)
    {
      if j + 3 <= |p| {
        assert !PlaceholderAt(p, j);
      }
    }
    assert f[..|p|] == p;
    assert f[|p| + 3..] == q;
  }

  /** The shipped minimum-length message with a concrete length filled in. */
  lemma FormatDefaultMinLength(n: string)
    ensures Format(DefaultMessages.minLength, n) == "At least " + n + " characters long"
  {
    var p := "At least ";
    forall j ensures !PlaceholderAt(p, j) {
      if 0 <= j < |p| {
        assert p[j] != '{';
      }
    }
    assert DefaultMessages.minLength == p + "{0}" + " characters long";
    FormatKeepsPrefixAndSuffix(p, n, " characters long");
  }
}

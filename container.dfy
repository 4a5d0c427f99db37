/**
  The validable container (validableObservable): an observable value with an
  append-only, ordered list of attached validators, and three values derived
  from them: the aggregated error message (the first truthy one, in attachment
  order), the aggregated "validating" flag (true if any validator's flag is),
  and "valid" (neither). The reactive graph is replaced by the current state
  of the heap: a derived value is a function of the objects it reads.
 */
module Container {
  import opened Wrappers
  import opened JsValues
  import opened Messages
  import Validators
  import opened AsyncValidator

  /** A plain observable: one mutable value. */
  class Cell {
    var value: Value

    constructor(initial: Value)
      ensures value == initial
    {
      value := initial;
    }
  }

  /** The validator factories that only read the container's own value. */
  datatype Rule =
    | IsEmail
    | IsRequired(loose: bool)
    | HasMinLength(minLength: int)
    | HasMaxLength(maxLength: int)
    | IsInRange(min: int, max: int)
    | IsAtLeast(min: int)
    | IsAtMost(max: int)

  /** A validator as the container holds it: a rule on its own value, an
      equality check against another observable, or a service validator with
      its own cells. */
  datatype Validator =
    | Check(rule: Rule)
    | AreSame(other: Cell)
    | Service(service: ServiceValidator)

  /** One validator's observables read at one moment: its error message, and
      its validating flag when it has one. */
  datatype Status = Status(errorMessage: Option<string>, validating: Option<bool>)

  /** The error message a rule gives for a value. `loose` selects the `==`
      variant of isRequired (the module sources) over the `===` one (the bundled build). */
  function Evaluate(m: MessageTable, rule: Rule, v: Value): Option<string> {
    match rule
    case IsEmail => Validators.IsEmail(m, v)
    case IsRequired(loose) =>
      if loose then Validators.IsRequiredLoose(m, v) else Validators.IsRequiredStrict(m, v)
    case HasMinLength(n) => Validators.HasMinLength(m, n, v)
    case HasMaxLength(n) => Validators.HasMaxLength(m, n, v)
    case IsInRange(min, max) => Validators.IsInRange(m, min, max, v)
    case IsAtLeast(min) => Validators.IsAtLeast(m, min, v)
    case IsAtMost(max) => Validators.IsAtMost(m, max, v)
  }

  /** The objects a validator reads besides the container. */
  function Refs(v: Validator): set<object> {
    match v
    case Check(_) => {}
    case AreSame(other) => {other}
    case Service(service) => {service}
  }

  /** The current observables of one validator attached to a container whose
      value is `x`. Only a service validator has a validating flag. */
  function StatusOf(m: MessageTable, v: Validator, x: Value): Status
    reads Refs(v)
  {
    match v
    case Check(rule) => Status(Evaluate(m, rule, x), None)
    case AreSame(other) => Status(Validators.AreSame(m, x, other.value), None)
    case Service(service) => Status(service.errorMessage, Some(service.validating))
  }

  /** JavaScript truthiness of a `string | null` error message. */
  predicate IsError(e: Option<string>) {
    e.Some? && e.value != ""
  }

  /** The aggregated error message: the first truthy message in attachment
      order; `None` when no validator reports one (null and "" are skipped). */
  function FirstError(ss: seq<Status>): (r: Option<string>)
    ensures r.None? <==> forall i :: 0 <= i < |ss| ==> !IsError(ss[i].errorMessage)
    ensures r.Some? ==> IsError(r)
    ensures r.Some? ==> exists i :: 0 <= i < |ss| && ss[i].errorMessage == r &&
                                   forall j :: 0 <= j < i ==> !IsError(ss[j].errorMessage)
    decreases |ss|
  {
    if ss == [] then None
    else if IsError(ss[0].errorMessage) then ss[0].errorMessage
    else
      var r := FirstError(ss[1..]);
      assert forall i :: 1 <= i < |ss| ==> ss[i] == ss[1..][i - 1];
      r
  }

  /** The aggregated error is the message of the first validator that has a
      truthy one. */
  lemma {:induction false} FirstErrorAt(ss: seq<Status>, i: nat)
    requires i < |ss| && IsError(ss[i].errorMessage)
    requires forall j :: 0 <= j < i ==> !IsError(ss[j].errorMessage)
    ensures FirstError(ss) == ss[i].errorMessage
    decreases i
  {
    if i > 0 {
      FirstErrorAt(ss[1..], i - 1);
    }
  }

  /** The aggregated validating flag: some validator has a flag and it is set. */
  function AnyValidating(ss: seq<Status>): (r: bool)
    ensures r <==> exists i :: 0 <= i < |ss| && ss[i].validating == Some(true)
    decreases |ss|
  {
    if ss == [] then false
    else if ss[0].validating == Some(true) then true
    else
      var r := AnyValidating(ss[1..]);
      assert forall i :: 1 <= i < |ss| ==> ss[i] == ss[1..][i - 1];
      r
  }

  /** Attaching a validator never changes an error already reported: the new
      validator's message shows only when none of the earlier ones has one. */
  lemma {:induction false} FirstErrorAppend(ss: seq<Status>, s: Status)
    ensures FirstError(ss + [s]) ==
      if FirstError(ss).Some? then FirstError(ss)
      else if IsError(s.errorMessage) then s.errorMessage
      else None
    decreases |ss|
  {
    if ss != [] {
      assert (ss + [s])[1..] == ss[1..] + [s];
      FirstErrorAppend(ss[1..], s);
    }
  }

  /** Attaching a validator adds its flag to the aggregated validating flag. */
  lemma {:induction false} AnyValidatingAppend(ss: seq<Status>, s: Status)
    ensures AnyValidating(ss + [s]) == (AnyValidating(ss) || s.validating == Some(true))
    decreases |ss|
  {
    if ss != [] {
      assert (ss + [s])[1..] == ss[1..] + [s];
      AnyValidatingAppend(ss[1..], s);
    }
  }

  class ValidableObservable {
    /** The wrapped observable holding the field's value. */
    const observable: Cell
    /** The message table the attached rules read. */
    const messages: MessageTable
    /** The attached validators, in attachment order. */
    var validators: seq<Validator>

    /** Every object the attached validators read. */
    ghost function Dependencies(): set<object>
      reads this
    {
      set v, o | v in validators && o in Refs(v) :: o
    }

    /** The current observables of every attached validator, in attachment order. */
    function Statuses(): (ss: seq<Status>)
      reads this, observable, Dependencies()
      ensures |ss| == |validators|
      ensures forall i :: 0 <= i < |ss| ==> ss[i] == StatusOf(messages, validators[i], observable.value)
    {
      seq(|validators|, i requires 0 <= i < |validators| reads this, observable, Dependencies() =>
        StatusOf(messages, validators[i], observable.value))
    }

    /** A new container around `initial`, with no validators: no error and not validating. */
    constructor(messages: MessageTable, initial: Value)
      ensures this.messages == messages && observable.value == initial && validators == []
      ensures fresh(observable)
      ensures FirstError(Statuses()) == None && !AnyValidating(Statuses())
    {
      this.messages := messages;
      observable := new Cell(initial);
      validators := [];
    }

    /** Appends `v` after the validators already attached and returns the
        container itself, so that calls can be chained. */
    method AddValidator(v: Validator) returns (self: ValidableObservable)
      modifies this
      ensures self == this
      ensures validators == old(validators) + [v]
      ensures Statuses() == old(Statuses()) + [StatusOf(messages, v, observable.value)]
    {
      validators := validators + [v];
      self := this;
    }

    /** The aggregated error message, scanning the validators in order and
        stopping at the first truthy message. */
    method ErrorMessage() returns (error: Option<string>)
      ensures error == FirstError(Statuses())
    {
      ghost var ss := Statuses();
      var i := 0;
      while i < |validators|
        invariant 0 <= i <= |validators|
        invariant forall j :: 0 <= j < i ==> !IsError(ss[j].errorMessage)
      {
        var e := StatusOf(messages, validators[i], observable.value).errorMessage;
        if IsError(e) {
          FirstErrorAt(ss, i);
          return e;
        }
        i := i + 1;
      }
      return None;
    }

    /** The aggregated validating flag, scanning the validators in order and
        stopping at the first whose flag is set; validators without one count as false. */
    method Validating() returns (validating: bool)
      ensures validating == AnyValidating(Statuses())
    {
      ghost var ss := Statuses();
      var i := 0;
      while i < |validators|
        invariant 0 <= i <= |validators|
        invariant forall j :: 0 <= j < i ==> ss[j].validating != Some(true)
      {
        var flag := StatusOf(messages, validators[i], observable.value).validating;
        if flag.Some? && flag.value {
          return true;
        }
        i := i + 1;
      }
      return false;
    }

    /** valid: not validating and no error, that is, no attached validator
        reports a truthy message or has its flag set. */
    method Valid() returns (valid: bool)
      ensures valid <==> !AnyValidating(Statuses()) && FirstError(Statuses()).None?
      ensures valid <==> forall i :: 0 <= i < |validators| ==>
        !IsError(Statuses()[i].errorMessage) && Statuses()[i].validating != Some(true)
    {
      var validating := Validating();
      var error := ErrorMessage();
      valid := !validating && !IsError(error);
    }
  }
}

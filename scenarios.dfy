/**
  Concrete cases of the validators and of the container with the shipped
  message table, including the ones where the code's JavaScript semantics
  decide the outcome (0 and "" as falsy values, the empty string and
  hasMaxLength).
 */
module Scenarios {
  import opened Wrappers
  import opened JsValues
  import opened Messages
  import opened Validators
  import Container
  import opened AsyncValidator

  lemma EmailCases()
    ensures IsEmail(DefaultMessages, Str("a@b.co")) == None
    ensures IsEmail(DefaultMessages, Str("a b@c.com")) == Some("Wrong e-mail format")
    ensures IsEmail(DefaultMessages, Str("abc")) == Some("Wrong e-mail format")
  {
    var good := "a@b.co";
    assert good[1] == '@' && good[3] == '.';
    var spaced := "a b@c.com";
    assert IsSpace(spaced[1]);
    var plain := "abc";
    assert forall k :: 0 <= k < |plain| ==> plain[k] != '@';
  }

  lemma RequiredCases()
    ensures IsRequiredStrict(DefaultMessages, Str("")) == Some("Required field")
    ensures IsRequiredStrict(DefaultMessages, Null) == Some("Required field")
    ensures IsRequiredStrict(DefaultMessages, Num(0)) == None
    ensures IsRequiredStrict(DefaultMessages, Str("x")) == None
    ensures IsRequiredLoose(DefaultMessages, Num(0)) == Some("Required field")
  {
  }

  /** The message is the template with the bound filled in (its text is given
      by Messages.FormatDefaultMinLength). */
  lemma MinLengthCases()
    ensures HasMinLength(DefaultMessages, 3, Str("ab")) == Some(Format(DefaultMessages.minLength, "3"))
    ensures HasMinLength(DefaultMessages, 3, Str("abc")) == None
    ensures HasMinLength(DefaultMessages, 3, Str("")) == Some(Format(DefaultMessages.minLength, "3"))
  {
    assert NumberToString(3) == "3";
  }

  /** The empty string fails hasMaxLength: the code tests falsiness first. */
  lemma MaxLengthCases()
    ensures HasMaxLength(DefaultMessages, 3, Str("abcd")).Some?
    ensures HasMaxLength(DefaultMessages, 3, Str("abc")) == None
    ensures HasMaxLength(DefaultMessages, 3, Str("")).Some?
  {
  }

  /** A character above U+FFFF counts as two, as JavaScript's `length` counts it. */
  lemma AstralLengthCases()
    ensures HasMinLength(DefaultMessages, 2, Str("\U{1F600}")) == None
    ensures HasMaxLength(DefaultMessages, 1, Str("\U{1F600}")).Some?
  {
    assert Utf16Length("\U{1F600}") == 2;
  }

  lemma RangeCases()
    ensures IsInRange(DefaultMessages, 1, 10, Num(0)) == Some(Format("At least {0}", "1"))
    ensures IsInRange(DefaultMessages, 1, 10, Num(11)) == Some(Format("At most {0}", "10"))
    ensures IsInRange(DefaultMessages, 1, 10, Num(5)) == None
    ensures IsInRange(DefaultMessages, -5, 5, Num(0)).Some?
  {
    assert NumberToString(1) == "1";
    assert NatToString(10) == NatToString(1) + [DigitChar(0)];
    assert NumberToString(10) == "10";
  }

  /** Two failing validators: the first attached is the one reported. */
  method FirstAttachedWins()
  {
    var c := new Container.ValidableObservable(DefaultMessages, Str(""));
    var _ := c.AddValidator(Container.Check(Container.IsRequired(false)));
    var _ := c.AddValidator(Container.Check(Container.HasMinLength(3)));
    var e := c.ErrorMessage();
    assert c.Statuses()[0].errorMessage == Some("Required field");
    assert e == Some("Required field");
  }

  /** A service call in flight makes the container not valid until it completes. */
  method ValidatingUntilResolved()
  {
    var c := new Container.ValidableObservable(DefaultMessages, Str("abcd"));
    var s := new ServiceValidator();
    var _ := c.AddValidator(Container.Service(s));
    s.OnChange();
    var busy := c.Validating();
    assert c.Statuses()[0].validating == Some(true);
    assert busy;
    s.OnResolve(None);
    var valid := c.Valid();
    assert c.Statuses()[0] == Container.Status(None, Some(false));
    assert valid;
  }
}

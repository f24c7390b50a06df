/**
 The form component's state, `formData` and `errors`, and its two event
 handlers. Each handler call is one atomic update of that state.
 */
module RegistrationForm {
  import opened Wrappers
  import opened Validation
  import opened JsString
  import EmailPattern

  class Form {
    /** `formData`: the four current input values. */
    var formData: FormValues
    /** `errors`: the messages of the last rejected submit, or none. */
    var errors: Errors
    /** The values of the last rejected submit, whose messages `errors` shows. */
    ghost var rejected: FormValues

    /** The shown messages are either none or exactly the validator's verdict on
        the values of the last rejected submit; so every shown message is its own
        field's message. */
    ghost predicate Valid()
      reads this
      ensures Valid() ==> WellFormed(errors)
    {
      errors == map[] || errors == ValidateForm(rejected)
    }

    /** `useState({ username: '', ... })` and `useState({})`. */
    constructor ()
      ensures Valid()
      ensures formData == EmptyForm() && errors == map[]
    {
      formData := EmptyForm();
      errors := map[];
      rejected := EmptyForm();
    }

    /** `handleChange`: input `name` now holds `value`; the other three inputs
        and the shown messages stay as they were. */
    method HandleChange(name: Field, value: string)
      requires Valid()
      modifies this
      ensures Valid()
      ensures rejected == old(rejected)
      ensures formData == old(formData).With(name, value)
      ensures formData.Get(name) == value
      ensures forall g | g != name :: formData.Get(g) == old(formData).Get(g)
      ensures errors == old(errors)
    {
      formData := formData.With(name, value);
    }

    /** `handleSubmit`: validate the current values. With no errors the values
        are emitted (the logged submission) and the form is cleared; otherwise
        the validator's messages replace the shown ones and nothing typed is lost. */
    method HandleSubmit() returns (submitted: Option<FormValues>)
      requires Valid()
      modifies this
      ensures Valid()
      ensures old(ValidateForm(formData)) == map[] ==>
        submitted == Some(old(formData)) && formData == EmptyForm() && errors == map[]
      ensures old(ValidateForm(formData)) != map[] ==>
        submitted == None && formData == old(formData) && errors == ValidateForm(formData)
        && rejected == formData
      ensures submitted.Some? ==> forall f :: FieldValid(submitted.value, f)
    {
      var errs := ValidateForm(formData);
      if errs == map[] {
        AcceptedIffAllValid(formData);
        submitted := Some(formData);
        formData := EmptyForm();
        errors := map[];
      } else {
        submitted := None;
        errors := errs;
        rejected := formData;
      }
    }

    /** The message shown under input f, if any (`helperText={errors[f]}`). */
    function ErrorFor(f: Field): (m: Option<string>)
      reads this
      requires Valid()
      ensures m.Some? <==> f in errors
      ensures m.Some? ==> m.value == Message(f)
    {
      if f in errors then Some(errors[f]) else None
    }
  }

  /** A user types the four values of an accepted form and submits: the values
      are emitted exactly as typed. */
  method AcceptedSubmission() returns (submitted: Option<FormValues>)
    ensures submitted == Some(FormValues("alice", "alice@example.com", "secret1", "secret1"))
  {
    var form := new Form();
    form.HandleChange(Username, "alice");
    form.HandleChange(Email, "alice@example.com");
    form.HandleChange(Password, "secret1");
    form.HandleChange(ConfirmPassword, "secret1");
    assert form.formData == FormValues("alice", "alice@example.com", "secret1", "secret1");
    ScenarioAllValid();
    submitted := form.HandleSubmit();
  }

  /** A rejected submit keeps what was typed: fixing the one bad input and
      submitting again goes through with the other three values untouched. */
  method CorrectAndResubmit() returns (first: Option<FormValues>, second: Option<FormValues>)
    ensures first == None
    ensures second == Some(FormValues("bob", "bob@x.y", "abcdef", "abcdef"))
  {
    var form := new Form();
    form.HandleChange(Username, "bob");
    form.HandleChange(Email, "bob@x.y");
    form.HandleChange(Password, "abc");
    form.HandleChange(ConfirmPassword, "abcdef");
    ghost var d := form.formData;
    assert d == FormValues("bob", "bob@x.y", "abc", "abcdef");
    assert Utf16Length(d.password) == 3;
    PasswordRules(d);
    first := form.HandleSubmit();
    form.HandleChange(Password, "abcdef");
    assert form.formData == FormValues("bob", "bob@x.y", "abcdef", "abcdef");
    ScenarioLongerPassword();
    second := form.HandleSubmit();
  }
}

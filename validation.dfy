/**
 The registration form's values and its validator `validateForm`: four
 independent rules, each adding a fixed message under its field's name when
 the field is invalid. A valid field has no entry at all.
 */
module Validation {
  import opened JsString
  import EmailPattern

  /** The four inputs of the form; their `name` attributes are
      username, email, password and confirmPassword. */
  datatype Field = Username | Email | Password | ConfirmPassword

  /** The form data record `{ username, email, password, confirmPassword }`. */
  datatype FormValues = FormValues(username: string, email: string, password: string, confirmPassword: string)
  {
    /** `formData[name]` */
    function Get(f: Field): string {
      match f
      case Username => username
      case Email => email
      case Password => password
      case ConfirmPassword => confirmPassword
    }

    /** `{ ...formData, [name]: value }`: the named field takes the new value,
        every other field keeps its own. */
    function With(f: Field, value: string): (r: FormValues)
      ensures r.Get(f) == value
      ensures forall g | g != f :: r.Get(g) == Get(g)
    {
      match f
      case Username => this.(username := value)
      case Email => this.(email := value)
      case Password => this.(password := value)
      case ConfirmPassword => this.(confirmPassword := value)
    }
  }

  /** The initial and reset value of the form: every field is the empty string. */
  function EmptyForm(): (v: FormValues)
    ensures forall f :: v.Get(f) == ""
  {
    FormValues("", "", "", "")
  }

  /** Field name to message; a field without an entry is valid. */
  type Errors = map<Field, string>

  /** The fixed message each rule reports. */
  function Message(f: Field): (m: string)
    ensures m != ""
  {
    match f
    case Username => "Username is required"
    case Email => "Email address is invalid"
    case Password => "Password must be at least 6 characters long"
    case ConfirmPassword => "Passwords do not match"
  }

  /** Every entry of e carries its own field's message. */
  ghost predicate WellFormed(e: Errors) {
    forall f | f in e :: e[f] == Message(f)
  }

  /** What each rule accepts, stated on the field's value rather than on the
      checks `validateForm` evaluates. */
  ghost predicate FieldValid(d: FormValues, f: Field) {
    match f
    case Username => !AllWs(d.username)
    case Email => EmailPattern.Matches(d.email)
    case Password => Utf16Length(d.password) >= 6
    case ConfirmPassword => d.password == d.confirmPassword
  }

  /** The check `validateForm` applies to field f: `data.username.trim()` is
      non-empty, the email passes the pattern test, `data.password.length >= 6`,
      and `data.password === data.confirmPassword`. Each accepts exactly what
      its rule means to accept. */
  function Passes(d: FormValues, f: Field): (ok: bool)
    ensures ok <==> FieldValid(d, f)
  {
    match f
    case Username => Trim(d.username) != []
    case Email => EmailPattern.Test(d.email)
    case Password => Utf16Length(d.password) >= 6
    case ConfirmPassword => d.password == d.confirmPassword
  }

  /** `validateForm(data)`: exactly the invalid fields have an entry, and each
      entry is that field's message. */
  function ValidateForm(d: FormValues): (errs: Errors)
    ensures forall f :: f in errs <==> !FieldValid(d, f)
    ensures WellFormed(errs)
  {
    var errs := map f | f in {Username, Email, Password, ConfirmPassword} && !Passes(d, f) :: Message(f);
    assert forall f :: f in errs <==> !Passes(d, f);
    errs
  }

  /** Submission goes ahead (the error map is empty) exactly when all four rules accept. */
  lemma AcceptedIffAllValid(d: FormValues)
    ensures ValidateForm(d) == map[] <==> forall f :: FieldValid(d, f)
  {
  }

  /** No entry is ever the empty string, so a valid field cannot show up as "". */
  lemma NoEmptyMessages(d: FormValues, f: Field)
    requires f in ValidateForm(d)
    ensures ValidateForm(d)[f] != ""
  {
  }

  /** Changing one field changes the verdict on that field only, except that the
      password also decides the confirmPassword rule. */
  lemma RulesAreIndependent(d: FormValues, f: Field, value: string, g: Field)
    requires g != f
    requires f == Password ==> g != ConfirmPassword
    ensures g in ValidateForm(d.With(f, value)) <==> g in ValidateForm(d)
  {
  }

  /** The length and the match rules are checked separately: a short password that
      differs from its confirmation gets both messages, and two equal short
      passwords get only the length message. */
  lemma PasswordRules(d: FormValues)
    requires Utf16Length(d.password) < 6
    ensures Password in ValidateForm(d)
    ensures ConfirmPassword in ValidateForm(d) <==> d.password != d.confirmPassword
  {
  }

  /** When exactly the fields in fs fail their checks, the validator reports
      exactly those fields, each with its message. */
  lemma OnlyFailingFields(d: FormValues, fs: set<Field>)
    requires forall f :: f in fs <==> !Passes(d, f)
    ensures ValidateForm(d) == map f | f in fs :: Message(f)
  {
  }

  /** A rejected form: every rule fails and every message is reported. */
  lemma ScenarioAllInvalid()
    ensures ValidateForm(FormValues("", "bad", "123", "456")) ==
      map[Username := "Username is required", Email := "Email address is invalid",
          Password := "Password must be at least 6 characters long",
          ConfirmPassword := "Passwords do not match"]
  {
    var d := FormValues("", "bad", "123", "456");
    EmailPattern.NoAtNoMatch(d.email);
    assert Utf16Length(d.password) == 3;
    OnlyFailingFields(d, {Username, Email, Password, ConfirmPassword});
  }

  /** An accepted form: no message at all. */
  lemma ScenarioAllValid()
    ensures ValidateForm(FormValues("alice", "alice@example.com", "secret1", "secret1")) == map[]
  {
    var d := FormValues("alice", "alice@example.com", "secret1", "secret1");
    EmailPattern.AcceptedExamples();
    assert !IsWs(d.username[0]);
    assert Utf16Length(d.password) == 7;
    AcceptedIffAllValid(d);
  }

  /** Equal short passwords: only the length message. */
  lemma ScenarioShortPassword()
    ensures ValidateForm(FormValues("bob", "bob@x.y", "abc", "abc")) ==
      map[Password := "Password must be at least 6 characters long"]
  {
    var d := FormValues("bob", "bob@x.y", "abc", "abc");
    EmailPattern.AcceptedExamples();
    assert !IsWs(d.username[0]);
    assert Utf16Length(d.password) == 3;
    OnlyFailingFields(d, {Password});
  }

  /** The same form with a six-character password: no message at all. */
  lemma ScenarioLongerPassword()
    ensures ValidateForm(FormValues("bob", "bob@x.y", "abcdef", "abcdef")) == map[]
  {
    var d := FormValues("bob", "bob@x.y", "abcdef", "abcdef");
    EmailPattern.AcceptedExamples();
    assert !IsWs(d.username[0]);
    assert Utf16Length(d.password) == 6;
    OnlyFailingFields(d, {});
  }
}

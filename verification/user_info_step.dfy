/** The first wizard step, `src/components/employee/steps/UserInfoStep.jsx`:
    a login-account form whose submission creates the user and moves the
    wizard on to the employee details. */
module UserInfoForm {
  import opened Wrappers
  import opened Json
  import opened Http
  import opened FormRules
  import opened HtmlEmail
  import opened Constants
  import opened Wizard

  /** The form's values. */
  datatype UserForm = UserForm(
    username: string, email: string, password: string, confirmPassword: string,
    firstName: string, lastName: string, isAdmin: bool)

  /** The form's `defaultValues`. */
  const DefaultForm: UserForm := UserForm("", "", "", "", "", "", false)

  const RequiredMessage: string := "Ce champ est requis"
  const UsernameMessage: string := "Format de nom d'utilisateur invalide"
  const EmailMessage: string := "Adresse email invalide"
  const PasswordLengthMessage: string := "8 caractères minimum"
  const MismatchMessage: string := "Les mots de passe ne correspondent pas"
  const FallbackMessage: string := "Une erreur est survenue"

  const NameRules: Rules := Rules(Some(RequiredMessage), None, None, None)
  const UsernameRules: Rules := Rules(Some(RequiredMessage), None, Some(PatternRule(UsernamePattern, UsernameMessage)), None)
  const EmailRules: Rules := Rules(Some(RequiredMessage), None, Some(PatternRule(EmailPattern, EmailMessage)), None)
  const PasswordRules: Rules := Rules(Some(RequiredMessage), Some(Limit(8, PasswordLengthMessage)), None, None)

  /** `validatePasswordMatch`: the confirmation must equal the password
      currently in the form. */
  function ConfirmRules(password: string): Rules
  {
    Rules(Some(RequiredMessage), None, None, Some(SameAs(password, MismatchMessage)))
  }

  /** The messages `handleSubmit` reports, by field name; empty when the
      form may be submitted. `isAdmin` has no rule. */
  function FormErrors(f: UserForm): map<string, string>
  {
    var m := WithError(map[], "firstName", FieldError(NameRules, f.firstName));
    var m := WithError(m, "lastName", FieldError(NameRules, f.lastName));
    var m := WithError(m, "username", FieldError(UsernameRules, f.username));
    var m := WithError(m, "email", FieldError(EmailRules, f.email));
    var m := WithError(m, "password", FieldError(PasswordRules, f.password));
    WithError(m, "confirmPassword", FieldError(ConfirmRules(f.password), f.confirmPassword))
  }

  /** The error map is empty exactly when no field has a message. */
  lemma FormErrorsEmptyIff(f: UserForm)
    ensures FormErrors(f) == map[] <==>
      FieldError(NameRules, f.firstName).None? && FieldError(NameRules, f.lastName).None? &&
      FieldError(UsernameRules, f.username).None? && FieldError(EmailRules, f.email).None? &&
      FieldError(PasswordRules, f.password).None? &&
      FieldError(ConfirmRules(f.password), f.confirmPassword).None?
  {
    var e1 := WithError(map[], "firstName", FieldError(NameRules, f.firstName));
    var e2 := WithError(e1, "lastName", FieldError(NameRules, f.lastName));
    var e3 := WithError(e2, "username", FieldError(UsernameRules, f.username));
    var e4 := WithError(e3, "email", FieldError(EmailRules, f.email));
    var e5 := WithError(e4, "password", FieldError(PasswordRules, f.password));
    var e6 := WithError(e5, "confirmPassword", FieldError(ConfirmRules(f.password), f.confirmPassword));
    assert e6 == FormErrors(f);
    // A field's message, once recorded, survives the later fields.
    assert e1.Keys <= e2.Keys <= e3.Keys <= e4.Keys <= e5.Keys <= e6.Keys;
    if FieldError(NameRules, f.firstName).Some? { assert "firstName" in e6; }
    if FieldError(NameRules, f.lastName).Some? { assert "lastName" in e6; }
    if FieldError(UsernameRules, f.username).Some? { assert "username" in e6; }
    if FieldError(EmailRules, f.email).Some? { assert "email" in e6; }
    if FieldError(PasswordRules, f.password).Some? { assert "password" in e6; }
    if FieldError(ConfirmRules(f.password), f.confirmPassword).Some? { assert "confirmPassword" in e6; }
  }

  /** The form is accepted exactly when both names are filled in, the
      username uses only `[a-zA-Z0-9._-]`, the email matches the expression,
      the password is at least eight UTF-16 code units long and the
      confirmation repeats it. */
  lemma FormValidIff(f: UserForm)
    ensures FormErrors(f) == map[] <==>
      f.firstName != "" && f.lastName != "" &&
      f.username != "" && AllUsernameChars(f.username) &&
      EmailRegexMatches(f.email) &&
      Utf16Length(f.password) >= 8 && f.confirmPassword == f.password
  {
    FormErrorsEmptyIff(f);
    EmailMatchesIff(f.email);
    assert FieldError(EmailRules, f.email).None? <==> EmailMatches(f.email);
    assert FieldError(PasswordRules, f.password).None? <==> Utf16Length(f.password) >= 8;
  }

  /** `minLength` counts code units, not characters: four emoji make a long
      enough password. */
  lemma AstralPasswordLongEnough()
    ensures FieldError(PasswordRules, "\U{1F600}\U{1F600}\U{1F600}\U{1F600}").None?
  {
    var p := "\U{1F600}\U{1F600}\U{1F600}\U{1F600}";
    assert Utf16Length(p[..1]) == 2 by { assert p[..1][..0] == []; }
    assert Utf16Length(p[..2]) == 4 by { assert p[..2][..1] == p[..1]; }
    assert Utf16Length(p[..3]) == 6 by { assert p[..3][..2] == p[..2]; }
    assert Utf16Length(p) == 8 by { assert p[..3] == p[..|p| - 1]; }
  }

  /** A mismatched confirmation is reported with its own message, unless it
      is empty, when `required` speaks first. */
  lemma MismatchReported(f: UserForm)
    requires f.confirmPassword != f.password
    ensures "confirmPassword" in FormErrors(f)
    ensures FormErrors(f)["confirmPassword"] == if f.confirmPassword == "" then RequiredMessage else MismatchMessage
  {
  }

  /** The browser's check of the email field, an `<input type="email">` in
      a form without `noValidate`: a non-empty value must be a valid e-mail
      address before the submit event fires at all. An empty value is left
      to the form's own `required` rule. */
  predicate BrowserAccepts(f: UserForm)
  {
    f.email == "" || HtmlEmailValid(f.email)
  }

  /** What gets through both checks: an address the browser takes as valid
      that also matches the form's expression. */
  lemma PostedEmailPassesBoth(f: UserForm)
    requires BrowserAccepts(f) && FormErrors(f) == map[]
    ensures HtmlEmailValid(f.email) && EmailRegexMatches(f.email)
  {
    FormValidIff(f);
  }

  /** The body posted to create the user: the fields under snake_case names
      and `is_employee` always `true`. */
  function CreateUserBody(f: UserForm): (body: Json)
    ensures body.JObj? && "is_employee" in body.fields && body.fields["is_employee"] == JBool(true)
    ensures body.JObj? && forall k :: k in body.fields ==> body.fields[k].JStr? || body.fields[k].JBool?
  {
    JObj(map[
      "username" := JStr(f.username),
      "email" := JStr(f.email),
      "password" := JStr(f.password),
      "confirm_password" := JStr(f.confirmPassword),
      "first_name" := JStr(f.firstName),
      "last_name" := JStr(f.lastName),
      "is_admin" := JBool(f.isAdmin),
      "is_employee" := JBool(true)
    ])
  }

  /** Reads a form back from a request body, as the server would. */
  function FormOfBody(body: Json): Option<UserForm>
  {
    if !body.JObj? then None
    else
      var m := body.fields;
      if "username" in m && m["username"].JStr? && "email" in m && m["email"].JStr? &&
         "password" in m && m["password"].JStr? && "confirm_password" in m && m["confirm_password"].JStr? &&
         "first_name" in m && m["first_name"].JStr? && "last_name" in m && m["last_name"].JStr? &&
         "is_admin" in m && m["is_admin"].JBool?
      then Some(UserForm(m["username"].s, m["email"].s, m["password"].s, m["confirm_password"].s,
                         m["first_name"].s, m["last_name"].s, m["is_admin"].b))
      else None
  }

  /** The body carries every field of the form, nothing is lost in the
      renaming, and it always declares an employee account. */
  lemma CreateUserBodyRoundTrip(f: UserForm)
    ensures FormOfBody(CreateUserBody(f)) == Some(f)
    ensures CreateUserBody(f).fields["is_employee"] == JBool(true)
    ensures |CreateUserBody(f).fields| == 8
  {
    var m := CreateUserBody(f).fields;
    assert m.Keys == {"username", "email", "password", "confirm_password", "first_name", "last_name", "is_admin", "is_employee"};
  }

  /** The step's state; `requests` and `callbacks` record, in order, the
      posts it issued and the calls it made on the wizard. */
  class UserInfoStep {
    var loading: bool
    var error: string
    var fieldErrors: map<string, string>
    var requests: seq<Request>
    var callbacks: seq<Callback>

    constructor()
      ensures !loading && error == "" && fieldErrors == map[] && requests == [] && callbacks == []
    {
      loading := false;
      error := "";
      fieldErrors := map[];
      requests := [];
      callbacks := [];
    }

    /** Submitting the form. An address the browser refuses stops the
        submission before the page sees it: nothing changes. Otherwise an
        invalid form only reports its field errors. A valid one is posted;
        on success the new user is handed to the wizard and the wizard
        moves to the employee details, on failure the server's message (or
        a fallback) is shown and the step stays. */
    method Submit(form: UserForm, reply: Reply)
      modifies this
      ensures !BrowserAccepts(form) ==>
        fieldErrors == old(fieldErrors) && requests == old(requests) && callbacks == old(callbacks) &&
        loading == old(loading) && error == old(error)
      ensures BrowserAccepts(form) && FormErrors(form) != map[] ==>
        fieldErrors == FormErrors(form) && requests == old(requests) && callbacks == old(callbacks) &&
        loading == old(loading) && error == old(error)
      ensures BrowserAccepts(form) && FormErrors(form) == map[] ==>
        fieldErrors == map[] && !loading &&
        requests == old(requests) + [Post(ApiBaseUrl + CreateUserPath, CreateUserBody(form))]
      ensures BrowserAccepts(form) && FormErrors(form) == map[] && reply.Resolved? ==>
        error == "" && callbacks == old(callbacks) + [OnUpdate(map["user" := reply.data]), OnComplete(EmployeeInfo)]
      ensures BrowserAccepts(form) && FormErrors(form) == map[] && reply.Rejected? ==>
        error == ErrorText(reply.body, "message", FallbackMessage) && error != "" && callbacks == old(callbacks)
    {
      if !BrowserAccepts(form) {
        return;
      }
      var errors := FormErrors(form);
      fieldErrors := errors;
      if errors != map[] {
        return;
      }
      loading := true;
      error := "";
      requests := requests + [Post(ApiBaseUrl + CreateUserPath, CreateUserBody(form))];
      match reply {
        case Resolved(data) =>
          callbacks := callbacks + [OnUpdate(map["user" := data])];
          callbacks := callbacks + [OnComplete(EmployeeInfo)];
        case Rejected(_, body) =>
          error := ErrorText(body, "message", FallbackMessage);
      }
      loading := false;
    }
  }
}

/** The shop's registration form: `validateForm` collects one message per
    failing field into an error dictionary, and the submit handler calls
    `register` only when that dictionary is empty. */
module RegisterForm {
  import AuthReducer
  import opened Wrappers

  /** `\s` of a JavaScript regular expression: the white-space and
      line-terminator characters. */
  predicate IsSpace(c: char) {
    var n := c as int;
    || 0x09 <= n <= 0x0D || n == 0x20 || n == 0xA0 || n == 0x1680
    || 0x2000 <= n <= 0x200A || n == 0x2028 || n == 0x2029 || n == 0x202F
    || n == 0x205F || n == 0x3000 || n == 0xFEFF
  }

  /** `s[i..j]` is a non-empty run of `\S`. */
  predicate NonSpaceRun(s: string, i: nat, j: nat) {
    i < j <= |s| && forall k :: i <= k < j ==> !IsSpace(s[k])
  }

  /** `s[a..e]` is a match: a run of `\S`, '@', a run of `\S`, '.', a run
      of `\S`. */
  predicate MatchAt(s: string, a: nat, b: nat, c: nat, e: nat) {
    && NonSpaceRun(s, a, b) && b < |s| && s[b] == '@'
    && NonSpaceRun(s, b + 1, c) && c < |s| && s[c] == '.'
    && NonSpaceRun(s, c + 1, e)
  }

  /** `/\S+@\S+\.\S+/.test(s)`: the pattern is not anchored, so it is enough
      that some substring `s[a..e]` has the shape. */
  predicate EmailPattern(s: string) {
    exists a: nat, b: nat, c: nat, e: nat | a < b < c < e <= |s| :: MatchAt(s, a, b, c, e)
  }

  /** Because the pattern is not anchored, text around a match does not
      spoil it. */
  lemma EmailPatternExtend(p: string, s: string, q: string)
    requires EmailPattern(s)
    ensures EmailPattern(p + s + q)
  {
    var a: nat, b: nat, c: nat, e: nat :| a < b < c < e <= |s| && MatchAt(s, a, b, c, e);
    var t, n := p + s + q, |p|;
    RunShift(p, s, q, a, b);
    RunShift(p, s, q, b + 1, c);
    RunShift(p, s, q, c + 1, e);
    assert t[n + b] == s[b] && t[n + c] == s[c];
    assert MatchAt(t, n + a, n + b, n + c, n + e);
  }

  lemma RunShift(p: string, s: string, q: string, i: nat, j: nat)
    requires NonSpaceRun(s, i, j)
    ensures NonSpaceRun(p + s + q, |p| + i, |p| + j)
  {
    var t := p + s + q;
    forall k | |p| + i <= k < |p| + j
      ensures !IsSpace(t[k])
    {
      assert t[k] == s[k - |p|];
    }
  }

  /** `"a@b.c"` matches; a string without '@' never does. */
  lemma EmailPatternExamples(s: string)
    ensures EmailPattern("a@b.c")
    ensures '@' !in s ==> !EmailPattern(s)
  {
    var t := "a@b.c";
    assert MatchAt(t, 0, 1, 3, 5);
    if EmailPattern(s) {
      var a: nat, b: nat, c: nat, e: nat :| a < b < c < e <= |s| && MatchAt(s, a, b, c, e);
      assert s[b] in s;
    }
  }

  /** `password.length`: UTF-16 code units, two for a character beyond the
      Basic Multilingual Plane. */
  function Utf16Length(s: string): (n: nat)
    ensures |s| <= n <= 2 * |s|
  {
    if |s| == 0 then 0 else (if s[0] as int > 0xFFFF then 2 else 1) + Utf16Length(s[1..])
  }

  const MinPasswordLength: nat := 6

  /** The five inputs of the form. */
  datatype Form = Form(username: string, email: string, password: string, confirmPassword: string, acceptTerms: bool)

  /** The form passes every rule. */
  predicate Acceptable(form: Form) {
    && form.username != ""
    && form.email != "" && EmailPattern(form.email)
    && form.password != "" && Utf16Length(form.password) >= MinPasswordLength
    && form.password == form.confirmPassword
    && form.acceptTerms
  }

  /** The keys of the error dictionary, one per input. */
  datatype Field = Username | Email | Password | ConfirmPassword | AcceptTerms

  const FieldCount: nat := 5

  /** The order in which `validateForm` checks the fields. */
  function Position(f: Field): (n: nat)
    ensures n < FieldCount
  {
    match f
    case Username => 0
    case Email => 1
    case Password => 2
    case ConfirmPassword => 3
    case AcceptTerms => 4
  }

  function FieldAt(n: nat): (f: Field)
    requires n < FieldCount
    ensures Position(f) == n
  {
    if n == 0 then Username
    else if n == 1 then Email
    else if n == 2 then Password
    else if n == 3 then ConfirmPassword
    else AcceptTerms
  }

  /** The rule for one field: the message `validateForm` records for it, the
      required check before the format or length check. */
  function FieldError(f: Field, form: Form): Option<string> {
    match f
    case Username => if form.username == "" then Some("Username is required") else None
    case Email =>
      if form.email == "" then Some("Email is required")
      else if !EmailPattern(form.email) then Some("Email is invalid")
      else None
    case Password =>
      if form.password == "" then Some("Password is required")
      else if Utf16Length(form.password) < MinPasswordLength then Some("Password must be at least 6 characters")
      else None
    case ConfirmPassword =>
      if form.password != form.confirmPassword then Some("Passwords do not match") else None
    case AcceptTerms =>
      if !form.acceptTerms then Some("You must accept the terms and conditions") else None
  }

  /** No field has a message exactly when the form passes every rule. */
  lemma {:induction false} NoErrorsIffAcceptable(form: Form)
    ensures (forall f :: FieldError(f, form).None?) <==> Acceptable(form)
  {
    if !Acceptable(form) {
      if form.username == "" {
        assert FieldError(Username, form).Some?;
      } else if form.email == "" || !EmailPattern(form.email) {
        assert FieldError(Email, form).Some?;
      } else if form.password == "" || Utf16Length(form.password) < MinPasswordLength {
        assert FieldError(Password, form).Some?;
      } else if form.password != form.confirmPassword {
        assert FieldError(ConfirmPassword, form).Some?;
      } else {
        assert FieldError(AcceptTerms, form).Some?;
      }
    }
  }

  /** `errors` holds, for each of the first `done` fields, exactly the
      message its rule gives, and nothing else. */
  predicate Recorded(errors: map<Field, string>, done: nat, form: Form) {
    forall f :: && (f in errors <==> Position(f) < done && FieldError(f, form).Some?)
                && (f in errors ==> errors[f] == FieldError(f, form).value)
  }

  /** The dictionary `validateForm` has built once it has checked the first
      `done` fields. */
  function ErrorsUpTo(done: nat, form: Form): (errors: map<Field, string>)
    requires done <= FieldCount
    ensures Recorded(errors, done, form)
  {
    if done == 0 then map[]
    else
      var f := FieldAt(done - 1);
      var e := FieldError(f, form);
      if e.Some? then ErrorsUpTo(done - 1, form)[f := e.value] else ErrorsUpTo(done - 1, form)
  }

  /** A dictionary that records every field's message is empty exactly when
      the form passes every rule. */
  lemma EmptyIffAcceptable(errors: map<Field, string>, form: Form)
    requires Recorded(errors, FieldCount, form)
    ensures errors == map[] <==> Acceptable(form)
  {
    NoErrorsIffAcceptable(form);
    if errors != map[] {
      var f :| f in errors;
    }
  }

  /** The form's state: its five inputs and the errors last shown. */
  class RegisterFormState {
    var username: string
    var email: string
    var password: string
    var confirmPassword: string
    var acceptTerms: bool
    var formErrors: map<Field, string>

    function Inputs(): Form
      reads this
    {
      Form(username, email, password, confirmPassword, acceptTerms)
    }

    constructor ()
      ensures Inputs() == Form("", "", "", "", false) && formErrors == map[]
    {
      username, email, password, confirmPassword := "", "", "", "";
      acceptTerms := false;
      formErrors := map[];
    }

    /** `validateForm`: one message per failing field, the required check
        before the format or length check; `valid` holds exactly when no
        message was recorded, that is, when the form passes every rule. */
    method ValidateForm() returns (valid: bool)
      modifies this`formErrors
      ensures formErrors == ErrorsUpTo(FieldCount, Inputs())
      ensures Recorded(formErrors, FieldCount, Inputs())
      ensures valid <==> formErrors == map[]
      ensures valid <==> Acceptable(Inputs())
    {
      var errors: map<Field, string> := map[];
      if username == "" {
        errors := errors[Username := "Username is required"];
      }
      assert errors == ErrorsUpTo(1, Inputs());
      if email == "" {
        errors := errors[Email := "Email is required"];
      } else if !EmailPattern(email) {
        errors := errors[Email := "Email is invalid"];
      }
      assert errors == ErrorsUpTo(2, Inputs());
      if password == "" {
        errors := errors[Password := "Password is required"];
      } else if Utf16Length(password) < MinPasswordLength {
        errors := errors[Password := "Password must be at least 6 characters"];
      }
      assert errors == ErrorsUpTo(3, Inputs());
      if password != confirmPassword {
        errors := errors[ConfirmPassword := "Passwords do not match"];
      }
      assert errors == ErrorsUpTo(4, Inputs());
      if !acceptTerms {
        errors := errors[AcceptTerms := "You must accept the terms and conditions"];
      }
      assert errors == ErrorsUpTo(5, Inputs());
      formErrors := errors;
      valid := errors == map[];
      EmptyIffAcceptable(errors, Inputs());
    }

    /** `handleSubmit`: validates, and only a valid form reaches `register`,
        which signs the new user in (with the random id `id`). */
    method HandleSubmit(auth: AuthReducer.AuthProvider, id: int) returns (submitted: bool)
      requires auth.Valid()
      modifies this`formErrors, auth
      ensures auth.Valid()
      ensures formErrors == ErrorsUpTo(FieldCount, Inputs())
      ensures submitted <==> Acceptable(Inputs())
      ensures !submitted ==> auth.state == old(auth.state)
      ensures submitted ==>
                auth.state == AuthReducer.Run(old(auth.state), AuthReducer.RegisterActions(username, email, id))
      ensures submitted ==> auth.state.user == Some(AuthReducer.User(id, username, email, "fake_jwt_token"))
    {
      submitted := ValidateForm();
      if !submitted {
        return;
      }
      auth.Register(username, email, password, id);
    }
  }
}

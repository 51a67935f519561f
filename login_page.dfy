/** The login route: a two-field schema, an effect that only reports whether the typed
    username looks like an email or a phone number, and a submit that posts both fields. */
module LoginPage {
  import opened Js
  import opened Zod
  import Forms
  import LoginForm

  const UsernameMessage := "Username must be at least 2 characters."
  const PasswordMessage := "Password must be at least 6 characters."

  /** `formSchema` as written: a username of at least 2 and a password of at least 3
      characters, the latter reported with a message that asks for 6. */
  function PageStatus(o: Obj): Status {
    Merge(String("username", Get(o, "username"), [Rule(|Text(Get(o, "username"))| >= 2, UsernameMessage)]),
          String("password", Get(o, "password"), [Rule(|Text(Get(o, "password"))| >= 3, PasswordMessage)]))
  }

  /** The schema accepts exactly a text username of 2 or more and a text password of 3 or
      more characters. */
  lemma PageSchemaAccepts(o: Obj)
    ensures PageStatus(o).Valid? <==>
      Get(o, "username").Str? && |Get(o, "username").s| >= 2 && Get(o, "password").Str? && |Get(o, "password").s| >= 3
  {
  }

  /** As written, a password of 3 to 5 characters passes although the message demands 6. */
  lemma ShortPasswordAccepted(o: Obj)
    requires Get(o, "username").Str? && |Get(o, "username").s| >= 2
    requires Get(o, "password").Str? && 3 <= |Get(o, "password").s| < 6
    ensures PageStatus(o).Valid?
  {
    PageSchemaAccepts(o);
  }

  /** Corrected: the password rule asks for the 6 characters its message names. */
  function CorrectedPageStatus(o: Obj): Status {
    Merge(String("username", Get(o, "username"), [Rule(|Text(Get(o, "username"))| >= 2, UsernameMessage)]),
          String("password", Get(o, "password"), [Rule(|Text(Get(o, "password"))| >= 6, PasswordMessage)]))
  }

  /** With the correction, the password message is reported exactly when the text password
      is shorter than 6 characters. */
  lemma CorrectedPasswordMessage(o: Obj)
    requires Get(o, "password").Str?
    ensures Issue("password", PasswordMessage) in IssuesOf(CorrectedPageStatus(o)) <==> |Get(o, "password").s| < 6
  {
    var username := String("username", Get(o, "username"), [Rule(|Text(Get(o, "username"))| >= 2, UsernameMessage)]);
    var password := String("password", Get(o, "password"), [Rule(|Text(Get(o, "password"))| >= 6, PasswordMessage)]);
    assert IssuesOf(password) == if |Get(o, "password").s| < 6 then [Issue("password", PasswordMessage)] else [];
    assert forall i :: 0 <= i < |IssuesOf(username)| ==> IssuesOf(username)[i].path == "username";
  }

  // ---------------------------------------------------------------- the username effect

  const EmailFormatMessage := "Invalid email format"
  const PhoneFormatMessage := "Invalid phone number format"
  const NeitherMessage := "Enter a valid email or phone number"

  /** A digit string passes `z.string().min(10).max(15)`. */
  predicate PhoneLength(u: string) {
    10 <= |u| <= 15
  }

  /** The errors the effect leaves: cleared for a valid email or phone number, otherwise
      the message for what the username looks like. Nothing happens while the form is
      pristine. */
  function PageEffectErrors(errors: map<string, string>, u: string, dirty: bool, isEmail: string -> bool): map<string, string> {
    if !dirty then errors
    else match LoginForm.Classify(u)
      case EmailLike => if isEmail(u) then errors - {"username"} else errors["username" := EmailFormatMessage]
      case PhoneLike => if PhoneLength(u) then errors - {"username"} else errors["username" := PhoneFormatMessage]
      case Neither => errors["username" := NeitherMessage]
  }

  /** A username the effect does not flag: a valid email, or a digit string of 10 to 15. */
  predicate UsernameRecognised(u: string, isEmail: string -> bool) {
    ('@' in u && isEmail(u)) || ('@' !in u && LoginForm.PhoneValid(u))
  }

  /** On a dirty form the username carries an error exactly when it is not recognised, the
      message names what it looks like, and no other field's error changes. */
  lemma PageEffectFlags(errors: map<string, string>, u: string, isEmail: string -> bool)
    ensures "username" in PageEffectErrors(errors, u, true, isEmail) <==> !UsernameRecognised(u, isEmail)
    ensures "username" in PageEffectErrors(errors, u, true, isEmail) ==>
      PageEffectErrors(errors, u, true, isEmail)["username"] ==
        (if '@' in u then EmailFormatMessage else if AllDigits(u) then PhoneFormatMessage else NeitherMessage)
    ensures forall k :: k != "username" ==>
      (k in PageEffectErrors(errors, u, true, isEmail) <==> k in errors)
    ensures forall k :: k != "username" && k in errors ==> PageEffectErrors(errors, u, true, isEmail)[k] == errors[k]
  {
  }

  /** The effect on `username`; it reports, and never changes a value. */
  method UsernameEffect(form: Forms.Form, isEmail: string -> bool)
    modifies form
    ensures form.values == old(form.values)
    ensures form.errors == PageEffectErrors(old(form.errors), Text(old(form.Value("username"))), old(form.IsDirty()), isEmail)
  {
    if !form.IsDirty() {
      return;
    }
    var username := Text(form.Value("username"));
    if '@' in username {
      if isEmail(username) {
        form.ClearErrors("username");
      } else {
        form.SetError("username", EmailFormatMessage);
      }
    } else if AllDigits(username) {
      if |username| >= 10 && |username| <= 15 {
        form.ClearErrors("username");
      } else {
        form.SetError("username", PhoneFormatMessage);
      }
    } else {
      form.SetError("username", NeitherMessage);
    }
  }

  /** The effect only reports: any username of 2 or more characters passes the schema,
      flagged or not, so a username that is neither an email nor a phone number is still
      submitted. */
  lemma FlaggedUsernameSubmitted(o: Obj, errors: map<string, string>, isEmail: string -> bool)
    requires Get(o, "username").Str? && |Get(o, "username").s| >= 2
    requires !UsernameRecognised(Get(o, "username").s, isEmail)
    requires Get(o, "password").Str? && |Get(o, "password").s| >= 3
    ensures "username" in PageEffectErrors(errors, Get(o, "username").s, true, isEmail)
    ensures PageStatus(o).Valid?
  {
    PageEffectFlags(errors, Get(o, "username").s, isEmail);
    PageSchemaAccepts(o);
  }

  // ---------------------------------------------------------------- submit

  /** `onSubmit`: post the username and password to the login endpoint. */
  function SubmitRequest(data: Obj): (r: LoginForm.LoginRequest)
    ensures r.endpoint == LoginForm.LoginEndpoint
    ensures PageStatus(data).Valid? ==> r.username.Str? && |r.username.s| >= 2 && r.password.Str?
  {
    PageSchemaAccepts(data);
    LoginForm.LoginRequest(LoginForm.LoginEndpoint, Get(data, "username"), Get(data, "password"))
  }
}

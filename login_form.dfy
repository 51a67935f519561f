/** The login form component: the phone schema, the form schema with its "exactly one of
    email and phone" refinement, the effect that sorts the typed username into email, phone
    or neither and fills the two fields, and the submit handler that picks the username the
    request carries. */
module LoginForm {
  import opened Js
  import opened Zod
  import StudentSchema
  import Forms

  // ---------------------------------------------------------------- the schemas

  /** `/^\d+$/.test(value)`, the phone rule's refinement. */
  const PhoneRefineMessage := "Invalid input"

  /** `z.string().min(10).max(15).refine(digits)`. */
  function PhoneStatus(v: Value): Status {
    String("phone", v, [Rule(|Text(v)| >= 10, MinMessage(10)),
                        Rule(|Text(v)| <= 15, MaxMessage(15)),
                        Rule(AllDigits(Text(v)), PhoneRefineMessage)])
  }

  /** A phone number: 10 to 15 characters, all decimal digits. */
  predicate PhoneValid(s: string) {
    10 <= |s| <= 15 && AllDigits(s)
  }

  lemma PhoneAccepts(v: Value)
    ensures PhoneStatus(v).Valid? <==> v.Str? && PhoneValid(v.s)
  {
    var rules := [Rule(|Text(v)| >= 10, MinMessage(10)),
                  Rule(|Text(v)| <= 15, MaxMessage(15)),
                  Rule(AllDigits(Text(v)), PhoneRefineMessage)];
    assert (forall i :: 0 <= i < |rules| ==> rules[i].holds) <==> rules[0].holds && rules[1].holds && rules[2].holds;
  }

  const EitherMessage := "Either email is required"

  /** `(email && !phone) || (!email && phone)`. */
  predicate ExactlyOne(email: Value, phone: Value) {
    (Truthy(email) && !Truthy(phone)) || (!Truthy(email) && Truthy(phone))
  }

  /** The fields of the form schema in declaration order. */
  function LoginFields(o: Obj, isEmail: string -> bool): Status {
    Merge(String("username", Get(o, "username"), [Rule(|Text(Get(o, "username"))| >= 2, MinMessage(2)),
                                                  Rule(|Text(Get(o, "username"))| <= 50, MaxMessage(50))]),
    Merge(StudentSchema.EmailField(Get(o, "email"), isEmail),
    Merge(Nullable(Get(o, "phone"), PhoneStatus(Get(o, "phone"))),
          String("password", Get(o, "password"), []))))
  }

  /** `formSchema.safeParse(o)`: the fields, then the exactly-one refinement reported on
      `username`. */
  function LoginStatus(o: Obj, isEmail: string -> bool): Status {
    Refine(LoginFields(o, isEmail), ExactlyOne(Get(o, "email"), Get(o, "phone")), Issue("username", EitherMessage))
  }

  /** A submittable login: a username of 2 to 50 characters, email null or an email, phone
      null or a phone number, a text password, and exactly one of email and phone set. */
  predicate LoginValid(o: Obj, isEmail: string -> bool) {
    && Get(o, "username").Str? && 2 <= |Get(o, "username").s| <= 50
    && (Get(o, "email").Null? || (Get(o, "email").Str? && isEmail(Get(o, "email").s)))
    && (Get(o, "phone").Null? || (Get(o, "phone").Str? && PhoneValid(Get(o, "phone").s)))
    && Get(o, "password").Str?
    && ExactlyOne(Get(o, "email"), Get(o, "phone"))
  }

  lemma UsernameRules(v: Value)
    ensures String("username", v, [Rule(|Text(v)| >= 2, MinMessage(2)), Rule(|Text(v)| <= 50, MaxMessage(50))]).Valid?
      <==> v.Str? && 2 <= |v.s| <= 50
  {
    var rules := [Rule(|Text(v)| >= 2, MinMessage(2)), Rule(|Text(v)| <= 50, MaxMessage(50))];
    assert (forall i :: 0 <= i < |rules| ==> rules[i].holds) <==> rules[0].holds && rules[1].holds;
  }

  /** The schema accepts exactly the submittable logins. */
  lemma LoginSchemaAccepts(o: Obj, isEmail: string -> bool)
    ensures LoginStatus(o, isEmail).Valid? <==> LoginValid(o, isEmail)
  {
    UsernameRules(Get(o, "username"));
    PhoneAccepts(Get(o, "phone"));
  }

  // ---------------------------------------------------------------- username classification

  /** What the typed username looks like: it contains "@", or else it is all digits, or
      neither. The "@" test comes first. */
  datatype UsernameKind = EmailLike | PhoneLike | Neither

  function Classify(u: string): (k: UsernameKind)
    ensures k == EmailLike <==> '@' in u
    ensures k == PhoneLike <==> '@' !in u && AllDigits(u)
  {
    if '@' in u then EmailLike else if AllDigits(u) then PhoneLike else Neither
  }

  /** The values the username effect leaves: a valid email fills email and clears phone, a
      valid phone the other way round, a username that is neither clears both, and an
      invalid email or phone changes nothing. Nothing happens while the form is pristine. */
  function EffectValues(values: Obj, u: string, dirty: bool, isEmail: string -> bool): Obj {
    if !dirty then values
    else match Classify(u)
      case EmailLike => if isEmail(u) then values["email" := Str(u)]["phone" := Null] else values
      case PhoneLike => if PhoneValid(u) then values["phone" := Str(u)]["email" := Null] else values
      case Neither => values["email" := Null]["phone" := Null]
  }

  /** The errors the username effect leaves: cleared on a valid email or phone, set to
      "Invalid email" when the username is neither, untouched otherwise. */
  function EffectErrors(errors: map<string, string>, u: string, dirty: bool, isEmail: string -> bool): map<string, string> {
    if !dirty then errors
    else match Classify(u)
      case EmailLike => if isEmail(u) then errors - {"username"} else errors
      case PhoneLike => if PhoneValid(u) then errors - {"username"} else errors
      case Neither => errors["username" := "Invalid email"]
  }

  /** The effect on `username`: it reads the watched username and, if the form is dirty,
      classifies it. */
  method UsernameEffect(form: Forms.Form, isEmail: string -> bool)
    modifies form
    ensures form.values == EffectValues(old(form.values), Text(old(form.Value("username"))), old(form.IsDirty()), isEmail)
    ensures form.errors == EffectErrors(old(form.errors), Text(old(form.Value("username"))), old(form.IsDirty()), isEmail)
  {
    if !form.IsDirty() {
      return;
    }
    var username := Text(form.Value("username"));
    if '@' in username {
      if isEmail(username) {
        form.SetValue("email", Str(username));
        form.SetValue("phone", Null);
        form.ClearErrors("username");
      }
    } else if AllDigits(username) {
      PhoneAccepts(Str(username));
      if PhoneStatus(Str(username)).Valid? {
        form.SetValue("phone", Str(username));
        form.SetValue("email", Null);
        form.ClearErrors("username");
      }
    } else {
      form.SetError("username", "Invalid email");
      form.SetValue("email", Null);
      form.SetValue("phone", Null);
    }
  }

  /** After a valid email or phone, exactly one of the two is set, it is the username, and
      the username error is gone. */
  lemma ValidUsernameSetsOne(values: Obj, errors: map<string, string>, u: string, isEmail: string -> bool)
    requires (Classify(u) == EmailLike && isEmail(u)) || (Classify(u) == PhoneLike && PhoneValid(u))
    ensures ExactlyOne(Get(EffectValues(values, u, true, isEmail), "email"), Get(EffectValues(values, u, true, isEmail), "phone"))
    ensures Get(EffectValues(values, u, true, isEmail), if Classify(u) == EmailLike then "email" else "phone") == Str(u)
    ensures "username" !in EffectErrors(errors, u, true, isEmail)
  {
    if Classify(u) == EmailLike {
      assert u != "" by { assert '@' in u; }
    }
  }

  /** A username that is neither clears both fields and is flagged, so the exactly-one
      refinement fails and the form cannot be submitted. */
  lemma NeitherRejected(values: Obj, errors: map<string, string>, u: string, isEmail: string -> bool)
    requires Classify(u) == Neither
    ensures Get(EffectValues(values, u, true, isEmail), "email") == Null
    ensures Get(EffectValues(values, u, true, isEmail), "phone") == Null
    ensures EffectErrors(errors, u, true, isEmail)["username"] == "Invalid email"
    ensures !LoginStatus(EffectValues(values, u, true, isEmail), isEmail).Valid?
  {
  }

  /** An invalid email or phone changes neither values nor errors: whatever email or phone
      an earlier username left stays in place. */
  lemma InvalidUsernameKeepsState(values: Obj, errors: map<string, string>, u: string, isEmail: string -> bool)
    requires (Classify(u) == EmailLike && !isEmail(u)) || (Classify(u) == PhoneLike && !PhoneValid(u))
    ensures EffectValues(values, u, true, isEmail) == values
    ensures EffectErrors(errors, u, true, isEmail) == errors
  {
  }

  // ---------------------------------------------------------------- submit

  const LoginEndpoint := "/login"

  datatype LoginRequest = LoginRequest(endpoint: string, username: Value, password: Value)

  /** `data.phone || data.email`, replaced by `data.email` when that is truthy. */
  function RequestUsername(data: Obj): Value {
    if Truthy(Get(data, "email")) then Get(data, "email") else Or(Get(data, "phone"), Get(data, "email"))
  }

  /** On data the schema accepts, the request carries the one contact that is set. */
  lemma RequestCarriesContact(data: Obj, isEmail: string -> bool)
    requires LoginStatus(data, isEmail).Valid?
    ensures Truthy(RequestUsername(data))
    ensures RequestUsername(data) == if Truthy(Get(data, "email")) then Get(data, "email") else Get(data, "phone")
  {
  }

  /** `onSubmit`: build the request; without an email, the username field is flagged
      "Invalid email", yet the request is still built and sent. */
  method OnSubmit(form: Forms.Form, data: Obj) returns (request: LoginRequest)
    modifies form
    ensures request == LoginRequest(LoginEndpoint, RequestUsername(data), Get(data, "password"))
    ensures form.values == old(form.values)
    ensures Truthy(Get(data, "email")) ==> form.errors == old(form.errors)
    ensures !Truthy(Get(data, "email")) ==> form.errors == old(form.errors)["username" := "Invalid email"]
  {
    var username := Or(Get(data, "phone"), Get(data, "email"));
    if Truthy(Get(data, "email")) {
      username := Get(data, "email");
    } else {
      form.ClearErrors("username");
      form.SetError("username", "Invalid email");
      assert form.errors == old(form.errors)["username" := "Invalid email"];
    }
    request := LoginRequest(LoginEndpoint, username, Get(data, "password"));
  }

  // ---------------------------------------------------------------- the stale contact

  /** As written: after a valid phone, editing the username into an invalid digit string
      (one digit short, say) keeps the old phone, the schema still accepts the form, and the
      request logs in with the old phone rather than the typed username. */
  lemma StalePhoneSent(values: Obj, p: string, isEmail: string -> bool)
    requires Get(values, "username").Str? && Classify(Get(values, "username").s) == PhoneLike
    requires !PhoneValid(Get(values, "username").s) && 2 <= |Get(values, "username").s| <= 50
    requires Get(values, "phone") == Str(p) && PhoneValid(p)
    requires Get(values, "email") == Null && Get(values, "password").Str?
    ensures var after := EffectValues(values, Get(values, "username").s, true, isEmail);
      LoginStatus(after, isEmail).Valid? && RequestUsername(after) == Str(p) && Str(p) != Get(values, "username")
  {
    var u := Get(values, "username").s;
    InvalidUsernameKeepsState(values, map[], u, isEmail);
    assert Truthy(Str(p)) by { assert |p| >= 10; }
    assert ExactlyOne(Get(values, "email"), Get(values, "phone"));
    assert LoginValid(values, isEmail);
    LoginSchemaAccepts(values, isEmail);
  }

  /** Corrected: a username that is not a valid email or phone clears both fields, as the
      "neither" case already does. */
  function CorrectedEffectValues(values: Obj, u: string, dirty: bool, isEmail: string -> bool): Obj {
    if !dirty then values
    else if Classify(u) == EmailLike && isEmail(u) then values["email" := Str(u)]["phone" := Null]
    else if Classify(u) == PhoneLike && PhoneValid(u) then values["phone" := Str(u)]["email" := Null]
    else values["email" := Null]["phone" := Null]
  }

  /** With the correction, whenever the schema accepts the form after the effect, the
      request logs in with exactly the typed username. */
  lemma CorrectedRequestIsUsername(values: Obj, isEmail: string -> bool)
    requires Get(values, "username").Str?
    requires LoginStatus(CorrectedEffectValues(values, Get(values, "username").s, true, isEmail), isEmail).Valid?
    ensures RequestUsername(CorrectedEffectValues(values, Get(values, "username").s, true, isEmail)) == Get(values, "username")
  {
  }
}

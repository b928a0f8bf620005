/**
 * The account schemas: `registrarSchema` (user name of at least 3
 * characters, an email address, a password of at least 6 characters and its
 * confirmation, which must match) and `loginSchema` (an email address and a
 * password of any length). Email syntax is Zod's own regular expression and
 * enters the model as the predicate `isEmail`.
 */
module AuthSchema {
  import opened Wrappers
  import opened InventorySchema

  const RegisterKeys: set<string> := {"username", "email", "password", "confirmPassword"}

  /** The field is present and a string: otherwise Zod reports `invalid_type` and aborts. */
  predicate IsString(body: Body, k: string)
  {
    k in body && body[k].JString?
  }

  /** The field-level check of `registrarSchema` for a string value `s` of field `k`. */
  predicate RegisterCheckOk(k: string, s: string, isEmail: string -> bool)
  {
    if k == "username" then |s| >= 3
    else if k == "email" then isEmail(s)
    else if k == "password" then |s| >= 6
    else true  // confirmPassword: any string
  }

  /** Paths with a type error (missing or not a string). */
  function TypeErrors(body: Body, keys: set<string>): set<string>
  {
    set k | k in keys && !IsString(body, k)
  }

  /**
   * The paths that `registrarSchema.parse` reports. The object's refinement
   * (password equals confirmation, reported on `confirmPassword`) runs only
   * when no field had a type error; a failed length or email check does not
   * stop it.
   */
  function RegisterErrors(body: Body, isEmail: string -> bool): (r: set<string>)
    ensures r <= RegisterKeys
    ensures forall k :: k in RegisterKeys && !IsString(body, k) ==> k in r
  {
    var typeErrors := TypeErrors(body, RegisterKeys);
    var checkErrors := set k | k in RegisterKeys && IsString(body, k) && !RegisterCheckOk(k, body[k].s, isEmail);
    typeErrors + checkErrors
      + (if typeErrors == {} && IsString(body, "password") && IsString(body, "confirmPassword")
            && body["password"].s != body["confirmPassword"].s
         then {"confirmPassword"} else {})
  }

  datatype Registration = Registration(username: string, email: string, password: string, confirmPassword: string)

  /** `registrarSchema.parse(body)`. */
  function ParseRegistration(body: Body, isEmail: string -> bool): (r: Result<Registration, set<string>>)
    ensures r.Failure? <==> RegisterErrors(body, isEmail) != {}
    ensures r.Failure? ==> r.error == RegisterErrors(body, isEmail)
    ensures r.Success? ==>
              |r.value.username| >= 3 && isEmail(r.value.email) && |r.value.password| >= 6
              && r.value.password == r.value.confirmPassword
              && Lookup(body, "username") == Some(JString(r.value.username))
              && Lookup(body, "email") == Some(JString(r.value.email))
              && Lookup(body, "password") == Some(JString(r.value.password))
  {
    var errors := RegisterErrors(body, isEmail);
    if errors != {} then Failure(errors)
    else
      assert forall k :: k in RegisterKeys ==> IsString(body, k) && RegisterCheckOk(k, body[k].s, isEmail) by {
        forall k | k in RegisterKeys ensures IsString(body, k) && RegisterCheckOk(k, body[k].s, isEmail) {
          assert k !in errors;
        }
      }
      assert RegisterCheckOk("username", body["username"].s, isEmail);
      assert RegisterCheckOk("email", body["email"].s, isEmail);
      assert RegisterCheckOk("password", body["password"].s, isEmail);
      assert IsString(body, "confirmPassword");
      Success(Registration(body["username"].s, body["email"].s, body["password"].s, body["confirmPassword"].s))
  }

  /**
   * A body whose four fields are strings meeting every check, with the
   * confirmation equal to the password, is accepted as those strings.
   */
  lemma RegistrationAccepted(body: Body, isEmail: string -> bool)
    requires IsString(body, "username") && IsString(body, "email")
    requires IsString(body, "password") && IsString(body, "confirmPassword")
    requires |body["username"].s| >= 3 && isEmail(body["email"].s) && |body["password"].s| >= 6
    requires body["confirmPassword"].s == body["password"].s
    ensures ParseRegistration(body, isEmail)
         == Success(Registration(body["username"].s, body["email"].s, body["password"].s, body["confirmPassword"].s))
  {
    assert TypeErrors(body, RegisterKeys) == {};
    forall k | k in RegisterKeys ensures RegisterCheckOk(k, body[k].s, isEmail) {
    }
    assert RegisterErrors(body, isEmail) == {};
  }

  /** The body that carries a registration. */
  function RegistrationBody(g: Registration): Body
  {
    map["username" := JString(g.username), "email" := JString(g.email),
        "password" := JString(g.password), "confirmPassword" := JString(g.confirmPassword)]
  }

  /** Every registration the schema promises is accepted and comes back unchanged. */
  lemma RegistrationRoundTrip(g: Registration, isEmail: string -> bool)
    requires |g.username| >= 3 && isEmail(g.email) && |g.password| >= 6 && g.confirmPassword == g.password
    ensures ParseRegistration(RegistrationBody(g), isEmail) == Success(g)
  {
    var body := RegistrationBody(g);
    RegistrationAccepted(body, isEmail);
  }

  /**
   * A confirmation that differs from the password is reported on path
   * `confirmPassword` whenever all four fields are strings, even beside
   * failed length checks; with a field missing it is not reported.
   */
  lemma MismatchReported(body: Body, isEmail: string -> bool)
    requires "password" in body && "confirmPassword" in body
    requires body["password"].JString? && body["confirmPassword"].JString?
    requires body["password"].s != body["confirmPassword"].s
    ensures (forall k :: k in RegisterKeys ==> IsString(body, k)) ==> "confirmPassword" in RegisterErrors(body, isEmail)
    ensures "username" !in body ==> "confirmPassword" !in RegisterErrors(body, isEmail)
  {
    if "username" !in body {
      assert "username" in TypeErrors(body, RegisterKeys);
    }
    if forall k :: k in RegisterKeys ==> IsString(body, k) {
      assert TypeErrors(body, RegisterKeys) == {};
    }
  }

  const LoginKeys: set<string> := {"email", "password"}

  /** The paths that `loginSchema.parse` reports: no minimum length on the password. */
  function LoginErrors(body: Body, isEmail: string -> bool): (r: set<string>)
    ensures r <= LoginKeys
    ensures forall k :: k in LoginKeys && !IsString(body, k) ==> k in r
  {
    TypeErrors(body, LoginKeys) + (if IsString(body, "email") && !isEmail(body["email"].s) then {"email"} else {})
  }

  datatype Credentials = Credentials(email: string, password: string)

  /** `loginSchema.parse(body)`. */
  function ParseLogin(body: Body, isEmail: string -> bool): (r: Result<Credentials, set<string>>)
    ensures r.Failure? <==> LoginErrors(body, isEmail) != {}
    ensures r.Failure? ==> r.error == LoginErrors(body, isEmail)
    ensures r.Success? ==>
              && isEmail(r.value.email)
              && Lookup(body, "email") == Some(JString(r.value.email))
              && Lookup(body, "password") == Some(JString(r.value.password))
  {
    var errors := LoginErrors(body, isEmail);
    if errors != {} then Failure(errors)
    else
      assert "email" !in errors && "password" !in errors;
      Success(Credentials(body["email"].s, body["password"].s))
  }

  /** Any password string logs in past validation, the empty one included. */
  lemma LoginAcceptsAnyPassword(email: string, password: string, isEmail: string -> bool)
    requires isEmail(email)
    ensures ParseLogin(map["email" := JString(email), "password" := JString(password)], isEmail)
              == Success(Credentials(email, password))
  {
    var body := map["email" := JString(email), "password" := JString(password)];
    assert TypeErrors(body, LoginKeys) == {} by {
      forall k | k in LoginKeys ensures IsString(body, k) {
      }
    }
  }

  /** Registration asks more of the password than login does. */
  lemma RegisterRejectsShortPassword(body: Body, isEmail: string -> bool)
    requires IsString(body, "password") && |body["password"].s| < 6
    ensures "password" in RegisterErrors(body, isEmail)
  {
    assert !RegisterCheckOk("password", body["password"].s, isEmail);
  }
}

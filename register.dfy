/**
 * `POST /api/auth/register` (src/app/api/auth/register/route.ts): input
 * checks, the auth user's creation, then a best-effort profile update.
 * Both external calls are parameters; what the route asks of them is part
 * of its result.
 */
module Register {
  import opened Wrappers
  import opened JsString
  import opened ApiResponse

  /** `{ email, password, name }` from the body; `None` is a body whose parsing throws. */
  datatype Signup = Signup(email: Option<string>, password: Option<string>, name: Option<string>)

  /** The auth user `createUser` returns. */
  datatype AuthUser = AuthUser(id: string, email: string)

  /** The result of `auth.admin.createUser`. */
  datatype Creation =
    | CreateError(message: string)   // `authError` set
    | Created(user: AuthUser)
    | CreateThrew

  /**
   * What one request does: the response, whether `createUser` was called,
   * and the `(id, name)` of the profile update sent to the `users` table.
   */
  datatype Outcome = Outcome(response: Response, createCalled: bool, profileUpdate: Option<(string, string)>)

  const MinPasswordLength := 8
  const ShortPassword := Response(400, ErrorBody("Password must be at least 8 characters"))
  const SuccessMessage := "User created successfully"

  /** `name || email.split('@')[0]` */
  function ProfileName(email: string, name: Option<string>): (n: string)
    ensures Truthy(name) ==> n == name.value
    ensures !Truthy(name) ==> '@' !in n && StartsWith(email, n)
    ensures !Truthy(name) && '@' in email ==> email[|n|] == '@'
  {
    if Truthy(name) then name.value
    else
      SplitHead(email, '@');
      Split(email, '@')[0]
  }

  /** A missing or empty name takes the email's local part. */
  lemma LocalPartName(local: string, domain: string, name: Option<string>)
    requires '@' !in local && !Truthy(name)
    ensures ProfileName(local + "@" + domain, name) == local
  {
    assert local + "@" + domain == local + ['@'] + domain;
    SplitConcat(local, '@', domain);
    SplitWhole(local, '@');
  }

  /** `user@example.com` without a name is profiled as `user`. */
  lemma ProfileNameExample()
    ensures ProfileName("user@example.com", None) == "user"
  {
    assert "user" + "@" + "example.com" == "user@example.com";
    LocalPartName("user", "example.com", None);
  }

  /**
   * The route. `create` is what `createUser` would return and
   * `updateFailed` whether the profile update reports an error.
   */
  function Register(body: Option<Signup>, create: Creation, updateFailed: bool): (o: Outcome)
    ensures o.response.status in {201, 400, 500}
    ensures body.None? ==> o == Outcome(InternalError, false, None)
    ensures body.Some? && !(Truthy(body.value.email) && Truthy(body.value.password)) ==>
      o == Outcome(Response(400, ErrorBody(RequiredMessage)), false, None)
    ensures o.createCalled <==> (
      body.Some? && Truthy(body.value.email) && Truthy(body.value.password)
      && Utf16Length(body.value.password.value) >= MinPasswordLength)
    ensures o.createCalled && create.CreateError? ==> o.response == Response(400, ErrorBody(create.message))
    ensures o.createCalled && create.CreateThrew? ==> o.response == InternalError
    ensures o.response.status == 201 <==> o.createCalled && create.Created?
    ensures o.profileUpdate.Some? <==> o.response.status == 201
    ensures o.response.status == 201 ==> (
      o.response.body == CreatedBody(create.user.id, create.user.email, SuccessMessage)
      && o.profileUpdate == Some((create.user.id, ProfileName(body.value.email.value, body.value.name))))
  {
    match body
    case None => Outcome(InternalError, false, None)
    case Some(s) =>
      if !Truthy(s.email) || !Truthy(s.password) then
        Outcome(Response(400, ErrorBody(RequiredMessage)), false, None)
      else if Utf16Length(s.password.value) < MinPasswordLength then
        Outcome(ShortPassword, false, None)
      else
        match create
        case CreateThrew => Outcome(InternalError, true, None)
        case CreateError(m) => Outcome(Response(400, ErrorBody(m)), true, None)
        case Created(u) =>
          var update := (u.id, ProfileName(s.email.value, s.name));
          // an update error is only logged
          Outcome(Response(201, CreatedBody(u.id, u.email, SuccessMessage)), true, Some(update))
  }

  /** A short password is refused before any auth call. */
  lemma ShortPasswordBeforeCreate(s: Signup, create: Creation, updateFailed: bool)
    requires Truthy(s.email) && Truthy(s.password) && Utf16Length(s.password.value) < MinPasswordLength
    ensures Register(Some(s), create, updateFailed) == Outcome(ShortPassword, false, None)
  {
  }

  /**
   * The length rule counts UTF-16 code units: four emoji are a password of
   * length 8, so the signup reaches `createUser`.
   */
  lemma AstralPasswordLongEnough(email: string, create: Creation)
    requires email != ""
    ensures Register(Some(Signup(Some(email), Some("\U{1F600}\U{1F600}\U{1F600}\U{1F600}"), None)), create, false)
      .createCalled
  {
    AstralLength();
  }

  /** A failing profile update changes nothing about what the client sees. */
  lemma UpdateFailureOnlyLogged(body: Option<Signup>, create: Creation)
    ensures Register(body, create, true) == Register(body, create, false)
  {
  }

  /** A successful signup without a name stores the email's local part as the profile name. */
  lemma SignupWithoutName(email: string, password: string, u: AuthUser)
    requires email != "" && Utf16Length(password) >= MinPasswordLength
    ensures Register(Some(Signup(Some(email), Some(password), None)), Created(u), false).profileUpdate
      == Some((u.id, BeforeFirst(email, '@')))
  {
    SplitHead(email, '@');
  }
}

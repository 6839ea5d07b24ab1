/**
 * `POST /api/auth/validate-credentials`
 * (src/app/api/auth/validate-credentials/route.ts): a ladder of early
 * returns over the request body, the user lookup and the password check.
 * The lookup and the password verifier are parameters.
 */
module ValidateCredentials {
  import opened Wrappers
  import opened ApiResponse

  /** `{ email, password }` from the body; `None` is a body whose parsing throws. */
  datatype Credentials = Credentials(email: Option<string>, password: Option<string>)

  /** A `users` row selected by email. */
  datatype UserRow = UserRow(id: string, email: string, name: Option<string>, passwordHash: string, isActive: bool)

  /** The result of `select(...).eq('email', email).single()`. */
  datatype Lookup =
    | LookupError          // `error` set
    | NoUser               // no error, no row
    | Found(row: UserRow)
    | LookupThrew          // the query itself throws

  const InvalidCredentials := Response(401, ErrorBody("Invalid email or password"))
  const Inactive := Response(401, ErrorBody("Account is inactive"))

  /** `const { password_hash, ...userWithoutPassword } = user` */
  function WithoutHash(u: UserRow): PublicUser
  {
    PublicUser(u.id, u.email, u.name, u.isActive)
  }

  /** The route's response. `verify` is `verifyPassword(password, hash)`, which returns false rather than throwing. */
  function Validate(body: Option<Credentials>, lookup: Lookup, verify: (string, string) -> bool): (r: Response)
    ensures r.status in {200, 400, 401, 500}
    ensures body.None? ==> r == InternalError
    ensures body.Some? && !(Truthy(body.value.email) && Truthy(body.value.password)) ==>
      r == Response(400, ErrorBody(RequiredMessage))
    ensures r.status == 200 <==> (
      body.Some? && Truthy(body.value.email) && Truthy(body.value.password)
      && lookup.Found? && lookup.row.isActive && verify(body.value.password.value, lookup.row.passwordHash))
    ensures r.status == 200 ==> lookup.Found? && r.body == UserBody(WithoutHash(lookup.row))
    ensures r.status == 500 <==> body.None? || (Truthy(body.value.email) && Truthy(body.value.password) && lookup.LookupThrew?)
  {
    match body
    case None => InternalError
    case Some(c) =>
      if !Truthy(c.email) || !Truthy(c.password) then Response(400, ErrorBody(RequiredMessage))
      else
        match lookup
        case LookupThrew => InternalError
        case LookupError => InvalidCredentials
        case NoUser => InvalidCredentials
        case Found(u) =>
          if !u.isActive then Inactive
          else if !verify(c.password.value, u.passwordHash) then InvalidCredentials
          else Response(200, UserBody(WithoutHash(u)))
  }

  /** The input check comes first: an incomplete body gets 400 whatever the lookup would return. */
  lemma ValidationBeforeLookup(c: Credentials, l1: Lookup, l2: Lookup, verify: (string, string) -> bool)
    requires !Truthy(c.email) || !Truthy(c.password)
    ensures Validate(Some(c), l1, verify) == Validate(Some(c), l2, verify)
    ensures Validate(Some(c), l1, verify).status == 400
  {
  }

  /**
   * No user enumeration: a wrong password for an active user, a lookup
   * error and an unknown email all get the same 401 response.
   */
  lemma WrongPasswordLooksLikeUnknownUser(c: Credentials, u: UserRow, verify: (string, string) -> bool)
    requires Truthy(c.email) && Truthy(c.password) && u.isActive && !verify(c.password.value, u.passwordHash)
    ensures Validate(Some(c), Found(u), verify) == Validate(Some(c), NoUser, verify)
    ensures Validate(Some(c), LookupError, verify) == Validate(Some(c), NoUser, verify)
    ensures Validate(Some(c), NoUser, verify) == InvalidCredentials
  {
  }

  /** An inactive account is refused before its password is looked at: every verifier gives the same answer. */
  lemma InactiveBeforePassword(c: Credentials, u: UserRow, v1: (string, string) -> bool, v2: (string, string) -> bool)
    requires Truthy(c.email) && Truthy(c.password) && !u.isActive
    ensures Validate(Some(c), Found(u), v1) == Validate(Some(c), Found(u), v2) == Inactive
  {
  }

  /** The success body never carries the stored hash: two rows that differ only in it give the same response. */
  lemma SuccessHidesHash(c: Credentials, u: UserRow, hash: string, verify: (string, string) -> bool)
    requires Validate(Some(c), Found(u), verify).status == 200
    requires verify(c.password.value, hash)
    ensures Validate(Some(c), Found(u.(passwordHash := hash)), verify) == Validate(Some(c), Found(u), verify)
  {
  }
}

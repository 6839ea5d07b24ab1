/**
 * The JSON responses of the two auth routes. A missing or empty request
 * string (`!email`) is `!Truthy(..)` of Wrappers.
 */
module ApiResponse {
  import opened Wrappers

  /** A `users` row as the validation route returns it: every column but `password_hash`. */
  datatype PublicUser = PublicUser(id: string, email: string, name: Option<string>, isActive: bool)

  datatype Body =
    | ErrorBody(error: string)
    | UserBody(user: PublicUser)
    | CreatedBody(id: string, email: string, message: string)

  datatype Response = Response(status: int, body: Body)

  const RequiredMessage := "Email and password are required"
  const InternalError := Response(500, ErrorBody("Internal server error"))
}

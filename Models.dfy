/** Records exchanged between the authentication service and its two stores,
    the response envelope, and the closed set of domain failures. */
module Models {

  datatype Option<+T> = None | Some(value: T)

  /** An account. `id` is 0 until the user store assigns one on insertion. */
  datatype User = User(id: int, email: string, passwordHash: string)

  /** A stored refresh token. `expiresAt` is an absolute UTC instant in
      seconds; `userId` is the owning user's identifier. */
  datatype RefreshToken = RefreshToken(
    id: int,
    token: string,
    expiresAt: int,
    isRevoked: bool,
    userId: int)

  /** What a successful register, login or refresh returns to the caller. */
  datatype AuthResponse = AuthResponse(email: string, token: string, refreshToken: string)

  /** The three failures the service raises, one per operation. */
  datatype AuthError = EmailAlreadyInUse | InvalidCredentials | InvalidOrExpiredToken
  {
    /** The fixed message carried by the exception. */
    function Message(): (m: string)
      ensures m == "Email already in use." <==> this == EmailAlreadyInUse
      ensures m == "Invalid credentials." <==> this == InvalidCredentials
      ensures m == "Invalid or expired refresh token." <==> this == InvalidOrExpiredToken
    {
      match this
      case EmailAlreadyInUse => "Email already in use."
      case InvalidCredentials => "Invalid credentials."
      case InvalidOrExpiredToken => "Invalid or expired refresh token."
    }
  }

  datatype Result<+T> = Ok(value: T) | Err(error: AuthError)
}

/** The authentication service: registration, login and refresh-token
    rotation over an injected user store and refresh-token store. */
module Auth {
  import opened Models
  import opened UserStore
  import opened RefreshTokenStore
  import AuthSpec

  class AuthService {
    const userRepo: UserRepository
    const passwordHasher: string -> string
    const tokenService: (User, int) -> string
    const refreshTokenRepo: RefreshTokenRepository

    constructor (userRepo: UserRepository, passwordHasher: string -> string,
                 tokenService: (User, int) -> string, refreshTokenRepo: RefreshTokenRepository)
      requires AuthSpec.Consistent(AuthSpec.Stores(userRepo.users, refreshTokenRepo.records))
      ensures Valid()
      ensures this.userRepo == userRepo && this.refreshTokenRepo == refreshTokenRepo
      ensures this.passwordHasher == passwordHasher && this.tokenService == tokenService
    {
      this.userRepo := userRepo;
      this.passwordHasher := passwordHasher;
      this.tokenService := tokenService;
      this.refreshTokenRepo := refreshTokenRepo;
    }

    /** The injected hasher and token issuer, as the specification sees them. */
    function Collaborators(): AuthSpec.Collaborators
    {
      AuthSpec.Collaborators(passwordHasher, tokenService)
    }

    /** The contents of both stores. */
    ghost function State(): AuthSpec.Stores
      reads userRepo, refreshTokenRepo
    {
      AuthSpec.Stores(userRepo.users, refreshTokenRepo.records)
    }

    ghost predicate Valid()
      reads userRepo, refreshTokenRepo
    {
      AuthSpec.Consistent(State())
    }

    /** Registers `email` with `password`. `minted` is the string the token
        issuer's random generator produces and `now` the current time. */
    method Register(email: string, password: string, minted: string, now: int)
      returns (r: Result<AuthResponse>)
      requires Valid()
      modifies userRepo, refreshTokenRepo
      ensures Valid()
      ensures AuthSpec.Outcome(r, State())
              == AuthSpec.Register(old(State()), Collaborators(), email, password, minted, now)
    {
      var existingUser := userRepo.GetByEmail(email);
      if existingUser.Some? {
        return Err(EmailAlreadyInUse);
      }
      var hashedPassword := passwordHasher(password);
      var newUser := userRepo.AddUser(User(0, email, hashedPassword));
      var token := tokenService(newUser, now);
      var refreshToken := GenerateRefreshToken(newUser, minted, now);
      r := Ok(AuthResponse(newUser.email, token, refreshToken));
    }

    /** Authenticates `email` with `password`. */
    method Login(email: string, password: string, minted: string, now: int)
      returns (r: Result<AuthResponse>)
      requires Valid()
      modifies refreshTokenRepo
      ensures Valid()
      ensures AuthSpec.Outcome(r, State())
              == AuthSpec.Login(old(State()), Collaborators(), email, password, minted, now)
    {
      var user := userRepo.GetByEmail(email);
      if user.None? || passwordHasher(password) != user.value.passwordHash {
        return Err(InvalidCredentials);
      }
      var token := tokenService(user.value, now);
      var refreshToken := GenerateRefreshToken(user.value, minted, now);
      r := Ok(AuthResponse(user.value.email, token, refreshToken));
    }

    /** Redeems the refresh-token string `refreshToken`: revokes its record,
        then issues a new access token and refresh token for its owner. */
    method RefreshToken(refreshToken: string, minted: string, now: int)
      returns (r: Result<AuthResponse>)
      requires Valid()
      modifies refreshTokenRepo
      ensures Valid()
      ensures AuthSpec.Outcome(r, State())
              == AuthSpec.Refresh(old(State()), Collaborators(), refreshToken, minted, now)
    {
      var tokenRecord := refreshTokenRepo.GetByToken(refreshToken);
      if tokenRecord.None? || refreshTokenRepo.records[tokenRecord.value].expiresAt < now {
        return Err(InvalidOrExpiredToken);
      }
      ghost var before := State();
      var record := refreshTokenRepo.records[tokenRecord.value];
      refreshTokenRepo.Revoke(tokenRecord.value);
      assert refreshTokenRepo.records == Revoked(before.tokens, tokenRecord.value);
      var owner := AuthSpec.Owner(userRepo.users, record);
      var newJwt := tokenService(owner, now);
      var newRefreshToken := GenerateRefreshToken(owner, minted, now);
      r := Ok(AuthResponse(owner.email, newJwt, newRefreshToken));
      ghost var after := AuthSpec.IssueRefreshToken(before.(tokens := Revoked(before.tokens, tokenRecord.value)),
                                                    owner, minted, now);
      assert State() == after;
      assert AuthSpec.Refresh(before, Collaborators(), refreshToken, minted, now) == AuthSpec.Outcome(r, after);
    }

    /** The rotation helper: saves a fresh, unrevoked record for `user` that
        expires seven days from `now`, and returns its token string. */
    method GenerateRefreshToken(user: User, minted: string, now: int) returns (token: string)
      requires refreshTokenRepo.Valid()
      modifies refreshTokenRepo
      ensures refreshTokenRepo.Valid()
      ensures token == minted
      ensures refreshTokenRepo.records == old(refreshTokenRepo.records)
                + [Models.RefreshToken(|old(refreshTokenRepo.records)| + 1, minted,
                                now + AuthSpec.RefreshTokenLifetime, false, user.id)]
    {
      token := minted;
      var refreshToken := AuthSpec.NewRefreshToken(user, token, now);
      refreshTokenRepo.Save(refreshToken);
    }
  }
}

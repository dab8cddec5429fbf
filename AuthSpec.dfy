/** What each authentication operation does, stated on the contents of the
    two stores. The `AuthService` class is proved to behave exactly like
    these functions. */
module AuthSpec {
  import opened Models
  import opened UserStore
  import opened RefreshTokenStore

  /** Validity window of a refresh token: seven days, in seconds. */
  const RefreshTokenLifetime: int := 7 * 24 * 60 * 60

  /** The password hasher and the access-token issuer, both deterministic
      and otherwise unknown. The issuer sees the user and the current time,
      from which it computes the token's expiry claim. */
  datatype Collaborators = Collaborators(hash: string -> string, generateToken: (User, int) -> string)

  /** The contents of the user store and of the refresh-token store. */
  datatype Stores = Stores(users: seq<User>, tokens: seq<RefreshToken>)

  /** What an operation returns, and the stores afterwards. */
  datatype Outcome = Outcome(result: Result<AuthResponse>, after: Stores)

  /** What the database guarantees of the stores: identifiers assigned in
      insertion order, and every refresh record owned by a stored user. */
  predicate Consistent(s: Stores)
  {
    && UserIdsAssigned(s.users)
    && TokenIdsAssigned(s.tokens)
    && forall i :: 0 <= i < |s.tokens| ==> 1 <= s.tokens[i].userId <= |s.users|
  }

  /** The user a refresh record belongs to (the navigation loaded with it). */
  function Owner(users: seq<User>, record: RefreshToken): (u: User)
    requires UserIdsAssigned(users)
    requires 1 <= record.userId <= |users|
    ensures u in users && u.id == record.userId
  {
    users[record.userId - 1]
  }

  /** The record the rotation helper builds for `user` before saving it. */
  function NewRefreshToken(user: User, minted: string, now: int): (r: RefreshToken)
    ensures r.token == minted && r.userId == user.id
    ensures !r.isRevoked && r.expiresAt == now + RefreshTokenLifetime
  {
    RefreshToken(0, minted, now + RefreshTokenLifetime, false, user.id)
  }

  /** The rotation helper's effect: one new record saved for `user`. */
  function IssueRefreshToken(s: Stores, user: User, minted: string, now: int): (r: Stores)
    ensures r.users == s.users
    ensures |r.tokens| == |s.tokens| + 1 && r.tokens[..|s.tokens|] == s.tokens
    ensures r.tokens[|s.tokens|] == RefreshToken(|s.tokens| + 1, minted, now + RefreshTokenLifetime,
                                                 false, user.id)
    ensures FirstActive(s.tokens, minted).None? ==> FirstActive(r.tokens, minted) == Some(|s.tokens|)
  {
    FirstActiveAfterSave(s.tokens, NewRefreshToken(user, minted, now), minted);
    s.(tokens := Saved(s.tokens, NewRefreshToken(user, minted, now)))
  }

  /** Registration with `email` and `password`; `minted` is the random
      refresh-token string and `now` the current time. */
  function Register(s: Stores, c: Collaborators, email: string, password: string,
                    minted: string, now: int): (o: Outcome)
    ensures o.result.Err? <==> EmailTaken(s.users, email)
    ensures o.result.Err? ==> o.result.error == EmailAlreadyInUse && o.after == s
    ensures o.result.Ok? ==>
              var u := User(|s.users| + 1, email, c.hash(password));
              && o.after.users == s.users + [u]
              && o.result.value == AuthResponse(email, c.generateToken(u, now), minted)
              && o.after.tokens == s.tokens + [RefreshToken(|s.tokens| + 1, minted,
                                                            now + RefreshTokenLifetime, false, u.id)]
    ensures Consistent(s) ==> Consistent(o.after)
  {
    if FirstByEmail(s.users, email).Some? then
      Outcome(Err(EmailAlreadyInUse), s)
    else
      var users := Added(s.users, User(0, email, c.hash(password)));
      var newUser := users[|s.users|];
      var s1 := s.(users := users);
      var token := c.generateToken(newUser, now);
      Outcome(Ok(AuthResponse(newUser.email, token, minted)), IssueRefreshToken(s1, newUser, minted, now))
  }

  /** Login with `email` and `password`. */
  function Login(s: Stores, c: Collaborators, email: string, password: string,
                 minted: string, now: int): (o: Outcome)
    ensures o.result.Ok? <==> FirstByEmail(s.users, email).Some?
                              && c.hash(password) == s.users[FirstByEmail(s.users, email).value].passwordHash
    ensures !EmailTaken(s.users, email) ==> o.result.Err?
    ensures o.result.Err? ==> o.result.error == InvalidCredentials && o.after == s
    ensures o.result.Ok? ==>
              var u := s.users[FirstByEmail(s.users, email).value];
              && u.email == email
              && o.result.value == AuthResponse(email, c.generateToken(u, now), minted)
              && o.after.users == s.users
              && o.after.tokens == s.tokens + [RefreshToken(|s.tokens| + 1, minted,
                                                            now + RefreshTokenLifetime, false, u.id)]
    ensures Consistent(s) ==> Consistent(o.after)
  {
    match FirstByEmail(s.users, email)
    case None => Outcome(Err(InvalidCredentials), s)
    case Some(i) =>
      var user := s.users[i];
      if c.hash(password) != user.passwordHash then
        Outcome(Err(InvalidCredentials), s)
      else
        var token := c.generateToken(user, now);
        Outcome(Ok(AuthResponse(user.email, token, minted)), IssueRefreshToken(s, user, minted, now))
  }

  /** Redeeming the refresh-token string `presented` at time `now`. */
  function Refresh(s: Stores, c: Collaborators, presented: string,
                   minted: string, now: int): (o: Outcome)
    requires Consistent(s)
    ensures o.result.Ok? <==> FirstActive(s.tokens, presented).Some?
                              && now <= s.tokens[FirstActive(s.tokens, presented).value].expiresAt
    ensures o.result.Err? ==> o.result.error == InvalidOrExpiredToken && o.after == s
    ensures o.result.Ok? ==>
              var i := FirstActive(s.tokens, presented).value;
              var owner := Owner(s.users, s.tokens[i]);
              && o.result.value == AuthResponse(owner.email, c.generateToken(owner, now), minted)
              && o.after.users == s.users
              && |o.after.tokens| == |s.tokens| + 1
              && o.after.tokens[i] == s.tokens[i].(isRevoked := true)
              && (forall j :: 0 <= j < |s.tokens| && j != i ==> o.after.tokens[j] == s.tokens[j])
              && o.after.tokens[|s.tokens|] == RefreshToken(|s.tokens| + 1, minted,
                                                            now + RefreshTokenLifetime, false, owner.id)
    ensures Consistent(o.after)
  {
    match FirstActive(s.tokens, presented)
    case None => Outcome(Err(InvalidOrExpiredToken), s)
    case Some(i) =>
      var record := s.tokens[i];
      if record.expiresAt < now then
        Outcome(Err(InvalidOrExpiredToken), s)
      else
        var s1 := s.(tokens := Revoked(s.tokens, i));
        var owner := Owner(s.users, record);
        var token := c.generateToken(owner, now);
        Outcome(Ok(AuthResponse(owner.email, token, minted)), IssueRefreshToken(s1, owner, minted, now))
  }
}

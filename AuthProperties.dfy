/** Properties that relate several authentication operations: unique
    emails, unique usable refresh tokens, register-then-login, and single
    use of a refresh token. */
module AuthProperties {
  import opened Models
  import opened UserStore
  import opened RefreshTokenStore
  import opened AuthSpec

  /** Registration keeps at most one user per email, and afterwards the
      email is taken whether the call succeeded or failed. */
  lemma RegisterKeepsEmailsUnique(s: Stores, c: Collaborators, email: string, password: string,
                                  minted: string, now: int)
    requires UniqueEmails(s.users)
    ensures UniqueEmails(Register(s, c, email, password, minted, now).after.users)
    ensures EmailTaken(Register(s, c, email, password, minted, now).after.users, email)
  {
    var o := Register(s, c, email, password, minted, now);
    if o.result.Ok? {
      var u := User(0, email, c.hash(password));
      AddKeepsEmailsUnique(s.users, u);
      assert o.after.users == Added(s.users, u);
      assert o.after.users[|s.users|].email == email;
    }
  }

  /** A second registration of the same email fails and changes nothing. */
  lemma RegisterTwiceFails(s: Stores, c: Collaborators, email: string, p1: string, p2: string,
                           m1: string, m2: string, t1: int, t2: int)
    ensures var o1 := Register(s, c, email, p1, m1, t1);
            Register(o1.after, c, email, p2, m2, t2) == Outcome(Err(EmailAlreadyInUse), o1.after)
  {
    var o1 := Register(s, c, email, p1, m1, t1);
    if o1.result.Ok? {
      assert o1.after.users[|s.users|].email == email;
    }
  }

  /** Right after a successful registration, logging in with the same
      credentials succeeds for the new user. */
  lemma RegisterThenLogin(s: Stores, c: Collaborators, email: string, password: string,
                          m1: string, m2: string, t1: int, t2: int)
    requires Register(s, c, email, password, m1, t1).result.Ok?
    ensures var o1 := Register(s, c, email, password, m1, t1);
            var newUser := o1.after.users[|s.users|];
            Login(o1.after, c, email, password, m2, t2).result
              == Ok(AuthResponse(email, c.generateToken(newUser, t2), m2))
  {
    var o1 := Register(s, c, email, password, m1, t1);
    var u := User(0, email, c.hash(password));
    assert o1.after.users == Added(s.users, u);
    FoundAfterAdd(s.users, u);
  }

  /** Login after registration rejects a password with a different hash. */
  lemma RegisterThenWrongPassword(s: Stores, c: Collaborators, email: string, password: string,
                                  wrong: string, m1: string, m2: string, t1: int, t2: int)
    requires Register(s, c, email, password, m1, t1).result.Ok?
    requires c.hash(wrong) != c.hash(password)
    ensures var o1 := Register(s, c, email, password, m1, t1);
            Login(o1.after, c, email, wrong, m2, t2) == Outcome(Err(InvalidCredentials), o1.after)
  {
    var o1 := Register(s, c, email, password, m1, t1);
    var u := User(0, email, c.hash(password));
    assert o1.after.users == Added(s.users, u);
    FoundAfterAdd(s.users, u);
  }

  /** Given a fresh random string, registration keeps usable refresh-token
      strings unique. */
  lemma RegisterKeepsActiveUnique(s: Stores, c: Collaborators, email: string, password: string,
                                  minted: string, now: int)
    requires ActiveUnique(s.tokens) && Unused(s.tokens, minted)
    ensures ActiveUnique(Register(s, c, email, password, minted, now).after.tokens)
  {
    var o := Register(s, c, email, password, minted, now);
    if o.result.Ok? {
      var u := o.after.users[|s.users|];
      SaveKeepsActiveUnique(s.tokens, NewRefreshToken(u, minted, now));
      assert o.after.tokens == Saved(s.tokens, NewRefreshToken(u, minted, now));
    }
  }

  /** Given a fresh random string, login keeps usable refresh-token strings
      unique. */
  lemma LoginKeepsActiveUnique(s: Stores, c: Collaborators, email: string, password: string,
                               minted: string, now: int)
    requires ActiveUnique(s.tokens) && Unused(s.tokens, minted)
    ensures ActiveUnique(Login(s, c, email, password, minted, now).after.tokens)
  {
    var o := Login(s, c, email, password, minted, now);
    if o.result.Ok? {
      var u := s.users[FirstByEmail(s.users, email).value];
      SaveKeepsActiveUnique(s.tokens, NewRefreshToken(u, minted, now));
      assert o.after.tokens == Saved(s.tokens, NewRefreshToken(u, minted, now));
    }
  }

  /** Given a fresh random string, a refresh keeps usable refresh-token
      strings unique. */
  lemma RefreshKeepsActiveUnique(s: Stores, c: Collaborators, presented: string,
                                 minted: string, now: int)
    requires Consistent(s)
    requires ActiveUnique(s.tokens) && Unused(s.tokens, minted)
    ensures ActiveUnique(Refresh(s, c, presented, minted, now).after.tokens)
  {
    var o := Refresh(s, c, presented, minted, now);
    if o.result.Ok? {
      var i := FirstActive(s.tokens, presented).value;
      var owner := Owner(s.users, s.tokens[i]);
      var revoked := Revoked(s.tokens, i);
      RevokeKeepsActiveUnique(s.tokens, i);
      SaveKeepsActiveUnique(revoked, NewRefreshToken(owner, minted, now));
      assert o.after.tokens == Saved(revoked, NewRefreshToken(owner, minted, now));
    }
  }

  /** Single use: when usable refresh-token strings are unique and the new
      random string is fresh, a successful refresh hands out a different
      string, leaves no usable record with the presented one, and replaying
      the presented string fails without changing anything. */
  lemma RefreshIsSingleUse(s: Stores, c: Collaborators, presented: string, minted: string,
                           now: int, replayMinted: string, replayNow: int)
    requires Consistent(s)
    requires ActiveUnique(s.tokens) && Unused(s.tokens, minted)
    requires Refresh(s, c, presented, minted, now).result.Ok?
    ensures var o := Refresh(s, c, presented, minted, now);
            && o.result.value.refreshToken != presented
            && FirstActive(o.after.tokens, presented).None?
            && Refresh(o.after, c, presented, replayMinted, replayNow)
                 == Outcome(Err(InvalidOrExpiredToken), o.after)
  {
    var o := Refresh(s, c, presented, minted, now);
    var i := FirstActive(s.tokens, presented).value;
    var owner := Owner(s.users, s.tokens[i]);
    var revoked := Revoked(s.tokens, i);
    assert minted != presented by {
      assert s.tokens[i].token == presented;
    }
    RevokeFoundClearsToken(s.tokens, presented);
    FirstActiveAfterSave(revoked, NewRefreshToken(owner, minted, now), presented);
    assert o.after.tokens == Saved(revoked, NewRefreshToken(owner, minted, now));
  }

  /** A record whose expiry lies before `now` is refused even though it was
      never redeemed; one expiring exactly at `now` is still accepted. */
  lemma RefreshExpiryIsStrict(s: Stores, c: Collaborators, presented: string,
                              minted: string, now: int)
    requires Consistent(s)
    requires FirstActive(s.tokens, presented).Some?
    ensures var record := s.tokens[FirstActive(s.tokens, presented).value];
            && (record.expiresAt < now ==>
                  Refresh(s, c, presented, minted, now) == Outcome(Err(InvalidOrExpiredToken), s))
            && (record.expiresAt == now ==> Refresh(s, c, presented, minted, now).result.Ok?)
  {
  }

  /** A whole session from empty stores: register, log in, fail with a wrong
      password, refresh, and fail to refresh again with the same string. */
  lemma Session(c: Collaborators, m1: string, m2: string, m3: string, m4: string, t: int)
    requires c.hash("wrong") != c.hash("pw1")
    requires m1 != m2 && m3 != m1 && m3 != m2
    ensures var s0 := Stores([], []);
            var reg := Register(s0, c, "a@x.com", "pw1", m1, t);
            var login := Login(reg.after, c, "a@x.com", "pw1", m2, t);
            var bad := Login(login.after, c, "a@x.com", "wrong", m2, t);
            var ref := Refresh(bad.after, c, m1, m3, t);
            var replay := Refresh(ref.after, c, m1, m4, t);
            && reg.result.Ok? && reg.result.value.email == "a@x.com"
            && reg.result.value.refreshToken == m1
            && login.result.Ok? && login.result.value.email == "a@x.com"
            && bad.result == Err(InvalidCredentials)
            && ref.result.Ok? && ref.result.value.email == "a@x.com"
            && ref.result.value.refreshToken == m3
            && replay.result == Err(InvalidOrExpiredToken)
  {
    var s0 := Stores([], []);
    var reg := Register(s0, c, "a@x.com", "pw1", m1, t);
    RegisterThenLogin(s0, c, "a@x.com", "pw1", m1, m2, t, t);
    var login := Login(reg.after, c, "a@x.com", "pw1", m2, t);
    var bad := Login(login.after, c, "a@x.com", "wrong", m2, t);
    assert login.after.users == reg.after.users;
    RegisterThenWrongPassword(s0, c, "a@x.com", "pw1", "wrong", m1, m2, t, t);
    assert bad.after == login.after;
    var s := bad.after;
    assert s.tokens[0].token == m1 && s.tokens[1].token == m2;
    assert FirstActive(s.tokens, m1) == Some(0);
    assert Unused(s.tokens, m3);
    assert ActiveUnique(s.tokens);
    RefreshIsSingleUse(s, c, m1, m3, t, m4, t);
  }
}

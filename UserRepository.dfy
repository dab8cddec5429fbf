/** The user store: an in-memory sequence of users in insertion order,
    looked up by exact email and appended to on registration. */
module UserStore {
  import opened Models

  /** Position of the first user whose email is exactly `email`, if any
      (the query `FirstOrDefault(u => u.Email == email)`). */
  function FirstByEmail(users: seq<User>, email: string): (r: Option<nat>)
    ensures r.Some? ==> r.value < |users| && users[r.value].email == email
    ensures r.Some? ==> forall j :: 0 <= j < r.value ==> users[j].email != email
    ensures r.None? <==> forall j :: 0 <= j < |users| ==> users[j].email != email
    decreases |users|
  {
    if |users| == 0 then None
    else if users[0].email == email then Some(0)
    else
      match FirstByEmail(users[1..], email)
      case None => None
      case Some(k) => Some(k + 1)
  }

  /** Some stored user has exactly this email. */
  predicate EmailTaken(users: seq<User>, email: string)
  {
    exists j :: 0 <= j < |users| && users[j].email == email
  }

  /** At most one user per email. */
  predicate UniqueEmails(users: seq<User>)
  {
    forall i, j :: 0 <= i < j < |users| ==> users[i].email != users[j].email
  }

  /** Identifiers are assigned by the store in insertion order, starting at 1. */
  predicate UserIdsAssigned(users: seq<User>)
  {
    forall i :: 0 <= i < |users| ==> users[i].id == i + 1
  }

  /** The store after inserting `user`: the store assigns the next identifier. */
  function Added(users: seq<User>, user: User): (r: seq<User>)
    ensures |r| == |users| + 1 && r[..|users|] == users
    ensures r[|users|].email == user.email && r[|users|].passwordHash == user.passwordHash
    ensures r[|users|].id == |users| + 1
    ensures UserIdsAssigned(users) ==> UserIdsAssigned(r)
  {
    users + [user.(id := |users| + 1)]
  }

  /** Inserting a user never hides an earlier match, and makes the new
      email findable: at the new user itself when no earlier user had it. */
  lemma {:induction false} FirstByEmailAfterAdd(users: seq<User>, user: User, email: string)
    ensures FirstByEmail(users, email).Some? ==>
              FirstByEmail(Added(users, user), email) == FirstByEmail(users, email)
    ensures FirstByEmail(users, email).None? && user.email == email ==>
              FirstByEmail(Added(users, user), email) == Some(|users|)
    ensures FirstByEmail(users, email).None? && user.email != email ==>
              FirstByEmail(Added(users, user), email).None?
  {
    var after := Added(users, user);
    match FirstByEmail(users, email)
    case Some(i) =>
      assert after[i] == users[i];
      var k := FirstByEmail(after, email).value;
      assert k <= i;
      assert after[k] == users[k];
    case None =>
      assert forall j :: 0 <= j < |users| ==> after[j] == users[j];
      assert after[|users|].email == user.email;
  }

  /** After inserting `user`, a lookup of its email succeeds. */
  lemma FoundAfterAdd(users: seq<User>, user: User)
    ensures FirstByEmail(Added(users, user), user.email).Some?
    ensures !EmailTaken(users, user.email) ==>
              FirstByEmail(Added(users, user), user.email) == Some(|users|)
              && Added(users, user)[|users|] == user.(id := |users| + 1)
  {
    FirstByEmailAfterAdd(users, user, user.email);
  }

  /** Inserting a user whose email is not yet taken keeps emails unique. */
  lemma AddKeepsEmailsUnique(users: seq<User>, user: User)
    requires UniqueEmails(users)
    requires !EmailTaken(users, user.email)
    ensures UniqueEmails(Added(users, user))
  {
    var after := Added(users, user);
    forall i, j | 0 <= i < j < |after|
      ensures after[i].email != after[j].email
    {
      if j == |users| {
        assert after[i] == users[i];
      } else {
        assert after[i] == users[i] && after[j] == users[j];
      }
    }
  }

  /** The user repository: a store of users in insertion order. */
  class UserRepository {
    var users: seq<User>

    ghost predicate Valid()
      reads this
    {
      UserIdsAssigned(users)
    }

    constructor ()
      ensures Valid() && users == []
    {
      users := [];
    }

    /** The first user whose email equals `email`, or None. */
    method GetByEmail(email: string) returns (user: Option<User>)
      ensures user.Some? <==> EmailTaken(users, email)
      ensures user.Some? ==> FirstByEmail(users, email).Some?
                             && user.value == users[FirstByEmail(users, email).value]
    {
      match FirstByEmail(users, email)
      case None =>
        user := None;
      case Some(i) =>
        user := Some(users[i]);
    }

    /** Appends `user`; the store assigns its identifier, which the caller
        observes on the returned record. */
    method AddUser(user: User) returns (added: User)
      requires Valid()
      modifies this
      ensures Valid()
      ensures added == user.(id := |old(users)| + 1)
      ensures users == old(users) + [added]
    {
      added := user.(id := |users| + 1);
      users := users + [added];
    }
  }
}

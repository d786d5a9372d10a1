/**
 * The user directory behind `User.findOne({ email })` and `User.create(...)`:
 * users keyed by email, each with an identity the store assigns.
 */
module Directory {
  import opened Wrappers

  /** The store-assigned `_id`. */
  type UserId = nat

  /**
   * A stored user. `password` is the value the handler passes to
   * `User.create`; what the User model does with it is not part of this model.
   */
  datatype User = User(id: UserId, email: string, fullName: string, password: string, profilePicture: string)

  class UserStore {
    var users: map<string, User>
    var nextId: UserId

    /** Every user is filed under its own email, and identities are distinct and already issued. */
    ghost predicate Valid()
      reads this
    {
      (forall e :: e in users ==> users[e].email == e && users[e].id < nextId) &&
      (forall e1, e2 :: e1 in users && e2 in users && users[e1].id == users[e2].id ==> e1 == e2)
    }

    constructor ()
      ensures Valid() && users == map[]
    {
      users := map[];
      nextId := 0;
    }

    /** `User.findOne({ email })`: the user registered under exactly this email, if any. */
    function FindOne(email: string): (r: Option<User>)
      requires Valid()
      reads this
      ensures r.None? <==> email !in users
      ensures r.Some? ==> r.value == users[email] && r.value.email == email
    {
      if email in users then Some(users[email]) else None
    }

    /**
     * `User.create({ email, fullName, password, profilePicture })`: files a new
     * user with a fresh identity under an email not yet taken.
     */
    method Create(email: string, fullName: string, password: string, profilePicture: string) returns (u: User)
      requires Valid()
      requires email !in users
      modifies this
      ensures Valid()
      ensures u == User(u.id, email, fullName, password, profilePicture)
      ensures forall e :: e in old(users) ==> old(users)[e].id != u.id
      ensures users == old(users)[email := u]
    {
      u := User(nextId, email, fullName, password, profilePicture);
      users := users[email := u];
      nextId := nextId + 1;
    }
  }
}

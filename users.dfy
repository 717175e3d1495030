/**
 * The user table of the client API: the `User` entity with its `UserRole` and `UserStatus`
 * enums, and the Spring Data repository the services use (a map from id to user).
 */
module Users {
  import opened Wrappers

  datatype UserRole = Client | Admin
  datatype UserStatus = Active | Inactive | Suspended | Pending

  /** Id 0 is the null id of a `new User()` that was never saved; generated ids start at 1. */
  const UNSAVED: int := 0

  /**
   * A row of the user table. Names and email are filled on every path that creates a user;
   * `None` is a null column. `password` holds the encoded password.
   */
  datatype User = User(
    id: int,
    firstName: string,
    lastName: string,
    email: string,
    password: Option<string>,
    phone: Option<string>,
    address: Option<string>,
    city: Option<string>,
    postalCode: Option<string>,
    country: Option<string>,
    companyName: Option<string>,
    role: UserRole,
    status: UserStatus)

  /** A `new User()` with the setters every creation path calls. */
  function NewUser(firstName: string, lastName: string, email: string, password: Option<string>,
                   role: UserRole, status: UserStatus): (u: User)
    ensures u.id == UNSAVED && u.email == email && u.role == role && u.status == status
    ensures u.phone.None? && u.address.None? && u.city.None? && u.postalCode.None? && u.country.None? && u.companyName.None?
  {
    User(UNSAVED, firstName, lastName, email, password, None, None, None, None, None, None, role, status)
  }

  /** `UserRepository`: the user table. Every row knows its own id. */
  class UserRepository {
    var users: map<int, User>
    var nextId: int

    ghost predicate Valid()
      reads this
    {
      && nextId > UNSAVED
      && forall id | id in users :: UNSAVED < id < nextId && users[id].id == id
    }

    /** The emails the table holds. */
    ghost function Emails(): set<string>
      reads this
    {
      EmailsOf(users)
    }

    /** No two rows share an email. */
    ghost predicate UniqueEmails()
      reads this
    {
      Unique(users)
    }

    constructor ()
      ensures Valid() && users == map[] && nextId == 1
    {
      users := map[];
      nextId := 1;
    }

    /** `existsByEmail`. */
    function ExistsByEmail(email: string): (b: bool)
      reads this
      ensures b <==> email in Emails()
    {
      exists id | id in users :: users[id].email == email
    }

    /** `existsByEmailAndIdNot`: some row other than `id` holds the email. */
    function ExistsByEmailAndIdNot(email: string, id: int): (b: bool)
      reads this
      ensures b <==> exists other | other in users :: other != id && users[other].email == email
    {
      exists other | other in users && other != id :: users[other].email == email
    }

    /** `findById`. */
    function FindById(id: int): (r: Option<User>)
      reads this
      ensures r.Some? <==> id in users
      ensures r.Some? ==> r.value == users[id]
    {
      if id in users then Some(users[id]) else None
    }

    /** `findByEmail`: a row holding the email; with unique emails, the only one. */
    method FindByEmail(email: string) returns (r: Option<User>)
      requires Valid()
      ensures r.Some? <==> ExistsByEmail(email)
      ensures r.Some? ==> r.value.email == email && r.value.id in users && users[r.value.id] == r.value
      ensures r.Some? && UniqueEmails() ==> forall id | id in users && users[id].email == email :: id == r.value.id
    {
      if !ExistsByEmail(email) {
        return None;
      }
      var id :| id in users && users[id].email == email;
      r := Some(users[id]);
    }

    /**
     * `save`: a user whose id is stored overwrites that row; any other user is inserted
     * under the next generated id. Returns what was stored.
     */
    method Save(u: User) returns (saved: User)
      requires Valid()
      modifies this
      ensures Valid()
      ensures u.id in old(users) ==> saved == u && nextId == old(nextId)
      ensures u.id !in old(users) ==> saved == u.(id := old(nextId)) && nextId == old(nextId) + 1
      ensures users == old(users)[saved.id := saved]
    {
      if u.id in users {
        saved := u;
      } else {
        saved := u.(id := nextId);
        nextId := nextId + 1;
      }
      users := users[saved.id := saved];
    }

    /** `deleteById`. */
    method DeleteById(id: int)
      requires Valid()
      modifies this
      ensures Valid()
      ensures users == old(users) - {id} && nextId == old(nextId)
    {
      users := users - {id};
    }
  }

  /** The emails a table holds. */
  ghost function EmailsOf(users: map<int, User>): set<string>
  {
    set id | id in users :: users[id].email
  }

  /** No two rows of a table share an email. */
  ghost predicate Unique(users: map<int, User>)
  {
    forall i, j | i in users && j in users && users[i].email == users[j].email :: i == j
  }

  /** Overwriting a row with a user of the same email keeps the set of emails. */
  lemma OverwriteKeepsEmails(users: map<int, User>, id: int, u: User)
    requires id in users && users[id].email == u.email
    ensures EmailsOf(users[id := u]) == EmailsOf(users)
  {
    var after := users[id := u];
    forall e | e in EmailsOf(users) ensures e in EmailsOf(after) {
      var i :| i in users && users[i].email == e;
      assert i in after && after[i].email == e;
    }
  }

  /** Inserting a row under a new id adds its email to the set of emails. */
  lemma InsertAddsEmail(users: map<int, User>, id: int, u: User)
    requires id !in users
    ensures EmailsOf(users[id := u]) == EmailsOf(users) + {u.email}
  {
    var after := users[id := u];
    assert id in after && after[id].email == u.email;
    forall e | e in EmailsOf(users) ensures e in EmailsOf(after) {
      var i :| i in users && users[i].email == e;
      assert i in after && after[i].email == e;
    }
  }

  /**
   * Storing a row whose email no other row holds (a new row, or a row keeping or taking a
   * free email) keeps emails unique.
   */
  lemma StoreKeepsUnique(users: map<int, User>, id: int, u: User)
    requires Unique(users)
    requires forall other | other in users && other != id :: users[other].email != u.email
    ensures Unique(users[id := u])
  {
  }
}

/**
 * `DataInitializer`: the start-up seeding of the user table with two admins and three test
 * clients, each created only when its email is not yet taken, so that seeding again adds
 * no row. The password encoder is an opaque function.
 */
module DataInitializer {
  import opened Wrappers
  import opened Users

  /** One seeded account (the log description is left out). */
  datatype Seed = Seed(firstName: string, lastName: string, email: string, password: string, role: UserRole)

  const SUPER_ADMIN: Seed := Seed("Super", "Admin", "admin@payetonkawa.com", "password123", Admin)
  const TEST_ADMIN: Seed := Seed("Test", "Admin", "test.admin@payetonkawa.com", "admin123", Admin)
  const PRIVATE_CLIENT: Seed := Seed("Jean", "Dupont", "client@test.com", "password123", Client)
  const PRO_CLIENT: Seed := Seed("Marie", "Martin", "pro.client@test.com", "password123", Client)
  const INACTIVE_CLIENT: Seed := Seed("Test", "Inactif", "inactive@test.com", "password123", Client)

  const ADMIN_EMAILS: set<string> := {SUPER_ADMIN.email, TEST_ADMIN.email}
  const CLIENT_EMAILS: set<string> := {PRIVATE_CLIENT.email, PRO_CLIENT.email, INACTIVE_CLIENT.email}
  const SEED_EMAILS: set<string> := ADMIN_EMAILS + CLIENT_EMAILS

  /** The unsaved user `createUserIfNotExists` builds for a seed: active, with the seed's role. */
  function SeedUser(s: Seed, encode: string -> string): (u: User)
    ensures u.id == UNSAVED && u.email == s.email && u.role == s.role && u.status == Active
    ensures u.password == Some(encode(s.password))
  {
    NewUser(s.firstName, s.lastName, s.email, Some(encode(s.password)), s.role, Active)
  }

  /** The company and contact columns the professional client receives. */
  function Professional(u: User): (p: User)
    ensures p.id == u.id && p.email == u.email && p.role == u.role && p.status == u.status
    ensures p.companyName == Some("Restaurant Chez Marie") && p.city == Some("Lyon")
  {
    u.(companyName := Some("Restaurant Chez Marie"),
       phone := Some("0987654321"),
       address := Some("45 Avenue des Champs"),
       city := Some("Lyon"),
       postalCode := Some("69000"),
       country := Some("France"))
  }

  /** A row that holds the same email as before keeps email uniqueness. */
  lemma OverwriteKeepsUnique(users: map<int, User>, id: int, u: User)
    requires Unique(users) && id in users && users[id].email == u.email
    ensures Unique(users[id := u])
  {
    StoreKeepsUnique(users, id, u);
  }

  /**
   * Seeding the emails `seeds` took `before` to `after` touching no other row: no row is
   * removed or changes its email, rows with other emails are kept as they were, and every
   * new row holds a seeded email.
   */
  ghost predicate OnlySeedsChanged(before: map<int, User>, after: map<int, User>, seeds: set<string>)
  {
    && (forall id | id in before :: id in after && after[id].email == before[id].email)
    && (forall id | id in before && before[id].email !in seeds :: after[id] == before[id])
    && (forall id | id in after && id !in before :: after[id].email in seeds)
  }

  /**
   * The professional client's rows after seeding: a row that had a company is kept, a row
   * without one and a new row receive the company and contact columns.
   */
  ghost predicate ProfessionalSeeded(before: map<int, User>, after: map<int, User>, encode: string -> string)
  {
    forall id | id in after && after[id].email == PRO_CLIENT.email ::
      if id in before && before[id].companyName.Some? then after[id] == before[id]
      else if id in before then after[id] == Professional(before[id])
      else after[id] == Professional(SeedUser(PRO_CLIENT, encode).(id := id))
  }

  /** Every row of the inactive test client is INACTIVE. */
  ghost predicate InactiveSeeded(users: map<int, User>)
  {
    forall id | id in users && users[id].email == INACTIVE_CLIENT.email :: users[id].status == Inactive
  }

  /** Seeding other emails around the professional client keeps what its seeding did. */
  lemma ProfessionalSeededAcross(s0: map<int, User>, s1: map<int, User>, s2: map<int, User>, s3: map<int, User>,
                                 encode: string -> string)
    requires OnlySeedsChanged(s0, s1, {PRIVATE_CLIENT.email})
    requires ProfessionalSeeded(s1, s2, encode)
    requires OnlySeedsChanged(s2, s3, {INACTIVE_CLIENT.email})
    ensures ProfessionalSeeded(s0, s3, encode)
  {
    forall id | id in s3 && s3[id].email == PRO_CLIENT.email
      ensures if id in s0 && s0[id].companyName.Some? then s3[id] == s0[id]
              else if id in s0 then s3[id] == Professional(s0[id])
              else s3[id] == Professional(SeedUser(PRO_CLIENT, encode).(id := id))
    {
      assert id in s2 && s3[id] == s2[id];
      if id in s1 {
        assert s1[id].email == PRO_CLIENT.email;
      }
    }
  }

  /** Seeding the administrators first keeps what the professional client's seeding did. */
  lemma ProfessionalSeededAfterAdmins(s0: map<int, User>, s1: map<int, User>, s2: map<int, User>,
                                      encode: string -> string)
    requires OnlySeedsChanged(s0, s1, ADMIN_EMAILS)
    requires OnlySeedsChanged(s1, s2, CLIENT_EMAILS)
    requires ProfessionalSeeded(s1, s2, encode)
    ensures ProfessionalSeeded(s0, s2, encode)
  {
    assert PRO_CLIENT.email !in ADMIN_EMAILS;
    forall id | id in s2 && s2[id].email == PRO_CLIENT.email
      ensures if id in s0 && s0[id].companyName.Some? then s2[id] == s0[id]
              else if id in s0 then s2[id] == Professional(s0[id])
              else s2[id] == Professional(SeedUser(PRO_CLIENT, encode).(id := id))
    {
      if id in s1 {
        assert s1[id].email == PRO_CLIENT.email;
      }
    }
  }

  /** The two administrator seeding steps together add the administrator emails. */
  lemma AdminEmailsAdded(e0: set<string>, e1: set<string>, e2: set<string>)
    requires e1 == e0 + {SUPER_ADMIN.email} && e2 == e1 + {TEST_ADMIN.email}
    ensures e2 == e0 + ADMIN_EMAILS
  {
  }

  /** The three client seeding steps together add the client emails. */
  lemma ClientEmailsAdded(e0: set<string>, e1: set<string>, e2: set<string>, e3: set<string>)
    requires e1 == e0 + {PRIVATE_CLIENT.email} && e2 == e1 + {PRO_CLIENT.email} && e3 == e2 + {INACTIVE_CLIENT.email}
    ensures e3 == e0 + CLIENT_EMAILS
  {
  }

  /** Seeding the administrators, then the clients, adds every seeded email. */
  lemma SeedEmailsAdded(e0: set<string>, e1: set<string>, e2: set<string>)
    requires e1 == e0 + ADMIN_EMAILS && e2 == e1 + CLIENT_EMAILS
    ensures e2 == e0 + SEED_EMAILS
  {
  }

  /** A table holding every seeded email holds the administrator and the client emails. */
  lemma SeedEmailsSplit(e0: set<string>, e1: set<string>)
    requires e1 == e0 + ADMIN_EMAILS
    ensures SEED_EMAILS <= e0 <==> ADMIN_EMAILS <= e0 && CLIENT_EMAILS <= e1
  {
  }

  /** Two seeding steps compose into one seeding the union of their emails. */
  lemma SeedsChangedCompose(a: map<int, User>, b: map<int, User>, c: map<int, User>, s: set<string>, t: set<string>)
    requires OnlySeedsChanged(a, b, s) && OnlySeedsChanged(b, c, t)
    ensures OnlySeedsChanged(a, c, s + t)
  {
  }

  /** Overwriting a row that holds a seeded email, keeping that email, is a seeding step. */
  lemma SeedRowOverwritten(users: map<int, User>, id: int, u: User, seeds: set<string>)
    requires id in users && users[id].email == u.email && u.email in seeds
    ensures OnlySeedsChanged(users, users[id := u], seeds)
  {
  }

  /** Two seeding steps of the same emails are one. */
  lemma SeedsChangedTrans(a: map<int, User>, b: map<int, User>, c: map<int, User>, s: set<string>)
    requires OnlySeedsChanged(a, b, s) && OnlySeedsChanged(b, c, s)
    ensures OnlySeedsChanged(a, c, s)
  {
  }

  /** Seeding other emails after the inactive client keeps its rows INACTIVE. */
  lemma InactiveSeededAcross(s0: map<int, User>, s1: map<int, User>, seeds: set<string>)
    requires InactiveSeeded(s0) && OnlySeedsChanged(s0, s1, seeds) && INACTIVE_CLIENT.email !in seeds
    ensures InactiveSeeded(s1)
  {
  }

  class DataInitializer {
    const repo: UserRepository
    const encode: string -> string

    constructor (repo: UserRepository, encode: string -> string)
      ensures this.repo == repo && this.encode == encode
    {
      this.repo := repo;
      this.encode := encode;
    }

    /**
     * `createUserIfNotExists`: the stored user holding the seed's email, or else a new active
     * user with the seed's role and encoded password, saved under a fresh id.
     */
    method CreateUserIfNotExists(s: Seed) returns (u: User)
      requires repo.Valid()
      modifies repo
      ensures repo.Valid()
      ensures u.email == s.email && u.id in repo.users && repo.users[u.id] == u
      ensures s.email in old(repo.Emails()) ==>
        && repo.users == old(repo.users) && repo.nextId == old(repo.nextId)
        && (old(repo.UniqueEmails()) ==> forall id | id in repo.users && repo.users[id].email == s.email :: id == u.id)
      ensures s.email !in old(repo.Emails()) ==>
        && u == SeedUser(s, encode).(id := old(repo.nextId))
        && old(repo.nextId) !in old(repo.users)
        && repo.users == old(repo.users)[u.id := u]
      ensures repo.Emails() == old(repo.Emails()) + {s.email}
      ensures OnlySeedsChanged(old(repo.users), repo.users, {s.email})
      ensures old(repo.UniqueEmails()) ==> repo.UniqueEmails()
    {
      if repo.ExistsByEmail(s.email) {
        var found := repo.FindByEmail(s.email);
        return found.value;
      }
      var user := SeedUser(s, encode);
      ghost var before := repo.users;
      u := repo.Save(user);
      InsertAddsEmail(before, u.id, u);
      if Unique(before) {
        StoreKeepsUnique(before, u.id, u);
      }
    }

    /** `initializeAdminUsers`: seeds the two administrators. */
    method InitializeAdminUsers()
      requires repo.Valid()
      modifies repo
      ensures repo.Valid()
      ensures repo.Emails() == old(repo.Emails()) + ADMIN_EMAILS
      ensures ADMIN_EMAILS <= old(repo.Emails()) ==> repo.users == old(repo.users) && repo.nextId == old(repo.nextId)
      ensures forall id | id in old(repo.users) :: id in repo.users && repo.users[id] == old(repo.users[id])
      ensures OnlySeedsChanged(old(repo.users), repo.users, ADMIN_EMAILS)
      ensures old(repo.UniqueEmails()) ==> repo.UniqueEmails()
    {
      ghost var s0, e0 := repo.users, repo.Emails();
      var principal := CreateUserIfNotExists(SUPER_ADMIN);
      ghost var s1, e1 := repo.users, repo.Emails();
      var secondary := CreateUserIfNotExists(TEST_ADMIN);
      AdminEmailsAdded(e0, e1, repo.Emails());
      SeedsChangedCompose(s0, s1, repo.users, {SUPER_ADMIN.email}, {TEST_ADMIN.email});
    }

    /**
     * `initializeTestClients`: seeds the three clients, fills in the professional client's
     * company and contact columns when it has no company, and always marks the inactive
     * client INACTIVE.
     */
    method InitializeTestClients()
      requires repo.Valid()
      modifies repo
      ensures repo.Valid()
      ensures repo.Emails() == old(repo.Emails()) + CLIENT_EMAILS
      ensures CLIENT_EMAILS <= old(repo.Emails()) ==> repo.users.Keys == old(repo.users.Keys) && repo.nextId == old(repo.nextId)
      ensures OnlySeedsChanged(old(repo.users), repo.users, CLIENT_EMAILS)
      ensures old(repo.UniqueEmails()) ==> repo.UniqueEmails()
      ensures old(repo.UniqueEmails()) ==> InactiveSeeded(repo.users)
      ensures old(repo.UniqueEmails()) ==> ProfessionalSeeded(old(repo.users), repo.users, encode)
    {
      ghost var s0, e0 := repo.users, repo.Emails();
      var individual := CreateUserIfNotExists(PRIVATE_CLIENT);
      ghost var s1, e1 := repo.users, repo.Emails();
      SeedProfessionalClient();
      ghost var s2, e2 := repo.users, repo.Emails();
      SeedInactiveClient();
      ClientEmailsAdded(e0, e1, e2, repo.Emails());
      SeedsChangedCompose(s0, s1, s2, {PRIVATE_CLIENT.email}, {PRO_CLIENT.email});
      SeedsChangedCompose(s0, s2, repo.users, {PRIVATE_CLIENT.email, PRO_CLIENT.email}, {INACTIVE_CLIENT.email});
      if Unique(s0) {
        ProfessionalSeededAcross(s0, s1, s2, repo.users, encode);
      }
    }

    /**
     * Lines 82-100 of `initializeTestClients`: seeds the professional client and fills in its
     * company and contact columns when it has no company.
     */
    method SeedProfessionalClient()
      requires repo.Valid()
      modifies repo
      ensures repo.Valid()
      ensures repo.Emails() == old(repo.Emails()) + {PRO_CLIENT.email}
      ensures PRO_CLIENT.email in old(repo.Emails()) ==> repo.users.Keys == old(repo.users.Keys) && repo.nextId == old(repo.nextId)
      ensures OnlySeedsChanged(old(repo.users), repo.users, {PRO_CLIENT.email})
      ensures old(repo.UniqueEmails()) ==> repo.UniqueEmails() && ProfessionalSeeded(old(repo.users), repo.users, encode)
    {
      ghost var s0 := repo.users;
      var professionalClient := CreateUserIfNotExists(PRO_CLIENT);
      ghost var s1 := repo.users;
      if professionalClient.companyName.None? {
        professionalClient := Professional(professionalClient);
        var saved := repo.Save(professionalClient);
        OverwriteKeepsEmails(s1, professionalClient.id, professionalClient);
        SeedRowOverwritten(s1, professionalClient.id, professionalClient, {PRO_CLIENT.email});
        SeedsChangedTrans(s0, s1, repo.users, {PRO_CLIENT.email});
        if Unique(s1) {
          OverwriteKeepsUnique(s1, professionalClient.id, professionalClient);
        }
      }
    }

    /**
     * Lines 103-116 of `initializeTestClients`: seeds the inactive client and saves it
     * INACTIVE, whatever its status was.
     */
    method SeedInactiveClient()
      requires repo.Valid()
      modifies repo
      ensures repo.Valid()
      ensures repo.Emails() == old(repo.Emails()) + {INACTIVE_CLIENT.email}
      ensures INACTIVE_CLIENT.email in old(repo.Emails()) ==> repo.users.Keys == old(repo.users.Keys) && repo.nextId == old(repo.nextId)
      ensures OnlySeedsChanged(old(repo.users), repo.users, {INACTIVE_CLIENT.email})
      ensures old(repo.UniqueEmails()) ==> repo.UniqueEmails() && InactiveSeeded(repo.users)
    {
      ghost var s0 := repo.users;
      var inactiveClient := CreateUserIfNotExists(INACTIVE_CLIENT);
      ghost var s1 := repo.users;
      inactiveClient := inactiveClient.(status := Inactive);
      var saved := repo.Save(inactiveClient);
      OverwriteKeepsEmails(s1, inactiveClient.id, inactiveClient);
      SeedRowOverwritten(s1, inactiveClient.id, inactiveClient, {INACTIVE_CLIENT.email});
      SeedsChangedTrans(s0, s1, repo.users, {INACTIVE_CLIENT.email});
      if Unique(s1) {
        OverwriteKeepsUnique(s1, inactiveClient.id, inactiveClient);
      }
    }

    /**
     * `run`: seeds the administrators, then the test clients. A second run finds every seeded
     * email taken and adds no row.
     */
    method Run()
      requires repo.Valid()
      modifies repo
      ensures repo.Valid()
      ensures repo.Emails() == old(repo.Emails()) + SEED_EMAILS
      ensures SEED_EMAILS <= old(repo.Emails()) ==> repo.users.Keys == old(repo.users.Keys) && repo.nextId == old(repo.nextId)
      ensures OnlySeedsChanged(old(repo.users), repo.users, SEED_EMAILS)
      ensures old(repo.UniqueEmails()) ==> repo.UniqueEmails()
      ensures old(repo.UniqueEmails()) ==> InactiveSeeded(repo.users)
      ensures old(repo.UniqueEmails()) ==> ProfessionalSeeded(old(repo.users), repo.users, encode)
      ensures old(repo.UniqueEmails()) ==>
        forall id | id in repo.users && repo.users[id].email == PRO_CLIENT.email :: repo.users[id].companyName.Some?
    {
      ghost var s0, e0 := repo.users, repo.Emails();
      InitializeAdminUsers();
      ghost var s1, e1 := repo.users, repo.Emails();
      InitializeTestClients();
      SeedEmailsAdded(e0, e1, repo.Emails());
      SeedEmailsSplit(e0, e1);
      SeedsChangedCompose(s0, s1, repo.users, ADMIN_EMAILS, CLIENT_EMAILS);
      if Unique(s0) {
        ProfessionalSeededAfterAdmins(s0, s1, repo.users, encode);
      }
    }
  }
}

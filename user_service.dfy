/**
 * `UserServiceImpl`: user management over the user table, with the DTO conversions it uses.
 * The password encoder is an opaque function given to the service.
 */
module UserService {
  import opened Wrappers
  import opened JavaInt
  import opened Users

  /** The creation request. `None` is a null field; role is required by validation. */
  datatype CreateUserDto = CreateUserDto(
    firstName: string,
    lastName: string,
    email: string,
    password: Option<string>,
    phone: Option<string>,
    address: Option<string>,
    city: Option<string>,
    postalCode: Option<string>,
    country: Option<string>,
    role: UserRole,
    companyName: Option<string>)

  /** The partial-update request: every field may be null, meaning "keep". */
  datatype UpdateUserDto = UpdateUserDto(
    firstName: Option<string>,
    lastName: Option<string>,
    email: Option<string>,
    password: Option<string>,
    phone: Option<string>,
    address: Option<string>,
    city: Option<string>,
    postalCode: Option<string>,
    country: Option<string>,
    status: Option<UserStatus>,
    role: Option<UserRole>,
    companyName: Option<string>)

  /** The response view of a user: every column except the password. */
  datatype UserDto = UserDto(
    id: int,
    firstName: string,
    lastName: string,
    email: string,
    phone: Option<string>,
    address: Option<string>,
    city: Option<string>,
    postalCode: Option<string>,
    country: Option<string>,
    status: UserStatus,
    role: UserRole,
    companyName: Option<string>)

  datatype UserError =
    | UserNotFound(message: string)        // UserNotFoundException
    | EmailAlreadyExists(message: string)  // EmailAlreadyExistsException

  const DUPLICATE_EMAIL: string := "Un utilisateur avec cet email existe déjà: "
  const NOT_FOUND_ID: string := "Utilisateur non trouvé avec l'ID: "

  function NotFound(id: int): UserError {
    UserNotFound(NOT_FOUND_ID + Show(id))
  }

  function Duplicate(email: string): UserError {
    EmailAlreadyExists(DUPLICATE_EMAIL + email)
  }

  /** The value a nullable update field leaves in place of `current`. */
  function Keep<T>(update: Option<T>, current: T): T {
    if update.Some? then update.value else current
  }

  /** Encodes a supplied password; a null one stays null. */
  function EncodeIfPresent(encode: string -> string, password: Option<string>): (r: Option<string>)
    ensures r.Some? <==> password.Some?
    ensures password.Some? ==> r.value == encode(password.value)
  {
    if password.Some? then Some(encode(password.value)) else None
  }

  /** `convertCreateDtoToEntity`: a new, unsaved, active user built from the request. */
  function FromCreateDto(dto: CreateUserDto, encode: string -> string): (u: User)
    ensures u.id == UNSAVED
    ensures u.status == Active && u.role == dto.role
    ensures u.password.Some? <==> dto.password.Some?
    ensures dto.password.Some? ==> u.password == Some(encode(dto.password.value))
  {
    User(UNSAVED, dto.firstName, dto.lastName, dto.email, EncodeIfPresent(encode, dto.password),
         dto.phone, dto.address, dto.city, dto.postalCode, dto.country, dto.companyName,
         dto.role, Active)
  }

  /**
   * `updateEntityFromDto`: the user its chain of null checks leaves, each non-null request
   * field replacing the corresponding column.
   */
  function Merged(u: User, dto: UpdateUserDto, encode: string -> string): User {
    u.(firstName := Keep(dto.firstName, u.firstName),
       lastName := Keep(dto.lastName, u.lastName),
       email := Keep(dto.email, u.email),
       password := if dto.password.Some? then EncodeIfPresent(encode, dto.password) else u.password,
       phone := if dto.phone.Some? then dto.phone else u.phone,
       address := if dto.address.Some? then dto.address else u.address,
       city := if dto.city.Some? then dto.city else u.city,
       postalCode := if dto.postalCode.Some? then dto.postalCode else u.postalCode,
       country := if dto.country.Some? then dto.country else u.country,
       status := Keep(dto.status, u.status),
       role := Keep(dto.role, u.role),
       companyName := if dto.companyName.Some? then dto.companyName else u.companyName)
  }

  /** Null-means-keep, field by field: a null field keeps the column, any other replaces it. */
  lemma MergeFieldwise(u: User, dto: UpdateUserDto, encode: string -> string)
    ensures var m := Merged(u, dto, encode);
      && m.id == u.id
      && (dto.firstName.Some? ==> m.firstName == dto.firstName.value) && (dto.firstName.None? ==> m.firstName == u.firstName)
      && (dto.lastName.Some? ==> m.lastName == dto.lastName.value) && (dto.lastName.None? ==> m.lastName == u.lastName)
      && (dto.email.Some? ==> m.email == dto.email.value) && (dto.email.None? ==> m.email == u.email)
      && (dto.password.Some? ==> m.password == Some(encode(dto.password.value))) && (dto.password.None? ==> m.password == u.password)
      && (dto.phone.Some? ==> m.phone == dto.phone) && (dto.phone.None? ==> m.phone == u.phone)
      && (dto.address.Some? ==> m.address == dto.address) && (dto.address.None? ==> m.address == u.address)
      && (dto.city.Some? ==> m.city == dto.city) && (dto.city.None? ==> m.city == u.city)
      && (dto.postalCode.Some? ==> m.postalCode == dto.postalCode) && (dto.postalCode.None? ==> m.postalCode == u.postalCode)
      && (dto.country.Some? ==> m.country == dto.country) && (dto.country.None? ==> m.country == u.country)
      && (dto.status.Some? ==> m.status == dto.status.value) && (dto.status.None? ==> m.status == u.status)
      && (dto.role.Some? ==> m.role == dto.role.value) && (dto.role.None? ==> m.role == u.role)
      && (dto.companyName.Some? ==> m.companyName == dto.companyName) && (dto.companyName.None? ==> m.companyName == u.companyName)
  {
  }

  /** The request with no field set. */
  const NoChange: UpdateUserDto :=
    UpdateUserDto(None, None, None, None, None, None, None, None, None, None, None, None)

  /** An update with every field null changes nothing. */
  lemma MergeNothing(u: User, encode: string -> string)
    ensures Merged(u, NoChange, encode) == u
  {
  }

  /** Applying the same update twice is applying it once. */
  lemma MergeIdempotent(u: User, dto: UpdateUserDto, encode: string -> string)
    ensures Merged(Merged(u, dto, encode), dto, encode) == Merged(u, dto, encode)
  {
  }

  /** The role changes only through a non-null role field; the id never changes. */
  lemma MergeRole(u: User, dto: UpdateUserDto, encode: string -> string)
    ensures Merged(u, dto, encode).id == u.id
    ensures Merged(u, dto, encode).role != u.role <==> dto.role.Some? && dto.role.value != u.role
  {
  }

  /** `convertEntityToDto`: the public columns of the user. */
  function ToDto(u: User): UserDto {
    UserDto(u.id, u.firstName, u.lastName, u.email, u.phone, u.address, u.city, u.postalCode,
            u.country, u.status, u.role, u.companyName)
  }

  /** The response never depends on the password, and determines every other column. */
  lemma ToDtoHidesOnlyPassword(a: User, b: User)
    ensures ToDto(a) == ToDto(b) <==> a.(password := b.password) == b
  {
    if ToDto(a) == ToDto(b) {
      assert a.id == ToDto(a).id == ToDto(b).id == b.id;
    }
  }

  /** The response to a creation echoes the request, under the id the table gave. */
  lemma CreatedDtoEchoesRequest(dto: CreateUserDto, encode: string -> string, id: int)
    ensures var r := ToDto(FromCreateDto(dto, encode).(id := id));
      && r.id == id && r.email == dto.email && r.firstName == dto.firstName && r.lastName == dto.lastName
      && r.phone == dto.phone && r.address == dto.address && r.city == dto.city
      && r.postalCode == dto.postalCode && r.country == dto.country && r.companyName == dto.companyName
      && r.role == dto.role && r.status == Active
  {
  }

  class UserServiceImpl {
    const repo: UserRepository
    const encode: string -> string

    constructor (repo: UserRepository, encode: string -> string)
      ensures this.repo == repo && this.encode == encode
    {
      this.repo := repo;
      this.encode := encode;
    }

    /**
     * `createUser`: refuses an email the table already holds; otherwise stores the new
     * user under a fresh id and returns its public view.
     */
    method CreateUser(dto: CreateUserDto) returns (r: Result<UserDto, UserError>)
      requires repo.Valid()
      modifies repo
      ensures repo.Valid()
      ensures dto.email in old(repo.Emails()) ==>
        && r == Failure(Duplicate(dto.email))
        && repo.users == old(repo.users) && repo.nextId == old(repo.nextId)
      ensures dto.email !in old(repo.Emails()) ==>
        var u := FromCreateDto(dto, encode).(id := old(repo.nextId));
        && r == Success(ToDto(u))
        && old(repo.nextId) !in old(repo.users)
        && repo.users == old(repo.users)[u.id := u]
      ensures repo.Emails() == old(repo.Emails()) + {dto.email}
      ensures old(repo.UniqueEmails()) ==> repo.UniqueEmails()
    {
      if repo.ExistsByEmail(dto.email) {
        return Failure(Duplicate(dto.email));
      }
      var user := FromCreateDto(dto, encode);
      ghost var before := repo.users;
      var saved := repo.Save(user);
      InsertAddsEmail(before, saved.id, saved);
      if Unique(before) {
        StoreKeepsUnique(before, saved.id, saved);
      }
      r := Success(ToDto(saved));
    }

    /** `getUserById`: the public view of the stored user, or UserNotFoundException. */
    function GetUserById(id: int): (r: Result<UserDto, UserError>)
      reads repo
      ensures r.Success? <==> id in repo.users
      ensures r.Success? ==> r.value == ToDto(repo.users[id])
      ensures r.Failure? ==> r.error == NotFound(id)
    {
      match repo.FindById(id)
      case Some(u) => Success(ToDto(u))
      case None => Failure(NotFound(id))
    }

    /**
     * `updateUser`: fails for an unknown id, or for a changed email some other user
     * holds; otherwise stores the partial update and returns its public view.
     */
    method UpdateUser(id: int, dto: UpdateUserDto) returns (r: Result<UserDto, UserError>)
      requires repo.Valid()
      modifies repo
      ensures repo.Valid() && repo.nextId == old(repo.nextId)
      ensures id !in old(repo.users) ==> r == Failure(NotFound(id)) && repo.users == old(repo.users)
      ensures id in old(repo.users) && dto.email.Some? && dto.email.value != old(repo.users[id].email)
              && old(repo.ExistsByEmailAndIdNot(dto.email.value, id)) ==>
        r == Failure(Duplicate(dto.email.value)) && repo.users == old(repo.users)
      ensures id in old(repo.users)
              && (dto.email.None? || dto.email.value == old(repo.users[id].email)
                  || !old(repo.ExistsByEmailAndIdNot(dto.email.value, id))) ==>
        var u := Merged(old(repo.users[id]), dto, encode);
        r == Success(ToDto(u)) && repo.users == old(repo.users)[id := u]
      ensures old(repo.UniqueEmails()) ==> repo.UniqueEmails()
    {
      var existing := repo.FindById(id);
      if existing.None? {
        return Failure(NotFound(id));
      }
      var user := existing.value;
      if dto.email.Some? && dto.email.value != user.email {
        if repo.ExistsByEmailAndIdNot(dto.email.value, id) {
          return Failure(Duplicate(dto.email.value));
        }
      }
      user := Merged(user, dto, encode);
      ghost var before := repo.users;
      var saved := repo.Save(user);
      if before == old(repo.users) && Unique(before) {
        forall other | other in before && other != id ensures before[other].email != saved.email {
          if dto.email.None? || dto.email.value == existing.value.email {
            assert saved.email == before[id].email;
          }
        }
        StoreKeepsUnique(before, id, saved);
      }
      r := Success(ToDto(saved));
    }

    /** `deleteUser`: removes exactly the user `id`, or fails when it is unknown. */
    method DeleteUser(id: int) returns (r: Outcome<UserError>)
      requires repo.Valid()
      modifies repo
      ensures repo.Valid() && repo.nextId == old(repo.nextId)
      ensures id !in old(repo.users) ==> r == Fail(NotFound(id)) && repo.users == old(repo.users)
      ensures id in old(repo.users) ==> r == Pass && repo.users == old(repo.users) - {id}
      ensures old(repo.UniqueEmails()) ==> repo.UniqueEmails()
    {
      if id !in repo.users {
        return Fail(NotFound(id));
      }
      repo.DeleteById(id);
      r := Pass;
    }

    /** `activateUser`: sets the status of user `id` to ACTIVE and nothing else. */
    method ActivateUser(id: int) returns (r: Result<UserDto, UserError>)
      requires repo.Valid()
      modifies repo
      ensures repo.Valid() && repo.nextId == old(repo.nextId)
      ensures id !in old(repo.users) ==> r == Failure(NotFound(id)) && repo.users == old(repo.users)
      ensures id in old(repo.users) ==>
        var u := old(repo.users[id]).(status := Active);
        r == Success(ToDto(u)) && repo.users == old(repo.users)[id := u]
      ensures repo.Emails() == old(repo.Emails())
      ensures old(repo.UniqueEmails()) ==> repo.UniqueEmails()
    {
      var existing := repo.FindById(id);
      if existing.None? {
        return Failure(NotFound(id));
      }
      var user := existing.value.(status := Active);
      ghost var before := repo.users;
      var saved := repo.Save(user);
      OverwriteKeepsEmails(before, id, saved);
      r := Success(ToDto(saved));
    }

    /** `deactivateUser`: sets the status of user `id` to INACTIVE and nothing else. */
    method DeactivateUser(id: int) returns (r: Result<UserDto, UserError>)
      requires repo.Valid()
      modifies repo
      ensures repo.Valid() && repo.nextId == old(repo.nextId)
      ensures id !in old(repo.users) ==> r == Failure(NotFound(id)) && repo.users == old(repo.users)
      ensures id in old(repo.users) ==>
        var u := old(repo.users[id]).(status := Inactive);
        r == Success(ToDto(u)) && repo.users == old(repo.users)[id := u]
      ensures repo.Emails() == old(repo.Emails())
      ensures old(repo.UniqueEmails()) ==> repo.UniqueEmails()
    {
      var existing := repo.FindById(id);
      if existing.None? {
        return Failure(NotFound(id));
      }
      var user := existing.value.(status := Inactive);
      ghost var before := repo.users;
      var saved := repo.Save(user);
      OverwriteKeepsEmails(before, id, saved);
      r := Success(ToDto(saved));
    }

    /** `changeUserRole`: sets the role of user `id` and nothing else. */
    method ChangeUserRole(id: int, newRole: UserRole) returns (r: Result<UserDto, UserError>)
      requires repo.Valid()
      modifies repo
      ensures repo.Valid() && repo.nextId == old(repo.nextId)
      ensures id !in old(repo.users) ==> r == Failure(NotFound(id)) && repo.users == old(repo.users)
      ensures id in old(repo.users) ==>
        var u := old(repo.users[id]).(role := newRole);
        r == Success(ToDto(u)) && repo.users == old(repo.users)[id := u]
      ensures repo.Emails() == old(repo.Emails())
      ensures old(repo.UniqueEmails()) ==> repo.UniqueEmails()
    {
      var existing := repo.FindById(id);
      if existing.None? {
        return Failure(NotFound(id));
      }
      var user := existing.value.(role := newRole);
      ghost var before := repo.users;
      var saved := repo.Save(user);
      OverwriteKeepsEmails(before, id, saved);
      r := Success(ToDto(saved));
    }

    /** `emailExists`: whether some stored user holds the email. */
    function EmailExists(email: string): (b: bool)
      reads repo
      ensures b <==> exists id | id in repo.users :: repo.users[id].email == email
    {
      repo.ExistsByEmail(email)
    }

    /** `isOwner`: whether user `userId` exists and holds exactly the authenticated email. */
    function IsOwner(userId: int, authenticatedEmail: string): (b: bool)
      reads repo
      ensures b <==> userId in repo.users && repo.users[userId].email == authenticatedEmail
    {
      match repo.FindById(userId)
      case Some(u) => u.email == authenticatedEmail
      case None => false
    }
  }
}

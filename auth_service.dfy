/**
 * `AuthService`: public client registration and admin registration over the user table.
 * The password encoder and the JWT issuer (`generateTokenFromUsername`) are opaque
 * functions given to the service.
 */
module AuthService {
  import opened Wrappers
  import opened Users
  import UserService

  /** The public sign-up form. Mandatory text fields are non-null by validation. */
  datatype RegisterRequest = RegisterRequest(
    firstName: string,
    lastName: string,
    email: string,
    password: string,
    phone: Option<string>,
    address: Option<string>,
    city: Option<string>,
    postalCode: Option<string>,
    country: Option<string>,
    companyName: Option<string>)

  /** The admin sign-up form: names, credentials and the role to grant. */
  datatype AdminRegisterRequest = AdminRegisterRequest(
    firstName: string,
    lastName: string,
    email: string,
    password: string,
    role: UserRole)

  /** `AuthResponse`: the issued token, its type, and the saved user's identity and role. */
  datatype AuthResponse = AuthResponse(
    token: string,
    tokenType: string,
    id: int,
    email: string,
    firstName: string,
    lastName: string,
    role: UserRole)

  const BEARER: string := "Bearer"
  const EMAIL_TAKEN: string := "Un utilisateur avec cet email existe déjà"

  /** The response for a saved user; the type is always `Bearer`. */
  function Response(token: string, u: User): AuthResponse {
    AuthResponse(token, BEARER, u.id, u.email, u.firstName, u.lastName, u.role)
  }

  /** The unsaved user `registerClient` builds: always an active client. */
  function ClientFrom(req: RegisterRequest, encode: string -> string): (u: User)
    ensures u.id == UNSAVED && u.email == req.email && u.password == Some(encode(req.password))
    ensures u.role == Client && u.status == Active
  {
    User(UNSAVED, req.firstName, req.lastName, req.email, Some(encode(req.password)),
         req.phone, req.address, req.city, req.postalCode, req.country, req.companyName,
         Client, Active)
  }

  /** The unsaved user `registerAdmin` builds: active, with the requested role and no contact columns. */
  function AdminFrom(req: AdminRegisterRequest, encode: string -> string): (u: User)
    ensures u.id == UNSAVED && u.email == req.email && u.password == Some(encode(req.password))
    ensures u.role == req.role && u.status == Active
    ensures u.phone.None? && u.address.None? && u.city.None? && u.companyName.None?
  {
    NewUser(req.firstName, req.lastName, req.email, Some(encode(req.password)), req.role, Active)
  }

  class AuthService {
    const repo: UserRepository
    const encode: string -> string
    const issueToken: string -> string

    constructor (repo: UserRepository, encode: string -> string, issueToken: string -> string)
      ensures this.repo == repo && this.encode == encode && this.issueToken == issueToken
    {
      this.repo := repo;
      this.encode := encode;
      this.issueToken := issueToken;
    }

    /**
     * `registerClient`: refuses an email the table holds; otherwise stores an active
     * client under a fresh id and answers with a token issued for its email.
     */
    method RegisterClient(req: RegisterRequest) returns (r: Result<AuthResponse, UserService.UserError>)
      requires repo.Valid()
      modifies repo
      ensures repo.Valid()
      ensures req.email in old(repo.Emails()) ==>
        && r == Failure(UserService.EmailAlreadyExists(EMAIL_TAKEN))
        && repo.users == old(repo.users) && repo.nextId == old(repo.nextId)
      ensures req.email !in old(repo.Emails()) ==>
        var u := ClientFrom(req, encode).(id := old(repo.nextId));
        && old(repo.nextId) !in old(repo.users)
        && repo.users == old(repo.users)[u.id := u]
        && r == Success(Response(issueToken(req.email), u))
      ensures repo.Emails() == old(repo.Emails()) + {req.email}
      ensures old(repo.UniqueEmails()) ==> repo.UniqueEmails()
    {
      if repo.ExistsByEmail(req.email) {
        return Failure(UserService.EmailAlreadyExists(EMAIL_TAKEN));
      }
      var user := ClientFrom(req, encode);
      ghost var before := repo.users;
      var saved := repo.Save(user);
      InsertAddsEmail(before, saved.id, saved);
      if Unique(before) {
        StoreKeepsUnique(before, saved.id, saved);
      }
      var jwt := issueToken(saved.email);
      r := Success(Response(jwt, saved));
    }

    /**
     * `registerAdmin`: refuses an email the table holds; otherwise stores an active user
     * with the requested role under a fresh id and answers with a token for its email.
     */
    method RegisterAdmin(req: AdminRegisterRequest) returns (r: Result<AuthResponse, UserService.UserError>)
      requires repo.Valid()
      modifies repo
      ensures repo.Valid()
      ensures req.email in old(repo.Emails()) ==>
        && r == Failure(UserService.EmailAlreadyExists(EMAIL_TAKEN))
        && repo.users == old(repo.users) && repo.nextId == old(repo.nextId)
      ensures req.email !in old(repo.Emails()) ==>
        var u := AdminFrom(req, encode).(id := old(repo.nextId));
        && old(repo.nextId) !in old(repo.users)
        && repo.users == old(repo.users)[u.id := u]
        && r == Success(Response(issueToken(req.email), u))
      ensures repo.Emails() == old(repo.Emails()) + {req.email}
      ensures old(repo.UniqueEmails()) ==> repo.UniqueEmails()
    {
      if repo.ExistsByEmail(req.email) {
        return Failure(UserService.EmailAlreadyExists(EMAIL_TAKEN));
      }
      var user := AdminFrom(req, encode);
      ghost var before := repo.users;
      var saved := repo.Save(user);
      InsertAddsEmail(before, saved.id, saved);
      if Unique(before) {
        StoreKeepsUnique(before, saved.id, saved);
      }
      var jwt := issueToken(saved.email);
      r := Success(Response(jwt, saved));
    }

    /** `emailExists`: whether some stored user holds the email. */
    function EmailExists(email: string): (b: bool)
      reads repo
      ensures b <==> email in repo.Emails()
    {
      repo.ExistsByEmail(email)
    }
  }
}

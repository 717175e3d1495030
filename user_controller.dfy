/**
 * The role rule of `UserController.updateUser`: only a caller holding the authority
 * `ROLE_ADMIN` may change a user's role; anyone else's role field is dropped before the
 * update reaches the service.
 */
module UserController {
  import opened Wrappers
  import opened Users
  import opened UserService

  const ROLE_ADMIN: string := "ROLE_ADMIN"

  /** `isAdmin`: whether some granted authority is exactly `ROLE_ADMIN`. */
  function IsAdmin(authorities: seq<string>): (b: bool)
    ensures b <==> ROLE_ADMIN in authorities
  {
    if authorities == [] then false
    else if authorities[0] == ROLE_ADMIN then true
    else
      assert authorities == [authorities[0]] + authorities[1..];
      IsAdmin(authorities[1..])
  }

  /** The request the controller forwards: a non-admin's role field is set to null. */
  function Forwarded(dto: UpdateUserDto, isAdmin: bool): (r: UpdateUserDto)
    ensures isAdmin ==> r == dto
    ensures !isAdmin ==> r.role.None?
  {
    if dto.role.Some? && !isAdmin then dto.(role := None) else dto
  }

  /** The controller changes no field of the request other than the role. */
  lemma ForwardedKeepsOtherFields(dto: UpdateUserDto, isAdmin: bool)
    ensures Forwarded(dto, isAdmin).(role := dto.role) == dto
  {
  }

  /** With null-means-keep, a request forwarded for a non-admin never changes the stored role. */
  lemma NonAdminKeepsRole(u: User, dto: UpdateUserDto, encode: string -> string)
    ensures Merged(u, Forwarded(dto, false), encode).role == u.role
  {
    MergeRole(u, Forwarded(dto, false), encode);
  }

  class UserController {
    const service: UserServiceImpl

    constructor (service: UserServiceImpl)
      ensures this.service == service
    {
      this.service := service;
    }

    /**
     * `updateUser`: forwards the request to the service for the same id, without its role
     * field when the caller is not an admin.
     */
    method UpdateUser(id: int, dto: UpdateUserDto, authorities: seq<string>) returns (r: Result<UserDto, UserError>)
      requires service.repo.Valid()
      modifies service.repo
      ensures service.repo.Valid() && service.repo.nextId == old(service.repo.nextId)
      ensures id !in old(service.repo.users) ==> r == Failure(NotFound(id)) && service.repo.users == old(service.repo.users)
      ensures id in old(service.repo.users) && dto.email.Some? && dto.email.value != old(service.repo.users[id].email)
              && old(service.repo.ExistsByEmailAndIdNot(dto.email.value, id)) ==>
        r == Failure(Duplicate(dto.email.value)) && service.repo.users == old(service.repo.users)
      ensures id in old(service.repo.users) && (dto.email.None? || dto.email.value == old(service.repo.users[id].email)
                  || !old(service.repo.ExistsByEmailAndIdNot(dto.email.value, id))) ==>
        r.Success?
      ensures r.Failure? ==> service.repo.users == old(service.repo.users)
      ensures r.Success? ==>
        var u := Merged(old(service.repo.users[id]), Forwarded(dto, IsAdmin(authorities)), service.encode);
        id in old(service.repo.users) && r == Success(ToDto(u)) && service.repo.users == old(service.repo.users)[id := u]
      ensures !(ROLE_ADMIN in authorities) && id in old(service.repo.users) ==>
        id in service.repo.users && service.repo.users[id].role == old(service.repo.users[id].role)
      ensures ROLE_ADMIN in authorities && dto.role.Some? && r.Success? ==> service.repo.users[id].role == dto.role.value
      ensures old(service.repo.UniqueEmails()) ==> service.repo.UniqueEmails()
    {
      var isAdmin := IsAdmin(authorities);
      var request := dto;
      if request.role.Some? && !isAdmin {
        request := request.(role := None);
      }
      assert request == Forwarded(dto, isAdmin);
      r := service.UpdateUser(id, request);
      if !isAdmin && id in old(service.repo.users) && r.Success? {
        NonAdminKeepsRole(old(service.repo.users[id]), dto, service.encode);
      }
    }
  }
}

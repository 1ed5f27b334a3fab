/** The user endpoints: each one's guard chain, in the order the checks are made, and the
    entity it hands to the user table. The token signing that follows a successful login is
    not part of the model. */
module UsuarioEndpoints {
  import opened Common
  import opened Text
  import opened Numbers
  import opened Entities
  import opened BaseApi
  import AuthorizeRoles
  import PasswordHelper
  import UsuarioDal
  import EmailGenerator
  import Rows

  datatype LoginDto = LoginDto(Email: Option<string>, Password: Option<string>)

  /** The login answer without the token and its expiry; the company and role names loaded
      alongside are not part of the model. */
  datatype LoginResponse = LoginResponse(UserId: int, Nombre: string, Email: string, EmpresaId: int, RolId: int)

  datatype CreateUsuarioDto = CreateUsuarioDto(EmpresaId: int, RolId: int, Nombre: Option<string>, Password: Option<string>)

  datatype EditUsuarioDto = EditUsuarioDto(Nombre: Option<string>, Email: Option<string>, Password: Option<string>)

  datatype SearchQueryUsuarioDto = SearchQueryUsuarioDto(
    Nombre: Option<string>, Email: Option<string>, RolId: Option<int>, Activo: Option<bool>,
    PageNumber: int, PageSize: int)

  datatype SearchResult = SearchResult(CountRow: int, Data: seq<Usuario>)

  /** What `me` answers: the caller as the token describes them. */
  datatype CurrentUser = CurrentUser(
    userId: int, userName: string, email: string, empresaId: int, rolId: int, rolNombre: string, isAdmin: bool)

  /** `[AuthorizeRoles(1, 2)]` and `[AuthorizeRoles(1)]`. */
  const ManagersAndUsers: seq<int> := [1, 2]
  const ManagersOnly: seq<int> := [1]

  const NoUser := "Usuario no encontrado"
  const InvalidCredentials := "Credenciales inválidas"

  /** The role-filter step every authorized endpoint starts with. */
  function Authorize(allowed: seq<int>, user: Principal): (g: Guard)
    ensures g == Pass <==> IsAuthenticated(user) && AuthorizeRoles.RolIdClaim(user).Some?
                           && AuthorizeRoles.RolIdClaim(user).value in allowed
    ensures !IsAuthenticated(user) ==> g == Fail(Unauthorized, AuthorizeRoles.Decision.NotAuthenticated.Message())
    ensures IsAuthenticated(user) && g.Fail? ==> g.code == Forbidden
  {
    AuthorizeRoles.OnAuthorization(allowed, user).AsGuard()
  }

  /** `Create`'s checks, in order: the caller has a company, the request names no other
      company, a plain user does not create a manager, and a role is given. */
  function CreateGuard(user: Principal, dto: CreateUsuarioDto): (g: Guard)
    ensures g.Fail? ==> g.code == BadRequest
    ensures GetEmpresaId(user) == 0 ==> g == Fail(BadRequest, "No se pudo obtener la empresa del usuario autenticado")
    ensures GetEmpresaId(user) != 0 && dto.EmpresaId != 0 && dto.EmpresaId != GetEmpresaId(user) ==>
              g == Fail(BadRequest, "Solo puedes crear usuarios para tu propia empresa")
    ensures GetEmpresaId(user) != 0 && (dto.EmpresaId == 0 || dto.EmpresaId == GetEmpresaId(user))
            && GetRolId(user) == 2 && dto.RolId == 1 ==>
              g == Fail(BadRequest, "No tienes permisos para crear usuarios con rol Gerente")
    ensures g == Pass <==> GetEmpresaId(user) != 0 && (dto.EmpresaId == 0 || dto.EmpresaId == GetEmpresaId(user))
                           && !(GetRolId(user) == 2 && dto.RolId == 1) && dto.RolId != 0
  {
    var empresaId := GetEmpresaId(user);
    if empresaId == 0 then Fail(BadRequest, "No se pudo obtener la empresa del usuario autenticado")
    else if dto.EmpresaId != 0 && dto.EmpresaId != empresaId then Fail(BadRequest, "Solo puedes crear usuarios para tu propia empresa")
    else if GetRolId(user) == 2 && dto.RolId == 1 then Fail(BadRequest, "No tienes permisos para crear usuarios con rol Gerente")
    else if dto.RolId == 0 then Fail(BadRequest, "Debe especificar un rol válido")
    else Pass
  }

  /** A plain user asking for a manager is refused for the hierarchy, even when the role check
      after it would also refuse nothing else. */
  lemma HierarchyCheckedBeforeRole(user: Principal, dto: CreateUsuarioDto)
    requires GetEmpresaId(user) != 0 && dto.EmpresaId == 0 && GetRolId(user) == 2
    ensures CreateGuard(user, dto) != Pass <==> dto.RolId == 1 || dto.RolId == 0
    ensures dto.RolId == 1 ==> CreateGuard(user, dto).message == "No tienes permisos para crear usuarios con rol Gerente"
  {
  }

  /** The user `Create` builds: the caller's company, the requested role, the hashed password,
      active, and no e-mail (the table generates one). */
  function CreatedUser(user: Principal, dto: CreateUsuarioDto, digest: string -> PasswordHelper.Digest): (u: Usuario)
    ensures u.EmpresaId == GetEmpresaId(user) && u.RolId == dto.RolId && u.Nombre == dto.Nombre
    ensures u.Password == Some(PasswordHelper.PasswordHash(dto.Password, digest))
    ensures u.Activo == Some(true) && u.Email.None? && u.Id == 0
  {
    NewUsuario.(EmpresaId := GetEmpresaId(user), RolId := dto.RolId, Nombre := dto.Nombre,
                Password := Some(PasswordHelper.PasswordHash(dto.Password, digest)), Activo := Some(true))
  }

  /** `Register`'s role: the requested one when positive, otherwise 1. */
  function RegisterRol(rolId: int): (r: int)
    ensures r > 0
    ensures rolId > 0 ==> r == rolId
    ensures rolId <= 0 ==> r == 1
  {
    if rolId > 0 then rolId else 1
  }

  /** The user `Register` builds: the requested company and role, the hashed password, active. */
  function RegisteredUser(dto: CreateUsuarioDto, digest: string -> PasswordHelper.Digest): (u: Usuario)
    ensures u.EmpresaId == dto.EmpresaId && u.RolId == RegisterRol(dto.RolId) && u.Nombre == dto.Nombre
    ensures u.Password == Some(PasswordHelper.PasswordHash(dto.Password, digest))
    ensures u.Activo == Some(true) && u.Email.None? && u.Id == 0
  {
    NewUsuario.(EmpresaId := dto.EmpresaId, RolId := RegisterRol(dto.RolId), Nombre := dto.Nombre,
                Password := Some(PasswordHelper.PasswordHash(dto.Password, digest)), Activo := Some(true))
  }

  /** The checks on an existing user shared by `GetById`, `Edit`, `Delete` and `ChangeStatus`:
      404 when the lookup found nothing, then 403 when the user is of another company. */
  function ScopeGuard(user: Principal, existing: Usuario): (g: Guard)
    ensures existing.Id == 0 ==> g == Fail(NotFound, NoUser)
    ensures existing.Id != 0 && !BelongsToUserCompany(user, existing.EmpresaId) ==> g == Fail(Forbidden, "")
    ensures g == Pass <==> existing.Id != 0 && BelongsToUserCompany(user, existing.EmpresaId)
  {
    if existing.Id == 0 then Fail(NotFound, NoUser)
    else if !BelongsToUserCompany(user, existing.EmpresaId) then Fail(Forbidden, "")
    else Pass
  }

  /** `Edit`'s checks: those of `ScopeGuard`, then that a plain user edits only themself. */
  function EditGuard(user: Principal, id: int, existing: Usuario): (g: Guard)
    ensures ScopeGuard(user, existing).Fail? ==> g == ScopeGuard(user, existing)
    ensures ScopeGuard(user, existing) == Pass && !IsAdmin(user) && GetUserId(user) != id ==> g == Fail(Forbidden, "")
    ensures g == Pass <==> ScopeGuard(user, existing) == Pass && (IsAdmin(user) || GetUserId(user) == id)
  {
    var scope := ScopeGuard(user, existing);
    if scope.Fail? then scope
    else if !IsAdmin(user) && GetUserId(user) != id then Fail(Forbidden, "")
    else Pass
  }

  /** The user `Edit` hands to the table: the new name and e-mail, and the hashed password, or
      null when the new password is blank. */
  function EditedUser(id: int, dto: EditUsuarioDto, digest: string -> PasswordHelper.Digest): (u: Usuario)
    ensures u.Id == id && u.Nombre == dto.Nombre && u.Email == dto.Email
    ensures IsNullOrWhiteSpace(dto.Password) ==> u.Password.None?
    ensures !IsNullOrWhiteSpace(dto.Password) ==> u.Password == Some(PasswordHelper.PasswordHash(dto.Password, digest))
  {
    NewUsuario.(Id := id, Nombre := dto.Nombre, Email := dto.Email,
                Password := if !IsNullOrWhiteSpace(dto.Password) then Some(PasswordHelper.PasswordHash(dto.Password, digest)) else None)
  }

  /** Editing with a blank password keeps the stored hash, and never touches company, role or
      status. */
  lemma BlankPasswordKeepsHash(before: Usuario, id: int, dto: EditUsuarioDto, digest: string -> PasswordHelper.Digest)
    requires IsNullOrWhiteSpace(dto.Password)
    ensures UsuarioDal.Edited(before, EditedUser(id, dto, digest)).Password == before.Password
    ensures var after := UsuarioDal.Edited(before, EditedUser(id, dto, digest));
            after.EmpresaId == before.EmpresaId && after.RolId == before.RolId && after.Activo == before.Activo
  {
  }

  /** The probe `Search` hands to the table: the requested filters and always the caller's
      company. */
  function SearchProbe(user: Principal, dto: SearchQueryUsuarioDto): (u: Usuario)
    ensures u.Nombre == dto.Nombre && u.Email == dto.Email && u.EmpresaId == GetEmpresaId(user)
    ensures u.RolId == dto.RolId.GetOr(0) && u.Activo == dto.Activo
  {
    NewUsuario.(Nombre := dto.Nombre, Email := dto.Email, RolId := dto.RolId.GetOr(0),
                Activo := dto.Activo, EmpresaId := GetEmpresaId(user))
  }

  function LoginAnswer(u: Usuario): (r: LoginResponse)
    ensures r.UserId == u.Id && r.EmpresaId == u.EmpresaId && r.RolId == u.RolId
    ensures r.Nombre == u.Nombre.GetOr("") && r.Email == u.Email.GetOr("")
  {
    LoginResponse(u.Id, u.Nombre.GetOr(""), u.Email.GetOr(""), u.EmpresaId, u.RolId)
  }

  class UsuarioController {
    const dal: UsuarioDal.UsuarioDal
    /** SHA-256 of the UTF-8 bytes of a string. */
    const digest: string -> PasswordHelper.Digest

    constructor(dal: UsuarioDal.UsuarioDal, digest: string -> PasswordHelper.Digest)
      ensures this.dal == dal && this.digest == digest
    {
      this.dal := dal;
      this.digest := digest;
    }

    /** `Login`: 400 without e-mail or password; 401, with one and the same message, when no
        active user has the e-mail or the password does not verify against theirs. */
    function Login(dto: LoginDto): (r: Reply<LoginResponse>)
      reads dal
      requires dal.Valid()
      ensures IsNullOrWhiteSpace(dto.Email) || IsNullOrWhiteSpace(dto.Password) ==>
                r == Status(BadRequest, "Email y contraseña son requeridos")
      ensures !IsNullOrWhiteSpace(dto.Email) && !IsNullOrWhiteSpace(dto.Password) && !r.Ok? ==>
                r == Status(Unauthorized, InvalidCredentials)
      ensures r.Ok? ==> exists u :: u in dal.rows && UsuarioDal.CanLogIn(u, dto.Email.value)
                                     && PasswordHelper.Verifies(dto.Password, u.Password, digest) && r.body == LoginAnswer(u)
      ensures r.Ok? <==> !IsNullOrWhiteSpace(dto.Email) && !IsNullOrWhiteSpace(dto.Password)
                         && dal.GetByEmailForLogin(dto.Email.value).Some?
                         && PasswordHelper.Verifies(dto.Password, dal.GetByEmailForLogin(dto.Email.value).value.Password, digest)
    {
      if IsNullOrWhiteSpace(dto.Email) || IsNullOrWhiteSpace(dto.Password) then
        Status(BadRequest, "Email y contraseña son requeridos")
      else match dal.GetByEmailForLogin(dto.Email.value)
        case None => Status(Unauthorized, InvalidCredentials)
        case Some(usuario) =>
          if !PasswordHelper.Verifies(dto.Password, usuario.Password, digest) then Status(Unauthorized, InvalidCredentials)
          else Ok(LoginAnswer(usuario))
    }

    /** `me` (roles 1 and 2): the caller's claims, read as the claim helpers read them. */
    function GetCurrentUser(user: Principal): (r: Reply<CurrentUser>)
      ensures Authorize(ManagersAndUsers, user).Fail? ==> r == Authorize(ManagersAndUsers, user).Reply()
      ensures r.Ok? ==> && Authorize(ManagersAndUsers, user) == Pass
                        && r.body.userId == GetUserId(user) && r.body.empresaId == GetEmpresaId(user)
                        && r.body.rolId == GetRolId(user) && r.body.isAdmin == IsAdmin(user)
                        && r.body.userName == GetUserName(user) && r.body.email == GetUserEmail(user)
                        && r.body.rolNombre == GetRolNombre(user)
      ensures r.Ok? ==> r.body.rolId == 1 || r.body.rolId == 2
    {
      var auth := Authorize(ManagersAndUsers, user);
      if auth.Fail? then auth.Reply()
      else Ok(CurrentUser(GetUserId(user), GetUserName(user), GetUserEmail(user), GetEmpresaId(user),
                          GetRolId(user), GetRolNombre(user), IsAdmin(user)))
    }

    /** `Create` (roles 1 and 2): after the role filter and `CreateGuard`, stores `CreatedUser`
        with the first free e-mail generated from the name and the caller's company, and answers
        with the stored user. */
    method Create(user: Principal, dto: CreateUsuarioDto) returns (reply: Reply<Usuario>)
      requires dal.Valid()
      modifies dal
      ensures dal.Valid()
      ensures Authorize(ManagersAndUsers, user).Fail? ==>
                reply == Authorize(ManagersAndUsers, user).Reply() && dal.rows == old(dal.rows)
      ensures Authorize(ManagersAndUsers, user) == Pass && CreateGuard(user, dto).Fail? ==>
                reply == CreateGuard(user, dto).Reply() && dal.rows == old(dal.rows)
      ensures Authorize(ManagersAndUsers, user) == Pass && CreateGuard(user, dto) == Pass ==>
                && reply.Ok?
                && reply.body == CreatedUser(user, dto, digest).(Id := reply.body.Id, Email := reply.body.Email)
                && reply.body.Id !in old(dal.Table())
                && dal.Table() == old(dal.Table())[reply.body.Id := reply.body]
                && reply.body.Email.Some? && !EmailGenerator.EmailYaExiste(old(dal.rows), reply.body.Email.value)
                && var dominio := EmailGenerator.DominioEmpresa(dal.empresas.rows, GetEmpresaId(user));
                   var limpio := EmailGenerator.LimpiarTexto(dto.Nombre);
                   EmailGenerator.IsFirstFree(old(dal.rows), EmailGenerator.Address(limpio, dominio), limpio, dominio,
                                              reply.body.Email.value)
    {
      var auth := Authorize(ManagersAndUsers, user);
      if auth.Fail? {
        return auth.Reply();
      }
      var guard := CreateGuard(user, dto);
      if guard.Fail? {
        return guard.Reply();
      }
      var hash := PasswordHelper.HashPassword(dto.Password, digest);
      var usuario := NewUsuario.(EmpresaId := GetEmpresaId(user), RolId := dto.RolId, Nombre := dto.Nombre,
                                 Password := Some(hash), Activo := Some(true));
      var result, created := dal.Create(usuario);
      if result > 0 {
        reply := Ok(created);
      } else {
        reply := Status(BadRequest, "No se pudo crear el usuario");
      }
    }

    /** `Register` (anonymous): stores `RegisteredUser` with the first free e-mail generated from
        the name and the requested company. */
    method Register(dto: CreateUsuarioDto) returns (reply: Reply<Usuario>)
      requires dal.Valid()
      modifies dal
      ensures dal.Valid()
      ensures reply.Ok?
      ensures reply.body == RegisteredUser(dto, digest).(Id := reply.body.Id, Email := reply.body.Email)
      ensures reply.body.Id !in old(dal.Table())
      ensures dal.Table() == old(dal.Table())[reply.body.Id := reply.body]
      ensures reply.body.Email.Some? && !EmailGenerator.EmailYaExiste(old(dal.rows), reply.body.Email.value)
      ensures var dominio := EmailGenerator.DominioEmpresa(dal.empresas.rows, dto.EmpresaId);
              var limpio := EmailGenerator.LimpiarTexto(dto.Nombre);
              EmailGenerator.IsFirstFree(old(dal.rows), EmailGenerator.Address(limpio, dominio), limpio, dominio,
                                         reply.body.Email.value)
    {
      var hash := PasswordHelper.HashPassword(dto.Password, digest);
      var usuario := NewUsuario.(EmpresaId := dto.EmpresaId, RolId := RegisterRol(dto.RolId), Nombre := dto.Nombre,
                                 Password := Some(hash), Activo := Some(true));
      var result, created := dal.Create(usuario);
      if result > 0 {
        reply := Ok(created);
      } else {
        reply := Status(BadRequest, "No se pudo registrar el usuario");
      }
    }

    /** `GetById` (roles 1 and 2): the user, when found and of the caller's company. */
    function GetById(user: Principal, id: int): (r: Reply<Usuario>)
      reads dal
      requires dal.Valid()
      ensures Authorize(ManagersAndUsers, user).Fail? ==> r == Authorize(ManagersAndUsers, user).Reply()
      ensures Authorize(ManagersAndUsers, user) == Pass ==>
                if ScopeGuard(user, dal.GetById(id)).Fail? then r == ScopeGuard(user, dal.GetById(id)).Reply()
                else r == Ok(dal.Table()[id])
      ensures r.Ok? ==> id in dal.Table() && r.body.Id == id && r.body.EmpresaId == GetEmpresaId(user)
    {
      var auth := Authorize(ManagersAndUsers, user);
      if auth.Fail? then auth.Reply()
      else
        var usuario := dal.GetById(id);
        var scope := ScopeGuard(user, usuario);
        if scope.Fail? then scope.Reply() else Ok(usuario)
    }

    /** `Edit` (roles 1 and 2): after the role filter and `EditGuard`, hands `EditedUser` to the
        table; 404 also when saving reports no change. */
    method Edit(user: Principal, id: int, dto: EditUsuarioDto) returns (reply: Reply<string>)
      requires dal.Valid()
      modifies dal
      ensures dal.Valid()
      ensures Authorize(ManagersAndUsers, user).Fail? ==>
                reply == Authorize(ManagersAndUsers, user).Reply() && dal.rows == old(dal.rows)
      ensures Authorize(ManagersAndUsers, user) == Pass && EditGuard(user, id, old(dal.GetById(id))).Fail? ==>
                reply == EditGuard(user, id, old(dal.GetById(id))).Reply() && dal.rows == old(dal.rows)
      ensures Authorize(ManagersAndUsers, user) == Pass && EditGuard(user, id, old(dal.GetById(id))) == Pass ==>
                var before := old(dal.Table())[id];
                var after := UsuarioDal.Edited(before, EditedUser(id, dto, digest));
                && dal.Table() == old(dal.Table())[id := after]
                && reply == if after == before then Status(NotFound, NoUser) else Ok("Usuario actualizado exitosamente")
    {
      var auth := Authorize(ManagersAndUsers, user);
      if auth.Fail? {
        return auth.Reply();
      }
      var usuarioExistente := dal.GetById(id);
      var guard := EditGuard(user, id, usuarioExistente);
      if guard.Fail? {
        return guard.Reply();
      }
      var password: Option<string> := None;
      if !IsNullOrWhiteSpace(dto.Password) {
        var hash := PasswordHelper.HashPassword(dto.Password, digest);
        password := Some(hash);
      }
      var usuario := NewUsuario.(Id := id, Nombre := dto.Nombre, Email := dto.Email, Password := password);
      var result := dal.Edit(usuario);
      if result > 0 {
        reply := Ok("Usuario actualizado exitosamente");
      } else {
        reply := Status(NotFound, NoUser);
      }
    }

    /** `Delete` (role 1 only): removes a user of the caller's company. */
    method Delete(user: Principal, id: int) returns (reply: Reply<string>)
      requires dal.Valid()
      modifies dal
      ensures dal.Valid()
      ensures Authorize(ManagersOnly, user).Fail? ==>
                reply == Authorize(ManagersOnly, user).Reply() && dal.rows == old(dal.rows)
      ensures Authorize(ManagersOnly, user) == Pass && ScopeGuard(user, old(dal.GetById(id))).Fail? ==>
                reply == ScopeGuard(user, old(dal.GetById(id))).Reply() && dal.rows == old(dal.rows)
      ensures Authorize(ManagersOnly, user) == Pass && ScopeGuard(user, old(dal.GetById(id))) == Pass ==>
                dal.Table() == old(dal.Table()) - {id} && reply == Ok("Usuario eliminado exitosamente")
    {
      var auth := Authorize(ManagersOnly, user);
      if auth.Fail? {
        return auth.Reply();
      }
      var usuarioExistente := dal.GetById(id);
      var scope := ScopeGuard(user, usuarioExistente);
      if scope.Fail? {
        return scope.Reply();
      }
      var result := dal.Delete(id);
      if result > 0 {
        reply := Ok("Usuario eliminado exitosamente");
      } else {
        reply := Status(NotFound, NoUser);
      }
    }

    /** `Search` (roles 1 and 2): the count and the requested page of the users that pass the
        filters, always probing with the caller's company. */
    function Search(user: Principal, dto: SearchQueryUsuarioDto): (r: Reply<SearchResult>)
      reads dal
      requires dal.Valid()
      ensures Authorize(ManagersAndUsers, user).Fail? ==> r == Authorize(ManagersAndUsers, user).Reply()
      ensures Authorize(ManagersAndUsers, user) == Pass ==>
                r == Ok(SearchResult(dal.CountSearch(SearchProbe(user, dto)),
                                     dal.Search(SearchProbe(user, dto), dto.PageSize, Rows.SearchSkip(dto.PageNumber, dto.PageSize))))
      ensures r.Ok? && GetEmpresaId(user) > 0 ==>
                forall i :: 0 <= i < |r.body.Data| ==> r.body.Data[i].EmpresaId == GetEmpresaId(user)
    {
      var auth := Authorize(ManagersAndUsers, user);
      if auth.Fail? then auth.Reply()
      else
        var usuario := SearchProbe(user, dto);
        var skip := Rows.SearchSkip(dto.PageNumber, dto.PageSize);
        var countRow := dal.CountSearch(usuario);
        Ok(SearchResult(countRow, dal.Search(usuario, dto.PageSize, skip)))
    }

    /** `Search` with the company check the endpoint evidently intends: a caller without a
        positive company is refused, as `Create` refuses one, so every answer is scoped. */
    function ScopedSearch(user: Principal, dto: SearchQueryUsuarioDto): (r: Reply<SearchResult>)
      reads dal
      requires dal.Valid()
      ensures Authorize(ManagersAndUsers, user).Fail? ==> r == Authorize(ManagersAndUsers, user).Reply()
      ensures Authorize(ManagersAndUsers, user) == Pass && GetEmpresaId(user) <= 0 ==>
                r == Status(BadRequest, "No se pudo obtener la empresa del usuario autenticado")
      ensures Authorize(ManagersAndUsers, user) == Pass && GetEmpresaId(user) > 0 ==> r == Search(user, dto)
      ensures r.Ok? ==> forall i :: 0 <= i < |r.body.Data| ==> r.body.Data[i].EmpresaId == GetEmpresaId(user)
    {
      var auth := Authorize(ManagersAndUsers, user);
      if auth.Fail? then auth.Reply()
      else if GetEmpresaId(user) <= 0 then Status(BadRequest, "No se pudo obtener la empresa del usuario autenticado")
      else Search(user, dto)
    }

    /** `ChangeStatus` (role 1 only): sets the status of a user of the caller's company; 404
        also when saving reports no change. */
    method ChangeStatus(user: Principal, id: int, activo: bool) returns (reply: Reply<string>)
      requires dal.Valid()
      modifies dal
      ensures dal.Valid()
      ensures Authorize(ManagersOnly, user).Fail? ==>
                reply == Authorize(ManagersOnly, user).Reply() && dal.rows == old(dal.rows)
      ensures Authorize(ManagersOnly, user) == Pass && ScopeGuard(user, old(dal.GetById(id))).Fail? ==>
                reply == ScopeGuard(user, old(dal.GetById(id))).Reply() && dal.rows == old(dal.rows)
      ensures Authorize(ManagersOnly, user) == Pass && ScopeGuard(user, old(dal.GetById(id))) == Pass ==>
                var before := old(dal.Table())[id];
                var after := before.(Activo := Some(activo));
                && dal.Table() == old(dal.Table())[id := after]
                && reply == if after == before then Status(NotFound, NoUser) else Ok("Estado actualizado exitosamente")
    {
      var auth := Authorize(ManagersOnly, user);
      if auth.Fail? {
        return auth.Reply();
      }
      var usuarioExistente := dal.GetById(id);
      var scope := ScopeGuard(user, usuarioExistente);
      if scope.Fail? {
        return scope.Reply();
      }
      var result := dal.ChangeStatus(id, activo);
      if result > 0 {
        reply := Ok("Estado actualizado exitosamente");
      } else {
        reply := Status(NotFound, NoUser);
      }
    }
  }

  /** Without a company claim the search is not scoped: the probe carries company 0, which the
      table's filter ignores, so users of every company match. A token with the role claim "1"
      and no company claim shows it. */
  lemma SearchUnscopedWithoutCompany(c: UsuarioController, dto: SearchQueryUsuarioDto, other: Usuario)
    requires c.dal.Valid()
    requires dto.Nombre.None? && dto.Email.None?
    ensures var user := Principal(Some(Identity(true)), [Claim(RolIdType, "1")]);
            && c.Search(user, dto).Ok?
            && UsuarioDal.UsuarioMatches(SearchProbe(user, dto), other)
  {
    var user := Principal(Some(Identity(true)), [Claim(RolIdType, "1")]);
    assert FindFirst(user.Claims, EmpresaIdType).None? by {
      TypesDiffer(RolIdType, EmpresaIdType);
    }
    FindFirstAt(user.Claims, RolIdType, 0);
    assert IntToString(1) == "1";
    IntClaimRoundTrip(user, RolIdType, 1);
  }
}

/** The `[AuthorizeRoles(...)]` filter: decides, before an action runs, whether the caller's
    role may run it. */
module AuthorizeRoles {
  import opened Common
  import opened Text
  import opened Numbers
  import opened BaseApi

  /** The result the filter writes into the context; `Allow` is "no result", so the action runs. */
  datatype Decision =
    | Allow
    | NotAuthenticated
    | RoleUnreadable
    | RoleNotAllowed(requiredRoles: seq<int>, yourRole: int)
  {
    /** The status code of the response the filter produces. */
    function StatusCode(): int {
      match this
      case Allow => 200
      case NotAuthenticated => Unauthorized
      case RoleUnreadable => Forbidden
      case RoleNotAllowed(_, _) => Forbidden
    }

    /** The decision as a step of an endpoint's guard chain. */
    function AsGuard(): (g: Guard)
      ensures g == Pass <==> this == Allow
      ensures g.Fail? ==> g.code == StatusCode() && g.message == Message()
    {
      if Allow? then Pass else Fail(StatusCode(), Message())
    }

    function Message(): string {
      match this
      case Allow => ""
      case NotAuthenticated => "No autenticado. Por favor inicie sesión."
      case RoleUnreadable => "No se pudo obtener el rol del usuario."
      case RoleNotAllowed(_, _) => "No tiene permisos para realizar esta acción."
    }
  }

  /** The `RolId` claim as the filter reads it: `None` when missing, empty or not an integer. */
  function RolIdClaim(user: Principal): (r: Option<int>)
    ensures r.Some? ==> IsInt32(r.value) && GetRolId(user) == r.value
    ensures r.None? ==> GetRolId(user) == 0
  {
    match FindFirst(user.Claims, RolIdType)
    case None => None
    case Some(v) => if IsNullOrEmpty(Some(v)) then None else TryParseInt32(v)
  }

  /** `OnAuthorization`: first authentication (401), then a readable role (403), then a role
      among the allowed ones (403). */
  function OnAuthorization(allowedRoles: seq<int>, user: Principal): (d: Decision)
    ensures !IsAuthenticated(user) ==> d == NotAuthenticated
    ensures IsAuthenticated(user) && RolIdClaim(user).None? ==> d == RoleUnreadable
    ensures IsAuthenticated(user) && RolIdClaim(user).Some? && RolIdClaim(user).value !in allowedRoles ==>
              d == RoleNotAllowed(allowedRoles, RolIdClaim(user).value)
    ensures d == Allow <==> IsAuthenticated(user) && RolIdClaim(user).Some? && RolIdClaim(user).value in allowedRoles
    ensures d.StatusCode() == 200 || d.StatusCode() == Unauthorized || d.StatusCode() == Forbidden
  {
    if !IsAuthenticated(user) then NotAuthenticated
    else match RolIdClaim(user)
      case None => RoleUnreadable
      case Some(rolId) => if rolId !in allowedRoles then RoleNotAllowed(allowedRoles, rolId) else Allow
  }

  /** Authentication is checked first: a caller without an authenticated identity gets 401
      whatever claims they carry. */
  lemma AuthenticationFirst(allowedRoles: seq<int>, identity: Option<Identity>, claims: seq<Claim>, other: seq<Claim>)
    requires identity.None? || !identity.value.IsAuthenticated
    ensures OnAuthorization(allowedRoles, Principal(identity, claims)) == OnAuthorization(allowedRoles, Principal(identity, other))
    ensures OnAuthorization(allowedRoles, Principal(identity, claims)).StatusCode() == Unauthorized
  {
  }

  /** A caller let through has one of the allowed roles as the controllers' helpers see it. */
  lemma AllowedHasAnyRole(allowedRoles: seq<int>, user: Principal)
    requires OnAuthorization(allowedRoles, user) == Allow
    ensures IsAuthenticated(user) && HasAnyRole(user, allowedRoles)
  {
    var k :| 0 <= k < |allowedRoles| && allowedRoles[k] == RolIdClaim(user).value;
    assert HasRole(user, allowedRoles[k]);
  }

  /** Conversely an authenticated caller whose helpers report an allowed role is let through,
      unless 0 is allowed: the helpers report 0 for a missing role the filter refuses. */
  lemma HasAnyRoleAllowed(allowedRoles: seq<int>, user: Principal)
    requires IsAuthenticated(user) && HasAnyRole(user, allowedRoles) && 0 !in allowedRoles
    ensures OnAuthorization(allowedRoles, user) == Allow
  {
  }

  /** With role 0 allowed, a caller without a role claim is refused by the filter although the
      helpers would count them as having role 0. */
  lemma MissingRoleRefused(allowedRoles: seq<int>, user: Principal)
    requires IsAuthenticated(user) && FindFirst(user.Claims, RolIdType).None?
    ensures OnAuthorization(allowedRoles, user) == RoleUnreadable
    ensures HasAnyRole(user, allowedRoles) <==> 0 in allowedRoles
  {
  }
}

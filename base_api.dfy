/** The claim helpers every endpoint controller inherits: typed readings of the claims of the
    authenticated principal, each with a default when the claim is missing or unreadable. */
module BaseApi {
  import opened Common
  import opened Text
  import opened Numbers

  datatype Claim = Claim(Type: string, Value: string)

  datatype Identity = Identity(IsAuthenticated: bool)

  /** The request's `ClaimsPrincipal`: its identity (if any) and its claims, in token order. */
  datatype Principal = Principal(Identity: Option<Identity>, Claims: seq<Claim>)

  const NameIdentifierType: string := "http://schemas.xmlsoap.org/ws/2005/05/identity/claims/nameidentifier"
  const NameType: string := "http://schemas.xmlsoap.org/ws/2005/05/identity/claims/name"
  const EmailType: string := "http://schemas.xmlsoap.org/ws/2005/05/identity/claims/emailaddress"
  const EmpresaIdType: string := "EmpresaId"
  const RolIdType: string := "RolId"
  const RolNombreType: string := "RolNombre"

  /** `identity.IsAuthenticated`, false when there is no identity. */
  predicate IsAuthenticated(user: Principal) {
    user.Identity.Some? && user.Identity.value.IsAuthenticated
  }

  /** `FindFirst(type)?.Value`: the value of the first claim whose type matches, ignoring
      case as claim-type comparison does. */
  function FindFirst(claims: seq<Claim>, claimType: string): (r: Option<string>)
    ensures r.Some? ==> exists i :: 0 <= i < |claims| && EqualsIgnoreCase(claims[i].Type, claimType)
                                    && claims[i].Value == r.value
                                    && forall j :: 0 <= j < i ==> !EqualsIgnoreCase(claims[j].Type, claimType)
    ensures r.None? ==> forall i :: 0 <= i < |claims| ==> !EqualsIgnoreCase(claims[i].Type, claimType)
  {
    if claims == [] then None
    else if EqualsIgnoreCase(claims[0].Type, claimType) then Some(claims[0].Value)
    else
      var r := FindFirst(claims[1..], claimType);
      if r.Some? then
        var i :| 1 <= i + 1 <= |claims| && 0 <= i < |claims[1..]| && EqualsIgnoreCase(claims[1..][i].Type, claimType)
          && claims[1..][i].Value == r.value && forall j :: 0 <= j < i ==> !EqualsIgnoreCase(claims[1..][j].Type, claimType);
        assert claims[i + 1] == claims[1..][i];
        assert forall j :: 1 <= j < i + 1 ==> claims[j] == claims[1..][j - 1];
        r
      else r
  }

  /** The first claim of a type is the one `FindFirst` finds. */
  lemma FindFirstAt(claims: seq<Claim>, claimType: string, i: int)
    requires 0 <= i < |claims| && EqualsIgnoreCase(claims[i].Type, claimType)
    requires forall j :: 0 <= j < i ==> !EqualsIgnoreCase(claims[j].Type, claimType)
    ensures FindFirst(claims, claimType) == Some(claims[i].Value)
  {
    var r := FindFirst(claims, claimType);
    if r.Some? {
      var k :| 0 <= k < |claims| && EqualsIgnoreCase(claims[k].Type, claimType) && claims[k].Value == r.value
               && forall j :: 0 <= j < k ==> !EqualsIgnoreCase(claims[j].Type, claimType);
      assert k == i;
    }
  }

  /** The shared shape of `GetUserId`, `GetEmpresaId` and `GetRolId`: the parsed claim, or 0 when
      it is missing, empty or not a 32-bit integer. */
  function IntClaim(user: Principal, claimType: string): (r: int)
    ensures IsInt32(r)
    ensures FindFirst(user.Claims, claimType).None? ==> r == 0
    ensures FindFirst(user.Claims, claimType).Some? && TryParseInt32(FindFirst(user.Claims, claimType).value).Some?
            ==> r == TryParseInt32(FindFirst(user.Claims, claimType).value).value
    ensures FindFirst(user.Claims, claimType).Some? && TryParseInt32(FindFirst(user.Claims, claimType).value).None?
            ==> r == 0
  {
    match FindFirst(user.Claims, claimType)
    case None => 0
    case Some(v) =>
      if IsNullOrEmpty(Some(v)) then 0
      else match TryParseInt32(v)
        case None => 0
        case Some(n) => n
  }

  /** A claim that reads back as `n` yields `n`, whatever comes after it. */
  lemma IntClaimRoundTrip(user: Principal, claimType: string, n: int)
    requires IsInt32(n)
    requires FindFirst(user.Claims, claimType) == Some(IntToString(n))
    ensures IntClaim(user, claimType) == n
  {
    TryParseIntToString(n);
  }

  /** `int.TryParse` is lenient: a plus sign, leading zeros and surrounding white space are
      accepted, so these spellings of 5 all read as 5. */
  lemma IntClaimLenient(user: Principal, claimType: string, v: string)
    requires v == "+5" || v == "05" || v == " 5 "
    requires FindFirst(user.Claims, claimType) == Some(v)
    ensures IntClaim(user, claimType) == 5
  {
    if v == " 5 " {
      assert TrimStart(v) == "5 ";
      assert TrimEnd("5 ") == "5";
      assert DigitsValue("5") == 5;
    } else if v == "05" {
      assert TrimStart(v) == v && TrimEnd(v) == v;
      assert DigitsValue("0") == 0;
      assert DigitsValue(v) == 5 by { assert v[..1] == "0"; }
    } else {
      assert TrimStart(v) == v && TrimEnd(v) == v;
      assert v[1..] == "5";
      assert DigitsValue("5") == 5;
    }
  }

  /** A claim that does not parse yields 0. */
  lemma IntClaimUnreadable(user: Principal, claimType: string)
    requires FindFirst(user.Claims, claimType).Some?
    requires TryParseInt32(FindFirst(user.Claims, claimType).value).None?
    ensures IntClaim(user, claimType) == 0
  {
  }

  function GetUserId(user: Principal): (r: int)
    ensures r == IntClaim(user, NameIdentifierType)
    ensures FindFirst(user.Claims, NameIdentifierType).Some? && TryParseInt32(FindFirst(user.Claims, NameIdentifierType).value).Some?
            ==> r == TryParseInt32(FindFirst(user.Claims, NameIdentifierType).value).value
    ensures FindFirst(user.Claims, NameIdentifierType).None? || TryParseInt32(FindFirst(user.Claims, NameIdentifierType).value).None?
            ==> r == 0
  {
    IntClaim(user, NameIdentifierType)
  }

  function GetEmpresaId(user: Principal): (r: int)
    ensures r == IntClaim(user, EmpresaIdType)
    ensures FindFirst(user.Claims, EmpresaIdType).Some? && TryParseInt32(FindFirst(user.Claims, EmpresaIdType).value).Some?
            ==> r == TryParseInt32(FindFirst(user.Claims, EmpresaIdType).value).value
    ensures FindFirst(user.Claims, EmpresaIdType).None? || TryParseInt32(FindFirst(user.Claims, EmpresaIdType).value).None?
            ==> r == 0
  {
    IntClaim(user, EmpresaIdType)
  }

  function GetRolId(user: Principal): (r: int)
    ensures r == IntClaim(user, RolIdType)
    ensures FindFirst(user.Claims, RolIdType).Some? && TryParseInt32(FindFirst(user.Claims, RolIdType).value).Some?
            ==> r == TryParseInt32(FindFirst(user.Claims, RolIdType).value).value
    ensures FindFirst(user.Claims, RolIdType).None? || TryParseInt32(FindFirst(user.Claims, RolIdType).value).None?
            ==> r == 0
  {
    IntClaim(user, RolIdType)
  }

  /** The shared shape of the string getters: the claim's value, or "" when it is missing. */
  function StringClaim(user: Principal, claimType: string): (r: string)
    ensures FindFirst(user.Claims, claimType).None? ==> r == ""
    ensures FindFirst(user.Claims, claimType).Some? ==> r == FindFirst(user.Claims, claimType).value
  {
    FindFirst(user.Claims, claimType).GetOr("")
  }

  function GetUserName(user: Principal): (r: string)
    ensures FindFirst(user.Claims, NameType).None? ==> r == ""
    ensures FindFirst(user.Claims, NameType).Some? ==> r == FindFirst(user.Claims, NameType).value
  {
    StringClaim(user, NameType)
  }

  function GetUserEmail(user: Principal): (r: string)
    ensures FindFirst(user.Claims, EmailType).None? ==> r == ""
    ensures FindFirst(user.Claims, EmailType).Some? ==> r == FindFirst(user.Claims, EmailType).value
  {
    StringClaim(user, EmailType)
  }

  function GetRolNombre(user: Principal): (r: string)
    ensures FindFirst(user.Claims, RolNombreType).None? ==> r == ""
    ensures FindFirst(user.Claims, RolNombreType).Some? ==> r == FindFirst(user.Claims, RolNombreType).value
  {
    StringClaim(user, RolNombreType)
  }

  /** `HasRole(rolId)`: the caller's role, as `GetRolId` reads it, is `rolId`; a caller without
      a readable role has role 0. */
  function HasRole(user: Principal, rolId: int): (r: bool)
    ensures r <==> IntClaim(user, RolIdType) == rolId
    ensures FindFirst(user.Claims, RolIdType).None? ==> (r <==> rolId == 0)
  {
    GetRolId(user) == rolId
  }

  /** `HasAnyRole(rolesIds)`: the caller's role is one of the given ones. */
  function HasAnyRole(user: Principal, rolesIds: seq<int>): (r: bool)
    ensures r <==> exists i :: 0 <= i < |rolesIds| && HasRole(user, rolesIds[i])
  {
    GetRolId(user) in rolesIds
  }

  /** The administrator ("Gerente") role. */
  const AdminRol: int := 1

  function IsAdmin(user: Principal): (r: bool)
    ensures r <==> HasRole(user, AdminRol)
    ensures r <==> HasAnyRole(user, [AdminRol])
  {
    GetRolId(user) == 1
  }

  /** `BelongsToUserCompany(e)`: the resource's company is the caller's. */
  function BelongsToUserCompany(user: Principal, resourceEmpresaId: int): (r: bool)
    ensures r <==> IntClaim(user, EmpresaIdType) == resourceEmpresaId
    ensures FindFirst(user.Claims, EmpresaIdType).None? ==> (r <==> resourceEmpresaId == 0)
  {
    GetEmpresaId(user) == resourceEmpresaId
  }

  /** A caller whose company claim is missing or unreadable counts as belonging to company 0,
      and to no other. */
  lemma NoCompanyMatchesZero(user: Principal, e: int)
    requires FindFirst(user.Claims, EmpresaIdType).None?
             || TryParseInt32(FindFirst(user.Claims, EmpresaIdType).value).None?
    ensures BelongsToUserCompany(user, e) <==> e == 0
  {
  }

  /** The claims the login token carries, in the order it writes them (the token id is
      omitted); each claim is the first of its type, so the helpers find it. */
  function TokenClaims(userId: int, email: string, nombre: string, empresaId: int, rolId: int, rolNombre: string): (c: seq<Claim>)
    ensures FindFirst(c, NameIdentifierType) == Some(IntToString(userId))
    ensures FindFirst(c, EmailType) == Some(email) && FindFirst(c, NameType) == Some(nombre)
    ensures FindFirst(c, EmpresaIdType) == Some(IntToString(empresaId))
    ensures FindFirst(c, RolIdType) == Some(IntToString(rolId))
    ensures FindFirst(c, RolNombreType) == Some(rolNombre)
  {
    var c := [Claim(NameIdentifierType, IntToString(userId)), Claim(EmailType, email), Claim(NameType, nombre),
              Claim(EmpresaIdType, IntToString(empresaId)), Claim(RolIdType, IntToString(rolId)),
              Claim(RolNombreType, rolNombre)];
    assert |c[0].Type| == 68 && |c[1].Type| == 66 && |c[2].Type| == 58;
    TokenIdentityRead(c);
    TokenCompanyRead(c);
    TokenRolNombreRead(c);
    c
  }

  /** Claim types of different lengths, or with different first letters, never match. */
  lemma TypesDiffer(a: string, b: string)
    requires |a| != |b| || (|a| > 0 && |b| > 0 && ToUpperChar(a[0]) != ToUpperChar(b[0]))
    ensures !EqualsIgnoreCase(a, b)
  {
  }

  /** The types the token writes before the user's company are found at their own positions. */
  lemma {:induction false} TokenIdentityRead(c: seq<Claim>)
    requires |c| == 6 && c[0].Type == NameIdentifierType && c[1].Type == EmailType && c[2].Type == NameType
    ensures FindFirst(c, NameIdentifierType) == Some(c[0].Value) && FindFirst(c, EmailType) == Some(c[1].Value)
    ensures FindFirst(c, NameType) == Some(c[2].Value)
  {
    assert |NameIdentifierType| == 68 && |EmailType| == 66 && |NameType| == 58;
    FindFirstAt(c, NameIdentifierType, 0);
    TypesDiffer(NameIdentifierType, EmailType);
    FindFirstAt(c, EmailType, 1);
    TypesDiffer(NameIdentifierType, NameType);
    TypesDiffer(EmailType, NameType);
    FindFirstAt(c, NameType, 2);
  }

  /** The company and role types, after the three identity types, are found at their own
      positions. */
  lemma {:induction false} TokenCompanyRead(c: seq<Claim>)
    requires |c| == 6 && |c[0].Type| == 68 && |c[1].Type| == 66 && |c[2].Type| == 58
    requires c[3].Type == EmpresaIdType && c[4].Type == RolIdType
    ensures FindFirst(c, EmpresaIdType) == Some(c[3].Value)
    ensures FindFirst(c, RolIdType) == Some(c[4].Value)
  {
    assert |EmpresaIdType| == 9 && |RolIdType| == 5;
    FindFirstAt(c, EmpresaIdType, 3);
    TypesDiffer(EmpresaIdType, RolIdType);
    FindFirstAt(c, RolIdType, 4);
  }

  /** The role name, the last type the token writes, is found at its own position. */
  lemma {:induction false} TokenRolNombreRead(c: seq<Claim>)
    requires |c| == 6 && |c[0].Type| == 68 && |c[1].Type| == 66 && |c[2].Type| == 58
    requires c[3].Type == EmpresaIdType && c[4].Type == RolIdType && c[5].Type == RolNombreType
    ensures FindFirst(c, RolNombreType) == Some(c[5].Value)
  {
    assert |RolIdType| == 5 && |RolNombreType| == 9;
    assert !EqualsIgnoreCase(EmpresaIdType, RolNombreType) by {
      TypesDiffer(EmpresaIdType, RolNombreType);
    }
    TypesDiffer(RolIdType, RolNombreType);
    FindFirstAt(c, RolNombreType, 5);
  }

  /** A caller holding a login token belongs to the company the token was issued for, and to no
      other. */
  lemma TokenCompanyScope(userId: int, email: string, nombre: string, empresaId: int, rolId: int, rolNombre: string,
                          authenticated: bool, e: int)
    requires IsInt32(userId) && IsInt32(empresaId) && IsInt32(rolId)
    ensures var user := Principal(Some(Identity(authenticated)), TokenClaims(userId, email, nombre, empresaId, rolId, rolNombre));
            BelongsToUserCompany(user, e) <==> e == empresaId
  {
    TokenRoundTrip(userId, email, nombre, empresaId, rolId, rolNombre, authenticated);
  }

  /** The helpers read back from a login token exactly the values it was issued with. */
  lemma TokenRoundTrip(userId: int, email: string, nombre: string, empresaId: int, rolId: int, rolNombre: string, authenticated: bool)
    requires IsInt32(userId) && IsInt32(empresaId) && IsInt32(rolId)
    ensures var user := Principal(Some(Identity(authenticated)), TokenClaims(userId, email, nombre, empresaId, rolId, rolNombre));
            GetUserId(user) == userId && GetEmpresaId(user) == empresaId && GetRolId(user) == rolId
            && GetUserEmail(user) == email && GetUserName(user) == nombre && GetRolNombre(user) == rolNombre
  {
    var user := Principal(Some(Identity(authenticated)), TokenClaims(userId, email, nombre, empresaId, rolId, rolNombre));
    IntClaimRoundTrip(user, NameIdentifierType, userId);
    IntClaimRoundTrip(user, EmpresaIdType, empresaId);
    IntClaimRoundTrip(user, RolIdType, rolId);
  }
}

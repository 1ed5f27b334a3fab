# ProyectoHillary1 core, modelled in Dafny

ProyectoHillary1 is an ASP.NET Core web API for companies (`Empresa`), their users (`Usuario`),
roles (`Rol`) and tasks (`Tarea`). This project models the parts of it that make decisions:

- **E-mail generation** (`EmailGenerator`). A name and a company name are turned into slugs:
  lower-cased, spaces become dots, accents dropped, only letters, digits and dots kept. The
  generator then searches `base@dom.com`, `prefix1@dom.com`, … for the first address no user has.
- **The four data-access classes** (`UsuarioDal`, `TareaDal`, `EmpresaDal`, `RolDal`). Each is a
  class over its table, kept as a sequence of rows in ascending identity order, with a ghost
  map view `Table()`. Every operation is stated against the table before and after the call:
  - create;
  - lookup with an `Id == 0` default record;
  - field-selective edit;
  - delete and status change;
  - filtered count;
  - descending-`Id` paged search.
- **Password hashing** (`PasswordHelper`). SHA-256 of the UTF-8 bytes is a parameter function
  giving 32 bytes. The hex encoding is written out and shown to be injective. Verification
  compares case-insensitively.
- **Authorization.** This covers:
  - the claim helpers of the base controller, whose default is 0;
  - the `[AuthorizeRoles]` filter;
  - the guard chains of the user and task endpoints, in the order they are checked.

  Each replies 200, 400, 401, 403 or 404.

Modules follow the source files:

- `Common`: nullable values, replies and guard steps.
- `Text`, `Numbers`: `string.IsNullOrWhiteSpace`, `Contains`, case mapping, `int.TryParse`
  and `ToString`.
- `Entities`.
- `Rows`: generic table helpers.
- `EmailGenerator`, `PasswordHelper`.
- `UsuarioDal`, `TareaDal`, `EmpresaDal`, `RolDal`.
- `BaseApi`, `AuthorizeRoles`.
- `UsuarioEndpoints`, `TareaEndpoints`.

The server clock (`DateTime.Now`) is a `now` parameter. The caller is a `Principal` value: an
optional identity plus a list of claims.

## Model

| member | source | states |
|---|---|---|
| EmailGenerator.LimpiarTexto | ProyectoHillary1/Utilities/EmailGenerator.cs:51-67 | null or blank text gives "sin-nombre"; otherwise every character of the slug is a letter, a digit or '.', and none is a non-spacing mark |
| EmailGenerator.Decompose | ProyectoHillary1/Utilities/EmailGenerator.cs:58 | form-D decomposition of a character is the character itself, or a lower-case base letter followed by a non-spacing mark |
| EmailGenerator.ReplaceSpaces | ProyectoHillary1/Utilities/EmailGenerator.cs:57 | same length, every space replaced by '.', every other character kept |
| EmailGenerator.SpacesBecomeDots | ProyectoHillary1/Utilities/EmailGenerator.cs:56-58 | for a plain ASCII name the slug is the lower-cased name with each space turned into a dot |
| EmailGenerator.LowerAsciiSlug | ProyectoHillary1/Utilities/EmailGenerator.cs:56-66 | lower-case ASCII letters are their own slug |
| EmailGenerator.SlugByCharacter | ProyectoHillary1/Utilities/EmailGenerator.cs:56-66 | a non-blank text's slug is the concatenation of what each of its characters contributes |
| EmailGenerator.AccentDropped | ProyectoHillary1/Utilities/EmailGenerator.cs:58-63 | an accented letter, capital or not, contributes only its lower-case base letter |
| EmailGenerator.NormalizeDConcat | ProyectoHillary1/Utilities/EmailGenerator.cs:58 | decomposition distributes over concatenation |
| EmailGenerator.NormalizeDSettles | ProyectoHillary1/Utilities/EmailGenerator.cs:56-58 | decomposing lower-cased, space-free text leaves only characters that need no further mapping, and marks |
| EmailGenerator.NormalizeDOfSettled | ProyectoHillary1/Utilities/EmailGenerator.cs:58 | decomposition leaves text of undecomposable characters unchanged |
| EmailGenerator.SlugSettled | ProyectoHillary1/Utilities/EmailGenerator.cs:60-64 | every character kept in a slug is unaffected by lower-casing, space replacement and decomposition |
| EmailGenerator.LimpiarTextoIdempotent | ProyectoHillary1/Utilities/EmailGenerator.cs:51-67 | cleaning a non-empty slug again gives the same slug |
| EmailGenerator.EmailYaExiste | ProyectoHillary1/Utilities/EmailGenerator.cs:45-48 | true exactly when some user row has that e-mail |
| EmailGenerator.FirstFreeUnique | ProyectoHillary1/Utilities/EmailGenerator.cs:72-81 | the first free candidate is unique |
| EmailGenerator.NumberedInjective | ProyectoHillary1/Utilities/EmailGenerator.cs:77 | distinct counters give distinct candidate addresses |
| EmailGenerator.TriedBound | ProyectoHillary1/Utilities/EmailGenerator.cs:75-79 | if candidates 1..n are all taken, n is at most the number of e-mails in the table, which makes the loop terminate |
| EmailGenerator.ObtenerEmailDisponible | ProyectoHillary1/Utilities/EmailGenerator.cs:70-82 | the result is free; it is `emailBase` when that is free, and otherwise `prefijo` + k + "@" + `dominio` + ".com" for the least k ≥ 1 that is free |
| EmailGenerator.EmpresaSlug | ProyectoHillary1/Utilities/EmailGenerator.cs:20 | the fallback company name "empresa" is its own slug |
| EmailGenerator.DominioEmpresa | ProyectoHillary1/Utilities/EmailGenerator.cs:19-20 | an unknown company gives "empresa"; a known one gives the slug of its name |
| EmailGenerator.GenerarEmailUnico | ProyectoHillary1/Utilities/EmailGenerator.cs:17-25 | the result is free, and is the first free candidate built from the name's slug and the company's domain |
| EmailGenerator.SplitOnSpaces | ProyectoHillary1/Utilities/EmailGenerator.cs:33 | the parts are non-empty and space-free, and the first starts with the text's first character when that is not a space |
| EmailGenerator.SplitOnSpacesParts | ProyectoHillary1/Utilities/EmailGenerator.cs:33 | joined back together, the parts are exactly the text with every space removed, in order |
| EmailGenerator.SplitWord | ProyectoHillary1/Utilities/EmailGenerator.cs:33 | a non-empty word without spaces is split into just itself |
| EmailGenerator.SplitAtSpace | ProyectoHillary1/Utilities/EmailGenerator.cs:33 | a space separates: the parts of `a + " " + b` are the parts of `a` followed by those of `b`, so together with the words-only guarantee the parts are the maximal runs between spaces |
| EmailGenerator.TwoWords | ProyectoHillary1/Utilities/EmailGenerator.cs:33-34 | two words joined by one space split into exactly those two parts |
| EmailGenerator.ShortPrefix | ProyectoHillary1/Utilities/EmailGenerator.cs:37-39 | the lower-cased first character of the first part (no ASCII or Latin-1 capital), followed by the slug of the last part |
| EmailGenerator.AsciiWordSlug | ProyectoHillary1/Utilities/EmailGenerator.cs:51-67 | a plain ASCII word is cleaned to its lower-cased form |
| EmailGenerator.ShortPrefixOfTwoWords | ProyectoHillary1/Utilities/EmailGenerator.cs:27-41 | "Nombre Apellido" with a plain ASCII last name gives two parts and the prefix initial + lower-cased last name, as "Juan Perez" gives `jperez` |
| EmailGenerator.GenerarEmailCorto | ProyectoHillary1/Utilities/EmailGenerator.cs:28-42 | fewer than two name parts behave exactly as `GenerarEmailUnico`; otherwise the result is the first free candidate for the first initial, lower-cased, followed by the last part's slug; the result is always free |
| PasswordHelper.HexDigit | ProyectoHillary1/Utilities/PasswordHelper.cs:20 | each nibble is written as a lower-case hex digit |
| PasswordHelper.HexValue | ProyectoHillary1/Utilities/PasswordHelper.cs:20 | reading a lower-case hex digit gives a nibble that is written back as the same digit |
| PasswordHelper.ByteHex | ProyectoHillary1/Utilities/PasswordHelper.cs:20 | `ToString("x2")` gives two lower-case hex digits |
| PasswordHelper.Hex | ProyectoHillary1/Utilities/PasswordHelper.cs:18-21 | two lower-case hex digits per byte |
| PasswordHelper.UnhexHex | ProyectoHillary1/Utilities/PasswordHelper.cs:18-21 | decoding the hex text gives the bytes back |
| PasswordHelper.HexInjective | ProyectoHillary1/Utilities/PasswordHelper.cs:18-21 | distinct byte sequences are written differently |
| PasswordHelper.PasswordHash | ProyectoHillary1/Utilities/PasswordHelper.cs:9-24 | a null or blank password hashes to ""; any other gives 64 lower-case hex digits |
| PasswordHelper.HashPassword | ProyectoHillary1/Utilities/PasswordHelper.cs:9-24 | the byte loop builds exactly `PasswordHash`, the hex text of the digest |
| PasswordHelper.HashDistinguishesDigests | ProyectoHillary1/Utilities/PasswordHelper.cs:16-22 | passwords with different digests get different hashes |
| PasswordHelper.VerifyPassword | ProyectoHillary1/Utilities/PasswordHelper.cs:27-31 | true exactly when the stored hash equals the password's hash ignoring case; a null stored hash never matches |
| PasswordHelper.VerifyOwnHash | ProyectoHillary1/Utilities/PasswordHelper.cs:27-31 | a password verifies against its own hash |
| PasswordHelper.VerifyUpperCased | ProyectoHillary1/Utilities/PasswordHelper.cs:30 | an upper-cased stored hash still verifies |
| PasswordHelper.BlankVerifiesEmpty | ProyectoHillary1/Utilities/PasswordHelper.cs:11-12 | a blank password verifies against the empty stored hash and against no other |
| PasswordHelper.HexCharIgnoringCase | ProyectoHillary1/Utilities/PasswordHelper.cs:30 | a character equals a lower-case hex digit ignoring case exactly when it lower-cases to that digit |
| PasswordHelper.VerifiesIffLowered | ProyectoHillary1/Utilities/PasswordHelper.cs:30 | a stored hash verifies exactly when lower-casing it gives the password's hash |
| Numbers.TryParseInt32 | ProyectoHillary1/Controllers/BaseApiController.cs:20 | a parsed value fits in 32 bits; the empty string does not parse |
| Numbers.TryParseIntToString | ProyectoHillary1/Controllers/BaseApiController.cs:20 | every 32-bit number as `ToString` prints it parses back to itself |
| BaseApi.FindFirst | ProyectoHillary1/Controllers/BaseApiController.cs:19 | the value of the first claim whose type matches ignoring case; none when no claim matches |
| BaseApi.FindFirstAt | ProyectoHillary1/Controllers/BaseApiController.cs:19 | the claim found is the first matching one |
| BaseApi.IntClaim | ProyectoHillary1/Controllers/BaseApiController.cs:17-25 | a 32-bit value; 0 when the claim is absent or does not parse; otherwise exactly the value the claim parses to |
| BaseApi.IntClaimLenient | ProyectoHillary1/Controllers/BaseApiController.cs:20 | the parse is lenient: "+5", "05" and " 5 " all read as 5 |
| BaseApi.IntClaimRoundTrip | ProyectoHillary1/Controllers/BaseApiController.cs:17-25 | a claim holding a printed integer is read back as that integer |
| BaseApi.IntClaimUnreadable | ProyectoHillary1/Controllers/BaseApiController.cs:20-23 | a claim that does not parse reads as 0 |
| BaseApi.GetUserId | ProyectoHillary1/Controllers/BaseApiController.cs:17-25 | the name-identifier claim's value when it parses as a 32-bit integer, and 0 when it is missing or does not parse |
| BaseApi.GetEmpresaId | ProyectoHillary1/Controllers/BaseApiController.cs:30-38 | the "EmpresaId" claim's value when it parses as a 32-bit integer, and 0 when it is missing or does not parse |
| BaseApi.GetRolId | ProyectoHillary1/Controllers/BaseApiController.cs:43-51 | the "RolId" claim's value when it parses as a 32-bit integer, and 0 when it is missing or does not parse |
| BaseApi.StringClaim | ProyectoHillary1/Controllers/BaseApiController.cs:56-75 | "" when the claim is absent, its value otherwise |
| BaseApi.GetUserName | ProyectoHillary1/Controllers/BaseApiController.cs:56-59 | the value of the first name claim, or "" when there is none |
| BaseApi.GetUserEmail | ProyectoHillary1/Controllers/BaseApiController.cs:64-67 | the value of the first e-mail claim, or "" when there is none |
| BaseApi.GetRolNombre | ProyectoHillary1/Controllers/BaseApiController.cs:72-75 | the value of the first "RolNombre" claim, or "" when there is none |
| BaseApi.HasRole | ProyectoHillary1/Controllers/BaseApiController.cs:80-83 | true exactly when the role claim reads as that role; without a role claim, exactly for role 0 |
| BaseApi.HasAnyRole | ProyectoHillary1/Controllers/BaseApiController.cs:88-92 | true exactly when the caller has one of the listed roles |
| BaseApi.IsAdmin | ProyectoHillary1/Controllers/BaseApiController.cs:97-100 | true exactly when the role is 1, which is the same as having any role in [1] |
| BaseApi.BelongsToUserCompany | ProyectoHillary1/Controllers/BaseApiController.cs:105-108 | true exactly when the caller's company claim reads as the resource's company; a caller with no company claim matches only company 0 |
| BaseApi.NoCompanyMatchesZero | ProyectoHillary1/Controllers/BaseApiController.cs:105-108 | a caller without a company claim belongs exactly to the resources of company 0 |
| BaseApi.TokenCompanyScope | ProyectoHillary1/Controllers/BaseApiController.cs:105-108 | a caller holding a login token belongs to the company the token was issued for, and to no other |
| BaseApi.TokenClaims | ProyectoHillary1/Utilities/JwtService.cs:23-32 | each claim the login token writes is the first of its type, so the identifier, e-mail, name, company, role and role name are found as written |
| BaseApi.TypesDiffer | ProyectoHillary1/Utilities/JwtService.cs:26-31 | claim types of different lengths or first letters never match |
| BaseApi.TokenIdentityRead | ProyectoHillary1/Utilities/JwtService.cs:26-28 | the identifier, e-mail and name claims of a login token are found where they were written |
| BaseApi.TokenCompanyRead | ProyectoHillary1/Utilities/JwtService.cs:29-30 | the company and role claims of a login token are found where they were written |
| BaseApi.TokenRolNombreRead | ProyectoHillary1/Utilities/JwtService.cs:31 | the role-name claim of a login token is found where it was written |
| BaseApi.TokenRoundTrip | ProyectoHillary1/Utilities/JwtService.cs:23-33 | the helpers read back from a login token exactly the id, e-mail, name, company, role and role name it was issued with |
| AuthorizeRoles.Decision.AsGuard | ProyectoHillary1/Attributes/AuthorizeRolesAttribute.cs:19-62 | the filter lets the action run only on `Allow`; any other decision answers with its own status and message |
| AuthorizeRoles.RolIdClaim | ProyectoHillary1/Attributes/AuthorizeRolesAttribute.cs:34-36 | a readable role is a 32-bit value that equals the helpers' role; an unreadable one is role 0 to the helpers |
| AuthorizeRoles.OnAuthorization | ProyectoHillary1/Attributes/AuthorizeRolesAttribute.cs:19-62 | 401 when not authenticated; then 403 when the role is missing, empty or unparsable; then 403 with the allowed roles and the caller's role when it is not allowed; allowed exactly otherwise |
| AuthorizeRoles.AuthenticationFirst | ProyectoHillary1/Attributes/AuthorizeRolesAttribute.cs:24-46 | an unauthenticated caller gets 401 whatever claims they carry |
| AuthorizeRoles.AllowedHasAnyRole | ProyectoHillary1/Attributes/AuthorizeRolesAttribute.cs:49-62 | a caller let through has an allowed role as the controller helpers see it |
| AuthorizeRoles.HasAnyRoleAllowed | ProyectoHillary1/Attributes/AuthorizeRolesAttribute.cs:49-62 | conversely, an authenticated caller with an allowed role is let through when 0 is not allowed |
| AuthorizeRoles.MissingRoleRefused | ProyectoHillary1/Attributes/AuthorizeRolesAttribute.cs:34-46 | a missing role claim is refused by the filter, although the helpers count it as role 0 |
| RolDal.RolDal.Create | ProyectoHillary1/Models/Dal/RolDal.cs:17-21 | adds exactly one row, under a fresh id, leaving every other row unchanged; one row saved |
| RolDal.RolDal.GetById | ProyectoHillary1/Models/Dal/RolDal.cs:24-28 | the row with that id, or the default role with id 0 when there is none |
| RolDal.RolDal.Edit | ProyectoHillary1/Models/Dal/RolDal.cs:31-44 | replaces only `Nombre` and `Descripcion`; an unknown id changes nothing and gives 0; no change gives 0 |
| RolDal.RolDal.Delete | ProyectoHillary1/Models/Dal/RolDal.cs:47-58 | removes exactly that row, or changes nothing and gives 0 for an unknown id |
| RolDal.RolDal.Query | ProyectoHillary1/Models/Dal/RolDal.cs:61-69 | exactly the rows whose name contains a non-blank filter, in ascending id order |
| RolDal.RolDal.CountSearch | ProyectoHillary1/Models/Dal/RolDal.cs:72-75 | the number of rows the filter keeps |
| RolDal.RolDal.Search | ProyectoHillary1/Models/Dal/RolDal.cs:78-84 | matching rows only, strictly descending by id; the page starts `skip` rows into the descending order; at most `take` rows (10 when `take` is 0) |
| TareaDal.TareaDal.Create | ProyectoHillary1/Models/Dal/TareaDal.cs:17-21 | adds exactly one row, under a fresh id, leaving every other row unchanged; one row saved |
| TareaDal.TareaDal.GetById | ProyectoHillary1/Models/Dal/TareaDal.cs:24-28 | the row with that id, or the default task with id 0 |
| TareaDal.TareaDal.GetByIdWithEmpresa | ProyectoHillary1/Models/Dal/TareaDal.cs:31-37 | the same row as `GetById` |
| TareaDal.TareaDal.Edit | ProyectoHillary1/Models/Dal/TareaDal.cs:40-54 | replaces exactly `EmpresaId`, `Nombre` and `Descripcion`; an unknown id changes nothing and gives 0 |
| TareaDal.TareaDal.Delete | ProyectoHillary1/Models/Dal/TareaDal.cs:57-68 | removes exactly that row, or changes nothing and gives 0 |
| TareaDal.TareaDal.Query | ProyectoHillary1/Models/Dal/TareaDal.cs:71-82 | exactly the rows matching a non-blank name filter and, when the probe's company is positive, that company |
| TareaDal.TareaDal.CountSearch | ProyectoHillary1/Models/Dal/TareaDal.cs:85-88 | the number of rows `Query` keeps |
| TareaDal.TareaDal.Search | ProyectoHillary1/Models/Dal/TareaDal.cs:91-97 | matching rows only, strictly descending by id, the page at `skip` of at most `take` rows (10 when `take` is 0) |
| TareaDal.TareaDal.SearchWithEmpresa | ProyectoHillary1/Models/Dal/TareaDal.cs:100-109 | the same rows as `Search` |
| TareaDal.TareaDal.GetByEmpresaId | ProyectoHillary1/Models/Dal/TareaDal.cs:112-119 | every task of that company and no other, strictly descending by id |
| EmpresaDal.EmpresaDal.Create | ProyectoHillary1/Models/Dal/EmpresaDal.cs:18-27 | stores the company active, created and updated now, under a fresh id, leaving other rows unchanged |
| EmpresaDal.EmpresaDal.GetById | ProyectoHillary1/Models/Dal/EmpresaDal.cs:30-34 | the row with that id, or the default company with id 0 |
| EmpresaDal.EmpresaDal.Edited | ProyectoHillary1/Models/Dal/EmpresaDal.cs:54-60 | the five text fields are replaced; `Activo` only when a value is given; `UpdatedAt` becomes now; id and `CreatedAt` are kept |
| EmpresaDal.EmpresaDal.Edit | ProyectoHillary1/Models/Dal/EmpresaDal.cs:47-65 | the row becomes `Edited`; an unknown id changes nothing and gives 0 |
| EmpresaDal.EmpresaDal.Delete | ProyectoHillary1/Models/Dal/EmpresaDal.cs:68-79 | removes exactly that row, or changes nothing and gives 0 |
| EmpresaDal.EmpresaDal.Query | ProyectoHillary1/Models/Dal/EmpresaDal.cs:82-90 | exactly the rows whose name contains a non-blank filter; every other probe field is ignored |
| EmpresaDal.EmpresaDal.CountSearch | ProyectoHillary1/Models/Dal/EmpresaDal.cs:93-96 | the number of rows `Query` keeps |
| EmpresaDal.EmpresaDal.Search | ProyectoHillary1/Models/Dal/EmpresaDal.cs:99-105 | matching rows only, strictly descending by id, the page at `skip` of at most `take` rows (10 when `take` is 0) |
| EmpresaDal.EmpresaDal.ChangeStatus | ProyectoHillary1/Models/Dal/EmpresaDal.cs:109-120 | sets `Activo` and `UpdatedAt`, every other field untouched; an unknown id changes nothing and gives 0 |
| UsuarioDal.Edited | ProyectoHillary1/Models/Dal/UsuarioDal.cs:50-57 | `Nombre` always replaced, even by null; `Email` and `Password` replaced only by non-blank values; id, company, role and status kept |
| UsuarioDal.UsuarioDal.Create | ProyectoHillary1/Models/Dal/UsuarioDal.cs:19-30 | a blank e-mail is replaced by the first free generated address, a non-blank one kept; stored active whatever the input says, under a fresh id; other rows unchanged |
| UsuarioDal.UsuarioDal.GetById | ProyectoHillary1/Models/Dal/UsuarioDal.cs:33-40 | the row with that id, or the default user with id 0 |
| UsuarioDal.UsuarioDal.Edit | ProyectoHillary1/Models/Dal/UsuarioDal.cs:43-62 | the row becomes `Edited`; an unknown id changes nothing and gives 0 |
| UsuarioDal.UsuarioDal.Delete | ProyectoHillary1/Models/Dal/UsuarioDal.cs:65-76 | removes exactly that row, or changes nothing and gives 0 |
| UsuarioDal.UsuarioDal.Query | ProyectoHillary1/Models/Dal/UsuarioDal.cs:79-90 | exactly the rows matching the non-blank name and e-mail filters and, when positive, the probe's company; role and status in the probe are ignored |
| UsuarioDal.UsuarioDal.CountSearch | ProyectoHillary1/Models/Dal/UsuarioDal.cs:93-96 | the number of rows `Query` keeps |
| UsuarioDal.UsuarioDal.Search | ProyectoHillary1/Models/Dal/UsuarioDal.cs:99-110 | matching rows only, strictly descending by id; the page starts `skip` rows into the descending order; it holds at most `take` rows (10 when `take` is 0), as many as remain |
| UsuarioDal.UsuarioDal.ChangeStatus | ProyectoHillary1/Models/Dal/UsuarioDal.cs:113-123 | sets `Activo` only; an unknown id changes nothing and gives 0 |
| UsuarioDal.UsuarioDal.GetByEmailForLogin | ProyectoHillary1/Models/Dal/UsuarioDal.cs:126-134 | the first active user whose e-mail is exactly the argument; null exactly when there is none |
| UsuarioEndpoints.Authorize | ProyectoHillary1/Endpoints/UsuarioController.cs:77 | the `[AuthorizeRoles]` step each user endpoint starts with (also lines 96, 197, 239, 292, 328, 384): passes exactly for an authenticated caller whose readable role is allowed; 401 when not authenticated, 403 otherwise |
| Rows.SearchSkip | ProyectoHillary1/Endpoints/UsuarioController.cs:350 | the offset of page `PageNumber`, shared with TareaController.cs:166: the first page skips nothing, later pages a non-negative count, page 0 or below a negative count |
| Rows.ConsecutivePages | ProyectoHillary1/Endpoints/UsuarioController.cs:350-352 | page p and page p + 1 together are the window of twice the size at page p's offset, so pages neither overlap nor leave gaps |
| UsuarioEndpoints.CreateGuard | ProyectoHillary1/Endpoints/UsuarioController.cs:102-123 | 400 in order: no company; another company requested; a role-2 caller asking for role 1; role 0; passes exactly otherwise |
| UsuarioEndpoints.HierarchyCheckedBeforeRole | ProyectoHillary1/Endpoints/UsuarioController.cs:115-123 | a role-2 caller asking for role 1 gets the hierarchy message |
| UsuarioEndpoints.CreatedUser | ProyectoHillary1/Endpoints/UsuarioController.cs:125-132 | the new user has the caller's company, the requested role, the hashed password, no e-mail, and is active |
| UsuarioEndpoints.RegisterRol | ProyectoHillary1/Endpoints/UsuarioController.cs:168 | the requested role when positive, otherwise 1 |
| UsuarioEndpoints.RegisteredUser | ProyectoHillary1/Endpoints/UsuarioController.cs:165-172 | the requested company, `RegisterRol` of the requested role, the hashed password, active |
| UsuarioEndpoints.ScopeGuard | ProyectoHillary1/Endpoints/UsuarioController.cs:203-214 | 404 for the default user, then 403 for another company; passes exactly for a found user of the caller's company |
| UsuarioEndpoints.EditGuard | ProyectoHillary1/Endpoints/UsuarioController.cs:247-263 | the scope checks first, then 403 when a non-manager edits someone else |
| UsuarioEndpoints.EditedUser | ProyectoHillary1/Endpoints/UsuarioController.cs:265-273 | the new name and e-mail, and the hashed password, or null for a blank password |
| UsuarioEndpoints.BlankPasswordKeepsHash | ProyectoHillary1/Endpoints/UsuarioController.cs:270-272 | editing with a blank password keeps the stored hash, company, role and status |
| UsuarioEndpoints.SearchProbe | ProyectoHillary1/Endpoints/UsuarioController.cs:337-347 | the probe carries the filters and always the caller's company |
| UsuarioEndpoints.LoginAnswer | ProyectoHillary1/Endpoints/UsuarioController.cs:55-66 | the user's id, company and role, and their name and e-mail or "" |
| UsuarioEndpoints.UsuarioController.Login | ProyectoHillary1/Endpoints/UsuarioController.cs:29-74 | 400 for a blank e-mail or password; succeeds exactly when an active user has the e-mail and the password verifies against theirs; every other case gets 401 with one message |
| UsuarioEndpoints.UsuarioController.GetCurrentUser | ProyectoHillary1/Endpoints/UsuarioController.cs:77-91 | after the role filter, the caller's claims as the helpers read them; the role is then 1 or 2 |
| UsuarioEndpoints.UsuarioController.Create | ProyectoHillary1/Endpoints/UsuarioController.cs:96-156 | the role filter, then `CreateGuard`, leave the table unchanged on failure; otherwise `CreatedUser` is stored under a fresh id with the e-mail `GenerarEmailUnico` gives for its name and the caller's company: the base address when free, else the least free numbered one |
| UsuarioEndpoints.UsuarioController.Register | ProyectoHillary1/Endpoints/UsuarioController.cs:161-193 | always stores `RegisteredUser` under a fresh id, its id and e-mail filled in, the e-mail being the one `GenerarEmailUnico` gives for its name and the requested company: the base address when free, else the least free numbered one |
| UsuarioEndpoints.UsuarioController.GetById | ProyectoHillary1/Endpoints/UsuarioController.cs:197-234 | the role filter, then `ScopeGuard`; a user returned is of the caller's company |
| UsuarioEndpoints.UsuarioController.Edit | ProyectoHillary1/Endpoints/UsuarioController.cs:239-288 | the role filter, then `EditGuard`, leave the table unchanged on failure; otherwise the row becomes `Edited`, and 404 when nothing changed |
| UsuarioEndpoints.UsuarioController.Delete | ProyectoHillary1/Endpoints/UsuarioController.cs:292-324 | managers only, then `ScopeGuard`; then the row is removed |
| UsuarioEndpoints.UsuarioController.Search | ProyectoHillary1/Endpoints/UsuarioController.cs:328-380 | the count and the page, via `skip = (PageNumber-1)*PageSize`, of the users matching `SearchProbe`; with a positive company every row is of that company |
| UsuarioEndpoints.UsuarioController.ScopedSearch | ProyectoHillary1/Endpoints/UsuarioController.cs:345-352 | corrected search: a caller without a positive company gets 400, so every row returned is of the caller's company |
| UsuarioEndpoints.SearchUnscopedWithoutCompany | ProyectoHillary1/Endpoints/UsuarioController.cs:347-352 | with a role claim but no company claim, the search succeeds and its probe matches users of every company |
| UsuarioEndpoints.UsuarioController.ChangeStatus | ProyectoHillary1/Endpoints/UsuarioController.cs:384-416 | managers only, then `ScopeGuard`; then `Activo` is set, and 404 when nothing changed |
| TareaEndpoints.AuthGuard | ProyectoHillary1/Endpoints/TareaController.cs:11 | anonymous callers get 401; authenticated callers pass |
| TareaEndpoints.CompanyGuard | ProyectoHillary1/Endpoints/TareaController.cs:27-30 | 400 exactly when the company claim reads as 0 |
| TareaEndpoints.ScopeGuard | ProyectoHillary1/Endpoints/TareaController.cs:60-65 | 404 for the default task, then 403 for another company; passes exactly for a found task of the caller's company |
| TareaEndpoints.DeleteGuard | ProyectoHillary1/Endpoints/TareaController.cs:126-134 | a non-manager gets 403 before any lookup; a manager gets the scope checks |
| TareaEndpoints.DeleteRevealsNothing | ProyectoHillary1/Endpoints/TareaController.cs:126-131 | a non-manager's answer does not depend on the task looked up |
| TareaEndpoints.SearchProbe | ProyectoHillary1/Endpoints/TareaController.cs:160-164 | the requested name and always the caller's company |
| TareaEndpoints.TareaController.Create | ProyectoHillary1/Endpoints/TareaController.cs:22-50 | 401, then 400 without company; otherwise stores a task of the caller's company, whatever the request holds, under a fresh id |
| TareaEndpoints.TareaController.GetById | ProyectoHillary1/Endpoints/TareaController.cs:53-82 | 401, then `ScopeGuard`; a task returned is of the caller's company |
| TareaEndpoints.TareaController.Edit | ProyectoHillary1/Endpoints/TareaController.cs:86-118 | 401, then `ScopeGuard`; then name and description replaced; no task ever changes company |
| TareaEndpoints.TareaController.Delete | ProyectoHillary1/Endpoints/TareaController.cs:121-147 | 401, then `DeleteGuard`; then the row is removed |
| TareaEndpoints.TareaController.Search | ProyectoHillary1/Endpoints/TareaController.cs:150-191 | 401, then 400 for company 0; the count and the page, via `skip = (PageNumber-1)*PageSize` and `take = PageSize`; with a positive company every row is of that company |
| TareaEndpoints.TareaController.ScopedSearch | ProyectoHillary1/Endpoints/TareaController.cs:155-158 | corrected search: a company that is not positive gets 400, so every row returned is of the caller's company |
| TareaEndpoints.SearchUnscopedForNegativeCompany | ProyectoHillary1/Endpoints/TareaController.cs:155-164 | a company claim of "-1" passes the check, and the probe then matches tasks of every company |
| TareaEndpoints.TareaController.GetMisTareas | ProyectoHillary1/Endpoints/TareaController.cs:194-221 | 401, then 400 for company 0; otherwise every task of the caller's company and no other, strictly descending by id |

## Left out

- Database, EF Core and HTTP. Rows live in memory; `SaveChangesAsync` gives 1 when a row is
  added, removed or changed and 0 otherwise. Async/await, `Include` navigation loading (company
  and role names in answers), foreign keys, SQL collation and case rules for `Contains` and `==`
  are not part of the model. A null column never matches a substring filter, as SQL `LIKE` does.
- The 500 answers of the `catch` blocks: no model operation throws.
- SHA-256 and UTF-8 encoding are the parameter `digest`; signing and expiry of the login token
  (`JwtService`) are not part of the model. `TokenClaims` lists the claims it writes, except the
  random `jti`.
- Unicode. Case mapping covers ASCII and Latin-1, and decomposition only the precomposed
  lower-case letters of Latin-1. `IsLetterOrDigit` holds for ASCII letters and digits, the
  Latin-1 letters and U+0100–U+024F only. So letters of other scripts (Cyrillic, Greek, CJK) are
  dropped from the slug, where `char.IsLetterOrDigit` keeps them: a name written only in them
  gives an empty local part. Letters in U+0100–U+024F (such as 'Č') are kept as they are,
  neither lower-cased nor decomposed, where the source lower-cases them and drops their accents.
- `int.TryParse` is modelled for invariant culture and `NumberStyles.Integer` only.
- `GenerarEmailCorto` takes a non-null name; the C# method throws on null, and no caller passes
  one.
- 32-bit overflow: the `contador` of the e-mail search and `skip = (PageNumber-1)*PageSize` are
  unbounded integers.
- Paging arguments the database refuses. `Skip`/`Take` run as SQL Server `OFFSET`/`FETCH`,
  which reject a negative offset and a fetch count that is not positive. So `PageNumber` 0 or
  below (a negative `SearchSkip`) or a negative `PageSize` raises an error there, and the
  endpoint's `catch` answers 500. The model clamps instead, as in-memory LINQ does (a count at or
  below zero skips or takes nothing), and answers 200; this is one of the left-out 500 answers.
- UsuarioDal.UsuarioDal.GetByEmailForLogin: returns the matching row listed first, the one with
  the least id. `FirstOrDefaultAsync` without `OrderBy` leaves the choice among several active
  users with the same e-mail to the database.
- EmpresaDal.EmpresaDal.Create: stamps `CreatedAt` and `UpdatedAt` with one `now`; the source
  reads `DateTime.Now` twice, so the two stamps can differ by a few ticks.
- Reply shapes. The user endpoints answer with whole `Usuario` rows; the source maps them to
  DTOs (`GetlResultUsuarioDTO`, `SearchResultUsuarioDTO`) that leave out the password hash and add
  the company and role names. The model does not state that the hash stays out of the answer.
- Concurrency, including the race between the free-address check and the insert, and the
  frontend project.
- The company and role endpoints (`EmpresaController`, `RolesController`) are not part of this
  model. They map request fields onto the data-access calls modelled here.

## Findings

| source | as written | input that shows it | evidently intended | confidence | as-written member | corrected member |
|---|---|---|---|---|---|---|
| ProyectoHillary1/Endpoints/TareaController.cs:157 | the search refuses only company 0, and the task filter applies the company only when positive (TareaDal.cs:78-79) | an authenticated token whose "EmpresaId" claim is "-1": the search succeeds and matches tasks of every company | refuse every company that is not positive, so results stay in the caller's company | low (login tokens carry the user's stored company), not executed | TareaEndpoints.SearchUnscopedForNegativeCompany | TareaEndpoints.TareaController.ScopedSearch |
| ProyectoHillary1/Endpoints/UsuarioController.cs:347 | the search uses the company claim, with no check, though the comment says results are always limited to the caller's company | an authenticated token with "RolId" "1" and no "EmpresaId" claim: the probe's company is 0, which the filter ignores, so users of every company match | refuse a caller without a positive company, as `Create` does | low (login tokens always carry a company), not executed | UsuarioEndpoints.SearchUnscopedWithoutCompany | UsuarioEndpoints.UsuarioController.ScopedSearch |

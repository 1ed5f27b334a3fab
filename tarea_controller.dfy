/** The task endpoints. The whole controller requires an authenticated caller, and every
    task it reads, writes or lists is scoped to the caller's company. */
module TareaEndpoints {
  import opened Common
  import opened Text
  import opened Numbers
  import opened Entities
  import opened BaseApi
  import TareaDal
  import Rows

  datatype CreateTareaDto = CreateTareaDto(Nombre: Option<string>, Descripcion: Option<string>)

  datatype EditTareaDto = EditTareaDto(Nombre: Option<string>, Descripcion: Option<string>)

  /** The company is never asked for: it comes from the token. */
  datatype SearchQueryTareaDto = SearchQueryTareaDto(Nombre: Option<string>, PageNumber: int, PageSize: int)

  datatype SearchResult = SearchResult(CountRow: int, Data: seq<Tarea>)

  const NoTask := "Tarea no encontrada"
  const NoCompany := "No se pudo obtener la empresa del usuario"

  /** `[Authorize]` on the controller: an anonymous caller is challenged with a bare 401. */
  function AuthGuard(user: Principal): (g: Guard)
    ensures g == Pass <==> IsAuthenticated(user)
    ensures g.Fail? ==> g == Fail(Unauthorized, "")
  {
    if IsAuthenticated(user) then Pass else Fail(Unauthorized, "")
  }

  /** The company check of `Create`, `Search` and `GetMisTareas`, as written: only 0 is
      refused. */
  function CompanyGuard(user: Principal): (g: Guard)
    ensures g == Pass <==> GetEmpresaId(user) != 0
    ensures g.Fail? ==> g == Fail(BadRequest, NoCompany)
  {
    if GetEmpresaId(user) == 0 then Fail(BadRequest, NoCompany) else Pass
  }

  /** The check on an existing task: 404 when the lookup found nothing, then 403 when it is of
      another company. */
  function ScopeGuard(user: Principal, existing: Tarea): (g: Guard)
    ensures existing.Id == 0 ==> g == Fail(NotFound, NoTask)
    ensures existing.Id != 0 && !BelongsToUserCompany(user, existing.EmpresaId) ==> g == Fail(Forbidden, "")
    ensures g == Pass <==> existing.Id != 0 && BelongsToUserCompany(user, existing.EmpresaId)
  {
    if existing.Id == 0 then Fail(NotFound, NoTask)
    else if !BelongsToUserCompany(user, existing.EmpresaId) then Fail(Forbidden, "")
    else Pass
  }

  /** `Delete`'s checks: only a manager, and only before the task is looked at. */
  function DeleteGuard(user: Principal, existing: Tarea): (g: Guard)
    ensures !IsAdmin(user) ==> g == Fail(Forbidden, "")
    ensures IsAdmin(user) ==> g == ScopeGuard(user, existing)
  {
    if !IsAdmin(user) then Fail(Forbidden, "") else ScopeGuard(user, existing)
  }

  /** A non-manager learns nothing from `Delete`: the answer does not depend on whether or
      where the task exists. */
  lemma DeleteRevealsNothing(user: Principal, a: Tarea, b: Tarea)
    requires !IsAdmin(user)
    ensures DeleteGuard(user, a) == DeleteGuard(user, b)
  {
  }

  /** The probe `Search` hands to the table: the requested name and the caller's company. */
  function SearchProbe(user: Principal, query: SearchQueryTareaDto): (t: Tarea)
    ensures t.Nombre == query.Nombre && t.EmpresaId == GetEmpresaId(user)
  {
    NewTarea.(Nombre := query.Nombre, EmpresaId := GetEmpresaId(user))
  }

  class TareaController {
    const dal: TareaDal.TareaDal

    constructor(dal: TareaDal.TareaDal)
      ensures this.dal == dal
    {
      this.dal := dal;
    }

    /** `Create`: stores a task of the caller's company and answers with its new id. */
    method Create(user: Principal, dto: CreateTareaDto) returns (reply: Reply<int>)
      requires dal.Valid()
      modifies dal
      ensures dal.Valid()
      ensures AuthGuard(user).Fail? ==> reply == AuthGuard(user).Reply() && dal.rows == old(dal.rows)
      ensures AuthGuard(user) == Pass && CompanyGuard(user).Fail? ==>
                reply == CompanyGuard(user).Reply() && dal.rows == old(dal.rows)
      ensures AuthGuard(user) == Pass && CompanyGuard(user) == Pass ==>
                && reply.Ok? && reply.body !in old(dal.Table())
                && dal.Table() == old(dal.Table())[reply.body := Tarea(reply.body, GetEmpresaId(user), dto.Nombre, dto.Descripcion)]
    {
      var auth := AuthGuard(user);
      if auth.Fail? {
        return auth.Reply();
      }
      var empresaId := GetEmpresaId(user);
      if empresaId == 0 {
        return Status(BadRequest, NoCompany);
      }
      var tarea := NewTarea.(EmpresaId := empresaId, Nombre := dto.Nombre, Descripcion := dto.Descripcion);
      var result, created := dal.Create(tarea);
      if result > 0 {
        reply := Ok(created.Id);
      } else {
        reply := Status(BadRequest, "No se pudo crear la tarea");
      }
    }

    /** `GetById`: the task, when found and of the caller's company. */
    function GetById(user: Principal, id: int): (r: Reply<Tarea>)
      reads dal
      requires dal.Valid()
      ensures AuthGuard(user).Fail? ==> r == AuthGuard(user).Reply()
      ensures AuthGuard(user) == Pass ==>
                if ScopeGuard(user, dal.GetById(id)).Fail? then r == ScopeGuard(user, dal.GetById(id)).Reply()
                else r == Ok(dal.Table()[id])
      ensures r.Ok? ==> id in dal.Table() && r.body.Id == id && r.body.EmpresaId == GetEmpresaId(user)
    {
      var auth := AuthGuard(user);
      if auth.Fail? then auth.Reply()
      else
        var tarea := dal.GetByIdWithEmpresa(id);
        var scope := ScopeGuard(user, tarea);
        if scope.Fail? then scope.Reply() else Ok(tarea)
    }

    /** `Edit`: replaces the name and description of a task of the caller's company. The
        company written back is the caller's, which the scope check has just shown to be the
        task's own, so a task never changes company; 404 also when saving reports no change. */
    method Edit(user: Principal, id: int, dto: EditTareaDto) returns (reply: Reply<string>)
      requires dal.Valid()
      modifies dal
      ensures dal.Valid()
      ensures AuthGuard(user).Fail? ==> reply == AuthGuard(user).Reply() && dal.rows == old(dal.rows)
      ensures AuthGuard(user) == Pass && ScopeGuard(user, old(dal.GetById(id))).Fail? ==>
                reply == ScopeGuard(user, old(dal.GetById(id))).Reply() && dal.rows == old(dal.rows)
      ensures AuthGuard(user) == Pass && ScopeGuard(user, old(dal.GetById(id))) == Pass ==>
                var before := old(dal.Table())[id];
                var after := before.(Nombre := dto.Nombre, Descripcion := dto.Descripcion);
                && dal.Table() == old(dal.Table())[id := after]
                && reply == if after == before then Status(NotFound, NoTask) else Ok("Tarea actualizada exitosamente")
      ensures forall k :: k in old(dal.Table()) <==> k in dal.Table()
      ensures forall k :: k in old(dal.Table()) ==> dal.Table()[k].EmpresaId == old(dal.Table())[k].EmpresaId
    {
      var auth := AuthGuard(user);
      if auth.Fail? {
        return auth.Reply();
      }
      var empresaId := GetEmpresaId(user);
      var tareaExistente := dal.GetByIdWithEmpresa(id);
      var scope := ScopeGuard(user, tareaExistente);
      if scope.Fail? {
        return scope.Reply();
      }
      var tarea := NewTarea.(Id := id, EmpresaId := empresaId, Nombre := dto.Nombre, Descripcion := dto.Descripcion);
      var result := dal.Edit(tarea);
      if result > 0 {
        reply := Ok("Tarea actualizada exitosamente");
      } else {
        reply := Status(NotFound, NoTask);
      }
    }

    /** `Delete` (managers only): removes a task of the caller's company. */
    method Delete(user: Principal, id: int) returns (reply: Reply<string>)
      requires dal.Valid()
      modifies dal
      ensures dal.Valid()
      ensures AuthGuard(user).Fail? ==> reply == AuthGuard(user).Reply() && dal.rows == old(dal.rows)
      ensures AuthGuard(user) == Pass && DeleteGuard(user, old(dal.GetById(id))).Fail? ==>
                reply == DeleteGuard(user, old(dal.GetById(id))).Reply() && dal.rows == old(dal.rows)
      ensures AuthGuard(user) == Pass && DeleteGuard(user, old(dal.GetById(id))) == Pass ==>
                dal.Table() == old(dal.Table()) - {id} && reply == Ok("Tarea eliminada exitosamente")
    {
      var auth := AuthGuard(user);
      if auth.Fail? {
        return auth.Reply();
      }
      if !IsAdmin(user) {
        return Status(Forbidden, "");
      }
      var tarea := dal.GetByIdWithEmpresa(id);
      var scope := ScopeGuard(user, tarea);
      if scope.Fail? {
        return scope.Reply();
      }
      var result := dal.Delete(id);
      if result > 0 {
        reply := Ok("Tarea eliminada exitosamente");
      } else {
        reply := Status(NotFound, NoTask);
      }
    }

    /** `Search`, as written: refuses company 0 only, then answers the count and the requested
        page of the tasks the probe matches. */
    function Search(user: Principal, query: SearchQueryTareaDto): (r: Reply<SearchResult>)
      reads dal
      requires dal.Valid()
      ensures AuthGuard(user).Fail? ==> r == AuthGuard(user).Reply()
      ensures AuthGuard(user) == Pass && CompanyGuard(user).Fail? ==> r == CompanyGuard(user).Reply()
      ensures AuthGuard(user) == Pass && CompanyGuard(user) == Pass ==>
                r == Ok(SearchResult(dal.CountSearch(SearchProbe(user, query)),
                                     dal.Search(SearchProbe(user, query), query.PageSize, Rows.SearchSkip(query.PageNumber, query.PageSize))))
      ensures r.Ok? && GetEmpresaId(user) > 0 ==>
                forall i :: 0 <= i < |r.body.Data| ==> r.body.Data[i].EmpresaId == GetEmpresaId(user)
    {
      var auth := AuthGuard(user);
      if auth.Fail? then auth.Reply()
      else
        var empresaId := GetEmpresaId(user);
        if empresaId == 0 then Status(BadRequest, NoCompany)
        else
          var tarea := NewTarea.(Nombre := query.Nombre, EmpresaId := empresaId);
          var skip := Rows.SearchSkip(query.PageNumber, query.PageSize);
          var take := query.PageSize;
          var tareas := dal.SearchWithEmpresa(tarea, take, skip);
          var totalCount := dal.CountSearch(tarea);
          Ok(SearchResult(totalCount, tareas))
    }

    /** `Search` with the company check the endpoint evidently intends: every company that is
        not positive is refused, so every answer is scoped to the caller's company. */
    function ScopedSearch(user: Principal, query: SearchQueryTareaDto): (r: Reply<SearchResult>)
      reads dal
      requires dal.Valid()
      ensures AuthGuard(user).Fail? ==> r == AuthGuard(user).Reply()
      ensures AuthGuard(user) == Pass && GetEmpresaId(user) <= 0 ==> r == Status(BadRequest, NoCompany)
      ensures AuthGuard(user) == Pass && GetEmpresaId(user) > 0 ==> r == Search(user, query)
      ensures r.Ok? ==> forall i :: 0 <= i < |r.body.Data| ==> r.body.Data[i].EmpresaId == GetEmpresaId(user)
    {
      var auth := AuthGuard(user);
      if auth.Fail? then auth.Reply()
      else if GetEmpresaId(user) <= 0 then Status(BadRequest, NoCompany)
      else Search(user, query)
    }

    /** `GetMisTareas`: every task of the caller's company, newest first. */
    function GetMisTareas(user: Principal): (r: Reply<seq<Tarea>>)
      reads dal
      requires dal.Valid()
      ensures AuthGuard(user).Fail? ==> r == AuthGuard(user).Reply()
      ensures AuthGuard(user) == Pass && CompanyGuard(user).Fail? ==> r == CompanyGuard(user).Reply()
      ensures r.Ok? ==> Rows.Descending(r.body, TareaKey)
      ensures r.Ok? ==> forall t :: t in r.body <==> t in dal.rows && t.EmpresaId == GetEmpresaId(user)
      ensures AuthGuard(user) == Pass && CompanyGuard(user) == Pass ==> r.Ok?
    {
      var auth := AuthGuard(user);
      if auth.Fail? then auth.Reply()
      else
        var empresaId := GetEmpresaId(user);
        if empresaId == 0 then Status(BadRequest, NoCompany)
        else Ok(dal.GetByEmpresaId(empresaId))
    }
  }

  /** A company claim of "-1" passes `Search`'s check, and the table's filter ignores a company
      that is not positive, so the search then matches tasks of every company. */
  lemma SearchUnscopedForNegativeCompany(c: TareaController, query: SearchQueryTareaDto, other: Tarea)
    requires c.dal.Valid()
    requires query.Nombre.None?
    ensures var user := Principal(Some(Identity(true)), [Claim(EmpresaIdType, "-1")]);
            && c.Search(user, query).Ok?
            && TareaDal.TareaMatches(SearchProbe(user, query), other)
  {
    var user := Principal(Some(Identity(true)), [Claim(EmpresaIdType, "-1")]);
    FindFirstAt(user.Claims, EmpresaIdType, 0);
    assert IntToString(-1) == "-1";
    IntClaimRoundTrip(user, EmpresaIdType, -1);
  }
}

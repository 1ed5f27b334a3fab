/** The company table's data access class. `DateTime.Now` is the `now` parameter of the
    operations that stamp a row. */
module EmpresaDal {
  import opened Common
  import opened Text
  import opened Entities
  import Rows

  /** The filters `Query` applies: only the name, by substring. */
  predicate EmpresaMatches(probe: Empresa, e: Empresa) {
    SubstringFilter(e.Nombre, probe.Nombre)
  }

  class EmpresaDal {
    /** The `empresa` table in ascending `Id` order, and the next identity value. */
    var rows: seq<Empresa>
    var nextId: int

    ghost predicate Valid()
      reads this
    {
      Rows.WellKeyed(rows, EmpresaKey, nextId) && nextId > 0
    }

    /** The table by key. */
    ghost function Table(): map<int, Empresa>
      reads this
    {
      Rows.TableOf(rows, EmpresaKey)
    }

    constructor()
      ensures Valid() && rows == [] && Table() == map[]
    {
      rows := [];
      nextId := 1;
    }

    /** `Create`: marks the company active, stamps both dates with `now`, inserts it under the
        next identity value and saves one row. */
    method Create(empresa: Empresa, now: Clock) returns (result: int, created: Empresa)
      requires Valid()
      modifies this
      ensures Valid()
      ensures created == empresa.(Id := old(nextId), Activo := Some(true), CreatedAt := Some(now), UpdatedAt := Some(now))
      ensures created.Id !in old(Table())
      ensures Table() == old(Table())[created.Id := created]
      ensures result == 1
    {
      created := empresa.(Id := nextId, Activo := Some(true), CreatedAt := Some(now), UpdatedAt := Some(now));
      Rows.NotInTable(rows, EmpresaKey, nextId);
      Rows.TableOfAppend(rows, EmpresaKey, created);
      Rows.AppendWellKeyed(rows, EmpresaKey, nextId, created);
      rows := rows + [created];
      nextId := nextId + 1;
      result := 1;
    }

    /** `GetById`: the company with that id, or `new Empresa()` (id 0) when there is none. */
    function GetById(id: int): (r: Empresa)
      reads this
      requires Valid()
      ensures id in Table() ==> r == Table()[id] && r.Id == id
      ensures id !in Table() ==> r == NewEmpresa
      ensures r.Id != 0 <==> id in Table()
    {
      Rows.TableOfKeyed(rows, EmpresaKey, nextId, id);
      Rows.Lookup(rows, EmpresaKey, id, NewEmpresa)
    }

    /** The row `Edit` writes: the five text fields replaced, `Activo` replaced only when given,
        `UpdatedAt` stamped, `CreatedAt` kept. */
    static function Edited(before: Empresa, empresa: Empresa, now: Clock): (after: Empresa)
      ensures after.Id == before.Id && after.CreatedAt == before.CreatedAt && after.UpdatedAt == Some(now)
      ensures after.Nombre == empresa.Nombre && after.Ruc == empresa.Ruc && after.Direccion == empresa.Direccion
      ensures after.Telefono == empresa.Telefono && after.Email == empresa.Email
      ensures after.Activo == if empresa.Activo.Some? then empresa.Activo else before.Activo
    {
      before.(Nombre := empresa.Nombre, Ruc := empresa.Ruc, Direccion := empresa.Direccion,
              Telefono := empresa.Telefono, Email := empresa.Email,
              Activo := if empresa.Activo.Some? then empresa.Activo else before.Activo,
              UpdatedAt := Some(now))
    }

    /** `Edit`: rewrites an existing company as `Edited` says; saving reports one row when that
        changed something. An unknown id changes nothing and reports 0. */
    method Edit(empresa: Empresa, now: Clock) returns (result: int)
      requires Valid()
      modifies this
      ensures Valid() && nextId == old(nextId)
      ensures empresa.Id !in old(Table()) ==> result == 0 && rows == old(rows)
      ensures empresa.Id in old(Table()) ==>
        var before := old(Table())[empresa.Id];
        var after := Edited(before, empresa, now);
        Table() == old(Table())[empresa.Id := after] && result == (if after == before then 0 else 1)
    {
      result := 0;
      var empresaUpdate := GetById(empresa.Id);
      if empresaUpdate.Id != 0 {
        var after := Edited(empresaUpdate, empresa, now);
        Rows.FindInTable(rows, EmpresaKey, empresa.Id);
        var i := Rows.IndexOf(rows, EmpresaKey, empresa.Id).value;
        Rows.TableOfAt(rows, EmpresaKey, i);
        Rows.TableOfUpdate(rows, EmpresaKey, i, after);
        Rows.UpdateWellKeyed(rows, EmpresaKey, nextId, i, after);
        rows := rows[i := after];
        result := if after == empresaUpdate then 0 else 1;
      }
    }

    /** `Delete`: removes the company with that id and saves one row; an unknown id changes
        nothing and reports 0. */
    method Delete(id: int) returns (result: int)
      requires Valid()
      modifies this
      ensures Valid() && nextId == old(nextId)
      ensures id !in old(Table()) ==> result == 0 && rows == old(rows)
      ensures id in old(Table()) ==> result == 1 && Table() == old(Table()) - {id}
    {
      result := 0;
      var empresaDelete := GetById(id);
      if empresaDelete.Id > 0 {
        Rows.FindInTable(rows, EmpresaKey, id);
        var i := Rows.IndexOf(rows, EmpresaKey, id).value;
        Rows.TableOfRemove(rows, EmpresaKey, i);
        Rows.RemoveWellKeyed(rows, EmpresaKey, nextId, i);
        rows := rows[..i] + rows[i + 1..];
        result := 1;
      }
    }

    /** `Query`: the companies that pass the probe's filters, in table order. */
    function Query(probe: Empresa): (r: seq<Empresa>)
      reads this
      requires Valid()
      ensures Rows.Ascending(r, EmpresaKey)
      ensures forall x :: x in r <==> x in rows && EmpresaMatches(probe, x)
    {
      var p := (x: Empresa) => EmpresaMatches(probe, x);
      Rows.FilterAscending(rows, EmpresaKey, p);
      Rows.Filter(rows, p)
    }

    /** `CountSearch`: how many companies of the table pass the probe's filters. */
    function CountSearch(probe: Empresa): (n: int)
      reads this
      requires Valid()
      ensures n == |set x | x in rows && EmpresaMatches(probe, x)|
    {
      var q := Query(probe);
      Rows.AscendingCard(q, EmpresaKey);
      assert (set i | 0 <= i < |q| :: q[i]) == set x | x in rows && EmpresaMatches(probe, x);
      |q|
    }

    /** `Search`: the matching companies by descending id, `skip` of them skipped and then at
        most `take` (10 when `take` is 0) of them. */
    function Search(probe: Empresa, take: int, skip: int): (r: seq<Empresa>)
      reads this
      requires Valid()
      ensures Rows.Descending(r, EmpresaKey)
      ensures forall i :: 0 <= i < |r| ==> r[i] in rows && EmpresaMatches(probe, r[i])
      ensures |r| == Rows.PageSize(CountSearch(probe), take, skip)
      ensures forall i :: 0 <= i < |r| ==> r[i] == Rows.Reverse(Query(probe))[Rows.Max0(skip) + i]
    {
      var q := Query(probe);
      assert CountSearch(probe) == |q|;
      Rows.DescendingPage(q, EmpresaKey, take, skip)
    }

    /** `ChangeStatus`: sets `Activo` of an existing company and stamps `UpdatedAt`; saving
        reports one row when that changed something. An unknown id changes nothing and
        reports 0. */
    method ChangeStatus(id: int, activo: bool, now: Clock) returns (result: int)
      requires Valid()
      modifies this
      ensures Valid() && nextId == old(nextId)
      ensures id !in old(Table()) ==> result == 0 && rows == old(rows)
      ensures id in old(Table()) ==>
        var before := old(Table())[id];
        var after := before.(Activo := Some(activo), UpdatedAt := Some(now));
        Table() == old(Table())[id := after] && result == (if after == before then 0 else 1)
    {
      result := 0;
      var empresa := GetById(id);
      if empresa.Id != 0 {
        var after := empresa.(Activo := Some(activo), UpdatedAt := Some(now));
        Rows.FindInTable(rows, EmpresaKey, id);
        var i := Rows.IndexOf(rows, EmpresaKey, id).value;
        Rows.TableOfAt(rows, EmpresaKey, i);
        Rows.TableOfUpdate(rows, EmpresaKey, i, after);
        Rows.UpdateWellKeyed(rows, EmpresaKey, nextId, i, after);
        rows := rows[i := after];
        result := if after == empresa then 0 else 1;
      }
    }
  }
}

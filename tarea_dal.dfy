/** The task table's data access class. */
module TareaDal {
  import opened Common
  import opened Text
  import opened Entities
  import Rows

  /** The filters `Query` applies: the name by substring when given, the company when
      positive. */
  predicate TareaMatches(probe: Tarea, t: Tarea) {
    SubstringFilter(t.Nombre, probe.Nombre) && (probe.EmpresaId > 0 ==> t.EmpresaId == probe.EmpresaId)
  }

  class TareaDal {
    /** The `tarea` table in ascending `Id` order, and the next identity value. */
    var rows: seq<Tarea>
    var nextId: int

    ghost predicate Valid()
      reads this
    {
      Rows.WellKeyed(rows, TareaKey, nextId) && nextId > 0
    }

    /** The table by key. */
    ghost function Table(): map<int, Tarea>
      reads this
    {
      Rows.TableOf(rows, TareaKey)
    }

    constructor()
      ensures Valid() && rows == [] && Table() == map[]
    {
      rows := [];
      nextId := 1;
    }

    /** `Create`: inserts the task under the next identity value (written back into the
        entity) and saves one row. */
    method Create(tarea: Tarea) returns (result: int, created: Tarea)
      requires Valid()
      modifies this
      ensures Valid()
      ensures created == tarea.(Id := old(nextId)) && created.Id !in old(Table())
      ensures Table() == old(Table())[created.Id := created]
      ensures result == 1
    {
      created := tarea.(Id := nextId);
      Rows.NotInTable(rows, TareaKey, nextId);
      Rows.TableOfAppend(rows, TareaKey, created);
      Rows.AppendWellKeyed(rows, TareaKey, nextId, created);
      rows := rows + [created];
      nextId := nextId + 1;
      result := 1;
    }

    /** `GetById`: the task with that id, or `new Tarea()` (id 0) when there is none. */
    function GetById(id: int): (r: Tarea)
      reads this
      requires Valid()
      ensures id in Table() ==> r == Table()[id] && r.Id == id
      ensures id !in Table() ==> r == NewTarea
      ensures r.Id != 0 <==> id in Table()
    {
      Rows.TableOfKeyed(rows, TareaKey, nextId, id);
      Rows.Lookup(rows, TareaKey, id, NewTarea)
    }

    /** `GetByIdWithEmpresa`: the same row as `GetById`; the company it loads alongside is not
        part of the model. */
    function GetByIdWithEmpresa(id: int): (r: Tarea)
      reads this
      requires Valid()
      ensures r == GetById(id)
      ensures r.Id != 0 <==> id in Table()
    {
      Rows.TableOfKeyed(rows, TareaKey, nextId, id);
      Rows.Lookup(rows, TareaKey, id, NewTarea)
    }

    /** `Edit`: replaces the company, the name and the description of an existing task; saving
        reports one row when that changed something. An unknown id changes nothing and
        reports 0. */
    method Edit(tarea: Tarea) returns (result: int)
      requires Valid()
      modifies this
      ensures Valid() && nextId == old(nextId)
      ensures tarea.Id !in old(Table()) ==> result == 0 && rows == old(rows)
      ensures tarea.Id in old(Table()) ==>
        var before := old(Table())[tarea.Id];
        var after := before.(EmpresaId := tarea.EmpresaId, Nombre := tarea.Nombre, Descripcion := tarea.Descripcion);
        Table() == old(Table())[tarea.Id := after] && result == (if after == before then 0 else 1)
    {
      result := 0;
      var tareaUpdate := GetById(tarea.Id);
      if tareaUpdate.Id != 0 {
        var after := tareaUpdate.(EmpresaId := tarea.EmpresaId, Nombre := tarea.Nombre, Descripcion := tarea.Descripcion);
        Rows.FindInTable(rows, TareaKey, tarea.Id);
        var i := Rows.IndexOf(rows, TareaKey, tarea.Id).value;
        Rows.TableOfAt(rows, TareaKey, i);
        Rows.TableOfUpdate(rows, TareaKey, i, after);
        Rows.UpdateWellKeyed(rows, TareaKey, nextId, i, after);
        rows := rows[i := after];
        result := if after == tareaUpdate then 0 else 1;
      }
    }

    /** `Delete`: removes the task with that id and saves one row; an unknown id changes
        nothing and reports 0. */
    method Delete(id: int) returns (result: int)
      requires Valid()
      modifies this
      ensures Valid() && nextId == old(nextId)
      ensures id !in old(Table()) ==> result == 0 && rows == old(rows)
      ensures id in old(Table()) ==> result == 1 && Table() == old(Table()) - {id}
    {
      result := 0;
      var tareaDelete := GetById(id);
      if tareaDelete.Id > 0 {
        Rows.FindInTable(rows, TareaKey, id);
        var i := Rows.IndexOf(rows, TareaKey, id).value;
        Rows.TableOfRemove(rows, TareaKey, i);
        Rows.RemoveWellKeyed(rows, TareaKey, nextId, i);
        rows := rows[..i] + rows[i + 1..];
        result := 1;
      }
    }

    /** `Query`: the tasks that pass the probe's filters, in table order. */
    function Query(probe: Tarea): (r: seq<Tarea>)
      reads this
      requires Valid()
      ensures Rows.Ascending(r, TareaKey)
      ensures forall x :: x in r <==> x in rows && TareaMatches(probe, x)
    {
      var p := (x: Tarea) => TareaMatches(probe, x);
      Rows.FilterAscending(rows, TareaKey, p);
      Rows.Filter(rows, p)
    }

    /** `CountSearch`: how many tasks of the table pass the probe's filters. */
    function CountSearch(probe: Tarea): (n: int)
      reads this
      requires Valid()
      ensures n == |set x | x in rows && TareaMatches(probe, x)|
    {
      var q := Query(probe);
      Rows.AscendingCard(q, TareaKey);
      assert (set i | 0 <= i < |q| :: q[i]) == set x | x in rows && TareaMatches(probe, x);
      |q|
    }

    /** `Search`: the matching tasks by descending id, `skip` of them skipped and then at most
        `take` (10 when `take` is 0) of them. */
    function Search(probe: Tarea, take: int, skip: int): (r: seq<Tarea>)
      reads this
      requires Valid()
      ensures Rows.Descending(r, TareaKey)
      ensures forall i :: 0 <= i < |r| ==> r[i] in rows && TareaMatches(probe, r[i])
      ensures |r| == Rows.PageSize(CountSearch(probe), take, skip)
      ensures forall i :: 0 <= i < |r| ==> r[i] == Rows.Reverse(Query(probe))[Rows.Max0(skip) + i]
    {
      var q := Query(probe);
      assert CountSearch(probe) == |q|;
      Rows.DescendingPage(q, TareaKey, take, skip)
    }

    /** `SearchWithEmpresa`: the same rows as `Search`; the company loaded with each task is not
        part of the model. */
    function SearchWithEmpresa(probe: Tarea, take: int, skip: int): (r: seq<Tarea>)
      reads this
      requires Valid()
      ensures r == Search(probe, take, skip)
    {
      Rows.DescendingPage(Query(probe), TareaKey, take, skip)
    }

    /** `GetByEmpresaId`: every task of the company, by descending id, without paging. */
    function GetByEmpresaId(empresaId: int): (r: seq<Tarea>)
      reads this
      requires Valid()
      ensures Rows.Descending(r, TareaKey)
      ensures forall x :: x in r <==> x in rows && x.EmpresaId == empresaId
    {
      var q := Rows.Filter(rows, (x: Tarea) => x.EmpresaId == empresaId);
      Rows.FilterAscending(rows, TareaKey, (x: Tarea) => x.EmpresaId == empresaId);
      Rows.ReverseDescending(q, TareaKey);
      Rows.ReverseElements(q);
      Rows.Reverse(q)
    }
  }
}

/** The role table's data access class. */
module RolDal {
  import opened Common
  import opened Text
  import opened Entities
  import Rows

  /** The filters `Query` applies: only the name, by substring. */
  predicate RolMatches(probe: Rol, r: Rol) {
    SubstringFilter(r.Nombre, probe.Nombre)
  }

  class RolDal {
    /** The `rol` table in ascending `Id` order, and the next identity value. */
    var rows: seq<Rol>
    var nextId: int

    ghost predicate Valid()
      reads this
    {
      Rows.WellKeyed(rows, RolKey, nextId) && nextId > 0
    }

    /** The table by key. */
    ghost function Table(): map<int, Rol>
      reads this
    {
      Rows.TableOf(rows, RolKey)
    }

    constructor()
      ensures Valid() && rows == [] && Table() == map[]
    {
      rows := [];
      nextId := 1;
    }

    /** `Create`: inserts the role under the next identity value (written back into the
        entity) and saves one row. */
    method Create(rol: Rol) returns (result: int, created: Rol)
      requires Valid()
      modifies this
      ensures Valid()
      ensures created == rol.(Id := old(nextId)) && created.Id !in old(Table())
      ensures Table() == old(Table())[created.Id := created]
      ensures result == 1
    {
      created := rol.(Id := nextId);
      Rows.NotInTable(rows, RolKey, nextId);
      Rows.TableOfAppend(rows, RolKey, created);
      Rows.AppendWellKeyed(rows, RolKey, nextId, created);
      rows := rows + [created];
      nextId := nextId + 1;
      result := 1;
    }

    /** `GetById`: the role with that id, or `new Rol()` (id 0) when there is none. */
    function GetById(id: int): (r: Rol)
      reads this
      requires Valid()
      ensures id in Table() ==> r == Table()[id] && r.Id == id
      ensures id !in Table() ==> r == NewRol
      ensures r.Id != 0 <==> id in Table()
    {
      Rows.TableOfKeyed(rows, RolKey, nextId, id);
      Rows.Lookup(rows, RolKey, id, NewRol)
    }

    /** `Edit`: replaces the name and the description of an existing role; saving reports one
        row when that changed something. An unknown id changes nothing and reports 0. */
    method Edit(rol: Rol) returns (result: int)
      requires Valid()
      modifies this
      ensures Valid() && nextId == old(nextId)
      ensures rol.Id !in old(Table()) ==> result == 0 && rows == old(rows)
      ensures rol.Id in old(Table()) ==>
        var before := old(Table())[rol.Id];
        var after := before.(Nombre := rol.Nombre, Descripcion := rol.Descripcion);
        Table() == old(Table())[rol.Id := after] && result == (if after == before then 0 else 1)
    {
      result := 0;
      var rolUpdate := GetById(rol.Id);
      if rolUpdate.Id != 0 {
        var after := rolUpdate.(Nombre := rol.Nombre, Descripcion := rol.Descripcion);
        Rows.FindInTable(rows, RolKey, rol.Id);
        var i := Rows.IndexOf(rows, RolKey, rol.Id).value;
        Rows.TableOfAt(rows, RolKey, i);
        Rows.TableOfUpdate(rows, RolKey, i, after);
        Rows.UpdateWellKeyed(rows, RolKey, nextId, i, after);
        rows := rows[i := after];
        result := if after == rolUpdate then 0 else 1;
      }
    }

    /** `Delete`: removes the role with that id and saves one row; an unknown id changes
        nothing and reports 0. */
    method Delete(id: int) returns (result: int)
      requires Valid()
      modifies this
      ensures Valid() && nextId == old(nextId)
      ensures id !in old(Table()) ==> result == 0 && rows == old(rows)
      ensures id in old(Table()) ==> result == 1 && Table() == old(Table()) - {id}
    {
      result := 0;
      var rolDelete := GetById(id);
      if rolDelete.Id > 0 {
        Rows.FindInTable(rows, RolKey, id);
        var i := Rows.IndexOf(rows, RolKey, id).value;
        Rows.TableOfRemove(rows, RolKey, i);
        Rows.RemoveWellKeyed(rows, RolKey, nextId, i);
        rows := rows[..i] + rows[i + 1..];
        result := 1;
      }
    }

    /** `Query`: the roles that pass the probe's filters, in table order. */
    function Query(probe: Rol): (r: seq<Rol>)
      reads this
      requires Valid()
      ensures Rows.Ascending(r, RolKey)
      ensures forall x :: x in r <==> x in rows && RolMatches(probe, x)
    {
      var p := (x: Rol) => RolMatches(probe, x);
      Rows.FilterAscending(rows, RolKey, p);
      Rows.Filter(rows, p)
    }

    /** `CountSearch`: how many roles of the table pass the probe's filters. */
    function CountSearch(probe: Rol): (n: int)
      reads this
      requires Valid()
      ensures n == |set x | x in rows && RolMatches(probe, x)|
    {
      var q := Query(probe);
      Rows.AscendingCard(q, RolKey);
      assert (set i | 0 <= i < |q| :: q[i]) == set x | x in rows && RolMatches(probe, x);
      |q|
    }

    /** `Search`: the matching roles by descending id, `skip` of them skipped and then at most
        `take` (10 when `take` is 0) of them. */
    function Search(probe: Rol, take: int, skip: int): (r: seq<Rol>)
      reads this
      requires Valid()
      ensures Rows.Descending(r, RolKey)
      ensures forall i :: 0 <= i < |r| ==> r[i] in rows && RolMatches(probe, r[i])
      ensures |r| == Rows.PageSize(CountSearch(probe), take, skip)
      ensures forall i :: 0 <= i < |r| ==> r[i] == Rows.Reverse(Query(probe))[Rows.Max0(skip) + i]
    {
      var q := Query(probe);
      assert CountSearch(probe) == |q|;
      Rows.DescendingPage(q, RolKey, take, skip)
    }
  }
}

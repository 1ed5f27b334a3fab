/** The user table's data access class. New users without an e-mail get one from the e-mail
    generator, which reads this table and the company table. */
module UsuarioDal {
  import opened Common
  import opened Text
  import opened Entities
  import Rows
  import EmailGenerator
  import EmpresaDal

  /** The filters `Query` applies: the name and the e-mail by substring when given, the
      company when positive; the probe's role and status are ignored. */
  predicate UsuarioMatches(probe: Usuario, u: Usuario) {
    && SubstringFilter(u.Nombre, probe.Nombre)
    && SubstringFilter(u.Email, probe.Email)
    && (probe.EmpresaId > 0 ==> u.EmpresaId == probe.EmpresaId)
  }

  /** The condition `GetByEmailForLogin` looks for: exactly this e-mail, and active. */
  predicate CanLogIn(u: Usuario, email: string) {
    u.Email == Some(email) && u.Activo == Some(true)
  }

  /** The row `Edit` writes: the name always replaced, the e-mail and the password only when the
      new value is not blank; company, role and status kept. */
  function Edited(before: Usuario, usuario: Usuario): (after: Usuario)
    ensures after.Id == before.Id && after.EmpresaId == before.EmpresaId
    ensures after.RolId == before.RolId && after.Activo == before.Activo
    ensures after.Nombre == usuario.Nombre
    ensures after.Email == if IsNullOrWhiteSpace(usuario.Email) then before.Email else usuario.Email
    ensures after.Password == if IsNullOrWhiteSpace(usuario.Password) then before.Password else usuario.Password
  {
    var withEmail := if !IsNullOrWhiteSpace(usuario.Email) then usuario.Email else before.Email;
    var withPassword := if !IsNullOrWhiteSpace(usuario.Password) then usuario.Password else before.Password;
    before.(Nombre := usuario.Nombre, Email := withEmail, Password := withPassword)
  }

  class UsuarioDal {
    /** The `usuario` table in ascending `Id` order, and the next identity value. */
    var rows: seq<Usuario>
    var nextId: int
    /** The company table the e-mail generator reads. */
    const empresas: EmpresaDal.EmpresaDal

    ghost predicate Valid()
      reads this
    {
      Rows.WellKeyed(rows, UsuarioKey, nextId) && nextId > 0
    }

    /** The table by key. */
    ghost function Table(): map<int, Usuario>
      reads this
    {
      Rows.TableOf(rows, UsuarioKey)
    }

    constructor(empresas: EmpresaDal.EmpresaDal)
      ensures Valid() && rows == [] && Table() == map[] && this.empresas == empresas
    {
      rows := [];
      nextId := 1;
      this.empresas := empresas;
    }

    /** `Create`: a blank e-mail is replaced by a generated one that no user has yet, the user is
        marked active, inserted under the next identity value and one row is saved. */
    method Create(usuario: Usuario) returns (result: int, created: Usuario)
      requires Valid()
      modifies this
      ensures Valid()
      ensures created.Id == old(nextId) && created.Id !in old(Table())
      ensures created == usuario.(Id := created.Id, Email := created.Email, Activo := Some(true))
      ensures !IsNullOrWhiteSpace(usuario.Email) ==> created.Email == usuario.Email
      ensures IsNullOrWhiteSpace(usuario.Email) ==>
        && created.Email.Some?
        && !EmailGenerator.EmailYaExiste(old(rows), created.Email.value)
        && var dominio := EmailGenerator.DominioEmpresa(empresas.rows, usuario.EmpresaId);
           var limpio := EmailGenerator.LimpiarTexto(usuario.Nombre);
           EmailGenerator.IsFirstFree(old(rows), EmailGenerator.Address(limpio, dominio), limpio, dominio, created.Email.value)
      ensures Table() == old(Table())[created.Id := created]
      ensures result == 1
    {
      var email := usuario.Email;
      if IsNullOrWhiteSpace(usuario.Email) {
        var generated := EmailGenerator.GenerarEmailUnico(rows, empresas.rows, usuario.Nombre, usuario.EmpresaId);
        email := Some(generated);
      }
      created := usuario.(Id := nextId, Email := email, Activo := Some(true));
      Rows.NotInTable(rows, UsuarioKey, nextId);
      Rows.TableOfAppend(rows, UsuarioKey, created);
      Rows.AppendWellKeyed(rows, UsuarioKey, nextId, created);
      rows := rows + [created];
      nextId := nextId + 1;
      result := 1;
    }

    /** `GetById`: the user with that id, or `new Usuario()` (id 0) when there is none. */
    function GetById(id: int): (r: Usuario)
      reads this
      requires Valid()
      ensures id in Table() ==> r == Table()[id] && r.Id == id
      ensures id !in Table() ==> r == NewUsuario
      ensures r.Id != 0 <==> id in Table()
    {
      Rows.TableOfKeyed(rows, UsuarioKey, nextId, id);
      Rows.Lookup(rows, UsuarioKey, id, NewUsuario)
    }

    /** `Edit`: rewrites an existing user as `Edited` says; saving reports one row when that
        changed something. An unknown id changes nothing and reports 0. */
    method Edit(usuario: Usuario) returns (result: int)
      requires Valid()
      modifies this
      ensures Valid() && nextId == old(nextId)
      ensures usuario.Id !in old(Table()) ==> result == 0 && rows == old(rows)
      ensures usuario.Id in old(Table()) ==>
        var before := old(Table())[usuario.Id];
        var after := Edited(before, usuario);
        Table() == old(Table())[usuario.Id := after] && result == (if after == before then 0 else 1)
    {
      result := 0;
      var usuarioUpdate := GetById(usuario.Id);
      if usuarioUpdate.Id != 0 {
        var after := Edited(usuarioUpdate, usuario);
        Rows.FindInTable(rows, UsuarioKey, usuario.Id);
        var i := Rows.IndexOf(rows, UsuarioKey, usuario.Id).value;
        Rows.TableOfAt(rows, UsuarioKey, i);
        Rows.TableOfUpdate(rows, UsuarioKey, i, after);
        Rows.UpdateWellKeyed(rows, UsuarioKey, nextId, i, after);
        rows := rows[i := after];
        result := if after == usuarioUpdate then 0 else 1;
      }
    }

    /** `Delete`: removes the user with that id and saves one row; an unknown id changes
        nothing and reports 0. */
    method Delete(id: int) returns (result: int)
      requires Valid()
      modifies this
      ensures Valid() && nextId == old(nextId)
      ensures id !in old(Table()) ==> result == 0 && rows == old(rows)
      ensures id in old(Table()) ==> result == 1 && Table() == old(Table()) - {id}
    {
      result := 0;
      var usuarioDelete := GetById(id);
      if usuarioDelete.Id > 0 {
        Rows.FindInTable(rows, UsuarioKey, id);
        var i := Rows.IndexOf(rows, UsuarioKey, id).value;
        Rows.TableOfRemove(rows, UsuarioKey, i);
        Rows.RemoveWellKeyed(rows, UsuarioKey, nextId, i);
        rows := rows[..i] + rows[i + 1..];
        result := 1;
      }
    }

    /** `Query`: the users that pass the probe's filters, in table order. */
    function Query(probe: Usuario): (r: seq<Usuario>)
      reads this
      requires Valid()
      ensures Rows.Ascending(r, UsuarioKey)
      ensures forall x :: x in r <==> x in rows && UsuarioMatches(probe, x)
    {
      var p := (x: Usuario) => UsuarioMatches(probe, x);
      Rows.FilterAscending(rows, UsuarioKey, p);
      Rows.Filter(rows, p)
    }

    /** `CountSearch`: how many users of the table pass the probe's filters. */
    function CountSearch(probe: Usuario): (n: int)
      reads this
      requires Valid()
      ensures n == |set x | x in rows && UsuarioMatches(probe, x)|
    {
      var q := Query(probe);
      Rows.AscendingCard(q, UsuarioKey);
      assert (set i | 0 <= i < |q| :: q[i]) == set x | x in rows && UsuarioMatches(probe, x);
      |q|
    }

    /** `Search`: the matching users by descending id, `skip` of them skipped and then at most
        `take` (10 when `take` is 0) of them. */
    function Search(probe: Usuario, take: int, skip: int): (r: seq<Usuario>)
      reads this
      requires Valid()
      ensures Rows.Descending(r, UsuarioKey)
      ensures forall i :: 0 <= i < |r| ==> r[i] in rows && UsuarioMatches(probe, r[i])
      ensures |r| == Rows.PageSize(CountSearch(probe), take, skip)
      ensures forall i :: 0 <= i < |r| ==> r[i] == Rows.Reverse(Query(probe))[Rows.Max0(skip) + i]
    {
      var q := Query(probe);
      assert CountSearch(probe) == |q|;
      Rows.DescendingPage(q, UsuarioKey, take, skip)
    }

    /** `ChangeStatus`: sets `Activo` of an existing user; saving reports one row when that
        changed something. An unknown id changes nothing and reports 0. */
    method ChangeStatus(id: int, activo: bool) returns (result: int)
      requires Valid()
      modifies this
      ensures Valid() && nextId == old(nextId)
      ensures id !in old(Table()) ==> result == 0 && rows == old(rows)
      ensures id in old(Table()) ==>
        var before := old(Table())[id];
        var after := before.(Activo := Some(activo));
        Table() == old(Table())[id := after] && result == (if after == before then 0 else 1)
    {
      result := 0;
      var usuario := GetById(id);
      if usuario.Id != 0 {
        var after := usuario.(Activo := Some(activo));
        Rows.FindInTable(rows, UsuarioKey, id);
        var i := Rows.IndexOf(rows, UsuarioKey, id).value;
        Rows.TableOfAt(rows, UsuarioKey, i);
        Rows.TableOfUpdate(rows, UsuarioKey, i, after);
        Rows.UpdateWellKeyed(rows, UsuarioKey, nextId, i, after);
        rows := rows[i := after];
        result := if after == usuario then 0 else 1;
      }
    }

    /** `GetByEmailForLogin`: the first active user whose e-mail is exactly `email`, or null. */
    function GetByEmailForLogin(email: string): (r: Option<Usuario>)
      reads this
      requires Valid()
      ensures r.Some? ==> r.value in rows && CanLogIn(r.value, email)
      ensures r.Some? ==> forall x :: x in rows && CanLogIn(x, email) ==> r.value.Id <= x.Id
      ensures r.None? ==> forall x :: x in rows ==> !CanLogIn(x, email)
    {
      match Rows.IndexWhere(rows, (u: Usuario) => CanLogIn(u, email))
      case None => None
      case Some(i) => Some(rows[i])
    }
  }
}

/** The four persisted entities (the EF Core entity classes), as values. Navigation
    properties (`Usuario.Empresa`, `Usuario.Rol`, `Tarea.Empresa`, the collections of
    `Empresa` and `Rol`) are not part of the model. */
module Entities {
  import opened Common

  /** A `DateTime` reading of the server clock. */
  type Clock = int

  datatype Usuario = Usuario(
    Id: int,
    EmpresaId: int,
    RolId: int,
    Nombre: Option<string>,
    Email: Option<string>,
    Password: Option<string>,
    Activo: Option<bool>)

  datatype Empresa = Empresa(
    Id: int,
    Nombre: Option<string>,
    Ruc: Option<string>,
    Direccion: Option<string>,
    Telefono: Option<string>,
    Email: Option<string>,
    Activo: Option<bool>,
    CreatedAt: Option<Clock>,
    UpdatedAt: Option<Clock>)

  datatype Tarea = Tarea(
    Id: int,
    EmpresaId: int,
    Nombre: Option<string>,
    Descripcion: Option<string>)

  datatype Rol = Rol(
    Id: int,
    Nombre: Option<string>,
    Descripcion: Option<string>)

  /** `new Usuario()`, `new Empresa()`, `new Tarea()`, `new Rol()`: every field at its default. */
  const NewUsuario := Usuario(0, 0, 0, None, None, None, None)
  const NewEmpresa := Empresa(0, None, None, None, None, None, None, None, None)
  const NewTarea := Tarea(0, 0, None, None)
  const NewRol := Rol(0, None, None)

  /** The primary keys, as functions for the generic table helpers. */
  function UsuarioKey(u: Usuario): int { u.Id }
  function EmpresaKey(e: Empresa): int { e.Id }
  function TareaKey(t: Tarea): int { t.Id }
  function RolKey(r: Rol): int { r.Id }
}

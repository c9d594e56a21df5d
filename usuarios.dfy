/**
 * The user controller: registration (one `usuario` row plus exactly one
 * role row), renaming one's own account and deleting one's own account.
 * Password hashing is a parameter.
 */
module Usuarios {
  import opened Wrappers
  import opened Js
  import opened Text
  import opened Tables
  import opened AuthMiddleware

  datatype RegisterError = MissingFields | BadRole | EmailTaken | RegisterStorageFailure

  /** A failed statement answers 500; every other refusal, a taken email included, 400. */
  function RegisterStatus(e: RegisterError): (status: int)
    ensures status == 500 <==> e == RegisterStorageFailure
    ensures status == 400 <==> e != RegisterStorageFailure
  {
    if e == RegisterStorageFailure then 500 else 400
  }

  /** `tipousuario` is, by strict equality, one of the two role names. */
  predicate KnownRole(tipousuario: Value) {
    tipousuario == Str("ofertante") || tipousuario == Str("consumidor")
  }

  /**
   * `crearUsuario`: all four fields must be truthy and the role known; a
   * password that is not text makes the hashing fail; a taken email is a
   * unique violation. On success the user is stored with the hashed
   * password and their id joins exactly the role table that matches.
   */
  method CrearUsuario(db: Db, nombre: Value, email: Value, contrasena: Value, tipousuario: Value,
                      hash: string -> string)
    returns (r: Result<int, RegisterError>)
    requires db.Valid()
    modifies db`usuarios, db`nextUsuario, db`ofertantes, db`consumidores
    ensures db.Valid()
    ensures r.Err? ==>
      db.usuarios == old(db.usuarios) && db.nextUsuario == old(db.nextUsuario)
      && db.ofertantes == old(db.ofertantes) && db.consumidores == old(db.consumidores)
    ensures r == Err(MissingFields) <==>
      !(Truthy(nombre) && Truthy(email) && Truthy(contrasena) && Truthy(tipousuario))
    ensures r == Err(BadRole) <==>
      Truthy(nombre) && Truthy(email) && Truthy(contrasena) && Truthy(tipousuario) && !KnownRole(tipousuario)
    ensures r == Err(RegisterStorageFailure) <==>
      Truthy(nombre) && Truthy(email) && Truthy(contrasena) && KnownRole(tipousuario) && !contrasena.Str?
    ensures r == Err(EmailTaken) <==>
      Truthy(nombre) && Truthy(email) && KnownRole(tipousuario) && contrasena.Str? && contrasena != Str("")
      && exists k :: k in old(db.usuarios) && old(db.usuarios)[k].email == email
    ensures r.Ok? ==>
      && Truthy(nombre) && Truthy(email) && contrasena.Str? && contrasena != Str("") && KnownRole(tipousuario)
      && r.value == old(db.nextUsuario) && r.value !in old(db.usuarios)
      && db.nextUsuario == old(db.nextUsuario) + 1
      && db.usuarios == old(db.usuarios)[r.value := Usuario(nombre, email, hash(contrasena.s), tipousuario.s)]
      && (tipousuario == Str("ofertante") ==>
            db.ofertantes == old(db.ofertantes) + {r.value} && db.consumidores == old(db.consumidores))
      && (tipousuario == Str("consumidor") ==>
            db.consumidores == old(db.consumidores) + {r.value} && db.ofertantes == old(db.ofertantes))
  {
    if !Truthy(nombre) || !Truthy(email) || !Truthy(contrasena) || !Truthy(tipousuario) {
      return Err(MissingFields);
    }
    if tipousuario != Str("ofertante") && tipousuario != Str("consumidor") {
      return Err(BadRole);
    }
    if !contrasena.Str? {
      return Err(RegisterStorageFailure);
    }
    var passwordHash := hash(contrasena.s);
    var idusuario := db.nextUsuario;
    var inserted := InsertUsuario(db.usuarios, idusuario, Usuario(nombre, email, passwordHash, tipousuario.s));
    if inserted.Err? {
      return Err(EmailTaken);
    }
    db.usuarios := inserted.value;
    db.nextUsuario := db.nextUsuario + 1;
    if tipousuario == Str("ofertante") {
      db.ofertantes := db.ofertantes + {idusuario};
    } else {
      db.consumidores := db.consumidores + {idusuario};
    }
    r := Ok(idusuario);
  }

  datatype AccountError = BadUserId | NotSelf | EmptyName | UserNotFound | NameNotText

  /** The status of each refusal; `NameNotText` is a TypeError raised outside the handler's try block. */
  function AccountStatus(e: AccountError): (status: Option<int>)
    ensures status.None? <==> e == NameNotText
    ensures status == Some(400) <==> e in {BadUserId, EmptyName}
    ensures status == Some(403) <==> e == NotSelf
    ensures status == Some(404) <==> e == UserNotFound
  {
    match e
    case BadUserId => Some(400)
    case NotSelf => Some(403)
    case EmptyName => Some(400)
    case UserNotFound => Some(404)
    case NameNotText => None
  }

  /** The requester is authenticated and is the user the path names. */
  predicate IsSelf(user: Option<Claims>, id: string) {
    user.Some? && ParseInt(id) == Finite(user.value.idusuario)
  }

  /**
   * `actualizarNombre`: the id must parse, the requester must be that user,
   * the new name (absent counts as empty) must be text and non-empty once
   * trimmed, and the user must exist; then only that user's name changes,
   * to the trimmed text.
   */
  method ActualizarNombre(db: Db, id: string, nombre: Value, user: Option<Claims>)
    returns (r: Result<Usuario, AccountError>)
    requires db.Valid()
    modifies db`usuarios
    ensures db.Valid()
    ensures r.Err? ==> db.usuarios == old(db.usuarios)
    ensures r == Err(BadUserId) <==> ParseInt(id).NotFinite?
    ensures r == Err(NotSelf) <==> ParseInt(id).Finite? && !IsSelf(user, id)
    ensures r == Err(NameNotText) <==> IsSelf(user, id) && Truthy(nombre) && !nombre.Str?
    ensures r == Err(EmptyName) <==> IsSelf(user, id) && (!Truthy(nombre) || (nombre.Str? && Trim(nombre.s) == []))
    ensures r == Err(UserNotFound) <==>
      IsSelf(user, id) && nombre.Str? && Trim(nombre.s) != [] && user.value.idusuario !in old(db.usuarios)
    ensures r.Ok? ==>
      && IsSelf(user, id) && nombre.Str? && Trim(nombre.s) != []
      && var k := user.value.idusuario;
         && k in old(db.usuarios)
         && r.value == old(db.usuarios)[k].(nombre := Str(Trim(nombre.s)))
         && db.usuarios == old(db.usuarios)[k := r.value]
    // Idempotence: the stored name is its own trim, so renaming with it again
    // stores the same name, and a rename to the name already stored changes nothing.
    ensures r.Ok? ==> r.value.nombre.Str? && Trim(r.value.nombre.s) == r.value.nombre.s
    ensures r.Ok? && old(db.usuarios)[user.value.idusuario].nombre == Str(Trim(nombre.s)) ==>
      db.usuarios == old(db.usuarios)
  {
    var idParam := ParseInt(id);
    if idParam.NotFinite? {
      return Err(BadUserId);
    }
    if user.None? || user.value.idusuario != idParam.n {
      return Err(NotSelf);
    }
    var given := Or(nombre, Str(""));
    if !given.Str? {
      return Err(NameNotText);
    }
    var nuevoNombre := Trim(given.s);
    if nuevoNombre == [] {
      return Err(EmptyName);
    }
    var k := idParam.n;
    if k !in db.usuarios {
      return Err(UserNotFound);
    }
    var updated := db.usuarios[k].(nombre := Str(nuevoNombre));
    ghost var before := db.usuarios;
    db.usuarios := db.usuarios[k := updated];
    r := Ok(updated);
    assert before[k].nombre == Str(nuevoNombre) ==> db.usuarios == before by {
      if before[k].nombre == Str(nuevoNombre) {
        assert updated == before[k];
      }
    }
  }

  /**
   * `borrarUsuario`: the id must parse, the requester must be that user, and
   * the user must exist; then exactly that user row is removed.
   */
  method BorrarUsuario(db: Db, id: string, user: Option<Claims>) returns (r: Result<(), AccountError>)
    requires db.Valid()
    modifies db`usuarios
    ensures db.Valid()
    ensures r.Err? ==> db.usuarios == old(db.usuarios)
    ensures r == Err(BadUserId) <==> ParseInt(id).NotFinite?
    ensures r == Err(NotSelf) <==> ParseInt(id).Finite? && !IsSelf(user, id)
    ensures r == Err(UserNotFound) <==> IsSelf(user, id) && user.value.idusuario !in old(db.usuarios)
    ensures r.Err? ==> r.error in {BadUserId, NotSelf, UserNotFound}
    ensures r.Ok? ==>
      IsSelf(user, id) && user.value.idusuario in old(db.usuarios)
      && db.usuarios == old(db.usuarios) - {user.value.idusuario}
  {
    var idParam := ParseInt(id);
    if idParam.NotFinite? {
      return Err(BadUserId);
    }
    if user.None? || user.value.idusuario != idParam.n {
      return Err(NotSelf);
    }
    if idParam.n !in db.usuarios {
      return Err(UserNotFound);
    }
    db.usuarios := db.usuarios - {idParam.n};
    r := Ok(());
  }
}

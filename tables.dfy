/**
 * The relational schema the controllers work on: the `usuario`,
 * `ofertante`, `consumidor`, `actividad` and `inscripcion` tables, held by
 * one object whose fields the controllers update. Each table with a serial
 * key is a map from key to row; the role tables are sets of user ids.
 */
module Tables {
  import opened Wrappers
  import opened Js

  datatype Usuario = Usuario(nombre: Value, email: Value, contrasena: string, tipousuario: string)

  datatype Actividad = Actividad(
    titulo: Value, descripcion: Value, tipo: Value, fecha: Value, disponibilidad: Value,
    precio: Value, plazas: Value, horainicio: Value, horafin: Value, idofertante: int)

  datatype Inscripcion = Inscripcion(fechainscripcion: Value, idconsumidor: int, idactividad: int)

  /** The error a statement reports: 23505 (unique violation) or any other failure. */
  datatype DbError = UniqueViolation | OtherFailure

  /** Some row of `ins` already pairs this consumer with this activity. */
  predicate Enrolled(ins: map<int, Inscripcion>, consumer: int, activity: int) {
    exists k :: k in ins && ins[k].idconsumidor == consumer && ins[k].idactividad == activity
  }

  /** The UNIQUE (idconsumidor, idactividad) constraint: no pair appears twice. */
  predicate UniquePairs(ins: map<int, Inscripcion>) {
    forall k1, k2 :: k1 in ins && k2 in ins && k1 != k2 ==>
      ins[k1].idconsumidor != ins[k2].idconsumidor || ins[k1].idactividad != ins[k2].idactividad
  }

  /** The UNIQUE constraint on `usuario.email`. */
  predicate UniqueEmails(users: map<int, Usuario>) {
    forall k1, k2 :: k1 in users && k2 in users && k1 != k2 ==> users[k1].email != users[k2].email
  }

  /** A stored time is never `undefined` and never the empty string (it was normalised to NULL). */
  predicate StoredTime(v: Value) {
    v != Undefined && v != Str("")
  }

  /** What the controllers ever write into an `actividad` row. */
  predicate WellFormed(a: Actividad) {
    && a.titulo != Undefined && a.descripcion != Undefined && a.tipo != Undefined
    && a.fecha != Undefined && a.disponibilidad != Undefined && a.precio != Undefined
    && a.plazas != Undefined && StoredTime(a.horainicio) && StoredTime(a.horafin)
  }

  /** The enrollment rows of one activity: `SELECT COUNT(*) ... WHERE idactividad = a`. */
  function Seats(ins: map<int, Inscripcion>, a: int): nat {
    |set k | k in ins && ins[k].idactividad == a|
  }

  /** Inserting a row under a fresh key adds one seat to its activity and none to the others. */
  lemma SeatsInsert(ins: map<int, Inscripcion>, key: int, row: Inscripcion, a: int)
    requires key !in ins
    ensures Seats(ins[key := row], a) == Seats(ins, a) + (if row.idactividad == a then 1 else 0)
  {
    var m := ins[key := row];
    var before := set k | k in ins && ins[k].idactividad == a;
    var after := set k | k in m && m[k].idactividad == a;
    if row.idactividad == a {
      assert after == before + {key};
    } else {
      assert after == before;
    }
  }

  /** Deleting a row frees one seat of its activity and none of the others. */
  lemma SeatsRemove(ins: map<int, Inscripcion>, key: int, a: int)
    requires key in ins
    ensures Seats(ins - {key}, a) == Seats(ins, a) - (if ins[key].idactividad == a then 1 else 0)
  {
    var m := ins - {key};
    var before := set k | k in ins && ins[k].idactividad == a;
    var after := set k | k in m && m[k].idactividad == a;
    if ins[key].idactividad == a {
      assert after == before - {key};
    } else {
      assert after == before;
    }
  }

  /**
   * `INSERT INTO inscripcion`: fails with a unique violation when the key or
   * the (consumer, activity) pair is already present.
   */
  function InsertInscripcion(ins: map<int, Inscripcion>, key: int, row: Inscripcion)
    : (r: Result<map<int, Inscripcion>, DbError>)
    requires UniquePairs(ins)
    ensures r.Ok? <==> key !in ins && !Enrolled(ins, row.idconsumidor, row.idactividad)
    ensures r.Err? ==> r.error == UniqueViolation
    ensures r.Ok? ==> r.value == ins[key := row] && UniquePairs(r.value)
  {
    if key in ins || Enrolled(ins, row.idconsumidor, row.idactividad) then Err(UniqueViolation)
    else Ok(ins[key := row])
  }

  /** `INSERT INTO usuario`: fails with a unique violation when the key or the email is taken. */
  function InsertUsuario(users: map<int, Usuario>, key: int, row: Usuario)
    : (r: Result<map<int, Usuario>, DbError>)
    requires UniqueEmails(users)
    ensures r.Ok? <==> key !in users && forall k :: k in users ==> users[k].email != row.email
    ensures r.Err? ==> r.error == UniqueViolation
    ensures r.Ok? ==> r.value == users[key := row] && UniqueEmails(r.value)
  {
    if key in users || exists k :: k in users && users[k].email == row.email then Err(UniqueViolation)
    else Ok(users[key := row])
  }

  predicate KeysIn<T>(m: map<int, T>, next: int) {
    forall k :: k in m ==> 1 <= k < next
  }

  predicate IdsIn(s: set<int>, next: int) {
    forall k :: k in s ==> 1 <= k < next
  }

  class Db {
    var usuarios: map<int, Usuario>
    var ofertantes: set<int>
    var consumidores: set<int>
    var actividades: map<int, Actividad>
    var inscripciones: map<int, Inscripcion>
    // The next value of each table's serial sequence.
    var nextUsuario: int
    var nextActividad: int
    var nextInscripcion: int

    /**
     * The schema's constraints: serial keys below their sequence, unique
     * emails, unique enrollment pairs, one role per user, and activity rows
     * as the controllers write them.
     */
    ghost predicate Valid()
      reads this
    {
      && 1 <= nextUsuario && 1 <= nextActividad && 1 <= nextInscripcion
      && KeysIn(usuarios, nextUsuario) && KeysIn(actividades, nextActividad)
      && KeysIn(inscripciones, nextInscripcion)
      && IdsIn(ofertantes, nextUsuario) && IdsIn(consumidores, nextUsuario)
      && ofertantes !! consumidores
      && UniqueEmails(usuarios)
      && UniquePairs(inscripciones)
      && (forall k :: k in actividades ==> WellFormed(actividades[k]))
    }

    /** An empty database whose sequences start at 1. */
    constructor ()
      ensures Valid()
      ensures usuarios == map[] && actividades == map[] && inscripciones == map[]
      ensures ofertantes == {} && consumidores == {}
    {
      usuarios, ofertantes, consumidores := map[], {}, {};
      actividades, inscripciones := map[], map[];
      nextUsuario, nextActividad, nextInscripcion := 1, 1, 1;
    }
  }
}

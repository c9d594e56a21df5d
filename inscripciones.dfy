/**
 * The enrollment ledger: enrolling a consumer in an activity under the
 * capacity and duplicate checks, cancelling an enrollment, and listing a
 * consumer's enrollments. Each controller call is one atomic step on the
 * tables (the row lock and the transaction make it so); a rejected call
 * leaves every table as it was.
 */
module Inscripciones {
  import opened Wrappers
  import opened Js
  import opened Text
  import opened Tables
  import opened AuthMiddleware

  datatype EnrollError =
    | MissingActivityId   // no (truthy) idactividad in the body
    | InvalidConsumer     // the token's user is not in `consumidor`
    | ActivityNotFound
    | ActivityClosed
    | AlreadyEnrolled     // the pre-check, or the unique violation at insert time
    | NoSeats
    | StorageFailure      // a statement failed: rollback and 500

  /** Every enrollment failure answers 400 except a failed statement, which answers 500. */
  function EnrollStatus(e: EnrollError): (status: int)
    ensures status == 500 <==> e == StorageFailure
    ensures status == 400 || status == 500
  {
    if e == StorageFailure then 500 else 400
  }

  /**
   * An activity is closed when `disponibilidad` is `false` or a string equal
   * to "cerrada" ignoring case; every other value, NULL included, is open.
   */
  predicate Closed(disponibilidad: Value) {
    disponibilidad == Bool(false) || (disponibilidad.Str? && Lower(disponibilidad.s) == "cerrada")
  }

  /**
   * `plazasMax`: `Number(plazas)` when it is finite, otherwise no limit. A
   * NULL `plazas` converts to 0, a finite capacity that admits nobody.
   */
  function Capacity(plazas: Value): (c: Option<int>)
    ensures plazas == Null ==> c == Some(0)
    ensures plazas.Num? ==> c == Some(plazas.n)
    ensures plazas == Undefined || plazas == NaN ==> c == None
  {
    match ToNumber(plazas)
    case Finite(n) => Some(n)
    case NotFinite => None
  }

  /** The capacity check passes: no limit, or fewer enrollments than the limit. */
  predicate HasSeat(ins: map<int, Inscripcion>, key: int, plazas: Value) {
    Capacity(plazas).None? || Seats(ins, key) < Capacity(plazas).value
  }

  /** No activity with a finite capacity has more enrollments than that capacity. */
  predicate WithinCapacity(acts: map<int, Actividad>, ins: map<int, Inscripcion>) {
    forall a :: a in acts && Capacity(acts[a].plazas).Some? ==> Seats(ins, a) <= Capacity(acts[a].plazas).value
  }

  /** The id sent in the body names an activity, and the caller is a consumer. */
  predicate Located(consumidores: set<int>, acts: map<int, Actividad>, idconsumidor: int, idactividad: Value) {
    Truthy(idactividad) && idconsumidor in consumidores
    && SqlInt(idactividad).Some? && SqlInt(idactividad).value in acts
  }

  /** How a failed INSERT is reported: 23505 means the pair is already enrolled. */
  function InsertFailure(e: DbError): (r: EnrollError)
    ensures r == AlreadyEnrolled <==> e == UniqueViolation
  {
    if e == UniqueViolation then AlreadyEnrolled else StorageFailure
  }

  /**
   * `crearInscripcion`. The checks run in order (consumer, activity, open,
   * not yet enrolled, seat left) and the first that fails is reported with
   * the tables untouched; otherwise exactly one row is added under a fresh
   * id, stamped with the given date or else `now`.
   */
  method CrearInscripcion(db: Db, idconsumidor: int, idactividad: Value, fechainscripcion: Value, now: Value)
    returns (r: Result<int, EnrollError>)
    requires db.Valid()
    modifies db`inscripciones, db`nextInscripcion
    ensures db.Valid()
    ensures r.Err? ==> db.inscripciones == old(db.inscripciones) && db.nextInscripcion == old(db.nextInscripcion)
    ensures r == Err(MissingActivityId) <==> !Truthy(idactividad)
    ensures r == Err(InvalidConsumer) ==> Truthy(idactividad) && idconsumidor !in db.consumidores
    ensures r == Err(StorageFailure) ==>
      Truthy(idactividad) && idconsumidor in db.consumidores && SqlInt(idactividad).None?
    ensures r == Err(ActivityNotFound) ==>
      Truthy(idactividad) && idconsumidor in db.consumidores
      && SqlInt(idactividad).Some? && SqlInt(idactividad).value !in db.actividades
    ensures r == Err(ActivityClosed) ==>
      Located(db.consumidores, db.actividades, idconsumidor, idactividad)
      && Closed(db.actividades[SqlInt(idactividad).value].disponibilidad)
    ensures r == Err(AlreadyEnrolled) ==>
      Located(db.consumidores, db.actividades, idconsumidor, idactividad)
      && !Closed(db.actividades[SqlInt(idactividad).value].disponibilidad)
      && Enrolled(old(db.inscripciones), idconsumidor, SqlInt(idactividad).value)
    ensures r == Err(NoSeats) ==>
      Located(db.consumidores, db.actividades, idconsumidor, idactividad)
      && !Closed(db.actividades[SqlInt(idactividad).value].disponibilidad)
      && !Enrolled(old(db.inscripciones), idconsumidor, SqlInt(idactividad).value)
      && !HasSeat(old(db.inscripciones), SqlInt(idactividad).value, db.actividades[SqlInt(idactividad).value].plazas)
    ensures r.Ok? ==>
      Located(db.consumidores, db.actividades, idconsumidor, idactividad)
      && !Closed(db.actividades[SqlInt(idactividad).value].disponibilidad)
      && !Enrolled(old(db.inscripciones), idconsumidor, SqlInt(idactividad).value)
      && HasSeat(old(db.inscripciones), SqlInt(idactividad).value, db.actividades[SqlInt(idactividad).value].plazas)
    ensures r.Ok? ==>
      r.value == old(db.nextInscripcion) && r.value !in old(db.inscripciones)
      && db.nextInscripcion == old(db.nextInscripcion) + 1
      && db.inscripciones == old(db.inscripciones)[r.value :=
           Inscripcion(Or(fechainscripcion, now), idconsumidor, SqlInt(idactividad).value)]
    ensures r.Ok? ==>
      var key := SqlInt(idactividad).value;
      var cap := Capacity(db.actividades[key].plazas);
      Seats(db.inscripciones, key) == Seats(old(db.inscripciones), key) + 1
      && (cap.Some? ==> Seats(db.inscripciones, key) <= cap.value)
    ensures WithinCapacity(db.actividades, old(db.inscripciones)) ==> WithinCapacity(db.actividades, db.inscripciones)
  {
    if !Truthy(idactividad) {
      return Err(MissingActivityId);
    }
    // BEGIN
    if idconsumidor !in db.consumidores {
      return Err(InvalidConsumer);
    }
    // SELECT ... FOR UPDATE: a body id PostgreSQL cannot read as an integer fails the statement.
    var key := SqlInt(idactividad);
    if key.None? {
      return Err(StorageFailure);
    }
    if key.value !in db.actividades {
      return Err(ActivityNotFound);
    }
    var actividad := db.actividades[key.value];
    var plazasMax := Capacity(actividad.plazas);
    if Closed(actividad.disponibilidad) {
      return Err(ActivityClosed);
    }
    if Enrolled(db.inscripciones, idconsumidor, key.value) {
      return Err(AlreadyEnrolled);
    }
    var totalInscritos := Seats(db.inscripciones, key.value);
    if plazasMax.Some? && totalInscritos >= plazasMax.value {
      return Err(NoSeats);
    }
    var row := Inscripcion(Or(fechainscripcion, now), idconsumidor, key.value);
    var inserted := InsertInscripcion(db.inscripciones, db.nextInscripcion, row);
    if inserted.Err? {
      return Err(InsertFailure(inserted.error));
    }
    ghost var before := db.inscripciones;
    db.inscripciones := inserted.value;
    r := Ok(db.nextInscripcion);
    db.nextInscripcion := db.nextInscripcion + 1;
    // COMMIT
    forall a | a in db.actividades
      ensures Seats(db.inscripciones, a) == Seats(before, a) + (if a == key.value then 1 else 0)
    {
      SeatsInsert(before, r.value, row, a);
    }
    SeatsInsert(before, r.value, row, key.value);
  }

  datatype CancelError = CancelStorageFailure | EnrollmentNotFound | NotOwner

  /** Not found answers 404, not the owner 403, a failed statement 500. */
  function CancelStatus(e: CancelError): (status: int)
    ensures status == 500 <==> e == CancelStorageFailure
    ensures status == 404 <==> e == EnrollmentNotFound
    ensures status == 403 <==> e == NotOwner
  {
    match e
    case CancelStorageFailure => 500
    case EnrollmentNotFound => 404
    case NotOwner => 403
  }

  /**
   * `cancelarInscripcion`: an unknown id is not found, an enrollment of
   * another consumer is forbidden; otherwise exactly that row is deleted.
   * An id `parseInt` cannot read, or one outside the int4 range, makes the
   * SELECT fail.
   */
  method CancelarInscripcion(db: Db, id: string, requester: int) returns (r: Result<(), CancelError>)
    requires db.Valid()
    modifies db`inscripciones
    ensures db.Valid()
    ensures r.Err? ==> db.inscripciones == old(db.inscripciones)
    ensures r == Err(CancelStorageFailure) <==> SqlKey(id).None?
    ensures r == Err(EnrollmentNotFound) <==> SqlKey(id).Some? && SqlKey(id).value !in old(db.inscripciones)
    ensures r == Err(NotOwner) <==>
      SqlKey(id).Some? && SqlKey(id).value in old(db.inscripciones)
      && old(db.inscripciones)[SqlKey(id).value].idconsumidor != requester
    ensures r.Ok? ==>
      SqlKey(id).Some? && SqlKey(id).value in old(db.inscripciones)
      && old(db.inscripciones)[SqlKey(id).value].idconsumidor == requester
      && db.inscripciones == old(db.inscripciones) - {SqlKey(id).value}
    ensures WithinCapacity(db.actividades, old(db.inscripciones)) ==> WithinCapacity(db.actividades, db.inscripciones)
  {
    var idinscripcion := SqlKey(id);
    if idinscripcion.None? {
      return Err(CancelStorageFailure);
    }
    var k := idinscripcion.value;
    if k !in db.inscripciones {
      return Err(EnrollmentNotFound);
    }
    if db.inscripciones[k].idconsumidor != requester {
      return Err(NotOwner);
    }
    ghost var before := db.inscripciones;
    db.inscripciones := db.inscripciones - {k};
    forall a | a in db.actividades
      ensures Seats(db.inscripciones, a) <= Seats(before, a)
    {
      SeatsRemove(before, k, a);
    }
    r := Ok(());
  }

  /** One row of the listing: the enrollment joined with its activity. */
  datatype InscripcionView = InscripcionView(
    fechainscripcion: Value, idactividad: int, titulo: Value, fecha: Value, precio: Value)

  /** The listing answers 403 to anyone but the consumer it is about. */
  datatype ListError = NotSelf

  /**
   * `obtenerInscripcionesPorConsumidor`: only a consumer asking for their own
   * id may list; the answer holds, keyed by enrollment id, exactly their
   * enrollments whose activity exists, each with that activity's title,
   * date and price.
   */
  function ObtenerInscripciones(ins: map<int, Inscripcion>, acts: map<int, Actividad>, user: Claims, id: string)
    : (r: Result<map<int, InscripcionView>, ListError>)
    ensures r.Err? <==> user.tipousuario != "consumidor" || ParseInt(id) != Finite(user.idusuario)
    ensures r.Ok? ==> forall k :: k in r.value <==>
      k in ins && ins[k].idconsumidor == user.idusuario && ins[k].idactividad in acts
    ensures r.Ok? ==> forall k :: k in r.value ==>
      var a := acts[ins[k].idactividad];
      r.value[k] == InscripcionView(ins[k].fechainscripcion, ins[k].idactividad, a.titulo, a.fecha, a.precio)
  {
    if user.tipousuario != "consumidor" || ParseInt(id) != Finite(user.idusuario) then
      Err(NotSelf)
    else
      Ok(map k | k in ins && ins[k].idconsumidor == user.idusuario && ins[k].idactividad in acts ::
        var a := acts[ins[k].idactividad];
        InscripcionView(ins[k].fechainscripcion, ins[k].idactividad, a.titulo, a.fecha, a.precio))
  }
}

/**
 * The activity catalog controller: a provider creates, updates and deletes
 * their own activities, with a required title, case-insensitive title
 * uniqueness and start-before-end times, and lists their activities with
 * the enrollments of each.
 */
module Actividades {
  import opened Wrappers
  import opened Js
  import opened Text
  import opened Calendar
  import opened Tables
  import opened AuthMiddleware
  import Inscripciones

  /** The fields of a create or update request body, as sent. */
  datatype ActividadBody = ActividadBody(
    titulo: Value, descripcion: Value, tipo: Value, fecha: Value, disponibilidad: Value,
    precio: Value, plazas: Value, horainicio: Value, horafin: Value)

  datatype ActError =
    | MissingTitle
    | BadTimeOrder
    | DuplicateTitle
    | NoSuchOfertante
    | ActivityNotFound
    | NotOwner
    | ActStorageFailure

  /** Not found answers 404, another provider's activity 403, a failed statement 500, every other refusal 400. */
  function ActStatus(e: ActError): (status: int)
    ensures status == 404 <==> e == ActivityNotFound
    ensures status == 403 <==> e == NotOwner
    ensures status == 500 <==> e == ActStorageFailure
    ensures status == 400 <==> e in {MissingTitle, BadTimeOrder, DuplicateTitle, NoSuchOfertante}
  {
    match e
    case ActivityNotFound => 404
    case NotOwner => 403
    case ActStorageFailure => 500
    case _ => 400
  }

  /** `normalizeTime`: the empty string and `undefined` become NULL; any other value is kept. */
  function NormalizeTime(v: Value): (r: Value)
    ensures StoredTime(r)
    ensures StoredTime(v) ==> r == v
    ensures !StoredTime(v) ==> r == Null
  {
    if v == Str("") || v == Undefined then Null else v
  }

  /**
   * The time check: when both times are truthy, both must parse and the
   * start must be strictly before the end.
   */
  predicate TimesOrdered(start: Value, end: Value) {
    Truthy(start) && Truthy(end) ==>
      TimeOf(start).Some? && TimeOf(end).Some? && TimeOf(start).value < TimeOf(end).value
  }

  /**
   * `LOWER(titulo) = LOWER($1)`: both sides are compared as the text the
   * driver sends for them, so a numeric or boolean title matches its text;
   * NULL matches nothing.
   */
  predicate SameTitle(a: Value, b: Value) {
    SqlText(a).Some? && SqlText(b).Some? && Lower(SqlText(a).value) == Lower(SqlText(b).value)
  }

  /** Some activity other than `except` has this title, ignoring case. */
  predicate TitleTaken(acts: map<int, Actividad>, titulo: Value, except: Option<int>) {
    exists k :: k in acts && except != Some(k) && SameTitle(acts[k].titulo, titulo)
  }

  /** A numeric title collides with a stored title that is its text, in both directions. */
  lemma NumericTitleMatchesText(n: int, stored: Actividad, k: int)
    requires stored.titulo == Str(DecimalString(n))
    ensures TitleTaken(map[k := stored], Num(n), None)
    ensures TitleTaken(map[k := stored.(titulo := Num(n))], Str(DecimalString(n)), None)
  {
    var m := map[k := stored];
    assert k in m && SameTitle(m[k].titulo, Num(n));
    var m2 := map[k := stored.(titulo := Num(n))];
    assert k in m2 && SameTitle(m2[k].titulo, Str(DecimalString(n)));
  }

  /** A NULL or undefined title collides with no activity. */
  lemma NullTitleMatchesNothing(acts: map<int, Actividad>, titulo: Value, except: Option<int>)
    requires Nullish(titulo)
    ensures !TitleTaken(acts, titulo, except)
  {
  }

  /** The row `crearActividad` inserts: undefined fields become NULL, times are normalised. */
  function NewRow(body: ActividadBody, idofertante: int): (a: Actividad)
    ensures WellFormed(a) && a.idofertante == idofertante
    ensures a.horainicio == NormalizeTime(body.horainicio) && a.horafin == NormalizeTime(body.horafin)
    ensures a.plazas == SqlParam(body.plazas) && a.disponibilidad == SqlParam(body.disponibilidad)
  {
    Actividad(SqlParam(body.titulo), SqlParam(body.descripcion), SqlParam(body.tipo), SqlParam(body.fecha),
      SqlParam(body.disponibilidad), SqlParam(body.precio), SqlParam(body.plazas),
      NormalizeTime(body.horainicio), NormalizeTime(body.horafin), idofertante)
  }

  /**
   * `crearActividad`: rejects a missing title, then misordered times, then a
   * title already used by any activity (ignoring case), then a creator who is
   * not a provider; otherwise inserts one row under a fresh id.
   */
  method CrearActividad(db: Db, body: ActividadBody, idofertante: int) returns (r: Result<int, ActError>)
    requires db.Valid()
    modifies db`actividades, db`nextActividad
    ensures db.Valid()
    ensures r.Err? ==> db.actividades == old(db.actividades) && db.nextActividad == old(db.nextActividad)
    ensures r == Err(MissingTitle) <==> !Truthy(body.titulo)
    ensures r == Err(BadTimeOrder) <==>
      Truthy(body.titulo) && !TimesOrdered(NormalizeTime(body.horainicio), NormalizeTime(body.horafin))
    ensures r == Err(DuplicateTitle) <==>
      Truthy(body.titulo) && TimesOrdered(NormalizeTime(body.horainicio), NormalizeTime(body.horafin))
      && TitleTaken(old(db.actividades), body.titulo, None)
    ensures r == Err(NoSuchOfertante) <==>
      Truthy(body.titulo) && TimesOrdered(NormalizeTime(body.horainicio), NormalizeTime(body.horafin))
      && !TitleTaken(old(db.actividades), body.titulo, None) && idofertante !in db.ofertantes
    ensures r.Err? ==> r.error in {MissingTitle, BadTimeOrder, DuplicateTitle, NoSuchOfertante}
    ensures r.Ok? ==>
      r.value == old(db.nextActividad) && r.value !in old(db.actividades)
      && db.nextActividad == old(db.nextActividad) + 1
      && db.actividades == old(db.actividades)[r.value := NewRow(body, idofertante)]
  {
    var start := NormalizeTime(body.horainicio);
    var end := NormalizeTime(body.horafin);
    if !Truthy(body.titulo) {
      return Err(MissingTitle);
    }
    if Truthy(start) && Truthy(end) {
      var s := TimeOf(start);
      var e := TimeOf(end);
      if s.None? || e.None? || s.value >= e.value {
        return Err(BadTimeOrder);
      }
    }
    if TitleTaken(db.actividades, body.titulo, None) {
      return Err(DuplicateTitle);
    }
    if idofertante !in db.ofertantes {
      return Err(NoSuchOfertante);
    }
    db.actividades := db.actividades[db.nextActividad := NewRow(body, idofertante)];
    r := Ok(db.nextActividad);
    db.nextActividad := db.nextActividad + 1;
  }

  /**
   * The row `actualizarActividad` writes: each field that is null or
   * undefined in the body keeps its stored value, any other value replaces
   * it; the times are normalised after that merge.
   */
  function Merge(body: ActividadBody, a: Actividad): (m: Actividad)
    requires WellFormed(a)
    ensures WellFormed(m) && m.idofertante == a.idofertante
    ensures m.titulo == (if Nullish(body.titulo) then a.titulo else body.titulo)
    ensures m.descripcion == (if Nullish(body.descripcion) then a.descripcion else body.descripcion)
    ensures m.tipo == (if Nullish(body.tipo) then a.tipo else body.tipo)
    ensures m.fecha == (if Nullish(body.fecha) then a.fecha else body.fecha)
    ensures m.disponibilidad == (if Nullish(body.disponibilidad) then a.disponibilidad else body.disponibilidad)
    ensures m.precio == (if Nullish(body.precio) then a.precio else body.precio)
    ensures m.plazas == (if Nullish(body.plazas) then a.plazas else body.plazas)
    ensures Nullish(body.horainicio) ==> m.horainicio == a.horainicio
    ensures Nullish(body.horafin) ==> m.horafin == a.horafin
    ensures body.horainicio == Str("") ==> m.horainicio == Null
    ensures body.horafin == Str("") ==> m.horafin == Null
    ensures !Nullish(body.horainicio) && body.horainicio != Str("") ==> m.horainicio == body.horainicio
    ensures !Nullish(body.horafin) && body.horafin != Str("") ==> m.horafin == body.horafin
  {
    a.(titulo := Coalesce(body.titulo, a.titulo),
       descripcion := Coalesce(body.descripcion, a.descripcion),
       tipo := Coalesce(body.tipo, a.tipo),
       fecha := Coalesce(body.fecha, a.fecha),
       disponibilidad := Coalesce(body.disponibilidad, a.disponibilidad),
       precio := Coalesce(body.precio, a.precio),
       plazas := Coalesce(body.plazas, a.plazas),
       horainicio := NormalizeTime(Coalesce(body.horainicio, a.horainicio)),
       horafin := NormalizeTime(Coalesce(body.horafin, a.horafin)))
  }

  /** A body with every field absent leaves the stored row as it is. */
  lemma MergeAbsentIsIdentity(a: Actividad)
    requires WellFormed(a)
    ensures Merge(ActividadBody(Undefined, Undefined, Undefined, Undefined, Undefined,
                                Undefined, Undefined, Undefined, Undefined), a) == a
  {
  }

  /**
   * `actualizarActividad`: an unknown id is not found, another provider's
   * activity is forbidden, then the merged times must be ordered and a
   * truthy new title must not be used by another activity; on success the
   * row becomes the merge of the body into it and nothing else changes.
   */
  method ActualizarActividad(db: Db, id: string, body: ActividadBody, requester: int)
    returns (r: Result<Actividad, ActError>)
    requires db.Valid()
    modifies db`actividades
    ensures db.Valid()
    ensures r.Err? ==> db.actividades == old(db.actividades)
    ensures r == Err(ActStorageFailure) <==> SqlKey(id).None?
    ensures r == Err(ActivityNotFound) <==> SqlKey(id).Some? && SqlKey(id).value !in old(db.actividades)
    ensures r == Err(NotOwner) <==>
      SqlKey(id).Some? && SqlKey(id).value in old(db.actividades)
      && old(db.actividades)[SqlKey(id).value].idofertante != requester
    ensures r == Err(BadTimeOrder) <==>
      SqlKey(id).Some? && SqlKey(id).value in old(db.actividades)
      && old(db.actividades)[SqlKey(id).value].idofertante == requester
      && var m := Merge(body, old(db.actividades)[SqlKey(id).value]);
         !TimesOrdered(m.horainicio, m.horafin)
    ensures r == Err(DuplicateTitle) <==>
      SqlKey(id).Some? && SqlKey(id).value in old(db.actividades)
      && old(db.actividades)[SqlKey(id).value].idofertante == requester
      && (var m := Merge(body, old(db.actividades)[SqlKey(id).value]);
          TimesOrdered(m.horainicio, m.horafin))
      && Truthy(body.titulo) && TitleTaken(old(db.actividades), body.titulo, Some(SqlKey(id).value))
    ensures r.Err? ==> r.error in {ActStorageFailure, ActivityNotFound, NotOwner, BadTimeOrder, DuplicateTitle}
    ensures r.Ok? ==>
      SqlKey(id).Some? && SqlKey(id).value in old(db.actividades)
      && var k := SqlKey(id).value;
         var m := Merge(body, old(db.actividades)[k]);
         && old(db.actividades)[k].idofertante == requester
         && TimesOrdered(m.horainicio, m.horafin)
         && !(Truthy(body.titulo) && TitleTaken(old(db.actividades), body.titulo, Some(k)))
         && r.value == m
         && db.actividades == old(db.actividades)[k := m]
  {
    var idactividad := SqlKey(id);
    if idactividad.None? {
      return Err(ActStorageFailure);
    }
    var k := idactividad.value;
    if k !in db.actividades {
      return Err(ActivityNotFound);
    }
    var actividad := db.actividades[k];
    if actividad.idofertante != requester {
      return Err(NotOwner);
    }
    var start := NormalizeTime(Coalesce(body.horainicio, actividad.horainicio));
    var end := NormalizeTime(Coalesce(body.horafin, actividad.horafin));
    if Truthy(start) && Truthy(end) {
      var s := TimeOf(start);
      var e := TimeOf(end);
      if s.None? || e.None? || s.value >= e.value {
        return Err(BadTimeOrder);
      }
    }
    if Truthy(body.titulo) && TitleTaken(db.actividades, body.titulo, Some(k)) {
      return Err(DuplicateTitle);
    }
    var updated := Merge(body, actividad);
    db.actividades := db.actividades[k := updated];
    r := Ok(updated);
  }

  /**
   * `borrarActividad`: an unknown id is not found, another provider's
   * activity is forbidden; otherwise exactly that row is deleted.
   */
  method BorrarActividad(db: Db, id: string, requester: int) returns (r: Result<(), ActError>)
    requires db.Valid()
    modifies db`actividades
    ensures db.Valid()
    ensures r.Err? ==> db.actividades == old(db.actividades)
    ensures r == Err(ActStorageFailure) <==> SqlKey(id).None?
    ensures r == Err(ActivityNotFound) <==> SqlKey(id).Some? && SqlKey(id).value !in old(db.actividades)
    ensures r == Err(NotOwner) <==>
      SqlKey(id).Some? && SqlKey(id).value in old(db.actividades)
      && old(db.actividades)[SqlKey(id).value].idofertante != requester
    ensures r.Ok? ==>
      SqlKey(id).Some? && SqlKey(id).value in old(db.actividades)
      && old(db.actividades)[SqlKey(id).value].idofertante == requester
      && db.actividades == old(db.actividades) - {SqlKey(id).value}
  {
    var idactividad := SqlKey(id);
    if idactividad.None? {
      return Err(ActStorageFailure);
    }
    var k := idactividad.value;
    if k !in db.actividades {
      return Err(ActivityNotFound);
    }
    if db.actividades[k].idofertante != requester {
      return Err(NotOwner);
    }
    db.actividades := db.actividades - {k};
    r := Ok(());
  }

  /** One enrollment as the provider's listing shows it, with the consumer's name and email. */
  datatype Inscrito = Inscrito(idconsumidor: int, nombre: Value, email: Value, fechainscripcion: Value)

  /** An activity of the listing with its enrollments, keyed by enrollment id. */
  datatype ActividadConInscritos = ActividadConInscritos(actividad: Actividad, inscritos: map<int, Inscrito>)

  datatype OwnerListError = NotOwnerOfList

  /** The LEFT JOIN with `usuario`: a missing user shows NULL name and email. */
  function InscritoOf(i: Inscripcion, users: map<int, Usuario>): (r: Inscrito)
    ensures r.idconsumidor == i.idconsumidor && r.fechainscripcion == i.fechainscripcion
    ensures i.idconsumidor in users ==>
      r.nombre == users[i.idconsumidor].nombre && r.email == users[i.idconsumidor].email
    ensures i.idconsumidor !in users ==> r.nombre == Null && r.email == Null
  {
    if i.idconsumidor in users then
      Inscrito(i.idconsumidor, users[i.idconsumidor].nombre, users[i.idconsumidor].email, i.fechainscripcion)
    else
      Inscrito(i.idconsumidor, Null, Null, i.fechainscripcion)
  }

  /**
   * `obtenerActividadesPorOfertante`: only a provider whose id equals the
   * path id may list; the answer holds exactly that provider's activities,
   * each with exactly its own enrollments.
   */
  function ObtenerActividadesPorOfertante(
    acts: map<int, Actividad>, ins: map<int, Inscripcion>, users: map<int, Usuario>, user: Claims, id: string)
    : (r: Result<map<int, ActividadConInscritos>, OwnerListError>)
    ensures r.Err? <==> user.tipousuario != "ofertante" || ParseInt(id) != Finite(user.idusuario)
    ensures r.Ok? ==> forall a :: a in r.value <==> a in acts && acts[a].idofertante == user.idusuario
    ensures r.Ok? ==> forall a :: a in r.value ==> r.value[a].actividad == acts[a]
    ensures r.Ok? ==> forall a, k :: a in r.value && k in r.value[a].inscritos ==>
      k in ins && ins[k].idactividad == a && r.value[a].inscritos[k] == InscritoOf(ins[k], users)
    ensures r.Ok? ==> forall a, k :: a in r.value && k in ins && ins[k].idactividad == a ==>
      k in r.value[a].inscritos
  {
    if user.tipousuario != "ofertante" || ParseInt(id) != Finite(user.idusuario) then
      Err(NotOwnerOfList)
    else
      Ok(map a | a in acts && acts[a].idofertante == user.idusuario ::
        ActividadConInscritos(acts[a],
          map k | k in ins && ins[k].idactividad == a :: InscritoOf(ins[k], users)))
  }

  /**
   * The capacity bound is enforced only when enrolling: an update that
   * lowers `plazas` below the current enrollments is accepted and leaves an
   * activity over capacity.
   */
  lemma UpdateCanExceedCapacity()
    ensures exists acts: map<int, Actividad>, ins: map<int, Inscripcion>, body: ActividadBody ::
      1 in acts && WellFormed(acts[1])
      && Inscripciones.WithinCapacity(acts, ins)
      && !Inscripciones.WithinCapacity(acts[1 := Merge(body, acts[1])], ins)
  {
    var a := Actividad(Str("Kayak"), Null, Null, Null, Null, Null, Num(2), Null, Null, 7);
    var acts := map[1 := a];
    var ins := map[1 := Inscripcion(Null, 10, 1), 2 := Inscripcion(Null, 11, 1)];
    var body := ActividadBody(Undefined, Undefined, Undefined, Undefined, Undefined,
                              Undefined, Num(1), Undefined, Undefined);
    assert (set k | k in ins && ins[k].idactividad == 1) == {1, 2};
    assert Seats(ins, 1) == 2;
    assert Inscripciones.WithinCapacity(acts, ins);
    assert !Inscripciones.WithinCapacity(acts[1 := Merge(body, acts[1])], ins);
  }
}

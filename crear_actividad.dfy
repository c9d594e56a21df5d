/**
 * The create-activity page: the form's initial state, its submit handler
 * (validate, stop on any error, otherwise post the payload) and the payload
 * it posts.
 */
module CrearActividad {
  import opened Wrappers
  import opened Js
  import opened Text
  import opened Calendar
  import opened Tipos
  import opened ActivityForm
  import Actividades
  import ActividadesRoutes

  const Mensajes := Messages(
    "Este campo es obligatorio",
    "Selecciona un tipo v\U{00E1}lido de la lista",
    "La fecha debe ser al menos un dia despues de hoy",
    "El a\U{00F1}o debe ser el actual o como m\U{00E1}ximo dos a\U{00F1}os m\U{00E1}s",
    "La hora de fin debe ser despues de la hora de inicio")

  /** The empty form; availability starts as "abierta". */
  const Initial := Form("", "", "", "", "abierta", Str(""), Str(""), "", "")

  /** `x ? Number(x) : null`, as sent. */
  function NumberOrNull(v: Value): (r: Value)
    ensures r == Null || r.Num?
    ensures !Truthy(v) ==> r == Null
    ensures Truthy(v) && ToNumber(v).Finite? ==> r == Num(ToNumber(v).n)
    ensures Truthy(v) && ToNumber(v).NotFinite? ==> r == Null
  {
    if Truthy(v) then Json(ToNumberValue(v)) else Null
  }

  /**
   * The body posted: text fields as typed, `tipo` trimmed, an empty date as
   * null, and `precio` / `plazas` as numbers or null.
   */
  function CreatePayload(form: Form): (b: Actividades.ActividadBody)
    ensures b.tipo == Str(Trim(form.tipo))
    ensures b.fecha == if form.fecha == "" then Null else Str(form.fecha)
    ensures b.precio == NumberOrNull(form.precio) && b.plazas == NumberOrNull(form.plazas)
    ensures b.titulo == Str(form.titulo) && b.descripcion == Str(form.descripcion)
    ensures b.disponibilidad == Str(form.disponibilidad)
    ensures b.horainicio == Str(form.horainicio) && b.horafin == Str(form.horafin)
  {
    Actividades.ActividadBody(
      Str(form.titulo), Str(form.descripcion), Str(Trim(form.tipo)),
      if form.fecha == "" then Null else Str(form.fecha),
      Str(form.disponibilidad), NumberOrNull(form.precio), NumberOrNull(form.plazas),
      Str(form.horainicio), Str(form.horafin))
  }

  datatype Submission = Blocked(errors: map<Field, string>) | Posted(body: Actividades.ActividadBody)

  /** `handleSubmit`: nothing is posted while any field has an error. */
  method HandleSubmit(form: Form, today: Date) returns (s: Submission)
    requires ValidDate(today)
    ensures s.Blocked? <==> Errors(form, today, Mensajes) != map[]
    ensures s.Blocked? ==> s.errors == Errors(form, today, Mensajes)
    ensures s.Posted? ==> s.body == CreatePayload(form)
  {
    var errors := Validate(form, today, Mensajes);
    if |errors| > 0 {
      return Blocked(errors);
    }
    return Posted(CreatePayload(form));
  }

  /**
   * What the page posts passes the server's rules for the title, the text
   * fields, the type and both times, and the controller's time order: the
   * type reaches the server exactly as listed.
   */
  lemma PostedBodyPassesServer(form: Form, today: Date)
    requires ValidDate(today)
    requires Errors(form, today, Mensajes) == map[]
    ensures var b := CreatePayload(form);
      && b.tipo == Str(form.tipo)
      && ActividadesRoutes.TituloPost(b.titulo) == {}
      && ActividadesRoutes.TextRule("descripcion", b.descripcion, ActividadesRoutes.DescripcionTexto) == {}
      && ActividadesRoutes.TextRule("disponibilidad", b.disponibilidad, ActividadesRoutes.DisponibilidadTexto) == {}
      && ActividadesRoutes.TipoPost(b.tipo) == {}
      && ActividadesRoutes.HoraPost("horainicio", b.horainicio, ActividadesRoutes.HoraInicioObligatoria) == {}
      && ActividadesRoutes.HoraPost("horafin", b.horafin, ActividadesRoutes.HoraFinObligatoria) == {}
      && Actividades.TimesOrdered(Actividades.NormalizeTime(b.horainicio), Actividades.NormalizeTime(b.horafin))
  {
    AcceptedFormIsComplete(form, today, Mensajes);
    AllowedTiposUnpadded(form.tipo);
    assert !Missing(Get(form, Titulo)) by { AllFieldsRequired(Titulo); }
  }

  /** The decimal form of a negative number is its own trim. */
  lemma NegativeDecimalUnpadded(n: int)
    requires n < 0
    ensures Trim(DecimalString(n)) == DecimalString(n)
  {
    var s := DecimalString(n);
    var d := NatString(-n);
    assert s == "-" + d;
    assert IsDigit(d[|d| - 1]);
    assert s[|s| - 1] == d[|d| - 1];
    TrimUnpadded(s);
  }

  /**
   * The page only asks for `plazas` to be filled: a negative number passes
   * it, and the server's `min: 1` rule then refuses the number it receives.
   */
  lemma NegativePlazasRefusedByServer(n: int)
    requires n < 0
    ensures !Missing(Str(DecimalString(n)))
    ensures NumberOrNull(Str(DecimalString(n))) == Num(n)
    ensures ActividadesRoutes.PlazasRule(Num(n)) != {}
  {
    DecimalStringLiteral(n);
    NegativeDecimalUnpadded(n);
    ActividadesRoutes.NegativePlazasRejected(n);
  }
}

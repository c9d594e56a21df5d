/**
 * The request rules the activity routes run before the controller: each
 * rule looks at one field's value (through express-validator's string form
 * for the standard checks) and adds its message when it fails. POST makes
 * the title, the type and both times required; PUT makes every field
 * optional, and falsy values skip their rules. `fecha` goes through
 * `isISO8601` and `new Date(v)`, which are passed in as functions.
 */
module ActividadesRoutes {
  import opened Wrappers
  import opened Js
  import opened Text
  import opened Calendar
  import opened Tipos
  import opened Tables
  import opened Actividades
  import Inscripciones

  /** One entry of the 400 answer: the field and its message. */
  datatype FieldError = FieldError(campo: string, mensaje: string)

  const TituloObligatorio := "El titulo es obligatorio"
  const TituloVacio := "El titulo no puede estar vacio"
  const DescripcionTexto := "La descripcion debe ser texto"
  const TipoObligatorio := "El tipo es obligatorio"
  const TipoInvalido := "El tipo debe ser uno de los valores permitidos"
  const FechaFormatoPost := "La fecha debe tener formato valido YYYY-MM-DD"
  const FechaFormatoPut := "La fecha debe tener un formato valido YYYY-MM-DD"
  const FechaAnio := "El a\U{00F1}o debe ser el actual o como m\U{00E1}ximo dos a\U{00F1}os m\U{00E1}s"
  const DisponibilidadTexto := "La disponibilidad debe ser texto"
  const HoraInicioObligatoria := "La hora de inicio es obligatoria"
  const HoraFinObligatoria := "La hora de fin es obligatoria"
  const HoraFormato := "Formato de hora invalido (HH:MM o HH:MM:SS)"
  const PlazasInvalidas := "Las plazas deben ser un numero entero mayor o igual a 1"
  const IdActividadInvalido := "El id de actividad debe ser un numero entero valido"
  const IdOfertanteInvalido := "El id de ofertante debe ser un numero entero valido"

  /** `isInt({ min })`: the string form is an optional sign and digits, worth at least `min`. */
  predicate IsIntAtLeast(v: Value, min: int) {
    IntLiteral(ValidatorString(v)).Some? && IntLiteral(ValidatorString(v)).value >= min
  }

  /** `matches(timeRegex)` on the string form. */
  predicate MatchesTime(v: Value) {
    TimeShape(ValidatorString(v))
  }

  /** The `tipo` sanitizer: strings are trimmed, anything else is left as it is. */
  function SanitizeTipo(v: Value): Value {
    if v.Str? then Str(Trim(v.s)) else v
  }

  /** `allowedTipos.includes(v)`: strict equality, so only a string can be listed. */
  predicate TipoAllowed(v: Value) {
    v.Str? && v.s in AllowedTipos
  }

  /** The year window: from the current year to two years after it. */
  predicate InYearWindow(year: Option<int>, currentYear: int) {
    year.Some? && currentYear <= year.value <= currentYear + 2
  }

  /** A rule that fails adds its message for the field. */
  function Fails(campo: string, failed: bool, mensaje: string): set<FieldError> {
    if failed then {FieldError(campo, mensaje)} else {}
  }

  /** `optional({ checkFalsy: true, nullable: true })`: a falsy value skips the whole chain. */
  function Optional(v: Value, errs: set<FieldError>): set<FieldError> {
    if Truthy(v) then errs else {}
  }

  /** POST `titulo`: `notEmpty`. */
  function TituloPost(v: Value): (errs: set<FieldError>)
    ensures errs == {} <==> ValidatorString(v) != ""
    ensures !Truthy(v) && !v.Num? && !v.Bool? ==> errs == {FieldError("titulo", TituloObligatorio)}
  {
    Fails("titulo", ValidatorString(v) == "", TituloObligatorio)
  }

  /**
   * PUT `titulo`: `notEmpty` after `optional` with `checkFalsy`. Every truthy
   * value has a non-empty string form, so this rule never fails.
   */
  function TituloPut(v: Value): (errs: set<FieldError>)
    ensures errs == {}
  {
    Optional(v, Fails("titulo", ValidatorString(v) == "", TituloVacio))
  }

  /** `descripcion` and `disponibilidad`: optional, and `isString` when present. */
  function TextRule(campo: string, v: Value, mensaje: string): (errs: set<FieldError>)
    ensures errs == {} <==> !Truthy(v) || v.Str?
  {
    Optional(v, Fails(campo, !v.Str?, mensaje))
  }

  /** POST `tipo`: `notEmpty`, then the trim sanitizer, then membership in the list. */
  function TipoPost(v: Value): (errs: set<FieldError>)
    ensures errs == {} <==> TipoAllowed(SanitizeTipo(v))
    ensures ValidatorString(v) == "" ==>
      errs == {FieldError("tipo", TipoObligatorio), FieldError("tipo", TipoInvalido)}
  {
    Fails("tipo", ValidatorString(v) == "", TipoObligatorio)
    + Fails("tipo", !TipoAllowed(SanitizeTipo(v)), TipoInvalido)
  }

  /** PUT `tipo`: optional; a present one is trimmed and must be listed. */
  function TipoPut(v: Value): (errs: set<FieldError>)
    ensures errs == {} <==> !Truthy(v) || TipoAllowed(SanitizeTipo(v))
  {
    Optional(v, Fails("tipo", !TipoAllowed(SanitizeTipo(v)), TipoInvalido))
  }

  /**
   * `fecha`: optional; a present one must pass `isISO8601` and the year
   * `new Date(v)` gives must be in the window (an Invalid Date has no year).
   */
  function FechaRule(v: Value, mensaje: string, currentYear: int,
                     isIso8601: string -> bool, yearOf: Value -> Option<int>): (errs: set<FieldError>)
    ensures errs == {} <==> !Truthy(v) || (isIso8601(ValidatorString(v)) && InYearWindow(yearOf(v), currentYear))
    ensures Truthy(v) && !InYearWindow(yearOf(v), currentYear) ==> FieldError("fecha", FechaAnio) in errs
  {
    Optional(v, Fails("fecha", !isIso8601(ValidatorString(v)), mensaje)
                + Fails("fecha", !InYearWindow(yearOf(v), currentYear), FechaAnio))
  }

  /** POST `horainicio` / `horafin`: `notEmpty` and the time pattern. */
  function HoraPost(campo: string, v: Value, obligatoria: string): (errs: set<FieldError>)
    ensures errs == {} <==> MatchesTime(v)
    ensures ValidatorString(v) == "" ==>
      errs == {FieldError(campo, obligatoria), FieldError(campo, HoraFormato)}
  {
    Fails(campo, ValidatorString(v) == "", obligatoria) + Fails(campo, !MatchesTime(v), HoraFormato)
  }

  /** PUT `horainicio` / `horafin`: optional, then the time pattern. */
  function HoraPut(campo: string, v: Value): (errs: set<FieldError>)
    ensures errs == {} <==> !Truthy(v) || MatchesTime(v)
  {
    Optional(v, Fails(campo, !MatchesTime(v), HoraFormato))
  }

  /** `plazas`: optional; a present one must be an integer of at least 1. */
  function PlazasRule(v: Value): (errs: set<FieldError>)
    ensures errs == {} <==> !Truthy(v) || IsIntAtLeast(v, 1)
  {
    Optional(v, Fails("plazas", !IsIntAtLeast(v, 1), PlazasInvalidas))
  }

  /** A negative number of places fails `isInt({ min: 1 })`. */
  lemma NegativePlazasRejected(n: int)
    requires n < 0
    ensures PlazasRule(Num(n)) != {}
  {
    DecimalStringLiteral(n);
  }

  /** Every `:id` path parameter: `isInt({ min: 1 })`. */
  function IdRule(id: string, mensaje: string): (errs: set<FieldError>)
    ensures errs == {} <==> IsIntAtLeast(Str(id), 1)
  {
    Fails("id", !IsIntAtLeast(Str(id), 1), mensaje)
  }

  /** What the rules answer: the failed rules, and the body as sanitized for the controller. */
  datatype Checked = Checked(errors: set<FieldError>, body: ActividadBody)

  /** The POST body the rules let through, field by field. */
  predicate PostAccepted(b: ActividadBody, currentYear: int, isIso8601: string -> bool, yearOf: Value -> Option<int>) {
    && ValidatorString(b.titulo) != ""
    && (!Truthy(b.descripcion) || b.descripcion.Str?)
    && TipoAllowed(SanitizeTipo(b.tipo))
    && (!Truthy(b.fecha) || (isIso8601(ValidatorString(b.fecha)) && InYearWindow(yearOf(b.fecha), currentYear)))
    && (!Truthy(b.disponibilidad) || b.disponibilidad.Str?)
    && MatchesTime(b.horainicio) && MatchesTime(b.horafin)
    && (!Truthy(b.plazas) || IsIntAtLeast(b.plazas, 1))
  }

  /** The PUT body the rules let through: every present field is checked, none is required. */
  predicate PutAccepted(b: ActividadBody, currentYear: int, isIso8601: string -> bool, yearOf: Value -> Option<int>) {
    && (!Truthy(b.descripcion) || b.descripcion.Str?)
    && (!Truthy(b.tipo) || TipoAllowed(SanitizeTipo(b.tipo)))
    && (!Truthy(b.fecha) || (isIso8601(ValidatorString(b.fecha)) && InYearWindow(yearOf(b.fecha), currentYear)))
    && (!Truthy(b.disponibilidad) || b.disponibilidad.Str?)
    && (!Truthy(b.horainicio) || MatchesTime(b.horainicio))
    && (!Truthy(b.horafin) || MatchesTime(b.horafin))
    && (!Truthy(b.plazas) || IsIntAtLeast(b.plazas, 1))
  }

  /** `POST /actividades`: all rules together; the controller receives the trimmed `tipo`. */
  function PostRules(b: ActividadBody, currentYear: int, isIso8601: string -> bool, yearOf: Value -> Option<int>)
    : (c: Checked)
    ensures c.errors == {} <==> PostAccepted(b, currentYear, isIso8601, yearOf)
    ensures c.body == b.(tipo := SanitizeTipo(b.tipo))
  {
    Checked(
      TituloPost(b.titulo)
      + TextRule("descripcion", b.descripcion, DescripcionTexto)
      + TipoPost(b.tipo)
      + FechaRule(b.fecha, FechaFormatoPost, currentYear, isIso8601, yearOf)
      + TextRule("disponibilidad", b.disponibilidad, DisponibilidadTexto)
      + HoraPost("horainicio", b.horainicio, HoraInicioObligatoria)
      + HoraPost("horafin", b.horafin, HoraFinObligatoria)
      + PlazasRule(b.plazas),
      b.(tipo := SanitizeTipo(b.tipo)))
  }

  /** `PUT /actividades/:id`: the id rule and all optional field rules. */
  function PutRules(id: string, b: ActividadBody, currentYear: int,
                    isIso8601: string -> bool, yearOf: Value -> Option<int>): (c: Checked)
    ensures c.errors == {} <==> IsIntAtLeast(Str(id), 1) && PutAccepted(b, currentYear, isIso8601, yearOf)
    ensures c.body == (if Truthy(b.tipo) then b.(tipo := SanitizeTipo(b.tipo)) else b)
  {
    Checked(
      IdRule(id, IdActividadInvalido)
      + TituloPut(b.titulo)
      + TextRule("descripcion", b.descripcion, DescripcionTexto)
      + TipoPut(b.tipo)
      + FechaRule(b.fecha, FechaFormatoPut, currentYear, isIso8601, yearOf)
      + TextRule("disponibilidad", b.disponibilidad, DisponibilidadTexto)
      + HoraPut("horainicio", b.horainicio)
      + HoraPut("horafin", b.horafin)
      + PlazasRule(b.plazas),
      if Truthy(b.tipo) then b.(tipo := SanitizeTipo(b.tipo)) else b)
  }

  predicate TwoDigits(p: string) {
    |p| == 2 && IsDigit(p[0]) && IsDigit(p[1])
  }

  /** Two digits, a colon and two digits (and optionally a colon and two more) match the time pattern. */
  lemma TimePatternAccepts(h: string, m: string, x: Option<string>)
    requires TwoDigits(h) && TwoDigits(m) && (x.Some? ==> TwoDigits(x.value))
    ensures TimeShape(if x.Some? then h + ":" + m + ":" + x.value else h + ":" + m)
  {
    var s := if x.Some? then h + ":" + m + ":" + x.value else h + ":" + m;
    assert s[0] == h[0] && s[1] == h[1] && s[2] == ':' && s[3] == m[0] && s[4] == m[1];
    if x.Some? {
      assert s[5] == ':' && s[6] == x.value[0] && s[7] == x.value[1];
    }
  }

  /** Conversely, every string the time pattern accepts is built that way. */
  lemma TimePatternParts(s: string)
    requires TimeShape(s)
    ensures TwoDigits(s[..2]) && s[2] == ':' && TwoDigits(s[3..5])
    ensures |s| == 5 ==> s == s[..2] + ":" + s[3..5]
    ensures |s| == 8 ==> TwoDigits(s[6..8]) && s == s[..2] + ":" + s[3..5] + ":" + s[6..8]
  {
    assert IsDigit(s[0]) && IsDigit(s[1]) && IsDigit(s[3]) && IsDigit(s[4]);
    if |s| == 8 {
      assert IsDigit(s[6]) && IsDigit(s[7]);
    }
  }

  /** Only a string can match the time pattern: numbers and booleans never do. */
  lemma MatchesTimeIsString(v: Value)
    requires MatchesTime(v)
    ensures v.Str? && TimeShape(v.s)
  {
  }

  /**
   * An id the route accepts reaches the controller's `parseInt` as the same
   * positive integer, so the controller's not-a-number branch cannot be
   * reached through the route.
   */
  lemma AcceptedIdParses(id: string)
    requires IdRule(id, IdActividadInvalido) == {}
    ensures ParseInt(id) == Finite(IntLiteral(id).value) && IntLiteral(id).value >= 1
  {
    ParseIntOfLiteral(id);
  }

  /** A listed type with whitespace around it passes POST and reaches the controller trimmed. */
  lemma PaddedTipoAccepted(p: string, t: string, q: string)
    requires t in AllowedTipos
    requires forall i :: 0 <= i < |p| ==> IsSpace(p[i])
    requires forall i :: 0 <= i < |q| ==> IsSpace(q[i])
    ensures TipoPost(Str(p + t + q)) == {} && TipoPut(Str(p + t + q)) == {}
    ensures SanitizeTipo(Str(p + t + q)) == Str(t)
  {
    PaddedTipoTrims(p, t, q);
  }

  /**
   * PUT with `titulo: ""` passes the rules (the empty string is falsy) and the
   * controller's `??` merge keeps it, so the stored title becomes empty.
   */
  lemma EmptyTitleUpdateStored(b: ActividadBody, a: Actividad)
    requires WellFormed(a) && b.titulo == Str("")
    ensures TituloPut(b.titulo) == {}
    ensures Merge(b, a).titulo == Str("")
  {
  }

  /**
   * `plazas: 0` is falsy, so POST skips its `min: 1` rule; the row stores 0
   * seats and no enrollment in it can ever find a seat.
   */
  lemma ZeroPlazasAccepted(b: ActividadBody, idofertante: int, ins: map<int, Inscripcion>, key: int)
    requires b.plazas == Num(0)
    ensures PlazasRule(b.plazas) == {}
    ensures NewRow(b, idofertante).plazas == Num(0)
    ensures !Inscripciones.HasSeat(ins, key, NewRow(b, idofertante).plazas)
  {
  }

  /** A PUT with no fields at all passes every rule, and the merge then leaves the row as it was. */
  lemma EmptyPutAccepted(id: string, a: Actividad, currentYear: int,
                         isIso8601: string -> bool, yearOf: Value -> Option<int>)
    requires IsIntAtLeast(Str(id), 1) && WellFormed(a)
    ensures var none := ActividadBody(Undefined, Undefined, Undefined, Undefined, Undefined,
                                      Undefined, Undefined, Undefined, Undefined);
            PutRules(id, none, currentYear, isIso8601, yearOf).errors == {}
            && Merge(none, a) == a
  {
    MergeAbsentIsIdentity(a);
  }
}

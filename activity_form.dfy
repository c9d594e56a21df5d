/**
 * The activity form both client pages use (create and edit): its fields,
 * the validation that fills an error per field, and the change handler
 * that clears one field's error. The two pages differ only in the wording
 * of two messages, so the messages are a parameter.
 */
module ActivityForm {
  import opened Wrappers
  import opened Js
  import opened Text
  import opened Calendar
  import opened Tipos

  datatype Field = Titulo | Descripcion | Tipo | Fecha | Disponibilidad | Precio | Plazas | Horainicio | Horafin

  /**
   * The form state. Inputs hold strings; `precio` and `plazas` may also hold
   * the number an activity loaded from the server carries.
   */
  datatype Form = Form(
    titulo: string, descripcion: string, tipo: string, fecha: string, disponibilidad: string,
    precio: Value, plazas: Value, horainicio: string, horafin: string)

  /** `form[field]`. */
  function Get(form: Form, f: Field): Value {
    match f
    case Titulo => Str(form.titulo)
    case Descripcion => Str(form.descripcion)
    case Tipo => Str(form.tipo)
    case Fecha => Str(form.fecha)
    case Disponibilidad => Str(form.disponibilidad)
    case Precio => form.precio
    case Plazas => form.plazas
    case Horainicio => Str(form.horainicio)
    case Horafin => Str(form.horafin)
  }

  /** `{ ...form, [name]: value }`: one input changed. */
  function Set(form: Form, f: Field, value: string): (r: Form)
    ensures Get(r, f) == Str(value)
    ensures forall g :: g != f ==> Get(r, g) == Get(form, g)
  {
    match f
    case Titulo => form.(titulo := value)
    case Descripcion => form.(descripcion := value)
    case Tipo => form.(tipo := value)
    case Fecha => form.(fecha := value)
    case Disponibilidad => form.(disponibilidad := value)
    case Precio => form.(precio := Str(value))
    case Plazas => form.(plazas := Str(value))
    case Horainicio => form.(horainicio := value)
    case Horafin => form.(horafin := value)
  }

  /** Every field is required, in this order. */
  const RequiredFields: seq<Field> :=
    [Titulo, Descripcion, Tipo, Fecha, Disponibilidad, Precio, Plazas, Horainicio, Horafin]

  datatype Messages = Messages(required: string, tipo: string, tooSoon: string, year: string, order: string)

  /** `!value && value !== 0`: empty, except that the number zero counts as filled. */
  predicate Missing(v: Value) {
    !Truthy(v) && v != Num(0)
  }

  /** `Date.parse` of `date + "T" + time`: the day and the second of that day; None for NaN. */
  function ParseDateTime(s: string): Option<(Date, int)> {
    if |s| >= 11 && s[10] == 'T' then
      match (ParseIsoDate(s[..10]), ParseTimeOfDay(s[11..]))
      case (Some(d), Some(t)) => Some((d, t))
      case _ => None
    else
      None
  }

  /** `start >= end` on two timestamps. */
  predicate AtOrAfter(a: (Date, int), b: (Date, int)) {
    Before(b.0, a.0) || (a.0 == b.0 && a.1 >= b.1)
  }

  /** Joining a date and a time with "T" parses exactly when both parts do, to those parts. */
  lemma DateTimeOfParts(fecha: string, time: string)
    ensures ParseDateTime(fecha + "T" + time) ==
      if ParseIsoDate(fecha).Some? && ParseTimeOfDay(time).Some? then
        Some((ParseIsoDate(fecha).value, ParseTimeOfDay(time).value))
      else
        None
  {
    var s := fecha + "T" + time;
    if |fecha| == 10 {
      assert s[..10] == fecha && s[11..] == time;
    } else if |fecha| < 10 {
      if |s| >= 11 {
        assert s[..10][|fecha|] == 'T';
      }
    } else if s[10] == 'T' {
      assert s[11..][|fecha| - 11] == 'T';
    }
  }

  /**
   * `isNaN(start) || isNaN(end) || start >= end` for `start` and `end` parsed
   * from the day joined with each time: it fails exactly when the day or a
   * time does not parse or the end is not after the start.
   */
  function EndNotAfterStart(fecha: string, horainicio: string, horafin: string): (bad: bool)
    ensures bad <==>
      !(ParseIsoDate(fecha).Some? && ParseTimeOfDay(horainicio).Some? && ParseTimeOfDay(horafin).Some?
        && ParseTimeOfDay(horainicio).value < ParseTimeOfDay(horafin).value)
  {
    DateTimeOfParts(fecha, horainicio);
    DateTimeOfParts(fecha, horafin);
    var start := ParseDateTime(fecha + "T" + horainicio);
    var end := ParseDateTime(fecha + "T" + horafin);
    start.None? || end.None? || AtOrAfter(start.value, end.value)
  }

  /** The chosen day is not after today. */
  predicate TooSoon(d: Date, today: Date)
    requires ValidDate(today)
  {
    Before(d, NextDay(today))
  }

  predicate OutsideYears(d: Date, today: Date) {
    d.year < today.year || d.year > today.year + 2
  }

  /** The day is valid, both times parse, and the end comes strictly after the start. */
  predicate TimesInOrder(form: Form) {
    && ParseIsoDate(form.fecha).Some?
    && ParseTimeOfDay(form.horainicio).Some? && ParseTimeOfDay(form.horafin).Some?
    && ParseTimeOfDay(form.horainicio).value < ParseTimeOfDay(form.horafin).value
  }

  /**
   * The message a field ends up with, if any. An empty field is required;
   * a filled `tipo` must be listed; a filled `fecha` that is a valid day
   * must fall in the year window (checked last, so its message wins) and be
   * after today; a filled `horafin` with a filled start and day must come
   * after the start on a valid day.
   */
  function ExpectedError(form: Form, today: Date, msgs: Messages, f: Field): Option<string>
    requires ValidDate(today)
  {
    match f
    case Tipo =>
      if form.tipo == "" then Some(msgs.required)
      else if form.tipo !in AllowedTipos then Some(msgs.tipo)
      else None
    case Fecha =>
      if form.fecha == "" then Some(msgs.required)
      else if ParseIsoDate(form.fecha).Some? && OutsideYears(ParseIsoDate(form.fecha).value, today) then
        Some(msgs.year)
      else if ParseIsoDate(form.fecha).Some? && TooSoon(ParseIsoDate(form.fecha).value, today) then
        Some(msgs.tooSoon)
      else None
    case Horafin =>
      if form.horafin == "" then Some(msgs.required)
      else if form.horainicio != "" && form.fecha != "" && !TimesInOrder(form) then Some(msgs.order)
      else None
    case _ =>
      if Missing(Get(form, f)) then Some(msgs.required) else None
  }

  /** The error dictionary the validation should produce: one entry per field that has a message. */
  function Errors(form: Form, today: Date, msgs: Messages): map<Field, string>
    requires ValidDate(today)
  {
    map f | f in RequiredFields && ExpectedError(form, today, msgs, f).Some? :: ExpectedError(form, today, msgs, f).value
  }

  /** `e` holds exactly the expected message for field `f`. */
  predicate Agrees(e: map<Field, string>, form: Form, today: Date, msgs: Messages, f: Field)
    requires ValidDate(today)
  {
    && (f in e <==> ExpectedError(form, today, msgs, f).Some?)
    && (f in e ==> e[f] == ExpectedError(form, today, msgs, f).value)
  }

  lemma AllFieldsRequired(f: Field)
    ensures f in RequiredFields
  {
    match f
    case Titulo => assert RequiredFields[0] == f;
    case Descripcion => assert RequiredFields[1] == f;
    case Tipo => assert RequiredFields[2] == f;
    case Fecha => assert RequiredFields[3] == f;
    case Disponibilidad => assert RequiredFields[4] == f;
    case Precio => assert RequiredFields[5] == f;
    case Plazas => assert RequiredFields[6] == f;
    case Horainicio => assert RequiredFields[7] == f;
    case Horafin => assert RequiredFields[8] == f;
  }

  /** `e` agrees with the expected messages on every field outside `pending`. */
  predicate AgreesExcept(e: map<Field, string>, form: Form, today: Date, msgs: Messages, pending: set<Field>)
    requires ValidDate(today)
  {
    forall f :: f !in pending ==> Agrees(e, form, today, msgs, f)
  }

  /** After the required-field pass only `tipo`, `fecha` and `horafin` can still disagree. */
  lemma MissingStep(form: Form, today: Date, msgs: Messages)
    requires ValidDate(today)
    ensures AgreesExcept(MissingErrors(form, RequiredFields, msgs), form, today, msgs, {Tipo, Fecha, Horafin})
  {
    forall f | f !in {Tipo, Fecha, Horafin}
      ensures Agrees(MissingErrors(form, RequiredFields, msgs), form, today, msgs, f)
    {
      AllFieldsRequired(f);
    }
  }

  /** The type check settles `tipo`. */
  lemma TipoStep(form: Form, today: Date, msgs: Messages, e: map<Field, string>)
    requires ValidDate(today)
    requires AgreesExcept(e, form, today, msgs, {Tipo, Fecha, Horafin})
    requires Tipo in e <==> form.tipo == ""
    requires Tipo in e ==> e[Tipo] == msgs.required
    ensures AgreesExcept(
      if form.tipo != "" && form.tipo !in AllowedTipos then e[Tipo := msgs.tipo] else e,
      form, today, msgs, {Fecha, Horafin})
  {
    var e' := if form.tipo != "" && form.tipo !in AllowedTipos then e[Tipo := msgs.tipo] else e;
    forall f | f !in {Fecha, Horafin} ensures Agrees(e', form, today, msgs, f) {
      if f != Tipo {
        assert Agrees(e, form, today, msgs, f);
      }
    }
  }

  /** The two date checks settle `fecha`. */
  lemma FechaStep(form: Form, today: Date, msgs: Messages, e: map<Field, string>)
    requires ValidDate(today)
    requires AgreesExcept(e, form, today, msgs, {Fecha, Horafin})
    requires Fecha in e <==> form.fecha == ""
    requires Fecha in e ==> e[Fecha] == msgs.required
    ensures var selected := ParseIsoDate(form.fecha);
      var e1 := if form.fecha != "" && selected.Some? && Before(selected.value, NextDay(today))
                then e[Fecha := msgs.tooSoon] else e;
      var e2 := if form.fecha != "" && selected.Some? && OutsideYears(selected.value, today)
                then e1[Fecha := msgs.year] else e1;
      AgreesExcept(e2, form, today, msgs, {Horafin})
  {
    var selected := ParseIsoDate(form.fecha);
    var e1 := if form.fecha != "" && selected.Some? && Before(selected.value, NextDay(today))
              then e[Fecha := msgs.tooSoon] else e;
    var e2 := if form.fecha != "" && selected.Some? && OutsideYears(selected.value, today)
              then e1[Fecha := msgs.year] else e1;
    forall f | f !in {Horafin} ensures Agrees(e2, form, today, msgs, f) {
      if f != Fecha {
        assert Agrees(e, form, today, msgs, f);
      }
    }
  }

  /** The time-order check settles `horafin`, and with it every field. */
  lemma HorafinStep(form: Form, today: Date, msgs: Messages, e: map<Field, string>)
    requires ValidDate(today)
    requires AgreesExcept(e, form, today, msgs, {Horafin})
    requires Horafin in e <==> form.horafin == ""
    requires Horafin in e ==> e[Horafin] == msgs.required
    ensures AgreesExcept(
      if form.horainicio != "" && form.horafin != "" && form.fecha != ""
         && EndNotAfterStart(form.fecha, form.horainicio, form.horafin)
      then e[Horafin := msgs.order] else e,
      form, today, msgs, {})
  {
    var e' := if form.horainicio != "" && form.horafin != "" && form.fecha != ""
                 && EndNotAfterStart(form.fecha, form.horainicio, form.horafin)
              then e[Horafin := msgs.order] else e;
    forall f ensures Agrees(e', form, today, msgs, f) {
      if f != Horafin {
        assert Agrees(e, form, today, msgs, f);
      }
    }
  }

  /** Two error dictionaries are the same when they agree on every field. */
  lemma ErrorsByField(form: Form, today: Date, msgs: Messages, e: map<Field, string>)
    requires ValidDate(today)
    requires AgreesExcept(e, form, today, msgs, {})
    ensures e == Errors(form, today, msgs)
  {
    var expected := Errors(form, today, msgs);
    forall f ensures f in e <==> f in expected {
      AllFieldsRequired(f);
      assert Agrees(e, form, today, msgs, f);
    }
    forall f | f in e ensures e[f] == expected[f] {
      AllFieldsRequired(f);
      assert Agrees(e, form, today, msgs, f);
    }
  }

  /** The required-field pass alone. */
  function MissingErrors(form: Form, fields: seq<Field>, msgs: Messages): map<Field, string> {
    map f | f in fields && Missing(Get(form, f)) :: msgs.required
  }

  /**
   * `validate` / `validateEdit`: mark every empty field, then overwrite the
   * entries of `tipo`, `fecha` (the too-soon message, then the year
   * message) and `horafin` as their checks fail.
   */
  method Validate(form: Form, today: Date, msgs: Messages) returns (errors: map<Field, string>)
    requires ValidDate(today)
    ensures errors == Errors(form, today, msgs)
  {
    errors := map[];
    var i := 0;
    while i < |RequiredFields|
      invariant 0 <= i <= |RequiredFields|
      invariant errors == MissingErrors(form, RequiredFields[..i], msgs)
    {
      var f := RequiredFields[i];
      if Missing(Get(form, f)) {
        errors := errors[f := msgs.required];
      }
      assert RequiredFields[..i + 1] == RequiredFields[..i] + [f];
      i := i + 1;
    }
    assert RequiredFields[..i] == RequiredFields;
    MissingStep(form, today, msgs);
    AllFieldsRequired(Tipo);
    AllFieldsRequired(Fecha);
    AllFieldsRequired(Horafin);
    TipoStep(form, today, msgs, errors);
    if form.tipo != "" && form.tipo !in AllowedTipos {
      errors := errors[Tipo := msgs.tipo];
    }
    FechaStep(form, today, msgs, errors);
    if form.fecha != "" {
      var selected := ParseIsoDate(form.fecha);
      if selected.Some? && Before(selected.value, NextDay(today)) {
        errors := errors[Fecha := msgs.tooSoon];
      }
      if selected.Some? && (selected.value.year < today.year || selected.value.year > today.year + 2) {
        errors := errors[Fecha := msgs.year];
      }
    }
    HorafinStep(form, today, msgs, errors);
    if form.horainicio != "" && form.horafin != "" && form.fecha != ""
       && EndNotAfterStart(form.fecha, form.horainicio, form.horafin) {
      errors := errors[Horafin := msgs.order];
    }
    ErrorsByField(form, today, msgs, errors);
  }

  /**
   * A form with no errors is complete: every field is filled, the type is
   * listed, the day is after today and within the year window, and the end
   * time is after the start time.
   */
  lemma AcceptedFormIsComplete(form: Form, today: Date, msgs: Messages)
    requires ValidDate(today)
    requires Errors(form, today, msgs) == map[]
    ensures forall f :: f in RequiredFields ==> !Missing(Get(form, f))
    ensures form.tipo in AllowedTipos
    ensures ParseIsoDate(form.fecha).Some?
    ensures var d := ParseIsoDate(form.fecha).value;
            Before(today, d) && today.year <= d.year <= today.year + 2
    ensures TimesInOrder(form)
  {
    forall f | f in RequiredFields ensures ExpectedError(form, today, msgs, f).None? {
      assert f !in Errors(form, today, msgs);
    }
    assert Tipo in RequiredFields && Fecha in RequiredFields;
    assert Horainicio in RequiredFields && Horafin in RequiredFields;
    assert !Missing(Get(form, Horainicio));
    assert ExpectedError(form, today, msgs, Horafin).None?;
    assert ExpectedError(form, today, msgs, Fecha).None?;
    assert ExpectedError(form, today, msgs, Tipo).None?;
    var d := ParseIsoDate(form.fecha).value;
    BeforeTomorrow(today, d);
  }

  /** A day in a past year is also too soon, and the year message is the one kept. */
  lemma YearMessageWins(form: Form, today: Date, msgs: Messages)
    requires ValidDate(today)
    requires ParseIsoDate(form.fecha).Some? && ParseIsoDate(form.fecha).value.year < today.year
    ensures TooSoon(ParseIsoDate(form.fecha).value, today)
    ensures Fecha in Errors(form, today, msgs) && Errors(form, today, msgs)[Fecha] == msgs.year
  {
    var d := ParseIsoDate(form.fecha).value;
    BeforeTomorrow(today, d);
    assert Fecha in RequiredFields;
  }

  /** `{ ...errors, [name]: "" }`: the changed field's error is emptied, every other entry is kept. */
  function ClearError(errors: map<Field, string>, f: Field): (r: map<Field, string>)
    ensures r.Keys == errors.Keys + {f} && r[f] == ""
    ensures forall g :: g in errors && g != f ==> r[g] == errors[g]
  {
    errors[f := ""]
  }

  /** `handleChange` / `handleEditChange`: the input's new value and its error cleared. */
  function ChangeField(form: Form, errors: map<Field, string>, f: Field, value: string)
    : (r: (Form, map<Field, string>))
    ensures Get(r.0, f) == Str(value) && forall g :: g != f ==> Get(r.0, g) == Get(form, g)
    ensures r.1 == ClearError(errors, f)
  {
    (Set(form, f, value), ClearError(errors, f))
  }
}

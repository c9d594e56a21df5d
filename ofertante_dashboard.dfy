/**
 * The provider dashboard's edit dialog: opening it on a listed activity
 * fills the form from the row, the change handler updates one input, and
 * saving validates the form and sends a PUT body in which every empty
 * input falls back to the activity's current value.
 */
module OfertanteDashboard {
  import opened Wrappers
  import opened Js
  import opened Text
  import opened Calendar
  import opened Tipos
  import opened Tables
  import opened ActivityForm
  import Actividades
  import ActividadesRoutes

  const EditMensajes := Messages(
    "Este campo es obligatorio",
    "Selecciona un tipo v\U{00E1}lido de la lista",
    "La fecha debe ser al menos un d\U{00ED}a despu\U{00E9}s de hoy",
    "El a\U{00F1}o debe ser el actual o como m\U{00E1}ximo dos a\U{00F1}os m\U{00E1}s",
    "La hora de fin debe ser despu\U{00E9}s de la hora de inicio")

  /** `toHHMM`: the first five characters of a string of at least five, otherwise "". */
  function ToHHMM(v: Value): (r: string)
    ensures r == "" || |r| == 5
    ensures r != "" ==> v.Str? && |v.s| >= 5 && r == v.s[..5]
    ensures v.Str? && |v.s| >= 5 ==> r == v.s[..5]
  {
    if v.Str? && |v.s| >= 5 then v.s[..5] else ""
  }

  /** The digits of a prefix read the same as in the whole string. */
  lemma {:induction false} NumberAtPrefix(s: string, k: nat, i: nat, n: nat)
    requires i + n <= k <= |s|
    ensures NumberAt(s[..k], i, n) == NumberAt(s, i, n)
    decreases n
  {
    if n > 0 {
      NumberAtPrefix(s, k, i, n - 1);
      assert s[..k][i + n - 1] == s[i + n - 1];
    }
  }

  /**
   * A stored `HH:MM` or `HH:MM:SS` time shows as `HH:MM`: the same hour and
   * minute, the seconds dropped.
   */
  lemma ToHHMMDropsSeconds(s: string)
    requires TimeShape(s) && FieldsInRange(s)
    ensures var h := ToHHMM(Str(s));
      && TimeShape(h) && |h| == 5 && FieldsInRange(h)
      && 0 <= ParseTimeOfDay(s).value - ParseTimeOfDay(h).value < 60
  {
    var h := s[..5];
    NumberAtPrefix(s, 5, 0, 2);
    NumberAtPrefix(s, 5, 3, 2);
    assert DigitsAt(h, 0, 2) by {
      forall k | 0 <= k < 2 ensures IsDigit(h[k]) {
        assert h[k] == s[k];
      }
    }
    assert DigitsAt(h, 3, 2) by {
      forall k | 3 <= k < 5 ensures IsDigit(h[k]) {
        assert h[k] == s[k];
      }
    }
    assert |s| == 8 ==> 0 <= NumberAt(s, 6, 1) && 0 <= NumberAt(s, 6, 2);
  }

  /** A text column as the input shows it: `v || ""`. */
  function ShownText(v: Value): (r: string)
    ensures v.Str? ==> r == v.s
    ensures !Truthy(v) ==> r == ""
  {
    if v.Str? then v.s else if Truthy(v) then ValidatorString(v) else ""
  }

  /** `act.fecha ? act.fecha.split("T")[0] : ""`: the day part of a timestamp. */
  function DatePart(v: Value): (r: string)
    ensures 'T' !in r
    ensures !Truthy(v) ==> r == ""
  {
    if v.Str? && v.s != "" then Split(v.s, 'T')[0] else ""
  }

  /** A day written without a `T`, alone or followed by a `T` and anything, gives that day back. */
  lemma DatePartOfTimestamp(day: string, rest: string)
    requires day != [] && 'T' !in day
    ensures DatePart(Str(day)) == day
    ensures DatePart(Str(day + "T" + rest)) == day
  {
    assert IndexOf(day, 'T') == |day|;
    var t := day + "T" + rest;
    var i := IndexOf(t, 'T');
    assert t[|day|] == 'T';
    assert forall k :: 0 <= k < |day| ==> t[k] == day[k];
    assert i == |day|;
    assert t[..i] == day;
  }

  /** `openEdit`: the form filled from a listed activity. */
  function OpenEdit(act: Actividad): (form: Form)
    ensures form.titulo == ShownText(act.titulo) && form.descripcion == ShownText(act.descripcion)
    ensures form.tipo == ShownText(act.tipo) && form.disponibilidad == ShownText(act.disponibilidad)
    ensures form.fecha == DatePart(act.fecha)
    ensures form.precio == Coalesce(act.precio, Str("")) && form.plazas == Coalesce(act.plazas, Str(""))
    ensures form.horainicio == ToHHMM(act.horainicio) && form.horafin == ToHHMM(act.horafin)
  {
    Form(ShownText(act.titulo), ShownText(act.descripcion), ShownText(act.tipo), DatePart(act.fecha),
         ShownText(act.disponibilidad), Coalesce(act.precio, Str("")), Coalesce(act.plazas, Str("")),
         ToHHMM(act.horainicio), ToHHMM(act.horafin))
  }

  /** `input !== "" ? Number(input) : current ?? null`, as sent. */
  function NumberOrCurrent(input: Value, current: Value): (r: Value)
    ensures r != Undefined
    ensures input != Str("") && ToNumber(input).Finite? ==> r == Num(ToNumber(input).n)
    ensures input != Str("") && ToNumber(input).NotFinite? ==> r == Null
    ensures input == Str("") ==> r == Coalesce(current, Null)
  {
    if input != Str("") then Json(ToNumberValue(input)) else Coalesce(current, Null)
  }

  /**
   * The PUT body `handleEditSave` builds: an empty title, description, day
   * or availability falls back to the current value, an empty type keeps the
   * current type and a filled one is sent trimmed, an empty price or places
   * keeps the current number, and an empty time is sent as null.
   */
  function EditPayload(form: Form, current: Actividad): (b: Actividades.ActividadBody)
    ensures b.titulo == (if form.titulo != "" then Str(form.titulo) else current.titulo)
    ensures b.descripcion == (if form.descripcion != "" then Str(form.descripcion) else current.descripcion)
    ensures b.tipo == (if form.tipo != "" then Str(Trim(form.tipo)) else current.tipo)
    ensures b.fecha == (if form.fecha != "" then Str(form.fecha) else if Truthy(current.fecha) then current.fecha else Null)
    ensures b.disponibilidad ==
      (if form.disponibilidad != "" then Str(form.disponibilidad)
       else if Truthy(current.disponibilidad) then current.disponibilidad else Null)
    ensures b.precio == NumberOrCurrent(form.precio, current.precio)
    ensures b.plazas == NumberOrCurrent(form.plazas, current.plazas)
    ensures b.horainicio == (if form.horainicio != "" then Str(form.horainicio) else Null)
    ensures b.horafin == (if form.horafin != "" then Str(form.horafin) else Null)
  {
    Actividades.ActividadBody(
      Or(Str(form.titulo), current.titulo),
      Or(Str(form.descripcion), current.descripcion),
      if form.tipo != "" then Str(Trim(form.tipo)) else current.tipo,
      Or(Or(Str(form.fecha), current.fecha), Null),
      Or(Or(Str(form.disponibilidad), current.disponibilidad), Null),
      NumberOrCurrent(form.precio, current.precio),
      NumberOrCurrent(form.plazas, current.plazas),
      Or(Str(form.horainicio), Null),
      Or(Str(form.horafin), Null))
  }

  datatype EditOutcome =
    | Invalid(errors: map<Field, string>)
    | Closed
    | Sent(id: int, body: Actividades.ActividadBody)

  /**
   * `handleEditSave`: any validation error stops the save; an activity no
   * longer in the list closes the dialog; otherwise the payload built
   * against the listed activity is sent for its id.
   */
  method HandleEditSave(form: Form, actividades: map<int, Actividad>, editing: int, today: Date)
    returns (o: EditOutcome)
    requires ValidDate(today)
    ensures o.Invalid? <==> Errors(form, today, EditMensajes) != map[]
    ensures o.Invalid? ==> o.errors == Errors(form, today, EditMensajes)
    ensures o == Closed <==> Errors(form, today, EditMensajes) == map[] && editing !in actividades
    ensures o.Sent? ==> editing in actividades && o == Sent(editing, EditPayload(form, actividades[editing]))
  {
    var errors := Validate(form, today, EditMensajes);
    if |errors| > 0 {
      return Invalid(errors);
    }
    if editing !in actividades {
      return Closed;
    }
    var current := actividades[editing];
    return Sent(editing, EditPayload(form, current));
  }

  /**
   * A saved edit passes the update route's type and time rules and the
   * controller's time check against the stored row: the new title, type,
   * day and times are the ones in the form.
   */
  lemma SentEditPassesServer(form: Form, current: Actividad, stored: Actividad, today: Date)
    requires ValidDate(today) && WellFormed(stored)
    requires Errors(form, today, EditMensajes) == map[]
    ensures var b := EditPayload(form, current);
      var m := Actividades.Merge(b, stored);
      && b.tipo == Str(form.tipo) && ActividadesRoutes.TipoPut(b.tipo) == {}
      && ActividadesRoutes.HoraPut("horainicio", b.horainicio) == {}
      && ActividadesRoutes.HoraPut("horafin", b.horafin) == {}
      && m.titulo == Str(form.titulo) && m.tipo == Str(form.tipo) && m.fecha == Str(form.fecha)
      && m.horainicio == Str(form.horainicio) && m.horafin == Str(form.horafin)
      && Actividades.TimesOrdered(m.horainicio, m.horafin)
  {
    AcceptedFormIsComplete(form, today, EditMensajes);
    AllowedTiposUnpadded(form.tipo);
    assert !Missing(Get(form, Titulo)) by { AllFieldsRequired(Titulo); }
  }

  /** A row the dialog shows without loss: what the listing returns for a saved activity. */
  predicate Reopenable(a: Actividad) {
    && (a.titulo == Null || a.titulo.Str?)
    && (a.descripcion == Null || a.descripcion.Str?)
    && (a.disponibilidad == Null || a.disponibilidad.Str?)
    && (a.tipo == Null || (a.tipo.Str? && Trim(a.tipo.s) == a.tipo.s))
    && (a.fecha == Null || (a.fecha.Str? && 'T' !in a.fecha.s))
    && (a.precio == Null || a.precio.Num?)
    && (a.plazas == Null || a.plazas.Num?)
    && (a.horainicio == Null || (a.horainicio.Str? && |a.horainicio.s| == 5))
    && (a.horafin == Null || (a.horafin.Str? && |a.horafin.s| == 5))
  }

  /** A text field shown in the dialog and saved untouched keeps its stored value. */
  lemma ReopenText(v: Value)
    requires v == Null || v.Str?
    ensures Coalesce(Or(Str(ShownText(v)), v), v) == v
  {
  }

  /** So does the day, shown without any time part. */
  lemma ReopenDay(v: Value)
    requires v == Null || (v.Str? && 'T' !in v.s)
    ensures Coalesce(Or(Or(Str(DatePart(v)), v), Null), v) == v
  {
    if v.Str? && v.s != "" {
      DatePartOfTimestamp(v.s, "");
    }
  }

  /** So does a number, shown as itself. */
  lemma ReopenNumber(v: Value)
    requires v == Null || v.Num?
    ensures Coalesce(NumberOrCurrent(Coalesce(v, Str("")), v), v) == v
  {
  }

  /** So does a time already written as `HH:MM`. */
  lemma ReopenTime(v: Value)
    requires v == Null || (v.Str? && |v.s| == 5)
    ensures Actividades.NormalizeTime(Coalesce(Or(Str(ToHHMM(v)), Null), v)) == v
  {
    if v.Str? {
      assert v.s[..5] == v.s;
    }
  }

  /** The texts and the type of a row saved untouched from the dialog. */
  lemma ReopenKeepsTexts(a: Actividad)
    requires WellFormed(a) && Reopenable(a)
    ensures var m := Actividades.Merge(EditPayload(OpenEdit(a), a), a);
      m.titulo == a.titulo && m.descripcion == a.descripcion
      && m.disponibilidad == a.disponibilidad && m.tipo == a.tipo
  {
    var m := Actividades.Merge(EditPayload(OpenEdit(a), a), a);
    assert m.titulo == a.titulo by { ReopenText(a.titulo); }
    assert m.descripcion == a.descripcion by { ReopenText(a.descripcion); }
    assert m.disponibilidad == a.disponibilidad by { ReopenText(a.disponibilidad); }
  }

  /** The day, the price and the places of a row saved untouched from the dialog. */
  lemma ReopenKeepsDayAndNumbers(a: Actividad)
    requires WellFormed(a) && Reopenable(a)
    ensures var m := Actividades.Merge(EditPayload(OpenEdit(a), a), a);
      m.fecha == a.fecha && m.precio == a.precio && m.plazas == a.plazas
  {
    var m := Actividades.Merge(EditPayload(OpenEdit(a), a), a);
    assert m.fecha == a.fecha by { ReopenDay(a.fecha); }
    assert m.precio == a.precio by { ReopenNumber(a.precio); }
    assert m.plazas == a.plazas by { ReopenNumber(a.plazas); }
  }

  /** The times of a row saved untouched from the dialog. */
  lemma ReopenKeepsTimes(a: Actividad)
    requires WellFormed(a) && Reopenable(a)
    ensures var m := Actividades.Merge(EditPayload(OpenEdit(a), a), a);
      m.horainicio == a.horainicio && m.horafin == a.horafin
  {
    var m := Actividades.Merge(EditPayload(OpenEdit(a), a), a);
    assert m.horainicio == a.horainicio by { ReopenTime(a.horainicio); }
    assert m.horafin == a.horafin by { ReopenTime(a.horafin); }
  }

  /**
   * Opening the dialog and saving it untouched writes the row back as it
   * was: every field the form shows empty falls back to the stored value.
   */
  lemma ReopenAndSaveKeepsRow(a: Actividad)
    requires WellFormed(a) && Reopenable(a)
    ensures Actividades.Merge(EditPayload(OpenEdit(a), a), a) == a
  {
    ReopenKeepsTexts(a);
    ReopenKeepsDayAndNumbers(a);
    ReopenKeepsTimes(a);
  }

  /** A stored activity with seconds in a time changes when saved from the dialog: the seconds are lost. */
  lemma ReopenDropsSeconds(a: Actividad)
    requires WellFormed(a)
    requires a.horainicio.Str? && |a.horainicio.s| == 8
    ensures Actividades.Merge(EditPayload(OpenEdit(a), a), a).horainicio == Str(a.horainicio.s[..5])
  {
  }
}

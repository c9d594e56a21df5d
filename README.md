# Activity booking: a Dafny model

This project models the core of a small booking application for leisure
activities in Seville. Providers (*ofertantes*) publish activities. Consumers
(*consumidores*) enroll in them. The model covers the backend and the client.

Backend:
- the enrollment, activity and user controllers, over the five tables
  `usuario`, `ofertante`, `consumidor`, `actividad` and `inscripcion`;
- the request-field rules of the activity routes;
- the bearer-token middleware and the two role guards.

Client:
- the route guard;
- the create-activity page: its validation and the body it posts;
- the provider dashboard's edit dialog: how it fills the form, validates,
  and builds the update body.

How each part is modelled:
- The tables belong to one object, `Tables.Db`. Each serial-keyed table is a
  `map` from key to row, each role table a `set` of user ids.
- Each controller call is one atomic method on that object. A rejected call
  leaves the tables unchanged, as the transaction or the early return does.
- The schema's constraints are the class invariant `Db.Valid()`, which every
  method keeps: unique emails, one enrollment per (consumer, activity) pair,
  disjoint roles, keys below their sequence, and activity rows as written.
- JavaScript values that cross the HTTP boundary are `Js.Value` (undefined,
  null, booleans, integers, NaN, strings). The model spells out the
  conversions the code relies on: truthiness, `??`, `||`, `Number`,
  `parseInt`, `trim`, `split`, and the string form express-validator checks.
- Dates are integer triples. Times of day are seconds. "Today" is a
  parameter.

Modules, one per source file or shared concept:

| module | models |
|---|---|
| `Wrappers`, `Js`, `Text`, `Calendar` | values, conversions, strings, dates and times |
| `Tables` | the schema and its constraints |
| `Inscripciones` | `Backend/src/controllers/inscripciones.controller.js` |
| `Actividades` | `Backend/src/controllers/actividades.controller.js` |
| `Usuarios` | `Backend/src/controllers/usuarios.controller.js` |
| `Tipos`, `ActividadesRoutes` | `Backend/src/routes/actividades.routes.js` |
| `AuthMiddleware` | `Backend/src/middleware/auth.middleware.js` |
| `ProtectedRoute` | `frontend/src/components/ProtectedRoute.jsx` |
| `ActivityForm` | the validation shared by `CrearActividad.jsx` and `OfertanteDashboard.jsx` |
| `CrearActividad` | `frontend/src/pages/CrearActividad.jsx` |
| `OfertanteDashboard` | `frontend/src/pages/OfertanteDashboard.jsx` |

Some behaviours of the code are worth knowing. Each is stated as a lemma:
- A NULL `plazas` converts to 0 and so refuses every enrollment. Only a
  value that `Number` cannot read means "no limit".
- An update may lower `plazas` below the number already enrolled
  (`Actividades.UpdateCanExceedCapacity`). So "enrollments never exceed
  capacity" is not an invariant of the whole system. What does hold is that
  enrolling never breaks it and cancelling never breaks it.
- The update route's title rule can never fail: `optional` with
  `checkFalsy` lets every falsy value through, and every truthy value is
  non-empty. So `titulo: ""` stores an empty title.
- `plazas: 0` is falsy. It skips the `min: 1` rule and produces an activity
  nobody can join.
- The create page accepts a negative number of places, which the server
  then refuses.
- Opening the edit dialog and saving it untouched writes the row back
  unchanged, except that a time stored with seconds loses them.
- A user whose role is neither provider nor consumer is sent by the client
  guard to the consumer dashboard, which sends them to itself again.

## Model

Source paths are relative to the repository root.

| member | source | states |
|---|---|---|
| `Js.Coalesce` | Backend/src/controllers/actividades.controller.js:203-214 | `a ?? b` is `b` exactly when `a` is null or undefined, and `a` otherwise |
| `Js.Or` | Backend/src/controllers/usuarios.controller.js:71 | `a \|\| b` is `a` when `a` is truthy and `b` otherwise, so it is truthy exactly when one of them is |
| `Js.DigitPrefix` | Backend/src/controllers/inscripciones.controller.js:143 | the digit run `parseInt` reads is all digits and maximal |
| `Js.NatString` | Backend/src/routes/actividades.routes.js:100-103 | the decimal form of a natural number is non-empty digits, reads back as the number, and has no leading zero |
| `Js.DecimalString` | Backend/src/routes/actividades.routes.js:100-103 | the string form of an integer is never empty |
| `Js.IntLiteral` | Backend/src/routes/actividades.routes.js:42 | a string is an integer literal exactly when it is `[-+]?[0-9]+`; its value is the digits' value, negated after `-` |
| `Js.DecimalStringLiteral` | Backend/src/routes/actividades.routes.js:100-103 | the string form of every integer is an integer literal with that value |
| `Js.ToNumber` | Backend/src/controllers/inscripciones.controller.js:41-42 | `Number(null)` is 0, `Number(undefined)` and `Number(NaN)` are not finite, a number is itself, a boolean is 1 or 0; a string is trimmed, and then "" is 0, an integer literal is its value and anything else is not finite |
| `Js.ToNumberValue` | frontend/src/pages/CrearActividad.jsx:100-101 | `Number(v)` is the number `Js.ToNumber` reads when that is finite, and NaN otherwise |
| `Js.ParseIntOfLiteral` | Backend/src/controllers/actividades.controller.js:135 | `parseInt` of a whole integer literal is its value |
| `Js.DigitPrefixAll` | Backend/src/controllers/actividades.controller.js:135 | in a string of digits `parseInt` reads all of it |
| `Js.ParseIntDecimal` | Backend/src/controllers/inscripciones.controller.js:143 | round trip: `parseInt(String(n), 10) === n` for every integer |
| `Js.SqlParam` | Backend/src/controllers/actividades.controller.js:74-80 | an undefined parameter is stored as NULL; any other value as itself |
| `Js.ParseInt` | Backend/src/controllers/inscripciones.controller.js:143 | `parseInt(id, 10)` is a number exactly when a digit follows the leading whitespace and optional sign, and its sign follows the `-` |
| `Js.PgTrim` | Backend/src/controllers/inscripciones.controller.js:30-33 | the text PostgreSQL's integer input reads: neither end is C whitespace, and text without such padding is kept |
| `Js.PgTrimPadded` | Backend/src/controllers/inscripciones.controller.js:30-33 | exactly the C-whitespace padding around a text is skipped |
| `Js.SqlInt` | Backend/src/controllers/inscripciones.controller.js:30-33 | a number within the int4 range is read as itself; a string is read only as the int4 integer literal it holds after C whitespace is skipped at both ends; anything else fails the statement |
| `Js.SqlIntDecimal` | Backend/src/controllers/inscripciones.controller.js:30-33 | every int4 integer sent as its decimal text, padded with C whitespace, is read back as itself |
| `Js.NoBreakSpaceIdRefused` | Backend/src/controllers/inscripciones.controller.js:30-33 | an id padded with a no-break space is 7 to JavaScript's `Number` but fails as integer input in the database |
| `Js.SqlKey` | Backend/src/controllers/inscripciones.controller.js:143-149 | `parseInt(id, 10)` bound as an integer key is read exactly when it is a number within the int4 range |
| `Js.OutOfRangeKey` | Backend/src/controllers/actividades.controller.js:135-154 | "3000000000" parses to a number but fails as an integer key |
| `Js.Json` | frontend/src/pages/OfertanteDashboard.jsx:190-191 | NaN travels as null; every other value travels unchanged |
| `Js.SqlText` | Backend/src/controllers/actividades.controller.js:57-59 | the text a parameter reaches SQL as: NULL for null and undefined, a string as itself, a number as its decimal form (which `parseInt` reads back), a boolean as "true" or "false" |
| `Js.ValidatorString` | Backend/src/routes/actividades.routes.js:54 | null, undefined and NaN are checked as ""; a string is checked as itself |
| `Text.LeadingSpaces` | Backend/src/controllers/usuarios.controller.js:71 | the count of leading whitespace is bounded by the length, covers only whitespace and is maximal |
| `Text.TrailingSpaces` | Backend/src/controllers/usuarios.controller.js:71 | the same at the end of the string |
| `Text.TrimStart` | Backend/src/controllers/inscripciones.controller.js:143 | `parseInt` skips exactly the leading whitespace: the result is a suffix that does not start with whitespace, and everything before it is whitespace |
| `Text.Trim` | Backend/src/controllers/usuarios.controller.js:71 | `trim()` is the middle slice between the leading and trailing whitespace, and starts and ends with non-whitespace |
| `Text.TrimIdempotent` | Backend/src/controllers/usuarios.controller.js:71 | trimming twice is trimming once |
| `Text.TrimPadded` | Backend/src/routes/actividades.routes.js:64 | whitespace around a string without edge whitespace is exactly what `trim()` removes |
| `Text.TrimUnpadded` | Backend/src/routes/actividades.routes.js:64 | a string without whitespace at either end is its own trim |
| `Text.LowerChar` | Backend/src/controllers/inscripciones.controller.js:47 | lower-casing moves an ASCII or Latin-1 capital (U+00C0 to U+00DE, except the sign U+00D7) to its small letter, 32 code points up, and leaves every other character alone |
| `Text.Lower` | Backend/src/controllers/inscripciones.controller.js:47 | `toLowerCase()` keeps the length and lowers each character |
| `Text.LowerIdempotent` | Backend/src/controllers/actividades.controller.js:57-63 | lowering twice is lowering once |
| `Text.IndexOf` | Backend/src/middleware/auth.middleware.js:7 | the first separator position: no separator before it, and the separator at it unless it is the end |
| `Text.Split` | Backend/src/middleware/auth.middleware.js:7 | `split(sep)` has at least one piece, no piece holds the separator, and joining the pieces gives the string back |
| `Text.SplitJoin` | Backend/src/middleware/auth.middleware.js:7 | splitting a join of separator-free pieces gives the pieces back |
| `Calendar.DaysInMonth` | frontend/src/pages/CrearActividad.jsx:66 | a month has 28 to 31 days |
| `Calendar.NextDay` | frontend/src/pages/CrearActividad.jsx:66 | `new Date(y, m, d + 1)` is a valid date after `d` |
| `Calendar.BeforeTomorrow` | frontend/src/pages/CrearActividad.jsx:66-69 | a date is before tomorrow exactly when it is not after today |
| `Calendar.ParseIsoDate` | frontend/src/pages/CrearActividad.jsx:64 | a date parses exactly when it has the `YYYY-MM-DD` shape and its digits name an existing calendar day, and then it is that day |
| `Calendar.ParseTimeOfDay` | Backend/src/controllers/actividades.controller.js:47-48 | a time parses exactly when it is `HH:MM` or `HH:MM:SS` with fields in range, giving hours × 3600 + minutes × 60 + seconds |
| `Calendar.TimeOf` | Backend/src/controllers/actividades.controller.js:46-54 | a string is read as the time `ParseTimeOfDay` gives it; any other value is no time |
| `Tables.SeatsInsert` | Backend/src/controllers/inscripciones.controller.js:64-84 | an insert adds one seat to its activity and none to the others |
| `Tables.SeatsRemove` | Backend/src/controllers/inscripciones.controller.js:163-165 | a delete frees one seat of its activity and none of the others |
| `Tables.InsertInscripcion` | Backend/src/controllers/inscripciones.controller.js:77-82 | the insert fails with a unique violation exactly when the key or the pair is taken, and otherwise keeps the pairs unique |
| `Tables.InsertUsuario` | Backend/src/controllers/usuarios.controller.js:23-28 | the insert fails with a unique violation exactly when the key or the email is taken, and otherwise keeps the emails unique |
| `AuthMiddleware.BearerToken` | Backend/src/middleware/auth.middleware.js:6-11 | a token is a non-empty piece without spaces; a missing or empty header yields none |
| `AuthMiddleware.BearerTokenPosition` | Backend/src/middleware/auth.middleware.js:7 | the token is the text between the header's first space and the next one |
| `AuthMiddleware.BearerRoundTrip` | Backend/src/middleware/auth.middleware.js:7 | `"Bearer " + token` yields the token back |
| `AuthMiddleware.Authenticate` | Backend/src/middleware/auth.middleware.js:5-23 | 401 without a token or with a rejected token, `req.user` untouched; otherwise `req.user` is the decoded payload |
| `AuthMiddleware.RequireOfertante` | Backend/src/middleware/auth.middleware.js:26-31 | passes exactly a present user with role "ofertante" |
| `AuthMiddleware.RequireConsumidor` | Backend/src/middleware/auth.middleware.js:34-39 | passes exactly a present user with role "consumidor" |
| `AuthMiddleware.GuardsExclusive` | Backend/src/middleware/auth.middleware.js:26-39 | no request passes both role guards |
| `AuthMiddleware.AuthStatus` | Backend/src/middleware/auth.middleware.js:9-21 | both authentication failures answer 401 |
| `Inscripciones.EnrollStatus` | Backend/src/controllers/inscripciones.controller.js:90-104 | every enrollment failure answers 400 except a failed statement, which answers 500 |
| `Inscripciones.Capacity` | Backend/src/controllers/inscripciones.controller.js:41-42 | a NULL capacity is 0, a number is itself, an unreadable value means no limit |
| `Inscripciones.InsertFailure` | Backend/src/controllers/inscripciones.controller.js:99-104 | a failed insert reports "already enrolled" exactly for a unique violation |
| `Inscripciones.CrearInscripcion` | Backend/src/controllers/inscripciones.controller.js:5-110 | checks in order: id present, consumer, activity, open, not enrolled, seat left; the first failure leaves the tables unchanged; success adds one row under a fresh id, dated with the given date or now; pairs stay unique and a finite capacity is never exceeded |
| `Inscripciones.CancelStatus` | Backend/src/controllers/inscripciones.controller.js:152-170 | not found answers 404, another consumer's enrollment 403, a failed statement 500 |
| `Inscripciones.CancelarInscripcion` | Backend/src/controllers/inscripciones.controller.js:141-172 | an id that is unparsable or outside the int4 range fails the statement, an unknown id is not found, another consumer's row is forbidden, with nothing changed; otherwise exactly that row is removed and capacity is kept |
| `Inscripciones.ObtenerInscripciones` | Backend/src/controllers/inscripciones.controller.js:113-138 | only the consumer asking for their own id may list; the answer holds exactly their enrollments, each joined with its activity's title, date and price |
| `Actividades.ActStatus` | Backend/src/controllers/actividades.controller.js:156-223 | not found answers 404, another provider's activity 403, a failed statement 500, every other refusal 400 |
| `Actividades.NormalizeTime` | Backend/src/controllers/actividades.controller.js:34-36 | "" and undefined become NULL; every other value is kept |
| `Actividades.NewRow` | Backend/src/controllers/actividades.controller.js:74-80 | the inserted row holds the body's fields, undefined ones as NULL, with normalised times and the creator as owner |
| `Actividades.NumericTitleMatchesText` | Backend/src/controllers/actividades.controller.js:57-59 | for every integer n and every stored row under any key, a numeric title n collides with a stored title that is its decimal text, and a text title collides with a stored numeric title n |
| `Actividades.NullTitleMatchesNothing` | Backend/src/controllers/actividades.controller.js:57-59 | a NULL or undefined title collides with no activity of any table |
| `Actividades.CrearActividad` | Backend/src/controllers/actividades.controller.js:22-90 | checks in order: title present, times ordered, title not taken ignoring case (both sides compared as the text sent to the database), creator is a provider; any failure changes nothing; success inserts the row under a fresh id |
| `Actividades.Merge` | Backend/src/controllers/actividades.controller.js:168-169 | each null or undefined field keeps its stored value; a present one replaces it; a time sent as "" becomes NULL |
| `Actividades.MergeAbsentIsIdentity` | Backend/src/controllers/actividades.controller.js:203-214 | a body with no fields leaves the row as it was |
| `Actividades.ActualizarActividad` | Backend/src/controllers/actividades.controller.js:133-225 | each refusal as an if-and-only-if in source order: an id unparsable or outside the int4 range, then not found, then not the owner, then the merged times out of order, then a title taken by another activity (compared as text, ignoring case); failures change nothing; success stores the merged row and nothing else |
| `Actividades.BorrarActividad` | Backend/src/controllers/actividades.controller.js:228-259 | an id unparsable or outside the int4 range, not found, or not the owner changes nothing; otherwise exactly that row is removed |
| `Actividades.InscritoOf` | Backend/src/controllers/actividades.controller.js:108-120 | an enrollment shows its consumer id and date, with the consumer's name and email, or NULL for both when no user row joins |
| `Actividades.ObtenerActividadesPorOfertante` | Backend/src/controllers/actividades.controller.js:93-130 | only the provider asking for their own id may list; the answer holds exactly their activities, each row unchanged, with exactly its own enrollments, each joined with its consumer's name and email |
| `Actividades.UpdateCanExceedCapacity` | Backend/src/controllers/actividades.controller.js:203-214 | an update may lower `plazas` below the enrollments already made |
| `Usuarios.RegisterStatus` | Backend/src/controllers/usuarios.controller.js:9-51 | a failed statement answers 500, every other refusal, a taken email included, 400 |
| `Usuarios.CrearUsuario` | Backend/src/controllers/usuarios.controller.js:6-53 | missing fields, then an unknown role, then a non-text password, then a taken email; failures change nothing; success adds the user with the hashed password and exactly one matching role row |
| `Usuarios.AccountStatus` | Backend/src/controllers/usuarios.controller.js:61-86 | a bad id or an empty name answers 400, another user's account 403, an unknown user 404; a name that is not text has no status |
| `Usuarios.ActualizarNombre` | Backend/src/controllers/usuarios.controller.js:56-97 | unparsable id, not self, a name that is not text, an empty trimmed name, or an unknown user changes nothing; success stores the trimmed name and nothing else; the stored name is its own trim, and renaming to the name already stored leaves the table unchanged |
| `Usuarios.BorrarUsuario` | Backend/src/controllers/usuarios.controller.js:100-150 | unparsable id, not self, or an unknown user changes nothing; otherwise exactly that user row is removed |
| `Tipos.AllowedTiposUnpadded` | Backend/src/routes/actividades.routes.js:17-28 | every listed type has no whitespace at either end, so trimming keeps it |
| `Tipos.PaddedTipoTrims` | Backend/src/routes/actividades.routes.js:64-65 | a listed type with whitespace around it trims to the listed type |
| `ActividadesRoutes.TituloPost` | Backend/src/routes/actividades.routes.js:54 | passes exactly a title whose string form is not empty |
| `ActividadesRoutes.TituloPut` | Backend/src/routes/actividades.routes.js:118-121 | the optional `notEmpty` can never fail |
| `ActividadesRoutes.TextRule` | Backend/src/routes/actividades.routes.js:56-59 | passes a falsy value or a string |
| `ActividadesRoutes.TipoPost` | Backend/src/routes/actividades.routes.js:61-66 | passes exactly a type that is listed once trimmed; an empty one fails both checks |
| `ActividadesRoutes.TipoPut` | Backend/src/routes/actividades.routes.js:128-132 | passes a falsy type or one that is listed once trimmed |
| `ActividadesRoutes.FechaRule` | Backend/src/routes/actividades.routes.js:68-76 | passes a falsy date or an ISO 8601 date whose year is in the three-year window |
| `ActividadesRoutes.HoraPost` | Backend/src/routes/actividades.routes.js:83-93 | passes exactly a value matching the time pattern; an empty one fails both checks |
| `ActividadesRoutes.HoraPut` | Backend/src/routes/actividades.routes.js:149-157 | passes a falsy value or one matching the time pattern |
| `ActividadesRoutes.PlazasRule` | Backend/src/routes/actividades.routes.js:100-103 | passes a falsy value or an integer of at least 1 |
| `ActividadesRoutes.NegativePlazasRejected` | Backend/src/routes/actividades.routes.js:100-103 | a negative number of places fails |
| `ActividadesRoutes.IdRule` | Backend/src/routes/actividades.routes.js:116 | passes exactly an integer of at least 1 |
| `ActividadesRoutes.PostRules` | Backend/src/routes/actividades.routes.js:49-108 | no error exactly when every POST field is accepted; the controller receives the trimmed type |
| `ActividadesRoutes.PutRules` | Backend/src/routes/actividades.routes.js:111-172 | no error exactly when the id and every present PUT field are accepted |
| `ActividadesRoutes.TimePatternAccepts` | Backend/src/routes/actividades.routes.js:30 | two digits, a colon and two digits, optionally a colon and two digits, match the pattern |
| `ActividadesRoutes.TimePatternParts` | Backend/src/routes/actividades.routes.js:30 | every match is built that way |
| `ActividadesRoutes.MatchesTimeIsString` | Backend/src/routes/actividades.routes.js:30 | only a string can match the time pattern |
| `ActividadesRoutes.AcceptedIdParses` | Backend/src/routes/actividades.routes.js:180 | an accepted id reaches `parseInt` as the same positive integer |
| `ActividadesRoutes.PaddedTipoAccepted` | Backend/src/routes/actividades.routes.js:61-66 | a listed type with whitespace around it is accepted and reaches the controller trimmed |
| `ActividadesRoutes.EmptyTitleUpdateStored` | Backend/src/routes/actividades.routes.js:118-121 | an update with an empty title passes and stores an empty title |
| `ActividadesRoutes.ZeroPlazasAccepted` | Backend/src/routes/actividades.routes.js:100-103 | zero places skip the rule and leave no seat for any enrollment |
| `ActividadesRoutes.EmptyPutAccepted` | Backend/src/routes/actividades.routes.js:111-172 | an empty update passes every rule and leaves the row as it was |
| `ProtectedRoute.Fallback` | frontend/src/components/ProtectedRoute.jsx:13 | a refused provider goes to /ofertante and anyone else to /consumidor |
| `ProtectedRoute.Guard` | frontend/src/components/ProtectedRoute.jsx:4-18 | redirects to /login exactly without a session; renders exactly for a session whose role the route allows or that has no list; otherwise redirects to the role's dashboard |
| `ProtectedRoute.FallbackAdmitsKnownRoles` | frontend/src/components/ProtectedRoute.jsx:12-15 | a provider or consumer turned away lands on a route that renders for them |
| `ProtectedRoute.UnknownRoleRedirectsToItself` | frontend/src/components/ProtectedRoute.jsx:12-15 | any other role is sent to /consumidor, which refuses it again |
| `ActivityForm.Set` | frontend/src/pages/CrearActividad.jsx:37 | the changed input takes the value and every other input is unchanged |
| `ActivityForm.DateTimeOfParts` | frontend/src/pages/CrearActividad.jsx:77-78 | a date joined to a time with "T" parses exactly when both parts do, to those parts |
| `ActivityForm.EndNotAfterStart` | frontend/src/pages/CrearActividad.jsx:76-82 | the end fails exactly when the day or a time does not parse or the end is not after the start |
| `ActivityForm.Validate` | frontend/src/pages/CrearActividad.jsx:41-84 | the dictionary built holds exactly the expected message for each field |
| `ActivityForm.AcceptedFormIsComplete` | frontend/src/pages/CrearActividad.jsx:41-84 | a form without errors has every field filled, a listed type, a day after today within the year window, and ordered times |
| `ActivityForm.YearMessageWins` | frontend/src/pages/CrearActividad.jsx:63-75 | a past year is too soon as well, and the year message is the one kept |
| `ActivityForm.ClearError` | frontend/src/pages/CrearActividad.jsx:38 | the changed field's error is emptied and every other entry is kept |
| `ActivityForm.ChangeField` | frontend/src/pages/OfertanteDashboard.jsx:123-126 | the input changes and only that field's error is cleared |
| `CrearActividad.NumberOrNull` | frontend/src/pages/CrearActividad.jsx:100-101 | an empty input is sent as null, a readable one as its number, an unreadable one (NaN) as null |
| `CrearActividad.CreatePayload` | frontend/src/pages/CrearActividad.jsx:94-104 | the type is sent trimmed, an empty date as null, price and places as numbers or null, the rest as typed |
| `CrearActividad.HandleSubmit` | frontend/src/pages/CrearActividad.jsx:86-113 | nothing is posted exactly when the validation has an error; otherwise the payload is posted |
| `CrearActividad.PostedBodyPassesServer` | frontend/src/pages/CrearActividad.jsx:86-104 | a posted body passes the server's title, text, type and time rules and the controller's time order |
| `CrearActividad.NegativeDecimalUnpadded` | frontend/src/pages/CrearActividad.jsx:101 | the decimal form of a negative number trims to itself |
| `CrearActividad.NegativePlazasRefusedByServer` | frontend/src/pages/CrearActividad.jsx:54-57 | the page accepts a negative number of places, posts it as that number, and the server refuses it |
| `OfertanteDashboard.ToHHMM` | frontend/src/pages/OfertanteDashboard.jsx:42 | the first five characters of a string of at least five, otherwise "" |
| `OfertanteDashboard.NumberAtPrefix` | frontend/src/pages/OfertanteDashboard.jsx:42 | the digits of a prefix read the same as in the whole string |
| `OfertanteDashboard.ToHHMMDropsSeconds` | frontend/src/pages/OfertanteDashboard.jsx:42 | a stored time shows as `HH:MM` with the same hour and minute, less than a minute earlier |
| `OfertanteDashboard.ShownText` | frontend/src/pages/OfertanteDashboard.jsx:111-115 | a string shows as itself and a falsy value as "" |
| `OfertanteDashboard.DatePart` | frontend/src/pages/OfertanteDashboard.jsx:114 | the day part holds no "T", and a falsy date shows as "" |
| `OfertanteDashboard.DatePartOfTimestamp` | frontend/src/pages/OfertanteDashboard.jsx:114 | a day alone, or followed by "T" and anything, shows as that day |
| `OfertanteDashboard.OpenEdit` | frontend/src/pages/OfertanteDashboard.jsx:108-121 | texts shown or "", the date's day part, null price and places as "", times as `HH:MM` |
| `OfertanteDashboard.NumberOrCurrent` | frontend/src/pages/OfertanteDashboard.jsx:190-191 | a filled input is sent as its number (null when unreadable); an empty one as the current value or null |
| `OfertanteDashboard.EditPayload` | frontend/src/pages/OfertanteDashboard.jsx:184-194 | empty texts fall back to the current value, a filled type is trimmed, empty times become null |
| `OfertanteDashboard.HandleEditSave` | frontend/src/pages/OfertanteDashboard.jsx:172-203 | any validation error stops the save; an activity gone from the list closes the dialog; otherwise the payload is sent for its id |
| `OfertanteDashboard.SentEditPassesServer` | frontend/src/pages/OfertanteDashboard.jsx:128-194 | a sent edit passes the update's type and time rules and the controller's time check, and stores the form's title, type, day and times |
| `OfertanteDashboard.ReopenText` | frontend/src/pages/OfertanteDashboard.jsx:111 | an untouched text field keeps its stored value |
| `OfertanteDashboard.ReopenDay` | frontend/src/pages/OfertanteDashboard.jsx:114 | an untouched day keeps its stored value |
| `OfertanteDashboard.ReopenNumber` | frontend/src/pages/OfertanteDashboard.jsx:116-117 | an untouched price or number of places keeps its stored value |
| `OfertanteDashboard.ReopenTime` | frontend/src/pages/OfertanteDashboard.jsx:118-119 | an untouched `HH:MM` time keeps its stored value |
| `OfertanteDashboard.ReopenKeepsTexts` | frontend/src/pages/OfertanteDashboard.jsx:111-113 | saved untouched, the title, description, availability and type are written back unchanged |
| `OfertanteDashboard.ReopenKeepsDayAndNumbers` | frontend/src/pages/OfertanteDashboard.jsx:114-117 | saved untouched, the day, price and places are written back unchanged |
| `OfertanteDashboard.ReopenKeepsTimes` | frontend/src/pages/OfertanteDashboard.jsx:118-119 | saved untouched, `HH:MM` times are written back unchanged |
| `OfertanteDashboard.ReopenAndSaveKeepsRow` | frontend/src/pages/OfertanteDashboard.jsx:108-194 | opening the dialog and saving it untouched writes the row back unchanged |
| `OfertanteDashboard.ReopenDropsSeconds` | frontend/src/pages/OfertanteDashboard.jsx:118 | a time stored with seconds is written back without them |

## Left out

- SQL execution, the connection pool and the transaction statements. Each call is one atomic step, and a rollback means the tables are unchanged.
- Concurrency and the `FOR UPDATE` row lock. Calls are taken one at a time.
- Cascades when a user or an activity is deleted. The schema is not part of this model, so deleting removes only the named row. Enrollments and role rows stay behind.
- bcrypt hashing (a function parameter) and JWT verification (an oracle parameter that returns the decoded claims or nothing).
- express-validator's `isISO8601` and the year `new Date(v)` yields on the server. Both are function parameters of the date rule; the current year is a parameter too.
- The `precio` rule `isFloat({ min: 0 })`, and all fractional numbers. `Js.Value` holds integers only, so a decimal price is unreadable here and travels as null.
- JavaScript `Date` parsing. Only `YYYY-MM-DD` days and `HH:MM[:SS]` times with hours 00 to 23 parse; time zones are ignored.
- `ActividadesRoutes.PostRules` and `ActividadesRoutes.PutRules`: every `check(field)` (titulo, descripcion, tipo, fecha, disponibilidad, horainicio, horafin, precio, plazas and id) also validates that field wherever else it appears in the request: the query, the headers and the cookies, and for `id` also the body. Only the body, and the path for `id`, is modelled. So `PUT /actividades/7?plazas=-1` with an empty body is refused by the source and accepted by `PutRules`, and a body title "x" sent with `?titulo=` is refused by the source and accepted by `PostRules`.
- The `SERIAL` value a failed insert consumes: a failed call leaves the sequence where it was.
- Reading rows back through the driver. The dashboard receives rows as the tables hold them; a truthy non-string text column shows in an input as its string form.
- `OfertanteDashboard.DatePart`: for a truthy `fecha` that is not a string, `act.fecha.split("T")` throws a TypeError in the source and the dialog does not open; the model shows "" instead.
- `Text.Lower`: lower-cases only ASCII and the Latin-1 capitals U+00C0 to U+00DE (except U+00D7), one character for one, and `Text.LowerChar` leaves every other character as it is. JavaScript's `toLowerCase` and PostgreSQL's `LOWER` in a UTF-8 locale also lower Latin Extended, Greek, Cyrillic and the other cased scripts, and U+0130 becomes two characters. So a duplicate title that differs only in the case of such letters ("Δόμος" and "δόμος") is refused by the source and accepted by the model. PostgreSQL's result also depends on the database's locale, which is not modelled.
- `Js.ToNumber`: reads only an optional sign and decimal digits. `Number` also accepts the exponent form ("1e3" is 1000), a decimal point ("1.0" is 1), "Infinity", and the unsigned prefixes "0x", "0o" and "0b"; the model reads all of these as not finite. A browser's number input keeps the exponent and decimal-point forms as typed, so `CrearActividad.NumberOrNull` and `OfertanteDashboard.NumberOrCurrent` send null where the source sends the number.
- `Js.SqlInt`: reads text as an optional sign and decimal digits. PostgreSQL 16 and later also accept the prefixes `0x`, `0o` and `0b` and underscores between digits (`1_000`) as integer input; the model reads these as failing the statement.
- Arrays and objects in request bodies. `Js.Value` has neither, so the model cannot state a body such as `{"idactividad": [7]}`. Not modelled: express-validator's checks on such values, the text forms node-postgres sends for them (the array literal `{"7"}` and JSON text), and `Number([7])` being 7.
- `Js.ParseInt`: exact for any number of digits. JavaScript rounds beyond 2^53, which matters only for values already outside the int4 range.
- PostgreSQL's conversion of stored values to their column types. The schema is not part of this model, so a value a column cannot hold (a `plazas` beyond the int4 range, a date or a time the column cannot read) is stored as sent where the source's statement fails with a 500. Ids read from the token are taken to be within the int4 range, as the database issued them.
- React rendering, state hooks, navigation, the network calls the pages make after a save, error messages shown to the user, `localStorage`, the console, and the routing wiring in `index.js` and the other route files.
- The public listing `obtenerActividades` and `auth.controller.js` (a thin wrapper around bcrypt and JWT).
- `Usuarios.ActualizarNombre`: a truthy non-string name raises a TypeError outside the handler's `try`. It is modelled as the error `NameNotText`, which has no status code.

/**
 * The client-side route guard: with no stored session it sends the
 * visitor to the login page; with a session whose role the route does not
 * allow it sends them to their own dashboard; otherwise it shows the page.
 */
module ProtectedRoute {
  import opened Wrappers
  import opened Js

  /** The user object kept in local storage after login; only its role matters here. */
  datatype StoredUser = StoredUser(tipousuario: Value)

  datatype Outcome = Navigate(to: string) | Render

  /** A session exists: a stored user and a non-empty token. */
  predicate LoggedIn(user: Option<StoredUser>, token: Option<string>) {
    user.Some? && token.Some? && token.value != ""
  }

  /** `allowed.includes(role)`, by strict equality. */
  predicate Listed(role: Value, allowed: seq<string>) {
    role.Str? && role.s in allowed
  }

  /** Where a user whose role is refused is sent. */
  function Fallback(role: Value): (path: string)
    ensures path == "/ofertante" || path == "/consumidor"
    ensures path == "/ofertante" <==> role == Str("ofertante")
  {
    if role == Str("ofertante") then "/ofertante" else "/consumidor"
  }

  /** The guard's decision. */
  function Guard(user: Option<StoredUser>, token: Option<string>, allowed: Option<seq<string>>): (o: Outcome)
    ensures o == Navigate("/login") <==> !LoggedIn(user, token)
    ensures o == Render <==> LoggedIn(user, token) && (allowed.None? || Listed(user.value.tipousuario, allowed.value))
    ensures o.Navigate? && o.to != "/login" ==>
      LoggedIn(user, token) && o.to == Fallback(user.value.tipousuario)
  {
    if !LoggedIn(user, token) then Navigate("/login")
    else if allowed.Some? && !Listed(user.value.tipousuario, allowed.value) then
      Navigate(Fallback(user.value.tipousuario))
    else Render
  }

  /** The guarded routes of the application and the roles each allows. */
  const Routes: map<string, seq<string>> := map[
    "/ofertante" := ["ofertante"],
    "/ofertante/crear" := ["ofertante"],
    "/consumidor" := ["consumidor"]
  ]

  /**
   * A provider or consumer turned away from a guarded route lands on a
   * route that shows them its page: they are never refused twice.
   */
  lemma FallbackAdmitsKnownRoles(user: StoredUser, token: string, path: string)
    requires token != "" && path in Routes
    requires user.tipousuario == Str("ofertante") || user.tipousuario == Str("consumidor")
    requires Guard(Some(user), Some(token), Some(Routes[path])).Navigate?
    ensures var to := Guard(Some(user), Some(token), Some(Routes[path])).to;
            to in Routes && Guard(Some(user), Some(token), Some(Routes[to])) == Render
  {
    var to := Fallback(user.tipousuario);
    assert to in Routes;
  }

  /**
   * Any other role is sent to the consumer dashboard, which refuses it again
   * and sends it to itself.
   */
  lemma UnknownRoleRedirectsToItself(user: StoredUser, token: string)
    requires token != ""
    requires user.tipousuario != Str("ofertante") && user.tipousuario != Str("consumidor")
    ensures Guard(Some(user), Some(token), Some(Routes["/ofertante"])) == Navigate("/consumidor")
    ensures Guard(Some(user), Some(token), Some(Routes["/consumidor"])) == Navigate("/consumidor")
  {
  }
}

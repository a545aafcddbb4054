/**
 * The route guard run before every page request: signed-in users are kept
 * off the sign-in pages, signed-out users are kept on them.
 */
module Middleware {
  import opened Wrappers

  /** The guard's answer: redirect to a path on the same origin, or `NextResponse.next()`. */
  datatype Decision = Redirect(target: string) | Next

  /** The sign-in and sign-up pages. */
  predicate IsAuthPage(pathname: string) {
    pathname == "/login" || pathname == "/register"
  }

  /**
   * `middleware(request)`, with the `authToken` cookie's value if the cookie is
   * set. A set cookie counts whatever its value, even an empty one: the code
   * tests the cookie object, not its value.
   */
  function Decide(cookie: Option<string>, pathname: string): (d: Decision)
    ensures d == Redirect("/chat") <==> cookie.Some? && IsAuthPage(pathname)
    ensures d == Redirect("/login") <==> cookie.None? && !IsAuthPage(pathname)
    ensures d == Next <==> (cookie.Some? <==> !IsAuthPage(pathname))
  {
    if cookie.Some? && IsAuthPage(pathname) then Redirect("/chat")
    else if cookie.None? && !IsAuthPage(pathname) then Redirect("/login")
    else Next
  }

  /** Only the cookie's presence matters, not its value. */
  lemma OnlyPresenceMatters(v1: string, v2: string, pathname: string)
    ensures Decide(Some(v1), pathname) == Decide(Some(v2), pathname)
  {
  }

  /** Following a redirect with the same cookie state is let through: no redirect loop. */
  lemma NoRedirectLoop(cookie: Option<string>, pathname: string)
    ensures Decide(cookie, pathname).Redirect? ==> Decide(cookie, Decide(cookie, pathname).target) == Next
  {
  }
}

/** Session data, and the functions a session route is configured with. */
module Sessions {
  import opened Text
  import opened KeyedLists

  type Data = map<string, string>

  /** struct HSSession. */
  datatype Session = Session(id: string, data: Data)

  /** struct HSSessionRouteContext: the names, the id generator (its n-th result), and the
      conversions between session data and stored text. */
  datatype SessionContext = SessionContext(
    cookieName: string,
    sessionName: string,
    ids: nat -> string,
    modifyCookie: Option<Cookie -> Cookie>,
    toText: Data -> Option<string>,
    fromText: string -> Data)

  const TWO_YEARS: int := 2 * 365 * 24 * 60 * 60

  /** hs_routes_session_new_cookie, then the optional modify_cookie. */
  function SessionCookie(context: SessionContext, id: string): Cookie {
    var cookie := NewCookie(context.cookieName, id)
      .(secure := true, httpOnly := true, sameSite := SameSiteStrict, maxAge := TWO_YEARS);
    match context.modifyCookie
    case None => cookie
    case Some(change) => change(cookie)
  }
}

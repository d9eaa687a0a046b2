/**
 * The NextAuth callbacks of app/utils/auth.ts: `redirect`, which keeps every
 * post-login redirect under the site's base URL, and `session`, which copies
 * the token's subject into the session's user id. The GitHub provider set-up
 * is configuration and is not modelled.
 */
module Auth {
  import opened Wrappers
  import opened Text

  // ---------------------------------------------------------------------
  // redirect

  /** `callbacks.redirect({ url, baseUrl })`. */
  function Redirect(url: string, baseUrl: string): string {
    if StartsWith(url, baseUrl) then url
    else if StartsWith(url, "/") then baseUrl + url
    else baseUrl
  }

  /** Whatever the requested URL, the redirect target lies under the base URL. */
  lemma RedirectStaysUnderBase(url: string, baseUrl: string)
    ensures StartsWith(Redirect(url, baseUrl), baseUrl)
  {
    if !StartsWith(url, baseUrl) && StartsWith(url, "/") {
      assert (baseUrl + url)[..|baseUrl|] == baseUrl;
    }
  }

  /**
   * The three outcomes: a URL under the base is kept exactly when it is under
   * the base; a relative path is prefixed; anything else becomes the base.
   */
  lemma RedirectCases(url: string, baseUrl: string)
    ensures Redirect(url, baseUrl) == url <==> StartsWith(url, baseUrl)
    ensures !StartsWith(url, baseUrl) && StartsWith(url, "/") ==> Redirect(url, baseUrl) == baseUrl + url
    ensures !StartsWith(url, baseUrl) && !StartsWith(url, "/") ==> Redirect(url, baseUrl) == baseUrl
  {
    if !StartsWith(url, baseUrl) {
      if StartsWith(url, "/") {
        assert |baseUrl + url| > |url|;
      } else {
        assert url[..|url|] == url;
      }
    }
  }

  /** Redirecting an already redirected URL changes nothing. */
  lemma RedirectIdempotent(url: string, baseUrl: string)
    ensures Redirect(Redirect(url, baseUrl), baseUrl) == Redirect(url, baseUrl)
  {
    RedirectStaysUnderBase(url, baseUrl);
  }

  // ---------------------------------------------------------------------
  // session

  /** `session.user`: NextAuth's default user fields plus the `id` the app adds. */
  datatype SessionUser = SessionUser(name: Option<string>, email: Option<string>, image: Option<string>, id: Option<string>)

  /** The value of a session object, as `getServerSession` hands it to a route. */
  datatype SessionData = SessionData(user: Option<SessionUser>, expires: string)

  /** The JWT the callback receives; only its subject `sub` is used. */
  datatype Token = Token(sub: Option<string>, name: Option<string>, email: Option<string>)

  /** JavaScript truthiness of an optional string: present and not empty. */
  predicate Truthy(s: Option<string>) {
    s.Some? && s.value != ""
  }

  /** A session object, which the `session` callback updates in place. */
  class Session {
    var user: Option<SessionUser>
    var expires: string

    constructor (data: SessionData)
      ensures Data() == data
    {
      user := data.user;
      expires := data.expires;
    }

    function Data(): SessionData
      reads this
    {
      SessionData(user, expires)
    }
  }

  /**
   * `callbacks.session({ session, token })`: when the session has a user and
   * the token a subject, the user's `id` becomes that subject; the same
   * session object is returned.
   */
  method SessionCallback(session: Session, token: Token) returns (r: Session)
    modifies session
    ensures r == session
    ensures session.expires == old(session.expires)
    ensures old(session.user).Some? && Truthy(token.sub) ==>
      session.user == Some(old(session.user).value.(id := token.sub))
    ensures !(old(session.user).Some? && Truthy(token.sub)) ==> session.user == old(session.user)
  {
    if session.user.Some? && Truthy(token.sub) {
      session.user := Some(session.user.value.(id := token.sub));
    }
    r := session;
  }

  /**
   * The same update on session values: it touches `user.id` only, and only
   * when there is a user and a subject.
   */
  function WithTokenSubject(s: SessionData, token: Token): (r: SessionData)
    ensures r.expires == s.expires && r.user.Some? == s.user.Some?
    ensures r.user.Some? ==>
      r.user.value.name == s.user.value.name && r.user.value.email == s.user.value.email &&
      r.user.value.image == s.user.value.image
    ensures r.user.Some? && Truthy(token.sub) ==> r.user.value.id == token.sub
    ensures !Truthy(token.sub) ==> r == s
  {
    if s.user.Some? && Truthy(token.sub) then s.(user := Some(s.user.value.(id := token.sub))) else s
  }

  /** A client of the callback: applying it to a session object yields `WithTokenSubject` of its value. */
  method ApplySessionCallback(data: SessionData, token: Token) returns (r: SessionData)
    ensures r == WithTokenSubject(data, token)
  {
    var session := new Session(data);
    var same := SessionCallback(session, token);
    r := same.Data();
  }
}

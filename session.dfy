/**
 * The vendor session (src/platform.ts): a bearer token and its expiry,
 * `needsAuthentication`, and the expiry that a successful login forces.
 */
module Session {
  import opened Wrappers

  /** Outcome of `POST /app/login`: the body's `token` field (`None` when missing), or a thrown request. */
  datatype LoginResult = LoginOk(token: Option<string>) | LoginFailed

  /** The session fields of the platform: `token` and `tokenExpireAt`. */
  datatype Credentials = Credentials(token: Option<string>, expireAt: Option<int>)

  /**
   * The session after the login a handler performs first at time `now`: a
   * login happens only when one is due, and only a successful one changes the
   * session.
   */
  function CheckedLogin(s: Credentials, now: int, login: LoginResult): (r: Credentials)
    ensures NeedsAuthentication(s.token, s.expireAt, now) && login.LoginOk? ==>
      r.token == login.token && r.expireAt.Some? && r.expireAt.value < now
    ensures !NeedsAuthentication(s.token, s.expireAt, now) || login.LoginFailed? ==> r == s
  {
    if NeedsAuthentication(s.token, s.expireAt, now) && login.LoginOk? then
      Credentials(login.token, Some(ForcedExpiry(now)))
    else s
  }

  /** A successful login sets the expiry this many milliseconds before the login time. */
  const ForcedExpiryOffset: int := 10000

  /**
   * `!token || !tokenExpireAt || tokenExpireAt < now`, with JavaScript
   * truthiness: an absent or empty token, an absent or zero expiry.
   */
  predicate NeedsAuthentication(token: Option<string>, expireAt: Option<int>, now: int) {
    token.None? || token.value == "" || expireAt.None? || expireAt.value == 0 || expireAt.value < now
  }

  /** The expiry a successful login at time `now` stores. */
  function ForcedExpiry(now: int): (e: int)
    ensures e < now
  {
    now - ForcedExpiryOffset
  }

  /** Without a token a login is due. */
  lemma NeedsAuthenticationBeforeLogin(expireAt: Option<int>, now: int)
    ensures NeedsAuthentication(None, expireAt, now)
  {
  }

  /** After a login at `loginTime` a login is due again at every time from `loginTime - 10000` on. */
  lemma ForcedExpiryKeepsLoginDue(token: Option<string>, loginTime: int, now: int)
    requires now > loginTime - ForcedExpiryOffset
    ensures NeedsAuthentication(token, Some(ForcedExpiry(loginTime)), now)
  {
  }

  /** A non-empty token with a non-zero expiry not yet passed needs no login. */
  lemma FutureExpiryNeedsNoLogin(token: string, expireAt: int, now: int)
    requires token != "" && expireAt != 0 && now <= expireAt
    ensures !NeedsAuthentication(Some(token), Some(expireAt), now)
  {
  }

  /** Once due, a login stays due as time advances. */
  lemma NeedsAuthenticationPersists(token: Option<string>, expireAt: Option<int>, t1: int, t2: int)
    requires t1 <= t2 && NeedsAuthentication(token, expireAt, t1)
    ensures NeedsAuthentication(token, expireAt, t2)
  {
  }
}

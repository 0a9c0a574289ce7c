/**
 * The interplay of `authenticate` and `fetchDevices` (src/platform.ts:21-50)
 * as written: every successful `authenticate()` starts `fetchDevices()`, and
 * `fetchDevices()` first awaits `authenticate()` whenever
 * `needsAuthentication()` holds.  Because a login stores an expiry 10 s in
 * the past, the chain never stops while logins succeed.
 */
module LoginChain {
  import opened Wrappers
  import opened Session

  /**
   * Logins issued by one `fetchDevices()` and the calls it sets off, as
   * written.  `clock[k]` is the time of the k-th `needsAuthentication()` check,
   * and of the login it triggers, whose outcome is `logins[k]`.  The chain is
   * cut off where the inputs end.
   */
  function LoginsAsWritten(token: Option<string>, expireAt: Option<int>, clock: seq<int>, logins: seq<LoginResult>): (n: nat)
    requires |clock| == |logins|
    ensures n <= |clock|
    ensures n == 0 <==> clock == [] || !NeedsAuthentication(token, expireAt, clock[0])
    decreases |clock|
  {
    if clock == [] || !NeedsAuthentication(token, expireAt, clock[0]) then 0
    else match logins[0]
      case LoginFailed => 1
      case LoginOk(t) => 1 + LoginsAsWritten(t, Some(ForcedExpiry(clock[0])), clock[1..], logins[1..])
  }

  /**
   * As written, with a clock that does not run backwards and logins that
   * succeed, every check triggers a login: the chain is as long as the inputs
   * allow, i.e. unbounded.
   */
  lemma {:induction false} ChainNeverStops(token: Option<string>, expireAt: Option<int>, clock: seq<int>, logins: seq<LoginResult>)
    requires |clock| == |logins| > 0
    requires NeedsAuthentication(token, expireAt, clock[0])
    requires forall k :: 0 <= k < |clock| - 1 ==> clock[k] <= clock[k + 1]
    requires forall k :: 0 <= k < |logins| ==> logins[k].LoginOk?
    ensures LoginsAsWritten(token, expireAt, clock, logins) == |clock|
    decreases |clock|
  {
    if |clock| > 1 {
      var t := logins[0].token;
      ForcedExpiryKeepsLoginDue(t, clock[0], clock[1]);
      ChainNeverStops(t, Some(ForcedExpiry(clock[0])), clock[1..], logins[1..]);
    }
  }

  /** A concrete chain: three checks a second apart issue three logins. */
  lemma ThreeChecksThreeLogins()
    ensures LoginsAsWritten(None, None, [0, 1000, 2000],
                            [LoginOk(Some("t1")), LoginOk(Some("t2")), LoginOk(Some("t3"))]) == 3
  {
  }
}

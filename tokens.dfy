/**
 * The Strava credential held in the module-level `tokens` variable, and the
 * check that refreshes it before an authorised call.
 */
module Tokens {
  import opened Wrappers

  /**
   * The stored token object. Any field may be missing: the store starts as `{}`
   * when no token file exists. `expiresAt` is in epoch seconds.
   */
  datatype Credential = Credential(accessToken: Option<string>, refreshToken: Option<string>, expiresAt: Option<int>)

  /** What loading finds when there is no token file. */
  const NoCredential := Credential(None, None, None)

  /**
   * `tokens.expires_at * 1000 < Date.now()`: the expiry, in milliseconds, lies
   * before now. A missing expiry makes the product NaN and the test false.
   */
  predicate Expired(c: Credential, nowMs: int)
  {
    c.expiresAt.Some? && c.expiresAt.value * 1000 < nowMs
  }

  /** The refresh-token grant: the provider answers with a new credential, or the call is rejected. */
  type RefreshGrant = Option<string> -> Result<Credential, string>

  /** How one check ended. */
  datatype CheckOutcome = StillValid | Refreshed | RefreshFailed(reason: string)

  /**
   * The credential a check leaves behind: the provider's answer when the stored
   * one had expired and the grant succeeded, the stored one otherwise.
   */
  function AfterCheck(c: Credential, nowMs: int, refresh: RefreshGrant): (next: Credential)
    ensures !Expired(c, nowMs) ==> next == c
    ensures Expired(c, nowMs) && refresh(c.refreshToken).Success? ==> next == refresh(c.refreshToken).value
    ensures next != c ==> Expired(c, nowMs) && refresh(c.refreshToken) == Success(next)
    ensures Expired(c, nowMs) && refresh(c.refreshToken).Failure? ==> next == c && Expired(next, nowMs)
  {
    if Expired(c, nowMs) then
      match refresh(c.refreshToken)
      case Success(answer) => answer
      case Failure(_) => c
    else c
  }

  /**
   * Once a check has not failed — the credential was still valid, or the grant
   * answered with one valid at that moment — any later check at the same moment
   * is a no-op, whatever its own grant would answer.
   */
  lemma AfterCheckSettles(c: Credential, nowMs: int, refresh: RefreshGrant, later: RefreshGrant)
    requires Expired(c, nowMs) ==> refresh(c.refreshToken).Success? && !Expired(refresh(c.refreshToken).value, nowMs)
    ensures AfterCheck(AfterCheck(c, nowMs, refresh), nowMs, later) == AfterCheck(c, nowMs, refresh)
  {
  }

  /** The process-wide token store. */
  class TokenStore {
    var tokens: Credential

    /** `let tokens = loadTokens()`: what the token file held, or `NoCredential`. */
    constructor (loaded: Credential)
      ensures tokens == loaded
    {
      tokens := loaded;
    }

    /**
     * `ensureAccessTokenValid()`: the refresh grant is requested exactly when the
     * stored credential has expired, with the stored refresh token; the stored
     * credential is replaced by the answer exactly when that request succeeds,
     * and is left as it was otherwise.
     */
    method EnsureAccessTokenValid(nowMs: int, refresh: RefreshGrant) returns (outcome: CheckOutcome)
      modifies this
      ensures outcome.StillValid? <==> !Expired(old(tokens), nowMs)
      ensures outcome.Refreshed? <==> Expired(old(tokens), nowMs) && refresh(old(tokens).refreshToken).Success?
      ensures outcome.RefreshFailed? ==> refresh(old(tokens).refreshToken) == Failure(outcome.reason)
      ensures tokens == AfterCheck(old(tokens), nowMs, refresh)
    {
      if Expired(tokens, nowMs) {
        var refreshRes := refresh(tokens.refreshToken);
        if refreshRes.Failure? {
          return RefreshFailed(refreshRes.error);
        }
        tokens := refreshRes.value;
        return Refreshed;
      }
      return StillValid;
    }
  }
}

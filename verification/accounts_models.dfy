/**
 * The accounts app's User record and its token logic: the char-or-None
 * field, token validity, resetting tokens, the refresh decision and the
 * `is_authenticated` property.  Times are integer timestamps and `now` is a
 * parameter; the OAuth refresh call is an outcome passed in.
 */
module AccountModels {
  import opened Wrappers
  import RetryUtils

  /** A user row.  `usablePassword` is false for a password made from `None`. */
  datatype User = User(
    username: Option<string>,
    email: string,
    oauthUserId: Option<string>,
    firstName: string,
    lastName: string,
    fullName: string,
    profileImageUrl: string,
    lastLogin: Option<int>,
    accessToken: string,
    refreshToken: string,
    tokenExpiry: Option<int>,
    usablePassword: bool)

  /**
   * `CharOrNoneField.pre_save`: the value written to the datastore is None
   * for any falsy value (None or the empty string) and the value otherwise.
   */
  function CharOrNone(value: Option<string>): (r: Option<string>)
    ensures r.None? <==> value.None? || value == Some("")
    ensures r.Some? ==> r == value
  {
    if value.None? || value.value == "" then None else value
  }

  /** Storing a stored value again changes nothing. */
  lemma CharOrNoneIdempotent(value: Option<string>)
    ensures CharOrNone(CharOrNone(value)) == CharOrNone(value)
  {
  }

  /** The row the datastore holds after `save()`: the oauth id goes through the field's pre_save. */
  function Stored(u: User): (r: User)
    ensures r.oauthUserId != Some("")
    ensures r == u.(oauthUserId := r.oauthUserId)
    ensures u.oauthUserId != Some("") ==> r == u
  {
    u.(oauthUserId := CharOrNone(u.oauthUserId))
  }

  /** `_oauth_tokens_are_valid`: both tokens are non-empty and the expiry is set and still ahead. */
  predicate TokensAreValid(u: User, now: int)
  {
    u.accessToken != "" && u.refreshToken != "" && u.tokenExpiry.Some? && u.tokenExpiry.value > now
  }

  /**
   * Validity needs both tokens and an expiry, and only runs out with time:
   * tokens valid at some moment were valid at every earlier one, and no
   * tokens are valid at their own expiry.
   */
  lemma TokensExpire(u: User, earlier: int, later: int)
    requires earlier <= later
    ensures TokensAreValid(u, later) ==> TokensAreValid(u, earlier)
    ensures u.tokenExpiry.Some? ==> !TokensAreValid(u, u.tokenExpiry.value)
    ensures u.accessToken == "" || u.refreshToken == "" || u.tokenExpiry.None? ==> !TokensAreValid(u, earlier)
  {
  }

  /**
   * `reset_tokens`: empties both tokens on the instance and writes only
   * those two fields; the stored row keeps every other column it had, even
   * where the instance differs from it.  Returns (instance, stored row).
   */
  function ResetTokens(instance: User, stored: User): (r: (User, User))
    ensures r.0.accessToken == "" && r.0.refreshToken == ""
    ensures r.1.accessToken == "" && r.1.refreshToken == ""
    ensures r.0 == instance.(accessToken := r.0.accessToken, refreshToken := r.0.refreshToken)
    ensures r.1 == stored.(accessToken := r.1.accessToken, refreshToken := r.1.refreshToken)
  {
    (instance.(accessToken := "", refreshToken := ""), stored.(accessToken := "", refreshToken := ""))
  }

  /**
   * After a reset the stored user is no longer valid at any time and has no
   * refresh token, so `is_authenticated` answers False without trying a
   * refresh (see IsAuthenticated).
   */
  lemma ResetTokensLogsOut(instance: User, stored: User, now: int)
    ensures !TokensAreValid(ResetTokens(instance, stored).1, now)
    ensures ResetTokens(instance, stored).1.refreshToken == ""
  {
  }

  /** What the OAuth refresh call produced: an error, or a new access token and expiry. */
  datatype RefreshOutcome = RefreshError | Refreshed(accessToken: string, expiry: int)

  /**
   * `refresh_tokens`, sequentially: working on the stored row, do nothing if
   * the tokens are valid; on a refresh error leave everything; otherwise
   * write the new access token and expiry only if the token changed.
   */
  function RefreshTokens(stored: User, now: int, outcome: RefreshOutcome): (r: User)
    ensures TokensAreValid(stored, now) ==> r == stored
    ensures outcome.RefreshError? ==> r == stored
    ensures r.refreshToken == stored.refreshToken
    ensures r != stored ==>
              && outcome.Refreshed?
              && outcome.accessToken != stored.accessToken
              && r == stored.(accessToken := outcome.accessToken, tokenExpiry := Some(outcome.expiry))
    ensures !TokensAreValid(stored, now) && outcome.Refreshed? && outcome.accessToken != stored.accessToken ==>
              r.accessToken == outcome.accessToken && r.tokenExpiry == Some(outcome.expiry)
  {
    if TokensAreValid(stored, now) then stored
    else match outcome
      case RefreshError => stored
      case Refreshed(token, expiry) =>
        if token != stored.accessToken then stored.(accessToken := token, tokenExpiry := Some(expiry))
        else stored
  }

  /** One attempt of the refresh inside `is_authenticated`: the transaction hit contention, or it completed. */
  datatype RefreshAttempt = Contention | Completed(outcome: RefreshOutcome)

  const TransactionFailed: string := "TransactionFailedError"

  /** The attempt as the retry loop sees it: contention raises TransactionFailedError. */
  function AttemptRefresh(stored: User, now: int, a: RefreshAttempt): RetryUtils.CallResult<User>
  {
    match a
    case Contention => RetryUtils.Raised(TransactionFailed)
    case Completed(o) => RetryUtils.Returned(RefreshTokens(stored, now, o))
  }

  /**
   * `is_authenticated`.  `script(n)` is what the n-th refresh attempt met.
   * Returns the answer, the stored user afterwards, and how many refresh
   * attempts were made.
   */
  method IsAuthenticated(u: User, now: int, script: nat -> RefreshAttempt)
    returns (authenticated: bool, stored: User, refreshCalls: nat)
    ensures TokensAreValid(u, now) ==> authenticated && stored == u && refreshCalls == 0
    ensures !TokensAreValid(u, now) && u.refreshToken == "" ==> !authenticated && stored == u && refreshCalls == 0
    ensures !TokensAreValid(u, now) && u.refreshToken != "" ==>
              && 1 <= refreshCalls <= RetryUtils.DefaultAttempts
              && (forall j: nat :: j < refreshCalls - 1 ==> script(j).Contention?)
              && (script(refreshCalls - 1).Completed? ==>
                    stored == RefreshTokens(u, now, script(refreshCalls - 1).outcome)
                    && authenticated == TokensAreValid(stored, now))
              && (script(refreshCalls - 1).Contention? ==>
                    refreshCalls == RetryUtils.DefaultAttempts && !authenticated && stored == u)
  {
    if TokensAreValid(u, now) {
      return true, u, 0;
    }
    if u.refreshToken == "" {
      return false, u, 0;
    }
    var kwargs: RetryUtils.Kwargs := map[RetryUtils.CatchKey := RetryUtils.CatchArg({TransactionFailed})];
    assert RetryUtils.AttemptsOf(kwargs) == RetryUtils.DefaultAttempts;
    assert RetryUtils.CatchOf(kwargs) == {TransactionFailed};
    var attempt := (kw: RetryUtils.Kwargs, n: nat) => AttemptRefresh(u, now, script(n));
    var r := RetryUtils.DoWithRetry(attempt, kwargs);
    assert forall j: nat :: attempt(RetryUtils.Forwarded(kwargs), j) == AttemptRefresh(u, now, script(j));
    if r.Success? {
      return TokensAreValid(r.value, now), r.value, r.calls;
    }
    // contention on every attempt: the error is caught and reported as False
    return false, u, r.calls;
  }
}

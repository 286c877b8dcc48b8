/**
 * The password-reset service: issuing a reset token for a user, verifying
 * and consuming it, deleting it, and turning the result of a password change
 * into an HTTP response. The wall clock and the random token generator are
 * inputs: `now` is the current minute and `drawn` a token newly drawn at random.
 */
module AuthService {
  import opened Wrappers
  import opened PasswordResetTokens

  /** Lifetime of a newly issued token. */
  const ExpirationHours := 24
  const ExpirationMinutes := ExpirationHours * 60

  /** An existing token is reused only if it outlives this many minutes from now. */
  const ReuseMarginMinutes := 5

  /** The store together with what an operation answered. */
  datatype Step<+R> = Step(reply: R, store: map<Token, Record>)

  /**
   * The reuse decision of token issuance: the token found for the user may
   * be handed out again exactly when it stays valid throughout the next
   * ReuseMarginMinutes minutes.
   */
  function IsExistingTokenValid(existing: Option<PasswordResetToken>, now: Minute): (reusable: bool)
    ensures reusable ==> existing.Some?
    ensures existing.Some? ==>
      (reusable <==> forall later :: now <= later <= now + ReuseMarginMinutes ==> existing.value.Stored().IsValidAt(later))
  {
    // the last minute of the margin decides
    assert existing.Some? ==> existing.value.Stored().IsValidAt(now + ReuseMarginMinutes) == (existing.value.expiryDateTime > now + ReuseMarginMinutes);
    existing.Some? && existing.value.expiryDateTime > now + ReuseMarginMinutes
  }

  /**
   * Token issuance on store `m`, given the repository's answer `found` to
   * find-by-user: the token handed out and the store afterwards.
   */
  function Issue(m: map<Token, Record>, found: Option<PasswordResetToken>, user: User, now: Minute, drawn: Token): (r: Step<Token>)
    requires drawn !in m
    requires IsUserLookup(m, user, found)
    // the token handed out is stored, is the user's, and is still valid past the reuse margin
    ensures OwnedBy(r.store, r.reply, user) && r.store[r.reply].IsValidAt(now + ReuseMarginMinutes)
    // a new token is drawn exactly when the found one is missing or about to expire
    ensures r.reply == drawn <==> !IsExistingTokenValid(found, now)
    ensures r.reply == drawn ==> r.store == m[drawn := Record(user, now + ExpirationMinutes)]
    ensures r.reply != drawn ==> r.store == m && found.Some? && r.reply == found.value.token
  {
    if IsExistingTokenValid(found, now) then
      Step(found.value.token, m)
    else
      Step(drawn, m[drawn := Record(user, now + ExpirationMinutes)])
  }

  /**
   * Token verification on store `m`, consume-then-check: a token that is
   * found is removed whatever the verdict, and the verdict is true only for
   * the token's owner while the token is still valid.
   */
  function Verify(m: map<Token, Record>, token: Token, user: User, now: Minute): (r: Step<bool>)
    ensures token !in m ==> r == Step(false, m)
    ensures token in m ==> r.store.Keys == m.Keys - {token}
    ensures forall t :: t in r.store ==> t in m && r.store[t] == m[t]
    ensures r.reply <==> OwnedBy(m, token, user) && m[token].IsValidAt(now)
  {
    if token in m then
      var resetToken := EntryAt(m, token);
      Step(user == resetToken.user && resetToken.Stored().IsValidAt(now), m - {token})
    else
      Step(false, m)
  }

  /** Token deletion on store `m`: the token is gone, everything else stays. */
  function Delete(m: map<Token, Record>, token: Token): (m': map<Token, Record>)
    ensures m'.Keys == m.Keys - {token}
    ensures forall t :: t in m' ==> m'[t] == m[t]
  {
    m - {token}
  }

  /** The fixed messages of a password reset. */
  datatype ApiMessage = PasswordResetSuccess | PasswordResetFailure

  /** What the user-management collaborator's password change did. */
  datatype MutationResult = Succeeded | Failed | Raised

  /** A user lookup that did not resolve the identifier. */
  datatype LookupError = UserNotFound(identifier: string)

  /** An HTTP response reduced to its status and body. */
  datatype Response = Response(status: nat, body: ApiMessage)

  const HttpOk := 200
  const HttpInternalServerError := 500

  /**
   * The response for a password change: success only when the collaborator
   * reported success; a reported failure and an exception read the same.
   */
  function ResetOutcome(result: MutationResult): (response: Response)
    ensures response.status == HttpOk <==> result == Succeeded
    ensures response.status == HttpOk || response.status == HttpInternalServerError
    ensures response.body == PasswordResetSuccess <==> response.status == HttpOk
  {
    match result
    case Succeeded => Response(HttpOk, PasswordResetSuccess)
    case Failed => Response(HttpInternalServerError, PasswordResetFailure)
    case Raised => Response(HttpInternalServerError, PasswordResetFailure)
  }

  /**
   * A password reset: a failed user lookup propagates unchanged; otherwise
   * the password change's result becomes the response.
   */
  function ResetPassword(resolved: Result<User, LookupError>, mutation: MutationResult): (r: Result<Response, LookupError>)
    ensures r.Failure? <==> resolved.Failure?
    ensures r.Failure? ==> r.error == resolved.error
    ensures r.Success? ==> r.value == ResetOutcome(mutation)
  {
    match resolved
    case Failure(e) => Failure(e)
    case Success(_) => Success(ResetOutcome(mutation))
  }

  /** The service object; its only state is the token repository it shares. */
  class AuthServiceImpl {
    const passwordResetTokenRepository: PasswordResetTokenRepository

    constructor (repository: PasswordResetTokenRepository)
      ensures passwordResetTokenRepository == repository
    {
      passwordResetTokenRepository := repository;
    }

    /**
     * Hands out the user's existing token if it is still good for more than
     * the reuse margin; otherwise stores `drawn`, valid for a day, and hands
     * that out.
     */
    method GeneratePasswordResetToken(user: User, now: Minute, drawn: Token) returns (token: Token)
      requires drawn !in passwordResetTokenRepository.tokens
      modifies passwordResetTokenRepository
      ensures exists found ::
        (IsUserLookup(old(passwordResetTokenRepository.tokens), user, found) &&
         Issue(old(passwordResetTokenRepository.tokens), found, user, now, drawn) == Step(token, passwordResetTokenRepository.tokens))
      ensures OwnedBy(passwordResetTokenRepository.tokens, token, user)
      ensures passwordResetTokenRepository.tokens[token].IsValidAt(now + ReuseMarginMinutes)
      ensures token != drawn ==> passwordResetTokenRepository.tokens == old(passwordResetTokenRepository.tokens)
      ensures token == drawn ==>
        (passwordResetTokenRepository.tokens == old(passwordResetTokenRepository.tokens)[drawn := Record(user, now + ExpirationMinutes)])
    {
      var existingToken := passwordResetTokenRepository.FindByUser(user);
      if IsExistingTokenValid(existingToken, now) {
        token := existingToken.value.token;
        return;
      }
      var expiryDateTime := now + ExpirationMinutes;
      var resetToken := PasswordResetToken(drawn, user, expiryDateTime);
      passwordResetTokenRepository.Save(resetToken);
      token := drawn;
    }

    /** Looks the token up, consumes it if found, and reports whether it was the user's and still valid. */
    method VerifyPasswordResetToken(token: Token, user: User, now: Minute) returns (ok: bool)
      modifies passwordResetTokenRepository
      ensures Step(ok, passwordResetTokenRepository.tokens) == Verify(old(passwordResetTokenRepository.tokens), token, user, now)
    {
      var found := passwordResetTokenRepository.FindByToken(token);
      match found
      case None =>
        ok := false;
      case Some(resetToken) =>
        DeletePasswordResetToken(token);
        ok := user == resetToken.user && resetToken.Stored().IsValidAt(now);
    }

    method DeletePasswordResetToken(token: Token)
      modifies passwordResetTokenRepository
      ensures passwordResetTokenRepository.tokens == Delete(old(passwordResetTokenRepository.tokens), token)
    {
      passwordResetTokenRepository.DeleteByToken(token);
    }
  }
}

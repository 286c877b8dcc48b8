# Password-reset token lifecycle of the banking portal

This project models the password-reset part of the banking portal's
authentication service (`AuthServiceImpl`):

- **Issuing a reset token** for a user. Find-by-user returns one of the user's tokens. If that token stays valid for more than 5 more minutes, it is returned. Otherwise a newly drawn token is stored with an expiry 24 hours ahead. The decision looks only at the token that find-by-user returned, not at any other tokens the user owns.
- **Verifying a token**, consume-then-check. A token that is found is deleted before the verdict is computed. The verdict is true only for the token's owner while the token is still valid.
- **Deleting a token.**
- **Mapping the password change's result** to an HTTP response: 200 with the success message, or 500 with the failure message.

The token repository is a class, `PasswordResetTokenRepository`, whose state is a
`map<Token, Record>`. A `Record` holds the owning user and the expiry instant.
The service class `AuthServiceImpl` changes that map through the repository's
`Save` and `DeleteByToken`, as the Java code does. Each of its methods is tied
by its `ensures` to a pure function on maps: `Issue`, `Verify` or `Delete`. The
lemmas in `TokenLifecycle` are proved about those functions. The lemmas cover:

- which token issuance hands out;
- the issue-then-verify round;
- single use over any sequence of service requests.

Time is a whole number of minutes and is passed in as `now`. The 24-hour lifetime
is `ExpirationMinutes` = 1440, and the reuse margin is 5 minutes. The random UUID
is a parameter `drawn`. Its only assumption is that `drawn` is not already stored.

Find-by-user is modelled loosely. It returns nothing exactly when the user owns
no stored token. Otherwise it returns *some* token the user owns. Nothing in the
AuthServiceImpl keeps one token per user. Issuing past a stale token saves the new
token (line 41) without deleting the stale one. So the model does not assume
one token per user. Issuance does not overwrite or delete the user's
earlier record. `StaleTokenOutlivesReissue` shows that the user then owns both
tokens. If the old token expires within the margin but has not expired yet,
both tokens verify true. So the user then holds two active tokens.
`StaleLookupDrawsAgain` shows that a later issuance may find the stale token
and draw a third one.

Files: `wrappers.dfy` (Option, Result), `token_store.dfy` (entity and
repository), `auth_service.dfy` (service rules and service class),
`token_lifecycle.dfy` (properties).

## Model

| member | source | states |
|---|---|---|
| `PasswordResetTokens.PasswordResetTokenRepository.FindByToken` | src/main/java/com/webapp/bankingportal/service/AuthServiceImpl.java:48 | finds an entity exactly when the token is stored, and the entity carries that token's stored owner and expiry |
| `PasswordResetTokens.PasswordResetTokenRepository.FindByUser` | src/main/java/com/webapp/bankingportal/service/AuthServiceImpl.java:33 | returns nothing exactly when the user owns no stored token; otherwise returns an entity for a stored token owned by that user, matching its record |
| `PasswordResetTokens.PasswordResetTokenRepository.Save` | src/main/java/com/webapp/bankingportal/service/AuthServiceImpl.java:41 | the store maps the entity's token to its (user, expiry), and every other entry is unchanged |
| `PasswordResetTokens.PasswordResetTokenRepository.DeleteByToken` | src/main/java/com/webapp/bankingportal/service/AuthServiceImpl.java:58 | the token is no longer stored, every other entry is unchanged, and a missing token is no error |
| `AuthService.IsExistingTokenValid` | src/main/java/com/webapp/bankingportal/service/AuthServiceImpl.java:79-81 | a missing token is never reused; a found token is reused exactly when it stays valid at every minute from now to now + 5 |
| `AuthService.Issue` | src/main/java/com/webapp/bankingportal/service/AuthServiceImpl.java:32-44 | the returned token is stored, belongs to the user and is valid at now + 5. A new token is drawn exactly when the found token is missing or expires within the margin. In that case the store gains exactly that token with expiry now + 1440. Otherwise the found token is returned and the store is unchanged |
| `AuthService.Verify` | src/main/java/com/webapp/bankingportal/service/AuthServiceImpl.java:47-54 | an unknown token gives false and leaves the store unchanged. A stored token is removed whatever the verdict, and no other entry changes. The verdict is true exactly when the token was stored, belongs to the user and is valid now |
| `AuthService.Delete` | src/main/java/com/webapp/bankingportal/service/AuthServiceImpl.java:57-59 | the token's key is removed and every other entry keeps its record |
| `AuthService.ResetOutcome` | src/main/java/com/webapp/bankingportal/service/AuthServiceImpl.java:66-76 | status 200 exactly when the password change reported success; otherwise status 500. A false result and an exception give the same response. The success message goes with 200 and only with 200 |
| `AuthService.ResetPassword` | src/main/java/com/webapp/bankingportal/service/AuthServiceImpl.java:63-77 | a failed user lookup propagates unchanged; a resolved user gets the response for the password change's result |
| `AuthService.AuthServiceImpl.constructor` | src/main/java/com/webapp/bankingportal/service/AuthServiceImpl.java:23-29 | the service works on the repository it is given |
| `AuthService.AuthServiceImpl.GeneratePasswordResetToken` | src/main/java/com/webapp/bankingportal/service/AuthServiceImpl.java:32-44 | the returned token and the new store are what `Issue` gives for some legal find-by-user answer. The token is stored, is the user's and is valid at now + 5. A reused token leaves the store unchanged; a new one is added with expiry now + 1440 |
| `AuthService.AuthServiceImpl.VerifyPasswordResetToken` | src/main/java/com/webapp/bankingportal/service/AuthServiceImpl.java:47-54 | the verdict and the new store are those of `Verify` on the old store (consume-then-check) |
| `AuthService.AuthServiceImpl.DeletePasswordResetToken` | src/main/java/com/webapp/bankingportal/service/AuthServiceImpl.java:57-59 | the new store is the old one without the token |
| `TokenLifecycle.IssueReusesLiveToken` | src/main/java/com/webapp/bankingportal/service/AuthServiceImpl.java:33-36 | if every token the user owns is valid past now + 5, and there is one, issuance returns one of them and changes nothing, whichever the lookup found |
| `TokenLifecycle.IssueDrawsWithoutLiveToken` | src/main/java/com/webapp/bankingportal/service/AuthServiceImpl.java:33-43 | if the user owns no token valid past now + 5, issuance returns the drawn token and stores it for the user with expiry now + 1440; nothing else changes |
| `TokenLifecycle.StaleTokenOutlivesReissue` | src/main/java/com/webapp/bankingportal/service/AuthServiceImpl.java:38-43 | reissuing past a stale token returns a different token, and the stale record stays stored beside the new one. If the stale token has not yet expired, both tokens verify true for the user right after the reissue |
| `TokenLifecycle.StaleLookupDrawsAgain` | src/main/java/com/webapp/bankingportal/service/AuthServiceImpl.java:33-43 | after a reissue past a stale token, find-by-user may still return the stale token. Then the next issuance, at any later minute, draws another new token instead of returning the one just issued |
| `TokenLifecycle.RepeatedIssueReturnsSameToken` | src/main/java/com/webapp/bankingportal/service/AuthServiceImpl.java:33-43 | a user who owns at most one token, and none that is stale at either request, asks twice, the second time before the first token's expiry less the margin. That user gets the same token both times, and the second request leaves the store unchanged. This covers a user with no earlier token and a user whose one earlier token is reused |
| `TokenLifecycle.IssuedTokenVerifiesOnce` | src/main/java/com/webapp/bankingportal/service/AuthServiceImpl.java:32-54 | a token just issued verifies true for its owner at any minute up to now + 5, is consumed, and a second verification fails for any user |
| `TokenLifecycle.Run` | src/main/java/com/webapp/bankingportal/service/AuthServiceImpl.java:31-59 | serving a sequence of requests gives one reply per request |
| `TokenLifecycle.ServeKeepsAbsent` | src/main/java/com/webapp/bankingportal/service/AuthServiceImpl.java:38-58 | no request brings back an unstored token unless that token is the one newly drawn |
| `TokenLifecycle.AbsentTokenRejected` | src/main/java/com/webapp/bankingportal/service/AuthServiceImpl.java:48-53 | an unstored token is rejected by every later verification until the generator draws it again |
| `TokenLifecycle.VerifiedTokenIsConsumed` | src/main/java/com/webapp/bankingportal/service/AuthServiceImpl.java:49-51 | after any verification of a token, whatever its verdict, every later verification of it fails until that token is drawn again |
| `TokenLifecycle.AcceptedAtMostOnce` | src/main/java/com/webapp/bankingportal/service/AuthServiceImpl.java:49-53 | between two draws of a token, at most one verification of it succeeds |

## Left out

- The clock: the code reads the wall clock at line 39 and again at line 80. The model uses a single minute `now` for one call. Instants have minute precision.
- The random token: the UUID is the parameter `drawn`, assumed not yet stored. The model does not capture UUID format or randomness.
- The token entity's validity check is not part of this model. It is taken to be "now is strictly before the expiry".
- The user entity's equality is not part of this model. Users are equal when their ids are.
- Find-by-user when the user owns several tokens: the model lets it return any one of them. Whether the persistence layer raises an error there, or forbids a second token per user, is not visible in AuthServiceImpl.
- The user-management collaborator (lookup by identifier and the password change) is not modelled. Only its results are inputs: the lookup's user or error, and the change's success, failure or exception.
- The message texts: the application's message catalogue is not part of this model. The two messages are the distinct values `PasswordResetSuccess` and `PasswordResetFailure`.
- Logging of the exception (line 74) is left out. It has no effect on the result only because the lookup is assumed to yield a user or fail, and never to return null. A null user would make `user.getId()` at line 74 throw out of the handler, so no 500 response would be returned.
- ResetPassword: assumes the user lookup yields a user or an error, never null; the null case at line 74 is not modelled.
- VerifyPasswordResetToken: every service operation takes a `User` value, which cannot be null, so the null-user error paths are not modelled. In verification, a null user with a stored token gets that token deleted at line 50. Then `user.equals(...)` at line 51 throws a NullPointerException, so the caller gets an exception instead of `false`, and the token is consumed anyway. In issuance and reset, a null user reaches the repository lookup or the user service, whose behaviour is not part of this model.
- Transactional atomicity of the reset and races between concurrent issue and verify requests are left out. The model is sequential.
- The HTTP controller, the service interface and the response DTO are left out. They hold no logic.
- RepeatedIssueReturnsSameToken: the lemma covers only a user who owns at most one token, none of them stale at either request. Once a stale token is left beside a new one, the next issuance may find the stale token and draw a third token (`StaleLookupDrawsAgain`). If the stale token has not expired yet, the user holds two tokens that both verify (`StaleTokenOutlivesReissue`). So the code as written does not keep at most one active token per user.

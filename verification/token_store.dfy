/**
 * The password-reset token entity and the repository that persists it.
 * The repository is a mutable map from token string to the record stored
 * for it: the token's owner and its expiry instant.
 */
module PasswordResetTokens {
  import opened Wrappers

  /** Instants are whole minutes on the server clock. */
  type Minute = int

  /** An opaque token string. */
  type Token = string

  /** The user entity; two users are equal when their ids are. */
  datatype User = User(id: nat)

  /** What the repository keeps under one token. */
  datatype Record = Record(user: User, expiry: Minute) {
    /**
     * Validity of a stored token at instant `now`. The entity's own check is
     * not part of this model; it is taken to be "the expiry lies strictly in
     * the future".
     */
    predicate IsValidAt(now: Minute) {
      now < expiry
    }
  }

  /** The entity as the repository hands it out: the token with its record. */
  datatype PasswordResetToken = PasswordResetToken(token: Token, user: User, expiryDateTime: Minute) {
    /** The record kept for this entity; its validity is `Stored().IsValidAt(now)`. */
    function Stored(): Record {
      Record(user, expiryDateTime)
    }
  }

  /** The entity kept under `token` in store `m`. */
  function EntryAt(m: map<Token, Record>, token: Token): (e: PasswordResetToken)
    requires token in m
    ensures e.token == token && e.Stored() == m[token]
  {
    PasswordResetToken(token, m[token].user, m[token].expiry)
  }

  /** `token` is stored in `m` and belongs to `user`. */
  ghost predicate OwnedBy(m: map<Token, Record>, token: Token, user: User) {
    token in m && m[token].user == user
  }

  /**
   * The answers find-by-user may give on store `m`: nothing exactly when the
   * user owns no stored token, otherwise SOME token the user owns (which one
   * is up to the persistence layer).
   */
  ghost predicate IsUserLookup(m: map<Token, Record>, user: User, found: Option<PasswordResetToken>) {
    match found
    case None => forall t :: t in m ==> m[t].user != user
    case Some(e) => e.user == user && e.token in m && m[e.token] == e.Stored()
  }

  /** The token repository: find-by-token, find-by-user, save and delete-by-token. */
  class PasswordResetTokenRepository {
    var tokens: map<Token, Record>

    constructor ()
      ensures tokens == map[]
    {
      tokens := map[];
    }

    method FindByToken(token: Token) returns (found: Option<PasswordResetToken>)
      ensures found.Some? <==> token in tokens
      ensures found.Some? ==> found.value.token == token && found.value.Stored() == tokens[token]
    {
      if token in tokens {
        found := Some(EntryAt(tokens, token));
      } else {
        found := None;
      }
    }

    method FindByUser(user: User) returns (found: Option<PasswordResetToken>)
      ensures IsUserLookup(tokens, user, found)
    {
      if t :| t in tokens && tokens[t].user == user {
        found := Some(EntryAt(tokens, t));
      } else {
        found := None;
      }
    }

    /** Stores the entity under its token, replacing what that token held. */
    method Save(entity: PasswordResetToken)
      modifies this
      ensures tokens == old(tokens)[entity.token := entity.Stored()]
    {
      tokens := tokens[entity.token := entity.Stored()];
    }

    /** Removes the token if present; a missing token is no error. */
    method DeleteByToken(token: Token)
      modifies this
      ensures tokens == old(tokens) - {token}
    {
      tokens := tokens - {token};
    }
  }
}

/**
 * Properties of the token lifecycle: what issuance decides from the store
 * alone, what an issue-then-verify round does, and single use over any
 * sequence of service requests.
 */
module TokenLifecycle {
  import opened Wrappers
  import opened PasswordResetTokens
  import opened AuthService

  /** Some token of `user` in `m` is still good past the reuse margin at `now`. */
  ghost predicate HasReusableToken(m: map<Token, Record>, user: User, now: Minute) {
    exists t :: OwnedBy(m, t, user) && m[t].IsValidAt(now + ReuseMarginMinutes)
  }

  /** When every token the user owns is still good past the margin, issuance reuses one, whichever the lookup finds. */
  lemma IssueReusesLiveToken(m: map<Token, Record>, found: Option<PasswordResetToken>, user: User, now: Minute, drawn: Token)
    requires drawn !in m && IsUserLookup(m, user, found)
    requires HasReusableToken(m, user, now)
    requires forall t :: OwnedBy(m, t, user) ==> m[t].IsValidAt(now + ReuseMarginMinutes)
    ensures var r := Issue(m, found, user, now, drawn);
      r.reply != drawn && r.store == m && r.reply in m && m[r.reply].user == user
  {
  }

  /** When the user owns no token good past the margin, issuance stores and returns the drawn one. */
  lemma IssueDrawsWithoutLiveToken(m: map<Token, Record>, found: Option<PasswordResetToken>, user: User, now: Minute, drawn: Token)
    requires drawn !in m && IsUserLookup(m, user, found)
    requires !HasReusableToken(m, user, now)
    ensures Issue(m, found, user, now, drawn) == Step(drawn, m[drawn := Record(user, now + ExpirationMinutes)])
  {
  }

  /**
   * Issuing past a stale token does not remove it: the stale record stays
   * stored beside the new one, so the user then owns two tokens. A token
   * that expires within the margin but has not expired yet is still valid,
   * so right after the reissue both tokens verify for the user: the user
   * then holds two active tokens.
   */
  lemma StaleTokenOutlivesReissue(m: map<Token, Record>, found: Option<PasswordResetToken>, user: User, now: Minute, drawn: Token)
    requires drawn !in m && IsUserLookup(m, user, found)
    requires found.Some? && !found.value.Stored().IsValidAt(now + ReuseMarginMinutes)
    ensures var r := Issue(m, found, user, now, drawn);
      r.reply == drawn && r.reply != found.value.token &&
      OwnedBy(r.store, found.value.token, user) && OwnedBy(r.store, drawn, user)
    ensures var r := Issue(m, found, user, now, drawn);
      found.value.Stored().IsValidAt(now) ==>
        Verify(r.store, found.value.token, user, now).reply && Verify(r.store, drawn, user, now).reply
  {
  }

  /**
   * After a reissue past a stale token, find-by-user may still answer with
   * the stale token, and then the next issuance draws yet another token
   * instead of returning the one just issued.
   */
  lemma StaleLookupDrawsAgain(
    m: map<Token, Record>, found: Option<PasswordResetToken>, user: User, now: Minute, drawn: Token,
    now2: Minute, drawn2: Token)
    requires drawn !in m && IsUserLookup(m, user, found)
    requires found.Some? && !found.value.Stored().IsValidAt(now + ReuseMarginMinutes)
    requires now <= now2
    requires drawn2 !in Issue(m, found, user, now, drawn).store
    ensures var first := Issue(m, found, user, now, drawn);
      IsUserLookup(first.store, user, found) &&
      Issue(first.store, found, user, now2, drawn2).reply == drawn2 &&
      drawn2 != first.reply
  {
  }

  /**
   * A user who owns at most one token, and only one that stays good past the
   * margin at both requests, asks twice within the lifetime of the first
   * token (less the margin): the same token comes back twice, and the second
   * request changes nothing. A user without tokens is the case where the
   * first request draws the token.
   */
  lemma RepeatedIssueReturnsSameToken(
    m: map<Token, Record>, user: User,
    now: Minute, drawn: Token, found: Option<PasswordResetToken>,
    now2: Minute, drawn2: Token, found2: Option<PasswordResetToken>)
    requires drawn !in m && IsUserLookup(m, user, found)
    requires forall t1, t2 :: OwnedBy(m, t1, user) && OwnedBy(m, t2, user) ==> t1 == t2
    requires forall t :: OwnedBy(m, t, user) ==>
      m[t].IsValidAt(now + ReuseMarginMinutes) && m[t].IsValidAt(now2 + ReuseMarginMinutes)
    requires drawn2 !in Issue(m, found, user, now, drawn).store
    requires IsUserLookup(Issue(m, found, user, now, drawn).store, user, found2)
    requires now2 + ReuseMarginMinutes < now + ExpirationMinutes
    ensures var first := Issue(m, found, user, now, drawn);
      Issue(first.store, found2, user, now2, drawn2) == first
  {
  }

  /**
   * Issue then verify: the owner verifying within the reuse margin succeeds,
   * and any second verification of the same token fails.
   */
  lemma IssuedTokenVerifiesOnce(
    m: map<Token, Record>, found: Option<PasswordResetToken>, user: User, now: Minute, drawn: Token,
    later: Minute, user2: User, later2: Minute)
    requires drawn !in m && IsUserLookup(m, user, found)
    requires later <= now + ReuseMarginMinutes
    ensures var issued := Issue(m, found, user, now, drawn);
      var first := Verify(issued.store, issued.reply, user, later);
      first.reply && issued.reply !in first.store &&
      !Verify(first.store, issued.reply, user2, later2).reply
  {
  }

  /** A request to the service, with the answers of its environment. */
  datatype Request =
    | GenerateRequest(user: User, now: Minute, drawn: Token, found: Option<PasswordResetToken>)
    | VerifyRequest(token: Token, user: User, now: Minute)
    | DeleteRequest(token: Token)

  datatype Reply = Generated(token: Token) | Verified(ok: bool) | Deleted

  /** The environment's answers fit the store: a unique drawn token, a legal lookup. */
  ghost predicate Admissible(m: map<Token, Record>, req: Request) {
    req.GenerateRequest? ==> req.drawn !in m && IsUserLookup(m, req.user, req.found)
  }

  function Serve(m: map<Token, Record>, req: Request): (r: Step<Reply>)
    requires Admissible(m, req)
  {
    match req
    case GenerateRequest(user, now, drawn, found) =>
      var s := Issue(m, found, user, now, drawn);
      Step(Generated(s.reply), s.store)
    case VerifyRequest(token, user, now) =>
      var s := Verify(m, token, user, now);
      Step(Verified(s.reply), s.store)
    case DeleteRequest(token) =>
      Step(Deleted, Delete(m, token))
  }

  ghost predicate AdmissibleTrace(m: map<Token, Record>, reqs: seq<Request>)
    decreases |reqs|
  {
    reqs == [] || (Admissible(m, reqs[0]) && AdmissibleTrace(Serve(m, reqs[0]).store, reqs[1..]))
  }

  /** Serving the requests in order: one reply per request, and the final store. */
  function Run(m: map<Token, Record>, reqs: seq<Request>): (r: Step<seq<Reply>>)
    requires AdmissibleTrace(m, reqs)
    ensures |r.reply| == |reqs|
    decreases |reqs|
  {
    if reqs == [] then Step([], m)
    else
      var first := Serve(m, reqs[0]);
      var rest := Run(first.store, reqs[1..]);
      Step([first.reply] + rest.reply, rest.store)
  }

  /** A token absent from the store stays absent through any request that does not draw it. */
  lemma ServeKeepsAbsent(m: map<Token, Record>, req: Request, t: Token)
    requires Admissible(m, req) && t !in m
    requires req.GenerateRequest? ==> req.drawn != t
    ensures t !in Serve(m, req).store
  {
  }

  /**
   * A token that is not stored is rejected by every verification until the
   * random generator draws it again.
   */
  lemma {:induction false} AbsentTokenRejected(m: map<Token, Record>, reqs: seq<Request>, t: Token, j: nat)
    requires AdmissibleTrace(m, reqs) && t !in m
    requires j < |reqs| && reqs[j].VerifyRequest? && reqs[j].token == t
    requires forall k :: 0 <= k < j && reqs[k].GenerateRequest? ==> reqs[k].drawn != t
    ensures Run(m, reqs).reply[j] == Verified(false)
    decreases j
  {
    if j > 0 {
      ServeKeepsAbsent(m, reqs[0], t);
      AbsentTokenRejected(Serve(m, reqs[0]).store, reqs[1..], t, j - 1);
    }
  }

  /**
   * Single use: once a token has been through verification, whatever the
   * verdict, every later verification of it fails until the random
   * generator draws it again.
   */
  lemma {:induction false} VerifiedTokenIsConsumed(m: map<Token, Record>, reqs: seq<Request>, i: nat, j: nat)
    requires AdmissibleTrace(m, reqs)
    requires i < j < |reqs|
    requires reqs[i].VerifyRequest? && reqs[j].VerifyRequest? && reqs[j].token == reqs[i].token
    requires forall k :: i < k < j && reqs[k].GenerateRequest? ==> reqs[k].drawn != reqs[i].token
    ensures Run(m, reqs).reply[j] == Verified(false)
    decreases i
  {
    var next := Serve(m, reqs[0]).store;
    if i == 0 {
      AbsentTokenRejected(next, reqs[1..], reqs[0].token, j - 1);
    } else {
      VerifiedTokenIsConsumed(next, reqs[1..], i - 1, j - 1);
    }
  }

  /** Consequently a token is accepted at most once between two draws of it. */
  lemma AcceptedAtMostOnce(m: map<Token, Record>, reqs: seq<Request>, i: nat, j: nat)
    requires AdmissibleTrace(m, reqs)
    requires i < j < |reqs|
    requires reqs[i].VerifyRequest? && reqs[j].VerifyRequest? && reqs[j].token == reqs[i].token
    requires forall k :: i < k < j && reqs[k].GenerateRequest? ==> reqs[k].drawn != reqs[i].token
    ensures !(Run(m, reqs).reply[i] == Verified(true) && Run(m, reqs).reply[j] == Verified(true))
  {
    VerifiedTokenIsConsumed(m, reqs, i, j);
  }
}

/** Refresh-token rotation with family-wide reuse detection, the scheme of section 4.14 of RFC 9700
    (backend/app/modules/auth/service.py and repository.py). Hashes are taken as collision-free, so a
    token is the position of its row; a family is named by the position of its first token. */
module RefreshTokens {
  import opened Wrappers

  datatype Token = Token(user: int, family: nat, expires: int, revoked: bool)

  datatype Op =
    | Login(user: int, expires: int)
    | Refresh(token: nat, now: int, userActive: bool, expires: int)
    | Logout(token: nat)
    | ResetPassword(user: int)

  datatype Outcome = Issued(token: nat) | UnknownToken | ReuseDetected | Expired | Inactive | Finished

  /** `revoke_family` and `revoke_all_for_user` as bulk updates. */
  function RevokeFamily(tokens: seq<Token>, family: nat): seq<Token> {
    seq(|tokens|, i requires 0 <= i < |tokens| =>
      if tokens[i].family == family then tokens[i].(revoked := true) else tokens[i])
  }

  function RevokeUser(tokens: seq<Token>, user: int): seq<Token> {
    seq(|tokens|, i requires 0 <= i < |tokens| =>
      if tokens[i].user == user then tokens[i].(revoked := true) else tokens[i])
  }

  function RevokeOne(tokens: seq<Token>, t: nat): seq<Token>
    requires t < |tokens|
  {
    tokens[t := tokens[t].(revoked := true)]
  }

  /** What a refresh answers, decided before anything is written. */
  function Judge(tokens: seq<Token>, t: nat, now: int, userActive: bool): Outcome {
    if t >= |tokens| then UnknownToken
    else if tokens[t].revoked then ReuseDetected
    else if tokens[t].expires < now then Expired
    else if !userActive then Inactive
    else Issued(|tokens|)
  }

  /** The answer of a request. */
  function Answer(tokens: seq<Token>, op: Op): Outcome {
    match op
    case Login(_, _) => Issued(|tokens|)
    case Refresh(t, now, userActive, _) => Judge(tokens, t, now, userActive)
    case _ => Finished
  }

  /** The rows after a request. A refused refresh rolls back, except for the family revocation, which
      commits in a session of its own. */
  function Step(tokens: seq<Token>, op: Op): seq<Token> {
    match op
    case Login(user, expires) => tokens + [Token(user, |tokens|, expires, false)]
    case Refresh(t, now, userActive, expires) =>
      (match Judge(tokens, t, now, userActive)
       case ReuseDetected => if t < |tokens| then RevokeFamily(tokens, tokens[t].family) else tokens
       case Issued(_) =>
         if t < |tokens| then RevokeOne(tokens, t) + [Token(tokens[t].user, tokens[t].family, expires, false)]
         else tokens
       case _ => tokens)
    case Logout(t) => if t < |tokens| then RevokeOne(tokens, t) else tokens
    case ResetPassword(user) => RevokeUser(tokens, user)
  }

  class AuthService {
    var tokens: seq<Token>

    constructor ()
      ensures tokens == []
    {
      tokens := [];
    }

    method IssueToken(user: int, family: Option<nat>, expires: int) returns (token: nat)
      modifies this
      ensures token == |old(tokens)|
      ensures tokens == old(tokens) + [Token(user, family.GetOr(|old(tokens)|), expires, false)]
    {
      token := |tokens|;
      tokens := tokens + [Token(user, family.GetOr(|tokens|), expires, false)];
    }

    method RefreshToken(t: nat, now: int, userActive: bool, expires: int) returns (outcome: Outcome)
      modifies this
      ensures outcome == Answer(old(tokens), Refresh(t, now, userActive, expires))
      ensures tokens == Step(old(tokens), Refresh(t, now, userActive, expires))
    {
      if t >= |tokens| { return UnknownToken; }
      var record := tokens[t];
      if record.revoked {
        tokens := RevokeFamily(tokens, record.family);
        return ReuseDetected;
      }
      if record.expires < now { return Expired; }
      if !userActive { return Inactive; }
      tokens := tokens[t := record.(revoked := true)];
      var token := IssueToken(record.user, Some(record.family), expires);
      return Issued(token);
    }

    method LogOut(t: nat)
      modifies this
      ensures tokens == Step(old(tokens), Logout(t))
    {
      if t < |tokens| && !tokens[t].revoked {
        tokens := tokens[t := tokens[t].(revoked := true)];
      }
    }

    method ConfirmPasswordReset(user: int)
      modifies this
      ensures tokens == Step(old(tokens), ResetPassword(user))
    {
      tokens := RevokeUser(tokens, user);
    }
  }

  function Run(tokens: seq<Token>, ops: seq<Op>): seq<Token> {
    if ops == [] then tokens else Step(Run(tokens, ops[..|ops| - 1]), ops[|ops| - 1])
  }

  /** The token rows just before the k-th request. */
  function Before(ops: seq<Op>, k: nat): seq<Token>
    requires k <= |ops|
  {
    Run([], ops[..k])
  }

  /** Within a family every token but the newest is revoked, and one user owns them all. */
  ghost predicate Inv(tokens: seq<Token>) {
    (forall i :: 0 <= i < |tokens| ==> tokens[i].family <= i) &&
    (forall i, j :: 0 <= i < j < |tokens| && tokens[i].family == tokens[j].family ==>
       tokens[i].revoked && tokens[i].user == tokens[j].user)
  }

  lemma StepKeepsInv(tokens: seq<Token>, op: Op)
    requires Inv(tokens)
    ensures Inv(Step(tokens, op))
  {
  }

  lemma {:induction false} RunKeepsInv(ops: seq<Op>)
    ensures Inv(Run([], ops))
  {
    if ops != [] {
      RunKeepsInv(ops[..|ops| - 1]);
      StepKeepsInv(Run([], ops[..|ops| - 1]), ops[|ops| - 1]);
    }
  }

  ghost predicate Usable(tokens: seq<Token>, t: nat) { t < |tokens| && !tokens[t].revoked }

  /** At any moment of any run a family has at most one token that is not revoked, and it is the newest
      the family has. */
  lemma OnlyTheNewestIsUsable(ops: seq<Op>, t: nat)
    requires Usable(Run([], ops), t)
    ensures var tokens := Run([], ops);
            forall u :: 0 <= u < |tokens| && tokens[u].family == tokens[t].family && u != t ==>
                u < t && tokens[u].revoked
  {
    RunKeepsInv(ops);
  }

  /** Rows keep their user, family and expiry; a revocation is never taken back. */
  ghost predicate Later(a: seq<Token>, b: seq<Token>) {
    |a| <= |b| &&
    forall i :: 0 <= i < |a| ==>
      b[i].user == a[i].user && b[i].family == a[i].family && b[i].expires == a[i].expires &&
      (a[i].revoked ==> b[i].revoked)
  }

  lemma {:induction false} RunIsLater(tokens: seq<Token>, ops: seq<Op>)
    ensures Later(tokens, Run(tokens, ops))
  {
    if ops != [] {
      RunIsLater(tokens, ops[..|ops| - 1]);
      var mid := Run(tokens, ops[..|ops| - 1]);
      assert Later(mid, Step(mid, ops[|ops| - 1]));
    }
  }

  lemma {:induction false} RunConcat(tokens: seq<Token>, a: seq<Op>, b: seq<Op>)
    ensures Run(tokens, a + b) == Run(Run(tokens, a), b)
  {
    if b == [] {
      assert a + b == a;
    } else {
      RunConcat(tokens, a, b[..|b| - 1]);
      assert (a + b)[..|a + b| - 1] == a + b[..|b| - 1];
    }
  }

  /** The k-th request is a refresh that exchanges token `t` for a new one. */
  ghost predicate Exchanges(ops: seq<Op>, k: nat, t: nat)
    requires k < |ops|
  {
    ops[k].Refresh? && ops[k].token == t && Answer(Before(ops, k), ops[k]).Issued?
  }

  /** The state at a later position follows from the state after request `i`. */
  lemma LaterState(ops: seq<Op>, i: nat, j: nat)
    requires i < j <= |ops|
    ensures Before(ops, j) == Run(Step(Before(ops, i), ops[i]), ops[i + 1..j])
    ensures Later(Step(Before(ops, i), ops[i]), Before(ops, j))
  {
    assert ops[..j] == ops[..i + 1] + ops[i + 1..j];
    assert ops[..i + 1][..i] == ops[..i];
    RunConcat([], ops[..i + 1], ops[i + 1..j]);
    RunIsLater(Step(Before(ops, i), ops[i]), ops[i + 1..j]);
  }

  /** Every token is exchanged successfully at most once in its life. */
  lemma ExchangedAtMostOnce(ops: seq<Op>, i: nat, j: nat, t: nat)
    requires i < j < |ops| && Exchanges(ops, i, t)
    ensures !Exchanges(ops, j, t)
  {
    LaterState(ops, i, j);
    assert Step(Before(ops, i), ops[i])[t].revoked;
  }

  /** No token of the family can be used. */
  ghost predicate Dead(tokens: seq<Token>, family: nat) {
    family < |tokens| && forall i :: 0 <= i < |tokens| && tokens[i].family == family ==> tokens[i].revoked
  }

  lemma {:induction false} DeathIsForever(tokens: seq<Token>, family: nat, ops: seq<Op>)
    requires Dead(tokens, family)
    ensures Dead(Run(tokens, ops), family)
  {
    if ops != [] { DeathIsForever(tokens, family, ops[..|ops| - 1]); }
  }

  /** Reuse detection: once a revoked token has been presented, its family has no usable token at any
      later time, and every later refresh on any of its tokens is itself reported as reuse. */
  lemma ReuseKillsTheFamily(ops: seq<Op>, i: nat, j: nat)
    requires i < j <= |ops| && ops[i].Refresh?
    requires ops[i].token < |Before(ops, i)| && Before(ops, i)[ops[i].token].revoked
    ensures Answer(Before(ops, i), ops[i]) == ReuseDetected
    ensures var family := Before(ops, i)[ops[i].token].family;
            Dead(Before(ops, j), family) &&
            ((j < |ops| && ops[j].Refresh? && ops[j].token < |Before(ops, j)| &&
              Before(ops, j)[ops[j].token].family == family) ==> Answer(Before(ops, j), ops[j]) == ReuseDetected)
  {
    RunKeepsInv(ops[..i]);
    var family := Before(ops, i)[ops[i].token].family;
    LaterState(ops, i, j);
    assert Dead(Step(Before(ops, i), ops[i]), family);
    DeathIsForever(Step(Before(ops, i), ops[i]), family, ops[i + 1..j]);
  }

  /** A password reset ends every session the user has, and no refresh brings one back: only a new login
      of that user yields a usable token of theirs. */
  lemma {:induction false} ResetEndsSessions(tokens: seq<Token>, user: int, ops: seq<Op>, t: nat)
    requires Inv(tokens) && (forall k :: 0 <= k < |ops| && ops[k].Login? ==> ops[k].user != user)
    ensures var after := Run(Step(tokens, ResetPassword(user)), ops);
            Inv(after) && (t < |after| && after[t].user == user ==> after[t].revoked)
  {
    StepKeepsInv(tokens, ResetPassword(user));
    if ops != [] {
      var front := ops[..|ops| - 1];
      var mid := Run(Step(tokens, ResetPassword(user)), front);
      ResetEndsSessions(tokens, user, front, t);
      StepKeepsInv(mid, ops[|ops| - 1]);
      if ops[|ops| - 1].Refresh? { ResetEndsSessions(tokens, user, front, ops[|ops| - 1].token); }
    }
  }

  // ---- What each request does to each token ----

  /** A refresh is granted exactly for a known token that is not revoked and has not expired, of an active
      user; a refusal names the first of these that fails. */
  lemma RefreshGrantedExactly(tokens: seq<Token>, t: nat, now: int, userActive: bool, expires: int)
    ensures var answer := Answer(tokens, Refresh(t, now, userActive, expires));
            && (answer == UnknownToken <==> t >= |tokens|)
            && (answer == ReuseDetected <==> t < |tokens| && tokens[t].revoked)
            && (answer == Expired <==> t < |tokens| && !tokens[t].revoked && tokens[t].expires < now)
            && (answer == Inactive <==>
                t < |tokens| && !tokens[t].revoked && now <= tokens[t].expires && !userActive)
            && (answer == Issued(|tokens|) <==>
                t < |tokens| && !tokens[t].revoked && now <= tokens[t].expires && userActive)
  {
  }

  /** Request `op` ends token `t` of a table in which it could still be used: it is exchanged, its family is
      caught in a reuse, it is logged out, or its user resets the password. */
  predicate Ends(tokens: seq<Token>, op: Op, t: nat)
    requires t < |tokens|
  {
    match op
    case Login(_, _) => false
    case Refresh(u, now, userActive, _) =>
      (u == t && now <= tokens[t].expires && userActive) ||
      (u < |tokens| && tokens[u].revoked && tokens[u].family == tokens[t].family)
    case Logout(u) => u == t
    case ResetPassword(user) => user == tokens[t].user
  }

  /** Request `op` adds a token, and this is it: of a new family after a login, of the exchanged token's user
      and family after a refresh. */
  predicate Adds(tokens: seq<Token>, op: Op, token: Token) {
    match op
    case Login(user, expires) => token == Token(user, |tokens|, expires, false)
    case Refresh(u, now, userActive, expires) =>
      u < |tokens| && !tokens[u].revoked && now <= tokens[u].expires && userActive &&
      token == Token(tokens[u].user, tokens[u].family, expires, false)
    case _ => false
  }

  /** A request revokes the tokens it ends and no other, adds at most the token it should, and changes
      nothing else about any token. */
  lemma StepExactly(tokens: seq<Token>, op: Op)
    ensures var after := Step(tokens, op);
            && |tokens| <= |after| <= |tokens| + 1
            && (|after| == |tokens| + 1 <==> exists token :: Adds(tokens, op, token))
            && (|after| == |tokens| + 1 ==> Adds(tokens, op, after[|tokens|]))
            && forall t :: 0 <= t < |tokens| ==>
                 after[t] == tokens[t].(revoked := tokens[t].revoked || Ends(tokens, op, t))
  {
    if |Step(tokens, op)| == |tokens| + 1 { assert Adds(tokens, op, Step(tokens, op)[|tokens|]); }
  }

  /** The k-th request issues token `t`. */
  ghost predicate IssuedBy(ops: seq<Op>, k: nat, t: nat)
    requires k < |ops|
  {
    |Before(ops, k)| == t && exists token :: Adds(Before(ops, k), ops[k], token)
  }

  ghost predicate EndedBy(ops: seq<Op>, j: nat, t: nat)
    requires j < |ops|
  {
    t < |Before(ops, j)| && Ends(Before(ops, j), ops[j], t)
  }

  /** Token `t` was issued by the k-th request and has not been ended since. */
  ghost predicate LivesSince(ops: seq<Op>, k: nat, n: nat, t: nat)
    requires n <= |ops|
  {
    k < n && IssuedBy(ops, k, t) && forall j: nat :: k < j < n ==> !EndedBy(ops, j, t)
  }

  lemma BeforeNext(ops: seq<Op>, k: nat)
    requires k < |ops|
    ensures Before(ops, k + 1) == Step(Before(ops, k), ops[k])
  {
    assert ops[..k + 1][..k] == ops[..k];
  }

  ghost predicate Lives(ops: seq<Op>, n: nat, t: nat)
    requires n <= |ops|
  {
    exists k: nat :: LivesSince(ops, k, n, t)
  }

  /** A token that was there before a request lives on unless the request ends it. */
  lemma OldTokenLives(ops: seq<Op>, n: nat, t: nat)
    requires n < |ops| && t < |Before(ops, n)|
    ensures Lives(ops, n + 1, t) <==> Lives(ops, n, t) && !EndedBy(ops, n, t)
  {
    if Lives(ops, n + 1, t) {
      var k: nat :| LivesSince(ops, k, n + 1, t);
      OldTokensKeep(ops, n, t, k);
    }
    if Lives(ops, n, t) && !EndedBy(ops, n, t) {
      var k: nat :| LivesSince(ops, k, n, t);
      assert LivesSince(ops, k, n + 1, t);
    }
  }

  /** A token that was not there lives exactly if the request issues it. */
  lemma NewTokenLives(ops: seq<Op>, n: nat, t: nat)
    requires n < |ops| && t >= |Before(ops, n)|
    ensures Lives(ops, n + 1, t) <==> IssuedBy(ops, n, t)
  {
    if Lives(ops, n + 1, t) {
      var k: nat :| LivesSince(ops, k, n + 1, t);
      TokensStay(ops, k, n, t);
    }
    if IssuedBy(ops, n, t) { assert LivesSince(ops, n, n + 1, t); }
  }

  lemma UsableNext(ops: seq<Op>, n: nat, t: nat)
    requires n < |ops| && (Usable(Before(ops, n), t) <==> Lives(ops, n, t))
    ensures Usable(Before(ops, n + 1), t) <==> Lives(ops, n + 1, t)
  {
    BeforeNext(ops, n);
    StepExactly(Before(ops, n), ops[n]);
    if t < |Before(ops, n)| { OldTokenLives(ops, n, t); } else { NewTokenLives(ops, n, t); }
  }

  lemma {:induction false} UsableAt(ops: seq<Op>, n: nat, t: nat)
    requires n <= |ops|
    ensures Usable(Before(ops, n), t) <==> Lives(ops, n, t)
  {
    if n > 0 {
      UsableAt(ops, n - 1, t);
      UsableNext(ops, n - 1, t);
    }
  }

  /** A token that existed before request `n` was not issued by it. */
  lemma OldTokensKeep(ops: seq<Op>, n: nat, t: nat, k: nat)
    requires n < |ops| && t < |Before(ops, n)| && LivesSince(ops, k, n + 1, t)
    ensures LivesSince(ops, k, n, t) && !EndedBy(ops, n, t)
  {
  }

  /** Once issued a token stays in the table. */
  lemma {:induction false} TokensStay(ops: seq<Op>, k: nat, n: nat, t: nat)
    requires k <= n < |ops| && IssuedBy(ops, k, t)
    ensures k < n ==> t < |Before(ops, n)|
  {
    if k < n {
      TokensStay(ops, k, n - 1, t);
      BeforeNext(ops, n - 1);
      StepExactly(Before(ops, n - 1), ops[n - 1]);
    }
  }

  /** Exactly when a token can be used, over whole runs: it has been issued, and since then it was not
      exchanged, not logged out, its family not caught in a reuse and its user's password not reset. */
  lemma UsableExactly(ops: seq<Op>, t: nat)
    ensures Usable(Run([], ops), t) <==> exists k: nat :: LivesSince(ops, k, |ops|, t)
  {
    UsableAt(ops, |ops|, t);
    assert ops[..|ops|] == ops;
  }
}

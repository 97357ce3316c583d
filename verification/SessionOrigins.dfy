/** When a session call succeeds, and where every password, token and revocation comes from. */
module SessionOrigins {
  import opened Common
  import opened Sessions

  // ---------------------------------------------------------------- passwords

  /** The call changed the account's password: the account gave its current one, or a reset token of it was redeemed. */
  predicate SetsPassword(r: Run, account: Account, password: string) {
    r.Then? &&
    match r.op
    case ChangePassword(a, current, p) =>
      && a == account && p == password
      && account in Exec(r.prev).passwords && Exec(r.prev).passwords[account] == current
    case RedeemPasswordResetToken(reset, p) =>
      && p == password && reset < |Exec(r.prev).resets|
      && var token := Exec(r.prev).resets[reset];
         token.account == account && token.usedAt.None? && r.at < token.expiresAt
    case _ => false
  }

  /**
   * Whatever the call, a password is set exactly by a change that gave the current one or by a
   * redemption of an unused, unexpired token, and every other password stays as it was.
   */
  lemma PasswordsMoveOnlyBySetting(r: Run, account: Account)
    requires r.Then?
    ensures forall password | SetsPassword(r, account, password) ::
              ResultOf(r) == Ok(Done) && Exec(r).passwords == Exec(r.prev).passwords[account := password]
    ensures (forall password :: !SetsPassword(r, account, password)) ==>
              && (account in Exec(r).passwords <==> account in Exec(r.prev).passwords)
              && (account in Exec(r).passwords ==> Exec(r).passwords[account] == Exec(r.prev).passwords[account])
  {
    match r.op {
      case ChangePassword(a, current, password) => assert ResultOf(r).Ok? ==> SetsPassword(r, a, password);
      case RedeemPasswordResetToken(reset, password) =>
        assert ResultOf(r).Ok? ==> SetsPassword(r, Exec(r.prev).resets[reset].account, password);
      case _ =>
    }
  }

  /** A change of password succeeds exactly with the current one; otherwise it throws and changes nothing. */
  lemma ChangesPasswordIff(r: Run)
    requires r.Then? && r.op.ChangePassword?
    ensures ResultOf(r).Ok?
       <==> r.op.account in Exec(r.prev).passwords && Exec(r.prev).passwords[r.op.account] == r.op.current
    ensures ResultOf(r).Ok? ==> Exec(r).passwords == Exec(r.prev).passwords[r.op.account := r.op.password]
    ensures ResultOf(r).Throw? ==> ResultOf(r) == Throw(InvalidCurrentPassword) && Exec(r) == Exec(r.prev)
  {
    PasswordsMoveOnlyBySetting(r, r.op.account);
  }

  /** In every run a password is the one its account started with, or the one the last call that set it gave. */
  lemma {:induction false} PasswordsAreTraced(r: Run, account: Account) returns (s: Run)
    requires account in Exec(r).passwords
    ensures Extends(r, s)
    ensures if s.Start? then account in s.passwords && s.passwords[account] == Exec(r).passwords[account]
            else SetsPassword(s, account, Exec(r).passwords[account])
    ensures forall later, password | Extends(r, later) && Extends(later, s) && SetsPassword(later, account, password) :: later == s
  {
    if r.Start? {
      s := r;
    } else if password :| SetsPassword(r, account, password) {
      s := r;
      PasswordsMoveOnlyBySetting(r, account);
      forall later, p | Extends(r, later) && Extends(later, r) && SetsPassword(later, account, p) ensures later == r {
        ExtendsIsAntisymmetric(r, later);
      }
    } else {
      PasswordsMoveOnlyBySetting(r, account);
      s := PasswordsAreTraced(r.prev, account);
    }
  }

  function Length(r: Run): nat {
    if r.Start? then 0 else Length(r.prev) + 1
  }

  lemma {:induction false} ExtendsIsLonger(later: Run, r: Run)
    requires Extends(later, r)
    ensures Length(r) <= Length(later) && (Length(r) == Length(later) ==> r == later)
  {
    if later != r {
      ExtendsIsLonger(later.prev, r);
    }
  }

  lemma ExtendsIsAntisymmetric(r: Run, s: Run)
    requires Extends(r, s) && Extends(s, r)
    ensures r == s
  {
    ExtendsIsLonger(r, s);
    ExtendsIsLonger(s, r);
  }

  // ---------------------------------------------------------------- tokens

  /** Rotation by the state of the token presented. */
  lemma RotatesIff(r: Run)
    requires r.Then? && r.op.RotateRefreshToken?
    ensures var tokens, token := Exec(r.prev).tokens, r.op.token;
            && (ResultOf(r).Ok? && ResultOf(r).value.Issued?
                <==> token < |tokens| && tokens[token].revokedAt.None? && r.op.wall <= tokens[token].expiresAt)
            && (ResultOf(r) == Throw(RefreshTokenReuseDetected) <==> token < |tokens| && tokens[token].revokedAt.Some?)
            && (ResultOf(r) == Ok(Rejected)
                <==> token < |tokens| ==> tokens[token].revokedAt.None? && tokens[token].expiresAt < r.op.wall)
  {
  }

  /** The call issued token `i`: a sign-in, or the rotation of a live, unexpired token of the same account. */
  predicate Issues(r: Run, i: Id, t: RefreshToken) {
    && r.Then? && i == |Exec(r.prev).tokens|
    && match r.op
       case IssueRefreshToken(account, wall) => t.account == account && t.expiresAt == wall + 30.0
       case RotateRefreshToken(token, wall) =>
         && token < i && t.expiresAt == wall + 30.0
         && var row := Exec(r.prev).tokens[token];
            row.account == t.account && row.revokedAt.None? && wall <= row.expiresAt
       case _ => false
  }

  /** The call is the sign-out of exactly this token. */
  predicate SignsOutOne(r: Run, i: Id) {
    r.Then? && r.op.RevokeRefreshToken? && r.op.token == i
  }

  lemma TokenStep(r: Run, i: Id)
    requires r.Then? && i < |Exec(r).tokens|
    ensures var before, after := Exec(r.prev).tokens, Exec(r).tokens[i];
            if i < |before| then
              && after.account == before[i].account && after.expiresAt == before[i].expiresAt
              && (after.revokedAt == before[i].revokedAt
                  || (before[i].revokedAt.None? && after.revokedAt == Some(r.at)
                      && (SignsOut(r, after.account) || Rotates(r, i) || SignsOutOne(r, i))))
              && (SignsOut(r, after.account) || Rotates(r, i) || SignsOutOne(r, i) ==> after.revokedAt.Some?)
            else Issues(r, i, after) && after.revokedAt.None?
  {
  }

  /** Every token was issued by one sign-in or rotation, for thirty days from its wall clock. */
  lemma {:induction false} TokensAreTraced(r: Run, i: Id) returns (s: Run)
    requires i < |Exec(r).tokens|
    ensures Extends(r, s) && Issues(s, i, Exec(r).tokens[i])
  {
    TokenStep(r, i);
    if i < |Exec(r.prev).tokens| {
      s := TokensAreTraced(r.prev, i);
    } else {
      s := r;
    }
  }

  /**
   * A token is revoked exactly when, since it was issued, its account was signed out everywhere, or
   * the token itself was rotated or signed out; and it carries the time of the first such call.
   */
  lemma {:induction false} RevocationsAreTraced(r: Run, i: Id) returns (s: Run)
    requires i < |Exec(r).tokens| && Exec(r).tokens[i].revokedAt.Some?
    ensures Extends(r, s) && s.Then? && i < |Exec(s.prev).tokens|
    ensures Exec(r).tokens[i].revokedAt == Some(s.at) && Exec(s.prev).tokens[i].revokedAt.None?
    ensures SignsOut(s, Exec(r).tokens[i].account) || Rotates(s, i) || SignsOutOne(s, i)
  {
    TokenStep(r, i);
    if i < |Exec(r.prev).tokens| && Exec(r.prev).tokens[i].revokedAt.Some? {
      s := RevocationsAreTraced(r.prev, i);
    } else {
      s := r;
    }
  }

  /** And such a call always leaves it revoked, for good. */
  lemma SignedOutTokensAreRevoked(r: Run, s: Run, i: Id)
    requires Extends(r, s) && s.Then? && i < |Exec(s.prev).tokens|
    requires SignsOut(s, Exec(s.prev).tokens[i].account) || Rotates(s, i) || SignsOutOne(s, i)
    ensures i < |Exec(r).tokens| && Exec(r).tokens[i].revokedAt.Some?
  {
    StepMovesTokens(Exec(s.prev), s.op, s.at);
    TokenStep(s, i);
    RevokedForever(r, s, i);
  }

  // ---------------------------------------------------------------- reset tokens and members

  /** Sign-in and sign-out never fail; redemption, reset requests and activation go by what the tables hold before the call. */
  lemma AccountCallsSucceedIff(r: Run)
    requires r.Then?
    ensures r.op.IssueRefreshToken? ==>
              ResultOf(r) == Ok(Issued(r.op.account, |Exec(r.prev).tokens|)) && |Exec(r).tokens| == |Exec(r.prev).tokens| + 1
    ensures r.op.RevokeRefreshToken? ==> ResultOf(r) == Ok(Done)
    ensures r.op.RedeemPasswordResetToken? ==>
              && (ResultOf(r).Ok?
                  <==> r.op.reset < |Exec(r.prev).resets| && Exec(r.prev).resets[r.op.reset].usedAt.None?
                       && r.at < Exec(r.prev).resets[r.op.reset].expiresAt)
              && (ResultOf(r).Throw? ==> ResultOf(r) == Throw(InvalidResetToken) && Exec(r) == Exec(r.prev))
    ensures r.op.CreatePasswordResetToken? ==>
              var known := r.op.account in Exec(r.prev).passwords;
              ResultOf(r) == Ok(if known then Done else Rejected)
              && |Exec(r).resets| == |Exec(r.prev).resets| + if known then 1 else 0
    ensures r.op.SetClientUserActive? ==>
              && (ResultOf(r).Ok?
                  <==> r.op.user in Exec(r.prev).members && Exec(r.prev).members[r.op.user].organisation == r.op.organisation)
              && (ResultOf(r).Throw? ==> ResultOf(r) == Throw(ClientUserNotFound) && Exec(r) == Exec(r.prev))
  {
  }

  /** Every reset token was asked for by its account, for an hour, and is used once, by the redemption of it. */
  predicate RequestsReset(r: Run, i: Id, t: ResetToken) {
    && r.Then? && r.op.CreatePasswordResetToken? && i == |Exec(r.prev).resets|
    && r.op.account == t.account && t.account in Exec(r.prev).passwords && t.expiresAt == r.op.wall + 1.0 / 24.0
  }

  lemma {:induction false} ResetsAreTraced(r: Run, i: Id) returns (s: Run)
    requires i < |Exec(r).resets|
    ensures Extends(r, s) && RequestsReset(s, i, Exec(r).resets[i])
  {
    if i < |Exec(r.prev).resets| {
      s := ResetsAreTraced(r.prev, i);
    } else {
      s := r;
    }
  }

  lemma {:induction false} UsesAreTraced(r: Run, i: Id) returns (s: Run)
    requires i < |Exec(r).resets| && Exec(r).resets[i].usedAt.Some?
    ensures Extends(r, s) && Redeems(s, i) && Exec(r).resets[i].usedAt == Some(s.at)
  {
    if i < |Exec(r.prev).resets| && Exec(r.prev).resets[i].usedAt.Some? {
      s := UsesAreTraced(r.prev, i);
    } else {
      s := r;
    }
  }

  /** The organisation a client user starts with never changes; its activity is the last setting of its own organisation. */
  function LastActivity(r: Run, user: Id, organisation: Id): Option<bool> {
    match r
    case Start(_, _) => None
    case Then(prev, op, _) =>
      if op.SetClientUserActive? && op.user == user && op.organisation == organisation then Some(op.active)
      else LastActivity(prev, user, organisation)
  }

  function Beginning(r: Run): Run {
    if r.Start? then r else Beginning(r.prev)
  }

  lemma {:induction false} MembersAreTraced(r: Run, user: Id)
    ensures Beginning(r).Start?
    ensures user in Exec(r).members <==> user in Beginning(r).members
    ensures user in Exec(r).members ==>
              var first := Beginning(r).members[user];
              Exec(r).members[user]
              == Member(first.organisation,
                        if LastActivity(r, user, first.organisation).Some? then LastActivity(r, user, first.organisation).value
                        else first.active)
  {
    if r.Then? {
      MembersAreTraced(r.prev, user);
    }
  }

  // ---------------------------------------------------------------- the log

  /** The security event a call reports, when it reports one. */
  function Reported(r: Run): seq<Event>
    requires r.Then?
  {
    match r.op
    case RotateRefreshToken(token, _) =>
      if token < |Exec(r.prev).tokens| && Exec(r.prev).tokens[token].revokedAt.Some?
      then [ReuseDetected(Exec(r.prev).tokens[token].account)] else []
    case ChangePassword(account, _, _) => if ResultOf(r).Ok? then [PasswordChanged(account)] else []
    case CreatePasswordResetToken(account, _) =>
      if account in Exec(r.prev).passwords then [PasswordResetRequested(account)] else []
    case RedeemPasswordResetToken(reset, _) =>
      if ResultOf(r).Ok? && reset < |Exec(r.prev).resets| then [PasswordResetCompleted(Exec(r.prev).resets[reset].account)] else []
    case SetClientUserActive(_, user, active) =>
      if ResultOf(r).Throw? then [] else if active then [Reactivated(user)] else [Deactivated(user)]
    case _ => []
  }

  function AllReported(r: Run): seq<Event> {
    if r.Start? then [] else AllReported(r.prev) + Reported(r)
  }

  /** The log is the events reported, in order, nothing else. */
  lemma {:induction false} LogIsWhatHappened(r: Run)
    ensures Exec(r).log == AllReported(r)
  {
    if r.Then? {
      LogIsWhatHappened(r.prev);
      assert Exec(r).log == Exec(r.prev).log + Reported(r);
    }
  }
}

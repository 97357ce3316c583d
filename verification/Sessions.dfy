/**
 * Refresh-token families: rotation chains, reuse detection, and the events that sign an account
 * out everywhere.
 */
module Sessions {
  import opened Common

  datatype AccountKind = BrokerAccount | ClientUserAccount | PlatformAdminAccount

  datatype Account = Account(kind: AccountKind, id: Id)

  /** A token is presented by the row its hash names; a row not issued yet is an unknown token. */
  datatype RefreshToken = RefreshToken(account: Account, expiresAt: Time, revokedAt: Option<Time>, replacedBy: Option<Id>)

  datatype ResetToken = ResetToken(account: Account, expiresAt: Time, usedAt: Option<Time>)

  datatype Member = Member(organisation: Id, active: bool)

  datatype Event =
    | ReuseDetected(account: Account)
    | PasswordChanged(account: Account)
    | PasswordResetRequested(account: Account)
    | PasswordResetCompleted(account: Account)
    | Deactivated(user: Id)
    | Reactivated(user: Id)

  datatype State = State(
    tokens: seq<RefreshToken>, passwords: map<Account, string>, resets: seq<ResetToken>,
    members: map<Id, Member>, log: seq<Event>)

  /** `wall` is the application's own clock, which sets and checks some of the expiries. */
  datatype Op =
    | IssueRefreshToken(account: Account, wall: Time)
    | RotateRefreshToken(token: Id, wall: Time)
    | RevokeRefreshToken(token: Id)
    | ChangePassword(account: Account, current: string, password: string)
    | CreatePasswordResetToken(account: Account, wall: Time)
    | RedeemPasswordResetToken(reset: Id, password: string)
    | SetClientUserActive(organisation: Id, user: Id, active: bool)

  /** What a call returns: a fresh token, nothing, or no value. */
  datatype Outcome = Issued(account: Account, token: Id) | Rejected | Done

  /** The state a call commits and what it gives its caller: one call both commits and throws. */
  datatype Step = Step(state: State, result: Result<Outcome, Error>)

  const REFRESH_TTL_DAYS: real := 30.0
  const RESET_TTL_DAYS: real := 1.0 / 24.0

  predicate Live(t: RefreshToken) {
    t.revokedAt.None?
  }

  function Fresh(account: Account, wall: Time): RefreshToken {
    RefreshToken(account, wall + REFRESH_TTL_DAYS, None, None)
  }

  /** Revokes every live token of the account. */
  function RevokeAll(tokens: seq<RefreshToken>, account: Account, at: Time): seq<RefreshToken> {
    seq(|tokens|, i requires 0 <= i < |tokens| =>
      if tokens[i].account == account && Live(tokens[i]) then tokens[i].(revokedAt := Some(at)) else tokens[i])
  }

  function Rotate(s: State, token: Id, wall: Time, at: Time): Step {
    if token >= |s.tokens| then Step(s, Ok(Rejected))
    else
      var row := s.tokens[token];
      if !Live(row) then
        Step(s.(tokens := RevokeAll(s.tokens, row.account, at), log := s.log + [ReuseDetected(row.account)]),
             Throw(RefreshTokenReuseDetected))
      else if row.expiresAt < wall then Step(s, Ok(Rejected))
      else
        Step(s.(tokens := s.tokens[token := row.(revokedAt := Some(at), replacedBy := Some(|s.tokens|))] + [Fresh(row.account, wall)]),
             Ok(Issued(row.account, |s.tokens|)))
  }

  function Redeem(s: State, reset: Id, password: string, at: Time): Step {
    if reset >= |s.resets| || s.resets[reset].usedAt.Some? || s.resets[reset].expiresAt <= at then
      Step(s, Throw(InvalidResetToken))
    else
      var account := s.resets[reset].account;
      Step(s.(resets := s.resets[reset := s.resets[reset].(usedAt := Some(at))],
              passwords := s.passwords[account := password],
              tokens := RevokeAll(s.tokens, account, at),
              log := s.log + [PasswordResetCompleted(account)]),
           Ok(Done))
  }

  function SetActive(s: State, organisation: Id, user: Id, active: bool, at: Time): Step {
    if user !in s.members || s.members[user].organisation != organisation then Step(s, Throw(ClientUserNotFound))
    else
      Step(s.(members := s.members[user := Member(organisation, active)],
              tokens := if active then s.tokens else RevokeAll(s.tokens, Account(ClientUserAccount, user), at),
              log := s.log + [if active then Reactivated(user) else Deactivated(user)]),
           Ok(Done))
  }

  function Perform(s: State, op: Op, at: Time): Step {
    match op
    case IssueRefreshToken(account, wall) =>
      Step(s.(tokens := s.tokens + [Fresh(account, wall)]), Ok(Issued(account, |s.tokens|)))
    case RotateRefreshToken(token, wall) => Rotate(s, token, wall, at)
    case RevokeRefreshToken(token) =>
      if token < |s.tokens| && Live(s.tokens[token]) then
        Step(s.(tokens := s.tokens[token := s.tokens[token].(revokedAt := Some(at))]), Ok(Done))
      else Step(s, Ok(Done))
    case ChangePassword(account, current, password) =>
      if account !in s.passwords || s.passwords[account] != current then Step(s, Throw(InvalidCurrentPassword))
      else
        Step(s.(passwords := s.passwords[account := password],
                tokens := RevokeAll(s.tokens, account, at),
                log := s.log + [PasswordChanged(account)]),
             Ok(Done))
    case CreatePasswordResetToken(account, wall) =>
      if account !in s.passwords then Step(s, Ok(Rejected))
      else
        Step(s.(resets := s.resets + [ResetToken(account, wall + RESET_TTL_DAYS, None)],
                log := s.log + [PasswordResetRequested(account)]),
             Ok(Done))
    case RedeemPasswordResetToken(reset, password) => Redeem(s, reset, password, at)
    case SetClientUserActive(organisation, user, active) => SetActive(s, organisation, user, active, at)
  }

  /** A run starts with some accounts and members, and no tokens. */
  datatype Run =
    | Start(passwords: map<Account, string>, members: map<Id, Member>)
    | Then(prev: Run, op: Op, at: Time)

  function Exec(r: Run): State {
    match r
    case Start(passwords, members) => State([], passwords, [], members, [])
    case Then(prev, op, at) => Perform(Exec(prev), op, at).state
  }

  function ResultOf(r: Run): Result<Outcome, Error>
    requires r.Then?
  {
    Perform(Exec(r.prev), r.op, r.at).result
  }

  predicate Extends(later: Run, r: Run) {
    later == r || (later.Then? && Extends(later.prev, r))
  }

  // ---------------------------------------------------------------- what one call does to the tokens

  /** No call does anything else to a token, and only sign-in and rotation add one. */
  predicate TokensStep(tokens: seq<RefreshToken>, after: seq<RefreshToken>) {
    && |tokens| <= |after| <= |tokens| + 1
    && (forall i | 0 <= i < |tokens| ::
          && after[i].account == tokens[i].account
          && (tokens[i].revokedAt.Some? ==> after[i] == tokens[i])
          && (after[i].replacedBy != tokens[i].replacedBy ==> Replaces(tokens, after, i)))
    && (|after| == |tokens| + 1 ==> Live(after[|tokens|]) && after[|tokens|].replacedBy.None?)
  }

  /** Token `i` was live, and the one new token replaces it. */
  predicate Replaces(tokens: seq<RefreshToken>, after: seq<RefreshToken>, i: nat)
    requires i < |tokens| <= |after|
  {
    && |after| == |tokens| + 1 && Live(tokens[i]) && after[i].revokedAt.Some?
    && after[i].replacedBy == Some(|tokens|) && after[|tokens|].account == tokens[i].account
    && after[..|tokens|] == tokens[i := after[i]]
  }

  lemma StepMovesTokens(s: State, op: Op, at: Time)
    ensures TokensStep(s.tokens, Perform(s, op, at).state.tokens)
  {
    if op.RotateRefreshToken? && op.token < |s.tokens| && Live(s.tokens[op.token]) && s.tokens[op.token].expiresAt >= op.wall {
      assert Replaces(s.tokens, Rotate(s, op.token, op.wall, at).state.tokens, op.token);
    }
  }

  // ---------------------------------------------------------------- chains

  /**
   * The shape of the rotation links: each points forward to a later token of the same account, no
   * two point to the same token, and a live token points nowhere. So the links form disjoint
   * paths, and every live token is the tail of its path.
   */
  predicate Chains(tokens: seq<RefreshToken>) {
    && (forall i | 0 <= i < |tokens| && tokens[i].replacedBy.Some? ::
          && i < tokens[i].replacedBy.value < |tokens|
          && tokens[tokens[i].replacedBy.value].account == tokens[i].account
          && !Live(tokens[i]))
    && (forall i, j | 0 <= i < j < |tokens| && tokens[i].replacedBy.Some? :: tokens[i].replacedBy != tokens[j].replacedBy)
  }

  lemma StepKeepsChains(tokens: seq<RefreshToken>, after: seq<RefreshToken>)
    requires Chains(tokens) && TokensStep(tokens, after)
    ensures Chains(after)
  {
    forall i, j | 0 <= i < j < |after| && after[i].replacedBy.Some? ensures after[i].replacedBy != after[j].replacedBy {
      if j < |tokens| && after[i].replacedBy != tokens[i].replacedBy {
        assert Replaces(tokens, after, i);
        assert after[..|tokens|][j] == tokens[j];
      } else if j < |tokens| && after[j].replacedBy != tokens[j].replacedBy {
        assert Replaces(tokens, after, j);
        assert after[..|tokens|][i] == tokens[i];
      }
    }
  }

  /** In every run the links form disjoint paths whose tails are the only tokens that can be live. */
  lemma {:induction false} RotationsFormChains(r: Run)
    ensures Chains(Exec(r).tokens)
  {
    if r.Then? {
      RotationsFormChains(r.prev);
      StepMovesTokens(Exec(r.prev), r.op, r.at);
      StepKeepsChains(Exec(r.prev).tokens, Exec(r).tokens);
    }
  }

  /** The call is a rotation of the token, and it succeeded. */
  predicate Rotates(r: Run, token: Id) {
    r.Then? && r.op.RotateRefreshToken? && r.op.token == token && ResultOf(r).Ok? && ResultOf(r).value.Issued?
  }

  /** A revoked token never changes again. */
  lemma {:induction false} RevokedForever(later: Run, r: Run, token: Id)
    requires Extends(later, r) && token < |Exec(r).tokens|
    ensures token < |Exec(later).tokens|
    ensures !Live(Exec(r).tokens[token]) ==> Exec(later).tokens[token] == Exec(r).tokens[token]
  {
    if later != r {
      RevokedForever(later.prev, r, token);
      StepMovesTokens(Exec(later.prev), later.op, later.at);
    }
  }

  /** No run rotates a token twice. */
  lemma RotatesAtMostOnce(later: Run, r: Run, token: Id)
    requires later.Then? && Extends(later.prev, r) && Rotates(r, token)
    ensures !Rotates(later, token)
  {
    RevokedForever(later.prev, r, token);
  }

  function CountLive(tokens: seq<RefreshToken>, account: Account): nat {
    if tokens == [] then 0
    else
      var last := tokens[|tokens| - 1];
      CountLive(tokens[..|tokens| - 1], account) + if last.account == account && Live(last) then 1 else 0
  }

  lemma {:induction false} CountAfterUpdate(tokens: seq<RefreshToken>, i: nat, t: RefreshToken, account: Account)
    requires i < |tokens| && t.account == tokens[i].account
    ensures CountLive(tokens[i := t], account)
         == CountLive(tokens, account)
            - (if tokens[i].account == account && Live(tokens[i]) then 1 else 0)
            + (if t.account == account && Live(t) then 1 else 0)
  {
    var n := |tokens| - 1;
    if i == n {
      assert tokens[i := t][..n] == tokens[..n];
    } else {
      assert tokens[i := t][..n] == tokens[..n][i := t];
      CountAfterUpdate(tokens[..n], i, t, account);
    }
  }

  /**
   * A successful rotation succeeds on a live, unexpired token only; it gives a new token of the
   * same account, linked from the old one, and leaves every account's number of live tokens as
   * it was.
   */
  lemma RotationConserves(r: Run, token: Id, account: Account)
    requires Rotates(r, token)
    ensures token < |Exec(r.prev).tokens| && Live(Exec(r.prev).tokens[token]) && Exec(r.prev).tokens[token].expiresAt >= r.op.wall
    ensures var next := |Exec(r.prev).tokens|;
            && |Exec(r).tokens| == next + 1 && ResultOf(r).value.token == next
            && Exec(r).tokens[next].account == Exec(r.prev).tokens[token].account == ResultOf(r).value.account
            && Live(Exec(r).tokens[next]) && !Live(Exec(r).tokens[token])
            && Exec(r).tokens[token].replacedBy == Some(next)
    ensures CountLive(Exec(r).tokens, account) == CountLive(Exec(r.prev).tokens, account)
  {
    var tokens, after := Exec(r.prev).tokens, Exec(r).tokens;
    CountAfterUpdate(tokens, token, after[token], account);
    assert after[..|tokens|] == tokens[token := after[token]];
  }

  // ---------------------------------------------------------------- signing out everywhere

  /**
   * The call signs the account out everywhere: a revoked token of it presented again, its password
   * changed or reset, or its client user deactivated.
   */
  predicate SignsOut(r: Run, account: Account) {
    r.Then? &&
    match r.op
    case RotateRefreshToken(token, _) =>
      token < |Exec(r.prev).tokens| && Exec(r.prev).tokens[token].account == account && !Live(Exec(r.prev).tokens[token])
    case ChangePassword(a, _, _) => a == account && ResultOf(r).Ok?
    case RedeemPasswordResetToken(reset, _) =>
      reset < |Exec(r.prev).resets| && Exec(r.prev).resets[reset].account == account && ResultOf(r).Ok?
    case SetClientUserActive(_, user, active) =>
      !active && account == Account(ClientUserAccount, user) && ResultOf(r).Ok?
    case _ => false
  }

  predicate NoneLive(tokens: seq<RefreshToken>, account: Account) {
    forall i | 0 <= i < |tokens| :: tokens[i].account == account ==> !Live(tokens[i])
  }

  /** Such a call revokes every live token of the account at its own time, and leaves every other token as it was. */
  lemma SignOutRevokes(r: Run, account: Account)
    requires SignsOut(r, account)
    ensures NoneLive(Exec(r).tokens, account)
    ensures |Exec(r).tokens| == |Exec(r.prev).tokens|
    ensures forall i | 0 <= i < |Exec(r).tokens| ::
              var before := Exec(r.prev).tokens[i];
              Exec(r).tokens[i]
              == if before.account == account && Live(before) then before.(revokedAt := Some(r.at)) else before
  {
  }

  /**
   * A throw rolls its transaction back, with one exception: reuse detection throws after its
   * revocation committed. So a throwing call changes the state exactly when it presented a
   * revoked token.
   */
  lemma OnlyReuseCommitsAndThrows(r: Run)
    requires r.Then? && ResultOf(r).Throw?
    ensures Exec(r) != Exec(r.prev)
       <==> r.op.RotateRefreshToken? && r.op.token < |Exec(r.prev).tokens| && !Live(Exec(r.prev).tokens[r.op.token])
    ensures Exec(r) != Exec(r.prev) ==>
              var account := Exec(r.prev).tokens[r.op.token].account;
              && ResultOf(r) == Throw(RefreshTokenReuseDetected)
              && NoneLive(Exec(r).tokens, account)
              && Exec(r).log == Exec(r.prev).log + [ReuseDetected(account)]
  {
    if r.op.RotateRefreshToken? && r.op.token < |Exec(r.prev).tokens| && !Live(Exec(r.prev).tokens[r.op.token]) {
      assert SignsOut(r, Exec(r.prev).tokens[r.op.token].account);
      SignOutRevokes(r, Exec(r.prev).tokens[r.op.token].account);
      assert |Exec(r).log| != |Exec(r.prev).log|;
    }
  }

  /** Token `i` comes from token `a` by zero or more rotations. */
  ghost predicate Descends(tokens: seq<RefreshToken>, a: Id, i: Id) {
    || a == i
    || exists j: nat | j < i :: j < |tokens| && tokens[j].replacedBy == Some(i) && Descends(tokens, a, j)
  }

  /** Every live token of the account has its whole chain, root included, at or after row `n`. */
  ghost predicate LiveSince(tokens: seq<RefreshToken>, account: Account, n: nat) {
    forall a: Id, i: Id | i < |tokens| && Descends(tokens, a, i) :: tokens[i].account == account && Live(tokens[i]) ==> a >= n
  }

  /** A call changes no chain that already exists. */
  lemma {:induction false} ChainsKept(tokens: seq<RefreshToken>, after: seq<RefreshToken>, a: Id, i: Id)
    requires TokensStep(tokens, after) && i < |tokens| && Descends(after, a, i)
    ensures Descends(tokens, a, i)
  {
    if a != i {
      var j: nat :| j < i && j < |after| && after[j].replacedBy == Some(i) && Descends(after, a, j);
      ChainsKept(tokens, after, a, j);
      assert tokens[j].replacedBy == Some(i);
    }
  }

  lemma StepKeepsLiveSince(tokens: seq<RefreshToken>, after: seq<RefreshToken>, account: Account, n: nat)
    requires Chains(tokens) && TokensStep(tokens, after) && LiveSince(tokens, account, n) && n <= |tokens|
    ensures LiveSince(after, account, n)
  {
    forall a: Id, i: Id | i < |after| && Descends(after, a, i) && after[i].account == account && Live(after[i]) ensures a >= n {
      if i < |tokens| {
        ChainsKept(tokens, after, a, i);
        assert Live(tokens[i]);
      } else if a != i {
        var j: nat :| j < i && j < |after| && after[j].replacedBy == Some(i) && Descends(after, a, j);
        assert Replaces(tokens, after, j);
        ChainsKept(tokens, after, a, j);
      }
    }
  }

  lemma {:induction false} LiveTokensAreNewer(later: Run, r: Run, account: Account)
    requires Extends(later, r) && SignsOut(r, account)
    ensures |Exec(r).tokens| <= |Exec(later).tokens|
    ensures LiveSince(Exec(later).tokens, account, |Exec(r).tokens|)
  {
    if later == r {
      SignOutRevokes(r, account);
    } else {
      LiveTokensAreNewer(later.prev, r, account);
      RotationsFormChains(later.prev);
      StepMovesTokens(Exec(later.prev), later.op, later.at);
      StepKeepsLiveSince(Exec(later.prev).tokens, Exec(later).tokens, account, |Exec(r).tokens|);
    }
  }

  /**
   * After a reuse detection, password change, password reset or deactivation, every later rotation
   * that succeeds for the account uses a token whose whole chain, back to its root, was issued
   * after that event.
   */
  lemma RotationsUseNewChains(later: Run, r: Run, account: Account, token: Id, a: Id)
    requires SignsOut(r, account) && later.Then? && Extends(later.prev, r)
    requires Rotates(later, token) && token < |Exec(later.prev).tokens| && Exec(later.prev).tokens[token].account == account
    requires Descends(Exec(later.prev).tokens, a, token)
    ensures a >= |Exec(r).tokens|
  {
    LiveTokensAreNewer(later.prev, r, account);
  }

  // ---------------------------------------------------------------- reset tokens

  predicate Redeems(r: Run, reset: Id) {
    r.Then? && r.op.RedeemPasswordResetToken? && r.op.reset == reset && ResultOf(r).Ok?
  }

  lemma {:induction false} UsedForever(later: Run, r: Run, reset: Id)
    requires Extends(later, r) && reset < |Exec(r).resets| && Exec(r).resets[reset].usedAt.Some?
    ensures reset < |Exec(later).resets| && Exec(later).resets[reset].usedAt.Some?
  {
    if later != r {
      UsedForever(later.prev, r, reset);
    }
  }

  /** A reset token is redeemed at most once, before it expires, and sets the password it was redeemed with. */
  lemma RedeemsAtMostOnce(later: Run, r: Run, reset: Id)
    requires Redeems(r, reset)
    ensures reset < |Exec(r.prev).resets| && r.at < Exec(r.prev).resets[reset].expiresAt
    ensures var account := Exec(r.prev).resets[reset].account;
            account in Exec(r).passwords && Exec(r).passwords[account] == r.op.password
    ensures later.Then? && Extends(later.prev, r) ==> !Redeems(later, reset)
  {
    if later.Then? && Extends(later.prev, r) {
      UsedForever(later.prev, r, reset);
    }
  }

  // ---------------------------------------------------------------- the repository

  class SessionRepository {
    var tokens: seq<RefreshToken>
    var passwords: map<Account, string>
    var resets: seq<ResetToken>
    var members: map<Id, Member>
    var log: seq<Event>

    constructor (passwords: map<Account, string>, members: map<Id, Member>)
      ensures Contents() == Exec(Start(passwords, members))
    {
      tokens, resets, log := [], [], [];
      this.passwords, this.members := passwords, members;
    }

    function Contents(): State
      reads this
    {
      State(tokens, passwords, resets, members, log)
    }

    method RevokeLive(account: Account, now: Time)
      modifies this`tokens
      ensures tokens == RevokeAll(old(tokens), account, now)
    {
      ghost var before := tokens;
      for i := 0 to |tokens|
        invariant |tokens| == |before|
        invariant forall j | 0 <= j < i :: tokens[j] == RevokeAll(before, account, now)[j]
        invariant forall j | i <= j < |tokens| :: tokens[j] == before[j]
      {
        if tokens[i].account == account && Live(tokens[i]) {
          tokens := tokens[i := tokens[i].(revokedAt := Some(now))];
        }
      }
      assert tokens == RevokeAll(before, account, now);
    }

    method Issue(account: Account, wall: Time, now: Time) returns (token: Id)
      modifies this
      ensures Perform(old(Contents()), IssueRefreshToken(account, wall), now) == Step(Contents(), Ok(Issued(account, token)))
    {
      token := |tokens|;
      tokens := tokens + [Fresh(account, wall)];
    }

    /** The transaction returns its outcome, and only after it has committed does the call throw. */
    method RotateToken(token: Id, wall: Time, now: Time) returns (r: Result<Outcome, Error>)
      modifies this
      ensures Perform(old(Contents()), RotateRefreshToken(token, wall), now) == Step(Contents(), r)
    {
      var reused, rotated := false, Rejected;
      if token < |tokens| {
        var row := tokens[token];
        if row.revokedAt.Some? {
          RevokeLive(row.account, now);
          log := log + [ReuseDetected(row.account)];
          reused := true;
        } else if row.expiresAt >= wall {
          var inserted := |tokens|;
          tokens := tokens + [Fresh(row.account, wall)];
          tokens := tokens[token := tokens[token].(revokedAt := Some(now), replacedBy := Some(inserted))];
          assert tokens == old(tokens)[token := tokens[token]] + [Fresh(row.account, wall)];
          rotated := Issued(row.account, inserted);
        }
      }
      return if reused then Throw(RefreshTokenReuseDetected) else Ok(rotated);
    }

    method Revoke(token: Id, now: Time)
      modifies this
      ensures Perform(old(Contents()), RevokeRefreshToken(token), now) == Step(Contents(), Ok(Done))
    {
      if token < |tokens| && Live(tokens[token]) {
        tokens := tokens[token := tokens[token].(revokedAt := Some(now))];
      }
    }

    method ChangeAccountPassword(account: Account, current: string, password: string, now: Time) returns (r: Result<Outcome, Error>)
      modifies this
      ensures Perform(old(Contents()), ChangePassword(account, current, password), now) == Step(Contents(), r)
    {
      if account !in passwords || passwords[account] != current {
        return Throw(InvalidCurrentPassword);
      }
      passwords := passwords[account := password];
      RevokeLive(account, now);
      log := log + [PasswordChanged(account)];
      return Ok(Done);
    }

    method CreateReset(account: Account, wall: Time, now: Time) returns (r: Result<Outcome, Error>)
      modifies this
      ensures Perform(old(Contents()), CreatePasswordResetToken(account, wall), now) == Step(Contents(), r)
    {
      if account !in passwords {
        return Ok(Rejected);
      }
      resets := resets + [ResetToken(account, wall + RESET_TTL_DAYS, None)];
      log := log + [PasswordResetRequested(account)];
      return Ok(Done);
    }

    method RedeemReset(reset: Id, password: string, now: Time) returns (r: Result<Outcome, Error>)
      modifies this
      ensures Perform(old(Contents()), RedeemPasswordResetToken(reset, password), now) == Step(Contents(), r)
    {
      if reset >= |resets| || resets[reset].usedAt.Some? || resets[reset].expiresAt <= now {
        return Throw(InvalidResetToken);
      }
      var account := resets[reset].account;
      resets := resets[reset := resets[reset].(usedAt := Some(now))];
      passwords := passwords[account := password];
      RevokeLive(account, now);
      log := log + [PasswordResetCompleted(account)];
      return Ok(Done);
    }

    method SetActive(organisation: Id, user: Id, active: bool, now: Time) returns (r: Result<Outcome, Error>)
      modifies this
      ensures Perform(old(Contents()), SetClientUserActive(organisation, user, active), now) == Step(Contents(), r)
    {
      if user !in members || members[user].organisation != organisation {
        return Throw(ClientUserNotFound);
      }
      members := members[user := Member(organisation, active)];
      if !active {
        RevokeLive(Account(ClientUserAccount, user), now);
      }
      log := log + [if active then Reactivated(user) else Deactivated(user)];
      return Ok(Done);
    }
  }
}

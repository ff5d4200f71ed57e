/**
  Single-use verification tokens: e-mail verification and password reset, with the session
  revocation a reset performs.

  Token texts are random; a new one is one the table never held. Times are milliseconds.
*/
module VerificationTokens {
  import opened Wrappers
  import opened Sessions

  datatype TokenType = EmailVerification | PasswordReset

  const EMAIL_VERIFICATION_TTL: Time := 24 * 60 * 60 * 1000
  const PASSWORD_RESET_TTL: Time := 60 * 60 * 1000

  function TtlOf(t: TokenType): Time {
    match t case EmailVerification => EMAIL_VERIFICATION_TTL case PasswordReset => PASSWORD_RESET_TTL
  }

  type Text = string

  datatype Token = Token(userId: UserId, tokenType: TokenType, createdAt: Time, expiresAt: Time, used: bool)

  datatype User = User(passwordHash: nat, sessionVersion: nat, emailVerified: Option<Time>)

  /** A token that did what it was issued for. */
  datatype Effect = Effect(token: Text, userId: UserId, tokenType: TokenType, at: Time)

  datatype Auth = Auth(users: map<UserId, User>, tokens: map<Text, Token>, redis: Redis, effects: seq<Effect>)

  // ----- The requests -----------------------------------------------------------------------

  datatype Request =
    | Issue(userId: UserId, tokenType: TokenType, text: Text, now: Time)
    | VerifyEmail(text: Text, now: Time)
    | ResetPassword(text: Text, now: Time, passwordHash: nat)
    | RegisterSession(userId: UserId, sessionId: SessionId, m: Metadata, seconds: int)

  /** Every unused token of the user and type is spent when a new one is issued. */
  function Spent(tokens: map<Text, Token>, user: UserId, t: TokenType): map<Text, Token> {
    map text <- tokens ::
      if tokens[text].userId == user && tokens[text].tokenType == t then tokens[text].(used := true) else tokens[text]
  }

  predicate Redeemable(a: Auth, text: Text, t: TokenType, now: Time) {
    && text in a.tokens && a.tokens[text].tokenType == t && !a.tokens[text].used
    && a.tokens[text].expiresAt >= now && a.tokens[text].userId in a.users
  }

  function Redeemed(a: Auth, text: Text, now: Time): Auth
    requires text in a.tokens
  {
    var t := a.tokens[text];
    a.(tokens := a.tokens[text := t.(used := true)], effects := a.effects + [Effect(text, t.userId, t.tokenType, now)])
  }

  function Step(a: Auth, r: Request): Auth {
    match r
    case Issue(user, t, text, now) =>
      if user !in a.users || text in a.tokens then a
      else a.(tokens := Spent(a.tokens, user, t)[text := Token(user, t, now, now + TtlOf(t), false)])
    case VerifyEmail(text, now) =>
      if !Redeemable(a, text, EmailVerification, now) then a
      else
        var user := a.tokens[text].userId;
        Redeemed(a, text, now).(users := a.users[user := a.users[user].(emailVerified := Some(now))])
    case ResetPassword(text, now, hash) =>
      if !Redeemable(a, text, PasswordReset, now) then a
      else
        var user := a.tokens[text].userId;
        var u := a.users[user];
        Redeemed(a, text, now).(users := a.users[user :=
                                                 u.(passwordHash := hash, sessionVersion := u.sessionVersion + 1)],
                                redis := Revoked(a.redis, user, Targets(a.redis, user, None)))
    case RegisterSession(user, id, m, seconds) =>
      a.(redis := Redis(a.redis.ttl[id := seconds], a.redis.metadata[id := m],
                        a.redis.index[user := Members(a.redis, user) + {id}]))
  }

  function Run(a: Auth, requests: seq<Request>): Auth {
    if requests == [] then a else Step(Run(a, requests[..|requests| - 1]), requests[|requests| - 1])
  }

  // ----- Invariant ----------------------------------------------------------------------------

  /** One live token per user and type. */
  predicate OneUnused(tokens: map<Text, Token>) {
    forall x <- tokens, y <- tokens
      | !tokens[x].used && !tokens[y].used && tokens[x].userId == tokens[y].userId
          && tokens[x].tokenType == tokens[y].tokenType
      :: x == y
  }

  /** Each token took effect at most once, for its own user and purpose, while it was alive. */
  predicate EffectsAreEarned(a: Auth) {
    && (forall i | 0 <= i < |a.effects| ::
          var e := a.effects[i];
          && e.token in a.tokens
          && var t := a.tokens[e.token];
             t.used && t.userId == e.userId && t.tokenType == e.tokenType && e.at <= t.createdAt + TtlOf(t.tokenType))
    && (forall i, j | 0 <= i < j < |a.effects| :: a.effects[i].token != a.effects[j].token)
  }

  predicate Valid(a: Auth) {
    && OneUnused(a.tokens)
    && EffectsAreEarned(a)
    && (forall x <- a.tokens :: a.tokens[x].expiresAt == a.tokens[x].createdAt + TtlOf(a.tokens[x].tokenType))
  }

  lemma RedeemKeepsValid(a: Auth, text: Text, t: TokenType, now: Time)
    requires Valid(a) && Redeemable(a, text, t, now)
    ensures Valid(Redeemed(a, text, now))
  {
    var after := Redeemed(a, text, now);
    forall i | 0 <= i < |a.effects| ensures after.effects[i] == a.effects[i] && a.effects[i].token != text {
      assert a.tokens[a.effects[i].token].used;
    }
  }

  lemma IssueKeepsValid(a: Auth, user: UserId, t: TokenType, text: Text, now: Time)
    requires Valid(a)
    ensures Valid(Step(a, Issue(user, t, text, now)))
  {
    var after := Step(a, Issue(user, t, text, now));
    forall i | 0 <= i < |a.effects| ensures after.tokens[a.effects[i].token] == a.tokens[a.effects[i].token] {
      assert a.tokens[a.effects[i].token].used;
    }
  }

  lemma StepKeepsValid(a: Auth, r: Request)
    requires Valid(a)
    ensures Valid(Step(a, r))
  {
    match r
    case Issue(user, t, text, now) => IssueKeepsValid(a, user, t, text, now);
    case VerifyEmail(text, now) =>
      if Redeemable(a, text, EmailVerification, now) { RedeemKeepsValid(a, text, EmailVerification, now); }
    case ResetPassword(text, now, _) =>
      if Redeemable(a, text, PasswordReset, now) { RedeemKeepsValid(a, text, PasswordReset, now); }
    case RegisterSession(_, _, _, _) =>
  }

  /** In every reachable state: one unused token per user and type; every effect earned and single. */
  lemma {:induction false} EveryRunIsValid(a: Auth, requests: seq<Request>)
    requires Valid(a)
    ensures Valid(Run(a, requests))
    decreases |requests|
  {
    if requests != [] {
      EveryRunIsValid(a, requests[..|requests| - 1]);
      StepKeepsValid(Run(a, requests[..|requests| - 1]), requests[|requests| - 1]);
    }
  }

  /** Successful resets of one user. */
  function Resets(effects: seq<Effect>, user: UserId): nat {
    if effects == [] then 0
    else
      var e := effects[|effects| - 1];
      Resets(effects[..|effects| - 1], user) + if e.userId == user && e.tokenType == PasswordReset then 1 else 0
  }

  lemma ResetsSnoc(effects: seq<Effect>, e: Effect, user: UserId)
    ensures Resets(effects + [e], user)
         == Resets(effects, user) + if e.userId == user && e.tokenType == PasswordReset then 1 else 0
  {
    assert (effects + [e])[..|effects|] == effects;
  }

  /** A step either records nothing and leaves the versions alone, or records one effect. */
  lemma StepRecords(a: Auth, r: Request, user: UserId) returns (e: Option<Effect>)
    requires user in a.users
    ensures user in Step(a, r).users
    ensures Step(a, r).effects == if e.Some? then a.effects + [e.value] else a.effects
    ensures Step(a, r).users[user].sessionVersion
         == a.users[user].sessionVersion
            + if e.Some? && e.value.userId == user && e.value.tokenType == PasswordReset then 1 else 0
  {
    match r
    case Issue(_, _, _, _) => e := None;
    case VerifyEmail(text, now) =>
      e := if Redeemable(a, text, EmailVerification, now)
          then Some(Effect(text, a.tokens[text].userId, EmailVerification, now)) else None;
    case ResetPassword(text, now, _) =>
      e := if Redeemable(a, text, PasswordReset, now)
          then Some(Effect(text, a.tokens[text].userId, PasswordReset, now)) else None;
    case RegisterSession(_, _, _, _) => e := None;
  }

  /** Over every run the session version grows by exactly the number of successful resets. */
  lemma {:induction false} SessionVersionCountsResets(a: Auth, requests: seq<Request>, user: UserId)
    requires user in a.users
    ensures var after := Run(a, requests);
            && user in after.users
            && after.users[user].sessionVersion - Resets(after.effects, user)
               == a.users[user].sessionVersion - Resets(a.effects, user)
    decreases |requests|
  {
    if requests != [] {
      SessionVersionCountsResets(a, requests[..|requests| - 1], user);
      var before := Run(a, requests[..|requests| - 1]);
      var e := StepRecords(before, requests[|requests| - 1], user);
      if e.Some? { ResetsSnoc(before.effects, e.value, user); }
    }
  }

  /**
    A reset that takes effect leaves no session key, metadata or index entry of any session
    that was indexed for the user, and touches nobody else's; any other outcome changes nothing.
  */
  lemma ResetRevokesEverySession(a: Auth, text: Text, now: Time, hash: nat)
    requires Valid(a)
    ensures var after := Step(a, ResetPassword(text, now, hash));
            if Redeemable(a, text, PasswordReset, now) then
              var user := a.tokens[text].userId;
              && Members(after.redis, user) == {}
              && (forall id <- Members(a.redis, user) :: id !in after.redis.ttl && id !in after.redis.metadata)
              && (forall id <- a.redis.ttl | id !in Members(a.redis, user) :: id in after.redis.ttl)
              && !Redeemable(after, text, PasswordReset, now)
              && after.users[user].passwordHash == hash
            else after == a
  {
    if Redeemable(a, text, PasswordReset, now) {
      RevocationIsComplete(a.redis, a.tokens[text].userId, None);
    }
  }

  // ----- What one request does ----------------------------------------------------------------------

  /** A new token can be redeemed for its user and its purpose alone, a day or an hour long; older ones no more. */
  lemma IssuedTokenIsTheLiveOne(a: Auth, user: UserId, t: TokenType, text: Text, now: Time, other: Text, at: Time)
    requires user in a.users && text !in a.tokens
    ensures var after := Step(a, Issue(user, t, text, now));
            && (forall t': TokenType ::
                  Redeemable(after, text, t', at)
                  <==> (t' == t
                        && at <= now + if t == PasswordReset then PASSWORD_RESET_TTL else EMAIL_VERIFICATION_TTL))
            && after.tokens[text].userId == user
            && (other != text && Redeemable(after, other, t, at) ==> after.tokens[other].userId != user)
            && (forall t': TokenType | other in a.tokens && (a.tokens[other].userId != user || t' != t) ::
                  Redeemable(after, other, t', at) <==> Redeemable(a, other, t', at))
            && after.users == a.users && after.redis == a.redis
  {
  }

  /**
    A verification that takes effect marks that user's address verified at that time, and
    touches nothing else of any user.
  */
  lemma VerificationIsExact(a: Auth, text: Text, now: Time)
    ensures var after := Step(a, VerifyEmail(text, now));
            if Redeemable(a, text, EmailVerification, now) then
              var user := a.tokens[text].userId;
              && after.users == a.users[user :=
                                        User(a.users[user].passwordHash, a.users[user].sessionVersion, Some(now))]
              && after.redis == a.redis && !Redeemable(after, text, EmailVerification, now)
              && forall x <- a.tokens | x != text :: x in after.tokens && after.tokens[x] == a.tokens[x]
            else after == a
  {
  }

  /** A reset that takes effect gives that user the new password and the next version, and touches no other user. */
  lemma ResetIsExact(a: Auth, text: Text, now: Time, hash: nat)
    requires Redeemable(a, text, PasswordReset, now)
    ensures var after, user := Step(a, ResetPassword(text, now, hash)), a.tokens[text].userId;
            && after.users == a.users[user := User(hash, a.users[user].sessionVersion + 1, a.users[user].emailVerified)]
            && forall x <- a.tokens | x != text :: x in after.tokens && after.tokens[x] == a.tokens[x]
  {
  }

  /** What can be redeemed: a stored, unused token of that purpose whose time is not up. */
  lemma RedeemableIff(a: Auth, requests: seq<Request>, text: Text, t: TokenType, now: Time)
    requires Valid(a)
    ensures var s := Run(a, requests);
            Redeemable(s, text, t, now)
            <==> && text in s.tokens && s.tokens[text].tokenType == t && s.tokens[text].userId in s.users
                 && !s.tokens[text].used
                 && now <= s.tokens[text].createdAt + if t == PasswordReset then PASSWORD_RESET_TTL
                    else EMAIL_VERIFICATION_TTL
  {
    EveryRunIsValid(a, requests);
  }

  // ----- The service ----------------------------------------------------------------------------

  class TokenService {
    var users: map<UserId, User>
    var tokens: map<Text, Token>
    ghost var effects: seq<Effect>
    const sessions: SessionStore

    ghost function State(): Auth
      reads this, sessions
    {
      Auth(users, tokens, sessions.State(), effects)
    }

    constructor (users: map<UserId, User>, sessions: SessionStore)
      ensures this.sessions == sessions && State() == Auth(users, map[], sessions.State(), []) && Valid(State())
    {
      this.users, this.sessions := users, sessions;
      tokens, effects := map[], [];
    }

    /** Older tokens are spent and the new one created in one transaction. */
    method CreateVerificationToken(user: UserId, t: TokenType, text: Text, now: Time)
      requires Valid(State()) && user in users && text !in tokens
      modifies this`tokens
      ensures State() == Step(old(State()), Issue(user, t, text, now)) && Valid(State())
    {
      StepKeepsValid(State(), Issue(user, t, text, now));
      tokens := map x <- tokens ::
        if tokens[x].userId == user && tokens[x].tokenType == t && !tokens[x].used
        then tokens[x].(used := true)
        else tokens[x];
      assert tokens == Spent(old(tokens), user, t);
      tokens := tokens[text := Token(user, t, now, now + TtlOf(t), false)];
    }

    method ConfirmEmail(text: Text, now: Time) returns (ok: bool)
      requires Valid(State())
      modifies this
      ensures State() == Step(old(State()), VerifyEmail(text, now)) && Valid(State())
      ensures ok <==> Redeemable(old(State()), text, EmailVerification, now)
    {
      StepKeepsValid(State(), VerifyEmail(text, now));
      if text !in tokens || tokens[text].tokenType != EmailVerification || tokens[text].used
         || tokens[text].expiresAt < now || tokens[text].userId !in users {
        return false;
      }
      var record := tokens[text];
      users := users[record.userId := users[record.userId].(emailVerified := Some(now))];
      tokens := tokens[text := record.(used := true)];
      effects := effects + [Effect(text, record.userId, record.tokenType, now)];
      return true;
    }

    /** The transaction first, then the revocation of every session of the user. */
    method Reset(text: Text, now: Time, passwordHash: nat) returns (ok: bool)
      requires Valid(State())
      modifies this, sessions
      ensures State() == Step(old(State()), ResetPassword(text, now, passwordHash)) && Valid(State())
      ensures ok <==> Redeemable(old(State()), text, PasswordReset, now)
    {
      StepKeepsValid(State(), ResetPassword(text, now, passwordHash));
      if text !in tokens || tokens[text].tokenType != PasswordReset || tokens[text].used
         || tokens[text].expiresAt < now || tokens[text].userId !in users {
        return false;
      }
      var record := tokens[text];
      var user := users[record.userId];
      users := users[record.userId := user.(passwordHash := passwordHash, sessionVersion := user.sessionVersion + 1)];
      tokens := tokens[text := record.(used := true)];
      effects := effects + [Effect(text, record.userId, record.tokenType, now)];
      sessions.RevokeAllSessions(record.userId, None);
      return true;
    }
  }
}

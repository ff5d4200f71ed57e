/**
  Two-factor challenges sent out of band, and backup codes.

  Whether a submitted code matches a stored hash is an input. A new row's key is the next
  one never used. Times are milliseconds. Every comparison of a code is logged with the
  time of the comparison, and the time every challenge was made is kept after its row is
  deleted.
*/
module Mfa {
  import opened Wrappers

  type Id = nat
  type UserId = nat
  type Time = int

  const MAX_ATTEMPTS: nat := 5
  const CODE_TTL: Time := 10 * 60 * 1000

  datatype Channel = Email | Sms | Authenticator

  datatype Challenge = Challenge(userId: UserId, channel: Channel, createdAt: Time, expiresAt: Time, attempts: nat,
                                 consumed: bool)

  datatype BackupCode = BackupCode(userId: UserId, used: bool)

  /** One comparison of a submitted code with a challenge's hash. */
  datatype Check = Check(id: Id, ok: bool, at: Time)

  /** The two tables, and the history: `created` has every challenge ever made. */
  datatype State = State(
    challenges: map<Id, Challenge>, codes: map<Id, BackupCode>, next: Id,
    created: map<Id, Time>, checks: seq<Check>, redeemed: seq<Id>)

  datatype Request =
    | Send(userId: UserId, channel: Channel, now: Time)
    | Verify(userId: UserId, channel: Channel, found: Time, checked: Time, matches: bool)
    | ReplaceCodes(userId: UserId, count: nat)
    | UseCode(userId: UserId, order: seq<Id>, matching: set<Id>)
    | Disable(userId: UserId)

  // ----- Challenges ---------------------------------------------------------------------------

  predicate Pending(c: Challenge, user: UserId, channel: Channel) {
    c.userId == user && c.channel == channel && !c.consumed
  }

  function Consumed(challenges: map<Id, Challenge>, user: UserId, channel: Channel): map<Id, Challenge> {
    map id <- challenges ::
      if Pending(challenges[id], user, channel) then challenges[id].(consumed := true) else challenges[id]
  }

  /** SMS is silently skipped; otherwise older challenges are consumed and one is created. */
  function Sent(s: State, user: UserId, channel: Channel, now: Time): State {
    if channel == Sms then s
    else s.(challenges := Consumed(s.challenges, user, channel)
                            [s.next := Challenge(user, channel, now, now + CODE_TTL, 0, false)],
            next := s.next + 1, created := s.created[s.next := now])
  }

  /** `findFirst({ consumed: false, expiresAt: { gt: now } }, orderBy: { createdAt: desc })`. */
  predicate IsActive(s: State, user: UserId, channel: Channel, now: Time, id: Id) {
    && id in s.challenges && Pending(s.challenges[id], user, channel) && s.challenges[id].expiresAt > now
    && forall x <- s.challenges | Pending(s.challenges[x], user, channel) && s.challenges[x].expiresAt > now ::
         s.challenges[x].createdAt <= s.challenges[id].createdAt
  }

  /** What a verification does with the challenge it found; the clock may have moved on to `checked`. */
  function Checked(s: State, id: Id, checked: Time, matches: bool): State
    requires id in s.challenges
  {
    var c := s.challenges[id];
    if c.expiresAt < checked || c.attempts >= MAX_ATTEMPTS
        then s.(challenges := s.challenges[id := c.(consumed := true)])
    else s.(challenges := s.challenges[id := if matches then c.(consumed := true) else c.(attempts := c.attempts + 1)],
            checks := s.checks + [Check(id, matches, checked)])
  }

  /** The comparison comes after the lookup; the clock never runs backwards. */
  ghost predicate Verified(s: State, r: Request, after: State)
    requires r.Verify?
  {
    && r.found <= r.checked
    && if exists id :: IsActive(s, r.userId, r.channel, r.found, id)
       then exists id :: IsActive(s, r.userId, r.channel, r.found, id) && after == Checked(s, id, r.checked, r.matches)
       else after == s
  }

  // ----- Backup codes -------------------------------------------------------------------------------

  function CodesOf(s: State, user: UserId): set<Id> { set id <- s.codes | s.codes[id].userId == user }

  function NewCodes(user: UserId, from: Id, count: nat): (codes: map<Id, BackupCode>)
    ensures forall id: Id :: id in codes <==> from <= id < from + count
    ensures forall id <- codes :: codes[id] == BackupCode(user, false)
  {
    if count == 0 then map[] else NewCodes(user, from, count - 1)[from + count - 1 := BackupCode(user, false)]
  }

  function Replaced(s: State, user: UserId, count: nat): State {
    s.(codes := (s.codes - CodesOf(s, user)) + NewCodes(user, s.next, count), next := s.next + count)
  }

  /** The first code of the list that is unused and matches. */
  function FirstMatch(codes: map<Id, BackupCode>, order: seq<Id>, matching: set<Id>): (m: Option<Id>)
    requires forall id <- order :: id in codes
    ensures m.Some? ==> m.value in order && !codes[m.value].used && m.value in matching
    ensures m.None? ==> forall id <- order :: codes[id].used || id !in matching
  {
    if order == [] then None
    else if !codes[order[0]].used && order[0] in matching then Some(order[0])
    else FirstMatch(codes, order[1..], matching)
  }

  function CodeUsed(s: State, user: UserId, order: seq<Id>, matching: set<Id>): State {
    if !Enumerates(order, CodesOf(s, user)) then s
    else
      match FirstMatch(s.codes, order, matching)
      case None => s
      case Some(id) => s.(codes := s.codes[id := s.codes[id].(used := true)], redeemed := s.redeemed + [id])
  }

  function Disabled(s: State, user: UserId): State {
    s.(challenges := map id <- s.challenges | s.challenges[id].userId != user :: s.challenges[id],
       codes := s.codes - CodesOf(s, user))
  }

  ghost predicate Next(s: State, r: Request, after: State) {
    match r
    case Send(user, channel, now) => after == Sent(s, user, channel, now)
    case Verify(_, _, _, _, _) => Verified(s, r, after)
    case ReplaceCodes(user, count) => after == Replaced(s, user, count)
    case UseCode(user, order, matching) => after == CodeUsed(s, user, order, matching)
    case Disable(user) => after == Disabled(s, user)
  }

  // ----- Invariant -----------------------------------------------------------------------------------

  function Comparisons(checks: seq<Check>, id: Id): nat {
    if checks == [] then 0
    else Comparisons(checks[..|checks| - 1], id) + if checks[|checks| - 1].id == id then 1 else 0
  }

  function Successes(checks: seq<Check>, id: Id): nat {
    if checks == [] then 0
    else
      Successes(checks[..|checks| - 1], id)
        + if checks[|checks| - 1].id == id && checks[|checks| - 1].ok then 1 else 0
  }

  predicate OnePending(challenges: map<Id, Challenge>) {
    forall x <- challenges, y <- challenges
      | !challenges[x].consumed && Pending(challenges[y], challenges[x].userId, challenges[x].channel) :: x == y
  }

  /** A challenge's counters against the log of comparisons. */
  predicate Tallied(c: Challenge, checks: seq<Check>, id: Id) {
    && c.expiresAt == c.createdAt + CODE_TTL
    && c.attempts <= MAX_ATTEMPTS
    && Comparisons(checks, id) == c.attempts + Successes(checks, id)
    && Successes(checks, id) <= (if c.consumed && c.attempts < MAX_ATTEMPTS then 1 else 0)
  }

  ghost predicate ChallengesSound(challenges: map<Id, Challenge>, checks: seq<Check>, next: Id) {
    && OnePending(challenges)
    && (forall id <- challenges :: id < next && Tallied(challenges[id], checks, id))
  }

  /** Five comparisons and one success at most, for challenges deleted since as well. */
  predicate Limited(checks: seq<Check>, next: Id, id: Id) {
    && Comparisons(checks, id) <= MAX_ATTEMPTS && Successes(checks, id) <= 1
    && (id >= next ==> Comparisons(checks, id) == 0 && Successes(checks, id) == 0)
  }

  ghost predicate LogSound(checks: seq<Check>, next: Id) {
    forall id: Id :: Limited(checks, next, id)
  }

  /** Every stored challenge shows when it was made, and no challenge is compared with after its ten minutes. */
  predicate InTime(challenges: map<Id, Challenge>, created: map<Id, Time>, checks: seq<Check>, next: Id) {
    && (forall id <- created :: id < next)
    && (forall id <- challenges :: id in created && created[id] == challenges[id].createdAt)
    && (forall i | 0 <= i < |checks| :: checks[i].id in created && checks[i].at <= created[checks[i].id] + CODE_TTL)
  }

  /** No code is redeemed twice, and a redeemed code still stored is marked used. */
  predicate CodesSound(codes: map<Id, BackupCode>, redeemed: seq<Id>, next: Id) {
    && (forall id <- codes :: id < next)
    && (forall i | 0 <= i < |redeemed| :: redeemed[i] < next && (redeemed[i] in codes ==> codes[redeemed[i]].used))
    && (forall i, j | 0 <= i < j < |redeemed| :: redeemed[i] != redeemed[j])
  }

  ghost predicate Valid(s: State) {
    && ChallengesSound(s.challenges, s.checks, s.next)
    && LogSound(s.checks, s.next)
    && InTime(s.challenges, s.created, s.checks, s.next)
    && CodesSound(s.codes, s.redeemed, s.next)
  }

  lemma LogGrows(checks: seq<Check>, c: Check, id: Id)
    ensures Comparisons(checks + [c], id) == Comparisons(checks, id) + if c.id == id then 1 else 0
    ensures Successes(checks + [c], id) == Successes(checks, id) + if c.id == id && c.ok then 1 else 0
  {
    assert (checks + [c])[..|checks|] == checks;
  }

  /** Under the invariant at most one challenge is active, so the newest-first order never matters. */
  lemma ActiveIsUnique(s: State, user: UserId, channel: Channel, now: Time, id: Id)
    requires Valid(s) && id in s.challenges && Pending(s.challenges[id], user, channel)
        && s.challenges[id].expiresAt > now
    ensures IsActive(s, user, channel, now, id)
    ensures forall x | IsActive(s, user, channel, now, x) :: x == id
  {
  }

  lemma CheckKeepsLog(s: State, id: Id, checked: Time, matches: bool)
    requires Valid(s) && id in s.challenges && !s.challenges[id].consumed
    ensures LogSound(Checked(s, id, checked, matches).checks, s.next)
  {
    var c := s.challenges[id];
    assert Tallied(c, s.checks, id);
    if !(c.expiresAt < checked || c.attempts >= MAX_ATTEMPTS) {
      var check := Check(id, matches, checked);
      forall x: Id ensures Limited(s.checks + [check], s.next, x) {
        assert Limited(s.checks, s.next, x);
        LogGrows(s.checks, check, x);
      }
    }
  }

  lemma CheckTallies(s: State, id: Id, checked: Time, matches: bool, x: Id)
    requires Valid(s) && id in s.challenges && !s.challenges[id].consumed && x in s.challenges
    ensures var after := Checked(s, id, checked, matches);
            Tallied(after.challenges[x], after.checks, x)
  {
    assert Tallied(s.challenges[x], s.checks, x);
    LogGrows(s.checks, Check(id, matches, checked), x);
  }

  /** A comparison happens before the expiry, which is ten minutes after the challenge was made. */
  lemma CheckIsInTime(s: State, id: Id, checked: Time, matches: bool)
    requires Valid(s) && id in s.challenges
    ensures var after := Checked(s, id, checked, matches);
            InTime(after.challenges, after.created, after.checks, after.next)
  {
    assert Tallied(s.challenges[id], s.checks, id);
  }

  lemma OnePendingKept(challenges: map<Id, Challenge>, id: Id, c: Challenge)
    requires OnePending(challenges) && id in challenges && !challenges[id].consumed
    requires c.userId == challenges[id].userId && c.channel == challenges[id].channel
    ensures OnePending(challenges[id := c])
  {
  }

  lemma CheckKeepsValid(s: State, user: UserId, channel: Channel, found: Time, checked: Time, matches: bool, id: Id)
    requires Valid(s) && IsActive(s, user, channel, found, id)
    ensures Valid(Checked(s, id, checked, matches))
  {
    var after := Checked(s, id, checked, matches);
    CheckKeepsLog(s, id, checked, matches);
    CheckIsInTime(s, id, checked, matches);
    OnePendingKept(s.challenges, id, after.challenges[id]);
    forall x <- after.challenges ensures x < s.next && Tallied(after.challenges[x], after.checks, x) {
      CheckTallies(s, id, checked, matches, x);
    }
  }

  /** The one active challenge decides the verification. */
  lemma ActiveDecides(s: State, user: UserId, channel: Channel, found: Time, checked: Time, matches: bool, id: Id)
    requires Valid(s) && found <= checked && IsActive(s, user, channel, found, id)
    ensures var after := Checked(s, id, checked, matches);
            Next(s, Verify(user, channel, found, checked, matches), after) && Valid(after)
  {
    CheckKeepsValid(s, user, channel, found, checked, matches, id);
    ActiveIsUnique(s, user, channel, found, id);
  }

  lemma SendIsInTime(s: State, user: UserId, channel: Channel, now: Time)
    requires Valid(s)
    ensures var after := Sent(s, user, channel, now);
            InTime(after.challenges, after.created, after.checks, after.next)
  {
  }

  lemma SendKeepsOnePending(challenges: map<Id, Challenge>, id: Id, c: Challenge)
    requires OnePending(challenges)
    ensures OnePending(Consumed(challenges, c.userId, c.channel)[id := c])
  {
  }

  lemma SendTallies(s: State, user: UserId, channel: Channel, now: Time, id: Id)
    requires Valid(s) && channel != Sms && id in Sent(s, user, channel, now).challenges
    ensures id < s.next + 1 && Tallied(Sent(s, user, channel, now).challenges[id], s.checks, id)
  {
    assert Limited(s.checks, s.next, s.next);
    if id != s.next { assert Tallied(s.challenges[id], s.checks, id); }
  }

  lemma SendKeepsValid(s: State, user: UserId, channel: Channel, now: Time)
    requires Valid(s)
    ensures Valid(Sent(s, user, channel, now))
  {
    var after := Sent(s, user, channel, now);
    SendIsInTime(s, user, channel, now);
    if channel != Sms {
      SendKeepsOnePending(s.challenges, s.next, Challenge(user, channel, now, now + CODE_TTL, 0, false));
      forall id <- after.challenges ensures id < after.next && Tallied(after.challenges[id], s.checks, id) {
        SendTallies(s, user, channel, now, id);
      }
      LaterKeysAreUnlogged(s.checks, s.next, s.next + 1);
    }
  }

  lemma LaterKeysAreUnlogged(checks: seq<Check>, next: Id, later: Id)
    requires LogSound(checks, next) && next <= later
    ensures LogSound(checks, later)
  {
    forall id: Id ensures Limited(checks, later, id) { assert Limited(checks, next, id); }
  }

  lemma UseKeepsValid(s: State, user: UserId, order: seq<Id>, matching: set<Id>)
    requires Valid(s)
    ensures Valid(CodeUsed(s, user, order, matching))
  {
    var after := CodeUsed(s, user, order, matching);
    if after != s {
      var id := FirstMatch(s.codes, order, matching).value;
      assert id in CodesOf(s, user) && !s.codes[id].used;
    }
  }

  lemma NextKeepsValid(s: State, r: Request, after: State)
    requires Valid(s) && Next(s, r, after)
    ensures Valid(after)
  {
    match r
    case Send(user, channel, now) => SendKeepsValid(s, user, channel, now);
    case Verify(user, channel, found, checked, matches) =>
      if id :| IsActive(s, user, channel, found, id) && after == Checked(s, id, checked, matches) {
        CheckKeepsValid(s, user, channel, found, checked, matches, id);
      }
    case ReplaceCodes(_, count) => LaterKeysAreUnlogged(s.checks, s.next, s.next + count);
    case UseCode(user, order, matching) => UseKeepsValid(s, user, order, matching);
    case Disable(_) =>
  }

  /** A run: every state follows from the one before by one request. */
  ghost predicate IsRun(states: seq<State>, requests: seq<Request>) {
    |states| == |requests| + 1 && forall i | 0 <= i < |requests| :: Next(states[i], requests[i], states[i + 1])
  }

  /**
    Over every run: one unconsumed challenge per user and channel, at most five comparisons
    against any challenge ever made, each challenge and backup code good for one success at
    most, and no code compared with a challenge whose ten minutes are up.
  */
  lemma {:induction false} EveryRunIsValid(states: seq<State>, requests: seq<Request>)
    requires IsRun(states, requests) && Valid(states[0])
    ensures forall i | 0 <= i < |states| :: Valid(states[i])
  {
    for i := 0 to |requests|
      invariant forall j | 0 <= j <= i :: Valid(states[j])
    {
      NextKeepsValid(states[i], requests[i], states[i + 1]);
    }
  }

  /** The request makes a challenge; SMS requests make none. */
  predicate Makes(r: Request) { r.Send? && r.channel != Sms }

  lemma NextRecords(s: State, r: Request, after: State)
    requires Next(s, r, after)
    ensures after.created == if Makes(r) then s.created[s.next := r.now] else s.created
    ensures if Makes(r) then after.next == s.next + 1 else after.next >= s.next
  {
  }

  /** The history is true: a challenge's recorded time is that of the request that made it. */
  lemma {:induction false} CreatedRecordsRequests(states: seq<State>, requests: seq<Request>, i: nat, j: nat)
    requires IsRun(states, requests) && j < i < |states| && Makes(requests[j])
    ensures states[i].next > states[j].next
    ensures states[j].next in states[i].created && states[i].created[states[j].next] == requests[j].now
  {
    NextRecords(states[i - 1], requests[i - 1], states[i]);
    if j < i - 1 { CreatedRecordsRequests(states, requests, i - 1, j); }
  }

  /** What a verification answers is what it adds to the log: true for a comparison that succeeded. */
  ghost predicate Succeeds(s: State, after: State, id: Id, checked: Time) {
    after.checks == s.checks + [Check(id, true, checked)]
  }

  /**
    A challenge that is still good: not consumed, made for the user and channel less than ten
    minutes before the lookup and no more before the comparison, and compared with fewer than
    five times.
  */
  predicate StillGood(s: State, user: UserId, channel: Channel, found: Time, checked: Time, id: Id) {
    && id in s.challenges && id in s.created
    && s.challenges[id].userId == user && s.challenges[id].channel == channel && !s.challenges[id].consumed
    && found < s.created[id] + CODE_TTL && checked <= s.created[id] + CODE_TTL
    && Comparisons(s.checks, id) < MAX_ATTEMPTS
  }

  lemma PendingIsUnanswered(s: State, id: Id)
    requires Valid(s) && id in s.challenges && !s.challenges[id].consumed
    ensures Successes(s.checks, id) == 0 && Comparisons(s.checks, id) == s.challenges[id].attempts
    ensures id in s.created && s.challenges[id].expiresAt == s.created[id] + CODE_TTL
  {
    assert Tallied(s.challenges[id], s.checks, id);
  }

  /** What a verification adds to the log: one comparison with the challenge that is still good, if there is one. */
  lemma ComparesWithTheGoodOne(s: State, r: Request, after: State)
    requires Valid(s) && r.Verify? && Next(s, r, after)
    ensures forall id | StillGood(s, r.userId, r.channel, r.found, r.checked, id) ::
              after.checks == s.checks + [Check(id, r.matches, r.checked)]
    ensures !(exists id :: StillGood(s, r.userId, r.channel, r.found, r.checked, id)) ==> after.checks == s.checks
  {
    if exists id :: IsActive(s, r.userId, r.channel, r.found, id) {
      var id :| IsActive(s, r.userId, r.channel, r.found, id) && after == Checked(s, id, r.checked, r.matches);
      PendingIsUnanswered(s, id);
      assert StillGood(s, r.userId, r.channel, r.found, r.checked, id) <==> after.checks != s.checks;
      forall x | StillGood(s, r.userId, r.channel, r.found, r.checked, x) ensures x == id {
        PendingIsUnanswered(s, x);
        ActiveIsUnique(s, r.userId, r.channel, r.found, x);
      }
    } else {
      forall x ensures !StillGood(s, r.userId, r.channel, r.found, r.checked, x) {
        if StillGood(s, r.userId, r.channel, r.found, r.checked, x) {
          PendingIsUnanswered(s, x);
          ActiveIsUnique(s, r.userId, r.channel, r.found, x);
          assert false;
        }
      }
    }
  }

  /** Exactly when a verification succeeds, told from the log and the times the challenges were made. */
  lemma SucceedsIffGood(s: State, r: Request, after: State)
    requires Valid(s) && r.Verify? && Next(s, r, after)
    ensures (exists id :: Succeeds(s, after, id, r.checked))
       <==> r.matches && exists id :: StillGood(s, r.userId, r.channel, r.found, r.checked, id)
    ensures forall id | Succeeds(s, after, id, r.checked) ::
              StillGood(s, r.userId, r.channel, r.found, r.checked, id)
  {
    ComparesWithTheGoodOne(s, r, after);
    if id :| StillGood(s, r.userId, r.channel, r.found, r.checked, id) {
      assert after.checks[|s.checks|] == Check(id, r.matches, r.checked);
      assert r.matches ==> Succeeds(s, after, id, r.checked);
      forall x | Succeeds(s, after, x, r.checked) ensures x == id && r.matches {
        assert after.checks[|s.checks|] == Check(x, true, r.checked);
      }
    }
  }

  /** No other challenge than the one checked is logged. */
  lemma OnlyOneSucceeds(s: State, after: State, id: Id, checked: Time, matches: bool)
    requires id in s.challenges && after == Checked(s, id, checked, matches)
    ensures (exists x :: Succeeds(s, after, x, checked)) <==> Succeeds(s, after, id, checked)
  {
    if x :| Succeeds(s, after, x, checked) { assert after.checks[|s.checks|] == Check(x, true, checked); }
  }

  /**
    What an answer of true means in any run: the code matched, the comparison came within ten
    minutes of the challenge, after fewer than five others with it, none of them successful.
  */
  lemma SuccessMeans(states: seq<State>, requests: seq<Request>, i: nat, id: Id)
    requires IsRun(states, requests) && Valid(states[0]) && i < |requests| && requests[i].Verify?
    requires Succeeds(states[i], states[i + 1], id, requests[i].checked)
    ensures requests[i].matches
    ensures id in states[i].created && requests[i].checked <= states[i].created[id] + CODE_TTL
    ensures Comparisons(states[i].checks, id) < MAX_ATTEMPTS && Successes(states[i].checks, id) == 0
  {
    EveryRunIsValid(states, requests);
    SucceedsIffGood(states[i], requests[i], states[i + 1]);
    PendingIsUnanswered(states[i], id);
  }

  function PendingChallenges(s: State, user: UserId, channel: Channel): set<Id> {
    set id <- s.challenges | Pending(s.challenges[id], user, channel)
  }

  /** The same, in numbers a reader can check: limits per challenge, per user and per code. */
  lemma RunLimits(states: seq<State>, requests: seq<Request>, i: nat, user: UserId, channel: Channel, id: Id)
    requires IsRun(states, requests) && Valid(states[0]) && i < |states|
    ensures |PendingChallenges(states[i], user, channel)| <= 1
    ensures Comparisons(states[i].checks, id) <= MAX_ATTEMPTS && Successes(states[i].checks, id) <= 1
    ensures multiset(states[i].redeemed)[id] <= 1
    ensures forall k | 0 <= k < |states[i].checks| && states[i].checks[k].id == id ::
              id in states[i].created && states[i].checks[k].at <= states[i].created[id] + CODE_TTL
  {
    EveryRunIsValid(states, requests);
    var s := states[i];
    assert Valid(s);
    assert Limited(s.checks, s.next, id);
    var pending := PendingChallenges(s, user, channel);
    if x :| x in pending { assert pending == {x}; }
    CountOfDistinct(s.redeemed, id);
  }

  lemma {:induction false} CountOfDistinct(s: seq<Id>, id: Id)
    requires forall i, j | 0 <= i < j < |s| :: s[i] != s[j]
    ensures multiset(s)[id] <= 1
  {
    if s != [] {
      var n := |s| - 1;
      assert s == s[..n] + [s[n]];
      CountOfDistinct(s[..n], id);
      assert s[n] !in s[..n];
    }
  }

  /** A backup code is accepted exactly when an unused one of the user matches; that one alone is spent. */
  lemma CodeAcceptedIffUnused(s: State, user: UserId, order: seq<Id>, matching: set<Id>)
    requires Enumerates(order, CodesOf(s, user))
    ensures var after := CodeUsed(s, user, order, matching);
            && (after != s <==> exists id <- CodesOf(s, user) :: !s.codes[id].used && id in matching)
            && (after != s ==> exists id <- CodesOf(s, user) ::
                  !s.codes[id].used && id in matching
                      && after == s.(codes := s.codes[id := s.codes[id].(used := true)], redeemed := s.redeemed + [id]))
  {
    match FirstMatch(s.codes, order, matching)
    case None =>
    case Some(id) => assert id in CodesOf(s, user) && CodeUsed(s, user, order, matching).redeemed != s.redeemed;
  }

  // ----- What the other requests do -------------------------------------------------------------------

  /** After a code is sent, its challenge is the only one a verification can use, for ten minutes and five tries. */
  lemma SentCodeIsTheGoodOne(s: State, user: UserId, channel: Channel, now: Time, after: State)
    requires Valid(s) && channel != Sms && Next(s, Send(user, channel, now), after)
    ensures forall found: Time, checked: Time, id: Id ::
              StillGood(after, user, channel, found, checked, id)
              <==> id == s.next && found < now + CODE_TTL && checked <= now + CODE_TTL
    ensures forall id <- s.challenges | s.challenges[id].userId != user || s.challenges[id].channel != channel ::
              id in after.challenges && after.challenges[id] == s.challenges[id]
    ensures after.codes == s.codes && after.checks == s.checks
  {
    SendKeepsValid(s, user, channel, now);
    assert Limited(s.checks, s.next, s.next);
  }

  /** Replacing leaves the user exactly so many codes, all new and unused, and nobody else's touched. */
  lemma ReplacementIsExact(s: State, user: UserId, count: nat, after: State)
    requires Valid(s) && Next(s, ReplaceCodes(user, count), after)
    ensures |CodesOf(after, user)| == count
    ensures forall id <- CodesOf(after, user) :: id !in s.codes && !after.codes[id].used
    ensures forall id <- s.codes | s.codes[id].userId != user :: id in after.codes && after.codes[id] == s.codes[id]
    ensures forall id <- after.codes | after.codes[id].userId != user :: id in s.codes
    ensures after.challenges == s.challenges
  {
    assert CodesOf(after, user) == NewCodes(user, s.next, count).Keys;
    NewCodesCount(user, s.next, count);
  }

  lemma {:induction false} NewCodesCount(user: UserId, from: Id, count: nat)
    ensures |NewCodes(user, from, count).Keys| == count
  {
    if count > 0 {
      NewCodesCount(user, from, count - 1);
      assert NewCodes(user, from, count).Keys == NewCodes(user, from, count - 1).Keys + {from + count - 1};
    }
  }

  /** Disabling leaves the user no challenge and no code, and nobody else's touched. */
  lemma DisablingIsExact(s: State, user: UserId, after: State)
    requires Next(s, Disable(user), after)
    ensures CodesOf(after, user) == {} && forall id <- after.challenges :: after.challenges[id].userId != user
    ensures forall id <- s.codes | s.codes[id].userId != user :: id in after.codes && after.codes[id] == s.codes[id]
    ensures forall id <- s.challenges | s.challenges[id].userId != user ::
              id in after.challenges && after.challenges[id] == s.challenges[id]
  {
  }

  // ----- The service -----------------------------------------------------------------------------------

  class MfaService {
    var challenges: map<Id, Challenge>
    var codes: map<Id, BackupCode>
    ghost var next: Id
    ghost var created: map<Id, Time>
    ghost var checks: seq<Check>
    ghost var redeemed: seq<Id>

    ghost function Current(): State
      reads this
    {
      State(challenges, codes, next, created, checks, redeemed)
    }

    constructor ()
      ensures Current() == State(map[], map[], 0, map[], [], []) && Valid(Current())
    {
      challenges, codes, next, created, checks, redeemed := map[], map[], 0, map[], [], [];
    }

    method CreateOutOfBandChallenge(user: UserId, channel: Channel, now: Time, id: Id)
      requires Valid(Current()) && id == next
      modifies this
      ensures Next(old(Current()), Send(user, channel, now), Current()) && Valid(Current())
    {
      SendKeepsValid(Current(), user, channel, now);
      if channel == Sms {
        return;
      }
      challenges := map x <- challenges ::
        if Pending(challenges[x], user, channel) then challenges[x].(consumed := true) else challenges[x];
      challenges := challenges[id := Challenge(user, channel, now, now + CODE_TTL, 0, false)];
      next, created := next + 1, created[id := now];
    }

    method ConsumeChallenge(id: Id)
      requires id in challenges
      modifies this`challenges
      ensures challenges == old(challenges)[id := old(challenges)[id].(consumed := true)]
    {
      challenges := challenges[id := challenges[id].(consumed := true)];
    }

    method IncrementChallengeAttempt(id: Id)
      requires id in challenges
      modifies this`challenges
      ensures challenges == old(challenges)[id := old(challenges)[id].(attempts := old(challenges)[id].attempts + 1)]
    {
      challenges := challenges[id := challenges[id].(attempts := challenges[id].attempts + 1)];
    }

    method FindActiveChallenge(user: UserId, channel: Channel, now: Time) returns (found: Option<Id>)
      requires Valid(Current())
      ensures found.Some? ==> IsActive(Current(), user, channel, now, found.value)
      ensures found.None? ==> !exists id :: IsActive(Current(), user, channel, now, id)
    {
      if id :| id in challenges && Pending(challenges[id], user, channel) && challenges[id].expiresAt > now {
        ActiveIsUnique(Current(), user, channel, now, id);
        return Some(id);
      }
      return None;
    }

    method VerifyOutOfBandChallenge(user: UserId, channel: Channel, found: Time, checked: Time, matches: bool)
      returns (ok: bool)
      requires Valid(Current()) && found <= checked
      modifies this
      ensures Next(old(Current()), Verify(user, channel, found, checked, matches), Current()) && Valid(Current())
      ensures ok <==> exists id :: Succeeds(old(Current()), Current(), id, checked)
      ensures ok <==> matches && exists id :: StillGood(old(Current()), user, channel, found, checked, id)
      ensures forall id | StillGood(old(Current()), user, channel, found, checked, id) ::
                checks == old(checks) + [Check(id, matches, checked)]
    {
      ghost var before := Current();
      var active := FindActiveChallenge(user, channel, found);
      if active.None? {
        ComparesWithTheGoodOne(before, Verify(user, channel, found, checked, matches), Current());
        SucceedsIffGood(before, Verify(user, channel, found, checked, matches), Current());
        return false;
      }
      ActiveDecides(Current(), user, channel, found, checked, matches, active.value);
      ok := CompareCode(active.value, checked, matches);
      ComparesWithTheGoodOne(before, Verify(user, channel, found, checked, matches), Current());
      SucceedsIffGood(before, Verify(user, channel, found, checked, matches), Current());
      OnlyOneSucceeds(before, Current(), active.value, checked, matches);
    }

    /** Expiry first, then the attempts, then the code. */
    method CompareCode(id: Id, checked: Time, matches: bool) returns (ok: bool)
      requires id in challenges
      modifies this`challenges, this`checks
      ensures Current() == Checked(old(Current()), id, checked, matches)
      ensures ok <==> checks == old(checks) + [Check(id, true, checked)]
    {
      if challenges[id].expiresAt < checked {
        ConsumeChallenge(id);
        return false;
      }
      if challenges[id].attempts >= MAX_ATTEMPTS {
        ConsumeChallenge(id);
        return false;
      }
      checks := checks + [Check(id, matches, checked)];
      if !matches {
        assert checks[|old(checks)|] == Check(id, false, checked);
        IncrementChallengeAttempt(id);
        return false;
      }
      ConsumeChallenge(id);
      return true;
    }

    method ValidateBackupCode(user: UserId, order: seq<Id>, matching: set<Id>) returns (ok: bool)
      requires Valid(Current()) && Enumerates(order, CodesOf(Current(), user))
      modifies this
      ensures Next(old(Current()), UseCode(user, order, matching), Current()) && Valid(Current())
      ensures ok <==> exists id <- CodesOf(old(Current()), user) :: !old(codes)[id].used && id in matching
    {
      UseKeepsValid(Current(), user, order, matching);
      CodeAcceptedIffUnused(Current(), user, order, matching);
      assert forall i | 0 <= i < |order| :: order[i] in CodesOf(Current(), user);
      ok := SpendFirstMatch(order, matching);
    }

    /** The loop over the user's codes: used ones are skipped, the first match is spent. */
    method SpendFirstMatch(order: seq<Id>, matching: set<Id>) returns (ok: bool)
      requires forall j | 0 <= j < |order| :: order[j] in codes
      modifies this`codes, this`redeemed
      ensures var m := FirstMatch(old(codes), order, matching);
              && ok == m.Some?
              && codes == (if ok then old(codes)[m.value := old(codes)[m.value].(used := true)] else old(codes))
              && redeemed == if ok then old(redeemed) + [m.value] else old(redeemed)
    {
      for i := 0 to |order|
        invariant codes == old(codes) && redeemed == old(redeemed)
        invariant FirstMatch(codes, order, matching) == FirstMatch(codes, order[i..], matching)
      {
        assert order[i..][1..] == order[i + 1..];
        if codes[order[i]].used {
          continue;
        }
        if order[i] in matching {
          codes := codes[order[i] := codes[order[i]].(used := true)];
          redeemed := redeemed + [order[i]];
          return true;
        }
      }
      return false;
    }

    /** Old codes are deleted and the new ones created in one transaction. */
    method ReplaceBackupCodes(user: UserId, from: Id, count: nat)
      requires Valid(Current()) && from == next
      modifies this
      ensures Next(old(Current()), ReplaceCodes(user, count), Current()) && Valid(Current())
    {
      NextKeepsValid(Current(), ReplaceCodes(user, count), Replaced(Current(), user, count));
      codes := codes - (set id <- codes | codes[id].userId == user);
      codes := codes + NewCodes(user, from, count);
      next := next + count;
    }

    method DisableTwoFactor(user: UserId)
      requires Valid(Current())
      modifies this
      ensures Next(old(Current()), Disable(user), Current()) && Valid(Current())
    {
      NextKeepsValid(Current(), Disable(user), Disabled(Current(), user));
      codes := codes - (set id <- codes | codes[id].userId == user);
      challenges := map id <- challenges | challenges[id].userId != user :: challenges[id];
    }
  }
}

/**
  The session index kept in Redis: listing a user's sessions page by page, and revoking
  them.

  A listing reads the clock once; a time-to-live of -2 says that the session key is gone,
  -1 that it never expires. `localeCompare` is a strict total order on session identifiers.
*/
module Sessions {
  import opened Wrappers

  type UserId = nat
  type SessionId = string
  type Time = int
  type Less = (SessionId, SessionId) -> bool

  const DEFAULT_PAGE_SIZE: nat := 10
  const MAX_PAGE_SIZE: nat := 50

  datatype Metadata = Metadata(userId: UserId, lastLoginAt: Option<Time>, details: seq<string>)

  datatype Redis = Redis(
    ttl: map<SessionId, int>,              // the session keys, with their time to live
    metadata: map<SessionId, Metadata>,
    index: map<UserId, set<SessionId>>)

  datatype Summary = Summary(sessionId: SessionId, expiresAt: Option<Time>, idleSecondsRemaining: Option<int>,
                             isCurrent: bool, lastLoginAt: Option<Time>, details: seq<string>)

  datatype Page = Page(items: seq<Summary>, totalItems: nat, page: nat, pageSize: nat, totalPages: nat,
                       hasNextPage: bool, hasPreviousPage: bool)

  // ----- Which sessions are listed --------------------------------------------------------------

  function Ttl(r: Redis, id: SessionId): int { if id in r.ttl then r.ttl[id] else -2 }

  function Members(r: Redis, user: UserId): set<SessionId> { if user in r.index then r.index[user] else {} }

  /** Alive, with metadata, and the metadata names this user. */
  predicate Lists(r: Redis, user: UserId, id: SessionId) {
    Ttl(r, id) != -2 && Ttl(r, id) != 0 && id in r.metadata && r.metadata[id].userId == user
  }

  function SummaryOf(r: Redis, now: Time, current: Option<SessionId>, id: SessionId): Summary
    requires id in r.metadata
  {
    var ttl := Ttl(r, id);
    Summary(id, if ttl > 0 then Some(now + ttl * 1000) else None, if ttl > 0 then Some(ttl) else None,
            Some(id) == current, r.metadata[id].lastLoginAt, r.metadata[id].details)
  }

  // ----- The comparator -----------------------------------------------------------------------------

  ghost predicate StrictTotalOrder(less: Less) {
    && (forall a, b :: less(a, b) ==> !less(b, a))
    && (forall a, b :: a != b ==> less(a, b) || less(b, a))
    && (forall a, b, c :: less(a, b) && less(b, c) ==> less(a, c))
  }

  function Timestamp(t: Option<Time>): Time { if t.Some? then t.value else 0 }

  /** The current session, then the latest login, then the latest expiry, then the identifier. */
  predicate Before(less: Less, a: Summary, b: Summary) {
    if a.isCurrent != b.isCurrent then a.isCurrent
    else if Timestamp(a.lastLoginAt) != Timestamp(b.lastLoginAt)
    then Timestamp(a.lastLoginAt) > Timestamp(b.lastLoginAt)
    else if Timestamp(a.expiresAt) != Timestamp(b.expiresAt) then Timestamp(a.expiresAt) > Timestamp(b.expiresAt)
    else less(a.sessionId, b.sessionId)
  }

  lemma BeforeIsStrictAndTotal(less: Less, a: Summary, b: Summary, c: Summary)
    requires StrictTotalOrder(less)
    ensures !(Before(less, a, b) && Before(less, b, a))
    ensures a.sessionId != b.sessionId ==> Before(less, a, b) || Before(less, b, a)
    ensures Before(less, a, b) && Before(less, b, c) ==> Before(less, a, c)
  {
  }

  predicate Sorted(less: Less, s: seq<Summary>) {
    forall i, j | 0 <= i < j < |s| :: Before(less, s[i], s[j])
  }

  /** The one sorted arrangement of the listed sessions. */
  ghost predicate IsListing(r: Redis, user: UserId, now: Time, current: Option<SessionId>, less: Less,
                            all: seq<Summary>) {
    && Sorted(less, all)
    && (forall s <- all ::
          && s.sessionId in Members(r, user) && Lists(r, user, s.sessionId)
          && s == SummaryOf(r, now, current, s.sessionId))
    && (forall id <- Members(r, user) | Lists(r, user, id) :: SummaryOf(r, now, current, id) in all)
  }

  lemma {:induction false} SortedIsUnique(less: Less, a: seq<Summary>, b: seq<Summary>)
    requires StrictTotalOrder(less) && Sorted(less, a) && Sorted(less, b)
    requires forall x :: x in a <==> x in b
    ensures a == b
    decreases |a|
  {
    assert b != [] ==> b[0] in a;
    assert a != [] ==> a[0] in b;
    if a != [] {
      var i :| 0 <= i < |b| && b[i] == a[0];
      var j :| 0 <= j < |a| && a[j] == b[0];
      if i > 0 && j > 0 {
        assert Before(less, b[0], b[i]) && Before(less, a[0], a[j]);
        BeforeIsStrictAndTotal(less, a[0], b[0], a[0]);
      }
      assert a[0] == b[0];
      forall x ensures x in a[1..] <==> x in b[1..] { TailMembers(less, a, x); TailMembers(less, b, x); }
      SortedIsUnique(less, a[1..], b[1..]);
      assert a == [a[0]] + a[1..] && b == [b[0]] + b[1..];
    }
  }

  lemma TailMembers(less: Less, a: seq<Summary>, x: Summary)
    requires StrictTotalOrder(less) && Sorted(less, a) && a != []
    ensures x in a[1..] <==> x in a && x != a[0]
  {
    if x in a[1..] {
      var k :| 0 <= k < |a| - 1 && a[1..][k] == x;
      assert Before(less, a[0], a[k + 1]);
      BeforeIsStrictAndTotal(less, a[0], a[0], a[0]);
    }
    if x in a && x != a[0] {
      var k :| 0 <= k < |a| && a[k] == x;
      assert a[1..][k - 1] == x;
    }
  }

  /** A listing depends on what is stored, not on the order in which Redis enumerates the index. */
  lemma ListingIsUnique(r: Redis, user: UserId, now: Time, current: Option<SessionId>, less: Less, a: seq<Summary>,
                        b: seq<Summary>)
    requires StrictTotalOrder(less)
    requires IsListing(r, user, now, current, less, a) && IsListing(r, user, now, current, less, b)
    ensures a == b
  {
    SortedIsUnique(less, a, b);
  }

  // ----- Pages --------------------------------------------------------------------------------------------

  /** `Math.floor` of a number that is given and positive, else the default. */
  function Requested(raw: Option<real>, default: nat): (n: nat)
    ensures default > 0 ==> n > 0
  {
    if raw.Some? && raw.value.Floor > 0 then raw.value.Floor else default
  }

  function PageSizeOf(raw: Option<real>): (size: nat)
    ensures 1 <= size <= MAX_PAGE_SIZE
  {
    var size := Requested(raw, DEFAULT_PAGE_SIZE);
    if size > MAX_PAGE_SIZE then MAX_PAGE_SIZE else size
  }

  function TotalPages(n: nat, size: nat): nat
    requires size > 0
  {
    if n == 0 then 0 else (n + size - 1) / size
  }

  /** The slice for a requested page, which is clamped to the last. */
  function PageItems(all: seq<Summary>, page: nat, size: nat): seq<Summary>
    requires size > 0 && page > 0
  {
    if all == [] then []
    else
      var total := TotalPages(|all|, size);
      var effective := if page < total then page else total;
      Slice(all, (effective - 1) * size, (effective - 1) * size + size)
  }

  function Cut(i: int, n: nat): nat { if i < 0 then 0 else if i > n then n else i }

  /** JavaScript's `slice` on bounds that are not negative: both are cut to the length. */
  function Slice(all: seq<Summary>, from: int, to: int): seq<Summary> {
    if Cut(from, |all|) <= Cut(to, |all|) then all[Cut(from, |all|)..Cut(to, |all|)] else []
  }

  lemma LastPageIsNotEmpty(n: nat, size: nat)
    requires n > 0 && size > 0
    ensures var t := TotalPages(n, size); t > 0 && (t - 1) * size < n <= t * size
  {
    var t := TotalPages(n, size);
    assert (n + size - 1) == t * size + (n + size - 1) % size;
  }

  /** What is answered for a requested page, links to its neighbours included. */
  predicate IsPageOf(all: seq<Summary>, page: nat, size: nat, result: Page)
    requires size > 0 && page > 0
  {
    var total := TotalPages(|all|, size);
    && result.items == PageItems(all, page, size)
    && result.totalItems == |all| && result.totalPages == total && result.pageSize == size
    && result.page == (if total == 0 then 1 else if page < total then page else total)
    && (result.hasNextPage <==> result.page < total) && (result.hasPreviousPage <==> result.page > 1)
  }

  /** Pages 1 .. k, one after the other. */
  function Concatenated(all: seq<Summary>, size: nat, k: nat): seq<Summary>
    requires size > 0
  {
    if k == 0 then [] else Concatenated(all, size, k - 1) + PageItems(all, k, size)
  }

  lemma NextMultiple(k: nat, size: nat)
    requires k > 0
    ensures k * size == (k - 1) * size + size && (k - 1) * size >= 0
  {
  }

  lemma PageIsSlice(all: seq<Summary>, size: nat, k: nat)
    requires size > 0 && 0 < k <= TotalPages(|all|, size)
    ensures 0 <= (k - 1) * size < |all|
    ensures PageItems(all, k, size) == Slice(all, (k - 1) * size, (k - 1) * size + size)
  {
    LastPageIsNotEmpty(|all|, size);
    PageMonotone(k, TotalPages(|all|, size), size);
  }

  lemma PrefixStep(all: seq<Summary>, from: nat, size: nat)
    requires from < |all| && size > 0
    ensures all[..from] + Slice(all, from, from + size) == if from + size <= |all| then all[..from + size] else all
  {
  }

  /** The first `k` pages are the first `end` sessions, or all when there are fewer. */
  lemma {:induction false} PagesArePrefixes(all: seq<Summary>, size: nat, k: nat, end: nat)
    requires size > 0 && k <= TotalPages(|all|, size) && end == k * size
    ensures Concatenated(all, size, k) == if end <= |all| then all[..end] else all
  {
    if k > 0 {
      NextMultiple(k, size);
      PageIsSlice(all, size, k);
      var from := end - size;
      assert from == (k - 1) * size;
      PagesArePrefixes(all, size, k - 1, from);
      PrefixStep(all, from, size);
    }
  }

  lemma PageMonotone(j: nat, k: nat, size: nat)
    requires 0 < j <= k
    ensures (j - 1) * size <= (k - 1) * size
  {
  }

  /** Pages 1 .. totalPages together are the listing: every session once, in order. */
  lemma PagesPartitionTheListing(all: seq<Summary>, size: nat)
    requires size > 0
    ensures Concatenated(all, size, TotalPages(|all|, size)) == all
  {
    PagesArePrefixes(all, size, TotalPages(|all|, size), TotalPages(|all|, size) * size);
    if all != [] {
      LastPageIsNotEmpty(|all|, size);
      assert all[..|all|] == all;
    }
  }

  /** No page of a non-empty listing is empty or over-full, and pages past the end repeat the last. */
  lemma PagesAreClamped(all: seq<Summary>, page: nat, size: nat)
    requires size > 0 && page > 0
    ensures all != [] ==> 0 < |PageItems(all, page, size)| <= size
    ensures page >= TotalPages(|all|, size) > 0
        ==> PageItems(all, page, size) == PageItems(all, TotalPages(|all|, size), size)
  {
    if all != [] {
      var total := TotalPages(|all|, size);
      LastPageIsNotEmpty(|all|, size);
      PageMonotone(if page < total then page else total, total, size);
    }
  }

  /** A whole page number from 1 up is the page asked for, anything less or absent the first; sizes go up to fifty. */
  lemma RequestedIsExact(n: int, raw: Option<real>)
    ensures Requested(Some(n as real), 1) == if n >= 1 then n else 1
    ensures PageSizeOf(Some(n as real))
         == if n < 1 then DEFAULT_PAGE_SIZE else if n <= MAX_PAGE_SIZE then n else MAX_PAGE_SIZE
    ensures Requested(None, 1) == 1 && PageSizeOf(None) == DEFAULT_PAGE_SIZE
    ensures raw.Some? ==> Requested(raw, 1) == Requested(Some(raw.value.Floor as real), 1)
  {
  }

  /** Every page but the last is full, and shows the sessions behind those of the pages before it. */
  lemma PageIsExact(all: seq<Summary>, page: nat, size: nat, j: nat)
    requires size > 0 && 0 < page <= TotalPages(|all|, size)
    ensures |PageItems(all, page, size)| == if page < TotalPages(|all|, size) then size else |all| - (page - 1) * size
    ensures j < |PageItems(all, page, size)|
        ==> (page - 1) * size + j < |all| && PageItems(all, page, size)[j] == all[(page - 1) * size + j]
  {
    var total, from := TotalPages(|all|, size), (page - 1) * size;
    PageIsSlice(all, size, page);
    LastPageIsNotEmpty(|all|, size);
    NextMultiple(page, size);
    if page < total { PageMonotone(page + 1, total, size); }
    SliceIsExact(all, from, size, j);
  }

  lemma SliceIsExact(all: seq<Summary>, from: nat, size: nat, j: nat)
    requires from < |all|
    ensures var s := Slice(all, from, from + size);
            && |s| == (if from + size <= |all| then size else |all| - from)
            && (j < |s| ==> s[j] == all[from + j])
  {
  }

  // ----- What a listing shows ---------------------------------------------------------------------------------

  /** An earlier entry is the current session, or was logged in later, or expires later, or comes first by its key. */
  lemma ListedInOrder(less: Less, all: seq<Summary>, i: nat, j: nat)
    requires Sorted(less, all) && i < j < |all|
    ensures var a, b := all[i], all[j];
            var aLogin, bLogin := OrElse(a.lastLoginAt, 0), OrElse(b.lastLoginAt, 0);
            var aExpiry, bExpiry := OrElse(a.expiresAt, 0), OrElse(b.expiresAt, 0);
            && (b.isCurrent ==> a.isCurrent)
            && (a.isCurrent == b.isCurrent ==> aLogin >= bLogin)
            && (a.isCurrent == b.isCurrent && aLogin == bLogin ==> aExpiry >= bExpiry)
            && (a.isCurrent == b.isCurrent && aLogin == bLogin && aExpiry == bExpiry ==> less(a.sessionId, b.sessionId))
  {
    assert Before(less, all[i], all[j]);
  }

  /**
    A session is shown exactly when it is indexed for the user, its key is alive, and its
    metadata names the user; the current session, if it is shown, is shown first.
  */
  lemma ListingShows(r: Redis, user: UserId, now: Time, current: Option<SessionId>, less: Less, all: seq<Summary>,
                     id: SessionId)
    requires StrictTotalOrder(less) && IsListing(r, user, now, current, less, all)
    ensures (exists s <- all :: s.sessionId == id)
       <==> && user in r.index && id in r.index[user] && id in r.ttl && r.ttl[id] !in {0, -2}
            && id in r.metadata && r.metadata[id].userId == user
    ensures (exists s <- all :: s.sessionId == id) && current == Some(id) ==> all[0].sessionId == id
    ensures forall s <- all | s.sessionId == id ::
              && (s.isCurrent <==> current == Some(id))
              && s.lastLoginAt == r.metadata[id].lastLoginAt && s.details == r.metadata[id].details
              && s.expiresAt == (if r.ttl[id] > 0 then Some(now + r.ttl[id] * 1000) else None)
              && s.idleSecondsRemaining == if r.ttl[id] > 0 then Some(r.ttl[id]) else None
  {
    if id in Members(r, user) && Lists(r, user, id) { assert SummaryOf(r, now, current, id) in all; }
    if s :| s in all && s.sessionId == id && current == Some(id) {
      var j :| 0 <= j < |all| && all[j] == s;
      assert all[0] in all && s.isCurrent;
      if j > 0 { ListedInOrder(less, all, 0, j); }
    }
  }

  // ----- Sorting -----------------------------------------------------------------------------------------------

  function Insert(less: Less, x: Summary, s: seq<Summary>): seq<Summary> {
    if s == [] then [x] else if Before(less, x, s[0]) then [x] + s else [s[0]] + Insert(less, x, s[1..])
  }

  /** The library's sort; any sort gives the same answer, by `SortedIsUnique`. */
  function Sort(less: Less, s: seq<Summary>): seq<Summary> {
    if s == [] then [] else Insert(less, s[0], Sort(less, s[1..]))
  }

  lemma {:induction false} InsertSorts(less: Less, x: Summary, s: seq<Summary>)
    requires StrictTotalOrder(less) && Sorted(less, s)
    requires forall y <- s :: y.sessionId != x.sessionId
    ensures Sorted(less, Insert(less, x, s))
    ensures forall y :: y in Insert(less, x, s) <==> y == x || y in s
  {
    if s != [] {
      if Before(less, x, s[0]) {
        forall j | 0 <= j < |s| ensures Before(less, x, s[j]) {
          if j > 0 { BeforeIsStrictAndTotal(less, x, s[0], s[j]); }
        }
      } else {
        InsertSorts(less, x, s[1..]);
        var rest := Insert(less, x, s[1..]);
        forall j | 0 <= j < |rest| ensures Before(less, s[0], rest[j]) {
          assert rest[j] in rest;
          assert s[0] in s;
          BeforeIsStrictAndTotal(less, x, s[0], x);
        }
        assert s == [s[0]] + s[1..];
      }
    }
  }

  predicate DistinctIds(s: seq<Summary>) {
    forall i, j | 0 <= i < j < |s| :: s[i].sessionId != s[j].sessionId
  }

  lemma {:induction false} SortSorts(less: Less, s: seq<Summary>)
    requires StrictTotalOrder(less) && DistinctIds(s)
    ensures Sorted(less, Sort(less, s))
    ensures forall y :: y in Sort(less, s) <==> y in s
  {
    if s != [] {
      SortSorts(less, s[1..]);
      forall y <- Sort(less, s[1..]) ensures y.sessionId != s[0].sessionId {
        var j :| 0 <= j < |s| - 1 && s[1..][j] == y;
        assert s[j + 1] == y;
      }
      InsertSorts(less, s[0], Sort(less, s[1..]));
      assert s == [s[0]] + s[1..];
    }
  }

  // ----- The store -----------------------------------------------------------------------------------------------

  function Ids(order: seq<SessionId>): set<SessionId> { set id <- order }

  /** The index with some sessions of one user taken out. */
  function Without(index: map<UserId, set<SessionId>>, user: UserId,
                   gone: set<SessionId>): map<UserId, set<SessionId>> {
    if user in index then index[user := index[user] - gone] else index
  }

  lemma WithoutMore(index: map<UserId, set<SessionId>>, user: UserId, gone: set<SessionId>, more: set<SessionId>)
    ensures Without(Without(index, user, gone), user, more) == Without(index, user, gone + more)
    ensures Without(index, user, {}) == index
  {
    if user in index {
      assert index[user] - gone - more == index[user] - (gone + more);
      assert index[user] - {} == index[user];
    }
  }

  /** What a revocation reaches: the indexed sessions, less the one to keep. */
  function Targets(r: Redis, user: UserId, keep: Option<SessionId>): set<SessionId> {
    set id <- Members(r, user) | Some(id) != keep
  }

  function Revoked(r: Redis, user: UserId, gone: set<SessionId>): Redis {
    Redis(r.ttl - gone, r.metadata - gone, Without(r.index, user, gone))
  }

  /** After a revocation the user's index holds at most the kept session, and no revoked key is left. */
  lemma RevocationIsComplete(r: Redis, user: UserId, keep: Option<SessionId>)
    ensures var after := Revoked(r, user, Targets(r, user, keep));
            && (forall id <- Members(r, user) | Some(id) != keep :: id !in after.ttl && id !in after.metadata)
            && Members(after, user) == Members(r, user) * (set id <- Members(r, user) | Some(id) == keep)
            && (forall id <- r.ttl | id !in Members(r, user) || Some(id) == keep ::
                  id in after.ttl && after.ttl[id] == r.ttl[id])
            && (forall other <- r.index | other != user :: Members(after, other) == Members(r, other))
  {
  }

  class SessionStore {
    var ttl: map<SessionId, int>
    var metadata: map<SessionId, Metadata>
    var index: map<UserId, set<SessionId>>

    ghost function State(): Redis
      reads this
    {
      Redis(ttl, metadata, index)
    }

    constructor ()
      ensures State() == Redis(map[], map[], map[])
    {
      ttl, metadata, index := map[], map[], map[];
    }

    /** `registerSessionInCache`; the session key itself is written by the session middleware. */
    method Register(user: UserId, id: SessionId, m: Metadata, seconds: int)
      modifies this
      ensures ttl == old(ttl)[id := seconds] && metadata == old(metadata)[id := m]
      ensures index == old(index)[user := Members(old(State()), user) + {id}]
    {
      ttl := ttl[id := seconds];
      metadata := metadata[id := m];
      index := index[user := (if user in index then index[user] else {}) + {id}];
    }

    method CleanupSessionArtifacts(id: SessionId, user: UserId)
      modifies this`metadata, this`index
      ensures metadata == old(metadata) - {id}
      ensures index == Without(old(index), user, {id})
    {
      metadata := metadata - {id};
      if user in index {
        index := index[user := index[user] - {id}];
      }
    }

    /** `order` is the index as Redis happens to enumerate it. */
    method ListActiveSessions(user: UserId, order: seq<SessionId>, current: Option<SessionId>, rawPage: Option<real>,
                              rawPageSize: Option<real>, now: Time, less: Less)
      returns (result: Page, ghost all: seq<Summary>)
      requires StrictTotalOrder(less)
      requires Enumerates(order, Members(State(), user))
      modifies this`metadata, this`index
      ensures IsListing(old(State()), user, now, current, less, all)
      ensures IsPageOf(all, Requested(rawPage, 1), PageSizeOf(rawPageSize), result)
      ensures Members(State(), user) == set s <- all :: s.sessionId
      ensures forall u <- old(index) | u != user :: u in index && index[u] == old(index)[u]
      ensures forall id <- old(metadata) | id !in order || Lists(old(State()), user, id) ::
                id in metadata && metadata[id] == old(metadata)[id]
    {
      var summaries, cleanups := CollectSummaries(user, order, current, now);
      CollectedIdsAreDistinct(State(), user, order, current, now);
      SortSorts(less, summaries);
      var sorted := Sort(less, summaries);
      ListingCollected(State(), user, order, current, now, less, summaries, sorted);
      CollectedMembers(State(), user, order, current, now);
      RunCleanups(user, cleanups);
      all := sorted;
      result := Paginate(sorted, Requested(rawPage, 1), PageSizeOf(rawPageSize));
    }

    method Paginate(sorted: seq<Summary>, page: nat, pageSize: nat) returns (result: Page)
      requires page > 0 && pageSize > 0
      ensures IsPageOf(sorted, page, pageSize, result)
    {
      var totalItems := |sorted|;
      var totalPages := TotalPages(totalItems, pageSize);
      var effectivePage := if totalPages == 0 then 1 else if page < totalPages then page else totalPages;
      var startIndex := (effectivePage - 1) * pageSize;
      var items := if totalItems == 0 then [] else Slice(sorted, startIndex, startIndex + pageSize);
      if totalItems > 0 { LastPageIsNotEmpty(totalItems, pageSize); }
      result := Page(items, totalItems, effectivePage, pageSize, totalPages,
                     totalPages > 0 && effectivePage < totalPages, totalPages > 0 && effectivePage > 1);
    }

    /** The loop over the lookups: a summary for each listed session, a cleanup for each other. */
    method CollectSummaries(user: UserId, order: seq<SessionId>, current: Option<SessionId>, now: Time)
      returns (summaries: seq<Summary>, cleanups: seq<SessionId>)
      ensures summaries == Summaries(State(), user, order, current, now)
      ensures cleanups == Stale(State(), user, order)
    {
      summaries, cleanups := [], [];
      for i := 0 to |order|
        invariant summaries == Summaries(State(), user, order[..i], current, now)
        invariant cleanups == Stale(State(), user, order[..i])
      {
        var id := order[i];
        assert order[..i + 1][..i] == order[..i];
        var t := if id in ttl then ttl[id] else -2;
        if t == -2 || t == 0 || id !in metadata || metadata[id].userId != user {
          cleanups := cleanups + [id];
        } else {
          var m := metadata[id];
          var expiresAt := if t > 0 then Some(now + t * 1000) else None;
          var idle := if t > 0 then Some(t) else None;
          summaries := summaries + [Summary(id, expiresAt, idle, Some(id) == current, m.lastLoginAt, m.details)];
        }
      }
      assert order[..|order|] == order;
    }

    method RunCleanups(user: UserId, cleanups: seq<SessionId>)
      modifies this`metadata, this`index
      ensures metadata == old(metadata) - Ids(cleanups)
      ensures index == Without(old(index), user, Ids(cleanups))
    {
      WithoutMore(index, user, {}, {});
      assert Ids(cleanups[..0]) == {};
      for i := 0 to |cleanups|
        invariant metadata == old(metadata) - Ids(cleanups[..i])
        invariant index == Without(old(index), user, Ids(cleanups[..i]))
      {
        CleanupSessionArtifacts(cleanups[i], user);
        WithoutMore(old(index), user, Ids(cleanups[..i]), {cleanups[i]});
        assert Ids(cleanups[..i + 1]) == Ids(cleanups[..i]) + {cleanups[i]};
      }
      assert cleanups[..|cleanups|] == cleanups;
    }

    /** Every targeted key is deleted first, then its metadata and index entry. */
    method RevokeAllSessions(user: UserId, keep: Option<SessionId>)
      modifies this
      ensures State() == Revoked(old(State()), user, Targets(old(State()), user, keep))
    {
      var targets := set id <- (if user in index then index[user] else {}) | Some(id) != keep;
      assert targets == Targets(State(), user, keep);
      ttl := ttl - targets;
      CleanupAll(user, targets);
    }

    method CleanupAll(user: UserId, targets: set<SessionId>)
      modifies this`metadata, this`index
      ensures metadata == old(metadata) - targets && index == Without(old(index), user, targets)
    {
      var pending := targets;
      WithoutMore(index, user, {}, {});
      assert targets - pending == {};
      while pending != {}
        invariant pending <= targets
        invariant metadata == old(metadata) - (targets - pending)
        invariant index == Without(old(index), user, targets - pending)
        decreases |pending|
      {
        var id :| id in pending;
        CleanupSessionArtifacts(id, user);
        WithoutMore(old(index), user, targets - pending, {id});
        assert targets - (pending - {id}) == targets - pending + {id};
        pending := pending - {id};
      }
      assert targets - pending == targets;
    }

    /** Found exactly when the index holds the session and its key still exists; cleaned up either way. */
    method RevokeSession(user: UserId, id: SessionId) returns (found: bool)
      modifies this
      ensures found <==> id in Members(old(State()), user) && id in old(ttl)
      ensures id !in metadata && id !in Members(State(), user)
      ensures ttl == if id in Members(old(State()), user) then old(ttl) - {id} else old(ttl)
      ensures metadata == old(metadata) - {id} && Members(State(), user) == Members(old(State()), user) - {id}
    {
      if user !in index || id !in index[user] {
        CleanupSessionArtifacts(id, user);
        return false;
      }
      found := id in ttl;
      ttl := ttl - {id};
      CleanupSessionArtifacts(id, user);
    }
  }

  // ----- What the loop collects ------------------------------------------------------------------------------------

  function Summaries(r: Redis, user: UserId, order: seq<SessionId>, current: Option<SessionId>,
                     now: Time): seq<Summary> {
    if order == [] then []
    else
      var id := order[|order| - 1];
      Summaries(r, user, order[..|order| - 1], current, now)
        + if Lists(r, user, id) then [SummaryOf(r, now, current, id)] else []
  }

  function Stale(r: Redis, user: UserId, order: seq<SessionId>): seq<SessionId> {
    if order == [] then []
    else
      var id := order[|order| - 1];
      Stale(r, user, order[..|order| - 1]) + if Lists(r, user, id) then [] else [id]
  }

  lemma {:induction false} CollectedMembers(r: Redis, user: UserId, order: seq<SessionId>, current: Option<SessionId>,
                                            now: Time)
    ensures var summaries, stale := Summaries(r, user, order, current, now), Stale(r, user, order);
            && (forall s <- summaries ::
                  && s.sessionId in order && Lists(r, user, s.sessionId)
                  && s == SummaryOf(r, now, current, s.sessionId))
            && (forall id <- order | Lists(r, user, id) :: SummaryOf(r, now, current, id) in summaries)
            && (forall id :: id in stale <==> id in order && !Lists(r, user, id))
  {
    if order != [] { CollectedMembers(r, user, order[..|order| - 1], current, now); }
  }

  lemma {:induction false} CollectedIdsAreDistinct(r: Redis, user: UserId, order: seq<SessionId>,
        current: Option<SessionId>, now: Time)
    requires forall i, j | 0 <= i < j < |order| :: order[i] != order[j]
    ensures DistinctIds(Summaries(r, user, order, current, now))
  {
    if order != [] {
      var front := order[..|order| - 1];
      CollectedIdsAreDistinct(r, user, front, current, now);
      CollectedMembers(r, user, front, current, now);
      var before := Summaries(r, user, front, current, now);
      forall i | 0 <= i < |before| ensures before[i].sessionId != order[|order| - 1] {
        assert before[i] in before;
      }
    }
  }

  lemma ListingCollected(r: Redis, user: UserId, order: seq<SessionId>, current: Option<SessionId>, now: Time,
                         less: Less,
                         summaries: seq<Summary>, sorted: seq<Summary>)
    requires StrictTotalOrder(less) && Enumerates(order, Members(r, user))
    requires summaries == Summaries(r, user, order, current, now)
    requires Sorted(less, sorted) && forall y :: y in sorted <==> y in summaries
    ensures IsListing(r, user, now, current, less, sorted)
    ensures Members(r, user) - Ids(Stale(r, user, order)) == set s <- sorted :: s.sessionId
  {
    CollectedMembers(r, user, order, current, now);
    forall id <- Members(r, user) | Lists(r, user, id) ensures exists s :: s in sorted && s.sessionId == id {
      assert SummaryOf(r, now, current, id) in sorted;
    }
  }

  /** However Redis enumerates the index, the sorted list is the same. */
  lemma EnumerationOrderIsIrrelevant(r: Redis, user: UserId, current: Option<SessionId>, now: Time, less: Less,
                                     order: seq<SessionId>, other: seq<SessionId>)
    requires StrictTotalOrder(less)
    requires Enumerates(order, Members(r, user)) && Enumerates(other, Members(r, user))
    ensures Sort(less, Summaries(r, user, order, current, now)) == Sort(less, Summaries(r, user, other, current, now))
    ensures IsListing(r, user, now, current, less, Sort(less, Summaries(r, user, order, current, now)))
  {
    var a, b := Summaries(r, user, order, current, now), Summaries(r, user, other, current, now);
    CollectedIdsAreDistinct(r, user, order, current, now);
    CollectedIdsAreDistinct(r, user, other, current, now);
    SortSorts(less, a);
    SortSorts(less, b);
    ListingCollected(r, user, order, current, now, less, a, Sort(less, a));
    ListingCollected(r, user, other, current, now, less, b, Sort(less, b));
    ListingIsUnique(r, user, now, current, less, Sort(less, a), Sort(less, b));
  }
}

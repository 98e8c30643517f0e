/**
 * Bounded garbage collection of expired sessions, and the read-only estimator that predicts how many
 * runs it takes.
 */
module SessionGc {
  import opened Prelude

  const MAX_DELETIONS_PER_RUN := 10_000

  type Hash = string

  datatype Session = Session(expiresAt: real, user: string)

  type Sessions = map<Hash, Session>

  /** An expired session as the collector orders it: by expiry, then by token hash. */
  datatype Entry = Entry(at: real, hash: Hash)

  predicate LexLess(a: string, b: string) {
    b != [] && (a == [] || a[0] < b[0] || (a[0] == b[0] && LexLess(a[1..], b[1..])))
  }

  predicate Less(a: Entry, b: Entry) {
    a.at < b.at || (a.at == b.at && LexLess(a.hash, b.hash))
  }

  // ----- The order is a strict total order -----

  lemma {:induction false} LexTransitive(a: string, b: string, c: string)
    requires LexLess(a, b) && LexLess(b, c)
    ensures LexLess(a, c)
  {
    if a != [] && b != [] && c != [] && a[0] == b[0] == c[0] {
      LexTransitive(a[1..], b[1..], c[1..]);
    }
  }

  lemma {:induction false} LexTotal(a: string, b: string)
    ensures !LexLess(a, a)
    ensures a != b ==> (LexLess(a, b) <==> !LexLess(b, a))
  {
    if a != [] {
      LexTotal(a[1..], if b == [] then [] else b[1..]);
      if b != [] && a[0] == b[0] {
        assert a == [a[0]] + a[1..] && b == [b[0]] + b[1..];
      }
    }
  }

  lemma {:induction false} LessTransitive(a: Entry, b: Entry, c: Entry)
    requires Less(a, b) && Less(b, c)
    ensures Less(a, c)
  {
    if a.at == b.at == c.at {
      LexTransitive(a.hash, b.hash, c.hash);
    }
  }

  lemma {:induction false} LessTotal(a: Entry, b: Entry)
    ensures !Less(a, a)
    ensures a != b ==> (Less(a, b) <==> !Less(b, a))
  {
    LexTotal(a.hash, b.hash);
  }

  // ----- One run -----

  predicate IsExpired(s: Session, now: real) {
    s.expiresAt <= now
  }

  function ExpiredHashes(sessions: Sessions, now: real): set<Hash> {
    set h | h in sessions && IsExpired(sessions[h], now)
  }

  /** The order in which expired sessions go. */
  predicate Older(sessions: Sessions, g: Hash, h: Hash)
    requires g in sessions && h in sessions
  {
    Less(Entry(sessions[g].expiresAt, g), Entry(sessions[h].expiresAt, h))
  }

  /**
   * `after` is what a run with limit n leaves: expired sessions are gone, as many as the limit
   * allows, each of them older than every expired session that stays; the rest is untouched.
   */
  ghost predicate IsRun(sessions: Sessions, now: real, n: nat, after: Sessions) {
    && after.Keys <= sessions.Keys
    && (forall h :: h in after ==> after[h] == sessions[h])
    && (forall h :: h in sessions && !IsExpired(sessions[h], now) ==> h in after)
    && |sessions| - |after| == Min(n, |ExpiredHashes(sessions, now)|)
    && (forall g, h :: g in sessions && g !in after && h in after && IsExpired(sessions[h], now) ==> Older(sessions, g, h))
  }

  /** A run is determined by the store, the time and the limit. */
  lemma {:induction false} RunIsDetermined(sessions: Sessions, now: real, n: nat, a: Sessions, b: Sessions)
    requires IsRun(sessions, now, n, a) && IsRun(sessions, now, n, b)
    ensures a == b
  {
    assert |a.Keys| == |b.Keys|;
    if a.Keys - b.Keys != {} {
      Difference(a.Keys, b.Keys);
      var g :| g in a.Keys - b.Keys;
      var h :| h in b.Keys - a.Keys;
      assert Older(sessions, h, g) && Older(sessions, g, h);
      LessTotal(Entry(sessions[g].expiresAt, g), Entry(sessions[h].expiresAt, h));
    } else {
      Difference(b.Keys, a.Keys);
      assert b.Keys - a.Keys == {};
      assert a.Keys == b.Keys;
    }
  }

  lemma {:induction false} Difference(a: set<Hash>, b: set<Hash>)
    requires |a| == |b|
    ensures a - b != {} ==> b - a != {}
  {
    assert a == (a - b) + a * b;
    assert b == (b - a) + a * b;
  }

  /** What a run leaves expired. */
  lemma {:induction false} RunLeaves(sessions: Sessions, now: real, n: nat, after: Sessions)
    requires IsRun(sessions, now, n, after)
    ensures |ExpiredHashes(after, now)| == |ExpiredHashes(sessions, now)| - Min(n, |ExpiredHashes(sessions, now)|)
  {
    SplitByExpiry(sessions, after, now);
  }

  function ActiveHashes(sessions: Sessions, now: real): set<Hash> {
    set h | h in sessions && !IsExpired(sessions[h], now)
  }

  lemma {:induction false} ActiveOrExpired(sessions: Sessions, now: real)
    ensures |sessions| == |ActiveHashes(sessions, now)| + |ExpiredHashes(sessions, now)|
  {
    assert sessions.Keys == ActiveHashes(sessions, now) + ExpiredHashes(sessions, now);
  }

  lemma {:induction false} SplitByExpiry(sessions: Sessions, after: Sessions, now: real)
    requires after.Keys <= sessions.Keys && forall h :: h in after ==> after[h] == sessions[h]
    requires forall h :: h in sessions && !IsExpired(sessions[h], now) ==> h in after
    ensures |sessions| - |after| == |ExpiredHashes(sessions, now)| - |ExpiredHashes(after, now)|
  {
    ActiveOrExpired(sessions, now);
    ActiveOrExpired(after, now);
    assert ActiveHashes(after, now) == ActiveHashes(sessions, now);
  }

  /** The order of hashes is the usual one of texts: a proper prefix first, then the first difference. */
  lemma {:induction false} FirstDifference(a: string, b: string)
    ensures LexLess(a, b) <==>
            (a < b) || exists k :: 0 <= k < |a| && k < |b| && a[..k] == b[..k] && a[k] < b[k]
  {
    if a != [] && b != [] && a[0] == b[0] {
      FirstDifference(a[1..], b[1..]);
      if LexLess(a, b) && !(a[1..] < b[1..]) {
        var k :| 0 <= k < |a[1..]| && k < |b[1..]| && a[1..][..k] == b[1..][..k] && a[1..][k] < b[1..][k];
        assert a[..k + 1] == [a[0]] + a[1..][..k] && b[..k + 1] == [b[0]] + b[1..][..k];
        assert a[k + 1] < b[k + 1];
      }
      if k :| 0 <= k < |a| && k < |b| && a[..k] == b[..k] && a[k] < b[k] {
        assert a[1..][..k - 1] == a[..k][1..] && b[1..][..k - 1] == b[..k][1..];
        assert a[1..][k - 1] < b[1..][k - 1];
      }
    } else if a != [] && b != [] && a[0] < b[0] {
      assert a[..0] == b[..0];
    }
  }

  /**
   * What a run means to the sessions: one that has not expired stays as it is, only expired ones go, none
   * of those that stay expired earlier than one that went, and with room for all of them all go.
   */
  lemma {:induction false} OldestGoFirst(sessions: Sessions, now: real, n: nat, after: Sessions)
    requires IsRun(sessions, now, n, after)
    ensures forall h :: h in sessions && sessions[h].expiresAt > now ==> h in after && after[h] == sessions[h]
    ensures forall g, h :: g in sessions && g !in after && h in after && sessions[h].expiresAt <= now ==>
              && sessions[g].expiresAt <= sessions[h].expiresAt
              && (sessions[g].expiresAt == sessions[h].expiresAt ==> LexLess(g, h))
    ensures forall g :: g in sessions && g !in after ==> sessions[g].expiresAt <= now
    ensures |ExpiredHashes(sessions, now)| <= n ==> forall h :: h in after ==> sessions[h].expiresAt > now
  {
    RunLeaves(sessions, now, n, after);
    if |ExpiredHashes(sessions, now)| <= n {
      forall h | h in after ensures sessions[h].expiresAt > now {
        assert h !in ExpiredHashes(after, now);
      }
    }
  }

  // ----- Composition of runs -----

  /** Two runs in a row are one run with the sum of their limits. */
  lemma {:induction false} RunThenRun(sessions: Sessions, now: real, a: nat, middle: Sessions, b: nat, after: Sessions)
    requires IsRun(sessions, now, a, middle) && IsRun(middle, now, b, after)
    ensures IsRun(sessions, now, a + b, after)
  {
    RunLeaves(sessions, now, a, middle);
  }

  /** The stores of consecutive runs at one time with one limit. */
  ghost predicate IsTrace(trace: seq<Sessions>, now: real, n: nat) {
    trace != [] && forall i :: 0 <= i < |trace| - 1 ==> IsRun(trace[i], now, n, trace[i + 1])
  }

  /** k runs with limit n delete exactly what one run with limit k * n would. */
  lemma {:induction false} RunsCompose(trace: seq<Sessions>, now: real, n: nat)
    requires IsTrace(trace, now, n)
    ensures IsRun(trace[0], now, (|trace| - 1) * n, trace[|trace| - 1])
    decreases |trace|
  {
    var k := |trace| - 1;
    if k == 0 {
    } else {
      var front := trace[..k];
      RunsCompose(front, now, n);
      RunThenRun(trace[0], now, (k - 1) * n, trace[k - 1], n, trace[k]);
      OneMore(k, n);
    }
  }

  lemma {:induction false} OneMore(runs: nat, n: nat)
    requires runs > 0
    ensures runs * n == (runs - 1) * n + n
  {
  }

  /** The estimate, rounded up to whole runs. */
  function RunsRequired(expired: nat, limit: nat): nat
    requires limit > 0
  {
    (expired + limit - 1) / limit
  }

  lemma {:induction false} CeilingDivision(expired: nat, limit: nat, runs: nat)
    requires limit > 0
    ensures expired <= runs * limit <==> runs >= RunsRequired(expired, limit)
  {
    var q, r := RunsRequired(expired, limit), (expired + limit - 1) % limit;
    assert expired + limit - 1 == q * limit + r;
    if runs >= q {
      Scale(q, runs, limit);
    } else {
      Scale(runs + 1, q, limit);
      Scale(runs, q, limit);
    }
  }

  lemma {:induction false} Scale(a: nat, b: nat, c: nat)
    requires a <= b
    ensures a * c <= b * c
    ensures (a + 1) * c == a * c + c
  {
  }

  /**
   * The estimator's `gc_runs_required` is exactly the least number of runs that leaves nothing
   * expired: a trace of runs ends with nothing expired if and only if it is at least that long.
   */
  lemma {:induction false} EstimateIsExact(trace: seq<Sessions>, now: real, limit: nat)
    requires limit > 0 && IsTrace(trace, now, limit)
    ensures ExpiredHashes(trace[|trace| - 1], now) == {} <==>
            |trace| - 1 >= RunsRequired(|ExpiredHashes(trace[0], now)|, limit)
  {
    var runs := |trace| - 1;
    RunsCompose(trace, now, limit);
    RunLeaves(trace[0], now, runs * limit, trace[runs]);
    CeilingDivision(|ExpiredHashes(trace[0], now)|, limit, runs);
  }

  datatype PruneResult = PruneResult(scanned: nat, deleted: nat, expiredRemaining: nat, dryRun: bool)

  datatype GcError = BadClock | BadLimit

  // ----- The programs -----

  function Members(hashes: seq<Hash>): set<Hash> {
    set h | h in hashes
  }

  method OldestOf(sessions: Sessions, hashes: set<Hash>) returns (g: Hash)
    requires hashes != {} && hashes <= sessions.Keys
    ensures g in hashes && forall h :: h in hashes && h != g ==> Older(sessions, g, h)
  {
    var pending := hashes;
    g :| g in pending;
    pending := pending - {g};
    while pending != {}
      invariant pending <= hashes && g in hashes && g !in pending
      invariant forall h :: h in hashes && h !in pending && h != g ==> Older(sessions, g, h)
      decreases pending
    {
      var h :| h in pending;
      var eg, eh := Entry(sessions[g].expiresAt, g), Entry(sessions[h].expiresAt, h);
      LessTotal(eg, eh);
      if Less(eh, eg) {
        forall x | x in hashes && x !in pending && x != g ensures Older(sessions, h, x) {
          LessTransitive(eh, eg, Entry(sessions[x].expiresAt, x));
        }
        g := h;
      }
      pending := pending - {h};
    }
  }

  /** `heapq.nsmallest(n, entries)` */
  method NSmallest(sessions: Sessions, n: nat, hashes: set<Hash>) returns (selected: seq<Hash>, rest: set<Hash>)
    requires hashes <= sessions.Keys
    ensures rest <= hashes && Members(selected) == hashes - rest
    ensures |selected| == Min(n, |hashes|) && |rest| == |hashes| - |selected|
    ensures forall g, h :: g in hashes - rest && h in rest ==> Older(sessions, g, h)
  {
    selected, rest := [], hashes;
    while rest != {} && |selected| < n
      invariant rest <= hashes && |selected| <= n && |rest| == |hashes| - |selected|
      invariant forall h :: h in selected <==> h in hashes - rest
      invariant forall g, h :: g in hashes - rest && h in rest ==> Older(sessions, g, h)
      decreases rest
    {
      var g := OldestOf(sessions, rest);
      selected := selected + [g];
      rest := rest - {g};
    }
  }

  method ExpiredTokenHashes(sessions: Sessions, now: real, maxDeletions: nat)
    returns (selected: seq<Hash>, expiredCount: nat, ghost rest: set<Hash>)
    ensures expiredCount == |ExpiredHashes(sessions, now)|
    ensures rest <= ExpiredHashes(sessions, now) && Members(selected) == ExpiredHashes(sessions, now) - rest
    ensures |selected| == Min(maxDeletions, expiredCount) && |rest| == expiredCount - |selected|
    ensures forall g, h :: g in ExpiredHashes(sessions, now) - rest && h in rest ==> Older(sessions, g, h)
  {
    expiredCount := 0;
    var hashes: set<Hash> := {};
    var seen: Sessions := map[];
    while sessions.Keys - seen.Keys != {}
      invariant seen.Keys <= sessions.Keys && forall h :: h in seen ==> seen[h] == sessions[h]
      invariant expiredCount == |hashes| && hashes == ExpiredHashes(seen, now)
      decreases sessions.Keys - seen.Keys
    {
      var h :| h in sessions.Keys - seen.Keys;
      SeeExpiry(seen, h, sessions[h], now);
      seen := seen[h := sessions[h]];
      if IsExpired(sessions[h], now) {
        expiredCount := expiredCount + 1;
        hashes := hashes + {h};
      }
    }
    assert seen.Keys == sessions.Keys;
    assert seen == sessions;
    selected, rest := NSmallest(sessions, maxDeletions, hashes);
  }

  /** How the set of expired hashes grows by one session. */
  lemma {:induction false} SeeExpiry(seen: Sessions, h: Hash, s: Session, now: real)
    requires h !in seen
    ensures ExpiredHashes(seen[h := s], now) == ExpiredHashes(seen, now) + if IsExpired(s, now) then {h} else {}
    ensures |ExpiredHashes(seen[h := s], now)| == |ExpiredHashes(seen, now)| + if IsExpired(s, now) then 1 else 0
  {
  }

  class SessionStore {
    var sessions: Sessions

    constructor (stored: Sessions)
      ensures sessions == stored
    {
      sessions := stored;
    }

    method PruneExpired(now: real, maxDeletions: int, dryRun: bool) returns (r: Result<PruneResult, GcError>)
      modifies this
      ensures r.Err? <==> now < 0.0 || !(0 < maxDeletions <= MAX_DELETIONS_PER_RUN)
      ensures r.Err? ==> r.error == if now < 0.0 then BadClock else BadLimit
      ensures r.Err? || dryRun ==> sessions == old(sessions)
      ensures r.Ok? && !dryRun ==> IsRun(old(sessions), now, maxDeletions, sessions)
      ensures r.Ok? ==>
                r.value == PruneResult(|old(sessions)|, |old(sessions)| - |sessions|, |ExpiredHashes(sessions, now)|, dryRun)
    {
      if now < 0.0 {
        return Err(BadClock);
      }
      if maxDeletions <= 0 || maxDeletions > MAX_DELETIONS_PER_RUN {
        return Err(BadLimit);
      }
      var scanned := |sessions|;
      var selected, expiredCount, rest := ExpiredTokenHashes(sessions, now, maxDeletions);
      ghost var stored := sessions;
      if selected != [] && !dryRun {
        DeleteAll(selected);
      }
      if !dryRun {
        DeletionIsRun(stored, now, maxDeletions, rest, sessions);
      }
      var deleted := if dryRun then 0 else |selected|;
      var remaining := if dryRun then expiredCount else expiredCount - |selected|;
      return Ok(PruneResult(scanned, deleted, remaining, dryRun));
    }

    method DeleteAll(selected: seq<Hash>)
      modifies this
      ensures sessions == old(sessions) - Members(selected)
    {
      var i := 0;
      while i < |selected|
        invariant i <= |selected|
        invariant sessions == old(sessions) - Members(selected[..i])
      {
        assert selected[..i + 1] == selected[..i] + [selected[i]];
        assert Members(selected[..i + 1]) == Members(selected[..i]) + {selected[i]};
        sessions := sessions - {selected[i]};
        i := i + 1;
      }
      assert selected[..i] == selected;
    }
  }

  lemma {:induction false} DeletionIsRun(sessions: Sessions, now: real, n: nat, rest: set<Hash>, after: Sessions)
    requires rest <= ExpiredHashes(sessions, now) && after == sessions - (ExpiredHashes(sessions, now) - rest)
    requires |ExpiredHashes(sessions, now)| - |rest| == Min(n, |ExpiredHashes(sessions, now)|)
    requires forall g, h :: g in ExpiredHashes(sessions, now) - rest && h in rest ==> Older(sessions, g, h)
    ensures IsRun(sessions, now, n, after)
    ensures |ExpiredHashes(after, now)| == |rest|
  {
    assert ExpiredHashes(after, now) == rest;
    SplitByExpiry(sessions, after, now);
  }

  datatype Retention = Retention(total: nat, active: nat, expired: nat, gcRuns: nat,
                                 usersActive: nat, usersMultiple: nat, maxPerUser: nat)

  function ActiveOf(sessions: Sessions, now: real, user: string): set<Hash> {
    set h | h in sessions && !IsExpired(sessions[h], now) && sessions[h].user == user
  }

  function ActiveUsers(sessions: Sessions, now: real): set<string> {
    set h | h in sessions && !IsExpired(sessions[h], now) :: sessions[h].user
  }

  /** The read-only count over all sessions, in whatever order they come. */
  method InspectRetention(sessions: Sessions, now: real, maxDeletions: int) returns (r: Result<Retention, GcError>)
    ensures r.Err? <==> !(0 < maxDeletions <= MAX_DELETIONS_PER_RUN)
    ensures r.Ok? ==>
              var v := r.value;
              && v.total == |sessions|
              && v.expired == |ExpiredHashes(sessions, now)|
              && v.active == |sessions| - v.expired
              && v.gcRuns == RunsRequired(v.expired, maxDeletions)
              && v.usersActive == |ActiveUsers(sessions, now)|
              && v.usersMultiple == |set u | u in ActiveUsers(sessions, now) && |ActiveOf(sessions, now, u)| > 1|
              && (forall u :: u in ActiveUsers(sessions, now) ==> |ActiveOf(sessions, now, u)| <= v.maxPerUser)
              && (v.maxPerUser == 0 || exists u :: u in ActiveUsers(sessions, now) && |ActiveOf(sessions, now, u)| == v.maxPerUser)
  {
    if maxDeletions <= 0 || maxDeletions > MAX_DELETIONS_PER_RUN {
      return Err(BadLimit);
    }
    var total, expired, byUser := CountSessions(sessions, now);
    var multiple := set u | u in byUser && byUser[u] > 1;
    MultipleUsers(byUser, sessions, now);
    var most := LargestValue(byUser);
    return Ok(Retention(total, total - expired, expired, (expired + maxDeletions - 1) / maxDeletions,
                        |byUser|, |multiple|, most));
  }

  lemma {:induction false} MultipleUsers(byUser: map<string, nat>, sessions: Sessions, now: real)
    requires Tallies(byUser, sessions, now)
    ensures (set u | u in byUser && byUser[u] > 1)
            == set u | u in ActiveUsers(sessions, now) && |ActiveOf(sessions, now, u)| > 1
  {
  }

  /** The counting loop. */
  method CountSessions(sessions: Sessions, now: real) returns (total: nat, expired: nat, byUser: map<string, nat>)
    ensures total == |sessions| && expired == |ExpiredHashes(sessions, now)| <= total
    ensures Tallies(byUser, sessions, now)
  {
    total, expired, byUser := 0, 0, map[];
    var seen: Sessions := map[];
    while sessions.Keys - seen.Keys != {}
      invariant seen.Keys <= sessions.Keys && forall h :: h in seen ==> seen[h] == sessions[h]
      invariant Counted(total, expired, byUser, seen, now)
      decreases sessions.Keys - seen.Keys
    {
      var h :| h in sessions.Keys - seen.Keys;
      var s := sessions[h];
      CountOne(total, expired, byUser, seen, h, s, now);
      seen := seen[h := s];
      total := total + 1;
      if IsExpired(s, now) {
        expired := expired + 1;
        continue;
      }
      byUser := byUser[s.user := (if s.user in byUser then byUser[s.user] else 0) + 1];
    }
    assert seen.Keys == sessions.Keys;
    assert seen == sessions;
  }

  /** The dictionary holds the number of active sessions of every user that has one. */
  ghost predicate Tallies(byUser: map<string, nat>, seen: Sessions, now: real) {
    && byUser.Keys == ActiveUsers(seen, now)
    && forall u :: u in byUser ==> byUser[u] == |ActiveOf(seen, now, u)|
  }

  ghost predicate Counted(total: nat, expired: nat, byUser: map<string, nat>, seen: Sessions, now: real) {
    total == |seen| && expired == |ExpiredHashes(seen, now)| <= total && Tallies(byUser, seen, now)
  }

  lemma {:induction false} CountOne(total: nat, expired: nat, byUser: map<string, nat>, seen: Sessions,
                                    h: Hash, s: Session, now: real)
    requires h !in seen && Counted(total, expired, byUser, seen, now)
    ensures IsExpired(s, now) ==> Counted(total + 1, expired + 1, byUser, seen[h := s], now)
    ensures !IsExpired(s, now) ==>
              Counted(total + 1, expired, byUser[s.user := (if s.user in byUser then byUser[s.user] else 0) + 1],
                      seen[h := s], now)
  {
    SeeExpiry(seen, h, s, now);
    TallyOne(byUser, seen, h, s, now);
  }

  lemma {:induction false} TallyOne(byUser: map<string, nat>, seen: Sessions, h: Hash, s: Session, now: real)
    requires h !in seen && Tallies(byUser, seen, now)
    ensures IsExpired(s, now) ==> Tallies(byUser, seen[h := s], now)
    ensures !IsExpired(s, now) ==>
              Tallies(byUser[s.user := (if s.user in byUser then byUser[s.user] else 0) + 1], seen[h := s], now)
  {
    SeeUser(seen, h, s, now);
    if IsExpired(s, now) {
      forall u | u in byUser ensures byUser[u] == |ActiveOf(seen[h := s], now, u)| {
        SeeActive(seen, h, s, now, u);
      }
    } else {
      TallyActive(byUser, seen, h, s, now);
    }
  }

  lemma {:induction false} TallyActive(byUser: map<string, nat>, seen: Sessions, h: Hash, s: Session, now: real)
    requires h !in seen && Tallies(byUser, seen, now) && !IsExpired(s, now)
    requires ActiveUsers(seen[h := s], now) == ActiveUsers(seen, now) + {s.user}
    ensures Tallies(byUser[s.user := (if s.user in byUser then byUser[s.user] else 0) + 1], seen[h := s], now)
  {
    var after := byUser[s.user := (if s.user in byUser then byUser[s.user] else 0) + 1];
    NoUserNoSession(seen, now, s.user);
    forall u | u in after ensures after[u] == |ActiveOf(seen[h := s], now, u)| {
      SeeActive(seen, h, s, now, u);
    }
  }

  lemma {:induction false} NoUserNoSession(sessions: Sessions, now: real, u: string)
    ensures u !in ActiveUsers(sessions, now) ==> |ActiveOf(sessions, now, u)| == 0
  {
    if ActiveOf(sessions, now, u) != {} {
      var h :| h in ActiveOf(sessions, now, u);
    }
  }

  lemma {:induction false} SeeActive(seen: Sessions, h: Hash, s: Session, now: real, u: string)
    requires h !in seen
    ensures |ActiveOf(seen[h := s], now, u)|
         == |ActiveOf(seen, now, u)| + if u == s.user && !IsExpired(s, now) then 1 else 0
  {
    assert ActiveOf(seen[h := s], now, u)
        == ActiveOf(seen, now, u) + if u == s.user && !IsExpired(s, now) then {h} else {};
  }

  lemma {:induction false} SeeUser(seen: Sessions, h: Hash, s: Session, now: real)
    requires h !in seen
    ensures ActiveUsers(seen[h := s], now) == ActiveUsers(seen, now) + if IsExpired(s, now) then {} else {s.user}
  {
    var more := seen[h := s];
    forall u | u in ActiveUsers(seen, now) ensures u in ActiveUsers(more, now) {
      var k :| k in seen && !IsExpired(seen[k], now) && seen[k].user == u;
      assert k in more && more[k] == seen[k];
    }
    if !IsExpired(s, now) {
      assert h in more && more[h].user == s.user;
    }
  }

  /** `max(counts.values(), default=0)` */
  method LargestValue(counts: map<string, nat>) returns (most: nat)
    ensures forall u :: u in counts ==> counts[u] <= most
    ensures most == 0 || exists u :: u in counts && counts[u] == most
  {
    most := 0;
    var pending := counts.Keys;
    while pending != {}
      invariant pending <= counts.Keys
      invariant forall u :: u in counts && u !in pending ==> counts[u] <= most
      invariant most == 0 || exists u :: u in counts && counts[u] == most
      decreases pending
    {
      var u :| u in pending;
      if counts[u] > most {
        most := counts[u];
      }
      pending := pending - {u};
    }
  }
}

/** Properties of whole runs of the attempt limiter, for any keys and any non-decreasing clock. */
module RateLimitRuns {
  import opened Prelude
  import opened RateLimit

  datatype Attempt = Attempt(key: Key, at: real)

  predicate Chronological(attempts: seq<Attempt>) {
    forall i, j :: 0 <= i < j < |attempts| ==> attempts[i].at <= attempts[j].at
  }

  /** The answers to a run of attempts that starts from the given table. */
  ghost function Answers(keys: Keys, attempts: seq<Attempt>, cfg: Config): (r: seq<Outcome>)
    requires ValidConfig(cfg) && ValidKeys(keys)
    ensures |r| == |attempts|
    decreases |attempts|
  {
    if attempts == [] then []
    else
      var c := Step(keys, attempts[0].key, attempts[0].at, cfg);
      [c.outcome] + Answers(c.keys, attempts[1..], cfg)
  }

  /** How many attempts of one key are admitted at a time in [from, to). */
  ghost function Admissions(attempts: seq<Attempt>, answers: seq<Outcome>, key: Key, from: real, to: real): nat
    requires |attempts| == |answers|
  {
    if attempts == [] then 0
    else
      (if attempts[0].key == key && from <= attempts[0].at < to && answers[0] == Admitted then 1 else 0)
      + Admissions(attempts[1..], answers[1..], key, from, to)
  }

  /** The table has a slot for the attempt. */
  ghost predicate HasSlot(keys: Keys, a: Attempt, cfg: Config) {
    a.key in Purged(keys, a.at) || |Purged(keys, a.at)| < cfg.maxKeys
  }

  // ----- The life of one window of one key -----

  /** Window `i` of a key, if it is still running at `now`. */
  ghost function Running(keys: Keys, key: Key, i: nat, now: real): Option<Window>
    requires ValidKeys(keys) && i < WINDOW_COUNT
  {
    if key in keys && keys[key][i].resetAt > now then Some(keys[key][i]) else None
  }

  function Still(w: Option<Window>, now: real): Option<Window> {
    if w.Some? && w.value.resetAt > now then w else None
  }

  /** What one attempt, of any key, means for the watched window. */
  datatype Move = Move(at: real, admitted: bool, after: Option<Window>)

  /**
   * An admission counts against a running window that had room, or opens a window; anything else
   * leaves a running window alone and may open one that had elapsed.
   */
  predicate Follows(before: Option<Window>, m: Move, limit: Limit) {
    match Still(before, m.at)
    case Some(w) =>
      && (m.admitted ==> w.count < limit.attempts)
      && m.after == Some(if m.admitted then w.(count := w.count + 1) else w)
    case None =>
      || m.after == Some(Window(m.at + limit.seconds, if m.admitted then 1 else 0))
      || (!m.admitted && m.after == None)
  }

  predicate Chain(before: Option<Window>, now: real, moves: seq<Move>, limit: Limit)
    decreases |moves|
  {
    moves == [] ||
    (now <= moves[0].at && Follows(before, moves[0], limit) && Chain(moves[0].after, moves[0].at, moves[1..], limit))
  }

  ghost function MoveOf(keys: Keys, a: Attempt, cfg: Config, key: Key, i: nat): Move
    requires ValidConfig(cfg) && ValidKeys(keys) && i < WINDOW_COUNT
  {
    var c := Step(keys, a.key, a.at, cfg);
    Move(a.at, a.key == key && c.outcome == Admitted, Running(c.keys, key, i, a.at))
  }

  ghost function Moves(keys: Keys, attempts: seq<Attempt>, cfg: Config, key: Key, i: nat): seq<Move>
    requires ValidConfig(cfg) && ValidKeys(keys) && i < WINDOW_COUNT
    decreases |attempts|
  {
    if attempts == [] then []
    else
      [MoveOf(keys, attempts[0], cfg, key, i)]
      + Moves(Step(keys, attempts[0].key, attempts[0].at, cfg).keys, attempts[1..], cfg, key, i)
  }

  /** What a charge does to one window of the charged key. */
  lemma {:induction false} ChargedWindow(start: seq<Window>, limits: seq<Limit>, now: real, i: nat)
    requires |start| == |limits| && i < |start|
    ensures var (windows, outcome) := ChargeWindows(start, limits, now);
            var w := Reopened(start[i], limits[i], now);
            && (outcome == Admitted ==> w.count < limits[i].attempts && windows[i] == w.(count := w.count + 1))
            && (outcome != Admitted ==> windows[i] == w)
  {
    BlockedUntilIsExhausted(ReopenAll(start, limits, now), limits);
  }

  lemma {:induction false} MoveOfCharge(keys: Keys, a: Attempt, cfg: Config, i: nat)
    requires ValidConfig(cfg) && ValidKeys(keys) && i < WINDOW_COUNT && HasSlot(keys, a, cfg)
    ensures var (windows, outcome) := ChargeWindows(StartWindows(Purged(keys, a.at), a.key, a.at), cfg.limits, a.at);
            MoveOf(keys, a, cfg, a.key, i) ==
            Move(a.at, outcome == Admitted, if windows[i].resetAt > a.at then Some(windows[i]) else None)
  {
  }

  lemma {:induction false} MoveFollows(keys: Keys, a: Attempt, cfg: Config, key: Key, i: nat, now: real)
    requires ValidConfig(cfg) && ValidKeys(keys) && i < WINDOW_COUNT && now <= a.at
    ensures Follows(Running(keys, key, i, now), MoveOf(keys, a, cfg, key, i), cfg.limits[i])
  {
    assert Still(Running(keys, key, i, now), a.at) == Running(keys, key, i, a.at);
    if a.key == key && HasSlot(keys, a, cfg) {
      OwnMoveFollows(keys, a, cfg, i);
    } else {
      assert MoveOf(keys, a, cfg, key, i) == Move(a.at, false, Running(keys, key, i, a.at));
    }
  }

  lemma {:induction false} OwnMoveFollows(keys: Keys, a: Attempt, cfg: Config, i: nat)
    requires ValidConfig(cfg) && ValidKeys(keys) && i < WINDOW_COUNT && HasSlot(keys, a, cfg)
    ensures Follows(Running(keys, a.key, i, a.at), MoveOf(keys, a, cfg, a.key, i), cfg.limits[i])
  {
    ChargedWindow(StartWindows(Purged(keys, a.at), a.key, a.at), cfg.limits, a.at, i);
    MoveOfCharge(keys, a, cfg, i);
  }

  ghost predicate From(attempts: seq<Attempt>, now: real) {
    forall j :: 0 <= j < |attempts| ==> now <= attempts[j].at
  }

  lemma {:induction false} ChronologicalRest(attempts: seq<Attempt>)
    requires Chronological(attempts) && attempts != []
    ensures Chronological(attempts[1..]) && From(attempts[1..], attempts[0].at)
  {
  }

  /** Every run moves the watched window in a chain. */
  lemma {:induction false} MovesChain(keys: Keys, attempts: seq<Attempt>, cfg: Config, key: Key, i: nat, now: real)
    requires ValidConfig(cfg) && ValidKeys(keys) && i < WINDOW_COUNT
    requires Chronological(attempts) && From(attempts, now)
    ensures Chain(Running(keys, key, i, now), now, Moves(keys, attempts, cfg, key, i), cfg.limits[i])
    decreases |attempts|
  {
    if attempts != [] {
      var a := attempts[0];
      MoveFollows(keys, a, cfg, key, i, now);
      ChronologicalRest(attempts);
      MovesChain(Step(keys, a.key, a.at, cfg).keys, attempts[1..], cfg, key, i, a.at);
      assert Moves(keys, attempts, cfg, key, i)[1..] == Moves(Step(keys, a.key, a.at, cfg).keys, attempts[1..], cfg, key, i);
    }
  }

  function Admitting(moves: seq<Move>, from: real, to: real): nat {
    if moves == [] then 0
    else (if moves[0].admitted && from <= moves[0].at < to then 1 else 0) + Admitting(moves[1..], from, to)
  }

  lemma {:induction false} MovesCount(
      keys: Keys, attempts: seq<Attempt>, cfg: Config, key: Key, i: nat, from: real, to: real)
    requires ValidConfig(cfg) && ValidKeys(keys) && i < WINDOW_COUNT
    ensures Admissions(attempts, Answers(keys, attempts, cfg), key, from, to)
         == Admitting(Moves(keys, attempts, cfg, key, i), from, to)
    decreases |attempts|
  {
    if attempts != [] {
      var a, rest := attempts[0], attempts[1..];
      var c := Step(keys, a.key, a.at, cfg);
      MovesCount(c.keys, rest, cfg, key, i, from, to);
      assert Answers(keys, attempts, cfg)[1..] == Answers(c.keys, rest, cfg);
      assert Moves(keys, attempts, cfg, key, i)[1..] == Moves(c.keys, rest, cfg, key, i);
    }
  }

  // ----- The admission bound -----

  function Room(w: Option<Window>, limit: Limit): nat {
    if w.Some? && w.value.count < limit.attempts then limit.attempts - w.value.count else 0
  }

  /** The earliest time at which the next window of this kind can open. */
  function NextOpening(w: Option<Window>, now: real): real {
    if w.Some? then w.value.resetAt else now
  }

  /** `k` window lengths, and the admissions that `k` windows allow, as sums. */
  function Spans(k: nat, limit: Limit): real {
    if k == 0 then 0.0 else limit.seconds + Spans(k - 1, limit)
  }

  function Allowed(k: nat, limit: Limit): nat {
    if k == 0 then 0 else limit.attempts + Allowed(k - 1, limit)
  }

  lemma {:induction false} SumsAreProducts(k: nat, limit: Limit)
    ensures Spans(k, limit) == k as real * limit.seconds
    ensures Allowed(k, limit) == k * limit.attempts
  {
    if k > 0 {
      SumsAreProducts(k - 1, limit);
      assert k as real == 1.0 + (k - 1) as real;
    }
  }

  lemma {:induction false} NoneLater(w: Option<Window>, now: real, moves: seq<Move>, limit: Limit, from: real, to: real)
    requires Chain(w, now, moves, limit) && to <= now
    ensures Admitting(moves, from, to) == 0
    decreases |moves|
  {
    if moves != [] {
      NoneLater(moves[0].after, moves[0].at, moves[1..], limit, from, to);
    }
  }

  /**
   * A chain admits at most what its running window still allows, plus one full window for each
   * window that can open before `to`.
   */
  lemma {:induction false} ChainBound(w: Option<Window>, now: real, moves: seq<Move>, limit: Limit,
                                      from: real, to: real, k: nat)
    requires Chain(w, now, moves, limit) && w == Still(w, now) && limit.attempts >= 1 && limit.seconds > 0.0
    requires to <= NextOpening(w, now) + Spans(k, limit)
    ensures Admitting(moves, from, to) <= Room(w, limit) + Allowed(k, limit)
    decreases |moves|
  {
    if moves == [] {
    } else if moves[0].at >= to {
      NoneLater(moves[0].after, moves[0].at, moves[1..], limit, from, to);
    } else {
      var m := moves[0];
      var opens := Still(w, m.at) == None && m.after.Some?;
      ChainBound(m.after, m.at, moves[1..], limit, from, to, if opens then k - 1 else k);
    }
  }

  /** The same for a span that begins anywhere in the chain. */
  lemma {:induction false} SpanBound(w: Option<Window>, now: real, moves: seq<Move>, limit: Limit,
                                     from: real, to: real, k: nat)
    requires Chain(w, now, moves, limit) && w == Still(w, now) && limit.attempts >= 1 && limit.seconds > 0.0
    requires to <= from + Spans(k, limit)
    ensures Admitting(moves, from, to) <= Allowed(k + 1, limit)
    decreases |moves|
  {
    if moves == [] {
    } else if moves[0].at < from {
      SpanBound(moves[0].after, moves[0].at, moves[1..], limit, from, to, k);
    } else {
      // Nothing happens between `now` and the first move, so the chain may be read from `from`.
      var here := Still(w, MaxReal(now, from));
      assert Chain(here, MaxReal(now, from), moves, limit);
      ChainBound(here, MaxReal(now, from), moves, limit, from, to, k);
    }
  }

  /**
   * In every half-open span no longer than k windows a key is admitted at most (k + 1) times the limit,
   * whatever else happens in the table: purging, re-creation, saturation, and denials that reopen
   * the other window. The initial table may be anything a shard file can hold.
   */
  lemma {:induction false} AdmissionBound(keys: Keys, attempts: seq<Attempt>, cfg: Config, key: Key, i: nat,
                                          from: real, to: real, k: nat)
    requires ValidConfig(cfg) && ValidKeys(keys) && i < WINDOW_COUNT && Chronological(attempts)
    requires to <= from + k as real * cfg.limits[i].seconds
    ensures Admissions(attempts, Answers(keys, attempts, cfg), key, from, to) <= (k + 1) * cfg.limits[i].attempts
  {
    SumsAreProducts(k, cfg.limits[i]);
    SumsAreProducts(k + 1, cfg.limits[i]);
    AdmissionBoundAsSum(keys, attempts, cfg, key, i, from, to, k);
  }

  lemma {:induction false} AdmissionBoundAsSum(keys: Keys, attempts: seq<Attempt>, cfg: Config, key: Key, i: nat,
                                               from: real, to: real, k: nat)
    requires ValidConfig(cfg) && ValidKeys(keys) && i < WINDOW_COUNT && Chronological(attempts)
    requires to <= from + Spans(k, cfg.limits[i])
    ensures Admissions(attempts, Answers(keys, attempts, cfg), key, from, to) <= Allowed(k + 1, cfg.limits[i])
  {
    var w, now, moves := Watched(keys, attempts, cfg, key, i, from, to);
    SpanBound(w, now, moves, cfg.limits[i], from, to, k);
  }

  lemma {:induction false} Watched(
      keys: Keys, attempts: seq<Attempt>, cfg: Config, key: Key, i: nat, from: real, to: real)
    returns (w: Option<Window>, now: real, moves: seq<Move>)
    requires ValidConfig(cfg) && ValidKeys(keys) && i < WINDOW_COUNT && Chronological(attempts)
    ensures Chain(w, now, moves, cfg.limits[i]) && w == Still(w, now)
    ensures Admissions(attempts, Answers(keys, attempts, cfg), key, from, to) == Admitting(moves, from, to)
  {
    now := if attempts == [] then 0.0 else attempts[0].at;
    w := Running(keys, key, i, now);
    moves := Moves(keys, attempts, cfg, key, i);
    MovesChain(keys, attempts, cfg, key, i, now);
    MovesCount(keys, attempts, cfg, key, i, from, to);
  }

  // ----- Purging is unobservable -----

  /**
   * A limiter that never purges, never runs out of room and always writes, seen from one key: it
   * folds over the attempts of that key alone. `windows` is None until the first of them.
   */
  function SoloAnswers(windows: Option<seq<Window>>, attempts: seq<Attempt>, key: Key, cfg: Config): seq<Outcome>
    requires ValidConfig(cfg) && SoloShape(windows)
    decreases |attempts|
  {
    if attempts == [] then []
    else if attempts[0].key != key then SoloAnswers(windows, attempts[1..], key, cfg)
    else
      var (after, outcome) := ChargeWindows(SoloStart(windows, attempts[0].at), cfg.limits, attempts[0].at);
      [outcome] + SoloAnswers(Some(after), attempts[1..], key, cfg)
  }

  predicate SoloShape(windows: Option<seq<Window>>) {
    windows.Some? ==> |windows.value| == WINDOW_COUNT
  }

  function SoloStart(windows: Option<seq<Window>>, now: real): (r: seq<Window>)
    requires SoloShape(windows)
    ensures |r| == WINDOW_COUNT
  {
    if windows.Some? then windows.value else Fresh(now)
  }

  /** The answers that went to one key. */
  function OwnAnswers(attempts: seq<Attempt>, answers: seq<Outcome>, key: Key): seq<Outcome>
    requires |attempts| == |answers|
  {
    if attempts == [] then []
    else (if attempts[0].key == key then [answers[0]] else []) + OwnAnswers(attempts[1..], answers[1..], key)
  }

  /** No attempt of the run is refused for want of a slot. */
  ghost predicate NeverFull(keys: Keys, attempts: seq<Attempt>, cfg: Config)
    requires ValidConfig(cfg) && ValidKeys(keys)
    decreases |attempts|
  {
    attempts == [] ||
    (HasSlot(keys, attempts[0], cfg) && NeverFull(Step(keys, attempts[0].key, attempts[0].at, cfg).keys, attempts[1..], cfg))
  }

  /** The table agrees with the never-purging limiter on everything that still runs at `now`. */
  predicate Agrees(keys: Keys, windows: Option<seq<Window>>, key: Key, now: real) {
    if key in keys then windows == Some(keys[key])
    else windows.Some? ==> Expired(windows.value, now)
  }

  /** A key whose windows have all elapsed is charged like a key that was never seen. */
  lemma {:induction false} ExpiredLikeFresh(windows: seq<Window>, cfg: Config, now: real)
    requires ValidConfig(cfg) && |windows| == WINDOW_COUNT && Expired(windows, now)
    ensures ChargeWindows(windows, cfg.limits, now) == ChargeWindows(Fresh(now), cfg.limits, now)
  {
    assert ReopenAll(windows, cfg.limits, now) == ReopenAll(Fresh(now), cfg.limits, now);
  }

  lemma {:induction false} ChargeAgrees(keys: Keys, windows: Option<seq<Window>>, a: Attempt, now: real, cfg: Config)
    requires ValidConfig(cfg) && ValidKeys(keys) && SoloShape(windows) && now <= a.at
    requires Agrees(keys, windows, a.key, now) && HasSlot(keys, a, cfg)
    ensures var c := Step(keys, a.key, a.at, cfg);
            var solo := ChargeWindows(SoloStart(windows, a.at), cfg.limits, a.at);
            a.key in c.keys && c.keys[a.key] == solo.0 && c.outcome == solo.1
  {
    var before := SoloStart(windows, a.at);
    var start := StartWindows(Purged(keys, a.at), a.key, a.at);
    if start != before {
      ExpiredLikeFresh(before, cfg, a.at);
    }
  }

  /**
   * Purging and skipped writes cannot be observed: without saturation the answers that a key gets,
   * delays included, are those of a never-purging limiter, and depend on its own attempts only.
   */
  lemma {:induction false} PurgingIsUnobservable(attempts: seq<Attempt>, key: Key, cfg: Config)
    requires ValidConfig(cfg) && Chronological(attempts) && NeverFull(map[], attempts, cfg)
    ensures OwnAnswers(attempts, Answers(map[], attempts, cfg), key) == SoloAnswers(None, attempts, key, cfg)
  {
    var now := if attempts == [] then 0.0 else attempts[0].at;
    assert From(attempts, now) by {
      assert forall j :: 1 <= j < |attempts| ==> attempts[0].at <= attempts[j].at;
    }
    AgreeFrom(map[], None, attempts, key, now, cfg);
  }

  lemma {:induction false} AgreeFrom(
      keys: Keys, windows: Option<seq<Window>>, attempts: seq<Attempt>, key: Key, now: real, cfg: Config)
    requires ValidConfig(cfg) && ValidKeys(keys) && SoloShape(windows)
    requires Chronological(attempts) && From(attempts, now) && NeverFull(keys, attempts, cfg)
    requires Agrees(keys, windows, key, now)
    ensures OwnAnswers(attempts, Answers(keys, attempts, cfg), key) == SoloAnswers(windows, attempts, key, cfg)
    decreases |attempts|
  {
    if attempts != [] {
      var a, rest := attempts[0], attempts[1..];
      var c := Step(keys, a.key, a.at, cfg);
      ChronologicalRest(attempts);
      assert Answers(keys, attempts, cfg)[1..] == Answers(c.keys, rest, cfg);
      if a.key == key {
        ChargeAgrees(keys, windows, a, now, cfg);
        AgreeFrom(c.keys, Some(c.keys[key]), rest, key, a.at, cfg);
      } else {
        assert Agrees(c.keys, windows, key, a.at);
        AgreeFrom(c.keys, windows, rest, key, a.at, cfg);
      }
    }
  }

  /** A run that mentions no more keys than the bound never saturates the table. */
  lemma {:induction false} FewKeysNeverFull(attempts: seq<Attempt>, cfg: Config)
    requires ValidConfig(cfg)
    requires |set a | a in attempts :: a.key| <= cfg.maxKeys
    ensures NeverFull(map[], attempts, cfg)
  {
    var mentioned := set a | a in attempts :: a.key;
    assert forall a :: a in attempts ==> a.key in mentioned;
    FewKeysFrom(map[], attempts, mentioned, cfg);
  }

  lemma {:induction false} FewKeysFrom(keys: Keys, attempts: seq<Attempt>, mentioned: set<Key>, cfg: Config)
    requires ValidConfig(cfg) && ValidKeys(keys)
    requires keys.Keys <= mentioned && |mentioned| <= cfg.maxKeys
    requires forall a :: a in attempts ==> a.key in mentioned
    ensures NeverFull(keys, attempts, cfg)
    decreases |attempts|
  {
    if attempts != [] {
      var a := attempts[0];
      assert a in attempts;
      var live := Purged(keys, a.at);
      if a.key !in live {
        Subset(live.Keys + {a.key}, mentioned);
      }
      FewKeysFrom(Step(keys, a.key, a.at, cfg).keys, attempts[1..], mentioned, cfg);
    }
  }

  // ----- Table bound and retry delays -----

  /** The table never outgrows its bound. */
  lemma {:induction false} StepKeepsBound(keys: Keys, key: Key, now: real, cfg: Config)
    requires ValidConfig(cfg) && ValidKeys(keys) && |keys| <= cfg.maxKeys
    ensures |Step(keys, key, now, cfg).keys| <= cfg.maxKeys
  {
    PurgedSize(keys, now);
    var live := Purged(keys, now);
    if key in live {
      var windows := ChargeWindows(live[key], cfg.limits, now).0;
      assert live[key := windows].Keys == live.Keys;
    }
  }

  /** The table after a run. */
  ghost function TableAfter(keys: Keys, attempts: seq<Attempt>, cfg: Config): (r: Keys)
    requires ValidConfig(cfg) && ValidKeys(keys)
    ensures ValidKeys(r)
    decreases |attempts|
  {
    if attempts == [] then keys
    else TableAfter(Step(keys, attempts[0].key, attempts[0].at, cfg).keys, attempts[1..], cfg)
  }

  lemma {:induction false} TableBounded(keys: Keys, attempts: seq<Attempt>, cfg: Config)
    requires ValidConfig(cfg) && ValidKeys(keys) && |keys| <= cfg.maxKeys
    ensures |TableAfter(keys, attempts, cfg)| <= cfg.maxKeys
    decreases |attempts|
  {
    if attempts != [] {
      StepKeepsBound(keys, attempts[0].key, attempts[0].at, cfg);
      TableBounded(Step(keys, attempts[0].key, attempts[0].at, cfg).keys, attempts[1..], cfg);
    }
  }

  /** The instant at which a denied key becomes admissible again. */
  ghost predicate ReleasesAt(keys: Keys, key: Key, now: real, release: real, cfg: Config)
    requires ValidConfig(cfg) && ValidKeys(keys)
  {
    forall t: real :: t >= now ==> (Step(keys, key, t, cfg).outcome == Admitted <==> t >= release)
  }

  /**
   * The reported delay is exact. After a denial there is one instant before which the key stays
   * denied and from which it is admitted, and the delay is the wait for it rounded up to whole
   * seconds, at least one.
   */
  lemma {:induction false} DelayIsExact(keys: Keys, key: Key, now: real, cfg: Config) returns (release: real)
    requires ValidConfig(cfg) && ValidKeys(keys) && |keys| <= cfg.maxKeys
    requires Step(keys, key, now, cfg).outcome.Denied?
    ensures now < release
    ensures Step(keys, key, now, cfg).outcome == Denied(Delay(release - now))
    ensures ReleasesAt(Step(keys, key, now, cfg).keys, key, now, release, cfg)
  {
    var live := Purged(keys, now);
    if key !in live && |live| >= cfg.maxKeys {
      release := SaturatedRelease(keys, key, now, cfg);
    } else {
      release := ExhaustedRelease(keys, key, now, cfg);
    }
  }

  lemma {:induction false} SaturatedRelease(keys: Keys, key: Key, now: real, cfg: Config) returns (release: real)
    requires ValidConfig(cfg) && ValidKeys(keys) && |keys| <= cfg.maxKeys
    requires key !in Purged(keys, now) && |Purged(keys, now)| >= cfg.maxKeys
    ensures now < release
    ensures Step(keys, key, now, cfg).outcome == Denied(Delay(release - now))
    ensures ReleasesAt(Step(keys, key, now, cfg).keys, key, now, release, cfg)
  {
    var live := Purged(keys, now);
    PurgedSize(keys, now);
    release := Earliest(live);
    var first :| first in live && LastReset(live[first]) == release;
    forall t: real | t >= now ensures Step(live, key, t, cfg).outcome == Admitted <==> t >= release {
      FullTableAt(live, key, first, t, cfg);
    }
  }

  /** A full table admits a new key exactly from the time on at which some tracked key has expired. */
  lemma {:induction false} FullTableAt(live: Keys, key: Key, first: Key, t: real, cfg: Config)
    requires ValidConfig(cfg) && ValidKeys(live) && |live| == cfg.maxKeys && key !in live
    requires first in live && LastReset(live[first]) == Earliest(live)
    ensures Step(live, key, t, cfg).outcome == Admitted <==> t >= Earliest(live)
  {
    if t >= Earliest(live) {
      assert Expired(live[first], t);
      assert first in live && first !in Purged(live, t);
      PurgedSize(live, t);
      FreshIsAdmitted(t, cfg);
    } else {
      assert Purged(live, t) == live;
    }
  }

  lemma {:induction false} FreshIsAdmitted(now: real, cfg: Config)
    requires ValidConfig(cfg)
    ensures ChargeWindows(Fresh(now), cfg.limits, now).1 == Admitted
  {
    BlockedUntilIsExhausted(ReopenAll(Fresh(now), cfg.limits, now), cfg.limits);
  }

  lemma {:induction false} ExhaustedRelease(keys: Keys, key: Key, now: real, cfg: Config) returns (release: real)
    requires ValidConfig(cfg) && ValidKeys(keys) && |keys| <= cfg.maxKeys
    requires key in Purged(keys, now) || |Purged(keys, now)| < cfg.maxKeys
    requires Step(keys, key, now, cfg).outcome.Denied?
    ensures now < release
    ensures Step(keys, key, now, cfg).outcome == Denied(Delay(release - now))
    ensures ReleasesAt(Step(keys, key, now, cfg).keys, key, now, release, cfg)
  {
    var live := Purged(keys, now);
    var windows := ReopenAll(StartWindows(live, key, now), cfg.limits, now);
    var after := Step(keys, key, now, cfg).keys;
    assert after == live[key := windows];
    StepKeepsBound(keys, key, now, cfg);
    release := Latest(BlockedUntil(windows, cfg.limits));
    BlockedUntilIsExhausted(windows, cfg.limits);
    forall t: real | t >= now ensures Step(after, key, t, cfg).outcome == Admitted <==> t >= release {
      LaterAttempt(after, key, now, t, cfg);
    }
  }

  /** The next attempt on a table that holds the reopened windows of the key. */
  lemma {:induction false} LaterAttempt(after: Keys, key: Key, now: real, t: real, cfg: Config)
    requires ValidConfig(cfg) && ValidKeys(after) && |after| <= cfg.maxKeys && key in after && now <= t
    requires forall i :: 0 <= i < WINDOW_COUNT ==> now < after[key][i].resetAt
    requires BlockedUntil(after[key], cfg.limits) != []
    ensures Step(after, key, t, cfg).outcome == Admitted <==> t >= Latest(BlockedUntil(after[key], cfg.limits))
  {
    LaterCharge(after[key], now, t, cfg);
    if key !in Purged(after, t) {
      FreshIsAdmitted(t, cfg);
      PurgedSize(after, t);
    }
  }

  /** Charging reopened windows again later succeeds exactly once every exhausted one has elapsed. */
  lemma {:induction false} LaterCharge(windows: seq<Window>, now: real, t: real, cfg: Config)
    requires ValidConfig(cfg) && |windows| == WINDOW_COUNT && now <= t
    requires forall i :: 0 <= i < |windows| ==> now < windows[i].resetAt
    requires BlockedUntil(windows, cfg.limits) != []
    ensures ChargeWindows(windows, cfg.limits, t).1 == Admitted <==> t >= Latest(BlockedUntil(windows, cfg.limits))
    ensures Expired(windows, t) ==> t >= Latest(BlockedUntil(windows, cfg.limits))
  {
    var release := Latest(BlockedUntil(windows, cfg.limits));
    var later := ReopenAll(windows, cfg.limits, t);
    BlockedUntilIsExhausted(windows, cfg.limits);
    BlockedUntilIsExhausted(later, cfg.limits);
    var i :| 0 <= i < |windows| && windows[i].count >= cfg.limits[i].attempts && windows[i].resetAt == release;
    if t >= release {
      forall j | 0 <= j < |later| ensures later[j].count < cfg.limits[j].attempts {
        if windows[j].count >= cfg.limits[j].attempts {
          assert windows[j].resetAt in BlockedUntil(windows, cfg.limits);
        }
      }
    } else {
      assert later[i] == windows[i];
    }
  }

  /**
   * In whole seconds: after a denial with delay r and no attempt in between, the key is admitted
   * at every time from now + r on and is still denied up to now + r - 1.
   */
  lemma {:induction false} RetryAfterDelay(keys: Keys, key: Key, now: real, cfg: Config, r: nat, t: real)
    requires ValidConfig(cfg) && ValidKeys(keys) && |keys| <= cfg.maxKeys
    requires Step(keys, key, now, cfg).outcome == Denied(r)
    ensures var after := Step(keys, key, now, cfg).keys;
            && (t >= now + r as real ==> Step(after, key, t, cfg).outcome == Admitted)
            && (now <= t <= now + (r - 1) as real ==> Step(after, key, t, cfg).outcome.Denied?)
  {
    var release := DelayIsExact(keys, key, now, cfg);
    var after := Step(keys, key, now, cfg).keys;
    assert t >= now ==> (Step(after, key, t, cfg).outcome == Admitted <==> t >= release);
  }

  // ----- What an attempt does to the table -----

  /**
   * An attempt drops the keys whose windows have all elapsed and leaves every other running key as it is. It
   * writes its own key unless the table is full, and reports a change exactly when the table differs.
   */
  lemma {:induction false} StepTouchesItsKey(keys: Keys, key: Key, now: real, cfg: Config)
    requires ValidConfig(cfg) && ValidKeys(keys)
    ensures var c := Step(keys, key, now, cfg);
            && (forall k :: k != key ==> (k in c.keys <==> k in keys && exists w :: w in keys[k] && w.resetAt > now))
            && (forall k :: k != key && k in c.keys ==> c.keys[k] == keys[k])
            && (key in c.keys <==> key in Purged(keys, now) || |Purged(keys, now)| < cfg.maxKeys)
            && (key in c.keys ==> forall w :: w in c.keys[key] ==> w.resetAt > now)
            && (c.changed <==> c.keys != keys)
  {
    var c, live := Step(keys, key, now, cfg), Purged(keys, now);
    forall k | k in keys ensures !Expired(keys[k], now) <==> exists w :: w in keys[k] && w.resetAt > now {
      StillRunning(keys[k], now);
    }
    if key in live || |live| < cfg.maxKeys {
      ChargedWindowsRun(StartWindows(live, key, now), cfg, now);
    }
  }

  lemma {:induction false} ChargedWindowsRun(start: seq<Window>, cfg: Config, now: real)
    requires ValidConfig(cfg) && |start| == WINDOW_COUNT
    ensures forall w :: w in ChargeWindows(start, cfg.limits, now).0 ==> w.resetAt > now
  {
    var windows := ReopenAll(start, cfg.limits, now);
    assert forall i :: 0 <= i < |windows| ==> windows[i].resetAt > now;
  }

  lemma {:induction false} StillRunning(windows: seq<Window>, now: real)
    ensures !Expired(windows, now) <==> exists w :: w in windows && w.resetAt > now
  {
    if i :| 0 <= i < |windows| && windows[i].resetAt > now {
      assert windows[i] in windows;
    }
  }
}

/**
 * The two-window attempt limiter of the control plane: a bounded table that holds, for each
 * client/account key, one burst window and one sustained window.
 *
 * `Table` and `Shard` follow the program, which updates the table in place. `Step` is what one
 * attempt does to the table as a value; the properties of whole runs are proved about `Step`
 * in RateLimitRuns.dfy.
 */
module RateLimit {
  import opened Prelude

  const WINDOW_COUNT := 2

  type Key = string

  datatype Window = Window(resetAt: real, count: nat)

  datatype Limit = Limit(attempts: nat, seconds: real)

  datatype Config = Config(limits: seq<Limit>, maxKeys: nat)

  type Keys = map<Key, seq<Window>>

  datatype Outcome = Admitted | Denied(retryAfter: nat)

  /** What the table looks like after an attempt, the answer, and the reported change flag. */
  datatype Charge = Charge(keys: Keys, outcome: Outcome, changed: bool)

  /** The bounds that the configuration object enforces when it is built. */
  predicate ValidConfig(cfg: Config) {
    && |cfg.limits| == WINDOW_COUNT
    && (forall i :: 0 <= i < |cfg.limits| ==>
          1 <= cfg.limits[i].attempts <= 10_000 && 1.0 <= cfg.limits[i].seconds <= 86_400.0)
    && 1 <= cfg.maxKeys <= 65_536
  }

  /** The shape that a shard read from disk is validated to have. */
  predicate ValidKeys(keys: Keys) {
    forall k :: k in keys ==> |keys[k]| == WINDOW_COUNT
  }

  predicate Expired(windows: seq<Window>, now: real) {
    forall i :: 0 <= i < |windows| ==> windows[i].resetAt <= now
  }

  predicate Expiring(windows: seq<Window>, now: real) {
    exists i :: 0 <= i < |windows| && windows[i].resetAt <= now
  }

  function Purged(keys: Keys, now: real): Keys {
    map k | k in keys && !Expired(keys[k], now) :: keys[k]
  }

  /** The latest reset of a non-empty list of windows. */
  function LastReset(windows: seq<Window>): (r: real)
    requires windows != []
    ensures exists i :: 0 <= i < |windows| && windows[i].resetAt == r
    ensures forall i :: 0 <= i < |windows| ==> windows[i].resetAt <= r
  {
    if |windows| == 1 then windows[0].resetAt
    else MaxReal(LastReset(windows[..|windows| - 1]), windows[|windows| - 1].resetAt)
  }

  /** The earliest time at which some tracked key expires. */
  ghost predicate IsEarliest(keys: Keys, e: real)
    requires ValidKeys(keys)
  {
    && (exists k :: k in keys && LastReset(keys[k]) == e)
    && (forall k :: k in keys ==> e <= LastReset(keys[k]))
  }

  lemma {:induction false} EarliestExists(keys: Keys)
    requires ValidKeys(keys) && keys != map[]
    ensures exists e :: IsEarliest(keys, e)
    decreases |keys|
  {
    var k :| k in keys;
    var rest := keys - {k};
    var last := LastReset(keys[k]);
    assert rest.Keys == keys.Keys - {k};
    assert forall j :: j in keys ==> j == k || j in rest;
    if rest == map[] {
      assert IsEarliest(keys, last);
    } else {
      EarliestExists(rest);
      var e :| IsEarliest(rest, e);
      var k' :| k' in rest && LastReset(rest[k']) == e;
      assert k' in keys;
      var least := if e <= last then e else last;
      forall j | j in keys
        ensures least <= LastReset(keys[j])
      {
        assert j == k || j in rest;
      }
      assert IsEarliest(keys, least);
    }
  }

  ghost function Earliest(keys: Keys): (e: real)
    requires ValidKeys(keys) && keys != map[]
    ensures IsEarliest(keys, e)
  {
    EarliestExists(keys);
    var e :| IsEarliest(keys, e);
    e
  }

  function Delay(wait: real): (r: nat)
    ensures r >= 1
  {
    Max(1, Ceil(wait))
  }

  function Fresh(now: real): (windows: seq<Window>)
    ensures |windows| == WINDOW_COUNT
  {
    seq(WINDOW_COUNT, i => Window(now, 0))
  }

  function Reopened(w: Window, limit: Limit, now: real): Window {
    if w.resetAt <= now then Window(now + limit.seconds, 0) else w
  }

  function ReopenAll(windows: seq<Window>, limits: seq<Limit>, now: real): (r: seq<Window>)
    requires |windows| == |limits|
    ensures |r| == |windows|
    ensures forall i :: 0 <= i < |r| ==> r[i] == Reopened(windows[i], limits[i], now)
  {
    seq(|windows|, i requires 0 <= i < |windows| && |windows| == |limits| => Reopened(windows[i], limits[i], now))
  }

  /** The reset times of the exhausted windows, in window order. */
  function BlockedUntil(windows: seq<Window>, limits: seq<Limit>): seq<real>
    requires |windows| == |limits|
  {
    if windows == [] then []
    else
      var n := |windows| - 1;
      var front := BlockedUntil(windows[..n], limits[..n]);
      if windows[n].count >= limits[n].attempts then front + [windows[n].resetAt] else front
  }

  /** The list is empty exactly when every window has room, and it lists the exhausted ones only. */
  lemma {:induction false} BlockedUntilIsExhausted(windows: seq<Window>, limits: seq<Limit>)
    requires |windows| == |limits|
    ensures BlockedUntil(windows, limits) == [] <==>
            forall i :: 0 <= i < |windows| ==> windows[i].count < limits[i].attempts
    ensures forall i :: 0 <= i < |windows| && windows[i].count >= limits[i].attempts ==>
              windows[i].resetAt in BlockedUntil(windows, limits)
    ensures forall t :: t in BlockedUntil(windows, limits) ==>
              exists i :: 0 <= i < |windows| && windows[i].count >= limits[i].attempts && windows[i].resetAt == t
  {
    if windows != [] {
      var n := |windows| - 1;
      BlockedUntilIsExhausted(windows[..n], limits[..n]);
    }
  }

  function Latest(times: seq<real>): (r: real)
    requires times != []
    ensures r in times && forall t :: t in times ==> t <= r
  {
    if |times| == 1 then times[0]
    else
      assert times == times[..|times| - 1] + [times[|times| - 1]];
      MaxReal(Latest(times[..|times| - 1]), times[|times| - 1])
  }

  function Counted(windows: seq<Window>): (r: seq<Window>)
    ensures |r| == |windows|
    ensures forall i :: 0 <= i < |r| ==> r[i] == windows[i].(count := windows[i].count + 1)
  {
    seq(|windows|, i requires 0 <= i < |windows| => windows[i].(count := windows[i].count + 1))
  }

  /** What one attempt does to the windows of its own key. */
  function ChargeWindows(windows: seq<Window>, limits: seq<Limit>, now: real): (r: (seq<Window>, Outcome))
    requires |windows| == |limits|
    ensures |r.0| == |windows|
  {
    var reopened := ReopenAll(windows, limits, now);
    var blocked := BlockedUntil(reopened, limits);
    if blocked == [] then (Counted(reopened), Admitted)
    else (reopened, Denied(Delay(Latest(blocked) - now)))
  }

  /** One attempt on the whole table. */
  ghost function Step(keys: Keys, key: Key, now: real, cfg: Config): (c: Charge)
    requires ValidConfig(cfg) && ValidKeys(keys)
    ensures ValidKeys(c.keys)
  {
    var live := Purged(keys, now);
    if key !in live && |live| >= cfg.maxKeys then
      Charge(live, Denied(Delay(Earliest(live) - now)), live != keys)
    else
      var (windows, outcome) := ChargeWindows(StartWindows(live, key, now), cfg.limits, now);
      Charge(live[key := windows], outcome, live[key := windows] != keys)
  }

  lemma {:induction false} PurgedSize(keys: Keys, now: real)
    ensures |Purged(keys, now)| <= |keys|
    ensures |Purged(keys, now)| == |keys| ==> Purged(keys, now) == keys
  {
    var live := Purged(keys, now);
    assert live.Keys <= keys.Keys;
    Subset(live.Keys, keys.Keys);
    if |live| == |keys| {
      assert live.Keys == keys.Keys;
    }
  }

  lemma {:induction false} Subset<T>(a: set<T>, b: set<T>)
    requires a <= b
    ensures |a| <= |b|
    ensures |a| == |b| ==> a == b
  {
    assert b == a + (b - a);
    assert |b| == |a| + |b - a|;
  }

  /** The table a worker holds while it handles one attempt. */
  class Table {
    var keys: Keys

    constructor (stored: Keys)
      ensures keys == stored
    {
      keys := stored;
    }

    method PurgeExpired(now: real)
      modifies this
      ensures keys == Purged(old(keys), now)
    {
      var pending := keys.Keys;
      while pending != {}
        invariant pending <= keys.Keys <= old(keys).Keys
        invariant forall k :: k in keys ==> keys[k] == old(keys)[k]
        invariant forall k :: k in old(keys) && k !in pending ==> (k in keys <==> !Expired(old(keys)[k], now))
        decreases pending
      {
        var k :| k in pending;
        if Expired(keys[k], now) {
          keys := keys - {k};
        }
        pending := pending - {k};
      }
    }

    method EarliestRelease(now: real) returns (r: nat)
      requires ValidKeys(keys) && keys != map[]
      ensures r == Delay(Earliest(keys) - now)
    {
      var pending := keys.Keys;
      var first :| first in pending;
      var earliest := LastReset(keys[first]);
      pending := pending - {first};
      while pending != {}
        invariant pending <= keys.Keys
        invariant exists k :: k in keys && LastReset(keys[k]) == earliest
        invariant forall k :: k in keys && k !in pending ==> earliest <= LastReset(keys[k])
        decreases pending
      {
        var k :| k in pending;
        if LastReset(keys[k]) < earliest {
          earliest := LastReset(keys[k]);
        }
        pending := pending - {k};
      }
      assert IsEarliest(keys, earliest);
      r := Delay(earliest - now);
    }

    /** Charges one attempt in place and reports whether the stored state changed. */
    method RegisterAttempt(key: Key, now: real, cfg: Config) returns (outcome: Outcome, changed: bool)
      requires ValidConfig(cfg) && ValidKeys(keys)
      modifies this
      ensures Charge(keys, outcome, changed) == Step(old(keys), key, now, cfg)
    {
      changed := false;
      var tracked := |keys|;
      ghost var before := keys;
      PurgeExpired(now);
      ghost var live := keys;
      PurgedSize(before, now);
      if |keys| != tracked {
        changed := true;
      }
      assert changed <==> live != before;
      if key !in keys {
        if |keys| >= cfg.maxKeys {
          var delay := EarliestRelease(now);
          StepOfFullTable(before, key, now, cfg);
          return Denied(delay), changed;
        }
        keys := keys[key := Fresh(now)];
        changed := true;
      }

      var windows, answer, moved := ChargeInPlace(keys[key], now, cfg);
      StepOfCharge(before, key, now, cfg, windows, answer, changed || moved);
      Overwrite(live, key, Fresh(now), windows);
      keys := keys[key := windows];
      return answer, changed || moved;
    }
  }

  lemma {:induction false} StepOfFullTable(keys: Keys, key: Key, now: real, cfg: Config)
    requires ValidConfig(cfg) && ValidKeys(keys)
    requires key !in Purged(keys, now) && |Purged(keys, now)| >= cfg.maxKeys
    ensures var live := Purged(keys, now);
            Step(keys, key, now, cfg) == Charge(live, Denied(Delay(Earliest(live) - now)), live != keys)
  {
  }

  lemma {:induction false} Overwrite(keys: Keys, key: Key, first: seq<Window>, second: seq<Window>)
    ensures keys[key := first][key := second] == keys[key := second]
  {
  }

  function StartWindows(live: Keys, key: Key, now: real): (windows: seq<Window>)
    requires ValidKeys(live)
    ensures |windows| == WINDOW_COUNT
  {
    if key in live then live[key] else Fresh(now)
  }

  /** The first loop over the windows of a key: reopen the elapsed ones, collect the exhausted ones. */
  method ReopenWindows(start: seq<Window>, now: real, cfg: Config)
    returns (windows: seq<Window>, blocked: seq<real>, changed: bool)
    requires ValidConfig(cfg) && |start| == WINDOW_COUNT
    ensures windows == ReopenAll(start, cfg.limits, now)
    ensures blocked == BlockedUntil(windows, cfg.limits)
    ensures changed <==> Expiring(start, now)
  {
    windows, blocked, changed := start, [], false;
    for index := 0 to WINDOW_COUNT
      invariant |windows| == WINDOW_COUNT
      invariant forall i :: 0 <= i < index ==> windows[i] == Reopened(start[i], cfg.limits[i], now)
      invariant forall i :: index <= i < WINDOW_COUNT ==> windows[i] == start[i]
      invariant blocked == BlockedUntil(windows[..index], cfg.limits[..index])
      invariant changed <==> exists i :: 0 <= i < index && start[i].resetAt <= now
    {
      var record := windows[index];
      ghost var before := windows[..index];
      if record.resetAt <= now {
        record := Window(now + cfg.limits[index].seconds, 0);
        windows := windows[index := record];
        changed := true;
      }
      assert windows[..index + 1] == before + [record];
      assert cfg.limits[..index + 1] == cfg.limits[..index] + [cfg.limits[index]];
      if record.count >= cfg.limits[index].attempts {
        blocked := blocked + [record.resetAt];
      }
    }
    assert windows[..WINDOW_COUNT] == windows && cfg.limits[..WINDOW_COUNT] == cfg.limits;
  }

  /** Both loops, and the decision between them. */
  method ChargeInPlace(start: seq<Window>, now: real, cfg: Config)
    returns (windows: seq<Window>, outcome: Outcome, changed: bool)
    requires ValidConfig(cfg) && |start| == WINDOW_COUNT
    ensures windows == ChargeWindows(start, cfg.limits, now).0
    ensures outcome == ChargeWindows(start, cfg.limits, now).1
    ensures changed <==> (outcome == Admitted || Expiring(start, now))
  {
    var blocked;
    windows, blocked, changed := ReopenWindows(start, now, cfg);
    if blocked != [] {
      outcome := Denied(Delay(Latest(blocked) - now));
    } else {
      windows := CountAttempt(windows);
      outcome, changed := Admitted, true;
    }
  }

  /** The second loop: charge every window of an admitted key. */
  method CountAttempt(start: seq<Window>) returns (windows: seq<Window>)
    ensures windows == Counted(start)
  {
    windows := start;
    for index := 0 to |start|
      invariant |windows| == |start|
      invariant forall i :: 0 <= i < index ==> windows[i] == start[i].(count := start[i].count + 1)
      invariant forall i :: index <= i < |start| ==> windows[i] == start[i]
    {
      windows := windows[index := windows[index].(count := windows[index].count + 1)];
    }
  }

  /** An attempt that reaches the windows reports a change exactly when the table differs. */
  lemma {:induction false} StepOfCharge(
      keys: Keys, key: Key, now: real, cfg: Config, windows: seq<Window>, outcome: Outcome, changed: bool)
    requires ValidConfig(cfg) && ValidKeys(keys)
    requires key in Purged(keys, now) || |Purged(keys, now)| < cfg.maxKeys
    requires windows == ChargeWindows(StartWindows(Purged(keys, now), key, now), cfg.limits, now).0
    requires outcome == ChargeWindows(StartWindows(Purged(keys, now), key, now), cfg.limits, now).1
    requires var live := Purged(keys, now);
             changed <==> (live != keys || key !in live || outcome == Admitted ||
                           Expiring(StartWindows(live, key, now), now))
    ensures Step(keys, key, now, cfg) == Charge(Purged(keys, now)[key := windows], outcome, changed)
  {
    var live := Purged(keys, now);
    var start := StartWindows(live, key, now);
    if key in live && live == keys {
      if Expiring(start, now) {
        var i :| 0 <= i < |start| && start[i].resetAt <= now;
        assert windows[i] != start[i];
      } else if !changed {
        assert windows == start;
        assert live[key := windows] == keys;
      } else {
        assert windows[0] != start[0];
      }
    } else if key in live {
      var k :| k in keys && k !in live;
      assert k !in live[key := windows];
    } else if key in keys {
      // The key was purged and comes back with later resets.
      assert windows[0].resetAt > keys[key][0].resetAt;
    }
    assert changed <==> live[key := windows] != keys;
  }

  /** One shard file. It is rewritten only when the attempt changed the table. */
  class Shard {
    var stored: Keys

    constructor ()
      ensures stored == map[]
    {
      stored := map[];
    }

    method Enforce(key: Key, now: real, cfg: Config) returns (outcome: Outcome)
      requires ValidConfig(cfg) && ValidKeys(stored)
      modifies this
      ensures stored == Step(old(stored), key, now, cfg).keys
      ensures outcome == Step(old(stored), key, now, cfg).outcome
    {
      var table := new Table(stored);
      var changed;
      outcome, changed := table.RegisterAttempt(key, now, cfg);
      if changed {
        stored := table.keys;
      }
    }
  }
}

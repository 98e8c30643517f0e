/**
 * The two soak schedulers and the validator of the report that their samples end up in. Times are
 * real numbers; a clock is the sequence of readings it will give.
 */
module Soak {
  import opened Prelude

  datatype SoakError = BadNumber | ClockWentBack | ElapsedStuck | CollectorFailed

  /** How a run ends: it may also still be waiting when the given readings are used up. */
  datatype RunResult = Completed | Aborted(error: SoakError) | Waiting

  // ----- The closed form -----

  /** The first multiple of the interval after `elapsed`. */
  function SlotEnd(elapsed: real, interval: real): real
    requires interval > 0.0
  {
    ((elapsed / interval).Floor + 1) as real * interval
  }

  /** The next multiple of the interval strictly after `elapsed`, capped at the duration. */
  function Target(elapsed: real, duration: real, interval: real): Option<real>
    requires interval > 0.0
  {
    if elapsed >= duration then None
    else
      var nominal := SlotEnd(elapsed, interval);
      if nominal >= duration then Some(duration)
      else if nominal <= elapsed then Some(duration)
      else Some(nominal)
  }

  function NextSamplingTarget(elapsed: real, duration: real, interval: real): Result<Option<real>, SoakError> {
    if elapsed < 0.0 || duration <= 0.0 || interval <= 0.0 then Err(BadNumber)
    else Ok(Target(elapsed, duration, interval))
  }

  /** The point of time a scheduler waits for when the run has reached `elapsed`. */
  function Goal(elapsed: real, duration: real, interval: real): real
    requires interval > 0.0
  {
    var target := Target(elapsed, duration, interval);
    if target == None then duration else target.value
  }

  lemma {:induction false} FloorOfRatio(elapsed: real, interval: real)
    requires interval > 0.0
    ensures var f := (elapsed / interval).Floor;
            f as real * interval <= elapsed < (f + 1) as real * interval
  {
    var f := (elapsed / interval).Floor;
    Between(f as real, elapsed / interval, (f + 1) as real, elapsed, interval);
  }

  /** Bounds on a ratio are bounds on the product. */
  lemma {:induction false} Between(low: real, ratio: real, high: real, elapsed: real, interval: real)
    requires interval > 0.0 && ratio * interval == elapsed && low <= ratio < high
    ensures low * interval <= elapsed < high * interval
  {
  }

  lemma {:induction false} NextProduct(k: int, step: real)
    ensures (k + 1) as real * step == k as real * step + step
    ensures (k as real + 1.0) * step == k as real * step + step
  {
  }

  lemma {:induction false} Scale(a: real, b: real, c: real)
    requires a <= b && c >= 0.0
    ensures a * c <= b * c
  {
  }

  lemma {:induction false} Order(high: real, low: real, step: real, x: real)
    requires step > 0.0 && low * step <= x < high * step
    ensures low < high
  {
    if high <= low {
      Scale(high, low, step);
    }
  }

  /** A multiple of the interval that passes `elapsed` by at most one interval is the next one. */
  lemma {:induction false} NextMultiple(elapsed: real, interval: real, k: int)
    requires interval > 0.0
    requires (k - 1) as real * interval <= elapsed < k as real * interval
    ensures (elapsed / interval).Floor + 1 == k
  {
    FloorOfRatio(elapsed, interval);
    var f := (elapsed / interval).Floor;
    Order((f + 1) as real, (k - 1) as real, interval, elapsed);
    Order(k as real, f as real, interval, elapsed);
  }

  /** The target lies strictly after `elapsed`, and the guard against a target not after it is never taken. */
  lemma {:induction false} TargetIsNext(elapsed: real, duration: real, interval: real)
    requires 0.0 <= elapsed < duration && interval > 0.0
    ensures elapsed < SlotEnd(elapsed, interval)
    ensures Target(elapsed, duration, interval)
            == Some(if SlotEnd(elapsed, interval) < duration then SlotEnd(elapsed, interval) else duration)
  {
    FloorOfRatio(elapsed, interval);
  }

  // ----- What a schedule promises -----

  predicate StrictlyIncreasing(s: seq<real>) {
    forall i, j :: 0 <= i < j < |s| ==> s[i] < s[j]
  }

  /** Evidence of a whole run: from zero, strictly increasing, to the end. */
  predicate Covers(samples: seq<real>, duration: real) {
    |samples| >= 2 && samples[0] == 0.0 && StrictlyIncreasing(samples) && samples[|samples| - 1] >= duration
  }

  predicate Monotone(readings: seq<real>) {
    forall i, j :: 0 <= i < j < |readings| ==> readings[i] <= readings[j]
  }

  /** Every sample but the first lies at or after the slot that follows the sample before it. */
  predicate Paced(samples: seq<real>, duration: real, interval: real)
    requires interval > 0.0
  {
    forall k :: 0 <= k < |samples| - 1 ==> samples[k] < duration && Goal(samples[k], duration, interval) <= samples[k + 1]
  }

  lemma {:induction false} PacedBound(samples: seq<real>, duration: real, interval: real, k: nat)
    requires interval > 0.0 && duration > 0.0 && samples != [] && samples[0] == 0.0
    requires Paced(samples, duration, interval) && k < |samples| - 1
    ensures k as real * interval <= samples[k] < duration
  {
    if k > 0 {
      PacedBound(samples, duration, interval, k - 1);
      NextSlotReached(k - 1, samples[k - 1], samples[k], duration, interval);
    }
  }

  /** A wait that ends before the run does has passed one more multiple of the interval. */
  lemma {:induction false} NextSlotReached(n: nat, previous: real, elapsed: real, duration: real, interval: real)
    requires interval > 0.0 && 0.0 <= previous < duration
    requires n as real * interval <= previous
    requires Goal(previous, duration, interval) <= elapsed < duration
    ensures (n + 1) as real * interval <= elapsed
  {
    TargetIsNext(previous, duration, interval);
    SlotBound(n, previous, interval);
    Scale((n + 1) as real, ((previous / interval).Floor + 1) as real, interval);
  }

  lemma {:induction false} SlotBound(n: nat, observed: real, step: real)
    requires step > 0.0 && n as real * step <= observed
    ensures (observed / step).Floor + 1 >= n + 1
  {
    FloorOfRatio(observed, step);
    Order(((observed / step).Floor + 1) as real, n as real, step, observed);
  }

  /** The bound on the evidence: a paced run has at most one sample a slot and the one at zero. */
  lemma {:induction false} PacedCount(samples: seq<real>, duration: real, interval: real)
    requires interval > 0.0 && duration > 0.0 && samples != [] && samples[0] == 0.0
    requires Paced(samples, duration, interval)
    ensures |samples| <= Ceil(duration / interval) + 1
  {
    var n := if |samples| >= 2 then |samples| - 2 else 0;
    if |samples| >= 2 {
      PacedBound(samples, duration, interval, n);
    }
    RoomForTwo(n, duration, interval);
  }

  /** When the n-th multiple of the interval is short of the end, there is room for two more samples. */
  lemma {:induction false} RoomForTwo(n: nat, duration: real, interval: real)
    requires interval > 0.0 && n as real * interval < duration
    ensures n + 2 <= Ceil(duration / interval) + 1
  {
  }

  lemma {:induction false} SlotsGrow(early: real, late: real, interval: real)
    requires interval > 0.0 && early <= late
    ensures (early / interval).Floor <= (late / interval).Floor
  {
    FloorOfRatio(early, interval);
    FloorOfRatio(late, interval);
    Order(((late / interval).Floor + 1) as real, (early / interval).Floor as real, interval, late);
  }

  lemma {:induction false} SlotEndsGrow(early: real, late: real, interval: real)
    requires interval > 0.0 && early <= late
    ensures SlotEnd(early, interval) <= SlotEnd(late, interval)
  {
    SlotsGrow(early, late, interval);
    Scale(((early / interval).Floor + 1) as real, ((late / interval).Floor + 1) as real, interval);
  }

  /** A later point of a run never waits for an earlier goal. */
  lemma {:induction false} GoalGrows(early: real, late: real, duration: real, interval: real)
    requires interval > 0.0 && 0.0 <= early <= late && early < duration
    ensures early < Goal(early, duration, interval) <= Goal(late, duration, interval)
  {
    TargetIsNext(early, duration, interval);
    if late < duration {
      TargetIsNext(late, duration, interval);
      SlotEndsGrow(early, late, interval);
    }
  }

  lemma {:induction false} ExtendPaced(s: seq<real>, x: real, duration: real, interval: real)
    requires interval > 0.0 && Paced(s, duration, interval)
    requires s != [] ==> s[|s| - 1] < duration && Goal(s[|s| - 1], duration, interval) <= x
    ensures Paced(s + [x], duration, interval)
  {
  }

  lemma {:induction false} Extend(s: seq<real>, x: real)
    requires StrictlyIncreasing(s) && (s != [] ==> s[|s| - 1] < x)
    ensures StrictlyIncreasing(s + [x])
  {
  }

  lemma {:induction false} PrependIncreasing(x: real, s: seq<real>)
    requires StrictlyIncreasing(s) && (s != [] ==> x < s[0])
    ensures StrictlyIncreasing([x] + s)
  {
  }

  lemma {:induction false} PrependPaced(x: real, s: seq<real>, duration: real, interval: real)
    requires interval > 0.0 && Paced(s, duration, interval)
    requires s != [] ==> x < duration && Goal(x, duration, interval) <= s[0]
    ensures Paced([x] + s, duration, interval)
  {
    var all := [x] + s;
    forall k | 0 <= k < |all| - 1 ensures all[k] < duration && Goal(all[k], duration, interval) <= all[k + 1] {
      assert k > 0 ==> all[k] == s[k - 1] && all[k + 1] == s[k];
    }
  }

  // ----- Scheduler one: sleep until the next nominal target -----

  /** How one wait or one turn ends: the elapsed time if it completed, and the readings that are left. */
  datatype Turn = Turn(result: RunResult, elapsed: real, rest: seq<real>)

  /** Reads the clock until the deadline has passed. */
  function Wait(deadline: real, start: real, rest: seq<real>): (t: Turn)
    ensures |t.rest| <= |rest| && t.result != Aborted(CollectorFailed)
  {
    if rest == [] then Turn(Waiting, 0.0, [])
    else if rest[0] < 0.0 then Turn(Aborted(BadNumber), 0.0, rest[1..])
    else if rest[0] < start then Turn(Aborted(ClockWentBack), 0.0, rest[1..])
    else if deadline - rest[0] <= 0.0 then Turn(Completed, rest[0] - start, rest[1..])
    else Wait(deadline, start, rest[1..])
  }

  /** One turn of the loop: reads the clock, then sleeps until the next target after that reading. */
  function Await(duration: real, interval: real, start: real, rest: seq<real>): (t: Turn)
    requires interval > 0.0
    ensures |t.rest| <= |rest| && (rest != [] ==> |t.rest| < |rest|) && t.result != Aborted(CollectorFailed)
  {
    if rest == [] then Turn(Waiting, 0.0, [])
    else if rest[0] < 0.0 then Turn(Aborted(BadNumber), 0.0, rest[1..])
    else if rest[0] < start then Turn(Aborted(ClockWentBack), 0.0, rest[1..])
    else Wait(start + Goal(rest[0] - start, duration, interval), start, rest[1..])
  }

  /** The rest of a run: its result, and the samples after the `taken` ones, the last of them at `previous`. */
  function Sampled(
      duration: real, interval: real, start: real, previous: real, rest: seq<real>, collects: nat -> bool, taken: nat)
    : (RunResult, seq<real>)
    requires interval > 0.0
    decreases |rest|
  {
    var t := Await(duration, interval, start, rest);
    if t.result != Completed || rest == [] then (t.result, [])
    else if t.elapsed <= previous then (Aborted(ElapsedStuck), [])
    else if !collects(taken) then (Aborted(CollectorFailed), [])
    else if t.elapsed >= duration then (Completed, [t.elapsed])
    else
      var (r, more) := Sampled(duration, interval, start, t.elapsed, t.rest, collects, taken + 1);
      (r, [t.elapsed] + more)
  }

  /** A whole run over the readings that the clock will give. */
  function Sampling(
      duration: real, interval: real, readings: seq<real>, collects: nat -> bool): (RunResult, seq<real>)
  {
    if duration <= 0.0 || interval <= 0.0 then (Aborted(BadNumber), [])
    else if readings == [] then (Waiting, [])
    else if readings[0] < 0.0 then (Aborted(BadNumber), [])
    else if !collects(0) then (Aborted(CollectorFailed), [])
    else
      var (r, more) := Sampled(duration, interval, readings[0], 0.0, readings[1..], collects, 1);
      (r, [0.0] + more)
  }

  method WaitUntil(deadline: real, start: real, readings: seq<real>, from: nat)
    returns (r: RunResult, elapsed: real, pos: nat)
    requires from <= |readings| && 0.0 <= start <= deadline
    ensures from <= pos <= |readings|
    ensures Turn(r, elapsed, readings[pos..]) == Wait(deadline, start, readings[from..])
    ensures r == Completed ==>
              pos > from && elapsed == readings[pos - 1] - start && elapsed >= deadline - start
  {
    pos, elapsed := from, 0.0;
    while pos < |readings|
      invariant from <= pos <= |readings|
      invariant Wait(deadline, start, readings[from..]) == Wait(deadline, start, readings[pos..])
    {
      var now := readings[pos];
      assert readings[pos..][1..] == readings[pos + 1..];
      pos := pos + 1;
      if now < 0.0 {
        return Aborted(BadNumber), 0.0, pos;
      }
      if now < start {
        return Aborted(ClockWentBack), 0.0, pos;
      }
      var remaining := deadline - now;
      if remaining <= 0.0 {
        return Completed, now - start, pos;
      }
    }
    return Waiting, 0.0, pos;
  }

  method AwaitNext(duration: real, interval: real, start: real, readings: seq<real>, from: nat)
    returns (r: RunResult, elapsed: real, pos: nat)
    requires duration > 0.0 && interval > 0.0 && start >= 0.0 && from <= |readings|
    ensures from <= pos <= |readings|
    ensures Turn(r, elapsed, readings[pos..]) == Await(duration, interval, start, readings[from..])
    ensures r == Completed ==> from + 1 < pos && elapsed == readings[pos - 1] - start
    ensures r == Completed ==>
              0.0 <= readings[from] - start && Goal(readings[from] - start, duration, interval) <= elapsed
  {
    pos, elapsed := from, 0.0;
    if pos == |readings| {
      return Waiting, elapsed, pos;
    }
    var afterCollection := readings[pos];
    assert readings[pos..][1..] == readings[pos + 1..];
    pos := pos + 1;
    if afterCollection < 0.0 {
      return Aborted(BadNumber), elapsed, pos;
    }
    if afterCollection < start {
      return Aborted(ClockWentBack), elapsed, pos;
    }
    var target := NextSamplingTarget(afterCollection - start, duration, interval);
    var goal := if target.value == None then duration else target.value.value;
    if afterCollection - start < duration {
      TargetIsNext(afterCollection - start, duration, interval);
    }
    r, elapsed, pos := WaitUntil(start + goal, start, readings, pos);
  }

  /** `collects(k)` says whether collecting the k-th sample succeeds. */
  method RunSampling(duration: real, interval: real, readings: seq<real>, collects: nat -> bool)
    returns (r: RunResult, samples: seq<real>)
    ensures (r, samples) == Sampling(duration, interval, readings, collects)
    ensures duration <= 0.0 || interval <= 0.0 ==> r == Aborted(BadNumber) && samples == []
    ensures StrictlyIncreasing(samples) && (samples != [] ==> samples[0] == 0.0)
    ensures r == Completed ==> Covers(samples, duration)
    ensures forall k :: 0 <= k < |samples| ==> collects(k)
    ensures r == Aborted(CollectorFailed) ==> !collects(|samples|)
    ensures duration > 0.0 && interval > 0.0 && Monotone(readings) ==>
              Paced(samples, duration, interval) && |samples| <= Ceil(duration / interval) + 1
  {
    SamplingIsEvidence(duration, interval, readings, collects);
    if duration > 0.0 && interval > 0.0 && Monotone(readings) {
      MonotoneClockIsPaced(duration, interval, readings, collects);
    }
    if duration <= 0.0 || interval <= 0.0 {
      return Aborted(BadNumber), [];
    }
    if readings == [] {
      return Waiting, [];
    }
    var start := readings[0];
    if start < 0.0 {
      return Aborted(BadNumber), [];
    }
    if !collects(0) {
      return Aborted(CollectorFailed), [];
    }
    r, samples := SampleUntilEnd(duration, interval, readings, collects);
  }

  /** The loop of the sampler, after the sample at zero. */
  method SampleUntilEnd(duration: real, interval: real, readings: seq<real>, collects: nat -> bool)
    returns (r: RunResult, samples: seq<real>)
    requires duration > 0.0 && interval > 0.0 && readings != [] && readings[0] >= 0.0
    ensures var (result, more) := Sampled(duration, interval, readings[0], 0.0, readings[1..], collects, 1);
            r == result && samples == [0.0] + more
  {
    var start := readings[0];
    var pos := 1;
    samples := [0.0];
    var previous := 0.0;
    ghost var (result, all) := Sampled(duration, interval, start, 0.0, readings[1..], collects, 1);
    ghost var left := all;
    while true
      invariant 1 <= pos <= |readings| && samples != []
      invariant (result, left) == Sampled(duration, interval, start, previous, readings[pos..], collects, |samples|)
      invariant samples + left == [0.0] + all
      decreases |readings| - pos
    {
      var elapsed;
      r, elapsed, pos := AwaitNext(duration, interval, start, readings, pos);
      if r != Completed {
        return r, samples;
      }
      if elapsed <= previous {
        return Aborted(ElapsedStuck), samples;
      }
      if !collects(|samples|) {
        return Aborted(CollectorFailed), samples;
      }
      Shift(samples, left);
      left := left[1..];
      samples := samples + [elapsed];
      previous := elapsed;
      if elapsed >= duration {
        return Completed, samples;
      }
    }
  }

  lemma {:induction false} Shift(a: seq<real>, b: seq<real>)
    requires b != []
    ensures (a + [b[0]]) + b[1..] == a + b
  {
  }

  /** Whatever the clock does, the samples are strictly increasing, and a completed run reaches the end. */
  lemma {:induction false} SampledIsEvidence(
      duration: real, interval: real, start: real, previous: real, rest: seq<real>, collects: nat -> bool, taken: nat)
    requires interval > 0.0
    ensures var (r, more) := Sampled(duration, interval, start, previous, rest, collects, taken);
            && StrictlyIncreasing([previous] + more)
            && (r == Completed ==> more != [] && more[|more| - 1] >= duration)
    decreases |rest|
  {
    var t := Await(duration, interval, start, rest);
    var more := Sampled(duration, interval, start, previous, rest, collects, taken).1;
    if more != [] {
      if t.elapsed < duration {
        SampledIsEvidence(duration, interval, start, t.elapsed, t.rest, collects, taken + 1);
      }
      PrependIncreasing(previous, more);
    }
  }

  lemma {:induction false} SamplingIsEvidence(
      duration: real, interval: real, readings: seq<real>, collects: nat -> bool)
    ensures var (r, samples) := Sampling(duration, interval, readings, collects);
            && StrictlyIncreasing(samples) && (samples != [] ==> samples[0] == 0.0)
            && (r == Completed ==> Covers(samples, duration))
            && (forall k :: 0 <= k < |samples| ==> collects(k))
            && (r == Aborted(CollectorFailed) ==> !collects(|samples|))
  {
    if duration > 0.0 && interval > 0.0 && readings != [] {
      SampledIsEvidence(duration, interval, readings[0], 0.0, readings[1..], collects, 1);
      SampledIsCollected(duration, interval, readings[0], 0.0, readings[1..], collects, 1);
    }
  }

  // ----- How waits and runs end -----

  /** A reading that a running clock may give. */
  predicate Usable(reading: real, start: real) {
    reading >= 0.0 && reading >= start
  }

  function ClockError(reading: real): SoakError {
    if reading < 0.0 then BadNumber else ClockWentBack
  }

  /** A wait ends at its first reading that is not usable or has reached the deadline, or runs out of readings. */
  lemma {:induction false} WaitIsExact(deadline: real, start: real, rest: seq<real>) returns (n: nat)
    ensures n <= |rest| && forall i :: 0 <= i < n ==> Usable(rest[i], start) && rest[i] < deadline
    ensures Wait(deadline, start, rest).result == Waiting <==> n == |rest|
    ensures n < |rest| ==>
              var t := Wait(deadline, start, rest);
              && t.rest == rest[n + 1..]
              && (if Usable(rest[n], start) then
                    deadline <= rest[n] && t.result == Completed && t.elapsed == rest[n] - start
                  else t.result == Aborted(ClockError(rest[n])))
  {
    n := 0;
    if rest != [] && Usable(rest[0], start) && rest[0] < deadline {
      n := WaitIsExact(deadline, start, rest[1..]);
      n := n + 1;
    }
  }

  /** The same for a turn: its first reading sets the deadline, and a later one ends the wait. */
  lemma {:induction false} AwaitIsExact(duration: real, interval: real, start: real, rest: seq<real>) returns (n: nat)
    requires interval > 0.0
    ensures n <= |rest| && forall i :: 0 <= i < n ==> Usable(rest[i], start)
    ensures forall i :: 1 <= i < n ==> rest[i] - start < Goal(rest[0] - start, duration, interval)
    ensures Await(duration, interval, start, rest).result == Waiting <==> n == |rest|
    ensures n < |rest| ==>
              var t := Await(duration, interval, start, rest);
              && t.rest == rest[n + 1..]
              && (if Usable(rest[n], start) then
                    && n > 0 && Goal(rest[0] - start, duration, interval) <= rest[n] - start
                    && t.result == Completed && t.elapsed == rest[n] - start
                  else t.result == Aborted(ClockError(rest[n])))
  {
    n := 0;
    if rest != [] && Usable(rest[0], start) {
      n := WaitIsExact(start + Goal(rest[0] - start, duration, interval), start, rest[1..]);
      n := n + 1;
    }
  }

  /** What ends a run that has not reached its end, from the turn after the last sample. */
  function Ending(t: Turn, last: real): RunResult {
    if t.result != Completed then t.result
    else if t.elapsed <= last then Aborted(ElapsedStuck)
    else Aborted(CollectorFailed)
  }

  /** Every sample of the rest of a run was collected, and all but the last lie before the end. */
  lemma {:induction false} SampledIsCollected(
      duration: real, interval: real, start: real, previous: real, rest: seq<real>, collects: nat -> bool, taken: nat)
    requires interval > 0.0
    ensures var (r, more) := Sampled(duration, interval, start, previous, rest, collects, taken);
            && (forall k :: taken <= k < taken + |more| ==> collects(k))
            && (forall k :: 0 <= k < |more| - 1 ==> more[k] < duration)
            && (r == Aborted(CollectorFailed) ==> !collects(taken + |more|))
    decreases |rest|
  {
    var t := Await(duration, interval, start, rest);
    if t.result == Completed && rest != [] && previous < t.elapsed < duration && collects(taken) {
      SampledIsCollected(duration, interval, start, t.elapsed, t.rest, collects, taken + 1);
    }
  }

  function Last(previous: real, more: seq<real>): real {
    if more == [] then previous else more[|more| - 1]
  }

  /**
   * A run that stays short of its end is ended by the clock in the turn after its last sample, or by a
   * collector that fails there. `left` are the readings from that turn on.
   */
  lemma {:induction false} SampledEnds(
      duration: real, interval: real, start: real, previous: real, rest: seq<real>, collects: nat -> bool, taken: nat)
    returns (left: seq<real>)
    requires interval > 0.0 && previous < duration
    ensures |left| <= |rest| && left == rest[|rest| - |left|..]
    ensures var (r, more) := Sampled(duration, interval, start, previous, rest, collects, taken);
            r == if Last(previous, more) >= duration then Completed
                 else Ending(Await(duration, interval, start, left), Last(previous, more))
    decreases |rest|
  {
    left := rest;
    var t := Await(duration, interval, start, rest);
    if t.result == Completed && rest != [] && previous < t.elapsed < duration && collects(taken) {
      OneMoreSample(duration, interval, start, previous, rest, collects, taken);
      var n := AwaitEnds(duration, interval, start, rest);
      left := SampledEnds(duration, interval, start, t.elapsed, t.rest, collects, taken + 1);
      SuffixOfSuffix(rest, n, |t.rest| - |left|);
    } else {
      LastTurn(duration, interval, start, previous, rest, collects, taken);
    }
  }

  /** A turn after which the run goes on. */
  lemma {:induction false} OneMoreSample(
      duration: real, interval: real, start: real, previous: real, rest: seq<real>, collects: nat -> bool, taken: nat)
    requires interval > 0.0 && rest != [] && collects(taken)
    requires var t := Await(duration, interval, start, rest); t.result == Completed && previous < t.elapsed < duration
    ensures var t := Await(duration, interval, start, rest);
            var (r, more) := Sampled(duration, interval, start, previous, rest, collects, taken);
            var (later, others) := Sampled(duration, interval, start, t.elapsed, t.rest, collects, taken + 1);
            r == later && Last(previous, more) == Last(t.elapsed, others)
  {
  }

  /** A turn that ends the run. */
  lemma {:induction false} LastTurn(
      duration: real, interval: real, start: real, previous: real, rest: seq<real>, collects: nat -> bool, taken: nat)
    requires interval > 0.0 && previous < duration
    requires var t := Await(duration, interval, start, rest);
             !(t.result == Completed && rest != [] && previous < t.elapsed < duration && collects(taken))
    ensures var (r, more) := Sampled(duration, interval, start, previous, rest, collects, taken);
            r == if Last(previous, more) >= duration then Completed
                 else Ending(Await(duration, interval, start, rest), Last(previous, more))
  {
  }

  lemma {:induction false} SuffixOfSuffix(s: seq<real>, n: nat, m: nat)
    requires n + m <= |s|
    ensures s[n..][m..] == s[n + m..]
  {
  }

  /** A failing collector cuts the run that an unfailing one would give, and does nothing else. */
  lemma {:induction false} CollectorCutsSampled(
      duration: real, interval: real, start: real, previous: real, rest: seq<real>, collects: nat -> bool, taken: nat,
      stop: nat)
    requires interval > 0.0 && taken <= stop && forall k :: taken <= k < stop ==> collects(k)
    ensures var (r, more) := Sampled(duration, interval, start, previous, rest, collects, taken);
            var (whole, all) := Sampled(duration, interval, start, previous, rest, _ => true, taken);
            if |all| <= stop - taken then (r, more) == (whole, all)
            else !collects(stop) ==> r == Aborted(CollectorFailed) && more == all[..stop - taken]
    decreases |rest|
  {
    var t := Await(duration, interval, start, rest);
    if t.result == Completed && rest != [] && previous < t.elapsed < duration && taken < stop {
      CollectorCutsSampled(duration, interval, start, t.elapsed, t.rest, collects, taken + 1, stop);
    }
  }

  /** The first collection that fails decides where a run ends, whenever the run gets that far. */
  lemma {:induction false} CollectorCutsRun(
      duration: real, interval: real, readings: seq<real>, collects: nat -> bool, stop: nat)
    requires forall k :: 0 <= k < stop ==> collects(k)
    ensures var (r, samples) := Sampling(duration, interval, readings, collects);
            var (whole, all) := Sampling(duration, interval, readings, _ => true);
            if |all| <= stop then (r, samples) == (whole, all)
            else !collects(stop) ==> r == Aborted(CollectorFailed) && samples == all[..stop]
  {
    if stop > 0 && duration > 0.0 && interval > 0.0 && readings != [] {
      CollectorCutsSampled(duration, interval, readings[0], 0.0, readings[1..], collects, 1, stop);
    }
  }

  // ----- The number of samples -----

  lemma {:induction false} AwaitEnds(duration: real, interval: real, start: real, rest: seq<real>) returns (n: nat)
    requires interval > 0.0 && Await(duration, interval, start, rest).result == Completed
    ensures var t := Await(duration, interval, start, rest);
            && 2 <= n <= |rest| && t.rest == rest[n..] && t.elapsed == rest[n - 1] - start
            && start <= rest[0] && Goal(rest[0] - start, duration, interval) <= t.elapsed
  {
    n := WaitIsExact(start + Goal(rest[0] - start, duration, interval), start, rest[1..]);
    n := n + 2;
  }

  /**
   * After no collection has the clock fallen back below the slot of the last sample. Within the slot it
   * may fall back.
   */
  predicate SlotsKept(duration: real, interval: real, start: real, previous: real, rest: seq<real>)
    requires interval > 0.0
    decreases |rest|
  {
    var t := Await(duration, interval, start, rest);
    t.result == Completed && rest != [] ==>
      && Goal(previous, duration, interval) <= Goal(rest[0] - start, duration, interval)
      && (previous < t.elapsed < duration ==> SlotsKept(duration, interval, start, t.elapsed, t.rest))
  }

  lemma {:induction false} SampledIsPaced(
      duration: real, interval: real, start: real, previous: real, rest: seq<real>, collects: nat -> bool, taken: nat)
    requires interval > 0.0 && previous < duration && SlotsKept(duration, interval, start, previous, rest)
    ensures Paced([previous] + Sampled(duration, interval, start, previous, rest, collects, taken).1, duration, interval)
    decreases |rest|
  {
    var t := Await(duration, interval, start, rest);
    var more := Sampled(duration, interval, start, previous, rest, collects, taken).1;
    if more != [] {
      var n := AwaitEnds(duration, interval, start, rest);
      if t.elapsed < duration {
        SampledIsPaced(duration, interval, start, t.elapsed, t.rest, collects, taken + 1);
      }
      PrependPaced(previous, more, duration, interval);
    }
  }

  /** A clock that keeps the slots yields at most one sample a slot. */
  lemma {:induction false} KeptSlotsBound(duration: real, interval: real, readings: seq<real>, collects: nat -> bool)
    requires duration > 0.0 && interval > 0.0
    requires readings != [] ==> SlotsKept(duration, interval, readings[0], 0.0, readings[1..])
    ensures var samples := Sampling(duration, interval, readings, collects).1;
            Paced(samples, duration, interval) && |samples| <= Ceil(duration / interval) + 1
  {
    RoomForTwo(0, duration, interval);
    var samples := Sampling(duration, interval, readings, collects).1;
    if samples != [] {
      SampledIsPaced(duration, interval, readings[0], 0.0, readings[1..], collects, 1);
      PacedCount(samples, duration, interval);
    }
  }

  lemma {:induction false} MonotoneKeepsSlots(
      duration: real, interval: real, start: real, previous: real, rest: seq<real>)
    requires interval > 0.0 && 0.0 <= previous < duration && Monotone(rest)
    requires forall i :: 0 <= i < |rest| ==> previous <= rest[i] - start
    ensures SlotsKept(duration, interval, start, previous, rest)
    decreases |rest|
  {
    var t := Await(duration, interval, start, rest);
    if t.result == Completed && rest != [] {
      var n := AwaitEnds(duration, interval, start, rest);
      GoalGrows(previous, rest[0] - start, duration, interval);
      if previous < t.elapsed < duration {
        MonotoneKeepsSlots(duration, interval, start, t.elapsed, t.rest);
      }
    }
  }

  lemma {:induction false} MonotoneClockIsPaced(
      duration: real, interval: real, readings: seq<real>, collects: nat -> bool)
    requires duration > 0.0 && interval > 0.0 && Monotone(readings)
    ensures var samples := Sampling(duration, interval, readings, collects).1;
            Paced(samples, duration, interval) && |samples| <= Ceil(duration / interval) + 1
  {
    if readings != [] {
      MonotoneKeepsSlots(duration, interval, readings[0], 0.0, readings[1..]);
    }
    KeptSlotsBound(duration, interval, readings, collects);
  }

  /** A clock that reads zero after every collection, while the waits end ever later but before `high`. */
  function FallingBack(low: real, high: real, n: nat): (readings: seq<real>)
    ensures |readings| == 2 * n
    decreases n
  {
    if n == 0 then [] else [0.0, low] + FallingBack((low + high) / 2.0, high, n - 1)
  }

  lemma {:induction false} OneFallBack(duration: real, interval: real, low: real, tail: seq<real>)
    requires 0.0 < interval <= low < duration
    ensures Await(duration, interval, 0.0, [0.0, low] + tail) == Turn(Completed, low, tail)
  {
    var rest := [0.0, low] + tail;
    assert rest[1..] == [low] + tail && ([low] + tail)[1..] == tail;
    FirstGoal(duration, interval);
  }

  lemma {:induction false} FirstGoal(duration: real, interval: real)
    requires 0.0 < interval < duration
    ensures Goal(0.0, duration, interval) == interval
  {
    NextMultiple(0.0, interval, 1);
    TargetIsNext(0.0, duration, interval);
  }

  lemma {:induction false} FallingBackSamples(
      duration: real, interval: real, previous: real, low: real, n: nat, collects: nat -> bool, taken: nat)
    requires 0.0 < interval <= low < duration && previous < low && forall k :: collects(k)
    ensures |Sampled(duration, interval, 0.0, previous, FallingBack(low, duration, n), collects, taken).1| == n
    decreases n
  {
    if n > 0 {
      var next := (low + duration) / 2.0;
      OneFallBack(duration, interval, low, FallingBack(next, duration, n - 1));
      FallingBackSamples(duration, interval, low, next, n - 1, collects, taken + 1);
    }
  }

  /** With an interval shorter than the run, a clock that falls back yields any number of samples. */
  lemma {:induction false} ClockBreaksBound(duration: real, interval: real, n: nat) returns (readings: seq<real>)
    requires 0.0 < interval < duration
    ensures |Sampling(duration, interval, readings, _ => true).1| == n + 1
  {
    readings := [0.0] + FallingBack(interval, duration, n);
    assert readings[1..] == FallingBack(interval, duration, n);
    FallingBackSamples(duration, interval, 0.0, interval, n, _ => true, 1);
  }

  ghost predicate BoundedForAnyClock(duration: real, interval: real)
    requires interval > 0.0
  {
    forall readings, collects :: |Sampling(duration, interval, readings, collects).1| <= Ceil(duration / interval) + 1
  }

  lemma {:induction false} OneTurnIsAll(duration: real, interval: real, readings: seq<real>, collects: nat -> bool)
    requires 0.0 < duration <= interval
    ensures |Sampling(duration, interval, readings, collects).1| <= 2
  {
    if readings != [] {
      var t := Await(duration, interval, readings[0], readings[1..]);
      if t.result == Completed {
        var n := AwaitEnds(duration, interval, readings[0], readings[1..]);
        GoalIsTheEnd(readings[1] - readings[0], duration, interval);
      }
    }
  }

  lemma {:induction false} GoalIsTheEnd(elapsed: real, duration: real, interval: real)
    requires 0.0 <= elapsed && 0.0 < duration <= interval
    ensures Goal(elapsed, duration, interval) == duration
  {
    if elapsed < duration {
      NextMultiple(elapsed, interval, 1);
    }
  }

  /** The count bound holds whatever the clock does if and only if the first wait is already for the end. */
  lemma {:induction false} AnyClockIsBounded(duration: real, interval: real)
    requires duration > 0.0 && interval > 0.0
    ensures BoundedForAnyClock(duration, interval) <==> duration <= interval
  {
    if duration <= interval {
      RoomForTwo(0, duration, interval);
      forall readings, collects
        ensures |Sampling(duration, interval, readings, collects).1| <= Ceil(duration / interval) + 1
      {
        OneTurnIsAll(duration, interval, readings, collects);
      }
    } else {
      RoomForTwo(0, duration, interval);
      var readings := ClockBreaksBound(duration, interval, Ceil(duration / interval) + 1);
      assert !BoundedForAnyClock(duration, interval);
    }
  }

  // ----- Scheduler two: fixed slots with skipped catch-up -----

  /** The first multiple after the observation, capped, is what the closed form gives. */
  lemma {:induction false} LandsOnTarget(observed: real, duration: real, step: real, m: int, candidate: real)
    requires step > 0.0 && 0.0 <= observed < duration
    requires candidate == m as real * step && (m - 1) as real * step <= observed < candidate
    ensures Goal(observed, duration, step) == if candidate < duration then candidate else duration
  {
    NextMultiple(observed, step, m);
    TargetIsNext(observed, duration, step);
    assert (observed / step).Floor + 1 == m;
  }

  /** The catch-up loop: from the slot that was due to the first one after the observation. */
  method CatchUp(nextDue: real, observed: real, duration: real, interval: int, ghost previous: real) returns (due: real)
    requires interval > 0 && 0.0 <= previous < duration
    requires nextDue == Goal(previous, duration, interval as real) <= observed < duration
    ensures due == Goal(observed, duration, interval as real)
  {
    var step := interval as real;
    var candidate := nextDue + step;
    ghost var m := (previous / step).Floor + 2;
    TargetIsNext(previous, duration, step);
    NextProduct(m - 1, step);
    while candidate <= observed
      invariant candidate == m as real * step && (m - 1) as real * step <= observed
      decreases observed.Floor - candidate.Floor
    {
      candidate := candidate + step;
      m := m + 1;
      NextProduct(m - 1, step);
    }
    LandsOnTarget(observed, duration, step, m, candidate);
    due := if candidate < duration then candidate else duration;
  }

  /** The two readings around one wait: the observation counts from the slot that was due. */
  method Observe(readings: seq<real>, pos: nat, nextDue: real) returns (r: RunResult, observed: real)
    requires 0 < pos <= |readings|
    ensures r == EndOfWait(readings, pos)
    ensures r == Completed ==> observed == MaxReal(nextDue, readings[pos + 1] - readings[0])
  {
    observed := 0.0;
    if pos == |readings| {
      return Waiting, observed;
    }
    var elapsed := readings[pos] - readings[0];
    if elapsed < 0.0 {
      return Aborted(ClockWentBack), observed;
    }
    if pos + 1 == |readings| {
      return Waiting, observed;
    }
    elapsed := readings[pos + 1] - readings[0];
    if elapsed < 0.0 {
      return Aborted(ClockWentBack), observed;
    }
    return Completed, MaxReal(nextDue, elapsed);
  }

  /** A wait needs two readings, neither of them before the start of the run. */
  function EndOfWait(readings: seq<real>, pos: nat): RunResult
    requires 0 < pos <= |readings|
  {
    if exists i :: pos <= i < Min(pos + 2, |readings|) && readings[i] < readings[0] then Aborted(ClockWentBack)
    else if |readings| < pos + 2 then Waiting
    else Completed
  }

  /** Each sample is taken at the slot after the one before it, or at the clock when that is later. */
  predicate OnSchedule(samples: seq<real>, readings: seq<real>, duration: real, interval: real)
    requires interval > 0.0 && |readings| >= 2 * |samples| - 1
  {
    forall k :: 1 <= k < |samples| ==>
      samples[k] == MaxReal(Goal(samples[k - 1], duration, interval), readings[2 * k] - readings[0])
  }

  /**
   * How a collection ends that has these samples: at the end of the run, by the clock, which has no more
   * readings or falls behind the start of the run, and otherwise by a collector that fails.
   */
  function EndOfCollection(samples: seq<real>, readings: seq<real>, duration: real): RunResult
    requires samples != [] ==> |readings| >= 2 * |samples| - 1
  {
    if samples == [] then (if readings == [] then Waiting else Aborted(CollectorFailed))
    else if samples[|samples| - 1] >= duration then Completed
    else
      var wait := EndOfWait(readings, 2 * |samples| - 1);
      if wait == Completed then Aborted(CollectorFailed) else wait
  }

  /**
   * Every emitted time is the slot that was due or later, whatever the clock says, so the number of
   * samples is bounded for any clock.
   */
  method CollectOnSchedule(duration: int, interval: int, readings: seq<real>, collects: nat -> bool)
    returns (r: RunResult, samples: seq<real>)
    ensures duration <= 0 || interval <= 0 ==> r == Aborted(BadNumber) && samples == []
    ensures StrictlyIncreasing(samples) && (samples != [] ==> samples[0] == 0.0)
    ensures r == Completed ==> Covers(samples, duration as real)
    ensures forall k :: 0 <= k < |samples| ==> collects(k)
    ensures r == Aborted(CollectorFailed) ==> !collects(|samples|)
    ensures duration > 0 && interval > 0 ==>
              && |readings| >= 2 * |samples| - 1
              && (forall i :: 0 <= i < 2 * |samples| - 1 ==> readings[0] <= readings[i])
              && r == EndOfCollection(samples, readings, duration as real)
              && OnSchedule(samples, readings, duration as real, interval as real)
              && Paced(samples, duration as real, interval as real)
              && |samples| <= Ceil(duration as real / interval as real) + 1
  {
    samples := [];
    if duration <= 0 {
      return Aborted(BadNumber), [];
    }
    if interval <= 0 {
      return Aborted(BadNumber), [];
    }
    RoomForTwo(0, duration as real, interval as real);
    if readings == [] {
      return Waiting, [];
    }
    if !collects(0) {
      return Aborted(CollectorFailed), [];
    }
    r, samples := CollectSlots(duration, interval, readings, collects);
    PacedCount(samples, duration as real, interval as real);
  }

  /** What the samples of the second scheduler satisfy while it runs. */
  predicate Collected(samples: seq<real>, readings: seq<real>, duration: real, interval: real)
    requires interval > 0.0
  {
    && samples != [] && samples[0] == 0.0 && StrictlyIncreasing(samples) && Paced(samples, duration, interval)
    && |readings| >= 2 * |samples| - 1 && OnSchedule(samples, readings, duration, interval)
  }

  lemma {:induction false} CollectOne(samples: seq<real>, x: real, readings: seq<real>, duration: real, interval: real)
    requires interval > 0.0 && Collected(samples, readings, duration, interval) && |readings| >= 2 * |samples| + 1
    requires 0.0 <= samples[|samples| - 1] < duration
    requires x == MaxReal(Goal(samples[|samples| - 1], duration, interval), readings[2 * |samples|] - readings[0])
    ensures Collected(samples + [x], readings, duration, interval)
  {
    var previous := samples[|samples| - 1];
    GoalGrows(previous, previous, duration, interval);
    ExtendPaced(samples, x, duration, interval);
    Extend(samples, x);
  }

  /** The loop of the scheduler, after the sample at zero. */
  method CollectSlots(duration: int, interval: int, readings: seq<real>, collects: nat -> bool)
    returns (r: RunResult, samples: seq<real>)
    requires duration > 0 && interval > 0 && readings != []
    ensures StrictlyIncreasing(samples) && samples != [] && samples[0] == 0.0
    ensures r == Completed ==> Covers(samples, duration as real)
    ensures |readings| >= 2 * |samples| - 1 && OnSchedule(samples, readings, duration as real, interval as real)
    ensures Paced(samples, duration as real, interval as real)
    ensures forall k :: 1 <= k < |samples| ==> collects(k)
    ensures forall i :: 0 <= i < 2 * |samples| - 1 ==> readings[0] <= readings[i]
    ensures r == EndOfCollection(samples, readings, duration as real)
    ensures r == Aborted(CollectorFailed) ==> !collects(|samples|)
  {
    var total, step := duration as real, interval as real;
    samples := [0.0];
    var nextDue := Min(interval, duration) as real;
    FirstSlot(duration, interval);
    var pos := 1;
    var previous := 0.0;
    while true
      invariant pos == 2 * |samples| - 1 <= |readings|
      invariant Collected(samples, readings, total, step) && samples[|samples| - 1] == previous
      invariant 0.0 <= previous < total && nextDue == Goal(previous, total, step)
      invariant forall k :: 1 <= k < |samples| ==> collects(k)
      invariant forall i :: 0 <= i < pos ==> readings[0] <= readings[i]
      decreases |readings| - pos
    {
      var observed;
      r, observed := Observe(readings, pos, nextDue);
      if r != Completed {
        return r, samples;
      }
      pos := pos + 2;
      if !collects(|samples|) {
        return Aborted(CollectorFailed), samples;
      }
      CollectOne(samples, observed, readings, total, step);
      samples := samples + [observed];
      if observed >= total {
        return Completed, samples;
      }
      GoalGrows(previous, previous, total, step);
      nextDue := CatchUp(nextDue, observed, total, interval, previous);
      previous := observed;
    }
  }

  lemma {:induction false} FirstSlot(duration: int, interval: int)
    requires duration > 0 && interval > 0
    ensures Min(interval, duration) as real == Goal(0.0, duration as real, interval as real)
  {
    NextMultiple(0.0, interval as real, 1);
    TargetIsNext(0.0, duration as real, interval as real);
  }

  // ----- The report validator -----

  datatype Verdict = Pass | Fail | AbortedRun

  datatype Sample = Sample(elapsed: real, timestampErrors: int, reconnects: int)

  datatype Report = Report(target: int, outcome: Verdict, cleanupVerified: bool, samples: seq<Sample>)

  function Elapsed(samples: seq<Sample>): (r: seq<real>)
    ensures |r| == |samples| && forall i :: 0 <= i < |r| ==> r[i] == samples[i].elapsed
  {
    seq(|samples|, i requires 0 <= i < |samples| => samples[i].elapsed)
  }

  /** Non-negative times and counters, times strictly increasing, counters never decreasing. */
  predicate WellOrdered(samples: seq<Sample>) {
    && samples != []
    && (forall i :: 0 <= i < |samples| ==>
          samples[i].elapsed >= 0.0 && samples[i].timestampErrors >= 0 && samples[i].reconnects >= 0)
    && StrictlyIncreasing(Elapsed(samples))
    && (forall i, j :: 0 <= i < j < |samples| ==>
          samples[i].timestampErrors <= samples[j].timestampErrors && samples[i].reconnects <= samples[j].reconnects)
  }

  predicate PassConditions(r: Report)
    requires r.samples != []
  {
    && |r.samples| >= 2
    && r.samples[0] == Sample(0.0, 0, 0)
    && r.samples[|r.samples| - 1].elapsed >= r.target as real
    && r.cleanupVerified
  }

  /** The validator's ordering loop compares neighbours only. */
  method ValidateReport(r: Report) returns (ok: bool)
    ensures ok <==> r.target > 0 && WellOrdered(r.samples) && (r.outcome == Pass ==> PassConditions(r))
  {
    if r.target <= 0 {
      return false;
    }
    if r.samples == [] {
      return false;
    }
    var i := 0;
    while i < |r.samples|
      invariant i <= |r.samples|
      invariant i > 0 ==> WellOrdered(r.samples[..i])
    {
      var s := r.samples[i];
      assert r.samples[..i + 1] == r.samples[..i] + [s];
      if s.elapsed < 0.0 {
        NotWellOrdered(r.samples, i, i);
        return false;
      }
      if i > 0 && s.elapsed <= r.samples[i - 1].elapsed {
        NotWellOrdered(r.samples, i - 1, i);
        return false;
      }
      if s.timestampErrors < 0 || s.reconnects < 0 {
        return false;
      }
      if i > 0 && s.timestampErrors < r.samples[i - 1].timestampErrors {
        return false;
      }
      if i > 0 && s.reconnects < r.samples[i - 1].reconnects {
        return false;
      }
      OrderedExtend(r.samples[..i], s);
      i := i + 1;
    }
    assert r.samples[..i] == r.samples;
    if r.outcome == Pass {
      if |r.samples| < 2 {
        return false;
      }
      if r.samples[0].elapsed != 0.0 || r.samples[0].timestampErrors != 0 || r.samples[0].reconnects != 0 {
        return false;
      }
      if r.samples[|r.samples| - 1].elapsed < r.target as real {
        return false;
      }
      if !r.cleanupVerified {
        return false;
      }
    }
    return true;
  }

  lemma {:induction false} NotWellOrdered(samples: seq<Sample>, i: nat, j: nat)
    requires i <= j < |samples|
    requires samples[i].elapsed < 0.0 || (i < j && samples[j].elapsed <= samples[i].elapsed)
    ensures !WellOrdered(samples)
  {
  }

  lemma {:induction false} OrderedExtend(front: seq<Sample>, s: Sample)
    requires front != [] ==> WellOrdered(front)
    requires s.elapsed >= 0.0 && s.timestampErrors >= 0 && s.reconnects >= 0
    requires front != [] ==>
               var last := front[|front| - 1];
               last.elapsed < s.elapsed && last.timestampErrors <= s.timestampErrors && last.reconnects <= s.reconnects
    ensures WellOrdered(front + [s])
  {
  }

  /**
   * Agreement of producer and checker: a passing report is accepted exactly when its times are those of
   * evidence for the whole run, as a completed run gives them, its counters start at zero and never decrease,
   * and cleanup was verified.
   */
  lemma {:induction false} PassIsEvidence(r: Report)
    requires r.samples != []
    ensures (WellOrdered(r.samples) && PassConditions(r)) <==>
            && Covers(Elapsed(r.samples), r.target as real)
            && r.cleanupVerified
            && r.samples[0].timestampErrors == 0 && r.samples[0].reconnects == 0
            && (forall i, j :: 0 <= i < j < |r.samples| ==>
                  r.samples[i].timestampErrors <= r.samples[j].timestampErrors
                  && r.samples[i].reconnects <= r.samples[j].reconnects)
  {
  }
}

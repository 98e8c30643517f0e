/** Measured load trials and the report that derives a session cap from them. */
module Capacity {
  import opened Prelude

  const MAX_TRIAL_COUNT := 4096

  /** A JSON number: the two kinds render differently even when they are equal. */
  datatype Number = Whole(n: int) | Float(x: real)

  datatype Outcome = Pass | Fail

  datatype Measurement = Measurement(
    duration: Number, outcome: Outcome, cpu: Number, memory: int, egress: Number, failed: int, reconnects: int)

  datatype Trial = Trial(sessions: int, result: Measurement)

  datatype TrialError =
    | TooFew | TooMany
    | SessionsNotPositive | NotIncreasing | PassAboveFailure
    | NegativeFailures | NegativeReconnects | MoreFailuresThanSessions | UncleanPass
    | BadDuration | BadCpu | BadMemory | BadEgress

  // ----- Normalising trials -----

  function AsReal(v: Number): real {
    match v
    case Whole(n) => n as real
    case Float(x) => x
  }

  function AsFloat(v: Number): Number {
    Float(AsReal(v))
  }

  function CleanResult(m: Measurement): Measurement {
    m.(duration := AsFloat(m.duration), cpu := AsFloat(m.cpu), egress := AsFloat(m.egress))
  }

  function Clean(t: Trial): Trial {
    Trial(t.sessions, CleanResult(t.result))
  }

  function CleanAll(ts: seq<Trial>): (r: seq<Trial>)
    ensures |r| == |ts|
  {
    seq(|ts|, i requires 0 <= i < |ts| => Clean(ts[i]))
  }

  function CountProblem(t: Trial): Option<TrialError> {
    var m := t.result;
    if m.failed < 0 then Some(NegativeFailures)
    else if m.reconnects < 0 then Some(NegativeReconnects)
    else if m.failed > t.sessions then Some(MoreFailuresThanSessions)
    else if m.outcome == Pass && (m.failed != 0 || m.reconnects != 0) then Some(UncleanPass)
    else None
  }

  function MeasureProblem(m: Measurement): Option<TrialError> {
    if AsReal(m.duration) < 0.001 then Some(BadDuration)
    else if AsReal(m.cpu) < 0.0 then Some(BadCpu)
    else if m.memory < 0 then Some(BadMemory)
    else if AsReal(m.egress) < 0.0 then Some(BadEgress)
    else None
  }

  /** The first complaint about a trial that follows trials up to `previous` sessions. */
  function TrialProblem(t: Trial, previous: int, failureSeen: bool): Option<TrialError> {
    if t.sessions <= 0 then Some(SessionsNotPositive)
    else if t.sessions <= previous then Some(NotIncreasing)
    else if failureSeen && t.result.outcome == Pass then Some(PassAboveFailure)
    else
      var count := CountProblem(t);
      if count != None then count else MeasureProblem(t.result)
  }

  /** Every complaint names a defect of the trial. */
  lemma {:induction false} ComplaintIsTrue(t: Trial, previous: int, failureSeen: bool)
    ensures match TrialProblem(t, previous, failureSeen)
            case None => true
            case Some(SessionsNotPositive) => t.sessions <= 0
            case Some(NotIncreasing) => 0 < t.sessions <= previous
            case Some(PassAboveFailure) => failureSeen && t.result.outcome == Pass
            case Some(NegativeFailures) => t.result.failed < 0
            case Some(NegativeReconnects) => t.result.reconnects < 0
            case Some(MoreFailuresThanSessions) => t.result.failed > t.sessions
            case Some(UncleanPass) => t.result.outcome == Pass && (t.result.failed > 0 || t.result.reconnects > 0)
            case Some(BadDuration) => AsReal(t.result.duration) < 0.001
            case Some(BadCpu) => AsReal(t.result.cpu) < 0.0
            case Some(BadMemory) => t.result.memory < 0
            case Some(BadEgress) => AsReal(t.result.egress) < 0.0
            case Some(_) => false
  {
  }

  function Highest(ts: seq<Trial>): int {
    if ts == [] then 0 else ts[|ts| - 1].sessions
  }

  predicate FailureSeen(ts: seq<Trial>) {
    exists i :: 0 <= i < |ts| && ts[i].result.outcome == Fail
  }

  function NormaliseAll(ts: seq<Trial>): Result<seq<Trial>, TrialError> {
    if ts == [] then Ok([])
    else
      var front, last := ts[..|ts| - 1], ts[|ts| - 1];
      match NormaliseAll(front)
      case Err(e) => Err(e)
      case Ok(done) =>
        var problem := TrialProblem(last, Highest(front), FailureSeen(front));
        if problem != None then Err(problem.value) else Ok(done + [Clean(last)])
  }

  function Normalised(ts: seq<Trial>, minimum: nat): Result<seq<Trial>, TrialError> {
    if |ts| < minimum then Err(TooFew)
    else if |ts| > MAX_TRIAL_COUNT then Err(TooMany)
    else NormaliseAll(ts)
  }

  /** A trial that is consistent on its own. */
  predicate Sound(t: Trial) {
    && t.sessions > 0 && 0 <= t.result.failed <= t.sessions && t.result.reconnects >= 0
    && (t.result.outcome == Pass ==> t.result.failed == 0 && t.result.reconnects == 0)
    && AsReal(t.result.duration) >= 0.001 && AsReal(t.result.cpu) >= 0.0
    && t.result.memory >= 0 && AsReal(t.result.egress) >= 0.0
  }

  /** A load ladder: sound trials, rising levels, and nothing passes above a failure. */
  predicate Ladder(ts: seq<Trial>) {
    && (forall i :: 0 <= i < |ts| ==> Sound(ts[i]))
    && (forall i, j :: 0 <= i < j < |ts| ==> ts[i].sessions < ts[j].sessions)
    && (forall i, j :: 0 <= i < j < |ts| && ts[i].result.outcome == Fail ==> ts[j].result.outcome == Fail)
  }

  lemma {:induction false} CleanPush(ts: seq<Trial>, t: Trial)
    ensures CleanAll(ts + [t]) == CleanAll(ts) + [Clean(t)]
  {
  }

  lemma {:induction false} SoundMeansNoProblem(t: Trial, previous: int, failureSeen: bool)
    requires previous >= 0
    ensures TrialProblem(t, previous, failureSeen) == None
            <==> Sound(t) && t.sessions > previous && (failureSeen ==> t.result.outcome == Fail)
  {
  }

  lemma {:induction false} LadderPush(front: seq<Trial>, t: Trial)
    requires Ladder(front)
    ensures Ladder(front + [t]) <==> TrialProblem(t, Highest(front), FailureSeen(front)) == None
  {
    var ts := front + [t];
    assert Highest(front) >= 0 by {
      assert front != [] ==> Sound(front[|front| - 1]);
    }
    SoundMeansNoProblem(t, Highest(front), FailureSeen(front));
    if Ladder(ts) {
      LastOfLadder(front, t);
    }
    if TrialProblem(t, Highest(front), FailureSeen(front)) == None {
      forall i | 0 <= i < |front| ensures front[i].sessions < t.sessions {
        assert i < |front| - 1 ==> front[i].sessions < front[|front| - 1].sessions;
      }
    }
  }

  lemma {:induction false} LastOfLadder(front: seq<Trial>, t: Trial)
    requires Ladder(front + [t])
    ensures Sound(t) && t.sessions > Highest(front) && (FailureSeen(front) ==> t.result.outcome == Fail)
  {
    var ts := front + [t];
    assert ts[|front|] == t;
    if front != [] {
      assert ts[|front| - 1] == front[|front| - 1];
    }
    if FailureSeen(front) {
      var i :| 0 <= i < |front| && front[i].result.outcome == Fail;
      assert ts[i] == front[i];
    }
  }

  lemma {:induction false} LadderPrefix(ts: seq<Trial>, n: nat)
    requires Ladder(ts) && n <= |ts|
    ensures Ladder(ts[..n])
  {
  }

  /** The one-pass normaliser accepts exactly the ladders, and only turns numbers into floats. */
  lemma {:induction false} NormaliseIsExact(ts: seq<Trial>)
    ensures NormaliseAll(ts).Ok? <==> Ladder(ts)
    ensures NormaliseAll(ts).Ok? ==> NormaliseAll(ts).value == CleanAll(ts)
  {
    if ts != [] {
      var front, last := ts[..|ts| - 1], ts[|ts| - 1];
      assert ts == front + [last];
      NormaliseIsExact(front);
      if Ladder(ts) {
        LadderPrefix(ts, |ts| - 1);
      }
      if Ladder(front) {
        LadderPush(front, last);
        CleanPush(front, last);
      }
    }
  }

  method NormalizeTrials(ts: seq<Trial>, minimum: nat) returns (r: Result<seq<Trial>, TrialError>)
    ensures r == Normalised(ts, minimum)
  {
    if |ts| < minimum {
      return Err(TooFew);
    }
    if |ts| > MAX_TRIAL_COUNT {
      return Err(TooMany);
    }
    var normalized: seq<Trial> := [];
    var previous := 0;
    var failureSeen := false;
    var i := 0;
    while i < |ts|
      invariant i <= |ts| && NormaliseAll(ts[..i]) == Ok(normalized)
      invariant previous == Highest(ts[..i]) && failureSeen == FailureSeen(ts[..i])
    {
      var t := ts[i];
      ghost var front := ts[..i];
      assert ts[..i + 1] == front + [t] && (front + [t])[..i] == front;
      var problem := TrialProblem(t, previous, failureSeen);
      if problem != None {
        ErrorPersists(ts, i + 1);
        return Err(problem.value);
      }
      FailurePush(front, t);
      normalized := normalized + [Clean(t)];
      previous := t.sessions;
      failureSeen := failureSeen || t.result.outcome == Fail;
      i := i + 1;
    }
    assert ts[..i] == ts;
    return Ok(normalized);
  }

  lemma {:induction false} FailurePush(front: seq<Trial>, t: Trial)
    ensures FailureSeen(front + [t]) <==> FailureSeen(front) || t.result.outcome == Fail
  {
    var ts := front + [t];
    if FailureSeen(front) {
      var i :| 0 <= i < |front| && front[i].result.outcome == Fail;
      assert ts[i] == front[i];
    }
    if t.result.outcome == Fail {
      assert ts[|front|] == t;
    }
  }

  lemma {:induction false} ErrorPersists(ts: seq<Trial>, n: nat)
    requires n <= |ts| && NormaliseAll(ts[..n]).Err?
    ensures NormaliseAll(ts) == NormaliseAll(ts[..n])
    decreases |ts|
  {
    if n == |ts| {
      assert ts[..n] == ts;
    } else {
      assert ts[..|ts| - 1][..n] == ts[..n];
      ErrorPersists(ts[..|ts| - 1], n);
    }
  }

  // ----- Laws of the normaliser -----

  lemma {:induction false} NormalisedIsClean(ts: seq<Trial>)
    requires NormaliseAll(ts).Ok?
    ensures NormaliseAll(ts).value == CleanAll(ts)
  {
    NormaliseIsExact(ts);
  }

  lemma {:induction false} CleanIsTransparent(t: Trial)
    ensures Clean(Clean(t)) == Clean(t) && (Sound(Clean(t)) <==> Sound(t))
    ensures Clean(t).sessions == t.sessions && Clean(t).result.outcome == t.result.outcome
  {
  }

  lemma {:induction false} CleanKeepsLadder(ts: seq<Trial>)
    ensures Ladder(CleanAll(ts)) <==> Ladder(ts)
    ensures CleanAll(CleanAll(ts)) == CleanAll(ts)
  {
    var cs := CleanAll(ts);
    forall i | 0 <= i < |ts| ensures cs[i] == Clean(ts[i]) {
      CleanIsTransparent(ts[i]);
    }
  }

  /** Normalising twice changes nothing more. */
  lemma {:induction false} NormaliseIsIdempotent(ts: seq<Trial>, minimum: nat)
    requires Normalised(ts, minimum).Ok?
    ensures var ns := Normalised(ts, minimum).value; Normalised(ns, minimum) == Ok(ns)
  {
    NormaliseIsExact(ts);
    NormaliseIsExact(CleanAll(ts));
    CleanKeepsLadder(ts);
  }

  /** A normalised file grows one trial at a time: the old lines stay, the new one is judged against them. */
  lemma {:induction false} NormaliseGrows(ns: seq<Trial>, t: Trial)
    requires NormaliseAll(ns) == Ok(ns)
    ensures NormaliseAll(ns + [Clean(t)]) == NormaliseAll(ns + [t])
    ensures NormaliseAll(ns + [t]) ==
            var problem := TrialProblem(t, Highest(ns), FailureSeen(ns));
            if problem != None then Err(problem.value) else Ok(ns + [Clean(t)])
  {
    assert (ns + [t])[..|ns|] == ns && (ns + [Clean(t)])[..|ns|] == ns;
    CleanIsTransparent(t);
  }
}

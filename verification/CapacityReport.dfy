/** The capacity report: its validation and the cap it recommends. */
module CapacityReport {
  import opened Prelude
  import opened Capacity

  /** A run identifier, with the verdict of the UUID parser on its text. */
  datatype RunId = Uuid(text: string) | NotUuid(text: string)

  datatype Report = Report(
    schema: int, runId: RunId, nodeProfile: string, revision: string, scenario: string,
    margin: int, trials: seq<Trial>, notes: string)

  datatype Summary = Summary(
    runId: RunId, nodeProfile: string, revision: string, scenario: string, levels: seq<int>,
    highestPass: int, firstFail: int, margin: int, recommended: int, atHighest: Measurement)

  datatype ReportError =
    | BadSchema | BadRunId | BadNodeProfile | BadRevision | BadScenario | BadNotes | BadMargin
    | BadTrials(error: TrialError) | NothingPasses | NothingFails | BoundaryReversed | CapBelowOne

  predicate IsSpace(c: char) {
    c == ' ' || '\t' <= c <= '\r' || '\U{1C}' <= c <= '\U{1F}'
  }

  predicate Blank(s: string) {
    forall i :: 0 <= i < |s| ==> IsSpace(s[i])
  }

  predicate BoundedText(s: string, maximum: nat) {
    !Blank(s) && |s| <= maximum
  }

  predicate IsHex(s: string, length: nat) {
    |s| == length && forall i :: 0 <= i < |s| ==> '0' <= s[i] <= '9' || 'a' <= s[i] <= 'f'
  }

  predicate IsRevision(s: string) {
    IsHex(s, 40)
  }

  function Select(ts: seq<Trial>, outcome: Outcome): seq<Trial> {
    if ts == [] then []
    else
      var front, last := Select(ts[..|ts| - 1], outcome), ts[|ts| - 1];
      if last.result.outcome == outcome then front + [last] else front
  }

  function Levels(ts: seq<Trial>): (r: seq<int>)
    ensures |r| == |ts|
  {
    seq(|ts|, i requires 0 <= i < |ts| => ts[i].sessions)
  }

  function HeaderProblem(r: Report): Option<ReportError> {
    if r.schema != 1 then Some(BadSchema)
    else if !r.runId.Uuid? then Some(BadRunId)
    else if !BoundedText(r.nodeProfile, 300) then Some(BadNodeProfile)
    else if !IsRevision(r.revision) then Some(BadRevision)
    else if !BoundedText(r.scenario, 300) then Some(BadScenario)
    else if |r.notes| > 4000 then Some(BadNotes)
    else if !(1 <= r.margin <= 90) then Some(BadMargin)
    else None
  }

  function Summarise(r: Report, ts: seq<Trial>): Result<Summary, ReportError> {
    var passing, failing := Select(ts, Pass), Select(ts, Fail);
    if passing == [] then Err(NothingPasses)
    else if failing == [] then Err(NothingFails)
    else
      var highest, first := passing[|passing| - 1].sessions, failing[0].sessions;
      var recommended := highest * (100 - r.margin) / 100;
      if first <= highest then Err(BoundaryReversed)
      else if recommended < 1 then Err(CapBelowOne)
      else Ok(Summary(r.runId, r.nodeProfile, r.revision, r.scenario, Levels(ts), highest, first,
                      r.margin, recommended, passing[|passing| - 1].result))
  }

  function ValidateReport(r: Report): Result<Summary, ReportError> {
    var header := HeaderProblem(r);
    if header != None then Err(header.value)
    else
      match Normalised(r.trials, 2)
      case Err(e) => Err(BadTrials(e))
      case Ok(ts) => Summarise(r, ts)
  }

  // ----- What an accepted report means -----

  /** The first `k` trials pass, the others fail. */
  predicate SplitsAt(ts: seq<Trial>, k: nat) {
    && k <= |ts|
    && (forall i :: 0 <= i < k ==> ts[i].result.outcome == Pass)
    && (forall i :: k <= i < |ts| ==> ts[i].result.outcome == Fail)
  }

  lemma {:induction false} LadderSplits(ts: seq<Trial>) returns (k: nat)
    requires Ladder(ts)
    ensures SplitsAt(ts, k)
  {
    k := 0;
    while k < |ts| && ts[k].result.outcome == Pass
      invariant k <= |ts| && forall i :: 0 <= i < k ==> ts[i].result.outcome == Pass
    {
      k := k + 1;
    }
  }

  lemma {:induction false} SelectPush(front: seq<Trial>, last: Trial, outcome: Outcome)
    ensures Select(front + [last], outcome)
            == if last.result.outcome == outcome then Select(front, outcome) + [last] else Select(front, outcome)
  {
    assert (front + [last])[..|front|] == front;
  }

  lemma {:induction false} SelectNothing(ts: seq<Trial>, outcome: Outcome)
    requires forall i :: 0 <= i < |ts| ==> ts[i].result.outcome != outcome
    ensures Select(ts, outcome) == []
  {
    if ts != [] {
      SelectNothing(ts[..|ts| - 1], outcome);
    }
  }

  lemma {:induction false} SelectEverything(ts: seq<Trial>, outcome: Outcome)
    requires forall i :: 0 <= i < |ts| ==> ts[i].result.outcome == outcome
    ensures Select(ts, outcome) == ts
  {
    if ts != [] {
      var front, last := ts[..|ts| - 1], ts[|ts| - 1];
      assert ts == front + [last];
      SelectEverything(front, outcome);
    }
  }

  lemma {:induction false} SelectConcat(a: seq<Trial>, b: seq<Trial>, outcome: Outcome)
    ensures Select(a + b, outcome) == Select(a, outcome) + Select(b, outcome)
  {
    if b == [] {
      assert a + b == a;
    } else {
      var front, last := b[..|b| - 1], b[|b| - 1];
      assert b == front + [last] && a + b == (a + front) + [last];
      SelectConcat(a, front, outcome);
      SelectPush(a + front, last, outcome);
      SelectPush(front, last, outcome);
    }
  }

  /** Selecting by outcome cuts a split list at its boundary. */
  lemma {:induction false} SelectOfSplit(ts: seq<Trial>, k: nat)
    requires SplitsAt(ts, k)
    ensures Select(ts, Pass) == ts[..k] && Select(ts, Fail) == ts[k..]
  {
    var low, high := ts[..k], ts[k..];
    assert ts == low + high;
    SelectConcat(low, high, Pass);
    SelectConcat(low, high, Fail);
    SelectEverything(low, Pass);
    SelectNothing(high, Pass);
    SelectNothing(low, Fail);
    SelectEverything(high, Fail);
  }

  /** The boundary that a report measures, and the cap with its margin. */
  ghost predicate Boundary(ts: seq<Trial>, k: nat, s: Summary) {
    && 0 < k < |ts| && SplitsAt(ts, k)
    && s.highestPass == ts[k - 1].sessions && s.firstFail == ts[k].sessions
    && s.levels == Levels(ts) && s.atHighest == CleanResult(ts[k - 1].result)
    && s.recommended >= 1
    && 100 * s.recommended <= s.highestPass * (100 - s.margin) < 100 * (s.recommended + 1)
  }

  lemma {:induction false} CleanKeepsSplit(ts: seq<Trial>, k: nat)
    ensures SplitsAt(CleanAll(ts), k) <==> SplitsAt(ts, k)
    ensures Levels(CleanAll(ts)) == Levels(ts)
  {
    var cs := CleanAll(ts);
    forall i | 0 <= i < |ts| ensures cs[i] == Clean(ts[i]) {
      CleanIsTransparent(ts[i]);
    }
  }

  lemma {:induction false} CapOfMargin(highest: int, margin: int)
    requires 1 <= margin <= 90
    ensures var c := highest * (100 - margin) / 100; 100 * c <= highest * (100 - margin) < 100 * (c + 1)
  {
  }

  lemma {:induction false} SummaryIsBoundary(r: Report, k: nat)
    requires Ladder(r.trials) && SplitsAt(r.trials, k) && 1 <= r.margin <= 90
    ensures Summarise(r, CleanAll(r.trials)).Ok? <==>
            0 < k < |r.trials| && r.trials[k - 1].sessions * (100 - r.margin) >= 100
    ensures Summarise(r, CleanAll(r.trials)).Ok? ==>
            Boundary(r.trials, k, Summarise(r, CleanAll(r.trials)).value)
    ensures Summarise(r, CleanAll(r.trials)) != Err(BoundaryReversed)
  {
    var cs := CleanAll(r.trials);
    CleanKeepsSplit(r.trials, k);
    SelectOfSplit(cs, k);
    if 0 < k < |r.trials| {
      CapOfMargin(r.trials[k - 1].sessions, r.margin);
      assert cs[..k][k - 1] == Clean(r.trials[k - 1]) && cs[k..][0] == Clean(r.trials[k]);
      assert r.trials[k - 1].sessions < r.trials[k].sessions;
    }
  }

  /** Whether validation gets as far as the boundary, and what it does there. */
  lemma {:induction false} BeforeBoundary(r: Report) returns (reached: bool)
    ensures reached <==> HeaderProblem(r) == None && 2 <= |r.trials| <= MAX_TRIAL_COUNT && Ladder(r.trials)
    ensures reached ==> ValidateReport(r) == Summarise(r, CleanAll(r.trials)) && 1 <= r.margin <= 90
    ensures !reached ==> ValidateReport(r).Err? && ValidateReport(r) != Err(BoundaryReversed)
  {
    NormaliseIsExact(r.trials);
    reached := HeaderProblem(r) == None && Normalised(r.trials, 2).Ok?;
  }

  /**
   * A report is accepted exactly when its header is in order and its trials form a ladder with a
   * boundary that leaves at least one session after the margin; the complaint about a reversed
   * boundary is never made.
   */
  lemma {:induction false} ReportIsExact(r: Report) returns (k: nat)
    ensures ValidateReport(r).Ok? <==>
            && HeaderProblem(r) == None && 2 <= |r.trials| <= MAX_TRIAL_COUNT && Ladder(r.trials)
            && 0 < k < |r.trials| && r.trials[k - 1].sessions * (100 - r.margin) >= 100
    ensures ValidateReport(r).Ok? ==> Boundary(r.trials, k, ValidateReport(r).value)
    ensures Ladder(r.trials) ==> SplitsAt(r.trials, k)
    ensures ValidateReport(r) != Err(BoundaryReversed)
  {
    k := 0;
    if Ladder(r.trials) {
      k := LadderSplits(r.trials);
    }
    var reached := BeforeBoundary(r);
    if reached {
      SummaryIsBoundary(r, k);
    }
  }
}

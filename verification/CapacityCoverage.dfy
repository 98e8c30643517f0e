/** Coverage of a whole load plan by measured reports, and the session cap that it supports. */
module CapacityCoverage {
  import opened Prelude
  import opened Capacity
  import opened CapacityReport
  import opened CapacityRun
  import opened CapacityProvenance

  datatype CoverageError =
    | PlanInvalid | BindingsDiffer | ScenarioReportInvalid(error: ReportError) | NotBoundToPlan | LevelsMissing
    | RunIdReused | NodeProfilesDiffer | RevisionsDiffer | MarginsDiffer

  datatype Coverage = Coverage(
    profile: string, counts: seq<int>, nodeProfile: string, revision: string, margin: int,
    results: seq<Summary>, recommended: int)

  // ----- One report against the plan and the reports before it -----

  predicate AllLevelsTested(planned: seq<int>, tested: seq<int>) {
    forall i :: 0 <= i < |planned| ==> planned[i] in tested
  }

  predicate RunIdSeen(done: seq<Summary>, id: RunId) {
    exists i :: 0 <= i < |done| && done[i].runId == id
  }

  function ScenarioProblem(p: Plan, id: string, s: Summary, done: seq<Summary>): Option<CoverageError> {
    if !(ScenarioPrefix(p.profile, id) <= s.scenario) then Some(NotBoundToPlan)
    else if !AllLevelsTested(p.counts, s.levels) then Some(LevelsMissing)
    else if RunIdSeen(done, s.runId) then Some(RunIdReused)
    else if done == [] then None
    else if s.nodeProfile != done[0].nodeProfile then Some(NodeProfilesDiffer)
    else if s.revision != done[0].revision then Some(RevisionsDiffer)
    else if s.margin != done[0].margin then Some(MarginsDiffer)
    else None
  }

  /** The summaries of the reports for the given scenarios, or the first complaint. */
  function CoverAll(p: Plan, reports: map<string, Report>, ids: seq<string>): Result<seq<Summary>, CoverageError>
    requires forall i :: 0 <= i < |ids| ==> ids[i] in reports
  {
    if ids == [] then Ok([])
    else
      var front, id := ids[..|ids| - 1], ids[|ids| - 1];
      match CoverAll(p, reports, front)
      case Err(e) => Err(e)
      case Ok(done) =>
        match ValidateReport(reports[id])
        case Err(e) => Err(ScenarioReportInvalid(e))
        case Ok(s) =>
          var problem := ScenarioProblem(p, id, s, done);
          if problem != None then Err(problem.value) else Ok(done + [s])
  }

  function Least(results: seq<Summary>): int
    requires results != []
  {
    if |results| == 1 then results[0].recommended
    else Min(Least(results[..|results| - 1]), results[|results| - 1].recommended)
  }

  predicate BindsExactly(reports: map<string, Report>) {
    && (forall i :: 0 <= i < |SCENARIO_IDS| ==> SCENARIO_IDS[i] in reports)
    && (forall id :: id in reports ==> id in SCENARIO_IDS)
  }

  function Covers(p: Plan, reports: map<string, Report>): Result<Coverage, CoverageError> {
    if !Canonical(p) then Err(PlanInvalid)
    else if !BindsExactly(reports) then Err(BindingsDiffer)
    else
      match CoverAll(p, reports, SCENARIO_IDS)
      case Err(e) => Err(e)
      case Ok(results) =>
        CoverAllLength(p, reports, SCENARIO_IDS);
        Ok(Coverage(p.profile, p.counts, results[0].nodeProfile, results[0].revision, results[0].margin,
                    results, Least(results)))
  }

  lemma {:induction false} CoverAllLength(p: Plan, reports: map<string, Report>, ids: seq<string>)
    requires forall i :: 0 <= i < |ids| ==> ids[i] in reports
    ensures CoverAll(p, reports, ids).Ok? ==> |CoverAll(p, reports, ids).value| == |ids|
  {
    if ids != [] {
      CoverAllLength(p, reports, ids[..|ids| - 1]);
    }
  }

  // ----- The loop of the validator -----

  lemma {:induction false} CoverError(p: Plan, reports: map<string, Report>, ids: seq<string>, n: nat)
    requires forall i :: 0 <= i < |ids| ==> ids[i] in reports
    requires n <= |ids| && CoverAll(p, reports, ids[..n]).Err?
    ensures CoverAll(p, reports, ids) == CoverAll(p, reports, ids[..n])
    decreases |ids|
  {
    if n == |ids| {
      assert ids[..n] == ids;
    } else {
      assert ids[..|ids| - 1][..n] == ids[..n];
      CoverError(p, reports, ids[..|ids| - 1], n);
    }
  }

  /** What the first report fixes for the others. */
  function Common(done: seq<Summary>): Option<(string, string, int)> {
    if done == [] then None else Some((done[0].nodeProfile, done[0].revision, done[0].margin))
  }

  ghost predicate SeenExactly(seen: set<RunId>, done: seq<Summary>) {
    forall x :: x in seen <==> RunIdSeen(done, x)
  }

  method CheckScenario(
    p: Plan, id: string, r: Report, seen: set<RunId>, common: Option<(string, string, int)>, ghost done: seq<Summary>)
    returns (s: Result<Summary, CoverageError>)
    requires SeenExactly(seen, done) && common == Common(done)
    ensures match ValidateReport(r)
            case Err(e) => s == Err(ScenarioReportInvalid(e))
            case Ok(summary) =>
              var problem := ScenarioProblem(p, id, summary, done);
              s == if problem != None then Err(problem.value) else Ok(summary)
  {
    var validated := ValidateReport(r);
    if validated.Err? {
      return Err(ScenarioReportInvalid(validated.error));
    }
    var summary := validated.value;
    if !(ScenarioPrefix(p.profile, id) <= summary.scenario) {
      return Err(NotBoundToPlan);
    }
    if exists i :: 0 <= i < |p.counts| && p.counts[i] !in summary.levels {
      return Err(LevelsMissing);
    }
    if summary.runId in seen {
      return Err(RunIdReused);
    }
    if common != None {
      if summary.nodeProfile != common.value.0 {
        return Err(NodeProfilesDiffer);
      }
      if summary.revision != common.value.1 {
        return Err(RevisionsDiffer);
      }
      if summary.margin != common.value.2 {
        return Err(MarginsDiffer);
      }
    }
    return Ok(summary);
  }

  lemma {:induction false} SeenPush(done: seq<Summary>, s: Summary, x: RunId)
    ensures RunIdSeen(done + [s], x) <==> RunIdSeen(done, x) || s.runId == x
  {
    var all := done + [s];
    if RunIdSeen(done, x) {
      var i :| 0 <= i < |done| && done[i].runId == x;
      assert all[i] == done[i];
    }
    if s.runId == x {
      assert all[|done|] == s;
    }
  }

  lemma {:induction false} SeenGrows(seen: set<RunId>, done: seq<Summary>, s: Summary)
    requires SeenExactly(seen, done)
    ensures SeenExactly(seen + {s.runId}, done + [s])
  {
    forall x ensures x in seen + {s.runId} <==> RunIdSeen(done + [s], x) {
      SeenPush(done, s, x);
    }
  }

  /** How the list of summaries goes on behind `n` accepted reports. */
  lemma {:induction false} CoverNext(
      p: Plan, reports: map<string, Report>, ids: seq<string>, n: nat, done: seq<Summary>)
    requires forall i :: 0 <= i < |ids| ==> ids[i] in reports
    requires n < |ids| && CoverAll(p, reports, ids[..n]) == Ok(done)
    ensures var s := ValidateReport(reports[ids[n]]);
            CoverAll(p, reports, ids[..n + 1]) ==
            if s.Err? then Err(ScenarioReportInvalid(s.error))
            else if ScenarioProblem(p, ids[n], s.value, done) != None
            then Err(ScenarioProblem(p, ids[n], s.value, done).value)
            else Ok(done + [s.value])
  {
    assert ids[..n + 1][..n] == ids[..n];
  }

  method CollectScenarios(p: Plan, reports: map<string, Report>, ids: seq<string>)
    returns (out: Result<seq<Summary>, CoverageError>)
    requires forall i :: 0 <= i < |ids| ==> ids[i] in reports
    ensures out == CoverAll(p, reports, ids)
  {
    var seen: set<RunId> := {};
    var common: Option<(string, string, int)> := None;
    var results: seq<Summary> := [];
    var n := 0;
    while n < |ids|
      invariant n <= |ids| && CoverAll(p, reports, ids[..n]) == Ok(results)
      invariant SeenExactly(seen, results) && common == Common(results)
    {
      CoverNext(p, reports, ids, n, results);
      var s := CheckScenario(p, ids[n], reports[ids[n]], seen, common, results);
      if s.Err? {
        CoverError(p, reports, ids, n + 1);
        return Err(s.error);
      }
      SeenGrows(seen, results, s.value);
      seen := seen + {s.value.runId};
      if common == None {
        common := Some((s.value.nodeProfile, s.value.revision, s.value.margin));
      }
      results := results + [s.value];
      n := n + 1;
    }
    assert ids[..n] == ids;
    return Ok(results);
  }

  /** `min` over the recommendations. */
  method LeastRecommendation(results: seq<Summary>) returns (least: int)
    requires results != []
    ensures least == Least(results)
  {
    least := results[0].recommended;
    var i := 1;
    while i < |results|
      invariant 1 <= i <= |results| && least == Least(results[..i])
    {
      assert results[..i + 1][..i] == results[..i];
      least := Min(least, results[i].recommended);
      i := i + 1;
    }
    assert results[..i] == results;
  }

  method ValidateCoverage(p: Plan, reports: map<string, Report>) returns (out: Result<Coverage, CoverageError>)
    ensures out == Covers(p, reports)
  {
    if !Canonical(p) {
      return Err(PlanInvalid);
    }
    if !BindsExactly(reports) {
      return Err(BindingsDiffer);
    }
    var collected := CollectScenarios(p, reports, SCENARIO_IDS);
    if collected.Err? {
      return Err(collected.error);
    }
    var results := collected.value;
    CoverAllLength(p, reports, SCENARIO_IDS);
    var least := LeastRecommendation(results);
    var first := results[0];
    return Ok(Coverage(p.profile, p.counts, first.nodeProfile, first.revision, first.margin, results, least));
  }

  // ----- What coverage means -----

  /** A report that measures every level of the plan for the scenario. */
  predicate Measures(p: Plan, id: string, r: Report) {
    && ValidateReport(r).Ok?
    && ScenarioPrefix(p.profile, id) <= r.scenario
    && AllLevelsTested(p.counts, Levels(r.trials))
  }

  predicate Alike(a: Report, b: Report) {
    a.nodeProfile == b.nodeProfile && a.revision == b.revision && a.margin == b.margin
  }

  predicate DistinctRuns(reports: map<string, Report>, ids: seq<string>)
    requires forall i :: 0 <= i < |ids| ==> ids[i] in reports
  {
    forall i, j :: 0 <= i < j < |ids| ==> reports[ids[i]].runId != reports[ids[j]].runId
  }

  /** The reports of the scenarios: each measures its own, under distinct run identifiers, for one node, build and margin. */
  predicate Consistent(p: Plan, reports: map<string, Report>, ids: seq<string>)
    requires forall i :: 0 <= i < |ids| ==> ids[i] in reports
  {
    && (forall i :: 0 <= i < |ids| ==> Measures(p, ids[i], reports[ids[i]]))
    && DistinctRuns(reports, ids)
    && (forall i :: 0 <= i < |ids| ==> Alike(reports[ids[0]], reports[ids[i]]))
  }

  /** The summary carries the header and the levels of its report. */
  predicate Mirrors(s: Summary, r: Report) {
    && s.runId == r.runId && s.nodeProfile == r.nodeProfile && s.revision == r.revision
    && s.scenario == r.scenario && s.margin == r.margin && s.levels == Levels(r.trials)
  }

  lemma {:induction false} SummaryOfReport(r: Report)
    requires ValidateReport(r).Ok?
    ensures Mirrors(ValidateReport(r).value, r)
  {
    var k := ReportIsExact(r);
  }

  predicate Summaries(reports: map<string, Report>, ids: seq<string>, results: seq<Summary>)
    requires forall i :: 0 <= i < |ids| ==> ids[i] in reports
  {
    && |results| == |ids|
    && forall i :: 0 <= i < |ids| ==>
         ValidateReport(reports[ids[i]]) == Ok(results[i]) && Mirrors(results[i], reports[ids[i]])
  }

  lemma {:induction false} SummariesPush(reports: map<string, Report>, ids: seq<string>, done: seq<Summary>, s: Summary)
    requires ids != [] && forall i :: 0 <= i < |ids| ==> ids[i] in reports
    requires Summaries(reports, ids[..|ids| - 1], done)
    requires ValidateReport(reports[ids[|ids| - 1]]) == Ok(s) && Mirrors(s, reports[ids[|ids| - 1]])
    ensures Summaries(reports, ids, done + [s])
  {
  }

  lemma {:induction false} CoverAllSummaries(p: Plan, reports: map<string, Report>, ids: seq<string>)
    requires forall i :: 0 <= i < |ids| ==> ids[i] in reports
    requires CoverAll(p, reports, ids).Ok?
    ensures Summaries(reports, ids, CoverAll(p, reports, ids).value)
  {
    if ids != [] {
      var front, id := ids[..|ids| - 1], ids[|ids| - 1];
      CoverAllSummaries(p, reports, front);
      SummaryOfReport(reports[id]);
      SummariesPush(reports, ids, CoverAll(p, reports, front).value, ValidateReport(reports[id]).value);
    }
  }

  lemma {:induction false} ConsistentMeansNoProblem(
    p: Plan, reports: map<string, Report>, ids: seq<string>, done: seq<Summary>, s: Summary)
    requires ids != [] && forall i :: 0 <= i < |ids| ==> ids[i] in reports
    requires Summaries(reports, ids, done + [s]) && Consistent(p, reports, ids)
    ensures ScenarioProblem(p, ids[|ids| - 1], s, done) == None
  {
    var n := |ids| - 1;
    assert (done + [s])[n] == s;
    assert Measures(p, ids[n], reports[ids[n]]) && Alike(reports[ids[0]], reports[ids[n]]);
    forall i | 0 <= i < n ensures done[i].runId != s.runId {
      assert (done + [s])[i] == done[i];
    }
    if n > 0 {
      assert (done + [s])[0] == done[0];
    }
  }

  lemma {:induction false} FreshRunId(reports: map<string, Report>, ids: seq<string>, done: seq<Summary>, s: Summary)
    requires ids != [] && forall i :: 0 <= i < |ids| ==> ids[i] in reports
    requires Summaries(reports, ids, done + [s]) && !RunIdSeen(done, s.runId)
    ensures forall i :: 0 <= i < |ids| - 1 ==> reports[ids[i]].runId != reports[ids[|ids| - 1]].runId
  {
  }

  lemma {:induction false} AlikeLast(
      p: Plan, reports: map<string, Report>, ids: seq<string>, done: seq<Summary>, s: Summary)
    requires ids != [] && forall i :: 0 <= i < |ids| ==> ids[i] in reports
    requires Summaries(reports, ids, done + [s])
    requires ScenarioProblem(p, ids[|ids| - 1], s, done) == None
    ensures Alike(reports[ids[0]], reports[ids[|ids| - 1]]) && Measures(p, ids[|ids| - 1], reports[ids[|ids| - 1]])
  {
  }

  lemma {:induction false} NoProblemMeansConsistent(
    p: Plan, reports: map<string, Report>, ids: seq<string>, done: seq<Summary>, s: Summary)
    requires ids != [] && forall i :: 0 <= i < |ids| ==> ids[i] in reports
    requires Consistent(p, reports, ids[..|ids| - 1])
    requires Summaries(reports, ids, done + [s])
    requires ScenarioProblem(p, ids[|ids| - 1], s, done) == None
    ensures Consistent(p, reports, ids)
  {
    FreshRunId(reports, ids, done, s);
    AlikeLast(p, reports, ids, done, s);
    ConsistentExtends(p, reports, ids);
  }

  lemma {:induction false} ConsistentExtends(p: Plan, reports: map<string, Report>, ids: seq<string>)
    requires ids != [] && forall i :: 0 <= i < |ids| ==> ids[i] in reports
    requires Consistent(p, reports, ids[..|ids| - 1])
    requires forall i :: 0 <= i < |ids| - 1 ==> reports[ids[i]].runId != reports[ids[|ids| - 1]].runId
    requires Alike(reports[ids[0]], reports[ids[|ids| - 1]]) && Measures(p, ids[|ids| - 1], reports[ids[|ids| - 1]])
    ensures Consistent(p, reports, ids)
  {
    var front := ids[..|ids| - 1];
    forall i | 0 <= i < |ids| ensures Measures(p, ids[i], reports[ids[i]]) && Alike(reports[ids[0]], reports[ids[i]]) {
      assert i < |front| ==> front[i] == ids[i];
    }
    DistinctRunsExtend(reports, ids);
  }

  lemma {:induction false} DistinctRunsExtend(reports: map<string, Report>, ids: seq<string>)
    requires ids != [] && forall i :: 0 <= i < |ids| ==> ids[i] in reports
    requires DistinctRuns(reports, ids[..|ids| - 1])
    requires forall i :: 0 <= i < |ids| - 1 ==> reports[ids[i]].runId != reports[ids[|ids| - 1]].runId
    ensures DistinctRuns(reports, ids)
  {
  }

  lemma {:induction false} ConsistentFront(p: Plan, reports: map<string, Report>, ids: seq<string>)
    requires ids != [] && forall i :: 0 <= i < |ids| ==> ids[i] in reports
    requires Consistent(p, reports, ids)
    ensures Consistent(p, reports, ids[..|ids| - 1])
  {
  }

  /** The loop with its running comparisons accepts exactly the consistent sets of reports. */
  lemma {:induction false} CoverAllIsExact(p: Plan, reports: map<string, Report>, ids: seq<string>)
    requires forall i :: 0 <= i < |ids| ==> ids[i] in reports
    ensures CoverAll(p, reports, ids).Ok? <==> Consistent(p, reports, ids)
  {
    if ids != [] {
      var front, id := ids[..|ids| - 1], ids[|ids| - 1];
      CoverAllIsExact(p, reports, front);
      if Consistent(p, reports, ids) {
        ConsistentFront(p, reports, ids);
        assert Measures(p, ids[|ids| - 1], reports[id]);
      }
      if Consistent(p, reports, front) && ValidateReport(reports[id]).Ok? {
        var done, s := CoverAll(p, reports, front).value, ValidateReport(reports[id]).value;
        CoverAllSummaries(p, reports, front);
        SummaryOfReport(reports[id]);
        SummariesPush(reports, ids, done, s);
        if Consistent(p, reports, ids) {
          ConsistentMeansNoProblem(p, reports, ids, done, s);
        }
        if ScenarioProblem(p, id, s, done) == None {
          NoProblemMeansConsistent(p, reports, ids, done, s);
        }
      }
    }
  }

  lemma {:induction false} LeastIsLeast(results: seq<Summary>, c: int)
    requires results != []
    ensures c <= Least(results) <==> forall i :: 0 <= i < |results| ==> c <= results[i].recommended
  {
    if |results| > 1 {
      LeastIsLeast(results[..|results| - 1], c);
    }
  }

  /** Every report of the list recommends at least `c` sessions. */
  predicate AllRecommend(reports: map<string, Report>, ids: seq<string>, c: int)
    requires forall i :: 0 <= i < |ids| ==> ids[i] in reports
  {
    forall i :: 0 <= i < |ids| ==>
      ValidateReport(reports[ids[i]]).Ok? && c <= ValidateReport(reports[ids[i]]).value.recommended
  }

  // ----- The cap -----

  datatype CapError = BadCandidate | BadTarget | CoverageInvalid(error: CoverageError) | OtherNode | OtherRevision | AboveRecommendation

  datatype Decision = Decision(candidate: int, recommended: int, headroom: int, reports: nat, margin: int)

  function ValidateMaxSessions(
    p: Plan, reports: map<string, Report>, candidate: int, node: string, revision: string): Result<Decision, CapError>
  {
    if candidate <= 0 then Err(BadCandidate)
    else if !BoundedText(node, 300) || !IsRevision(revision) then Err(BadTarget)
    else
      match Covers(p, reports)
      case Err(e) => Err(CoverageInvalid(e))
      case Ok(c) =>
        if c.nodeProfile != node then Err(OtherNode)
        else if c.revision != revision then Err(OtherRevision)
        else if candidate > c.recommended then Err(AboveRecommendation)
        else Ok(Decision(candidate, c.recommended, c.recommended - candidate, |c.results|, c.margin))
  }

  /**
   * What one scenario says for a cap `c`: the trials below `k` passed cleanly, those from `k` on failed,
   * every planned level was among them, and `c` keeps the margin below the last clean level.
   */
  ghost predicate Supports(p: Plan, id: string, r: Report, c: int, node: string, revision: string, k: nat) {
    && ScenarioPrefix(p.profile, id) <= r.scenario && r.nodeProfile == node && r.revision == revision
    && AllLevelsTested(p.counts, Levels(r.trials))
    && Ladder(r.trials) && SplitsAt(r.trials, k) && 0 < k < |r.trials|
    && (forall i :: 0 <= i < k ==> r.trials[i].result.failed == 0 && r.trials[i].result.reconnects == 0)
    && (forall i :: k <= i < |r.trials| ==> c < r.trials[i].sessions)
    && 100 * c <= r.trials[k - 1].sessions * (100 - r.margin)
  }

  lemma {:induction false} CapKeepsMargin(c: int, recommended: int, highest: int, margin: int)
    requires c > 0 && 1 <= margin <= 90 && recommended == highest * (100 - margin) / 100
    ensures c <= recommended <==> 100 * c <= highest * (100 - margin)
    ensures c <= recommended ==> c < highest
  {
  }

  lemma {:induction false} RecommendationSupports(
    p: Plan, id: string, r: Report, c: int, node: string, revision: string) returns (k: nat)
    requires c > 0 && Measures(p, id, r) && r.nodeProfile == node && r.revision == revision
    ensures c <= ValidateReport(r).value.recommended <==> Supports(p, id, r, c, node, revision, k)
  {
    k := ReportIsExact(r);
    var s := ValidateReport(r).value;
    SummarisedCap(r, k);
    CapKeepsMargin(c, s.recommended, s.highestPass, r.margin);
    forall i | 0 <= i < k ensures r.trials[i].result.failed == 0 && r.trials[i].result.reconnects == 0 {
      assert Sound(r.trials[i]);
    }
    if c <= s.recommended {
      forall i | k <= i < |r.trials| ensures c < r.trials[i].sessions {
        assert r.trials[k - 1].sessions < r.trials[i].sessions;
      }
    }
  }

  lemma {:induction false} SummarisedCap(r: Report, k: nat)
    requires ValidateReport(r).Ok? && Boundary(r.trials, k, ValidateReport(r).value)
    ensures var s := ValidateReport(r).value;
            1 <= r.margin <= 90 && s.margin == r.margin && s.recommended == s.highestPass * (100 - r.margin) / 100
  {
  }

  /** What accepted evidence says about a cap, for any list of scenarios. */
  lemma {:induction false} CoveredCap(
    p: Plan, reports: map<string, Report>, ids: seq<string>, c: int)
    requires ids != [] && forall i :: 0 <= i < |ids| ==> ids[i] in reports
    requires CoverAll(p, reports, ids).Ok? && CoverAll(p, reports, ids).value != []
    ensures var results := CoverAll(p, reports, ids).value;
            && Consistent(p, reports, ids)
            && results[0].nodeProfile == reports[ids[0]].nodeProfile && results[0].revision == reports[ids[0]].revision
            && (c <= Least(results) <==> AllRecommend(reports, ids, c))
  {
    var results := CoverAll(p, reports, ids).value;
    CoverAllIsExact(p, reports, ids);
    CoverAllSummaries(p, reports, ids);
    LeastIsLeast(results, c);
    forall i | 0 <= i < |ids| ensures ValidateReport(reports[ids[i]]).value == results[i] {
      assert ValidateReport(reports[ids[i]]) == Ok(results[i]);
    }
  }

  lemma {:induction false} ConsistentSupports(
    p: Plan, reports: map<string, Report>, ids: seq<string>, c: int, node: string, revision: string, i: nat)
    returns (k: nat)
    requires i < |ids| && forall j :: 0 <= j < |ids| ==> ids[j] in reports
    requires Consistent(p, reports, ids) && c > 0
    requires reports[ids[0]].nodeProfile == node && reports[ids[0]].revision == revision
    requires AllRecommend(reports, ids, c)
    ensures Supports(p, ids[i], reports[ids[i]], c, node, revision, k)
    ensures forall j :: 0 <= j < |ids| && j != i ==> reports[ids[j]].runId != reports[ids[i]].runId
  {
    assert Measures(p, ids[i], reports[ids[i]]) && Alike(reports[ids[0]], reports[ids[i]]);
    k := RecommendationSupports(p, ids[i], reports[ids[i]], c, node, revision);
  }

  /**
   * Soundness of an accepted cap, through all three validators: in every scenario of the plan it keeps the
   * margin below a measured clean level and lies below every failing one, and the evidence carries distinct
   * run identifiers and the very node profile and build it is meant for.
   */
  lemma {:induction false} CapIsSupported(
    p: Plan, reports: map<string, Report>, c: int, node: string, revision: string, i: nat) returns (k: nat)
    requires ValidateMaxSessions(p, reports, c, node, revision).Ok? && i < |SCENARIO_IDS|
    ensures c > 0 && BindsExactly(reports)
    ensures Supports(p, SCENARIO_IDS[i], reports[SCENARIO_IDS[i]], c, node, revision, k)
    ensures forall j :: 0 <= j < |SCENARIO_IDS| && j != i ==> reports[SCENARIO_IDS[j]].runId != reports[SCENARIO_IDS[i]].runId
  {
    CapIsExact(p, reports, c, node, revision);
    k := ConsistentSupports(p, reports, SCENARIO_IDS, c, node, revision, i);
  }

  /** The decision names the greatest cap that every scenario recommends, and the room below it. */
  lemma {:induction false} RecommendationIsGreatest(
      p: Plan, reports: map<string, Report>, c: int, node: string, revision: string)
    requires ValidateMaxSessions(p, reports, c, node, revision).Ok?
    ensures var d := ValidateMaxSessions(p, reports, c, node, revision).value;
            && BindsExactly(reports) && d.candidate == c && d.headroom == d.recommended - c >= 0
            && AllRecommend(reports, SCENARIO_IDS, d.recommended)
            && !AllRecommend(reports, SCENARIO_IDS, d.recommended + 1)
  {
    var d := ValidateMaxSessions(p, reports, c, node, revision).value;
    CoverageIsExact(p, reports, d.recommended);
    CoverageIsExact(p, reports, d.recommended + 1);
  }

  /** The decision counts one report for each scenario, and its margin is the margin of each. */
  lemma {:induction false} DecisionDescribesEvidence(
      p: Plan, reports: map<string, Report>, c: int, node: string, revision: string, i: nat)
    requires ValidateMaxSessions(p, reports, c, node, revision).Ok? && i < |SCENARIO_IDS|
    ensures var d := ValidateMaxSessions(p, reports, c, node, revision).value;
            BindsExactly(reports) && d.reports == |SCENARIO_IDS| && d.margin == reports[SCENARIO_IDS[i]].margin
  {
    CoverAllLength(p, reports, SCENARIO_IDS);
    CommonMargin(p, reports, SCENARIO_IDS, i);
  }

  lemma {:induction false} CommonMargin(p: Plan, reports: map<string, Report>, ids: seq<string>, i: nat)
    requires i < |ids| && forall j :: 0 <= j < |ids| ==> ids[j] in reports
    requires CoverAll(p, reports, ids).Ok?
    ensures var results := CoverAll(p, reports, ids).value;
            results != [] && results[0].margin == reports[ids[i]].margin
  {
    CoverAllIsExact(p, reports, ids);
    CoverAllSummaries(p, reports, ids);
    var results := CoverAll(p, reports, ids).value;
    assert Mirrors(results[0], reports[ids[0]]) && Alike(reports[ids[0]], reports[ids[i]]);
  }

  lemma {:induction false} CoverageIsExact(p: Plan, reports: map<string, Report>, c: int)
    requires Canonical(p) && BindsExactly(reports)
    ensures Covers(p, reports).Ok? <==> Consistent(p, reports, SCENARIO_IDS)
    ensures Covers(p, reports).Ok? ==>
              var v := Covers(p, reports).value;
              && v.nodeProfile == reports[SCENARIO_IDS[0]].nodeProfile && v.revision == reports[SCENARIO_IDS[0]].revision
              && (c <= v.recommended <==> AllRecommend(reports, SCENARIO_IDS, c))
              && v.profile == p.profile && v.counts == p.counts && Summaries(reports, SCENARIO_IDS, v.results)
  {
    CoverAllIsExact(p, reports, SCENARIO_IDS);
    CoverAllLength(p, reports, SCENARIO_IDS);
    if Consistent(p, reports, SCENARIO_IDS) {
      CoverAllSummaries(p, reports, SCENARIO_IDS);
      CoveredCap(p, reports, SCENARIO_IDS, c);
    }
  }

  /** The cap is accepted exactly when consistent evidence for its target recommends at least that much everywhere. */
  lemma {:induction false} CapIsExact(p: Plan, reports: map<string, Report>, c: int, node: string, revision: string)
    ensures ValidateMaxSessions(p, reports, c, node, revision).Ok? <==>
            && c > 0 && BoundedText(node, 300) && IsRevision(revision)
            && Canonical(p) && BindsExactly(reports) && Consistent(p, reports, SCENARIO_IDS)
            && reports[SCENARIO_IDS[0]].nodeProfile == node && reports[SCENARIO_IDS[0]].revision == revision
            && AllRecommend(reports, SCENARIO_IDS, c)
  {
    if Canonical(p) && BindsExactly(reports) {
      CoverageIsExact(p, reports, c);
    }
  }
}

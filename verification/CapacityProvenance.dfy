/** Reports that are bound to a recorded run: the assembler, the checker, and their agreement with the runner. */
module CapacityProvenance {
  import opened Prelude
  import opened Capacity
  import opened CapacityReport
  import opened CapacityRun

  datatype PlannedError =
    | NotCanonicalPlan | NoSuchScenario | RawTrialsInvalid(trial: TrialError)
    | ManifestShape | PlanDiffers | TrialsDiffer | ProfileDiffers | ScenarioDiffers | PlannedLevelsDiffer
    | MeasuredLevelsDiffer | BoundaryDiffers | NotCompleted | LevelsNotCovered | PolicyInconsistent
    | ReportRefused(report: ReportError)
    | ScenarioIdMalformed | ReportInvalid(report: ReportError) | ProvenanceInvalid(reason: PlannedError) | ReportDiffers

  // ----- What a climb leaves on file -----

  /** `ts` holds the measurements of the first levels, normalised, in order. */
  predicate Follows(ts: seq<Trial>, levels: seq<int>, w: World) {
    && |ts| <= |levels|
    && forall i :: 0 <= i < |ts| ==>
         w.harness(levels[i]).Some? && ts[i] == Clean(Trial(levels[i], w.harness(levels[i]).value))
  }

  /** Under the stop policy no trial but the last may have failed. */
  predicate StopsAtFailure(ts: seq<Trial>) {
    forall i :: 0 <= i < |ts| - 1 ==> ts[i].result.outcome == Pass
  }

  predicate NormalForm(ts: seq<Trial>) {
    ts == CleanAll(ts) && Ladder(ts) && |ts| <= MAX_TRIAL_COUNT
  }

  /** The state of a run after `n` levels. */
  predicate Climbed(levels: seq<int>, w: World, policy: Policy, n: nat, ts: seq<Trial>) {
    && n == |ts| && NormalForm(ts) && Follows(ts, levels, w)
    && (policy == Stop ==> StopsAtFailure(ts))
  }

  /** The record of the n-th level stays on file: it is stored, and its file, if new, has a durable name. */
  predicate Kept(io: Io, n: nat) {
    io == Stored || (io == DirectorySyncFails && n > 0)
  }

  lemma {:induction false} ClimbOne(levels: seq<int>, w: World, policy: Policy, ts: seq<Trial>, after: seq<Trial>)
    requires Climbed(levels, w, policy, |ts|, ts) && |ts| < |levels|
    requires policy == Stop ==> !FailureSeen(ts)
    requires w.harness(levels[|ts|]).Some?
    requires Appended(ts, Trial(levels[|ts|], w.harness(levels[|ts|]).value)) == Ok(after)
    ensures Climbed(levels, w, policy, |ts| + 1, after)
    ensures FailureSeen(after) <==> FailureSeen(ts) || w.harness(levels[|ts|]).value.outcome == Fail
  {
    var t := Trial(levels[|ts|], w.harness(levels[|ts|]).value);
    AppendKeepsNormal(ts, t);
    CleanIsTransparent(t);
    FailurePush(ts, Clean(t));
    assert after == ts + [Clean(t)];
    forall i | 0 <= i < |after| ensures w.harness(levels[i]).Some?
                                        && after[i] == Clean(Trial(levels[i], w.harness(levels[i]).value)) {
      assert i < |ts| ==> after[i] == ts[i];
    }
  }

  /** One level of a run that ends without an error. */
  lemma {:induction false} ClimbOnce(levels: seq<int>, w: World, policy: Policy, ts: seq<Trial>, out: seq<Trial>)
    returns (after: seq<Trial>)
    requires Climbed(levels, w, policy, |ts|, ts) && (policy == Stop ==> !FailureSeen(ts)) && |ts| < |levels|
    requires Climb(levels[|ts|..], w, policy, ts) == Ok(out)
    ensures Climbed(levels, w, policy, |ts| + 1, after)
    ensures if policy == Stop && FailureSeen(after) then out == after
            else Climb(levels[|ts| + 1..], w, policy, after) == Ok(out)
    ensures Kept(w.io(levels[|ts|]), |ts|)
  {
    var rest := levels[|ts|..];
    var m := w.harness(rest[0]).value;
    ClimbStep(rest, w, policy, ts);
    after := Appended(ts, Trial(rest[0], m)).value;
    ClimbOne(levels, w, policy, ts, after);
    assert rest[1..] == levels[|ts| + 1..];
  }

  /** Every run that ends without an error, whatever the harness measured and whatever the policy. */
  lemma {:induction false} ClimbMeaning(levels: seq<int>, w: World, policy: Policy, ts: seq<Trial>, out: seq<Trial>)
    requires Climbed(levels, w, policy, |ts|, ts) && (policy == Stop ==> !FailureSeen(ts))
    requires Climb(levels[|ts|..], w, policy, ts) == Ok(out)
    ensures Climbed(levels, w, policy, |out|, out)
    ensures |out| == |levels| || (policy == Stop && FailureSeen(out))
    decreases |levels| - |ts|
  {
    if |ts| < |levels| {
      var after := ClimbOnce(levels, w, policy, ts, out);
      if !(policy == Stop && FailureSeen(after)) {
        ClimbMeaning(levels, w, policy, after, out);
      }
    }
  }

  lemma {:induction false} RunMeaning(levels: seq<int>, w: World, policy: Policy, out: seq<Trial>)
    requires Climb(levels, w, policy, []) == Ok(out)
    ensures Climbed(levels, w, policy, |out|, out)
    ensures |out| == |levels| || (policy == Stop && FailureSeen(out))
  {
    assert levels[0..] == levels;
    ClimbMeaning(levels, w, policy, [], out);
  }

  /**
   * What a run that ends without an error leaves: the normalised measurements of the first levels, in order,
   * each kept; they form a ladder within the limit, and are all of the levels unless the policy stopped the
   * run at its only failure.
   */
  predicate Outcomes(levels: seq<int>, w: World, policy: Policy, out: seq<Trial>) {
    && Follows(out, levels, w) && Ladder(out) && |out| <= MAX_TRIAL_COUNT
    && (forall i :: 0 <= i < |out| ==> Kept(w.io(levels[i]), i))
    && (policy == Stop ==> StopsAtFailure(out))
    && (|out| == |levels| || (policy == Stop && FailureSeen(out)))
  }

  /** A run ends without an error and leaves `out` if and only if `out` is that. */
  lemma {:induction false} RunIsExact(levels: seq<int>, w: World, policy: Policy, out: seq<Trial>)
    ensures Climb(levels, w, policy, []) == Ok(out) <==> Outcomes(levels, w, policy, out)
  {
    assert levels[0..] == levels && out[..0] == [];
    if Climb(levels, w, policy, []) == Ok(out) {
      RunMeaning(levels, w, policy, out);
      ClimbKept(levels, w, policy, [], out);
    }
    if Outcomes(levels, w, policy, out) {
      ClimbReaches(levels, w, policy, out, 0);
    }
  }

  lemma {:induction false} ClimbKept(levels: seq<int>, w: World, policy: Policy, ts: seq<Trial>, out: seq<Trial>)
    requires Climbed(levels, w, policy, |ts|, ts) && (policy == Stop ==> !FailureSeen(ts))
    requires Climb(levels[|ts|..], w, policy, ts) == Ok(out)
    ensures |ts| <= |out| <= |levels| && forall i :: |ts| <= i < |out| ==> Kept(w.io(levels[i]), i)
    decreases |levels| - |ts|
  {
    if |ts| < |levels| {
      var after := ClimbOnce(levels, w, policy, ts, out);
      if !(policy == Stop && FailureSeen(after)) {
        ClimbKept(levels, w, policy, after, out);
      }
    }
  }

  /** One level of a run that has these outcomes. */
  lemma {:induction false} ClimbReachesOne(levels: seq<int>, w: World, policy: Policy, out: seq<Trial>, n: nat)
    requires Outcomes(levels, w, policy, out) && n < |out|
    ensures w.harness(levels[n]).Some?
    ensures var m := w.harness(levels[n]).value;
            && m.outcome == out[n].result.outcome
            && AfterIo(out[..n], out[..n] == [], Trial(levels[n], m), w.io(levels[n])) == Ok(out[..n + 1])
  {
    var front := out[..n];
    var t := Trial(levels[n], w.harness(levels[n]).value);
    assert out[n] == Clean(t) && out[..n + 1] == front + [out[n]];
    CleanOfFollowing(levels, w, front);
    LadderPrefix(out, n);
    LadderPrefix(out, n + 1);
    CleanIsTransparent(t);
    CleanPush(front, t);
    CleanKeepsLadder(front + [t]);
    AppendKeepsNormal(front, t);
  }

  lemma {:induction false} CleanOfFollowing(levels: seq<int>, w: World, ts: seq<Trial>)
    requires Follows(ts, levels, w)
    ensures ts == CleanAll(ts)
  {
    forall i | 0 <= i < |ts| ensures ts[i] == Clean(ts[i]) {
      CleanIsTransparent(Trial(levels[i], w.harness(levels[i]).value));
    }
  }

  lemma {:induction false} ClimbReaches(levels: seq<int>, w: World, policy: Policy, out: seq<Trial>, n: nat)
    requires Outcomes(levels, w, policy, out) && n <= |out|
    requires n < |out| || n == |levels|
    ensures Climb(levels[n..], w, policy, out[..n]) == Ok(out)
    decreases |out| - n
  {
    if n == |levels| {
      assert out[..n] == out;
    } else {
      ClimbReachesOne(levels, w, policy, out, n);
      ClimbStep(levels[n..], w, policy, out[..n]);
      assert levels[n..][1..] == levels[n + 1..];
      if out[n].result.outcome == Fail && policy == Stop {
        assert n == |out| - 1 && out[..n + 1] == out;
      } else {
        GoesOnOrEnds(levels, w, policy, out, n);
        ClimbReaches(levels, w, policy, out, n + 1);
      }
    }
  }

  lemma {:induction false} GoesOnOrEnds(levels: seq<int>, w: World, policy: Policy, out: seq<Trial>, n: nat)
    requires Outcomes(levels, w, policy, out) && n < |out| && !(out[n].result.outcome == Fail && policy == Stop)
    ensures n + 1 < |out| || n + 1 == |levels|
  {
  }

  /** What is on file is what the climb recorded, and a failure is that of the first level not on file. */
  predicate FileFits(levels: seq<int>, w: World, policy: Policy, f: seq<Trial>, c: Result<seq<Trial>, RunError>) {
    && Climbed(levels, w, policy, |f|, f)
    && match c
       case Ok(out) => f == out
       case Err(e) => |f| < |levels| && Obstacle(levels, w, |f|, f) == Some(e)
  }

  /**
   * Whether or not a run fails, the measurements it made before stay on file, normalised and in order; and a
   * run that fails does so at the first level that is not on file.
   */
  lemma {:induction false} FileAfterRun(levels: seq<int>, w: World, policy: Policy)
    ensures FileFits(levels, w, policy, OnFile(levels, w, policy, []), Climb(levels, w, policy, []))
  {
    assert levels[0..] == levels;
    FileFrom(levels, w, policy, []);
  }

  lemma {:induction false} FileFrom(levels: seq<int>, w: World, policy: Policy, ts: seq<Trial>)
    requires Climbed(levels, w, policy, |ts|, ts) && (policy == Stop ==> !FailureSeen(ts))
    ensures FileFits(levels, w, policy, OnFile(levels[|ts|..], w, policy, ts), Climb(levels[|ts|..], w, policy, ts))
    decreases |levels| - |ts|
  {
    if |ts| == |levels| {
      NoLevelLeft(levels, w, policy, ts);
    } else if Obstacle(levels, w, |ts|, ts).Some? {
      ObstacleEnds(levels, w, policy, |ts|, ts);
    } else {
      var m := w.harness(levels[|ts|]).value;
      var after := AfterIo(ts, ts == [], Trial(levels[|ts|], m), w.io(levels[|ts|])).value;
      ClimbGoesOn(levels, w, policy, ts, after);
      if !(m.outcome == Fail && policy == Stop) {
        FileFrom(levels, w, policy, after);
      }
      FileOneEarlier(levels, w, policy, ts, after);
    }
  }

  lemma {:induction false} FileOneEarlier(
      levels: seq<int>, w: World, policy: Policy, ts: seq<Trial>, after: seq<Trial>)
    requires |ts| < |levels| && w.harness(levels[|ts|]).Some? && |after| == |ts| + 1
    requires AfterIo(ts, ts == [], Trial(levels[|ts|], w.harness(levels[|ts|]).value), w.io(levels[|ts|])) == Ok(after)
    requires Climbed(levels, w, policy, |after|, after)
    requires !(w.harness(levels[|ts|]).value.outcome == Fail && policy == Stop) ==>
               FileFits(levels, w, policy, OnFile(levels[|after|..], w, policy, after),
                        Climb(levels[|after|..], w, policy, after))
    ensures FileFits(levels, w, policy, OnFile(levels[|ts|..], w, policy, ts), Climb(levels[|ts|..], w, policy, ts))
  {
    LevelRecorded(levels, w, policy, |ts|, ts, after);
  }

  lemma {:induction false} NoLevelLeft(levels: seq<int>, w: World, policy: Policy, ts: seq<Trial>)
    requires |ts| == |levels|
    ensures Climb(levels[|ts|..], w, policy, ts) == Ok(ts) && OnFile(levels[|ts|..], w, policy, ts) == ts
  {
  }

  lemma {:induction false} ClimbGoesOn(levels: seq<int>, w: World, policy: Policy, ts: seq<Trial>, after: seq<Trial>)
    requires Climbed(levels, w, policy, |ts|, ts) && (policy == Stop ==> !FailureSeen(ts))
    requires |ts| < |levels| && w.harness(levels[|ts|]).Some?
    requires AfterIo(ts, ts == [], Trial(levels[|ts|], w.harness(levels[|ts|]).value), w.io(levels[|ts|])) == Ok(after)
    ensures |after| == |ts| + 1 && Climbed(levels, w, policy, |after|, after)
    ensures policy == Stop && w.harness(levels[|ts|]).value.outcome == Pass ==> !FailureSeen(after)
  {
    ClimbOne(levels, w, policy, ts, after);
  }

  /** What a concluded run says of itself is what is on file. */
  lemma {:induction false} SummaryIsTrue(
      p: Plan, id: string, w: World, policy: Policy, side: Sidecar, sha: Digests, out: seq<Trial>)
    requires Canonical(p) && id in SCENARIO_IDS && SidecarProblem(side) == None && Hexadecimal(sha)
    requires Climb(p.counts, w, policy, []) == Ok(out)
    ensures var c := Concluded(p, id, p.counts, out, policy, side, sha);
            && (c == Err(ManifestNotPublished) <==> side.Published? && !side.writable)
            && (c.Ok? <==> side.Published? ==> side.writable)
            && (c.Ok? ==>
                  var s := c.value;
                  && s.scenarioId == id && s.policy == policy && s.tested == Levels(out)
                  && (s.boundaryFound <==> exists i :: 0 <= i < |out| && out[i].result.outcome == Fail)
                  && (s.completed <==> |out| == |p.counts|)
                  && (s.manifest.Some? <==> side.Published?)
                  && (side.Published? && s.completed ==>
                        && s.manifest.value.nodeProfile == side.who.nodeProfile
                        && s.manifest.value.revision == side.who.revision
                        && s.manifest.value.policy == policy
                        && Vouches(s.manifest.value, p, id, out, sha)))
  {
    RunMeaning(p.counts, w, policy, out);
    LevelsFollow(p.counts, w, out);
  }

  lemma {:induction false} LevelsFollow(levels: seq<int>, w: World, out: seq<Trial>)
    requires Follows(out, levels, w)
    ensures Levels(out) == levels[..|out|]
    ensures Levels(out) == levels <==> |out| == |levels|
  {
    assert levels[..|levels|] == levels;
  }

  // ----- The checks on a run manifest -----

  predicate ManifestShapeIsValid(m: Manifest) {
    && m.schema == 1 && IsHex(m.planDigest, 64) && IsHex(m.trialsDigest, 64)
    && m.profile != "" && m.scenarioId != ""
    && BoundedText(m.nodeProfile, 300) && IsHex(m.revision, 40)
    && m.planned != [] && (forall i :: 0 <= i < |m.planned| ==> m.planned[i] > 0)
    && m.tested != [] && (forall i :: 0 <= i < |m.tested| ==> m.tested[i] > 0)
  }

  function FirstFailure(ts: seq<Trial>): nat {
    if ts == [] || ts[0].result.outcome == Fail then 0 else 1 + FirstFailure(ts[1..])
  }

  function ManifestProblem(
      m: Manifest, p: Plan, id: string, planned: seq<int>, ts: seq<Trial>, sha: Digests): Option<PlannedError>
  {
    if m.planDigest != sha.ofPlan(p) then Some(PlanDiffers)
    else if m.trialsDigest != sha.ofTrials(ts) then Some(TrialsDiffer)
    else if m.profile != p.profile then Some(ProfileDiffers)
    else if m.scenarioId != id then Some(ScenarioDiffers)
    else if m.planned != planned then Some(PlannedLevelsDiffer)
    else if m.tested != Levels(ts) then Some(MeasuredLevelsDiffer)
    else if m.boundaryFound != FailureSeen(ts) then Some(BoundaryDiffers)
    else if !m.completed then Some(NotCompleted)
    else if Levels(ts) != planned then Some(LevelsNotCovered)
    else if m.policy == Stop && FailureSeen(ts) && FirstFailure(ts) != |ts| - 1 then Some(PolicyInconsistent)
    else None
  }

  lemma {:induction false} FirstFailureIsLast(ts: seq<Trial>)
    requires FailureSeen(ts) && StopsAtFailure(ts)
    ensures FirstFailure(ts) == |ts| - 1
  {
    if ts[0].result.outcome == Pass {
      var i :| 0 <= i < |ts| && ts[i].result.outcome == Fail;
      assert ts[1..][i - 1] == ts[i];
      FirstFailureIsLast(ts[1..]);
    }
  }

  /** The digests are hexadecimal text of 64 characters, as SHA-256 gives. */
  ghost predicate Hexadecimal(sha: Digests) {
    (forall p :: IsHex(sha.ofPlan(p), 64)) && (forall ts :: IsHex(sha.ofTrials(ts), 64))
  }

  /**
   * Producer and checker agree: the manifest of a run that ended without an error has a valid shape and
   * passes every check exactly when the run covered its plan; otherwise the one complaint is that it did not.
   */
  lemma {:induction false} ManifestAcceptedIffCompleted(
    p: Plan, id: string, w: World, policy: Policy, who: Identity, sha: Digests, out: seq<Trial>)
    requires Canonical(p) && id in SCENARIO_IDS && ValidIdentity(who) && Hexadecimal(sha)
    requires Climb(p.counts, w, policy, []) == Ok(out)
    ensures var m := MakeManifest(p, id, p.counts, out, policy, who, sha);
            && ManifestShapeIsValid(m)
            && ManifestProblem(m, p, id, p.counts, out, sha)
               == (if Levels(out) == p.counts then None else Some(NotCompleted))
    ensures Normalised(out, 1) == Ok(out)
  {
    RunMeaning(p.counts, w, policy, out);
    NormaliseIsExact(out);
    assert BASELINE_SESSION_COUNTS[0] in p.counts;
    RunIsNotEmpty(p.counts, w, policy, out);
    ManifestIsShapely(p, id, w, policy, who, sha, out);
    if policy == Stop && FailureSeen(out) {
      FirstFailureIsLast(out);
    }
  }

  lemma {:induction false} ManifestIsShapely(
    p: Plan, id: string, w: World, policy: Policy, who: Identity, sha: Digests, out: seq<Trial>)
    requires Canonical(p) && id in SCENARIO_IDS && ValidIdentity(who) && Hexadecimal(sha)
    requires out != [] && p.counts != [] && Follows(out, p.counts, w)
    ensures ManifestShapeIsValid(MakeManifest(p, id, p.counts, out, policy, who, sha))
  {
  }

  lemma {:induction false} RunIsNotEmpty(levels: seq<int>, w: World, policy: Policy, out: seq<Trial>)
    requires levels != [] && Climb(levels, w, policy, []) == Ok(out)
    ensures out != []
  {
    RunMeaning(levels, w, policy, out);
  }

  // ----- Assembling and checking a report -----

  function ScenarioPrefix(profile: string, id: string): string {
    "profile=" + profile + "; scenario=" + id + ";"
  }

  function AssembleReport(
    ts: seq<Trial>, runId: RunId, who: Identity, scenario: string, margin: int, notes: string): Result<Report, ReportError>
  {
    var r := Report(1, runId, who.nodeProfile, who.revision, scenario, margin, ts, notes);
    match ValidateReport(r)
    case Err(e) => Err(e)
    case Ok(_) => Ok(r)
  }

  function AssemblePlanned(
    p: Plan, trials: seq<Trial>, m: Manifest, id: string, runId: RunId, margin: int, notes: string, sha: Digests)
    : Result<Report, PlannedError>
  {
    if !Canonical(p) then Err(NotCanonicalPlan)
    else
      match FindLevels(p.scenarios, id)
      case None => Err(NoSuchScenario)
      case Some(planned) =>
        match Normalised(trials, 1)
        case Err(e) => Err(RawTrialsInvalid(e))
        case Ok(ts) =>
          if !ManifestShapeIsValid(m) then Err(ManifestShape)
          else
            var problem := ManifestProblem(m, p, id, planned, ts, sha);
            if problem != None then Err(problem.value)
            else
              match AssembleReport(ts, runId, Identity(m.nodeProfile, m.revision), ScenarioPrefix(p.profile, id), margin, notes)
              case Err(e) => Err(ReportRefused(e))
              case Ok(r) => Ok(r)
  }

  function ValidatePlanned(
      r: Report, p: Plan, trials: seq<Trial>, m: Manifest, id: string, sha: Digests): Result<Summary, PlannedError>
  {
    if !OneLine(id) then Err(ScenarioIdMalformed)
    else
      match ValidateReport(r)
      case Err(e) => Err(ReportInvalid(e))
      case Ok(summary) =>
        match AssemblePlanned(p, trials, m, id, r.runId, r.margin, r.notes, sha)
        case Err(e) => Err(ProvenanceInvalid(e))
        case Ok(rebuilt) => if r != rebuilt then Err(ReportDiffers) else Ok(summary)
  }

  lemma {:induction false} ScenarioIdsAreLines(id: string)
    requires id in SCENARIO_IDS
    ensures OneLine(id)
  {
    if id == SCENARIO_IDS[0] {
    } else if id == SCENARIO_IDS[1] {
    } else if id == SCENARIO_IDS[2] {
    } else if id == SCENARIO_IDS[3] {
    } else {
    }
  }

  /** What the assembler makes is a valid report with the metadata it was given. */
  lemma {:induction false} AssembledIsValid(
    p: Plan, trials: seq<Trial>, m: Manifest, id: string, runId: RunId, margin: int, notes: string, sha: Digests)
    requires AssemblePlanned(p, trials, m, id, runId, margin, notes, sha).Ok?
    ensures var r := AssemblePlanned(p, trials, m, id, runId, margin, notes, sha).value;
            && ValidateReport(r).Ok? && r.runId == runId && r.margin == margin && r.notes == notes
            && r.trials == CleanAll(trials) && Levels(r.trials) == p.counts && id in SCENARIO_IDS
            && r.nodeProfile == m.nodeProfile && r.revision == m.revision && r.scenario == ScenarioPrefix(p.profile, id)
  {
    LevelsOfCanonical(p, id);
    NormalisedIsClean(trials);
  }

  /** The manifest speaks of exactly this plan, scenario and list of normalised trials, and of a run that covered it. */
  ghost predicate Vouches(m: Manifest, p: Plan, id: string, ts: seq<Trial>, sha: Digests) {
    && m.schema == 1 && m.profile == p.profile && m.scenarioId == id
    && m.planDigest == sha.ofPlan(p) && m.trialsDigest == sha.ofTrials(ts)
    && m.planned == p.counts && m.tested == Levels(ts) == p.counts && m.completed
    && (m.boundaryFound <==> exists i :: 0 <= i < |ts| && ts[i].result.outcome == Fail)
    && (m.policy == Stop ==> forall i :: 0 <= i < |ts| - 1 ==> ts[i].result.outcome == Pass)
  }

  /**
   * For every manifest and every list of trials: a report is assembled if and only if the plan is canonical
   * and has the scenario, the trials are a ladder over its levels, the manifest vouches for them, and the
   * report on them is valid; and then it is that report. The shape checks on a manifest refuse nothing else.
   */
  lemma {:induction false} AssembledIff(
    p: Plan, trials: seq<Trial>, m: Manifest, id: string, runId: RunId, margin: int, notes: string, sha: Digests,
    r: Report)
    requires Hexadecimal(sha)
    ensures AssemblePlanned(p, trials, m, id, runId, margin, notes, sha) == Ok(r) <==>
            && Canonical(p) && id in SCENARIO_IDS
            && Ladder(trials) && 1 <= |trials| <= MAX_TRIAL_COUNT
            && Vouches(m, p, id, CleanAll(trials), sha)
            && r == Report(1, runId, m.nodeProfile, m.revision, ScenarioPrefix(p.profile, id), margin, CleanAll(trials), notes)
            && ValidateReport(r).Ok?
  {
    if Canonical(p) && id in SCENARIO_IDS {
      LevelsOfCanonical(p, id);
      NormaliseIsExact(trials);
      if Normalised(trials, 1).Ok? {
        NormalisedIsClean(trials);
        if ValidateReport(r).Ok? && r.nodeProfile == m.nodeProfile && r.revision == m.revision {
          ManifestIsExact(m, p, id, CleanAll(trials), sha);
        }
      }
    } else if Canonical(p) {
      LevelsOfCanonical(p, id);
    }
  }

  lemma {:induction false} ManifestIsExact(m: Manifest, p: Plan, id: string, ts: seq<Trial>, sha: Digests)
    requires Canonical(p) && id in SCENARIO_IDS && Hexadecimal(sha)
    requires BoundedText(m.nodeProfile, 300) && IsRevision(m.revision)
    ensures ManifestShapeIsValid(m) && ManifestProblem(m, p, id, p.counts, ts, sha) == None
            <==> Vouches(m, p, id, ts, sha)
  {
    if FailureSeen(ts) {
      StopIsExact(ts);
    }
    assert BASELINE_SESSION_COUNTS[0] in p.counts;
  }

  /** The first failure is the last trial exactly when no trial before the last failed. */
  lemma {:induction false} StopIsExact(ts: seq<Trial>)
    requires FailureSeen(ts)
    ensures FirstFailure(ts) == |ts| - 1 <==> StopsAtFailure(ts)
  {
    if StopsAtFailure(ts) {
      FirstFailureIsLast(ts);
    } else {
      var i :| 0 <= i < |ts| - 1 && ts[i].result.outcome == Fail;
      FirstFailureIsNotBehind(ts, i);
    }
  }

  lemma {:induction false} FirstFailureIsNotBehind(ts: seq<Trial>, i: nat)
    requires i < |ts| && ts[i].result.outcome == Fail
    ensures FirstFailure(ts) <= i
  {
    if ts[0].result.outcome == Pass {
      FirstFailureIsNotBehind(ts[1..], i - 1);
    }
  }

  /** The text that ties a report to its plan and scenario belongs to no other plan profile or scenario. */
  lemma {:induction false} ScenarioPrefixIsUnique(profile: string, id: string, profile2: string, id2: string)
    requires id in SCENARIO_IDS && id2 in SCENARIO_IDS
    requires ScenarioPrefix(profile, id) == ScenarioPrefix(profile2, id2)
    ensures profile == profile2 && id == id2
  {
    if |id| < |id2| {
      NoLongerId(profile, id, profile2, id2);
    } else if |id2| < |id| {
      NoLongerId(profile2, id2, profile, id);
    } else {
      var s := ScenarioPrefix(profile, id);
      assert id == s[|s| - 1 - |id|..|s| - 1] && id2 == s[|s| - 1 - |id|..|s| - 1];
      assert profile == s[8..|s| - 12 - |id|] && profile2 == s[8..|s| - 12 - |id|];
    }
  }

  lemma {:induction false} NoLongerId(profile: string, id: string, profile2: string, id2: string)
    requires id2 in SCENARIO_IDS && |id| < |id2|
    ensures ScenarioPrefix(profile, id) != ScenarioPrefix(profile2, id2)
  {
    var s, t := ScenarioPrefix(profile, id), ScenarioPrefix(profile2, id2);
    if s == t {
      // The sign in front of the shorter identifier would stand inside the longer one.
      assert s[|s| - 2 - |id|] == '=';
      assert t[|t| - 2 - |id|] == id2[|id2| - 1 - |id|];
      NoSignInId(id2);
    }
  }

  lemma {:induction false} NoSignInId(id: string)
    requires id in SCENARIO_IDS
    ensures '=' !in id
  {
    if id == SCENARIO_IDS[0] {
    } else if id == SCENARIO_IDS[1] {
    } else if id == SCENARIO_IDS[2] {
    } else if id == SCENARIO_IDS[3] {
    } else {
    }
  }

  /** The checker accepts a report exactly when the assembler, given the report's own metadata, makes that report. */
  lemma {:induction false} AcceptedIffRebuilt(
      r: Report, p: Plan, trials: seq<Trial>, m: Manifest, id: string, sha: Digests)
    ensures ValidatePlanned(r, p, trials, m, id, sha).Ok?
            <==> AssemblePlanned(p, trials, m, id, r.runId, r.margin, r.notes, sha) == Ok(r)
  {
    if AssemblePlanned(p, trials, m, id, r.runId, r.margin, r.notes, sha) == Ok(r) {
      AssembledIsValid(p, trials, m, id, r.runId, r.margin, r.notes, sha);
      ScenarioIdsAreLines(id);
    }
  }

  /**
   * From the runner to the checker: after a run that covered its plan, the assembler makes a report exactly
   * when the report on the recorded trials is valid, and the checker accepts what it makes.
   */
  lemma {:induction false} CompletedRunIsProvable(
    p: Plan, id: string, w: World, policy: Policy, who: Identity, sha: Digests, out: seq<Trial>,
    runId: RunId, margin: int, notes: string)
    requires Canonical(p) && id in SCENARIO_IDS && ValidIdentity(who) && Hexadecimal(sha)
    requires Climb(p.counts, w, policy, []) == Ok(out) && Levels(out) == p.counts
    ensures var m := MakeManifest(p, id, p.counts, out, policy, who, sha);
            var r := Report(1, runId, who.nodeProfile, who.revision, ScenarioPrefix(p.profile, id), margin, out, notes);
            && (AssemblePlanned(p, out, m, id, runId, margin, notes, sha).Ok? <==> ValidateReport(r).Ok?)
            && (ValidateReport(r).Ok? ==>
                  && AssemblePlanned(p, out, m, id, runId, margin, notes, sha) == Ok(r)
                  && ValidatePlanned(r, p, out, m, id, sha).Ok?)
  {
    var m := MakeManifest(p, id, p.counts, out, policy, who, sha);
    var r := Report(1, runId, who.nodeProfile, who.revision, ScenarioPrefix(p.profile, id), margin, out, notes);
    LevelsOfCanonical(p, id);
    ManifestAcceptedIffCompleted(p, id, w, policy, who, sha, out);
    AcceptedIffRebuilt(r, p, out, m, id, sha);
  }

  /** A run that did not cover its plan supports no report at all. */
  lemma {:induction false} PartialRunIsRefused(
    p: Plan, id: string, w: World, policy: Policy, who: Identity, sha: Digests, out: seq<Trial>,
    runId: RunId, margin: int, notes: string)
    requires Canonical(p) && id in SCENARIO_IDS && ValidIdentity(who) && Hexadecimal(sha)
    requires Climb(p.counts, w, policy, []) == Ok(out) && Levels(out) != p.counts
    ensures AssemblePlanned(p, out, MakeManifest(p, id, p.counts, out, policy, who, sha), id, runId, margin, notes, sha)
            == Err(NotCompleted)
  {
    LevelsOfCanonical(p, id);
    ManifestAcceptedIffCompleted(p, id, w, policy, who, sha, out);
  }

  /** Every measured number is written as a float. */
  predicate FloatsOnly(ts: seq<Trial>) {
    forall i :: 0 <= i < |ts| ==>
      ts[i].result.duration.Float? && ts[i].result.cpu.Float? && ts[i].result.egress.Float?
  }

  lemma {:induction false} CleanIffFloats(ts: seq<Trial>)
    ensures ts == CleanAll(ts) <==> FloatsOnly(ts)
  {
    var cs := CleanAll(ts);
    if ts == cs {
      forall i | 0 <= i < |ts|
        ensures ts[i].result.duration.Float? && ts[i].result.cpu.Float? && ts[i].result.egress.Float? {
        assert ts[i] == cs[i];
      }
    }
  }

  /** What the checker accepts is in normal form. */
  lemma {:induction false} AcceptedIsClean(
      r: Report, p: Plan, trials: seq<Trial>, m: Manifest, id: string, sha: Digests)
    requires ValidatePlanned(r, p, trials, m, id, sha).Ok?
    ensures r.trials == CleanAll(r.trials)
  {
    AcceptedIffRebuilt(r, p, trials, m, id, sha);
    AssembledIsValid(p, trials, m, id, r.runId, r.margin, r.notes, sha);
    CleanKeepsLadder(trials);
  }

  /**
   * How numbers are written decides: a report is accepted if and only if its normalised form is accepted and
   * the report already is in that form. Its schema validation does not see the difference.
   */
  lemma {:induction false} AcceptedIffNormalForm(
      r: Report, p: Plan, trials: seq<Trial>, m: Manifest, id: string, sha: Digests)
    ensures ValidatePlanned(r, p, trials, m, id, sha).Ok? <==>
            ValidatePlanned(r.(trials := CleanAll(r.trials)), p, trials, m, id, sha).Ok? && FloatsOnly(r.trials)
    ensures ValidateReport(r.(trials := CleanAll(r.trials))) == ValidateReport(r)
  {
    CleanIffFloats(r.trials);
    if r.trials == CleanAll(r.trials) {
      assert r.(trials := CleanAll(r.trials)) == r;
    } else {
      SameVerdict(r);
      if ValidatePlanned(r, p, trials, m, id, sha).Ok? {
        AcceptedIsClean(r, p, trials, m, id, sha);
      }
    }
  }

  lemma {:induction false} SameVerdict(r: Report)
    ensures ValidateReport(r.(trials := CleanAll(r.trials))) == ValidateReport(r)
  {
    var cs := CleanAll(r.trials);
    CleanChangesNoVerdict(r.trials);
    SameHeader(r, cs);
    var ts := Normalised(r.trials, 2);
    assert Normalised(cs, 2) == ts;
    if ts.Ok? {
      SameSummary(r, cs, ts.value);
    }
  }

  lemma {:induction false} SameHeader(r: Report, other: seq<Trial>)
    ensures HeaderProblem(r.(trials := other)) == HeaderProblem(r)
  {
  }

  lemma {:induction false} SameSummary(r: Report, other: seq<Trial>, ts: seq<Trial>)
    ensures Summarise(r.(trials := other), ts) == Summarise(r, ts)
  {
  }

  lemma {:induction false} CleanChangesNoVerdict(ts: seq<Trial>)
    ensures NormaliseAll(CleanAll(ts)) == NormaliseAll(ts)
  {
    if ts != [] {
      var front, last := ts[..|ts| - 1], ts[|ts| - 1];
      assert ts == front + [last];
      CleanPush(front, last);
      CleanChangesNoVerdict(front);
      SameProblem(front, last);
      NormalisePush(front, last);
      NormalisePush(CleanAll(front), Clean(last));
    }
  }

  lemma {:induction false} NormalisePush(front: seq<Trial>, last: Trial)
    ensures NormaliseAll(front + [last]) ==
            match NormaliseAll(front)
            case Err(e) => Err(e)
            case Ok(done) =>
              var problem := TrialProblem(last, Highest(front), FailureSeen(front));
              if problem != None then Err(problem.value) else Ok(done + [Clean(last)])
  {
    assert (front + [last])[..|front|] == front;
  }

  lemma {:induction false} SameProblem(front: seq<Trial>, last: Trial)
    ensures TrialProblem(Clean(last), Highest(CleanAll(front)), FailureSeen(CleanAll(front)))
            == TrialProblem(last, Highest(front), FailureSeen(front))
    ensures Clean(Clean(last)) == Clean(last)
  {
    SameFailures(front);
    CleanIsTransparent(last);
  }

  lemma {:induction false} SameFailures(ts: seq<Trial>)
    ensures FailureSeen(CleanAll(ts)) <==> FailureSeen(ts)
  {
    var cs := CleanAll(ts);
    forall i | 0 <= i < |ts| ensures cs[i].result.outcome == ts[i].result.outcome {
      CleanIsTransparent(ts[i]);
    }
  }
}

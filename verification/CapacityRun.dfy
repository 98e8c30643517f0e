/** The recorder of trials and the runner that climbs one scenario of a canonical load plan. */
module CapacityRun {
  import opened Prelude
  import opened Capacity
  import opened CapacityReport

  const BASELINE_SESSION_COUNTS: seq<int> := [1, 2, 4, 8]
  const SCENARIO_IDS: seq<string> :=
    ["normal-input", "all-holding", "reconnect-storm", "asset-prefetch", "api-dashboard"]

  datatype Scenario = Scenario(id: string, counts: seq<int>)

  datatype Plan = Plan(profile: string, counts: seq<int>, scenarios: seq<Scenario>)

  predicate OneLine(s: string) {
    && s != "" && !IsSpace(s[0]) && !IsSpace(s[|s| - 1])
    && forall i :: 0 <= i < |s| ==> s[i] != '\0' && s[i] != '\n' && s[i] != '\r'
  }

  predicate RisingLevels(levels: seq<int>) {
    && (forall i :: 0 <= i < |levels| ==> levels[i] > 0)
    && (forall i, j :: 0 <= i < j < |levels| ==> levels[i] < levels[j])
  }

  /** The plans that the renderer can render: sorted levels over the baseline, the same for the five scenarios. */
  predicate Canonical(p: Plan) {
    && OneLine(p.profile) && RisingLevels(p.counts)
    && (forall i :: 0 <= i < |BASELINE_SESSION_COUNTS| ==> BASELINE_SESSION_COUNTS[i] in p.counts)
    && |p.scenarios| == |SCENARIO_IDS|
    && (forall i :: 0 <= i < |SCENARIO_IDS| ==> p.scenarios[i] == Scenario(SCENARIO_IDS[i], p.counts))
  }

  function FindLevels(scenarios: seq<Scenario>, id: string): Option<seq<int>> {
    if scenarios == [] then None
    else if scenarios[0].id == id then Some(scenarios[0].counts)
    else FindLevels(scenarios[1..], id)
  }

  lemma {:induction false} LevelsOfCanonical(p: Plan, id: string)
    requires Canonical(p)
    ensures FindLevels(p.scenarios, id) == if id in SCENARIO_IDS then Some(p.counts) else None
  {
    LevelsFrom(p, id, 0);
    assert p.scenarios[0..] == p.scenarios && SCENARIO_IDS[0..] == SCENARIO_IDS;
  }

  lemma {:induction false} LevelsFrom(p: Plan, id: string, n: nat)
    requires Canonical(p) && n <= |SCENARIO_IDS|
    ensures FindLevels(p.scenarios[n..], id) == if id in SCENARIO_IDS[n..] then Some(p.counts) else None
    decreases |SCENARIO_IDS| - n
  {
    if n < |SCENARIO_IDS| {
      LevelsFrom(p, id, n + 1);
      assert p.scenarios[n..][1..] == p.scenarios[n + 1..];
      assert SCENARIO_IDS[n..] == [SCENARIO_IDS[n]] + SCENARIO_IDS[n + 1..];
    }
  }

  // ----- The recorder -----

  /** What happens to the bytes of one append. */
  datatype Io = Stored | WriteFails | DirectorySyncFails

  datatype RecordError = TrialInvalid(error: TrialError) | SequenceInvalid(error: TrialError) | NotStored

  /** The new trial is normalised alone, then judged behind the recorded ones; old lines are kept as they are. */
  function Appended(existing: seq<Trial>, t: Trial): Result<seq<Trial>, RecordError> {
    match Normalised([t], 1)
    case Err(e) => Err(TrialInvalid(e))
    case Ok(one) =>
      match Normalised(existing + [Clean(t)], 1)
      case Err(e) => Err(SequenceInvalid(e))
      case Ok(_) => Ok(existing + [Clean(t)])
  }

  function AfterIo(existing: seq<Trial>, created: bool, t: Trial, io: Io): Result<seq<Trial>, RecordError> {
    match Appended(existing, t)
    case Err(e) => Err(e)
    case Ok(ts) => if io == WriteFails || (created && io == DirectorySyncFails) then Err(NotStored) else Ok(ts)
  }

  /** A file that is already normalised stays so, one sound trial longer. */
  lemma {:induction false} AppendKeepsNormal(existing: seq<Trial>, t: Trial)
    requires existing == CleanAll(existing) && Ladder(existing)
    ensures Appended(existing, t).Ok? <==> |existing| < MAX_TRIAL_COUNT && Ladder(existing + [t])
    ensures Appended(existing, t).Ok? ==>
              var ts := Appended(existing, t).value;
              ts == CleanAll(existing + [t]) == CleanAll(ts) && Ladder(ts)
  {
    var grown := existing + [t];
    NormaliseIsExact([t]);
    NormaliseIsExact(existing + [Clean(t)]);
    CleanPush(existing, t);
    CleanPush(existing, Clean(t));
    CleanIsTransparent(t);
    CleanKeepsLadder(grown);
    if Ladder(grown) {
      assert grown[|existing|] == t;
      assert Sound([t][0]);
    }
  }

  method JudgeTrial(existing: seq<Trial>, t: Trial) returns (r: Result<Trial, RecordError>)
    ensures match Appended(existing, t)
            case Err(e) => r == Err(e)
            case Ok(ts) => r.Ok? && ts == existing + [r.value]
  {
    var one := NormalizeTrials([t], 1);
    if one.Err? {
      return Err(TrialInvalid(one.error));
    }
    NormalisedIsClean([t]);
    assert one.value == [Clean(t)];
    var normalized := NormalizeTrials(existing + [one.value[0]], 1);
    if normalized.Err? {
      return Err(SequenceInvalid(normalized.error));
    }
    NormalisedIsClean(existing + [Clean(t)]);
    CleanIsTransparent(t);
    return Ok(normalized.value[|normalized.value| - 1]);
  }

  class TrialFile {
    var present: bool
    var trials: seq<Trial>

    predicate Valid()
      reads this
    {
      present || trials == []
    }

    constructor ()
      ensures Valid() && !present
    {
      present, trials := false, [];
    }

    method AppendTrial(t: Trial, io: Io) returns (r: Result<Trial, RecordError>)
      requires Valid()
      modifies this
      ensures Valid()
      ensures var after := AfterIo(old(trials), !old(present), t, io);
              match r
              case Ok(recorded) => after == Ok(trials) && present && trials == old(trials) + [recorded]
              case Err(e) => after == Err(e) && trials == old(trials) && present == old(present)
      ensures r.Ok? <==> Appended(old(trials), t).Ok? && (io == Stored || (io == DirectorySyncFails && old(present)))
    {
      var created, existing := !present, trials;
      present := true;
      var judged := JudgeTrial(existing, t);
      if judged.Err? {
        present := !created;
        return Err(judged.error);
      }
      var recorded := judged.value;
      trials := existing + [recorded];
      if io == WriteFails || (created && io == DirectorySyncFails) {
        // The appended bytes are cut off again, and a file made for them is removed.
        trials, present := existing, !created;
        return Err(NotStored);
      }
      return Ok(recorded);
    }
  }

  // ----- The runner -----

  datatype Policy = Stop | Continue

  datatype RunError =
    | EvidenceExists | ManifestExists | ManifestOverTrials | BadIdentity | IdentityWithoutManifest
    | PlanNotCanonical | UnknownScenario | HarnessFailed | InvalidTrial(error: RecordError) | ManifestNotPublished

  datatype Identity = Identity(nodeProfile: string, revision: string)

  /** Whether a manifest is asked for, and what its path is like: taken, the trials' own, or not writable. */
  datatype Sidecar =
    | Without(identityGiven: bool)
    | Published(who: Identity, taken: bool, overTrials: bool, writable: bool)

  datatype Manifest = Manifest(
    schema: int, planDigest: string, profile: string, scenarioId: string, nodeProfile: string, revision: string,
    policy: Policy, planned: seq<int>, tested: seq<int>, boundaryFound: bool, completed: bool, trialsDigest: string)

  datatype RunSummary = RunSummary(
    scenarioId: string, policy: Policy, tested: seq<int>, boundaryFound: bool, completed: bool,
    manifest: Option<Manifest>)

  /** Any deterministic digest of a plan and of a list of trials. */
  datatype Digests = Digests(ofPlan: Plan -> string, ofTrials: seq<Trial> -> string)

  /** Everything outside the runner: what the harness measures at a level and what becomes of the record. */
  datatype World = World(harness: int -> Option<Measurement>, io: int -> Io)

  /** The trials on file after climbing the levels, starting from what is on file. */
  function Climb(levels: seq<int>, w: World, policy: Policy, done: seq<Trial>): Result<seq<Trial>, RunError> {
    if levels == [] then Ok(done)
    else
      match w.harness(levels[0])
      case None => Err(HarnessFailed)
      case Some(m) =>
        match AfterIo(done, done == [], Trial(levels[0], m), w.io(levels[0]))
        case Err(e) => Err(InvalidTrial(e))
        case Ok(ts) => if m.outcome == Fail && policy == Stop then Ok(ts) else Climb(levels[1..], w, policy, ts)
  }

  /** What is on file when the climb ends, with or without an error. */
  function OnFile(levels: seq<int>, w: World, policy: Policy, done: seq<Trial>): seq<Trial> {
    if levels == [] then done
    else
      match w.harness(levels[0])
      case None => done
      case Some(m) =>
        match AfterIo(done, done == [], Trial(levels[0], m), w.io(levels[0]))
        case Err(_) => done
        case Ok(ts) => if m.outcome == Fail && policy == Stop then ts else OnFile(levels[1..], w, policy, ts)
  }

  function MakeManifest(
      p: Plan, id: string, levels: seq<int>, ts: seq<Trial>, policy: Policy, who: Identity, sha: Digests): Manifest
  {
    Manifest(1, sha.ofPlan(p), p.profile, id, who.nodeProfile, who.revision, policy, levels, Levels(ts),
             FailureSeen(ts), Levels(ts) == levels, sha.ofTrials(ts))
  }

  /** The end of a run that climbed without an error: its summary, unless the manifest cannot be published. */
  function Concluded(
      p: Plan, id: string, levels: seq<int>, ts: seq<Trial>, policy: Policy, side: Sidecar, sha: Digests)
    : Result<RunSummary, RunError>
  {
    if side.Published? && !side.writable then Err(ManifestNotPublished)
    else
      Ok(RunSummary(id, policy, Levels(ts), FailureSeen(ts), Levels(ts) == levels,
                    if side.Without? then None else Some(MakeManifest(p, id, levels, ts, policy, side.who, sha))))
  }

  predicate ValidIdentity(who: Identity) {
    BoundedText(who.nodeProfile, 300) && IsRevision(who.revision)
  }

  function SidecarProblem(side: Sidecar): Option<RunError> {
    match side
    case Without(identityGiven) => if identityGiven then Some(IdentityWithoutManifest) else None
    case Published(who, taken, overTrials, _) =>
      if taken then Some(ManifestExists)
      else if overTrials then Some(ManifestOverTrials)
      else if !ValidIdentity(who) then Some(BadIdentity)
      else None
  }

  /** The levels that a run will climb, or why it does not start. */
  function Prepared(present: bool, p: Plan, id: string, side: Sidecar): Result<seq<int>, RunError> {
    if present then Err(EvidenceExists)
    else if SidecarProblem(side) != None then Err(SidecarProblem(side).value)
    else if !Canonical(p) then Err(PlanNotCanonical)
    else
      match FindLevels(p.scenarios, id)
      case None => Err(UnknownScenario)
      case Some(levels) => Ok(levels)
  }

  /**
   * A run starts exactly when no evidence is on file, the plan is canonical and has the scenario, and the manifest
   * that is asked for has a free path of its own and a usable identity, or no identity is given without one.
   */
  lemma {:induction false} StartsIff(present: bool, p: Plan, id: string, side: Sidecar)
    ensures Prepared(present, p, id, side).Ok? <==>
            && !present && Canonical(p) && id in SCENARIO_IDS
            && match side
               case Without(identityGiven) => !identityGiven
               case Published(who, taken, overTrials, _) =>
                 !taken && !overTrials && BoundedText(who.nodeProfile, 300) && IsRevision(who.revision)
    ensures Prepared(present, p, id, side).Ok? ==> Prepared(present, p, id, side) == Ok(p.counts)
  {
    if Canonical(p) {
      LevelsOfCanonical(p, id);
    }
  }

  lemma {:induction false} ClimbStep(levels: seq<int>, w: World, policy: Policy, done: seq<Trial>)
    requires levels != [] && w.harness(levels[0]).Some?
    ensures var m := w.harness(levels[0]).value;
            var after := AfterIo(done, done == [], Trial(levels[0], m), w.io(levels[0]));
            Climb(levels, w, policy, done) ==
            if after.Err? then Err(InvalidTrial(after.error))
            else if m.outcome == Fail && policy == Stop then Ok(after.value)
            else Climb(levels[1..], w, policy, after.value)
  {
  }

  /** Why a run with `ts` on file cannot record the level n, if it cannot. */
  function Obstacle(levels: seq<int>, w: World, n: nat, ts: seq<Trial>): Option<RunError>
    requires n < |levels|
  {
    match w.harness(levels[n])
    case None => Some(HarnessFailed)
    case Some(m) =>
      var after := AfterIo(ts, ts == [], Trial(levels[n], m), w.io(levels[n]));
      if after.Err? then Some(InvalidTrial(after.error)) else None
  }

  lemma {:induction false} ObstacleEnds(levels: seq<int>, w: World, policy: Policy, n: nat, ts: seq<Trial>)
    requires n < |levels| && Obstacle(levels, w, n, ts).Some?
    ensures Climb(levels[n..], w, policy, ts) == Err(Obstacle(levels, w, n, ts).value)
    ensures OnFile(levels[n..], w, policy, ts) == ts
  {
  }

  /** A recorded level ends the climb at a failure that stops it, and otherwise leaves the later levels. */
  lemma {:induction false} LevelRecorded(
      levels: seq<int>, w: World, policy: Policy, n: nat, ts: seq<Trial>, after: seq<Trial>)
    requires n < |levels| && w.harness(levels[n]).Some?
    requires AfterIo(ts, ts == [], Trial(levels[n], w.harness(levels[n]).value), w.io(levels[n])) == Ok(after)
    ensures if w.harness(levels[n]).value.outcome == Fail && policy == Stop then
              Climb(levels[n..], w, policy, ts) == Ok(after) && OnFile(levels[n..], w, policy, ts) == after
            else
              && Climb(levels[n..], w, policy, ts) == Climb(levels[n + 1..], w, policy, after)
              && OnFile(levels[n..], w, policy, ts) == OnFile(levels[n + 1..], w, policy, after)
  {
    assert levels[n..][1..] == levels[n + 1..];
  }

  /** The climb has come as far as the level i, with `ts` on file. */
  ghost predicate OnTrack(levels: seq<int>, w: World, policy: Policy, i: nat, ts: seq<Trial>) {
    && i <= |levels|
    && Climb(levels, w, policy, []) == Climb(levels[i..], w, policy, ts)
    && OnFile(levels, w, policy, []) == OnFile(levels[i..], w, policy, ts)
  }

  /** What a climb that ends gives. */
  ghost predicate Ends(levels: seq<int>, w: World, policy: Policy, r: Result<seq<Trial>, RunError>, ts: seq<Trial>) {
    Climb(levels, w, policy, []) == r && OnFile(levels, w, policy, []) == ts
  }

  lemma {:induction false} TrackBlocked(levels: seq<int>, w: World, policy: Policy, i: nat, ts: seq<Trial>)
    requires OnTrack(levels, w, policy, i, ts) && i < |levels| && Obstacle(levels, w, i, ts).Some?
    ensures Ends(levels, w, policy, Err(Obstacle(levels, w, i, ts).value), ts)
  {
    ObstacleEnds(levels, w, policy, i, ts);
  }

  lemma {:induction false} TrackGoesOn(
      levels: seq<int>, w: World, policy: Policy, i: nat, ts: seq<Trial>, after: seq<Trial>)
    requires OnTrack(levels, w, policy, i, ts) && i < |levels| && w.harness(levels[i]).Some?
    requires AfterIo(ts, ts == [], Trial(levels[i], w.harness(levels[i]).value), w.io(levels[i])) == Ok(after)
    ensures if w.harness(levels[i]).value.outcome == Fail && policy == Stop then Ends(levels, w, policy, Ok(after), after)
            else OnTrack(levels, w, policy, i + 1, after)
  {
    LevelRecorded(levels, w, policy, i, ts, after);
  }

  lemma {:induction false} TrackDone(levels: seq<int>, w: World, policy: Policy, ts: seq<Trial>)
    requires OnTrack(levels, w, policy, |levels|, ts)
    ensures Ends(levels, w, policy, Ok(ts), ts)
  {
  }

  lemma {:induction false} LevelsPush(ts: seq<Trial>, t: Trial)
    ensures Levels(ts + [t]) == Levels(ts) + [t.sessions]
  {
  }

  /** The loop over the planned levels. */
  method ClimbLevels(planned: seq<int>, file: TrialFile, w: World, policy: Policy)
    returns (failure: Option<RunError>, levels: seq<int>, recordedTrials: seq<Trial>, boundaryFound: bool)
    requires file.Valid() && !file.present
    modifies file
    ensures file.Valid()
    ensures Climb(planned, w, policy, []) == if failure == None then Ok(file.trials) else Err(failure.value)
    ensures recordedTrials == file.trials == OnFile(planned, w, policy, []) && levels == Levels(recordedTrials)
    ensures boundaryFound == FailureSeen(recordedTrials)
  {
    levels, recordedTrials, boundaryFound := [], [], false;
    var i := 0;
    assert planned[0..] == planned;
    while i < |planned|
      invariant i <= |planned| && file.Valid() && file.present == (i > 0)
      invariant file.trials == recordedTrials && |recordedTrials| == i
      invariant levels == Levels(recordedTrials) && boundaryFound == FailureSeen(recordedTrials)
      invariant OnTrack(planned, w, policy, i, recordedTrials)
    {
      var measured := w.harness(planned[i]);
      if measured == None {
        TrackBlocked(planned, w, policy, i, recordedTrials);
        return Some(HarnessFailed), levels, recordedTrials, boundaryFound;
      }
      var recorded := file.AppendTrial(Trial(planned[i], measured.value), w.io(planned[i]));
      if recorded.Err? {
        TrackBlocked(planned, w, policy, i, recordedTrials);
        return Some(InvalidTrial(recorded.error)), levels, recordedTrials, boundaryFound;
      }
      TrackGoesOn(planned, w, policy, i, recordedTrials, file.trials);
      FailurePush(recordedTrials, recorded.value);
      LevelsPush(recordedTrials, recorded.value);
      levels := levels + [recorded.value.sessions];
      recordedTrials := recordedTrials + [recorded.value];
      i := i + 1;
      if recorded.value.result.outcome == Fail {
        boundaryFound := true;
        if policy == Stop {
          return None, levels, recordedTrials, boundaryFound;
        }
      }
    }
    TrackDone(planned, w, policy, recordedTrials);
    return None, levels, recordedTrials, boundaryFound;
  }

  /** The levels are pinned and the manifest's path and identity are checked before any load is executed. */
  method RunScenario(
      p: Plan, id: string, file: TrialFile, w: World, policy: Policy, side: Sidecar, sha: Digests)
    returns (r: Result<RunSummary, RunError>)
    requires file.Valid()
    modifies file
    ensures file.Valid()
    ensures match Prepared(old(file.present), p, id, side)
            case Err(e) => r == Err(e) && file.trials == old(file.trials) && file.present == old(file.present)
            case Ok(levels) =>
              && file.trials == OnFile(levels, w, policy, [])
              && match Climb(levels, w, policy, [])
                 case Err(e) => r == Err(e)
                 case Ok(ts) => file.trials == ts && r == Concluded(p, id, levels, ts, policy, side, sha)
  {
    var prepared := Prepared(file.present, p, id, side);
    if prepared.Err? {
      return Err(prepared.error);
    }
    var planned := prepared.value;
    var failure, levels, recordedTrials, boundaryFound := ClimbLevels(planned, file, w, policy);
    if failure != None {
      return Err(failure.value);
    }
    var manifest := None;
    if side.Published? {
      manifest := Some(Manifest(1, sha.ofPlan(p), p.profile, id, side.who.nodeProfile, side.who.revision, policy,
                                planned, levels, boundaryFound, levels == planned, sha.ofTrials(recordedTrials)));
      if !side.writable {
        return Err(ManifestNotPublished);
      }
    }
    return Ok(RunSummary(id, policy, levels, boundaryFound, levels == planned, manifest));
  }
}

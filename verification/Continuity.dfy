/**
 * The continuity decision model: a timed state machine with hysteresis that buffer probes feed and
 * a reconciliation loop queries. The class keeps three timestamps; the lemmas say what its decisions
 * mean in terms of everything it has observed.
 */
module Continuity {
  import opened Prelude

  datatype AudioMode = LiveAudio | MutedAudio

  datatype VideoSource = LiveVideo | Standby

  datatype ActualAudio = PlayLive | PlayMuted | SilentFallback

  datatype SessionStatus = Holding | Stabilizing | Live

  datatype Decision = Decision(status: SessionStatus, video: VideoSource, audio: ActualAudio,
                               videoRecent: bool, audioRecent: bool)

  datatype Settings = Settings(inputTimeout: real, stableWindow: real)

  predicate ValidSettings(c: Settings) {
    c.inputTimeout > 0.0 && c.stableWindow >= 0.0
  }

  /** The fields of the state object as one value. */
  datatype Snapshot = Snapshot(desired: AudioMode, lastVideo: Option<real>, lastAudio: Option<real>,
                               stableSince: Option<real>)

  const INITIAL := Snapshot(LiveAudio, None, None, None)

  predicate Recent(last: Option<real>, now: real, c: Settings) {
    last.Some? && now - last.value <= c.inputTimeout
  }

  function SeeVideo(s: Snapshot, now: real, c: Settings): Snapshot {
    s.(stableSince := if Recent(s.lastVideo, now, c) then s.stableSince else Some(now), lastVideo := Some(now))
  }

  /** A decision, and the state after it: deciding forgets the start of a run that has lapsed. */
  function DecideAt(s: Snapshot, now: real, c: Settings): (Decision, Snapshot) {
    var videoRecent := Recent(s.lastVideo, now, c);
    var audioRecent := Recent(s.lastAudio, now, c);
    var stable := s.stableSince.Some? && now - s.stableSince.value >= c.stableWindow;
    var status := if !videoRecent then Holding else if stable then Live else Stabilizing;
    var video := if status == Live then LiveVideo else Standby;
    var audio :=
      if s.desired == MutedAudio then PlayMuted
      else if video == LiveVideo && audioRecent then PlayLive
      else SilentFallback;
    (Decision(status, video, audio, videoRecent, audioRecent),
     if videoRecent then s else s.(stableSince := None))
  }

  class ContinuityState {
    const settings: Settings
    var desiredAudio: AudioMode
    var lastVideoAt: Option<real>
    var lastAudioAt: Option<real>
    var videoStableSince: Option<real>

    function Snap(): Snapshot
      reads this
    {
      Snapshot(desiredAudio, lastVideoAt, lastAudioAt, videoStableSince)
    }

    constructor (settings: Settings)
      requires ValidSettings(settings)
      ensures this.settings == settings && Snap() == INITIAL
    {
      this.settings := settings;
      desiredAudio := LiveAudio;
      lastVideoAt, lastAudioAt, videoStableSince := None, None, None;
    }

    /** Unusable settings are refused. */
    static method Create(settings: Settings) returns (c: ContinuityState?)
      ensures c == null <==> !ValidSettings(settings)
      ensures c != null ==> fresh(c) && c.settings == settings && c.Snap() == INITIAL
    {
      if settings.inputTimeout <= 0.0 {
        return null;
      }
      if settings.stableWindow < 0.0 {
        return null;
      }
      c := new ContinuityState(settings);
    }

    method SetAudioMode(mode: AudioMode)
      modifies this
      ensures Snap() == old(Snap()).(desired := mode)
    {
      desiredAudio := mode;
    }

    method ObserveVideo(now: real)
      modifies this
      ensures Snap() == SeeVideo(old(Snap()), now, settings)
    {
      if lastVideoAt.None? || now - lastVideoAt.value > settings.inputTimeout {
        videoStableSince := Some(now);
      }
      lastVideoAt := Some(now);
    }

    method ObserveAudio(now: real)
      modifies this
      ensures Snap() == old(Snap()).(lastAudio := Some(now))
    {
      lastAudioAt := Some(now);
    }

    method Decide(now: real) returns (d: Decision)
      modifies this
      ensures (d, Snap()) == DecideAt(old(Snap()), now, settings)
    {
      var videoRecent := lastVideoAt.Some? && now - lastVideoAt.value <= settings.inputTimeout;
      var audioRecent := lastAudioAt.Some? && now - lastAudioAt.value <= settings.inputTimeout;
      var videoSource, status;
      if !videoRecent {
        videoStableSince := None;
        videoSource, status := Standby, Holding;
      } else {
        var stable := videoStableSince.Some? && now - videoStableSince.value >= settings.stableWindow;
        if stable {
          videoSource, status := LiveVideo, Live;
        } else {
          videoSource, status := Standby, Stabilizing;
        }
      }
      var actualAudio;
      if desiredAudio == MutedAudio {
        actualAudio := PlayMuted;
      } else if videoSource == LiveVideo && audioRecent {
        actualAudio := PlayLive;
      } else {
        actualAudio := SilentFallback;
      }
      d := Decision(status, videoSource, actualAudio, videoRecent, audioRecent);
    }
  }

  // ----- Histories -----

  datatype Event = Video(at: real) | Audio(at: real) | Mode(mode: AudioMode) | Query(at: real)

  function Apply(s: Snapshot, e: Event, c: Settings): Snapshot {
    match e
    case Video(at) => SeeVideo(s, at, c)
    case Audio(at) => s.(lastAudio := Some(at))
    case Mode(mode) => s.(desired := mode)
    case Query(at) => DecideAt(s, at, c).1
  }

  function Run(s: Snapshot, events: seq<Event>, c: Settings): Snapshot
    decreases |events|
  {
    if events == [] then s else Run(Apply(s, events[0], c), events[1..], c)
  }

  function EndTime(t: real, events: seq<Event>): real
    decreases |events|
  {
    if events == [] then t
    else EndTime(if events[0].Mode? then t else events[0].at, events[1..])
  }

  /** Times do not decrease, starting from t. */
  predicate Ordered(t: real, events: seq<Event>)
    decreases |events|
  {
    events == [] ||
    (if events[0].Mode? then Ordered(t, events[1..]) else t <= events[0].at && Ordered(events[0].at, events[1..]))
  }

  /** The times of all video observations, given those before. */
  function Videos(past: seq<real>, events: seq<Event>): seq<real>
    decreases |events|
  {
    if events == [] then past else Videos(if events[0].Video? then past + [events[0].at] else past, events[1..])
  }

  function Audios(past: seq<real>, events: seq<Event>): seq<real>
    decreases |events|
  {
    if events == [] then past else Audios(if events[0].Audio? then past + [events[0].at] else past, events[1..])
  }

  /** The mode last asked for. */
  function ModeAfter(mode: AudioMode, events: seq<Event>): AudioMode
    decreases |events|
  {
    if events == [] then mode else ModeAfter(if events[0].Mode? then events[0].mode else mode, events[1..])
  }

  // ----- The meaning of a decision -----

  /** From index j on, no gap between neighbouring observations exceeds the input timeout. */
  predicate UnbrokenFrom(videos: seq<real>, j: nat, c: Settings) {
    forall i :: j < i < |videos| ==> videos[i] - videos[i - 1] <= c.inputTimeout
  }

  /** An unbroken run of observations that began a stable window ago. */
  predicate LongRun(videos: seq<real>, now: real, c: Settings) {
    exists j: nat :: j < |videos| && UnbrokenFrom(videos, j, c) && videos[j] <= now - c.stableWindow
  }

  predicate LastRecent(times: seq<real>, now: real, c: Settings) {
    times != [] && now - times[|times| - 1] <= c.inputTimeout
  }

  function StatusOf(videos: seq<real>, now: real, c: Settings): SessionStatus {
    if !LastRecent(videos, now, c) then Holding
    else if LongRun(videos, now, c) then Live
    else Stabilizing
  }

  /** A decision from what was observed and asked for. */
  function DecisionOf(videos: seq<real>, audios: seq<real>, desired: AudioMode, now: real, c: Settings): Decision {
    var status := StatusOf(videos, now, c);
    var audioRecent := LastRecent(audios, now, c);
    Decision(
      status,
      if status == Live then LiveVideo else Standby,
      if desired == MutedAudio then PlayMuted else if status == Live && audioRecent then PlayLive else SilentFallback,
      LastRecent(videos, now, c),
      audioRecent)
  }

  /** The decision as a function of the history alone. */
  function Meaning(events: seq<Event>, now: real, c: Settings): Decision {
    DecisionOf(Videos([], events), Audios([], events), ModeAfter(LiveAudio, events), now, c)
  }

  // ----- Refinement -----

  predicate Sorted(times: seq<real>) {
    forall i, j :: 0 <= i < j < |times| ==> times[i] <= times[j]
  }

  function RunStart(videos: seq<real>, c: Settings): (j: nat)
    requires videos != []
    ensures j < |videos|
  {
    var n := |videos| - 1;
    if n == 0 || videos[n] - videos[n - 1] > c.inputTimeout then n else RunStart(videos[..n], c)
  }

  lemma {:induction false} RunStartUnbroken(videos: seq<real>, c: Settings)
    requires videos != []
    ensures UnbrokenFrom(videos, RunStart(videos, c), c)
    decreases |videos|
  {
    var n := |videos| - 1;
    if n > 0 && videos[n] - videos[n - 1] <= c.inputTimeout {
      RunStartUnbroken(videos[..n], c);
    }
  }

  lemma {:induction false} RunStartLeast(videos: seq<real>, c: Settings, j: nat)
    requires j < |videos| && UnbrokenFrom(videos, j, c)
    ensures RunStart(videos, c) <= j
    decreases |videos|
  {
    var n := |videos| - 1;
    if j < n {
      RunStartLeast(videos[..n], c, j);
    }
  }

  /** `RunStart` is the beginning of the maximal unbroken run at the end. */
  lemma {:induction false} RunStartIsMaximal(videos: seq<real>, c: Settings)
    requires videos != []
    ensures UnbrokenFrom(videos, RunStart(videos, c), c)
    ensures forall j: nat :: j < |videos| && UnbrokenFrom(videos, j, c) ==> RunStart(videos, c) <= j
  {
    RunStartUnbroken(videos, c);
    forall j: nat | j < |videos| && UnbrokenFrom(videos, j, c) ensures RunStart(videos, c) <= j {
      RunStartLeast(videos, c, j);
    }
  }

  /** What the three timestamps remember of the observations so far. */
  predicate Remembers(s: Snapshot, videos: seq<real>, audios: seq<real>, t: real, c: Settings) {
    && Sorted(videos) && (videos != [] ==> videos[|videos| - 1] <= t)
    && s.lastVideo == (if videos == [] then None else Some(videos[|videos| - 1]))
    && s.lastAudio == (if audios == [] then None else Some(audios[|audios| - 1]))
    && match s.stableSince
       case Some(since) => videos != [] && since == videos[RunStart(videos, c)]
       case None => !LastRecent(videos, t, c)
  }

  lemma {:induction false} RunRemembers(
      s: Snapshot, videos: seq<real>, audios: seq<real>, t: real, events: seq<Event>, c: Settings)
    requires ValidSettings(c) && Remembers(s, videos, audios, t, c) && Ordered(t, events)
    ensures Remembers(Run(s, events, c), Videos(videos, events), Audios(audios, events), EndTime(t, events), c)
    ensures Run(s, events, c).desired == ModeAfter(s.desired, events)
    decreases |events|
  {
    if events != [] {
      var e, rest := events[0], events[1..];
      StepRemembers(s, videos, audios, t, e, c);
      RunRemembers(Apply(s, e, c),
                   if e.Video? then videos + [e.at] else videos,
                   if e.Audio? then audios + [e.at] else audios,
                   if e.Mode? then t else e.at, rest, c);
    }
  }

  lemma {:induction false} RememberVideo(
      s: Snapshot, videos: seq<real>, audios: seq<real>, t: real, at: real, c: Settings)
    requires ValidSettings(c) && Remembers(s, videos, audios, t, c) && t <= at
    ensures Remembers(SeeVideo(s, at, c), videos + [at], audios, at, c)
  {
    var longer := videos + [at];
    assert longer[..|videos|] == videos;
  }

  lemma {:induction false} RememberOther(
      s: Snapshot, videos: seq<real>, audios: seq<real>, t: real, e: Event, c: Settings)
    requires ValidSettings(c) && Remembers(s, videos, audios, t, c) && (e.Mode? || (!e.Video? && t <= e.at))
    ensures Remembers(Apply(s, e, c), videos, if e.Audio? then audios + [e.at] else audios,
                      if e.Mode? then t else e.at, c)
  {
  }

  lemma {:induction false} StepRemembers(
      s: Snapshot, videos: seq<real>, audios: seq<real>, t: real, e: Event, c: Settings)
    requires ValidSettings(c) && Remembers(s, videos, audios, t, c) && (e.Mode? || t <= e.at)
    ensures Remembers(Apply(s, e, c),
                      if e.Video? then videos + [e.at] else videos,
                      if e.Audio? then audios + [e.at] else audios,
                      if e.Mode? then t else e.at, c)
    ensures Apply(s, e, c).desired == if e.Mode? then e.mode else s.desired
  {
    if e.Video? {
      RememberVideo(s, videos, audios, t, e.at, c);
    } else {
      RememberOther(s, videos, audios, t, e, c);
    }
  }

  lemma {:induction false} LongRunFromStart(videos: seq<real>, now: real, c: Settings)
    requires videos != [] && Sorted(videos)
    ensures LongRun(videos, now, c) <==> videos[RunStart(videos, c)] <= now - c.stableWindow
  {
    RunStartIsMaximal(videos, c);
    if LongRun(videos, now, c) {
      var j: nat :| j < |videos| && UnbrokenFrom(videos, j, c) && videos[j] <= now - c.stableWindow;
      assert videos[RunStart(videos, c)] <= videos[j];
    }
  }

  lemma {:induction false} RememberedDecision(
      s: Snapshot, videos: seq<real>, audios: seq<real>, t: real, now: real, c: Settings)
    requires ValidSettings(c) && Remembers(s, videos, audios, t, c) && t <= now
    ensures DecideAt(s, now, c).0 == DecisionOf(videos, audios, s.desired, now, c)
  {
    if videos != [] {
      LongRunFromStart(videos, now, c);
    }
  }

  /**
   * For every history with non-decreasing times a decision is a function of the history: LIVE exactly
   * when the last observation is recent and an unbroken run of observations reaches back a full
   * stable window, HOLDING exactly when the last observation is not recent.
   */
  lemma {:induction false} DecisionMeaning(t: real, events: seq<Event>, now: real, c: Settings)
    requires ValidSettings(c) && Ordered(t, events) && EndTime(t, events) <= now
    ensures DecideAt(Run(INITIAL, events, c), now, c).0 == Meaning(events, now, c)
  {
    RunRemembers(INITIAL, [], [], t, events, c);
    RememberedDecision(Run(INITIAL, events, c), Videos([], events), Audios([], events), EndTime(t, events), now, c);
  }

  // ----- Consequences -----

  /** Two histories with the same video observations decide video alike, whatever else they hold. */
  lemma {:induction false} OnlyVideoMatters(t: real, first: seq<Event>, second: seq<Event>, now: real, c: Settings)
    requires ValidSettings(c) && Ordered(t, first) && Ordered(t, second)
    requires EndTime(t, first) <= now && EndTime(t, second) <= now
    requires Videos([], first) == Videos([], second)
    ensures var a := DecideAt(Run(INITIAL, first, c), now, c).0;
            var b := DecideAt(Run(INITIAL, second, c), now, c).0;
            a.status == b.status && a.video == b.video && a.videoRecent == b.videoRecent
  {
    DecisionMeaning(t, first, now, c);
    DecisionMeaning(t, second, now, c);
  }

  lemma {:induction false} OrderedConcat(t: real, past: seq<real>, first: seq<Event>, second: seq<Event>)
    requires Ordered(t, first + second)
    ensures Ordered(t, first) && Ordered(EndTime(t, first), second)
    ensures EndTime(t, first + second) == EndTime(EndTime(t, first), second)
    ensures Videos(past, first + second) == Videos(Videos(past, first), second)
    decreases |first|
  {
    if first == [] {
      assert first + second == second;
    } else {
      assert (first + second)[1..] == first[1..] + second;
      OrderedConcat(if first[0].Mode? then t else first[0].at,
                    if first[0].Video? then past + [first[0].at] else past, first[1..], second);
    }
  }

  /** Later observations are appended, with later times. */
  lemma {:induction false} VideosExtend(t: real, past: seq<real>, events: seq<Event>)
    requires Ordered(t, events)
    ensures past <= Videos(past, events)
    ensures forall i :: |past| <= i < |Videos(past, events)| ==> t <= Videos(past, events)[i]
    ensures t <= EndTime(t, events)
    decreases |events|
  {
    if events != [] {
      var e := events[0];
      VideosExtend(if e.Mode? then t else e.at, if e.Video? then past + [e.at] else past, events[1..]);
    }
  }

  /** A run that lapsed at `held` cannot be continued by observations from then on. */
  lemma {:induction false} LapseBreaksRun(past: seq<real>, all: seq<real>, held: real, now: real, c: Settings)
    requires past <= all && held <= now
    requires forall i :: |past| <= i < |all| ==> held <= all[i]
    requires !LastRecent(past, held, c) && LastRecent(all, now, c) && LongRun(all, now, c)
    ensures now - held >= c.stableWindow
  {
    var j: nat :| j < |all| && UnbrokenFrom(all, j, c) && all[j] <= now - c.stableWindow;
    // The gap between the last observation before the lapse and the next one breaks every run.
    assert 0 < |past| < |all| ==> all[|past|] - all[|past| - 1] > c.inputTimeout;
    assert j >= |past|;
  }

  /**
   * Hysteresis: after a HOLDING decision no decision is LIVE until a full stable window has passed.
   */
  lemma {:induction false} NoEarlyRecovery(
      t: real, before: seq<Event>, held: real, later: seq<Event>, now: real, c: Settings)
    requires ValidSettings(c) && Ordered(t, before + ([Query(held)] + later))
    requires EndTime(t, before + ([Query(held)] + later)) <= now
    requires DecideAt(Run(INITIAL, before, c), held, c).0.status == Holding
    requires DecideAt(Run(INITIAL, before + ([Query(held)] + later), c), now, c).0.status == Live
    ensures now - held >= c.stableWindow
  {
    var middle := [Query(held)] + later;
    OrderedConcat(t, [], before, middle);
    assert middle[1..] == later;
    DecisionMeaning(t, before, held, c);
    DecisionMeaning(t, before + middle, now, c);
    VideosExtend(held, Videos([], before), later);
    LapseBreaksRun(Videos([], before), Videos([], before + middle), held, now, c);
  }

  // ----- Why the order of times is needed -----

  /**
   * The first observation after a lapse was decided starts a new run unless its own time is within the
   * timeout of the observation before the lapse, which takes a time earlier than the decision.
   */
  lemma {:induction false} LapseThenObservation(s: Snapshot, held: real, at: real, c: Settings)
    requires s.lastVideo.Some? && !Recent(s.lastVideo, held, c)
    ensures var t := SeeVideo(DecideAt(s, held, c).1, at, c);
            && (t.stableSince == None <==> at - s.lastVideo.value <= c.inputTimeout)
            && (at >= held ==> t.stableSince == Some(at))
  {
  }

  /** No observation comes later than the timeout after the one before it. */
  predicate Unbroken(last: real, events: seq<Event>, c: Settings)
    decreases |events|
  {
    events == [] ||
    (if events[0].Video? then events[0].at - last <= c.inputTimeout && Unbroken(events[0].at, events[1..], c)
     else Unbroken(last, events[1..], c))
  }

  /** A run whose start is forgotten is never LIVE, however long it goes on without a break. */
  lemma {:induction false} StrandedStays(s: Snapshot, events: seq<Event>, now: real, c: Settings)
    requires s.stableSince == None && s.lastVideo.Some? && Unbroken(s.lastVideo.value, events, c)
    ensures DecideAt(Run(s, events, c), now, c).0.status != Live
    decreases |events|
  {
    if events != [] {
      StrandedStays(Apply(s, events[0], c), events[1..], now, c);
    }
  }

  /** A history on which the code and its meaning for ordered histories differ. */
  lemma {:induction false} OutOfOrderIsStranded()
    ensures var c := Settings(1.0, 1.0);
            var events := [Video(0.0), Query(100.0), Video(0.5), Video(1.0), Video(1.5)];
            && DecideAt(Run(INITIAL, events, c), 1.5, c).0.status == Stabilizing
            && Meaning(events, 1.5, c).status == Live
  {
    var c := Settings(1.0, 1.0);
    var e0 := [Video(0.0), Query(100.0), Video(0.5), Video(1.0), Video(1.5)];
    var e1, e2, e3, e4 := e0[1..], e0[2..], e0[3..], e0[4..];
    assert e1[1..] == e2 && e2[1..] == e3 && e3[1..] == e4 && e4[1..] == [];
    assert Videos([], e0) == Videos([0.0, 0.5], e3);
    assert Videos([0.0, 0.5], e3) == [0.0, 0.5, 1.0, 1.5];
    assert UnbrokenFrom(Videos([], e0), 0, c);
    var s3 := Snapshot(LiveAudio, Some(0.5), None, None);
    assert Run(INITIAL, e0, c) == Run(s3, e3, c);
    assert Run(s3, e3, c) == Snapshot(LiveAudio, Some(1.5), None, None);
  }
}

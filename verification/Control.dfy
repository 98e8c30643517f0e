/**
 * The versioned audio command: the durable store that accepts commands, and the fail-safe reader on
 * the media node that polls the published file.
 */
module Control {
  import opened Prelude

  const MAX_KEY := 200

  datatype CommandId = CommandId(uuid: nat)

  datatype Record = Record(mode: string, version: int, commandId: Option<CommandId>, key: Option<string>, updatedAt: real)

  /** The store's file: never written, lost after it was written, unreadable, or holding a record. */
  datatype File = Missing | Garbled | Holds(record: Record)

  datatype Request = Request(mode: string, key: string, expected: Option<int>, now: real, newId: CommandId)

  datatype ControlError =
    | BadMode | BadKey | BadExpected | BadTime | BadRecord | NotInitialized | Disappeared
    | IdempotencyConflict | VersionConflict(current: Record)

  predicate ValidMode(mode: string) {
    mode == "LIVE" || mode == "MUTED"
  }

  predicate ValidKey(key: string) {
    key != "" && |key| <= MAX_KEY
  }

  /** The store's check on whatever it reads and before whatever it writes. */
  predicate ValidRecord(r: Record) {
    && ValidMode(r.mode)
    && r.version >= 0
    && (r.key.Some? ==> ValidKey(r.key.value))
    && r.updatedAt >= 0.0
  }

  function DefaultRecord(now: real): Record {
    Record("LIVE", 0, None, None, now)
  }

  predicate ValidRequest(q: Request) {
    ValidMode(q.mode) && ValidKey(q.key) && (q.expected.Some? ==> q.expected.value >= 0) && q.now >= 0.0
  }

  /** The request is not a retry of the last accepted command, and its expected version is current. */
  predicate Accepts(current: Record, q: Request) {
    ValidRequest(q) && current.key != Some(q.key) && (q.expected.Some? ==> q.expected.value == current.version)
  }

  function Successor(current: Record, q: Request): Record {
    Record(q.mode, current.version + 1, Some(q.newId), Some(q.key), q.now)
  }

  /** The published record after a request, accepted or not. */
  function After(current: Record, q: Request): Record {
    if Accepts(current, q) then Successor(current, q) else current
  }

  function Reply(current: Record, q: Request): Result<Record, ControlError> {
    if !ValidMode(q.mode) then Err(BadMode)
    else if !ValidKey(q.key) then Err(BadKey)
    else if q.expected.Some? && q.expected.value < 0 then Err(BadExpected)
    else if q.now < 0.0 then Err(BadTime)
    else if current.key == Some(q.key) then
      if current.mode != q.mode then Err(IdempotencyConflict) else Ok(current)
    else if q.expected.Some? && q.expected.value != current.version then Err(VersionConflict(current))
    else Ok(Successor(current, q))
  }

  class ControlStore {
    var file: File
    var initialized: bool

    constructor ()
      ensures file == Missing && !initialized
    {
      file, initialized := Missing, false;
    }

    method Read() returns (r: Result<Record, ControlError>)
      ensures r.Ok? ==> file == Holds(r.value) && ValidRecord(r.value)
      ensures r.Err? <==> !(file.Holds? && ValidRecord(file.record))
      ensures r.Err? ==>
                r.error == if file != Missing then BadRecord else if initialized then Disappeared else NotInitialized
    {
      match file
      case Missing => return Err(if initialized then Disappeared else NotInitialized);
      case Garbled => return Err(BadRecord);
      case Holds(record) =>
        if ValidRecord(record) {
          return Ok(record);
        }
        return Err(BadRecord);
    }

    /** A record that the reader would refuse is never published. */
    method Write(value: Record) returns (ok: bool)
      modifies this
      ensures ok <==> ValidRecord(value)
      ensures ok ==> file == Holds(value) && initialized
      ensures !ok ==> file == old(file) && initialized == old(initialized)
    {
      if !ValidRecord(value) {
        return false;
      }
      initialized := true;
      file := Holds(value);
      return true;
    }

    /** Creates the first record, but never re-creates one that was lost. */
    method Ensure(now: real) returns (ok: bool)
      modifies this
      ensures old(file) == Missing && !old(initialized) && now >= 0.0 ==>
                ok && file == Holds(Record("LIVE", 0, None, None, now))
      ensures old(file) == Missing && old(initialized) ==> !ok
      ensures !(old(file) == Missing && !old(initialized)) ==> file == old(file)
      ensures ok ==> initialized && file.Holds? && ValidRecord(file.record)
      ensures ok <==> || (old(file).Holds? && ValidRecord(old(file).record))
                      || (old(file) == Missing && !old(initialized) && now >= 0.0)
    {
      if file != Missing {
        var r := Read();
        if r.Err? {
          return false;
        }
        initialized := true;
        return true;
      }
      if initialized {
        return false;
      }
      if now < 0.0 {
        return false;
      }
      ok := Write(DefaultRecord(now));
    }

    method Update(q: Request) returns (r: Result<Record, ControlError>)
      modifies this
      ensures old(file).Holds? && ValidRecord(old(file).record) ==>
                r == Reply(old(file).record, q) && file == Holds(After(old(file).record, q))
      ensures !(old(file).Holds? && ValidRecord(old(file).record)) ==> file == old(file) && r.Err?
      ensures !(old(file).Holds? && ValidRecord(old(file).record)) && ValidRequest(q) ==>
                r.error == if old(file) != Missing then BadRecord
                           else if old(initialized) then Disappeared else NotInitialized
    {
      if q.mode !in {"LIVE", "MUTED"} {
        return Err(BadMode);
      }
      if q.key == "" || |q.key| > MAX_KEY {
        return Err(BadKey);
      }
      if q.expected.Some? && q.expected.value < 0 {
        return Err(BadExpected);
      }
      if q.now < 0.0 {
        return Err(BadTime);
      }
      r := Read();
      if r.Err? {
        return;
      }
      var current := r.value;
      if current.key == Some(q.key) {
        if current.mode != q.mode {
          return Err(IdempotencyConflict);
        }
        return Ok(current);
      }
      if q.expected.Some? && q.expected.value != current.version {
        return Err(VersionConflict(current));
      }
      var next := Record(q.mode, current.version + 1, Some(q.newId), Some(q.key), q.now);
      var ok := Write(next);
      return Ok(next);
    }
  }

  // ----- Reader -----

  datatype Command = Command(mode: string, version: int, commandId: Option<CommandId>)

  datatype Problem = Unavailable | Invalid

  const FALLBACK := Command("MUTED", 0, None)

  function CommandOf(r: Record): Command {
    Command(r.mode, r.version, r.commandId)
  }

  /** The reader's own validation of a parsed file. */
  function ReaderValidate(r: Record): Option<Command> {
    if r.mode != "LIVE" && r.mode != "MUTED" then None
    else if r.version < 0 then None
    else if r.key.Some? && (r.key.value == "" || |r.key.value| > 200) then None
    else if r.updatedAt < 0.0 then None
    else Some(Command(r.mode, r.version, r.commandId))
  }

  /** Store and reader accept exactly the same records. */
  lemma {:induction false} ValidatorsAgree(r: Record)
    ensures ReaderValidate(r) == if ValidRecord(r) then Some(CommandOf(r)) else None
  {
  }

  /** What a poll reports, and what the reader remembers afterwards. */
  function Poll(last: Option<Command>, file: File): (Command, Option<Command>, Option<Problem>) {
    var fallback := if last.Some? then last.value else FALLBACK;
    match file
    case Missing => (fallback, last, Some(Unavailable))
    case Garbled => (fallback, last, Some(Invalid))
    case Holds(r) =>
      var v := ReaderValidate(r);
      if v.None? then (fallback, last, Some(Invalid)) else (v.value, v, None)
  }

  class ControlStateReader {
    var lastValid: Option<Command>

    constructor ()
      ensures lastValid == None
    {
      lastValid := None;
    }

    method Read(file: File) returns (c: Command, problem: Option<Problem>)
      modifies this
      ensures (c, lastValid, problem) == Poll(old(lastValid), file)
    {
      if file == Missing {
        c := Fallback();
        return c, Some(Unavailable);
      }
      if file == Garbled || ReaderValidate(file.record).None? {
        c := Fallback();
        return c, Some(Invalid);
      }
      var current := ReaderValidate(file.record).value;
      lastValid := Some(current);
      return current, None;
    }

    method Fallback() returns (c: Command)
      ensures c == if lastValid.Some? then lastValid.value else FALLBACK
    {
      if lastValid.Some? {
        return lastValid.value;
      }
      return Command("MUTED", 0, None);
    }
  }

  // ----- Runs: updates interleaved with polls that may fail -----

  /** How one poll sees the file: as published, or as a transient fault. */
  datatype Op = Send(request: Request) | Look(fault: Option<Problem>)

  datatype State = State(published: seq<Record>, last: Option<Command>, reports: seq<Command>, seen: bool)

  predicate WellFormed(s: State) {
    s.published != []
  }

  function Current(s: State): Record
    requires WellFormed(s)
  {
    s.published[|s.published| - 1]
  }

  function Start(now: real): State {
    State([DefaultRecord(now)], None, [], false)
  }

  function Visible(r: Record, fault: Option<Problem>): File {
    match fault
    case None => Holds(r)
    case Some(Unavailable) => Missing
    case Some(Invalid) => Garbled
  }

  function Step(s: State, op: Op): (r: State)
    requires WellFormed(s)
    ensures WellFormed(r)
  {
    match op
    case Send(q) =>
      if Accepts(Current(s), q) then s.(published := s.published + [Successor(Current(s), q)]) else s
    case Look(fault) =>
      var (report, last, problem) := Poll(s.last, Visible(Current(s), fault));
      s.(last := last, reports := s.reports + [report], seen := s.seen || problem == None)
  }

  function Run(s: State, ops: seq<Op>): (r: State)
    requires WellFormed(s)
    ensures WellFormed(r)
    decreases |ops|
  {
    if ops == [] then s else Run(Step(s, ops[0]), ops[1..])
  }

  /** How many requests of a run are accepted. */
  function Accepted(s: State, ops: seq<Op>): nat
    requires WellFormed(s)
    decreases |ops|
  {
    if ops == [] then 0
    else (if ops[0].Send? && Accepts(Current(s), ops[0].request) then 1 else 0) + Accepted(Step(s, ops[0]), ops[1..])
  }

  ghost predicate IsPublished(c: Command, published: seq<Record>) {
    exists i :: 0 <= i < |published| && CommandOf(published[i]) == c
  }

  /** What every reachable state satisfies. */
  ghost predicate Inv(s: State) {
    && WellFormed(s)
    && (forall i :: 0 <= i < |s.published| ==> ValidRecord(s.published[i]) && s.published[i].version == i)
    && (s.last.Some? <==> s.seen)
    && (s.last.Some? ==> IsPublished(s.last.value, s.published))
    && (forall i, j :: 0 <= i < j < |s.reports| ==> s.reports[i].version <= s.reports[j].version)
    && (forall i :: 0 <= i < |s.reports| ==>
          s.reports[i].version <= (if s.last.Some? then s.last.value.version else 0))
  }

  lemma {:induction false} StepKeepsInv(s: State, op: Op)
    requires Inv(s)
    ensures Inv(Step(s, op))
    ensures s.published <= Step(s, op).published
  {
    var t := Step(s, op);
    match op
    case Send(q) =>
      if s.last.Some? {
        var i :| 0 <= i < |s.published| && CommandOf(s.published[i]) == s.last.value;
        assert CommandOf(t.published[i]) == s.last.value;
      }
    case Look(fault) =>
      ValidatorsAgree(Current(s));
      if s.last.Some? {
        var i :| 0 <= i < |s.published| && CommandOf(s.published[i]) == s.last.value;
        assert s.last.value.version == i;
      }
      if fault == None {
        assert CommandOf(s.published[|s.published| - 1]) == t.last.value;
      }
  }

  lemma {:induction false} RunKeepsInv(s: State, ops: seq<Op>)
    requires Inv(s)
    ensures Inv(Run(s, ops)) && s.published <= Run(s, ops).published
    decreases |ops|
  {
    if ops != [] {
      StepKeepsInv(s, ops[0]);
      RunKeepsInv(Step(s, ops[0]), ops[1..]);
    }
  }

  /** The version counts the accepted commands. */
  lemma {:induction false} VersionCountsAccepted(s: State, ops: seq<Op>)
    requires Inv(s)
    ensures Current(Run(s, ops)).version == Current(s).version + Accepted(s, ops)
    decreases |ops|
  {
    if ops != [] {
      StepKeepsInv(s, ops[0]);
      VersionCountsAccepted(Step(s, ops[0]), ops[1..]);
    }
  }

  /** The properties of a run from the first record on. */
  lemma {:induction false} RunFromStart(now: real, ops: seq<Op>)
    requires now >= 0.0
    ensures Start(now).published == [Record("LIVE", 0, None, None, now)]
    ensures Inv(Start(now)) && Inv(Run(Start(now), ops))
    ensures Current(Run(Start(now), ops)).version == Accepted(Start(now), ops)
  {
    RunKeepsInv(Start(now), ops);
    VersionCountsAccepted(Start(now), ops);
  }

  /** Whatever a reader reports after its first success is a command that was published. */
  lemma {:induction false} ReportsArePublished(now: real, before: seq<Op>, fault: Option<Problem>)
    requires now >= 0.0
    ensures var s := Run(Start(now), before);
            var t := Step(s, Look(fault));
            var report := t.reports[|t.reports| - 1];
            && (t.seen ==> IsPublished(report, t.published))
            && (!t.seen ==> report == FALLBACK)
            && (fault == None ==> report == Command(Current(s).mode, Current(s).version, Current(s).commandId))
            && Poll(s.last, Visible(Current(s), fault)).2 == fault
  {
    var s := Run(Start(now), before);
    RunFromStart(now, before);
    StepKeepsInv(s, Look(fault));
    ValidatorsAgree(Current(s));
  }

  // ----- What is published -----

  /** The requests that a run accepts, in order. */
  function AcceptedRequests(s: State, ops: seq<Op>): (qs: seq<Request>)
    requires WellFormed(s)
    ensures |qs| == Accepted(s, ops)
    decreases |ops|
  {
    if ops == [] then []
    else (if ops[0].Send? && Accepts(Current(s), ops[0].request) then [ops[0].request] else [])
         + AcceptedRequests(Step(s, ops[0]), ops[1..])
  }

  /** The record that carries a request, and nothing of the record before it but the next version. */
  predicate Carries(r: Record, q: Request, version: int) {
    r.mode == q.mode && r.version == version && r.commandId == Some(q.newId) && r.key == Some(q.key) && r.updatedAt == q.now
  }

  /**
   * A run publishes one record for each request it accepts, in order and with consecutive versions, and
   * each carries the mode, the key, the new command identifier and the time of its own request.
   */
  lemma {:induction false} RunPublishes(s: State, ops: seq<Op>)
    requires Inv(s)
    ensures var qs, t := AcceptedRequests(s, ops), Run(s, ops);
            && |t.published| == |s.published| + |qs| && s.published <= t.published
            && forall i :: |s.published| <= i < |t.published| ==> Carries(t.published[i], qs[i - |s.published|], i)
    decreases |ops|
  {
    if ops != [] {
      var next := Step(s, ops[0]);
      StepKeepsInv(s, ops[0]);
      RunPublishes(next, ops[1..]);
    }
  }

  /** Of the commands that name one expected version, at most one is accepted in any run. */
  lemma {:induction false} OneWinnerPerVersion(s: State, first: Request, between: seq<Op>, second: Request)
    requires Inv(s) && Accepts(Current(s), first) && first.expected.Some? && second.expected == first.expected
    ensures !Accepts(Current(Run(Step(s, Send(first)), between)), second)
  {
    StepKeepsInv(s, Send(first));
    VersionCountsAccepted(Step(s, Send(first)), between);
  }

  // ----- Retries -----

  /**
   * Reply and stored record go together: a successful reply is the record that is now published, a refusal
   * publishes nothing, and the two conflicts are told apart by the key alone.
   */
  lemma {:induction false} ReplyMatchesStore(current: Record, q: Request)
    ensures Reply(current, q).Ok? ==> Reply(current, q).value == After(current, q)
    ensures Reply(current, q).Err? ==> After(current, q) == current
    ensures Reply(current, q) == Err(IdempotencyConflict) <==>
            ValidRequest(q) && current.key == Some(q.key) && current.mode != q.mode
    ensures Reply(current, q) == Err(VersionConflict(current)) <==>
            ValidRequest(q) && current.key != Some(q.key) && q.expected.Some? && q.expected.value != current.version
  {
  }

  /** An immediate retry returns the same record and changes nothing, whatever version it expects. */
  lemma {:induction false} ImmediateRetry(current: Record, q: Request, retry: Request)
    requires Accepts(current, q) && ValidRequest(retry) && retry.mode == q.mode && retry.key == q.key
    ensures Reply(After(current, q), retry) == Ok(After(current, q)) == Reply(current, q)
    ensures After(After(current, q), retry) == After(current, q)
  {
  }

  /** When a request leaves a record alone. */
  lemma {:induction false} LeavesRecord(current: Record, q: Request)
    requires ValidRequest(q)
    ensures After(current, q) == current <==>
            current.key == Some(q.key) || (q.expected.Some? && q.expected.value != current.version)
  {
  }

  /**
   * A request that was accepted may be repeated after any run of other requests and polls. The repetition
   * changes nothing if and only if the request named the version it expected, or its key is still the last
   * accepted one: only the last key is remembered.
   */
  lemma {:induction false} LateRetry(s: State, q: Request, between: seq<Op>)
    requires Inv(s) && Accepts(Current(s), q)
    ensures var c := Current(Run(Step(s, Send(q)), between));
            After(c, q) == c <==> q.expected.Some? || c.key == Some(q.key)
  {
    var t := Step(s, Send(q));
    StepKeepsInv(s, Send(q));
    VersionCountsAccepted(t, between);
    RunKeepsInv(t, between);
    assert Current(t).version == Current(s).version + 1;
    LeavesRecord(Current(Run(t, between)), q);
  }

  /** Without an expected version the repetition is executed again once another command came between. */
  lemma {:induction false} ForgottenKey(current: Record, q: Request, other: Request)
    requires Accepts(current, q) && q.expected == None
    requires Accepts(After(current, q), other)
    ensures After(After(After(current, q), other), q).version == current.version + 3
  {
  }
}

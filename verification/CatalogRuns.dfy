/**
 * Every interleaving of concurrent creations, edits, deletions and verifications. A verification is
 * three steps: it reads URL and type, the probe answers, and the verdict is written back. Record
 * identifiers are never reused, as for random UUIDs.
 */
module CatalogRuns {
  import opened Prelude
  import opened Catalog

  datatype Flight = Flight(id: Id, user: string, url: Url, kind: string, verdict: Option<Result<Transport, string>>)

  /** A probe that was really sent. */
  datatype Sent = Sent(url: Url, answer: Probe)

  /** `kinds` remembers the type of every record ever created, `sent` every probe ever sent. */
  datatype State = State(ds: Destinations, kinds: map<Id, string>, flights: map<nat, Flight>, sent: seq<Sent>)

  datatype Event =
    | Create(id: Id, user: string, kind: string, name: string, url: Url, secretRef: string, now: real)
    | Update(id: Id, user: string, patch: Patch, now: real)
    | Remove(id: Id, user: string)
    | Begin(flight: nat, id: Id, user: string)
    | Answer(flight: nat, probe: Probe)
    | Finish(flight: nat, now: real)

  const START := State(map[], map[], map[], [])

  function Step(s: State, e: Event): State {
    match e
    case Create(id, user, kind, name, url, secretRef, now) =>
      if id in s.kinds then s
      else
        var (ds, r) := Created(s.ds, id, user, kind, name, url, secretRef, now);
        if r.Ok? then s.(ds := ds, kinds := s.kinds[id := kind]) else s
    case Update(id, user, patch, now) => s.(ds := Updated(s.ds, id, user, patch, now).0)
    case Remove(id, user) => s.(ds := Deleted(s.ds, id, user).0)
    case Begin(f, id, user) =>
      if f in s.flights || !Owned(s.ds, id, user) then s
      else s.(flights := s.flights[f := Flight(id, user, s.ds[id].url, Lower(s.ds[id].kind), None)])
    case Answer(f, probe) =>
      if f !in s.flights || s.flights[f].verdict.Some? then s
      else
        var v := s.flights[f];
        var verdict := Judge(v.url, v.kind, probe);
        // A URL whose scheme does not fit the type is refused without sending a probe.
        s.(flights := s.flights[f := v.(verdict := Some(verdict))],
           sent := if Lower(v.url.scheme) != v.kind then s.sent else s.sent + [Sent(v.url, probe)])
    case Finish(f, now) =>
      if f !in s.flights || s.flights[f].verdict.None? then s
      else
        var v := s.flights[f];
        s.(ds := Stamped(s.ds, v.id, v.user, v.url, v.verdict.value, now).0, flights := s.flights - {f})
  }

  function Run(s: State, events: seq<Event>): State
    decreases |events|
  {
    if events == [] then s else Run(Step(s, events[0]), events[1..])
  }

  // ----- What a record may say -----

  /** Some probe of exactly this URL reached a peer over the transport. */
  predicate Reachable(url: Url, t: Transport, sent: seq<Sent>) {
    Sent(url, Reached(t)) in sent
  }

  predicate Fits(url: Url, kind: string, t: Transport) {
    Lower(url.scheme) == Lower(kind) && Lower(t.protocol) == Lower(kind)
  }

  predicate Confirmed(url: Url, kind: string, t: Transport, sent: seq<Sent>) {
    Fits(url, kind, t) && Reachable(url, t, sent)
  }

  /** The reason of a failed verification of exactly this URL. */
  ghost predicate Explained(url: Url, kind: string, reason: string, sent: seq<Sent>) {
    || (Lower(url.scheme) != Lower(kind) && reason == TYPE_MISMATCH)
    || exists p :: Sent(url, p) in sent && Judge(url, Lower(kind), p) == Err(reason)
  }

  ghost predicate Truthful(d: Destination, sent: seq<Sent>) {
    && (d.status == Verified ==>
          && d.transport.Some? && Confirmed(d.url, d.kind, d.transport.value, sent)
          && d.lastVerifiedAt.Some? && d.lastError == None)
    && (d.status != Verified ==> d.transport == None)
    && (d.lastVerifiedAt.Some? ==> exists t :: Confirmed(d.url, d.kind, t, sent))
    && (d.status == Failed ==>
          d.lastError.Some? && exists reason :: Explained(d.url, d.kind, reason, sent) && d.lastError.value == Clip(reason))
    && (d.status == Unverified ==> d.lastVerifiedAt == None && d.lastError == None)
  }

  ghost predicate FlightTruthful(v: Flight, kinds: map<Id, string>, sent: seq<Sent>) {
    && v.id in kinds && v.kind == Lower(kinds[v.id])
    && (v.verdict.Some? ==>
          match v.verdict.value
          case Ok(t) => Confirmed(v.url, kinds[v.id], t, sent)
          case Err(reason) => Explained(v.url, kinds[v.id], reason, sent))
  }

  ghost predicate Inv(s: State) {
    && ValidCatalog(s.ds)
    && (forall id :: id in s.ds ==> id in s.kinds && s.ds[id].kind == s.kinds[id] && Truthful(s.ds[id], s.sent))
    && (forall f :: f in s.flights ==> FlightTruthful(s.flights[f], s.kinds, s.sent))
  }

  // ----- Preservation -----

  /** Putting a truthful record of a known type into the catalog keeps the invariant. */
  lemma {:induction false} PutKeeps(s: State, id: Id, d: Destination)
    requires Inv(s) && id in s.kinds && d.kind == s.kinds[id] && ValidRecord(id, d) && Truthful(d, s.sent)
    ensures Inv(s.(ds := s.ds[id := d]))
  {
    ValidWithOne(s.ds, id, d);
  }

  lemma {:induction false} NewKindKeeps(s: State, id: Id, kind: string)
    requires Inv(s) && id !in s.kinds
    ensures Inv(s.(kinds := s.kinds[id := kind]))
  {
    var kinds := s.kinds[id := kind];
    forall f | f in s.flights ensures FlightTruthful(s.flights[f], kinds, s.sent) {
      assert FlightTruthful(s.flights[f], s.kinds, s.sent);
    }
  }

  lemma {:induction false} CreateKeeps(s: State, e: Event)
    requires Inv(s) && e.Create?
    ensures Inv(Step(s, e))
  {
    var (ds, r) := Created(s.ds, e.id, e.user, e.kind, e.name, e.url, e.secretRef, e.now);
    if e.id !in s.kinds && r.Ok? {
      NewKindKeeps(s, e.id, e.kind);
      PutKeeps(s.(kinds := s.kinds[e.id := e.kind]), e.id, r.value);
    }
  }

  /** An edit keeps the verification fields only together with the URL they are about. */
  lemma {:induction false} PatchTruthful(d: Destination, p: Patch, now: real, sent: seq<Sent>)
    requires Truthful(d, sent)
    ensures Truthful(Patched(d, p, now), sent)
  {
  }

  lemma {:induction false} UpdateKeeps(s: State, e: Event)
    requires Inv(s) && e.Update?
    ensures Inv(Step(s, e))
  {
    var (ds, r) := Updated(s.ds, e.id, e.user, e.patch, e.now);
    if r.Ok? {
      PatchTruthful(s.ds[e.id], e.patch, e.now, s.sent);
      PutKeeps(s, e.id, r.value);
    }
  }

  lemma {:induction false} MoreProbes(d: Destination, sent: seq<Sent>, more: Sent)
    requires Truthful(d, sent)
    ensures Truthful(d, sent + [more])
  {
    if d.lastVerifiedAt.Some? {
      var t :| Confirmed(d.url, d.kind, t, sent);
      assert Confirmed(d.url, d.kind, t, sent + [more]);
    }
    if d.status == Failed {
      var reason :| Explained(d.url, d.kind, reason, sent) && d.lastError.value == Clip(reason);
      ExplainedLater(d.url, d.kind, reason, sent, more);
    }
  }

  lemma {:induction false} ExplainedLater(url: Url, kind: string, reason: string, sent: seq<Sent>, more: Sent)
    requires Explained(url, kind, reason, sent)
    ensures Explained(url, kind, reason, sent + [more])
  {
    if !(Lower(url.scheme) != Lower(kind) && reason == TYPE_MISMATCH) {
      var p :| Sent(url, p) in sent && Judge(url, Lower(kind), p) == Err(reason);
      assert Sent(url, p) in sent + [more];
    }
  }

  lemma {:induction false} FlightLater(v: Flight, kinds: map<Id, string>, sent: seq<Sent>, more: Sent)
    requires FlightTruthful(v, kinds, sent)
    ensures FlightTruthful(v, kinds, sent + [more])
  {
    if v.verdict.Some? && v.verdict.value.Err? {
      ExplainedLater(v.url, kinds[v.id], v.verdict.value.error, sent, more);
    }
  }

  lemma {:induction false} AnswerKeeps(s: State, e: Event)
    requires Inv(s) && e.Answer?
    ensures Inv(Step(s, e))
  {
    if e.flight in s.flights && s.flights[e.flight].verdict.None? {
      var v := s.flights[e.flight];
      var t := Step(s, e);
      if Lower(v.url.scheme) == v.kind {
        var more := Sent(v.url, e.probe);
        forall id | id in s.ds ensures Truthful(s.ds[id], t.sent) {
          MoreProbes(s.ds[id], s.sent, more);
        }
        forall f | f in s.flights ensures FlightTruthful(s.flights[f], s.kinds, t.sent) {
          FlightLater(s.flights[f], s.kinds, s.sent, more);
        }
        assert more in t.sent;
      }
      VerdictTruthful(v, s.kinds, t.sent, e.probe);
    }
  }

  lemma {:induction false} VerdictTruthful(v: Flight, kinds: map<Id, string>, sent: seq<Sent>, probe: Probe)
    requires v.id in kinds && v.kind == Lower(kinds[v.id])
    requires Lower(v.url.scheme) == v.kind ==> Sent(v.url, probe) in sent
    ensures FlightTruthful(v.(verdict := Some(Judge(v.url, v.kind, probe))), kinds, sent)
  {
  }

  lemma {:induction false} StampTruthful(
      d: Destination, url: Url, verdict: Result<Transport, string>, now: real, sent: seq<Sent>)
    requires Truthful(d, sent) && d.url == url
    requires match verdict
             case Ok(t) => Confirmed(url, d.kind, t, sent)
             case Err(reason) => Explained(url, d.kind, reason, sent)
    ensures match verdict
            case Ok(t) => Truthful(d.(status := Verified, lastVerifiedAt := Some(now), lastError := None,
                                      transport := Some(t), updatedAt := now), sent)
            case Err(reason) => Truthful(d.(status := Failed, lastError := Some(Clip(reason)), transport := None,
                                            updatedAt := now), sent)
  {
  }

  /** Writing a verdict back leaves the catalog alone or replaces the one record it is about. */
  lemma {:induction false} StampCases(ds: Destinations, v: Flight, now: real, sent: seq<Sent>)
    requires ValidCatalog(ds) && v.verdict.Some?
    requires v.id in ds ==> Truthful(ds[v.id], sent)
    requires v.id in ds ==>
               match v.verdict.value
               case Ok(t) => Confirmed(v.url, ds[v.id].kind, t, sent)
               case Err(reason) => Explained(v.url, ds[v.id].kind, reason, sent)
    ensures var after := Stamped(ds, v.id, v.user, v.url, v.verdict.value, now).0;
            after == ds ||
            (v.id in ds && v.id in after && after == ds[v.id := after[v.id]] && ValidRecord(v.id, after[v.id])
             && after[v.id].kind == ds[v.id].kind && Truthful(after[v.id], sent))
  {
    if Owned(ds, v.id, v.user) && ds[v.id].url == v.url {
      StampTruthful(ds[v.id], v.url, v.verdict.value, now, sent);
    }
  }

  lemma {:induction false} LandKeeps(s: State, f: nat)
    requires Inv(s)
    ensures Inv(s.(flights := s.flights - {f}))
  {
  }

  lemma {:induction false} FinishKeeps(s: State, e: Event)
    requires Inv(s) && e.Finish?
    ensures Inv(Step(s, e))
  {
    if e.flight in s.flights && s.flights[e.flight].verdict.Some? {
      var v := s.flights[e.flight];
      assert FlightTruthful(v, s.kinds, s.sent);
      StampCases(s.ds, v, e.now, s.sent);
      LandKeeps(s, e.flight);
      var after := Stamped(s.ds, v.id, v.user, v.url, v.verdict.value, e.now).0;
      if after != s.ds {
        PutKeeps(s.(flights := s.flights - {e.flight}), v.id, after[v.id]);
      }
    }
  }

  lemma {:induction false} StepKeeps(s: State, e: Event)
    requires Inv(s)
    ensures Inv(Step(s, e))
  {
    match e
    case Create(_, _, _, _, _, _, _) => CreateKeeps(s, e);
    case Update(_, _, _, _) => UpdateKeeps(s, e);
    case Remove(_, _) =>
    case Begin(_, _, _) =>
    case Answer(_, _) => AnswerKeeps(s, e);
    case Finish(_, _) => FinishKeeps(s, e);
  }

  lemma {:induction false} RunKeeps(s: State, events: seq<Event>)
    requires Inv(s)
    ensures Inv(Run(s, events))
    decreases |events|
  {
    if events != [] {
      StepKeeps(s, events[0]);
      RunKeeps(Step(s, events[0]), events[1..]);
    }
  }

  /**
   * Under every interleaving, from the empty catalog on: a VERIFIED record carries the transport of
   * a probe that reached exactly its current URL, with the protocol of its type, a verification time
   * and no error. A FAILED record carries the reason of a failed verification of exactly its URL.
   */
  lemma {:induction false} RecordsAreTruthful(events: seq<Event>, id: Id)
    requires id in Run(START, events).ds
    ensures Truthful(Run(START, events).ds[id], Run(START, events).sent)
  {
    RunKeeps(START, events);
  }

  /** The three steps without interference are the verification that the store offers as one operation. */
  lemma {:induction false} StepsMakeVerification(s: State, f: nat, id: Id, user: string, probe: Probe, now: real)
    requires f !in s.flights && Owned(s.ds, id, user)
    ensures var url, kind := s.ds[id].url, Lower(s.ds[id].kind);
            var after := Step(Step(Step(s, Begin(f, id, user)), Answer(f, probe)), Finish(f, now));
            && after.ds == Stamped(s.ds, id, user, url, Judge(url, kind, probe), now).0
            && after.flights == s.flights && after.kinds == s.kinds
            && (after.sent == s.sent || after.sent == s.sent + [Sent(url, probe)])
  {
    assert (s.flights[f := Flight(id, user, s.ds[id].url, Lower(s.ds[id].kind), None)] - {f}) == s.flights;
  }

  /** A verification that nothing disturbs. */
  function Verification(s: State, f: nat, id: Id, user: string, probe: Probe, now: real): State {
    Step(Step(Step(s, Begin(f, id, user)), Answer(f, probe)), Finish(f, now))
  }

  /** No record but this one differs. */
  predicate OnlyChanges(before: Destinations, after: Destinations, id: Id) {
    && before.Keys == after.Keys
    && forall other :: other in before && other != id ==> after[other] == before[other]
  }

  /** Fields that no verification touches. */
  predicate SameRequest(d: Destination, e: Destination) {
    && d.id == e.id && d.user == e.user && d.kind == e.kind && d.name == e.name && d.url == e.url
    && d.secretRef == e.secretRef && d.enabled == e.enabled && d.createdAt == e.createdAt
  }

  /** Undisturbed, a fitting answer from the current URL does make the record VERIFIED. */
  lemma {:induction false} SuccessIsRecorded(s: State, f: nat, id: Id, user: string, t: Transport, now: real)
    requires Inv(s) && f !in s.flights && Owned(s.ds, id, user) && now >= 0.0
    requires Fits(s.ds[id].url, s.ds[id].kind, t)
    ensures var after := Verification(s, f, id, user, Reached(t), now).ds;
            && OnlyChanges(s.ds, after, id) && SameRequest(s.ds[id], after[id])
            && after[id].status == Verified && after[id].transport == Some(t) && after[id].lastError == None
            && after[id].lastVerifiedAt == Some(now) && after[id].updatedAt == now
  {
    StepsMakeVerification(s, f, id, user, Reached(t), now);
  }

  /** Why an answer is no verification of a record with this URL and type. */
  function Failure(url: Url, kind: string, probe: Probe): Option<string> {
    if Lower(url.scheme) != Lower(kind) then Some("destination type does not match server URL scheme")
    else if probe.Crashed? then Some("destination verification failed")
    else if probe.Refused? then Some(probe.reason)
    else if Lower(probe.transport.protocol) != Lower(kind) then
      Some("destination probe protocol does not match destination type")
    else None
  }

  /** Undisturbed, every other answer makes the record FAILED, whatever it said before. */
  lemma {:induction false} FailureIsRecorded(s: State, f: nat, id: Id, user: string, probe: Probe, now: real)
    requires Inv(s) && f !in s.flights && Owned(s.ds, id, user) && now >= 0.0
    requires Failure(s.ds[id].url, s.ds[id].kind, probe).Some?
    ensures var after := Verification(s, f, id, user, probe, now).ds;
            var reason := Failure(s.ds[id].url, s.ds[id].kind, probe).value;
            && OnlyChanges(s.ds, after, id) && SameRequest(s.ds[id], after[id])
            && after[id].status == Failed && after[id].transport == None
            && after[id].lastError == Some(if |reason| > 200 then reason[..200] else reason)
            && after[id].lastVerifiedAt == s.ds[id].lastVerifiedAt && after[id].updatedAt == now
  {
    StepsMakeVerification(s, f, id, user, probe, now);
    FailureIsStamped(s.ds, id, user, probe, now);
  }

  lemma {:induction false} FailureIsStamped(ds: Destinations, id: Id, user: string, probe: Probe, now: real)
    requires ValidCatalog(ds) && Owned(ds, id, user) && now >= 0.0 && Failure(ds[id].url, ds[id].kind, probe).Some?
    ensures var reason := Failure(ds[id].url, ds[id].kind, probe).value;
            Stamped(ds, id, user, ds[id].url, Judge(ds[id].url, Lower(ds[id].kind), probe), now).0
            == ds[id := ds[id].(status := Failed, transport := None, updatedAt := now,
                                lastError := Some(if |reason| > 200 then reason[..200] else reason))]
  {
  }

  /** The reply to an undisturbed verification, and the one way in which its result is not written. */
  lemma {:induction false} VerificationReply(ds: Destinations, id: Id, user: string, probe: Probe, now: real)
    requires ValidCatalog(ds) && Owned(ds, id, user)
    ensures var url, kind := ds[id].url, ds[id].kind;
            var (after, r) := Stamped(ds, id, user, url, Judge(url, Lower(kind), probe), now);
            if now < 0.0 then after == ds && r == Err(StateError)
            else id in after && r == match Failure(url, kind, probe)
                                     case None => Ok(after[id])
                                     case Some(reason) => Err(VerifyFailed(reason))
  {
  }

  /** A result for one URL is never stamped on another: an edit in between makes the verdict void. */
  lemma {:induction false} StaleVerdictIsVoid(ds: Destinations, id: Id, user: string, url: Url,
                                              verdict: Result<Transport, string>, now: real)
    requires Owned(ds, id, user) && ds[id].url != url
    ensures Stamped(ds, id, user, url, verdict, now).0 == ds && Stamped(ds, id, user, url, verdict, now).1.Err?
    ensures ValidCatalog(ds) ==>
              Stamped(ds, id, user, url, verdict, now).1
              == Err(VerifyFailed(if verdict.Ok? then "destination changed during verification" else verdict.error))
  {
  }

  // ----- Creations, edits and deletions -----

  /** A creation adds one enabled, unverified record with what was asked for, or is refused. */
  lemma {:induction false} CreationIsExact(ds: Destinations, e: Event)
    requires ValidCatalog(ds) && e.Create? && e.id !in ds
    ensures var (after, r) := Created(ds, e.id, e.user, e.kind, e.name, e.url, e.secretRef, e.now);
            && (r.Ok? <==> && e.url.safe && e.now >= 0.0 && (e.url.scheme != "" || e.url.rest != "")
                           && e.id != "" && e.user != "" && e.kind != "" && e.name != "" && e.secretRef != "")
            && (r.Err? ==> after == ds && r.error == if e.url.safe then StateError else UnsafeUrl)
            && (r.Ok? ==>
                  var d := r.value;
                  && after == ds[e.id := d] && d.id == e.id && d.user == e.user && d.kind == e.kind
                  && d.name == e.name && d.url == e.url && d.secretRef == e.secretRef && d.enabled
                  && d.status == Unverified && d.lastVerifiedAt == None && d.lastError == None && d.transport == None
                  && d.createdAt == e.now && d.updatedAt == e.now)
  {
  }

  /** An edit of an owned record changes what it names, and resets the verification when the URL moves. */
  lemma {:induction false} EditIsExact(ds: Destinations, id: Id, user: string, p: Patch, now: real)
    requires ValidCatalog(ds) && Owned(ds, id, user) && Updated(ds, id, user, p, now).1.Ok?
    ensures var (after, r) := Updated(ds, id, user, p, now);
            var d, e := ds[id], r.value;
            && after == ds[id := e] && now >= 0.0 && e.updatedAt == now
            && e.name == Asked(p.name, d.name) && e.url == Asked(p.url, d.url)
            && e.secretRef == Asked(p.secretRef, d.secretRef) && e.enabled == Asked(p.enabled, d.enabled)
            && e.id == d.id && e.user == d.user && e.kind == d.kind && e.createdAt == d.createdAt
            && (if e.url == d.url then
                  && e.status == d.status && e.lastVerifiedAt == d.lastVerifiedAt
                  && e.lastError == d.lastError && e.transport == d.transport
                else e.status == Unverified && e.lastVerifiedAt == None && e.lastError == None && e.transport == None)
  {
  }

  function Asked<T>(wish: Option<T>, current: T): T {
    match wish
    case None => current
    case Some(value) => value
  }

  /** When an edit is refused, and with what. A refused edit changes nothing. */
  lemma {:induction false} EditIsRefused(ds: Destinations, id: Id, user: string, p: Patch, now: real)
    requires ValidCatalog(ds)
    ensures var (after, r) := Updated(ds, id, user, p, now);
            && (r.Err? ==> after == ds)
            && (p.url.Some? && !p.url.value.safe ==> r == Err(UnsafeUrl))
            && (Asked(p.url, Url("", "", true)).safe && (id !in ds || ds[id].user != user) ==> r == Err(NotFound))
            && (Asked(p.url, Url("", "", true)).safe && id in ds && ds[id].user == user ==>
                  (r == Err(StateError) <==>
                     || now < 0.0 || p.name == Some("") || p.secretRef == Some("")
                     || (p.url.Some? && p.url.value.scheme == "" && p.url.value.rest == ""))
                  && (r.Err? ==> r == Err(StateError)))
  {
  }

  /** A deletion by the owner succeeds, removes this record only, and no run brings it back. */
  lemma {:induction false} DeletionIsFinal(s: State, id: Id, user: string, later: seq<Event>)
    requires Inv(s) && Owned(s.ds, id, user)
    ensures var after := Step(s, Remove(id, user));
            && Deleted(s.ds, id, user) == (after.ds, Ok(()))
            && after.ds.Keys == s.ds.Keys - {id}
            && (forall other :: other in after.ds ==> after.ds[other] == s.ds[other])
            && id !in Run(after, later).ds
  {
    var after := Step(s, Remove(id, user));
    StepKeeps(s, Remove(id, user));
    StaysAway(after, id, later);
  }

  lemma {:induction false} StaysAway(s: State, id: Id, events: seq<Event>)
    requires id in s.kinds && id !in s.ds
    ensures id !in Run(s, events).ds
    decreases |events|
  {
    if events != [] {
      StaysAway(Step(s, events[0]), id, events[1..]);
    }
  }

  /** The user on whose behalf an event is, if it is one that may change a record. */
  function Acting(s: State, e: Event): Option<string> {
    match e
    case Create(_, _, _, _, _, _, _) => None
    case Update(_, user, _, _) => Some(user)
    case Remove(_, user) => Some(user)
    case Begin(_, _, _) => None
    case Answer(_, _) => None
    case Finish(f, _) => if f in s.flights then Some(s.flights[f].user) else None
  }

  /** In this run nothing is done on behalf of the user. */
  predicate Absent(s: State, events: seq<Event>, user: string)
    decreases |events|
  {
    events != [] ==> Acting(s, events[0]) != Some(user) && Absent(Step(s, events[0]), events[1..], user)
  }

  /** Whatever others do, however it interleaves, the records of a user stay as they are. */
  lemma {:induction false} OthersCannotTouch(s: State, events: seq<Event>, id: Id, user: string)
    requires Inv(s) && Owned(s.ds, id, user) && Absent(s, events, user)
    ensures id in Run(s, events).ds && Run(s, events).ds[id] == s.ds[id]
    decreases |events|
  {
    if events != [] {
      StepKeeps(s, events[0]);
      OthersStep(s, events[0], id, user);
      OthersCannotTouch(Step(s, events[0]), events[1..], id, user);
    }
  }

  lemma {:induction false} OthersStep(s: State, e: Event, id: Id, user: string)
    requires Inv(s) && Owned(s.ds, id, user) && Acting(s, e) != Some(user)
    ensures id in Step(s, e).ds && Step(s, e).ds[id] == s.ds[id]
  {
    if e.Finish? {
      if e.flight in s.flights && s.flights[e.flight].verdict.Some? {
        var v := s.flights[e.flight];
        StampOfAnother(s.ds, v.id, v.user, v.url, v.verdict.value, e.now, id, user);
      }
    } else if e.Create? {
      assert id in s.kinds;
    }
  }

  lemma {:induction false} StampOfAnother(
      ds: Destinations, id: Id, user: string, url: Url, verdict: Result<Transport, string>, now: real,
      own: Id, owner: string)
    requires Owned(ds, own, owner) && user != owner
    ensures own in Stamped(ds, id, user, url, verdict, now).0
    ensures Stamped(ds, id, user, url, verdict, now).0[own] == ds[own]
  {
  }
}

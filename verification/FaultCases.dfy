/** Building the matrix, selecting from it, and the check that a case can be regenerated. */
module FaultCases {
  import opened Prelude
  import opened FaultPlan
  import opened FaultMatrix

  // ----- The profiles of one protocol -----

  function LossProfiles(): seq<Profile> {
    seq(|LOSS_PERCENT_CHOICES|, i requires 0 <= i < |LOSS_PERCENT_CHOICES| => Loss(LOSS_PERCENT_CHOICES[i]))
  }

  function BurstProfiles(xs: seq<Pair>): seq<Profile> {
    seq(|xs|, i requires 0 <= i < |xs| => Burst(xs[i].first, xs[i].second))
  }

  function LatencyProfiles(): seq<Profile> {
    seq(|LATENCY_MS_CHOICES|, i requires 0 <= i < |LATENCY_MS_CHOICES| => Latency(LATENCY_MS_CHOICES[i]))
  }

  function JitterProfiles(xs: seq<Pair>): seq<Profile> {
    seq(|xs|, i requires 0 <= i < |xs| => Jitter(xs[i].first, xs[i].second))
  }

  function BandwidthProfiles(xs: seq<int>): seq<Profile> {
    seq(|xs|, i requires 0 <= i < |xs| => Bandwidth(xs[i]))
  }

  function DisconnectProfiles(): seq<Profile> {
    seq(|DURATION_SECONDS_CHOICES|,
        i requires 0 <= i < |DURATION_SECONDS_CHOICES| => Disconnect(DURATION_SECONDS_CHOICES[i]))
  }

  /** What one protocol is expanded into, in order. */
  function Profiles(r: Request): seq<Profile> {
    LossProfiles() + (BurstProfiles(r.bursts) + (LatencyProfiles()
    + (JitterProfiles(r.jitters) + (BandwidthProfiles(r.bandwidths) + DisconnectProfiles()))))
  }

  predicate Asked(r: Request, p: Profile) {
    match p
    case Loss(percent) => percent in LOSS_PERCENT_CHOICES
    case Burst(percent, correlation) => Pair(percent, correlation) in r.bursts
    case Latency(ms) => ms in LATENCY_MS_CHOICES
    case Jitter(ms, jitter) => Pair(ms, jitter) in r.jitters
    case Bandwidth(kbit) => kbit in r.bandwidths
    case Disconnect(seconds) => seconds in DURATION_SECONDS_CHOICES
  }

  lemma {:induction false} MemberOfSum<T>(a: seq<T>, b: seq<T>, x: T)
    ensures x in a + b <==> x in a || x in b
  {
  }

  lemma {:induction false} MemberOfParts(r: Request, p: Profile)
    ensures p in LossProfiles() <==> p.Loss? && Asked(r, p)
    ensures p in BurstProfiles(r.bursts) <==> p.Burst? && Asked(r, p)
    ensures p in LatencyProfiles() <==> p.Latency? && Asked(r, p)
  {
    if p.Loss? && Asked(r, p) {
      var i :| 0 <= i < |LOSS_PERCENT_CHOICES| && LOSS_PERCENT_CHOICES[i] == p.percent;
      assert LossProfiles()[i] == p;
    }
    if p.Burst? && Asked(r, p) {
      var i :| 0 <= i < |r.bursts| && r.bursts[i] == Pair(p.percent, p.correlation);
      assert BurstProfiles(r.bursts)[i] == p;
    }
    if p.Latency? && Asked(r, p) {
      var i :| 0 <= i < |LATENCY_MS_CHOICES| && LATENCY_MS_CHOICES[i] == p.ms;
      assert LatencyProfiles()[i] == p;
    }
  }

  lemma {:induction false} MemberOfLaterParts(r: Request, p: Profile)
    ensures p in JitterProfiles(r.jitters) <==> p.Jitter? && Asked(r, p)
    ensures p in BandwidthProfiles(r.bandwidths) <==> p.Bandwidth? && Asked(r, p)
    ensures p in DisconnectProfiles() <==> p.Disconnect? && Asked(r, p)
  {
    if p.Jitter? && Asked(r, p) {
      var i :| 0 <= i < |r.jitters| && r.jitters[i] == Pair(p.ms, p.jitter);
      assert JitterProfiles(r.jitters)[i] == p;
    }
    if p.Bandwidth? && Asked(r, p) {
      var i :| 0 <= i < |r.bandwidths| && r.bandwidths[i] == p.kbit;
      assert BandwidthProfiles(r.bandwidths)[i] == p;
    }
    if p.Disconnect? && Asked(r, p) {
      var i :| 0 <= i < |DURATION_SECONDS_CHOICES| && DURATION_SECONDS_CHOICES[i] == p.seconds;
      assert DisconnectProfiles()[i] == p;
    }
  }

  lemma {:induction false} ProfilesAreAsked(r: Request, p: Profile)
    ensures p in Profiles(r) <==> Asked(r, p)
  {
    var loss, burst, latency := LossProfiles(), BurstProfiles(r.bursts), LatencyProfiles();
    var jitter, bandwidth, disconnect := JitterProfiles(r.jitters), BandwidthProfiles(r.bandwidths), DisconnectProfiles();
    MemberOfParts(r, p);
    MemberOfLaterParts(r, p);
    MemberOfSum(bandwidth, disconnect, p);
    MemberOfSum(jitter, bandwidth + disconnect, p);
    MemberOfSum(latency, jitter + (bandwidth + disconnect), p);
    MemberOfSum(burst, latency + (jitter + (bandwidth + disconnect)), p);
    MemberOfSum(loss, burst + (latency + (jitter + (bandwidth + disconnect))), p);
  }

  /** Every supported loss, latency and disconnect, and the burst losses, jitters and rates that were asked for. */
  lemma {:induction false} ProfilesAreExact(r: Request, p: Profile)
    ensures p in Profiles(r) <==>
            match p
            case Loss(percent) => percent in {1, 3, 5, 10}
            case Burst(percent, correlation) => Pair(percent, correlation) in r.bursts
            case Latency(ms) => ms in {50, 100, 300, 1000}
            case Jitter(ms, jitter) => Pair(ms, jitter) in r.jitters
            case Bandwidth(kbit) => kbit in r.bandwidths
            case Disconnect(seconds) => seconds in {10, 30, 120, 600}
  {
    ProfilesAreAsked(r, p);
  }

  /** The place of a kind of profile in the expansion. */
  function Rank(p: Profile): nat {
    match p
    case Loss(_) => 0
    case Burst(_, _) => 1
    case Latency(_) => 2
    case Jitter(_, _) => 3
    case Bandwidth(_) => 4
    case Disconnect(_) => 5
  }

  /** Loss, burst loss, latency, jitter, bandwidth and disconnect follow each other in this order. */
  lemma {:induction false} ProfilesInOrder(r: Request, i: nat, j: nat)
    requires i < j < |Profiles(r)|
    ensures Rank(Profiles(r)[i]) <= Rank(Profiles(r)[j])
  {
  }

  lemma {:induction false} ProfilesDoNotRepeat(r: Request)
    requires NoRepeats(r.bursts) && NoRepeats(r.jitters) && NoRepeats(r.bandwidths)
    ensures NoRepeats(Profiles(r))
  {
  }

  // ----- The matrix -----

  /** The case is what the request makes of one profile. */
  predicate Expands(c: Case, p: Profile, r: Request) {
    ValidProfile(p, r.duration) && c == CaseFor(c.protocol, p, r.duration, r.namespace, r.interface)
  }

  predicate Expandable(profiles: seq<Profile>, duration: int) {
    forall p :: p in profiles ==> ValidProfile(p, duration)
  }

  /** A request as the normalisers leave it. */
  predicate Normal(r: Request) {
    && r.protocols != [] && NoRepeats(r.protocols) && (forall x :: x in r.protocols ==> x in PROTOCOL_CHOICES)
    && NoRepeats(r.bandwidths) && (forall x :: x in r.bandwidths ==> BandwidthError(x) == None)
    && NoRepeats(r.jitters) && (forall x :: x in r.jitters ==> JitterError(x) == None)
    && NoRepeats(r.bursts) && (forall x :: x in r.bursts ==> BurstProfileError(x) == None)
    && r.duration in DURATION_SECONDS_CHOICES
  }

  lemma {:induction false} NormalIsExpandable(r: Request)
    requires Normal(r)
    ensures Expandable(Profiles(r), r.duration)
  {
    forall p | p in Profiles(r) ensures ValidProfile(p, r.duration) {
      ProfilesAreAsked(r, p);
      AskedIsValid(r, p);
    }
  }

  lemma {:induction false} AskedIsValid(r: Request, p: Profile)
    requires Normal(r) && Asked(r, p)
    ensures ValidProfile(p, r.duration)
  {
  }

  /** The normalised request, or the first complaint about it. */
  function Checked(r: Request): Result<Request, MatrixError> {
    var protocols := Protocols(r.protocols);
    if protocols.Err? then Err(protocols.error)
    else
      var bandwidths := Normalised(r.bandwidths, BandwidthError);
      if bandwidths.Err? then Err(bandwidths.error)
      else
        var jitters := Normalised(r.jitters, JitterError);
        if jitters.Err? then Err(jitters.error)
        else
          var bursts := Normalised(r.bursts, BurstProfileError);
          if bursts.Err? then Err(bursts.error)
          else if r.duration !in DURATION_SECONDS_CHOICES then Err(DurationUnsupported)
          else Ok(r.(protocols := protocols.value, bandwidths := bandwidths.value,
                     jitters := jitters.value, bursts := bursts.value))
  }

  lemma {:induction false} NormalisedIsNormal<T>(xs: seq<T>, error: T -> Option<MatrixError>)
    requires Normalised(xs, error).Ok?
    ensures var ys := Normalised(xs, error).value;
            NoRepeats(ys) && (forall x :: x in ys ==> error(x) == None) && (forall x :: x in ys <==> x in xs)
  {
    NoErrorMeansAll(xs, error);
    DistinctHasNoRepeats(xs);
    SameMembers(xs);
    forall x | x in Distinct(xs) ensures error(x) == None {
      DistinctKeepsAll(xs, x);
    }
  }

  lemma {:induction false} CheckedIsNormal(r: Request)
    requires Checked(r).Ok?
    ensures Normal(Checked(r).value)
  {
    NormalisedIsNormal(r.bandwidths, BandwidthError);
    NormalisedIsNormal(r.jitters, JitterError);
    NormalisedIsNormal(r.bursts, BurstProfileError);
    ProtocolsAreSupported(r.protocols);
    var n := Checked(r).value;
    forall x | x in n.bandwidths ensures BandwidthError(x) == None {
    }
    forall x | x in n.jitters ensures JitterError(x) == None {
    }
    forall x | x in n.bursts ensures BurstProfileError(x) == None {
    }
  }

  /** A list of protocols is accepted exactly when it is not empty and each is supported; none is lost or repeated. */
  lemma {:induction false} ProtocolsAreSupported(names: seq<string>)
    ensures Protocols(names).Ok? <==> names != [] && forall x :: x in names ==> x in {"rtmp", "srt"}
    ensures Protocols(names).Ok? ==>
              var ps := Protocols(names).value;
              && ps != [] && NoRepeats(ps) && (forall x :: x in ps <==> x in names)
              && forall x :: x in ps ==> x in PROTOCOL_CHOICES
  {
    var ps := Distinct(names);
    DistinctHasNoRepeats(names);
    NoErrorMeansAll(ps, UnsupportedName);
    SameMembers(names);
    if names != [] {
      assert names[0] in ps;
    }
    forall x: string ensures UnsupportedName(x) == None <==> x in {"rtmp", "srt"} {
      SupportedName(x);
    }
  }

  lemma {:induction false} SupportedName(x: string)
    ensures UnsupportedName(x) == None <==> x in {"rtmp", "srt"}
    ensures UnsupportedName(x) == None <==> x in PROTOCOL_CHOICES
  {
  }

  lemma {:induction false} SameMembers<T>(xs: seq<T>)
    ensures forall x :: x in Distinct(xs) <==> x in xs
  {
    forall x ensures x in Distinct(xs) <==> x in xs {
      DistinctKeepsAll(xs, x);
    }
  }

  function CasesOf(protocol: string, profiles: seq<Profile>, r: Request): seq<Case>
    requires Expandable(profiles, r.duration)
  {
    seq(|profiles|, i requires 0 <= i < |profiles| =>
      CaseFor(protocol, profiles[i], r.duration, r.namespace, r.interface))
  }

  function AllCases(protocols: seq<string>, r: Request): seq<Case>
    requires Expandable(Profiles(r), r.duration)
  {
    if protocols == [] then []
    else AllCases(protocols[..|protocols| - 1], r) + CasesOf(protocols[|protocols| - 1], Profiles(r), r)
  }

  function Matrix(r: Request): Result<seq<Case>, MatrixError> {
    match Checked(r)
    case Err(e) => Err(e)
    case Ok(n) =>
      CheckedIsNormal(r);
      NormalIsExpandable(n);
      var place := PlaceError(r.interface, r.namespace, r.allowLoopback);
      if place != None then Err(Refused(place.value)) else Ok(AllCases(n.protocols, n))
  }

  /** A case is in the matrix exactly when it expands a requested profile for a requested protocol. */
  lemma {:induction false} MembersOfAllCases(protocols: seq<string>, r: Request, c: Case)
    requires Expandable(Profiles(r), r.duration)
    ensures c in AllCases(protocols, r) <==>
            c.protocol in protocols
            && exists p :: p in Profiles(r) && Expands(c, p, r)
  {
    if protocols != [] {
      var front, last := protocols[..|protocols| - 1], protocols[|protocols| - 1];
      assert protocols == front + [last];
      MembersOfAllCases(front, r, c);
      MembersOfCasesOf(last, Profiles(r), r, c);
      MemberOfSum(AllCases(front, r), CasesOf(last, Profiles(r), r), c);
    }
  }

  lemma {:induction false} MembersOfCasesOf(protocol: string, profiles: seq<Profile>, r: Request, c: Case)
    requires Expandable(profiles, r.duration)
    ensures c in CasesOf(protocol, profiles, r) <==>
            c.protocol == protocol
            && exists p :: p in profiles && Expands(c, p, r)
  {
    var cases := CasesOf(protocol, profiles, r);
    if c in cases {
      var i :| 0 <= i < |cases| && cases[i] == c;
      assert profiles[i] in profiles && Expands(c, profiles[i], r);
    }
    if c.protocol == protocol && exists p :: p in profiles && Expands(c, p, r) {
      var p :| p in profiles && Expands(c, p, r);
      ExpansionIsMember(protocol, profiles, r, c, p);
    }
  }

  lemma {:induction false} ExpansionIsMember(protocol: string, profiles: seq<Profile>, r: Request, c: Case, p: Profile)
    requires Expandable(profiles, r.duration) && p in profiles && Expands(c, p, r) && c.protocol == protocol
    ensures c in CasesOf(protocol, profiles, r)
  {
    var i :| 0 <= i < |profiles| && profiles[i] == p;
    assert CasesOf(protocol, profiles, r)[i] == c;
  }

  /** The values that a request may ask for. */
  predicate Supported(r: Request) {
    && r.protocols != [] && (forall x :: x in r.protocols ==> x in {"rtmp", "srt"})
    && (forall x :: x in r.bandwidths ==> 64 <= x <= 100_000)
    && (forall x :: x in r.jitters ==> x.first in {50, 100, 300, 1000} && 0 < x.second <= x.first)
    && (forall x :: x in r.bursts ==> x.first in {1, 3, 5, 10} && 1 <= x.second <= 99)
    && r.duration in {10, 30, 120, 600}
  }

  lemma {:induction false} ErrorsAreRanges(k: int, x: Pair)
    ensures BandwidthError(k) == None <==> 64 <= k <= 100_000
    ensures JitterError(x) == None <==> x.first in {50, 100, 300, 1000} && 0 < x.second <= x.first
    ensures BurstProfileError(x) == None <==> x.first in {1, 3, 5, 10} && 1 <= x.second <= 99
    ensures k in DURATION_SECONDS_CHOICES <==> k in {10, 30, 120, 600}
  {
  }

  lemma {:induction false} CheckedIff(r: Request)
    ensures Checked(r).Ok? <==> Supported(r)
  {
    ProtocolsAreSupported(r.protocols);
    NoErrorMeansAll(r.bandwidths, BandwidthError);
    NoErrorMeansAll(r.jitters, JitterError);
    NoErrorMeansAll(r.bursts, BurstProfileError);
    forall k: int, x: Pair
      ensures BandwidthError(k) == None <==> 64 <= k <= 100_000
      ensures JitterError(x) == None <==> x.first in {50, 100, 300, 1000} && 0 < x.second <= x.first
      ensures BurstProfileError(x) == None <==> x.first in {1, 3, 5, 10} && 1 <= x.second <= 99
    {
      ErrorsAreRanges(k, x);
    }
    ErrorsAreRanges(r.duration, Pair(0, 0));
  }

  /** Normalising neither adds nor loses a profile. */
  lemma {:induction false} CheckedAsksTheSame(r: Request, p: Profile, c: Case)
    requires Checked(r).Ok?
    ensures Asked(Checked(r).value, p) <==> Asked(r, p)
    ensures Expands(c, p, Checked(r).value) <==> Expands(c, p, r)
    ensures c.protocol in Checked(r).value.protocols <==> c.protocol in r.protocols
  {
    NormalisedIsNormal(r.bandwidths, BandwidthError);
    NormalisedIsNormal(r.jitters, JitterError);
    NormalisedIsNormal(r.bursts, BurstProfileError);
    ProtocolsAreSupported(r.protocols);
  }

  /**
   * The matrix in terms of the request as it was made: it exists exactly for supported values on a permitted
   * device, and a case is in it exactly when it expands a requested profile for a requested protocol.
   */
  lemma {:induction false} MatrixIsExact(r: Request, c: Case)
    ensures Matrix(r).Ok? <==>
            && Supported(r) && IsInterface(r.interface) && (r.interface == "lo" ==> r.allowLoopback)
            && IsNamespace(r.namespace)
    ensures Matrix(r).Ok? ==>
              (c in Matrix(r).value <==> c.protocol in r.protocols && exists p :: Asked(r, p) && Expands(c, p, r))
  {
    CheckedIff(r);
    if Matrix(r).Ok? {
      var n := Checked(r).value;
      CheckedIsNormal(r);
      NormalIsExpandable(n);
      MembersOfAllCases(n.protocols, n, c);
      forall p ensures Asked(r, p) && Expands(c, p, r) <==> p in Profiles(n) && Expands(c, p, n) {
        ProfilesAreAsked(n, p);
        CheckedAsksTheSame(r, p, c);
      }
      CheckedAsksTheSame(r, Loss(1), c);
    }
  }

  // ----- Names within one matrix -----

  predicate DistinctIds(cases: seq<Case>) {
    forall i, j :: 0 <= i < j < |cases| ==> cases[i].id != cases[j].id
  }

  lemma {:induction false} IdsOfOneProtocol(protocol: string, profiles: seq<Profile>, r: Request)
    requires protocol in PROTOCOL_CHOICES && Expandable(profiles, r.duration) && NoRepeats(profiles)
    ensures DistinctIds(CasesOf(protocol, profiles, r))
  {
    var cases := CasesOf(protocol, profiles, r);
    forall i, j | 0 <= i < j < |cases| ensures cases[i].id != cases[j].id {
      assert profiles[i] in profiles && profiles[j] in profiles;
      if cases[i].id == cases[j].id {
        IdDetermines(protocol, protocol, profiles[i], profiles[j], r.duration, r.duration);
      }
    }
  }

  /** Equal names mean equal cases, whichever profiles of the request they expand. */
  lemma {:induction false} SameIdSameCase(c: Case, d: Case, p: Profile, q: Profile, r: Request)
    requires c.protocol in PROTOCOL_CHOICES && d.protocol in PROTOCOL_CHOICES
    requires Expands(c, p, r) && Expands(d, q, r) && c.id == d.id
    ensures c == d
  {
    IdDetermines(c.protocol, d.protocol, p, q, r.duration, r.duration);
  }

  lemma {:induction false} IdsAcrossProtocols(protocols: seq<string>, r: Request)
    requires Expandable(Profiles(r), r.duration) && NoRepeats(Profiles(r)) && NoRepeats(protocols)
    requires forall x :: x in protocols ==> x in PROTOCOL_CHOICES
    ensures DistinctIds(AllCases(protocols, r))
  {
    if protocols != [] {
      var front, last := protocols[..|protocols| - 1], protocols[|protocols| - 1];
      assert protocols == front + [last];
      assert last !in front;
      IdsAcrossProtocols(front, r);
      IdsOfOneProtocol(last, Profiles(r), r);
      var earlier, added := AllCases(front, r), CasesOf(last, Profiles(r), r);
      forall c, d | c in earlier && d in added ensures c.id != d.id {
        MembersOfAllCases(front, r, c);
        MembersOfCasesOf(last, Profiles(r), r, d);
        if c.id == d.id {
          var p :| p in Profiles(r) && Expands(c, p, r);
          var q :| q in Profiles(r) && Expands(d, q, r);
          SameIdSameCase(c, d, p, q, r);
        }
      }
      JoinIds(earlier, added);
    }
  }

  lemma {:induction false} JoinIds(a: seq<Case>, b: seq<Case>)
    requires DistinctIds(a) && DistinctIds(b)
    requires forall c, d :: c in a && d in b ==> c.id != d.id
    ensures DistinctIds(a + b)
  {
  }

  /** No two cases of a matrix share a name. */
  lemma {:induction false} MatrixIdsAreDistinct(r: Request)
    requires Matrix(r).Ok?
    ensures DistinctIds(Matrix(r).value)
  {
    var n := Checked(r).value;
    CheckedIsNormal(r);
    NormalIsExpandable(n);
    ProfilesDoNotRepeat(n);
    IdsAcrossProtocols(n.protocols, n);
  }

  /** A name means the same fault in every matrix that has it, whatever the requests. */
  lemma {:induction false} NamesAreUniversal(r: Request, c: Case, q: Request, d: Case)
    requires Matrix(r).Ok? && c in Matrix(r).value && Matrix(q).Ok? && d in Matrix(q).value && c.id == d.id
    ensures c.protocol == d.protocol && c.fault == d.fault
    ensures WellFormed(c.fault) && c.fault.duration != None && c.id == NameOf(c.protocol, c.fault)
  {
    var p := OriginOf(r, c);
    var o := OriginOf(q, d);
    SameNameSameFault(r, c, p, q, d, o);
  }

  lemma {:induction false} SameNameSameFault(r: Request, c: Case, p: Profile, q: Request, d: Case, o: Profile)
    requires c.protocol in PROTOCOL_CHOICES && d.protocol in PROTOCOL_CHOICES && c.id == d.id
    requires Expands(c, p, r) && Expands(d, o, q)
    ensures c.protocol == d.protocol && c.fault == d.fault
    ensures WellFormed(c.fault) && c.fault.duration != None && c.id == NameOf(c.protocol, c.fault)
  {
    IdDetermines(c.protocol, d.protocol, p, o, r.duration, q.duration);
    NameTellsFault(c.protocol, p, r.duration, r.namespace, r.interface);
  }

  // ----- Selection and regeneration -----

  function FirstWithId(cases: seq<Case>, id: string): Result<Case, MatrixError> {
    if cases == [] then Err(NotInMatrix)
    else if cases[0].id == id then Ok(cases[0])
    else FirstWithId(cases[1..], id)
  }

  function Selected(id: string, r: Request): Result<Case, MatrixError> {
    match Matrix(r.(protocols := PROTOCOL_CHOICES))
    case Err(e) => Err(e)
    case Ok(cases) => FirstWithId(cases, id)
  }

  /** The shape checks on the data that a caller hands over. */
  predicate DataIsValid(c: Case) {
    && c.id != "" && c.protocol in PROTOCOL_CHOICES
    && c.plan.namespace != "" && c.plan.interface != ""
    && c.fault.duration != None && c.fault.duration.value in DURATION_SECONDS_CHOICES
    && (c.fault.bandwidth != None ==> BandwidthError(c.fault.bandwidth.value) == None)
    && (c.fault.latency != None ==> c.fault.latency.value in LATENCY_MS_CHOICES)
    && (c.fault.jitter != None ==>
          c.fault.latency != None && 0 < c.fault.jitter.value <= c.fault.latency.value)
    && (c.fault.burstLoss != None ==> c.fault.burstLoss.value in LOSS_PERCENT_CHOICES)
    && (c.fault.burstLoss == None ==> c.fault.burstCorrelation == None)
    && (c.fault.burstLoss != None ==>
          c.fault.burstCorrelation != None
          && BURST_CORRELATION_PERCENT_MIN <= c.fault.burstCorrelation.value <= BURST_CORRELATION_PERCENT_MAX)
  }

  /** The request that would emit the case, derived from the case's own fields. */
  function Regeneration(c: Case, allowLoopback: bool): Request
    requires DataIsValid(c)
  {
    var f := c.fault;
    Request(c.plan.namespace, c.plan.interface, PROTOCOL_CHOICES,
            if f.disconnect then DEFAULT_PROFILE_DURATION_SECONDS else f.duration.value,
            if f.bandwidth == None then [] else [f.bandwidth.value],
            if f.jitter == None then [] else [Pair(f.latency.value, f.jitter.value)],
            if f.burstLoss == None then [] else [Pair(f.burstLoss.value, f.burstCorrelation.value)],
            allowLoopback)
  }

  /** Regenerate and compare: only a case that comes back unchanged may be executed. */
  function Validated(c: Case, allowLoopback: bool): Result<Case, MatrixError> {
    if !DataIsValid(c) then Err(InvalidData)
    else
      match Selected(c.id, Regeneration(c, allowLoopback))
      case Err(_) => Err(NotRegenerated)
      case Ok(e) => if c != e then Err(Mismatch) else Ok(e)
  }

  lemma {:induction false} FirstIsTheOne(cases: seq<Case>, c: Case)
    requires c in cases && forall d :: d in cases && d.id == c.id ==> d == c
    ensures FirstWithId(cases, c.id) == Ok(c)
  {
    if cases[0].id != c.id {
      assert c in cases[1..];
      FirstIsTheOne(cases[1..], c);
    }
  }

  lemma {:induction false} FirstIsAMember(cases: seq<Case>, id: string)
    requires FirstWithId(cases, id).Ok?
    ensures FirstWithId(cases, id).value in cases && FirstWithId(cases, id).value.id == id
  {
    if cases[0].id != id {
      FirstIsAMember(cases[1..], id);
    }
  }

  lemma {:induction false} UniqueMember(cases: seq<Case>, c: Case)
    requires DistinctIds(cases) && c in cases
    ensures FirstWithId(cases, c.id) == Ok(c)
  {
    forall d | d in cases && d.id == c.id ensures d == c {
      var i :| 0 <= i < |cases| && cases[i] == c;
      var j :| 0 <= j < |cases| && cases[j] == d;
    }
    FirstIsTheOne(cases, c);
  }

  // ----- Executable means emitted -----

  ghost predicate Emitted(c: Case, allowLoopback: bool) {
    exists r: Request :: r.allowLoopback == allowLoopback && Matrix(r).Ok? && c in Matrix(r).value
  }

  /** Where a case of a matrix comes from. */
  lemma {:induction false} OriginOf(r: Request, c: Case) returns (p: Profile)
    requires Matrix(r).Ok? && c in Matrix(r).value
    ensures c.protocol in PROTOCOL_CHOICES && Expands(c, p, r)
    ensures PlaceError(r.interface, r.namespace, r.allowLoopback) == None
  {
    var n := NormalOfMatrix(r);
    p := OriginInNormal(n, c);
  }

  /** The normalised request that a matrix is made from. */
  lemma {:induction false} NormalOfMatrix(r: Request) returns (n: Request)
    requires Matrix(r).Ok?
    ensures Checked(r) == Ok(n) && Normal(n) && Expandable(Profiles(n), n.duration)
    ensures Matrix(r).value == AllCases(n.protocols, n)
    ensures n.duration == r.duration && n.namespace == r.namespace && n.interface == r.interface
    ensures PlaceError(r.interface, r.namespace, r.allowLoopback) == None
  {
    n := Checked(r).value;
    CheckedIsNormal(r);
    NormalIsExpandable(n);
  }

  lemma {:induction false} OriginInNormal(n: Request, c: Case) returns (p: Profile)
    requires Normal(n) && Expandable(Profiles(n), n.duration) && c in AllCases(n.protocols, n)
    ensures c.protocol in PROTOCOL_CHOICES && Expands(c, p, n)
  {
    MembersOfAllCases(n.protocols, n, c);
    p :| p in Profiles(n) && Expands(c, p, n);
  }

  lemma {:induction false} EmittedDataIsValid(
      protocol: string, p: Profile, duration: int, namespace: string, interface: string)
    requires protocol in PROTOCOL_CHOICES && ValidProfile(p, duration) && namespace != "" && interface != ""
    ensures DataIsValid(CaseFor(protocol, p, duration, namespace, interface))
  {
  }

  lemma {:induction false} SingletonIsNormal<T>(x: T, error: T -> Option<MatrixError>)
    requires error(x) == None
    ensures Normalised([x], error) == Ok([x])
  {
    assert [x][..0] == [];
    assert FirstError([x], error) == error(x);
    assert Distinct([x]) == [x];
  }

  lemma {:induction false} EmptyIsNormal<T>(error: T -> Option<MatrixError>)
    ensures Normalised<T>([], error) == Ok([])
  {
  }

  lemma {:induction false} BothProtocolsAreNormal()
    ensures Protocols(PROTOCOL_CHOICES) == Ok(PROTOCOL_CHOICES)
  {
    assert PROTOCOL_CHOICES[..1] == ["rtmp"] && ["rtmp"][..0] == [];
    assert Distinct(["rtmp"]) == ["rtmp"];
    assert Distinct(PROTOCOL_CHOICES) == PROTOCOL_CHOICES;
    NoErrorMeansAll(PROTOCOL_CHOICES, UnsupportedName);
  }

  lemma {:induction false} RegenerationIsChecked(c: Case, allowLoopback: bool)
    requires DataIsValid(c)
    ensures Checked(Regeneration(c, allowLoopback)) == Ok(Regeneration(c, allowLoopback))
  {
    var f := c.fault;
    BothProtocolsAreNormal();
    EmptyIsNormal(BandwidthError);
    EmptyIsNormal(JitterError);
    EmptyIsNormal(BurstProfileError);
    if f.bandwidth != None {
      SingletonIsNormal(f.bandwidth.value, BandwidthError);
    }
    if f.jitter != None {
      SingletonIsNormal(Pair(f.latency.value, f.jitter.value), JitterError);
    }
    if f.burstLoss != None {
      SingletonIsNormal(Pair(f.burstLoss.value, f.burstCorrelation.value), BurstProfileError);
    }
  }

  /** The derived request asks for the profile again, and expands it to the same case. */
  lemma {:induction false} RegenerationAsks(c: Case, p: Profile, r: Request, allowLoopback: bool)
    requires DataIsValid(c) && Expands(c, p, r)
    ensures Asked(Regeneration(c, allowLoopback), p) && Expands(c, p, Regeneration(c, allowLoopback))
  {
  }

  /** Self-regeneration: what any accepted request emits comes back unchanged under the same loopback flag. */
  lemma {:induction false} EmittedIsRegenerated(r: Request, c: Case)
    requires Matrix(r).Ok? && c in Matrix(r).value
    ensures Validated(c, r.allowLoopback) == Ok(c)
  {
    var p := OriginOf(r, c);
    EmittedDataIsValid(c.protocol, p, r.duration, r.namespace, r.interface);
    var g := Regeneration(c, r.allowLoopback);
    RegenerationAsks(c, p, r, r.allowLoopback);
    RegenerationIsChecked(c, r.allowLoopback);
    CheckedIsNormal(g);
    NormalIsExpandable(g);
    ProfilesAreAsked(g, p);
    MembersOfAllCases(g.protocols, g, c);
    MatrixIdsAreDistinct(g);
    UniqueMember(Matrix(g).value, c);
    assert g.(protocols := PROTOCOL_CHOICES) == g;
  }

  /** A case may be executed exactly when some accepted request emits it, and then it is returned as it is. */
  lemma {:induction false} ExecutableIffEmitted(c: Case, d: Case, allowLoopback: bool)
    ensures Validated(c, allowLoopback) == Ok(d) <==> c == d && Emitted(c, allowLoopback)
  {
    if Validated(c, allowLoopback) == Ok(d) {
      var g := Regeneration(c, allowLoopback);
      assert g.(protocols := PROTOCOL_CHOICES) == g;
      FirstIsAMember(Matrix(g).value, c.id);
    }
    if Emitted(c, allowLoopback) {
      var r: Request :| r.allowLoopback == allowLoopback && Matrix(r).Ok? && c in Matrix(r).value;
      EmittedIsRegenerated(r, c);
    }
  }

  /** What an executable case may do: one bounded fault on one permitted device inside the named namespace. */
  lemma {:induction false} ExecutableIsConfined(c: Case, allowLoopback: bool)
    requires Validated(c, allowLoopback).Ok?
    ensures IsNamespace(c.plan.namespace) && IsInterface(c.plan.interface)
    ensures c.plan.interface == "lo" ==> allowLoopback
    ensures c.plan.interface[0] != '-' && c.plan.namespace[0] != '-'
    ensures var device := Device(c.plan.namespace, c.plan.interface);
            && ReadCommand(c.plan.apply) == Some(Replace(device, c.fault.(duration := None)))
            && c.plan.cleanup == ["ip", "netns", "exec", device.namespace, "tc", "qdisc", "del", "dev", device.name, "root"]
            && ReadCommand(c.plan.cleanup) == Some(Remove(device))
    ensures WellFormed(c.fault) && c.plan.duration == c.fault.duration != None
  {
    ExecutableIffEmitted(c, c, allowLoopback);
    assert Validated(c, allowLoopback) == Ok(c);
    var r: Request :| r.allowLoopback == allowLoopback && Matrix(r).Ok? && c in Matrix(r).value;
    var p := OriginOf(r, c);
    PlanRoundTrip(r.interface, r.namespace, c.fault);
    PlanStaysInNamespace(r.interface, r.namespace, c.fault);
  }

  // ----- The operations -----

  method MakeCase(protocol: string, p: Profile, r: Request) returns (c: Result<Case, MatrixError>)
    requires ValidProfile(p, r.duration)
    ensures var place := PlaceError(r.interface, r.namespace, r.allowLoopback);
            c == if place != None then Err(Refused(place.value))
                 else Ok(CaseFor(protocol, p, r.duration, r.namespace, r.interface))
  {
    var fault := FaultOf(p, r.duration);
    var plan := BuildFaultPlan(r.interface, r.namespace, fault, r.allowLoopback);
    AcceptedIsWellFormed(fault);
    match plan
    case Err(e) => c := Err(Refused(e));
    case Ok(value) => c := Ok(Case(CaseId(protocol, p, r.duration), protocol, fault, value));
  }

  lemma {:induction false} OneMore<T>(head: seq<T>, all: seq<T>, i: nat)
    requires i < |all|
    ensures (head + all[..i]) + [all[i]] == head + all[..i + 1]
  {
  }

  method ExpandProtocol(cases: seq<Case>, protocol: string, profiles: seq<Profile>, r: Request)
    returns (out: Result<seq<Case>, MatrixError>)
    requires Expandable(profiles, r.duration) && profiles != []
    ensures var place := PlaceError(r.interface, r.namespace, r.allowLoopback);
            out == if place != None then Err(Refused(place.value)) else Ok(cases + CasesOf(protocol, profiles, r))
  {
    var grown := cases;
    ghost var all := CasesOf(protocol, profiles, r);
    var i := 0;
    while i < |profiles|
      invariant i <= |profiles|
      invariant i > 0 ==> PlaceError(r.interface, r.namespace, r.allowLoopback) == None
      invariant grown == cases + all[..i]
    {
      assert profiles[i] in profiles;
      var c := MakeCase(protocol, profiles[i], r);
      if c.Err? {
        return Err(c.error);
      }
      OneMore(cases, all, i);
      grown := grown + [c.value];
      i := i + 1;
    }
    assert all[..i] == all;
    out := Ok(grown);
  }

  /** The normalisers in the order in which they complain. */
  method CheckRequest(r: Request) returns (out: Result<Request, MatrixError>)
    ensures out == Checked(r)
  {
    var protocols := Protocols(r.protocols);
    if protocols.Err? {
      return Err(protocols.error);
    }
    var bandwidths := Normalise(r.bandwidths, BandwidthError);
    if bandwidths.Err? {
      return Err(bandwidths.error);
    }
    var jitters := Normalise(r.jitters, JitterError);
    if jitters.Err? {
      return Err(jitters.error);
    }
    var bursts := Normalise(r.bursts, BurstProfileError);
    if bursts.Err? {
      return Err(bursts.error);
    }
    if r.duration !in DURATION_SECONDS_CHOICES {
      return Err(DurationUnsupported);
    }
    return Ok(r.(protocols := protocols.value, bandwidths := bandwidths.value,
                 jitters := jitters.value, bursts := bursts.value));
  }

  /** The outer loop, over the protocols of a normalised request. */
  method ExpandProtocols(n: Request) returns (out: Result<seq<Case>, MatrixError>)
    requires n.protocols != [] && Expandable(Profiles(n), n.duration)
    ensures var place := PlaceError(n.interface, n.namespace, n.allowLoopback);
            out == if place != None then Err(Refused(place.value)) else Ok(AllCases(n.protocols, n))
  {
    var cases: seq<Case> := [];
    var i := 0;
    while i < |n.protocols|
      invariant i <= |n.protocols|
      invariant i > 0 ==> PlaceError(n.interface, n.namespace, n.allowLoopback) == None
      invariant cases == AllCases(n.protocols[..i], n)
    {
      assert n.protocols[..i + 1][..i] == n.protocols[..i];
      var grown := ExpandProtocol(cases, n.protocols[i], Profiles(n), n);
      if grown.Err? {
        return Err(grown.error);
      }
      cases := grown.value;
      i := i + 1;
    }
    assert n.protocols[..i] == n.protocols;
    out := Ok(cases);
  }

  method BuildMatrix(r: Request) returns (out: Result<seq<Case>, MatrixError>)
    ensures out == Matrix(r)
  {
    var checked := CheckRequest(r);
    if checked.Err? {
      return Err(checked.error);
    }
    CheckedIsNormal(r);
    NormalIsExpandable(checked.value);
    out := ExpandProtocols(checked.value);
  }

  method SelectCase(id: string, r: Request) returns (out: Result<Case, MatrixError>)
    ensures out == Selected(id, r)
  {
    var cases := BuildMatrix(r.(protocols := PROTOCOL_CHOICES));
    if cases.Err? {
      return Err(cases.error);
    }
    var i := 0;
    while i < |cases.value|
      invariant i <= |cases.value|
      invariant FirstWithId(cases.value, id) == FirstWithId(cases.value[i..], id)
    {
      if cases.value[i].id == id {
        return Ok(cases.value[i]);
      }
      assert cases.value[i..][1..] == cases.value[i + 1..];
      i := i + 1;
    }
    out := Err(NotInMatrix);
  }

  method ValidatedGeneratedCase(c: Case, allowLoopback: bool) returns (out: Result<Case, MatrixError>)
    ensures out == Validated(c, allowLoopback)
    ensures out.Ok? <==> Emitted(c, allowLoopback)
  {
    ExecutableIffEmitted(c, c, allowLoopback);
    if !DataIsValid(c) {
      return Err(InvalidData);
    }
    var expected := SelectCase(c.id, Regeneration(c, allowLoopback));
    if expected.Err? {
      return Err(NotRegenerated);
    }
    if c != expected.value {
      return Err(Mismatch);
    }
    out := Ok(expected.value);
  }
}

/** The expansion of bounded fault profiles into named cases, and the check that re-expands a case. */
module FaultMatrix {
  import opened Prelude
  import opened Decimal
  import opened FaultPlan

  const PROTOCOL_CHOICES: seq<string> := ["rtmp", "srt"]
  const DEFAULT_PROFILE_DURATION_SECONDS := 30

  datatype Profile =
    | Loss(percent: int)
    | Burst(percent: int, correlation: int)
    | Latency(ms: int)
    | Jitter(ms: int, jitter: int)
    | Bandwidth(kbit: int)
    | Disconnect(seconds: int)

  datatype Pair = Pair(first: int, second: int)

  datatype Request = Request(
    namespace: string, interface: string, protocols: seq<string>, duration: int,
    bandwidths: seq<int>, jitters: seq<Pair>, bursts: seq<Pair>, allowLoopback: bool)

  datatype Case = Case(id: string, protocol: string, fault: Fault, plan: Plan)

  datatype MatrixError =
    | NoProtocol | UnsupportedProtocol(name: string) | BandwidthOutOfRange
    | JitterLatencyUnsupported | JitterOutOfRange | BurstLossUnsupported | BurstCorrelationOutOfRange
    | DurationUnsupported | Refused(error: PlanError)
    | NotInMatrix | InvalidData | NotRegenerated | Mismatch

  // ----- Normalising the requested values -----

  /** First occurrences only, in order. */
  function Distinct<T(==)>(xs: seq<T>): seq<T> {
    if xs == [] then []
    else
      var front := Distinct(xs[..|xs| - 1]);
      if xs[|xs| - 1] in front then front else front + [xs[|xs| - 1]]
  }

  predicate NoRepeats<T(==)>(xs: seq<T>) {
    forall i, j :: 0 <= i < j < |xs| ==> xs[i] != xs[j]
  }

  lemma {:induction false} DistinctKeepsAll<T>(xs: seq<T>, x: T)
    ensures x in Distinct(xs) <==> x in xs
  {
    if xs != [] {
      var front, last := xs[..|xs| - 1], xs[|xs| - 1];
      assert xs == front + [last];
      DistinctKeepsAll(front, x);
    }
  }

  lemma {:induction false} DistinctHasNoRepeats<T>(xs: seq<T>)
    ensures NoRepeats(Distinct(xs))
  {
    if xs != [] {
      DistinctHasNoRepeats(xs[..|xs| - 1]);
    }
  }

  /** Where a value first stands. */
  function FirstAt<T(==)>(xs: seq<T>, x: T): (i: nat)
    requires x in xs
    ensures i < |xs| && xs[i] == x && x !in xs[..i]
  {
    if xs[0] == x then 0 else FirstAt(xs[1..], x) + 1
  }

  lemma {:induction false} FirstAtIs<T>(xs: seq<T>, x: T, i: nat)
    requires i < |xs| && xs[i] == x && x !in xs[..i]
    ensures FirstAt(xs, x) == i
  {
    if i > 0 {
      assert xs[..i][0] == xs[0] && xs[1..][..i - 1] == xs[..i][1..];
      FirstAtIs(xs[1..], x, i - 1);
    }
  }

  lemma {:induction false} FirstAtInFront<T>(front: seq<T>, last: T, x: T)
    requires x in front
    ensures FirstAt(front + [last], x) == FirstAt(front, x)
  {
    var i := FirstAt(front, x);
    assert (front + [last])[..i] == front[..i];
    FirstAtIs(front + [last], x, i);
  }

  /** What is kept stands in the order of first occurrences. */
  lemma {:induction false} DistinctKeepsOrder<T>(xs: seq<T>, i: nat, j: nat)
    requires i < j < |Distinct(xs)|
    ensures Distinct(xs)[i] in xs && Distinct(xs)[j] in xs
    ensures FirstAt(xs, Distinct(xs)[i]) < FirstAt(xs, Distinct(xs)[j])
  {
    var front, last := xs[..|xs| - 1], xs[|xs| - 1];
    assert xs == front + [last];
    var ys := Distinct(front);
    DistinctKeepsAll(front, ys[i]);
    FirstAtInFront(front, last, ys[i]);
    if j < |ys| {
      DistinctKeepsAll(front, ys[j]);
      DistinctKeepsOrder(front, i, j);
      FirstAtInFront(front, last, ys[j]);
    } else {
      DistinctKeepsAll(front, last);
      FirstAtIs(xs, last, |front|);
    }
  }

  function BandwidthError(kbit: int): Option<MatrixError> {
    if kbit < BANDWIDTH_KBIT_MIN || kbit > BANDWIDTH_KBIT_MAX then Some(BandwidthOutOfRange) else None
  }

  function JitterError(p: Pair): Option<MatrixError> {
    if p.first !in LATENCY_MS_CHOICES then Some(JitterLatencyUnsupported)
    else if p.second <= 0 || p.second > p.first then Some(JitterOutOfRange)
    else None
  }

  function BurstProfileError(p: Pair): Option<MatrixError> {
    if p.first !in LOSS_PERCENT_CHOICES then Some(BurstLossUnsupported)
    else if p.second < BURST_CORRELATION_PERCENT_MIN || p.second > BURST_CORRELATION_PERCENT_MAX
    then Some(BurstCorrelationOutOfRange)
    else None
  }

  /** The first complaint in the order of the list. */
  function FirstError<T>(xs: seq<T>, error: T -> Option<MatrixError>): Option<MatrixError> {
    if xs == [] then None
    else
      var earlier := FirstError(xs[..|xs| - 1], error);
      if earlier != None then earlier else error(xs[|xs| - 1])
  }

  lemma {:induction false} NoErrorMeansAll<T>(xs: seq<T>, error: T -> Option<MatrixError>)
    ensures FirstError(xs, error) == None <==> forall x :: x in xs ==> error(x) == None
  {
    if xs != [] {
      var front, last := xs[..|xs| - 1], xs[|xs| - 1];
      assert xs == front + [last];
      NoErrorMeansAll(front, error);
      assert last in xs;
    }
  }

  /** The complaint is that of the first bad value. */
  lemma {:induction false} FirstErrorIsFirst<T>(xs: seq<T>, error: T -> Option<MatrixError>) returns (i: nat)
    requires FirstError(xs, error) != None
    ensures i < |xs| && FirstError(xs, error) == error(xs[i]) && forall k :: 0 <= k < i ==> error(xs[k]) == None
  {
    var front, last := xs[..|xs| - 1], xs[|xs| - 1];
    if FirstError(front, error) != None {
      i := FirstErrorIsFirst(front, error);
      assert forall k :: 0 <= k <= i ==> xs[k] == front[k];
    } else {
      i := |xs| - 1;
      NoErrorMeansAll(front, error);
      forall k | 0 <= k < i ensures error(xs[k]) == None {
        assert xs[k] == front[k] && front[k] in front;
      }
    }
  }

  function Normalised<T(==)>(xs: seq<T>, error: T -> Option<MatrixError>): Result<seq<T>, MatrixError> {
    var complaint := FirstError(xs, error);
    if complaint != None then Err(complaint.value) else Ok(Distinct(xs))
  }

  /** The one loop that three of the normalisers share: refuse the first bad value, keep the first of equals. */
  method Normalise<T(==)>(xs: seq<T>, error: T -> Option<MatrixError>) returns (r: Result<seq<T>, MatrixError>)
    ensures r == Normalised(xs, error)
    ensures r.Ok? ==> NoRepeats(r.value) && (forall x :: x in r.value <==> x in xs)
    ensures r.Ok? <==> forall x :: x in xs ==> error(x) == None
  {
    var normalised: seq<T> := [];
    var i := 0;
    while i < |xs|
      invariant i <= |xs|
      invariant FirstError(xs[..i], error) == None && normalised == Distinct(xs[..i])
    {
      assert xs[..i + 1][..i] == xs[..i];
      var complaint := error(xs[i]);
      if complaint != None {
        ErrorPersists(xs, error, i + 1);
        NoErrorMeansAll(xs, error);
        return Err(complaint.value);
      }
      if xs[i] !in normalised {
        normalised := normalised + [xs[i]];
      }
      i := i + 1;
    }
    assert xs[..i] == xs;
    NoErrorMeansAll(xs, error);
    DistinctHasNoRepeats(xs);
    forall x ensures x in normalised <==> x in xs {
      DistinctKeepsAll(xs, x);
    }
    return Ok(normalised);
  }

  lemma {:induction false} ErrorPersists<T>(xs: seq<T>, error: T -> Option<MatrixError>, n: nat)
    requires n <= |xs| && FirstError(xs[..n], error) != None
    ensures FirstError(xs, error) == FirstError(xs[..n], error)
    decreases |xs|
  {
    if n == |xs| {
      assert xs[..n] == xs;
    } else {
      var front := xs[..|xs| - 1];
      assert front[..n] == xs[..n];
      ErrorPersists(front, error, n);
    }
  }

  function UnsupportedName(name: string): Option<MatrixError> {
    if name in PROTOCOL_CHOICES then None else Some(UnsupportedProtocol(name))
  }

  /** Duplicates go first here, and only then is the list checked. */
  function Protocols(names: seq<string>): Result<seq<string>, MatrixError> {
    var distinct := Distinct(names);
    if distinct == [] then Err(NoProtocol)
    else
      var complaint := FirstError(distinct, UnsupportedName);
      if complaint != None then Err(complaint.value) else Ok(distinct)
  }

  // ----- Cases -----

  const NO_FAULT := Fault(None, None, None, None, None, None, false, None)

  function FaultOf(p: Profile, duration: int): Fault {
    match p
    case Loss(percent) => NO_FAULT.(loss := Some(percent), duration := Some(duration))
    case Burst(percent, correlation) =>
      NO_FAULT.(burstLoss := Some(percent), burstCorrelation := Some(correlation), duration := Some(duration))
    case Latency(ms) => NO_FAULT.(latency := Some(ms), duration := Some(duration))
    case Jitter(ms, jitter) => NO_FAULT.(latency := Some(ms), jitter := Some(jitter), duration := Some(duration))
    case Bandwidth(kbit) => NO_FAULT.(bandwidth := Some(kbit), duration := Some(duration))
    case Disconnect(seconds) => NO_FAULT.(disconnect := true, duration := Some(seconds))
  }

  predicate ValidProfile(p: Profile, duration: int) {
    duration in DURATION_SECONDS_CHOICES && WellFormed(FaultOf(p, duration))
  }

  function IdTail(p: Profile, duration: int): string
    requires ValidProfile(p, duration)
  {
    match p
    case Loss(percent) => "-loss-" + (Format(percent) + ("pct-" + (Format(duration) + "s")))
    case Burst(percent, correlation) =>
      "-burst-loss-" + (Format(percent) + ("pct-corr-" + (Format(correlation) + ("pct-" + (Format(duration) + "s")))))
    case Latency(ms) => "-latency-" + (Format(ms) + ("ms-" + (Format(duration) + "s")))
    case Jitter(ms, jitter) => "-jitter-" + (Format(ms) + ("ms-" + (Format(jitter) + ("ms-" + (Format(duration) + "s")))))
    case Bandwidth(kbit) => "-bandwidth-" + (Format(kbit) + ("kbit-" + (Format(duration) + "s")))
    case Disconnect(seconds) => "-disconnect-" + (Format(seconds) + "s")
  }

  function CaseId(protocol: string, p: Profile, duration: int): string
    requires ValidProfile(p, duration)
  {
    protocol + IdTail(p, duration)
  }

  function CaseFor(protocol: string, p: Profile, duration: int, namespace: string, interface: string): Case
    requires ValidProfile(p, duration)
  {
    var fault := FaultOf(p, duration);
    Case(CaseId(protocol, p, duration), protocol, fault, PlanFor(interface, namespace, fault))
  }

  /** The name of a case, spelled from its protocol and its fault. */
  function NameOf(protocol: string, f: Fault): string
    requires WellFormed(f) && f.duration != None
  {
    var time := Format(f.duration.value) + "s";
    if f.disconnect then protocol + ("-disconnect-" + time)
    else if f.loss != None then protocol + ("-loss-" + (Format(f.loss.value) + ("pct-" + time)))
    else if f.burstLoss != None then
      protocol + ("-burst-loss-" + (Format(f.burstLoss.value) + ("pct-corr-" + (Format(f.burstCorrelation.value) + ("pct-" + time)))))
    else if f.jitter != None then
      protocol + ("-jitter-" + (Format(f.latency.value) + ("ms-" + (Format(f.jitter.value) + ("ms-" + time)))))
    else if f.latency != None then protocol + ("-latency-" + (Format(f.latency.value) + ("ms-" + time)))
    else protocol + ("-bandwidth-" + (Format(f.bandwidth.value) + ("kbit-" + time)))
  }

  /** A case is named for the protocol and for what its fault does. */
  lemma {:induction false} NameTellsFault(
      protocol: string, p: Profile, duration: int, namespace: string, interface: string)
    requires ValidProfile(p, duration)
    ensures var c := CaseFor(protocol, p, duration, namespace, interface);
            && c.protocol == protocol && WellFormed(c.fault) && c.fault.duration != None
            && c.id == NameOf(protocol, c.fault)
            && c.plan == PlanFor(interface, namespace, c.fault)
  {
  }

  // ----- Case names are unique -----

  /** Two letters after the first dash tell the kinds of profile apart. */
  function Mark(p: Profile): (char, char) {
    match p
    case Loss(_) => ('l', 'o')
    case Burst(_, _) => ('b', 'u')
    case Latency(_) => ('l', 'a')
    case Jitter(_, _) => ('j', 'i')
    case Bandwidth(_) => ('b', 'a')
    case Disconnect(_) => ('d', 'i')
  }

  lemma {:induction false} TailShowsKind(p: Profile, duration: int)
    requires ValidProfile(p, duration)
    ensures var tail := IdTail(p, duration);
            |tail| > 2 && tail[0] == '-' && (tail[1], tail[2]) == Mark(p)
  {
  }

  lemma {:induction false} LastNumber(m: nat, n: nat)
    requires Format(m) + "s" == Format(n) + "s"
    ensures m == n
  {
    NumberThenText(m, n, "s", "s");
  }

  /** One number between two fixed texts, then the duration. */
  lemma {:induction false} OneNumber(head: string, a: nat, b: nat, unit: string, d: nat, e: nat)
    requires unit != [] && !IsDigit(unit[0])
    requires head + (Format(a) + (unit + (Format(d) + "s"))) == head + (Format(b) + (unit + (Format(e) + "s")))
    ensures a == b && d == e
  {
    CancelPrefix(head, head, Format(a) + (unit + (Format(d) + "s")), Format(b) + (unit + (Format(e) + "s")));
    NumberThenText(a, b, unit + (Format(d) + "s"), unit + (Format(e) + "s"));
    CancelPrefix(unit, unit, Format(d) + "s", Format(e) + "s");
    LastNumber(d, e);
  }

  lemma {:induction false} TwoNumbers(
    head: string, a: nat, b: nat, middle: string, x: nat, y: nat, unit: string, d: nat, e: nat)
    requires unit != [] && !IsDigit(unit[0]) && middle != [] && !IsDigit(middle[0])
    requires head + (Format(a) + (middle + (Format(x) + (unit + (Format(d) + "s")))))
             == head + (Format(b) + (middle + (Format(y) + (unit + (Format(e) + "s")))))
    ensures a == b && x == y && d == e
  {
    var restA, restB := middle + (Format(x) + (unit + (Format(d) + "s"))), middle + (Format(y) + (unit + (Format(e) + "s")));
    CancelPrefix(head, head, Format(a) + restA, Format(b) + restB);
    NumberThenText(a, b, restA, restB);
    OneNumber(middle, x, y, unit, d, e);
  }

  lemma {:induction false} SameTailSameKind(p: Profile, q: Profile, d: int, e: int)
    requires ValidProfile(p, d) && ValidProfile(q, e) && IdTail(p, d) == IdTail(q, e)
    ensures Mark(p) == Mark(q)
  {
    TailShowsKind(p, d);
    TailShowsKind(q, e);
  }

  lemma {:induction false} TailDeterminesOne(p: Profile, q: Profile, d: int, e: int)
    requires ValidProfile(p, d) && ValidProfile(q, e) && IdTail(p, d) == IdTail(q, e)
    requires (p.Loss? && q.Loss?) || (p.Latency? && q.Latency?)
    ensures p == q && d == e
  {
    match p
    case Loss(a) => OneNumber("-loss-", a, q.percent, "pct-", d, e);
    case Latency(a) => OneNumber("-latency-", a, q.ms, "ms-", d, e);
  }

  lemma {:induction false} TailDeterminesRate(p: Profile, q: Profile, d: int, e: int)
    requires ValidProfile(p, d) && ValidProfile(q, e) && IdTail(p, d) == IdTail(q, e)
    requires p.Bandwidth? && q.Bandwidth?
    ensures p == q && d == e
  {
    OneNumber("-bandwidth-", p.kbit, q.kbit, "kbit-", d, e);
  }

  lemma {:induction false} TailDeterminesTwo(p: Profile, q: Profile, d: int, e: int)
    requires ValidProfile(p, d) && ValidProfile(q, e) && IdTail(p, d) == IdTail(q, e)
    requires (p.Burst? && q.Burst?) || (p.Jitter? && q.Jitter?)
    ensures p == q && d == e
  {
    match p
    case Burst(a, x) => TwoNumbers("-burst-loss-", a, q.percent, "pct-corr-", x, q.correlation, "pct-", d, e);
    case Jitter(a, x) => TwoNumbers("-jitter-", a, q.ms, "ms-", x, q.jitter, "ms-", d, e);
  }

  lemma {:induction false} TailDeterminesSeconds(p: Profile, q: Profile, d: int, e: int)
    requires ValidProfile(p, d) && ValidProfile(q, e) && IdTail(p, d) == IdTail(q, e)
    requires p.Disconnect? && q.Disconnect?
    ensures p == q
  {
    CancelPrefix("-disconnect-", "-disconnect-", Format(p.seconds) + "s", Format(q.seconds) + "s");
    LastNumber(p.seconds, q.seconds);
  }

  lemma {:induction false} TailDetermines(p: Profile, q: Profile, d: int, e: int)
    requires ValidProfile(p, d) && ValidProfile(q, e) && IdTail(p, d) == IdTail(q, e)
    ensures p == q && (p.Disconnect? || d == e)
  {
    SameTailSameKind(p, q, d, e);
    match p
    case Loss(_) => TailDeterminesOne(p, q, d, e);
    case Latency(_) => TailDeterminesOne(p, q, d, e);
    case Bandwidth(_) => TailDeterminesRate(p, q, d, e);
    case Burst(_, _) => TailDeterminesTwo(p, q, d, e);
    case Jitter(_, _) => TailDeterminesTwo(p, q, d, e);
    case Disconnect(_) => TailDeterminesSeconds(p, q, d, e);
  }

  /** A case name determines the protocol, the profile and, but for disconnects, the profile duration. */
  lemma {:induction false} IdDetermines(s: string, t: string, p: Profile, q: Profile, d: int, e: int)
    requires s in PROTOCOL_CHOICES && t in PROTOCOL_CHOICES
    requires ValidProfile(p, d) && ValidProfile(q, e) && CaseId(s, p, d) == CaseId(t, q, e)
    ensures s == t && p == q && (p.Disconnect? || d == e)
  {
    assert CaseId(s, p, d)[0] == s[0] && CaseId(t, q, e)[0] == t[0];
    CancelPrefix(s, t, IdTail(p, d), IdTail(q, e));
    TailDetermines(p, q, d, e);
  }
}

/** The validation of one requested network fault and the commands that apply and remove it. */
module FaultPlan {
  import opened Prelude
  import opened Decimal

  const LOSS_PERCENT_CHOICES: seq<int> := [1, 3, 5, 10]
  const LATENCY_MS_CHOICES: seq<int> := [50, 100, 300, 1000]
  const DURATION_SECONDS_CHOICES: seq<int> := [10, 30, 120, 600]
  const BURST_CORRELATION_PERCENT_MIN := 1
  const BURST_CORRELATION_PERCENT_MAX := 99
  const BANDWIDTH_KBIT_MIN := 64
  const BANDWIDTH_KBIT_MAX := 100_000

  datatype Fault = Fault(
    loss: Option<int>, burstLoss: Option<int>, burstCorrelation: Option<int>, latency: Option<int>,
    jitter: Option<int>, bandwidth: Option<int>, disconnect: bool, duration: Option<int>)

  datatype Plan = Plan(
    interface: string, namespace: string, apply: seq<string>, cleanup: seq<string>, duration: Option<int>)

  datatype PlanError =
    | BadInterface | LoopbackNotAllowed | BadNamespace
    | BadLoss | BadBurstLoss | CorrelationWithoutBurst | BurstWithLoss | BadCorrelation
    | BadLatency | JitterWithoutLatency | BadJitter | BadBandwidth
    | DisconnectCombined | NothingSelected | BadDuration

  predicate Alphanumeric(c: char) {
    'A' <= c <= 'Z' || 'a' <= c <= 'z' || '0' <= c <= '9'
  }

  predicate IsInterface(s: string) {
    && 0 < |s| <= 15 && s[0] != '-'
    && forall i :: 0 <= i < |s| ==> Alphanumeric(s[i]) || s[i] in "_.:@-"
  }

  predicate IsNamespace(s: string) {
    && 0 < |s| <= 63 && s[0] != '-'
    && forall i :: 0 <= i < |s| ==> Alphanumeric(s[i]) || s[i] in "_.-"
  }

  /** The first complaint about where the fault is to be applied. */
  function PlaceError(interface: string, namespace: string, allowLoopback: bool): Option<PlanError> {
    if !IsInterface(interface) then Some(BadInterface)
    else if interface == "lo" && !allowLoopback then Some(LoopbackNotAllowed)
    else if !IsNamespace(namespace) then Some(BadNamespace)
    else None
  }

  function BurstError(f: Fault): Option<PlanError> {
    if f.burstLoss == None then
      if f.burstCorrelation != None then Some(CorrelationWithoutBurst) else None
    else if f.loss != None then Some(BurstWithLoss)
    else if f.burstCorrelation == None
            || f.burstCorrelation.value < BURST_CORRELATION_PERCENT_MIN
            || f.burstCorrelation.value > BURST_CORRELATION_PERCENT_MAX then Some(BadCorrelation)
    else None
  }

  function DelayError(f: Fault): Option<PlanError> {
    if f.latency != None && f.latency.value !in LATENCY_MS_CHOICES then Some(BadLatency)
    else if f.jitter == None then None
    else if f.latency == None then Some(JitterWithoutLatency)
    else if f.jitter.value <= 0 || f.jitter.value > f.latency.value then Some(BadJitter)
    else None
  }

  function SelectionError(f: Fault): Option<PlanError> {
    if f.bandwidth != None && (f.bandwidth.value < BANDWIDTH_KBIT_MIN || f.bandwidth.value > BANDWIDTH_KBIT_MAX)
    then Some(BadBandwidth)
    else if f.disconnect && (f.loss != None || f.burstLoss != None || f.burstCorrelation != None
                             || f.latency != None || f.jitter != None || f.bandwidth != None)
    then Some(DisconnectCombined)
    else if !f.disconnect && f.loss == None && f.burstLoss == None && f.latency == None && f.bandwidth == None
    then Some(NothingSelected)
    else if f.duration != None && f.duration.value !in DURATION_SECONDS_CHOICES then Some(BadDuration)
    else None
  }

  /** The first complaint about the fault itself. */
  function FaultError(f: Fault): Option<PlanError> {
    if f.loss != None && f.loss.value !in LOSS_PERCENT_CHOICES then Some(BadLoss)
    else if f.burstLoss != None && f.burstLoss.value !in LOSS_PERCENT_CHOICES then Some(BadBurstLoss)
    else
      var burst := BurstError(f);
      if burst != None then burst
      else
        var delay := DelayError(f);
        if delay != None then delay else SelectionError(f)
  }

  /** What an accepted fault is: exactly one kind of loss or none, bounded shaping, or a lone disconnect. */
  predicate WellFormed(f: Fault) {
    && (f.loss != None ==> f.loss.value in LOSS_PERCENT_CHOICES && f.burstLoss == None)
    && (f.burstLoss != None <==> f.burstCorrelation != None)
    && (f.burstLoss != None ==> f.burstLoss.value in LOSS_PERCENT_CHOICES && 1 <= f.burstCorrelation.value <= 99)
    && (f.latency != None ==> f.latency.value in LATENCY_MS_CHOICES)
    && (f.jitter != None ==> f.latency != None && 0 < f.jitter.value <= f.latency.value)
    && (f.bandwidth != None ==> 64 <= f.bandwidth.value <= 100_000)
    && (f.duration != None ==> f.duration.value in DURATION_SECONDS_CHOICES)
    && (f.disconnect <==> f.loss == None && f.burstLoss == None && f.latency == None && f.bandwidth == None)
  }

  lemma {:induction false} AcceptedIsWellFormed(f: Fault)
    ensures FaultError(f) == None <==> WellFormed(f)
  {
  }

  /** Every complaint names a defect of the request. */
  lemma {:induction false} ComplaintIsTrue(f: Fault)
    ensures match FaultError(f)
            case None => true
            case Some(BadLoss) => f.loss != None && f.loss.value !in {1, 3, 5, 10}
            case Some(BadBurstLoss) => f.burstLoss != None && f.burstLoss.value !in {1, 3, 5, 10}
            case Some(CorrelationWithoutBurst) => f.burstCorrelation != None && f.burstLoss == None
            case Some(BurstWithLoss) => f.burstLoss != None && f.loss != None
            case Some(BadCorrelation) =>
              f.burstLoss != None && (f.burstCorrelation == None || !(1 <= f.burstCorrelation.value <= 99))
            case Some(BadLatency) => f.latency != None && f.latency.value !in {50, 100, 300, 1000}
            case Some(JitterWithoutLatency) => f.jitter != None && f.latency == None
            case Some(BadJitter) => f.jitter != None && f.latency != None && !(0 < f.jitter.value <= f.latency.value)
            case Some(BadBandwidth) => f.bandwidth != None && !(64 <= f.bandwidth.value <= 100_000)
            case Some(DisconnectCombined) =>
              f.disconnect && Fault(None, None, None, None, None, None, true, f.duration) != f
            case Some(NothingSelected) => f == Fault(None, None, None, None, None, None, false, f.duration)
            case Some(BadDuration) => f.duration != None && f.duration.value !in {10, 30, 120, 600}
            case Some(_) => false
  {
  }

  /** A plan is made for exactly the well-formed faults on permitted devices of named namespaces. */
  lemma {:induction false} PlannedIff(interface: string, namespace: string, f: Fault, allowLoopback: bool)
    ensures Planned(interface, namespace, f, allowLoopback).Ok? <==>
            IsInterface(interface) && (interface == "lo" ==> allowLoopback) && IsNamespace(namespace) && WellFormed(f)
    ensures Planned(interface, namespace, f, allowLoopback).Ok? ==>
              Planned(interface, namespace, f, allowLoopback) == Ok(PlanFor(interface, namespace, f))
  {
    AcceptedIsWellFormed(f);
  }

  function Prefix(namespace: string): seq<string> {
    ["ip", "netns", "exec", namespace]
  }

  function LossArguments(f: Fault): seq<string>
    requires WellFormed(f)
  {
    if f.disconnect then ["loss", "100%"]
    else if f.burstLoss != None then
      ["loss", "random", Format(f.burstLoss.value) + "%", Format(f.burstCorrelation.value) + "%"]
    else if f.loss != None then ["loss", Format(f.loss.value) + "%"]
    else []
  }

  function DelayArguments(f: Fault): seq<string>
    requires WellFormed(f)
  {
    if f.latency == None then []
    else if f.jitter == None then ["delay", Format(f.latency.value) + "ms"]
    else ["delay", Format(f.latency.value) + "ms", Format(f.jitter.value) + "ms"]
  }

  function RateArguments(f: Fault): seq<string>
    requires WellFormed(f)
  {
    if f.bandwidth == None then [] else ["rate", Format(f.bandwidth.value) + "kbit"]
  }

  function Arguments(f: Fault): seq<string>
    requires WellFormed(f)
  {
    LossArguments(f) + (DelayArguments(f) + RateArguments(f))
  }

  function ApplyHead(interface: string, namespace: string): seq<string> {
    Prefix(namespace) + ["tc", "qdisc", "replace", "dev", interface, "root", "netem"]
  }

  function PlanFor(interface: string, namespace: string, f: Fault): Plan
    requires WellFormed(f)
  {
    Plan(interface, namespace, ApplyHead(interface, namespace) + Arguments(f),
         Prefix(namespace) + ["tc", "qdisc", "del", "dev", interface, "root"], f.duration)
  }

  function Planned(interface: string, namespace: string, f: Fault, allowLoopback: bool): Result<Plan, PlanError> {
    var place := PlaceError(interface, namespace, allowLoopback);
    if place != None then Err(place.value)
    else
      AcceptedIsWellFormed(f);
      var fault := FaultError(f);
      if fault != None then Err(fault.value) else Ok(PlanFor(interface, namespace, f))
  }

  method ExtendWithLoss(head: seq<string>, f: Fault) returns (argv: seq<string>)
    requires WellFormed(f)
    ensures argv == head + LossArguments(f)
  {
    argv := head;
    if f.disconnect {
      argv := argv + ["loss", "100%"];
    } else if f.burstLoss != None {
      argv := argv + ["loss", "random", Format(f.burstLoss.value) + "%", Format(f.burstCorrelation.value) + "%"];
    } else if f.loss != None {
      argv := argv + ["loss", Format(f.loss.value) + "%"];
    }
  }

  method ExtendWithShaping(head: seq<string>, f: Fault) returns (argv: seq<string>)
    requires WellFormed(f)
    ensures argv == head + (DelayArguments(f) + RateArguments(f))
  {
    argv := head;
    if f.latency != None {
      argv := argv + ["delay", Format(f.latency.value) + "ms"];
      if f.jitter != None {
        argv := argv + [Format(f.jitter.value) + "ms"];
      }
    }
    assert argv == head + DelayArguments(f);
    if f.bandwidth != None {
      argv := argv + ["rate", Format(f.bandwidth.value) + "kbit"];
    }
    assert argv == head + (DelayArguments(f) + RateArguments(f));
  }

  /** Validation first, then one argument vector that grows in place. */
  method BuildFaultPlan(interface: string, namespace: string, f: Fault, allowLoopback: bool)
    returns (r: Result<Plan, PlanError>)
    ensures r == Planned(interface, namespace, f, allowLoopback)
  {
    var place := PlaceError(interface, namespace, allowLoopback);
    if place != None {
      return Err(place.value);
    }
    var complaint := FaultError(f);
    if complaint != None {
      return Err(complaint.value);
    }
    AcceptedIsWellFormed(f);
    var head := ApplyHead(interface, namespace);
    var argv := ExtendWithLoss(head, f);
    argv := ExtendWithShaping(argv, f);
    Regroup(head, LossArguments(f), DelayArguments(f) + RateArguments(f));
    r := Ok(Plan(interface, namespace, argv,
                 Prefix(namespace) + ["tc", "qdisc", "del", "dev", interface, "root"], f.duration));
  }

  lemma {:induction false} Regroup<T>(a: seq<T>, b: seq<T>, c: seq<T>)
    ensures (a + b) + c == a + (b + c)
  {
  }

  // ----- What the commands mean -----

  /** A number with its unit. */
  function ReadUnit(word: string, unit: string): Option<int> {
    if Run(word) > 0 && word[Run(word)..] == unit then Some(Number(word)) else None
  }

  /** The loss at the front of the netem arguments, and the arguments behind it. */
  function ReadLoss(args: seq<string>): Option<(Fault, seq<string>)> {
    var none := Fault(None, None, None, None, None, None, false, None);
    if args == [] || args[0] != "loss" then Some((none, args))
    else if |args| > 3 && args[1] == "random" then
      var base, correlation := ReadUnit(args[2], "%"), ReadUnit(args[3], "%");
      if base == None || correlation == None then None
      else Some((none.(burstLoss := base, burstCorrelation := correlation), args[4..]))
    else
      var percent := if |args| > 1 then ReadUnit(args[1], "%") else None;
      if percent == None then None
      else if percent == Some(100) then Some((none.(disconnect := true), args[2..]))
      else Some((none.(loss := percent), args[2..]))
  }

  function ReadDelay(f: Fault, args: seq<string>): Option<(Fault, seq<string>)> {
    if args == [] || args[0] != "delay" then Some((f, args))
    else if |args| < 2 || ReadUnit(args[1], "ms") == None then None
    else
      var g := f.(latency := ReadUnit(args[1], "ms"));
      if |args| > 2 && ReadUnit(args[2], "ms").Some? then
        Some((g.(jitter := ReadUnit(args[2], "ms")), args[3..]))
      else Some((g, args[2..]))
  }

  function ReadRate(f: Fault, args: seq<string>): Option<Fault> {
    if args == [] then Some(f)
    else if |args| != 2 || args[0] != "rate" || ReadUnit(args[1], "kbit") == None then None
    else Some(f.(bandwidth := ReadUnit(args[1], "kbit")))
  }

  /** The arguments of netem: loss, delay and rate, in this order and nothing else. */
  function ReadNetem(args: seq<string>): Option<Fault> {
    match ReadLoss(args)
    case None => None
    case Some((f, behind)) =>
      match ReadDelay(f, behind)
      case None => None
      case Some((g, last)) => ReadRate(g, last)
  }

  /** A device of a namespace. */
  datatype Device = Device(namespace: string, name: string)

  datatype Command = Replace(device: Device, netem: Fault) | Remove(device: Device)

  function ReadCommand(argv: seq<string>): Option<Command> {
    if |argv| < 10 || argv[..3] != ["ip", "netns", "exec"] || argv[4..6] != ["tc", "qdisc"]
       || argv[7] != "dev" || argv[9] != "root" then None
    else if argv[6] == "del" then
      if |argv| == 10 then Some(Remove(Device(argv[3], argv[8]))) else None
    else if argv[6] == "replace" && |argv| > 10 && argv[10] == "netem" then
      match ReadNetem(argv[11..])
      case None => None
      case Some(f) => Some(Replace(Device(argv[3], argv[8]), f))
    else None
  }

  /** The devices whose root queueing discipline was configured, with the fault that it makes. */
  type Qdiscs = map<Device, Fault>

  /** What a command does to them. It fails if it cannot be read or has nothing to remove. */
  function Exec(q: Qdiscs, argv: seq<string>): Option<Qdiscs> {
    match ReadCommand(argv)
    case None => None
    case Some(Replace(device, f)) => Some(q[device := f])
    case Some(Remove(device)) => if device in q then Some(q - {device}) else None
  }

  lemma {:induction false} UnitIsRead(n: nat, unit: string)
    requires unit != [] && !IsDigit(unit[0])
    ensures ReadUnit(Format(n) + unit, unit) == Some(n)
  {
    NumberOf(n, unit);
    DropHead(Format(n), unit);
  }

  lemma {:induction false} HundredPercent()
    ensures ReadUnit("100%", "%") == Some(100)
  {
    assert "100%" == Format(100) + "%" by {
      assert Format(1) == "1" && Format(10) == "10" && Format(100) == "100";
    }
    UnitIsRead(100, "%");
  }

  lemma {:induction false} DropHead<T>(a: seq<T>, b: seq<T>)
    ensures (a + b)[|a|..] == b
  {
  }

  function LossPart(f: Fault): Fault {
    f.(latency := None, jitter := None, bandwidth := None, duration := None)
  }

  function DelayPart(f: Fault): Fault {
    f.(bandwidth := None, duration := None)
  }

  lemma {:induction false} BurstIsRead(f: Fault, rest: seq<string>)
    requires WellFormed(f) && f.burstLoss != None
    ensures ReadLoss(LossArguments(f) + rest) == Some((LossPart(f), rest))
  {
    DropHead(LossArguments(f), rest);
    UnitIsRead(f.burstLoss.value, "%");
    UnitIsRead(f.burstCorrelation.value, "%");
    assert (LossArguments(f) + rest)[1] == "random";
  }

  /** A number does not read as the word that announces a burst. */
  lemma {:induction false} NotRandom(n: nat)
    ensures Format(n) + "%" != "random"
  {
    OnlyDigits(n);
    assert (Format(n) + "%")[0] == Format(n)[0];
  }

  lemma {:induction false} PlainLossIsRead(f: Fault, rest: seq<string>)
    requires WellFormed(f) && f.loss != None
    ensures ReadLoss(LossArguments(f) + rest) == Some((LossPart(f), rest))
  {
    DropHead(LossArguments(f), rest);
    UnitIsRead(f.loss.value, "%");
    NotRandom(f.loss.value);
  }

  lemma {:induction false} LossIsRead(f: Fault, rest: seq<string>)
    requires WellFormed(f) && (rest != [] ==> rest[0] != "loss")
    ensures ReadLoss(LossArguments(f) + rest) == Some((LossPart(f), rest))
  {
    if f.burstLoss != None {
      BurstIsRead(f, rest);
    } else if f.loss != None {
      PlainLossIsRead(f, rest);
    } else if f.disconnect {
      DropHead(LossArguments(f), rest);
      HundredPercent();
    } else {
      assert LossArguments(f) + rest == rest;
    }
  }

  lemma {:induction false} DelayIsRead(f: Fault)
    requires WellFormed(f)
    ensures ReadDelay(LossPart(f), DelayArguments(f) + RateArguments(f)) == Some((DelayPart(f), RateArguments(f)))
  {
    DropHead(DelayArguments(f), RateArguments(f));
    if f.latency == None {
      assert DelayArguments(f) + RateArguments(f) == RateArguments(f);
    } else {
      UnitIsRead(f.latency.value, "ms");
      if f.jitter != None {
        UnitIsRead(f.jitter.value, "ms");
      }
    }
  }

  lemma {:induction false} RateIsRead(f: Fault)
    requires WellFormed(f)
    ensures ReadRate(DelayPart(f), RateArguments(f)) == Some(f.(duration := None))
  {
    if f.bandwidth != None {
      UnitIsRead(f.bandwidth.value, "kbit");
    }
  }

  /** A request loses nothing on its way into the arguments of netem. */
  lemma {:induction false} ArgumentsRoundTrip(f: Fault)
    requires WellFormed(f)
    ensures ReadNetem(Arguments(f)) == Some(f.(duration := None))
  {
    LossIsRead(f, DelayArguments(f) + RateArguments(f));
    DelayIsRead(f);
    RateIsRead(f);
  }

  lemma {:induction false} ReplaceIsRead(interface: string, namespace: string, args: seq<string>)
    requires ReadNetem(args).Some?
    ensures ReadCommand(ApplyHead(interface, namespace) + args)
            == Some(Replace(Device(namespace, interface), ReadNetem(args).value))
  {
    var head := ApplyHead(interface, namespace);
    var argv := head + args;
    DropHead(head, args);
    assert argv[..3] == head[..3] && argv[4..6] == head[4..6];
  }

  lemma {:induction false} RemoveIsRead(interface: string, namespace: string)
    ensures ReadCommand(Prefix(namespace) + ["tc", "qdisc", "del", "dev", interface, "root"])
            == Some(Remove(Device(namespace, interface)))
  {
    var argv := Prefix(namespace) + ["tc", "qdisc", "del", "dev", interface, "root"];
    assert argv[..3] == ["ip", "netns", "exec"] && argv[4..6] == ["tc", "qdisc"];
  }

  /**
   * The plan as it was asked for: the first command puts exactly the requested fault on the named device
   * of the named namespace, the second removes what is there, and the duration is kept.
   */
  lemma {:induction false} PlanRoundTrip(interface: string, namespace: string, f: Fault)
    requires WellFormed(f)
    ensures var p := PlanFor(interface, namespace, f);
            && p.interface == interface && p.namespace == namespace && p.duration == f.duration
            && ReadCommand(p.apply) == Some(Replace(Device(namespace, interface), f.(duration := None)))
            && ReadCommand(p.cleanup) == Some(Remove(Device(namespace, interface)))
  {
    ArgumentsRoundTrip(f);
    ReplaceIsRead(interface, namespace, Arguments(f));
    RemoveIsRead(interface, namespace);
  }

  /**
   * Applying a plan configures one device and no other, and cleaning up restores every device, except
   * that a discipline that was configured there before is gone.
   */
  lemma {:induction false} CleanupUndoesApply(interface: string, namespace: string, f: Fault, q: Qdiscs)
    requires WellFormed(f)
    ensures var p, device := PlanFor(interface, namespace, f), Device(namespace, interface);
            && Exec(q, p.apply) == Some(q[device := f.(duration := None)])
            && Exec(q[device := f.(duration := None)], p.cleanup) == Some(q - {device})
            && (q - {device} == q <==> device !in q)
  {
    PlanRoundTrip(interface, namespace, f);
    assert q[Device(namespace, interface) := f.(duration := None)] - {Device(namespace, interface)}
        == q - {Device(namespace, interface)};
  }

  /** Both commands run inside the named namespace and on the named device. */
  lemma {:induction false} PlanStaysInNamespace(interface: string, namespace: string, f: Fault)
    requires WellFormed(f)
    ensures var p := PlanFor(interface, namespace, f);
            && |p.apply| >= 11 && p.apply[..4] == ["ip", "netns", "exec", namespace]
            && p.apply[4..11] == ["tc", "qdisc", "replace", "dev", interface, "root", "netem"]
            && p.cleanup == ["ip", "netns", "exec", namespace, "tc", "qdisc", "del", "dev", interface, "root"]
  {
  }
}

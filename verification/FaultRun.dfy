/**
 * Carrying out a fault: apply, wait and clean up, although either command may fail or be interrupted
 * with or without having had its effect.
 */
module FaultRun {
  import opened Prelude
  import opened Environment
  import opened FaultPlan
  import opened FaultMatrix
  import opened FaultCases

  datatype Status = Success | Failure | Interrupt

  datatype Outcome =
    | Code(code: int) | NotConfirmed | Rejected(reason: MatrixError)
    | ApplyFailed | CleanupFailed | ApplyAndCleanupFailed

  /** What is configured after a command. A command that cannot be carried out changes nothing. */
  function Effect(q: Qdiscs, argv: seq<string>, b: Behaviour): Qdiscs {
    match Exec(q, argv)
    case None => q
    case Some(changed) => if Acts(b) then changed else q
  }

  /** The commands of the plan put the fault on its device and take away what is there. */
  ghost predicate Means(p: Plan, f: Fault) {
    && ReadCommand(p.apply) == Some(Replace(Device(p.namespace, p.interface), f))
    && ReadCommand(p.cleanup) == Some(Remove(Device(p.namespace, p.interface)))
  }

  /** No other device changed, and the device of the plan is unconfigured unless the outcome says otherwise. */
  ghost predicate Restored(p: Plan, before: Qdiscs, after: Qdiscs, o: Outcome) {
    var device := Device(p.namespace, p.interface);
    && after - {device} == before - {device}
    && (o.Code? || o == ApplyFailed ==> device !in after)
  }

  /** The devices of all namespaces, with a log of every command that was run. */
  class Host {
    var qdiscs: Qdiscs
    var log: seq<seq<string>>

    constructor (initial: Qdiscs)
      ensures qdiscs == initial && log == []
    {
      qdiscs, log := initial, [];
    }

    method Run(argv: seq<string>, b: Behaviour) returns (s: Status)
      modifies this
      ensures log == old(log) + [argv] && qdiscs == Effect(old(qdiscs), argv, b)
      ensures s == match b
                   case Normal => if Exec(old(qdiscs), argv).Some? then Success else Failure
                   case Fails(_) => Failure
                   case Interrupts(_) => Interrupt
    {
      log := log + [argv];
      var changed := Exec(qdiscs, argv);
      if changed.Some? && Acts(b) {
        qdiscs := changed.value;
      }
      match b {
        case Normal => s := if changed.Some? then Success else Failure;
        case Fails(_) => s := Failure;
        case Interrupts(_) => s := Interrupt;
      }
    }

    /**
     * Apply, wait, clean up. Whatever happens, the cleanup is tried once and no other device changes; the
     * device is unconfigured unless the outcome says that the cleanup failed. `during` is what was
     * configured in between.
     */
    method ApplyPlan(
        p: Plan, ghost f: Fault, apply: Behaviour, sleepInterrupted: bool, cleanup: Behaviour)
      returns (o: Outcome, ghost during: Qdiscs)
      requires Means(p, f)
      modifies this
      ensures log == old(log) + [p.apply, p.cleanup]
      ensures var device := Device(p.namespace, p.interface);
              && during == (if Acts(apply) then old(qdiscs)[device := f] else old(qdiscs))
              && qdiscs == if Acts(cleanup) then during - {device} else during
      ensures o == CleanupFailed || o == ApplyAndCleanupFailed <==>
              cleanup != Normal || Device(p.namespace, p.interface) !in during
      ensures o == ApplyFailed || o == ApplyAndCleanupFailed <==> apply.Fails?
      ensures o == Code(0) || o == Code(130) || o == ApplyFailed ==> qdiscs == old(qdiscs) - {Device(p.namespace, p.interface)}
      ensures o.Code? ==> o == Code(if apply.Interrupts? || sleepInterrupted then 130 else 0)
      ensures o.Code? || o in {ApplyFailed, CleanupFailed, ApplyAndCleanupFailed}
      ensures Restored(p, old(qdiscs), qdiscs, o)
      ensures o == Code(0) <==> apply == Normal && !sleepInterrupted && cleanup == Normal
    {
      CommandsAct(p, f, qdiscs, apply);
      var applied := Run(p.apply, apply);
      var interrupted := applied == Interrupt || (applied == Success && sleepInterrupted);
      during := qdiscs;
      CommandsAct(p, f, qdiscs, cleanup);
      var cleaned := Run(p.cleanup, cleanup);
      if cleaned != Success {
        o := if applied == Failure then ApplyAndCleanupFailed else CleanupFailed;
      } else if applied == Failure {
        o := ApplyFailed;
      } else {
        o := Code(if interrupted then 130 else 0);
      }
    }

    /** The whole runner: only an acknowledged case that the matrix emits reaches the host. */
    method ExecuteCase(
        c: Case, confirmed: bool, allowLoopback: bool, apply: Behaviour, sleepInterrupted: bool, cleanup: Behaviour)
      returns (o: Outcome)
      modifies this
      ensures !confirmed ==> o == NotConfirmed
      ensures confirmed && Validated(c, allowLoopback).Err? ==> o == Rejected(Validated(c, allowLoopback).error)
      ensures !confirmed || !Emitted(c, allowLoopback) ==> log == old(log) && qdiscs == old(qdiscs)
      ensures confirmed && Emitted(c, allowLoopback) ==>
                && log == old(log) + [c.plan.apply, c.plan.cleanup]
                && Restored(c.plan, old(qdiscs), qdiscs, o)
                && (o == Code(0) <==> apply == Normal && !sleepInterrupted && cleanup == Normal)
    {
      if !confirmed {
        return NotConfirmed;
      }
      var checked := ValidatedGeneratedCase(c, allowLoopback);
      if checked.Err? {
        return Rejected(checked.error);
      }
      EmittedPlanMeansItsFault(c, allowLoopback);
      ghost var during;
      o, during := ApplyPlan(c.plan, c.fault.(duration := None), apply, sleepInterrupted, cleanup);
    }
  }

  lemma {:induction false} EmittedPlanMeansItsFault(c: Case, allowLoopback: bool)
    requires Emitted(c, allowLoopback)
    ensures Means(c.plan, c.fault.(duration := None))
  {
    ExecutableIffEmitted(c, c, allowLoopback);
    ExecutableIsConfined(c, allowLoopback);
  }

  /** What the two commands of a plan do, whatever is configured before them. */
  lemma {:induction false} CommandsAct(p: Plan, f: Fault, q: Qdiscs, b: Behaviour)
    requires Means(p, f)
    ensures var device := Device(p.namespace, p.interface);
            && Exec(q, p.apply).Some?
            && Effect(q, p.apply, b) == (if Acts(b) then q[device := f] else q)
            && (Exec(q, p.cleanup).Some? <==> device in q)
            && Effect(q, p.cleanup, b) == (if Acts(b) then q - {device} else q)
  {
    var device := Device(p.namespace, p.interface);
    assert device !in q ==> q - {device} == q;
  }
}

/**
 * The DNS fault injector: insert two firewall rules, wait, and remove exactly what was inserted,
 * although any command may fail or be interrupted with or without having had its effect.
 */
module DnsFault {
  import opened Prelude
  import opened Environment

  datatype Rule = Rule(protocol: string, resolver: string, comment: string)

  datatype Command = Check(rule: Rule) | Insert(rule: Rule) | Delete(rule: Rule)

  /**
   * How a command ends. Under normal behaviour a check reports truthfully, an insertion puts the rule
   * first, and a deletion removes the first match or finds none.
   */
  datatype Status = Success | NoMatch | Failure | Interrupt

  datatype Outcome =
    | Code(code: int) | NotConfirmed | RuleExists | CheckFailed | CheckInterrupted
    | ApplyFailed | CleanupFailed | ApplyAndCleanupFailed

  /** The exact rules of one fault, in the order in which they are applied. */
  function PlanRules(resolver: string, ruleId: string): (rules: seq<Rule>)
    ensures |rules| == 2 && Distinct(rules)
  {
    [Rule("udp", resolver, CommentOf(ruleId, "udp")), Rule("tcp", resolver, CommentOf(ruleId, "tcp"))]
  }

  function CommentOf(ruleId: string, protocol: string): string {
    "irlight-qa-dns-fault:" + ruleId + ":" + protocol
  }

  /**
   * A fault rejects both transports of DNS at one resolver, and its rules are its own: another resolver or
   * rule identifier shares none of them, so no fault removes the rules of another.
   */
  lemma {:induction false} RulesAreItsOwn(resolver: string, ruleId: string, resolver2: string, ruleId2: string)
    ensures var rules := PlanRules(resolver, ruleId);
            && rules[0].protocol == "udp" && rules[1].protocol == "tcp"
            && (forall r :: r in rules ==> r.resolver == resolver)
    ensures (exists r :: r in PlanRules(resolver, ruleId) && r in PlanRules(resolver2, ruleId2))
            <==> resolver == resolver2 && ruleId == ruleId2
  {
    var rules := PlanRules(resolver, ruleId);
    if r :| r in rules && r in PlanRules(resolver2, ruleId2) {
      CommentShowsId(ruleId, ruleId2, "udp");
      CommentShowsId(ruleId, ruleId2, "tcp");
      assert r.comment == CommentOf(ruleId, r.protocol) && r.comment == CommentOf(ruleId2, r.protocol);
    }
    assert rules[0] in rules;
  }

  lemma {:induction false} CommentShowsId(a: string, b: string, protocol: string)
    requires |protocol| == 3
    ensures CommentOf(a, protocol) == CommentOf(b, protocol) ==> a == b
  {
    var s, t := CommentOf(a, protocol), CommentOf(b, protocol);
    assert a == s[21..|s| - 4] && b == t[21..|t| - 4];
  }

  predicate Distinct(s: seq<Rule>) {
    forall i, j :: 0 <= i < j < |s| ==> s[i] != s[j]
  }

  function Members(s: seq<Rule>): set<Rule> {
    set r | r in s
  }

  function RemoveFirst(chain: seq<Rule>, rule: Rule): seq<Rule> {
    if chain == [] then []
    else if chain[0] == rule then chain[1..]
    else [chain[0]] + RemoveFirst(chain[1..], rule)
  }

  lemma {:induction false} NothingToRemove(chain: seq<Rule>, rule: Rule)
    requires rule !in chain
    ensures RemoveFirst(chain, rule) == chain
  {
    if chain != [] {
      NothingToRemove(chain[1..], rule);
    }
  }

  /** One command per rule, in order. */
  function Checks(rules: seq<Rule>): (r: seq<Command>)
    ensures |r| == |rules|
  {
    seq(|rules|, i requires 0 <= i < |rules| => Check(rules[i]))
  }

  function Inserts(rules: seq<Rule>): (r: seq<Command>)
    ensures |r| == |rules|
  {
    seq(|rules|, i requires 0 <= i < |rules| => Insert(rules[i]))
  }

  /** Exactly one deletion per rule, last rule first. */
  function Deletes(rules: seq<Rule>): (r: seq<Command>)
    ensures |r| == |rules|
  {
    seq(|rules|, i requires 0 <= i < |rules| => Delete(rules[|rules| - 1 - i]))
  }

  /** The chain is `ins` stacked on the initial chain, and `ins` holds each rule of `left` at most once. */
  ghost predicate Layered(chain: seq<Rule>, ins: seq<Rule>, base: seq<Rule>, left: set<Rule>) {
    chain == ins + base && Distinct(ins) && Members(ins) <= left
  }

  // ----- Facts about one deletion -----

  lemma {:induction false} RemoveFromTop(ins: seq<Rule>, base: seq<Rule>, rule: Rule)
    requires rule in ins
    ensures RemoveFirst(ins + base, rule) == RemoveFirst(ins, rule) + base
  {
    if ins[0] == rule {
      assert (ins + base)[1..] == ins[1..] + base;
    } else {
      assert (ins + base)[1..] == ins[1..] + base;
      RemoveFromTop(ins[1..], base, rule);
    }
  }

  lemma {:induction false} RemoveDistinct(ins: seq<Rule>, rule: Rule)
    requires Distinct(ins)
    ensures Distinct(RemoveFirst(ins, rule))
    ensures Members(RemoveFirst(ins, rule)) == Members(ins) - {rule}
  {
    if ins != [] {
      var rest := ins[1..];
      assert Members(ins) == {ins[0]} + Members(rest);
      assert ins[0] !in rest;
      RemoveDistinct(rest, rule);
      if ins[0] != rule {
        var r := RemoveFirst(rest, rule);
        assert ins[0] !in Members(r);
        assert Members([ins[0]] + r) == {ins[0]} + Members(r);
      }
    }
  }

  lemma {:induction false} EmptyMembers(s: seq<Rule>)
    ensures Members(s) == {} ==> s == []
  {
    if s != [] {
      assert s[0] in Members(s);
    }
  }

  lemma {:induction false} OneMoreResult(ran: seq<Status>, s: Status)
    ensures AllSucceeded(ran + [s]) <==> AllSucceeded(ran) && s == Success
  {
    var more := ran + [s];
    assert more[|ran|] == s;
    if AllSucceeded(more) {
      forall i | 0 <= i < |ran| ensures ran[i] == Success {
        assert more[i] == ran[i];
      }
    }
  }

  lemma {:induction false} MembersSplit(s: seq<Rule>, i: nat)
    requires i < |s|
    ensures Members(s[..i + 1]) == Members(s[..i]) + {s[i]}
  {
    assert s[..i + 1] == s[..i] + [s[i]];
  }

  predicate AllSucceeded(ran: seq<Status>) {
    forall i :: 0 <= i < |ran| ==> ran[i] == Success
  }

  /** Commands whose failure ends the sequence: all but the last ended like this. */
  predicate Until(ran: seq<Status>, usual: Status) {
    forall i :: 0 <= i < |ran| - 1 ==> ran[i] == usual
  }

  /** The firewall chain of the disposable namespace, with a log of every command that was run. */
  class Namespace {
    var chain: seq<Rule>
    var log: seq<Command>
    /** How each logged command ended. */
    var results: seq<Status>

    constructor (initial: seq<Rule>)
      ensures chain == initial && log == [] && results == []
    {
      chain, log, results := initial, [], [];
    }

    method Run(c: Command, b: Behaviour) returns (s: Status)
      modifies this
      ensures log == old(log) + [c] && results == old(results) + [s]
      ensures chain == old(chain) || (c.Insert? && chain == [c.rule] + old(chain))
              || (c.Delete? && c.rule in old(chain) && chain == RemoveFirst(old(chain), c.rule))
      ensures c.Check? ==> chain == old(chain)
      ensures c.Check? && s == Success ==> c.rule in chain
      ensures c.Check? && s == NoMatch ==> c.rule !in chain
      ensures c.Insert? && s == Success ==> chain == [c.rule] + old(chain)
      ensures c.Delete? && s == Success ==> c.rule in old(chain) && chain == RemoveFirst(old(chain), c.rule)
      ensures b == Normal ==> s == if c.Insert? || c.rule in old(chain) then Success else NoMatch
      ensures b.Fails? ==> s == Failure
      ensures b.Interrupts? ==> s == Interrupt
      ensures Acts(b) && c.Insert? ==> chain == [c.rule] + old(chain)
      ensures Acts(b) && c.Delete? ==> chain == RemoveFirst(old(chain), c.rule)
      ensures !Acts(b) ==> chain == old(chain)
    {
      if c.rule !in chain {
        NothingToRemove(chain, c.rule);
      }
      log := log + [c];
      var acts := Acts(b);
      var found := c.rule in chain;
      if acts && c.Insert? {
        chain := [c.rule] + chain;
      }
      if acts && c.Delete? && found {
        chain := RemoveFirst(chain, c.rule);
      }
      if b == Normal {
        s := if c.Insert? || found then Success else NoMatch;
      } else {
        s := if b.Fails? then Failure else Interrupt;
      }
      results := results + [s];
    }

    /** The preflight: it stops at the first rule that is there already, or at a check without an answer. */
    method CheckRules(rules: seq<Rule>, env: nat -> Behaviour) returns (last: Status, ghost ran: seq<Status>)
      modifies this
      ensures chain == old(chain) && results == old(results) + ran
      ensures |ran| <= |rules| && log == old(log) + Checks(rules[..|ran|])
      ensures Until(ran, NoMatch) && last == if ran == [] then NoMatch else ran[|ran| - 1]
      ensures last == NoMatch ==> |ran| == |rules| && forall r :: r in rules ==> r !in chain
      ensures last == Success ==> |ran| > 0 && rules[|ran| - 1] in chain
    {
      ran, last := [], NoMatch;
      var i := 0;
      assert log == log + Checks(rules[..0]);
      while i < |rules|
        invariant i == |ran| <= |rules| && chain == old(chain) && results == old(results) + ran && last == NoMatch
        invariant log == old(log) + Checks(rules[..i])
        invariant forall r :: r in rules[..i] ==> r !in chain
        invariant forall k :: 0 <= k < i ==> ran[k] == NoMatch
      {
        assert Checks(rules[..i + 1]) == Checks(rules[..i]) + [Check(rules[i])];
        last := Run(Check(rules[i]), env(|log|));
        ran := ran + [last];
        i := i + 1;
        if last != NoMatch {
          return last, ran;
        }
      }
      assert rules[..i] == rules;
    }

    /** Inserts rule after rule until one insertion does not succeed. `ins` are the rules that took effect. */
    method InsertRules(rules: seq<Rule>, env: nat -> Behaviour)
      returns (n: nat, last: Status, ghost ran: seq<Status>, ghost ins: seq<Rule>)
      requires rules != [] && Distinct(rules) && forall r :: r in rules ==> r !in chain
      modifies this
      ensures 0 < n == |ran| <= |rules| && results == old(results) + ran
      ensures log == old(log) + Inserts(rules[..n])
      ensures Until(ran, Success) && last == ran[n - 1] && (last == Success ==> n == |rules|)
      ensures Layered(chain, ins, old(chain), Members(rules[..n]))
    {
      n, last, ran, ins := 0, Success, [], [];
      assert log == log + Inserts(rules[..0]);
      while n < |rules| && last == Success
        invariant n == |ran| <= |rules| && results == old(results) + ran
        invariant log == old(log) + Inserts(rules[..n])
        invariant Until(ran, Success) && last == if n == 0 then Success else ran[n - 1]
        invariant Layered(chain, ins, old(chain), Members(rules[..n]))
      {
        assert Inserts(rules[..n + 1]) == Inserts(rules[..n]) + [Insert(rules[n])];
        InsertionStep(ins, old(chain), rules, n);
        ghost var before := chain;
        last := Run(Insert(rules[n]), env(|log|));
        ran := ran + [last];
        if chain != before {
          ins := [rules[n]] + ins;
        }
        n := n + 1;
      }
    }

    /** Removes the attempted rules, last first, and goes on after a failure. */
    method CleanupApplied(attempted: seq<Rule>, env: nat -> Behaviour, ghost ins: seq<Rule>, ghost base: seq<Rule>)
      returns (failed: bool, ghost ran: seq<Status>, ghost rest: seq<Rule>)
      requires Distinct(attempted) && Layered(chain, ins, base, Members(attempted))
      requires forall r :: r in attempted ==> r !in base
      modifies this
      ensures log == old(log) + Deletes(attempted)
      ensures results == old(results) + ran && |ran| == |attempted| && (failed <==> !AllSucceeded(ran))
      ensures Layered(chain, rest, base, Members(attempted))
      ensures !failed ==> rest == []
    {
      failed, ran, rest := false, [], ins;
      var i := |attempted|;
      ghost var left := Members(attempted);
      assert attempted[..i] == attempted;
      while i > 0
        invariant 0 <= i <= |attempted|
        invariant left <= Members(attempted) && Layered(chain, rest, base, left)
        invariant !failed ==> left == Members(attempted[..i])
        invariant log == old(log) + Deletes(attempted)[..|attempted| - i]
        invariant results == old(results) + ran && |ran| == |attempted| - i && (failed <==> !AllSucceeded(ran))
      {
        i := i - 1;
        var rule := attempted[i];
        MembersSplit(attempted, i);
        DeletionStep(chain, rest, base, left, rule);
        ghost var before := chain;
        var s := Run(Delete(rule), env(|log|));
        OneMoreResult(ran, s);
        ran := ran + [s];
        if s != Success {
          failed := true;
        }
        if s == Success || chain != before {
          rest := RemoveFirst(rest, rule);
        }
        if s == Success {
          left := left - {rule};
        }
      }
      EmptyMembers(rest);
      assert Deletes(attempted)[..|attempted|] == Deletes(attempted);
    }

    /**
     * Checks, insertions, the wait and the cleanup. `attempted` lists the rules whose insertion was tried;
     * the results of the three kinds of commands are `checked`, `inserted` and `removed`.
     */
    method ApplyDnsFault(
        resolver: string, ruleId: string, confirmed: bool, env: nat -> Behaviour, sleepInterrupted: bool)
      returns (o: Outcome, ghost attempted: seq<Rule>, ghost left: seq<Rule>,
               ghost checked: seq<Status>, ghost inserted: seq<Status>, ghost removed: seq<Status>)
      modifies this
      ensures results == old(results) + checked + inserted + removed
      ensures |checked| <= 2 && |inserted| == |removed| == |attempted|
      ensures attempted <= PlanRules(resolver, ruleId)
      ensures log == old(log) + Checks(PlanRules(resolver, ruleId)[..|checked|]) + Inserts(attempted) + Deletes(attempted)
      ensures Layered(chain, left, old(chain), Members(attempted))
      ensures Until(checked, NoMatch) && Until(inserted, Success)
      ensures !confirmed <==> o == NotConfirmed
      ensures !confirmed <==> checked == []
      ensures confirmed && checked[|checked| - 1] != NoMatch ==>
                && attempted == []
                && o == match checked[|checked| - 1]
                        case Success => RuleExists
                        case Failure => CheckFailed
                        case _ => CheckInterrupted
      ensures confirmed && checked[|checked| - 1] == NoMatch ==>
                && |checked| == 2 && attempted != []
                && (inserted[|inserted| - 1] == Success ==> attempted == PlanRules(resolver, ruleId))
                && o == match inserted[|inserted| - 1]
                        case Success =>
                          if !AllSucceeded(removed) then CleanupFailed else if sleepInterrupted then Code(130) else Code(0)
                        case Interrupt => if AllSucceeded(removed) then Code(130) else CleanupFailed
                        case _ => if AllSucceeded(removed) then ApplyFailed else ApplyAndCleanupFailed
      ensures attempted == [] || AllSucceeded(removed) ==> chain == old(chain)
    {
      attempted, left, checked, inserted, removed := [], [], [], [], [];
      var rules := PlanRules(resolver, ruleId);
      assert log == log + Checks(rules[..0]);
      if !confirmed {
        return NotConfirmed, [], [], [], [], [];
      }
      var last;
      last, checked := CheckRules(rules, env);
      if last == Success {
        return RuleExists, [], [], checked, [], [];
      }
      if last == Failure {
        return CheckFailed, [], [], checked, [], [];
      }
      if last == Interrupt {
        return CheckInterrupted, [], [], checked, [], [];
      }
      ghost var base, ins := chain, [];
      var n;
      n, last, inserted, ins := InsertRules(rules, env);
      var interrupted := last == Interrupt || (last == Success && sleepInterrupted);
      var applyFailed := last == Failure || last == NoMatch;
      attempted := rules[..n];
      var cleanupFailed;
      cleanupFailed, removed, left := CleanupApplied(rules[..n], env, ins, base);
      if cleanupFailed {
        o := if applyFailed then ApplyAndCleanupFailed else CleanupFailed;
      } else if applyFailed {
        o := ApplyFailed;
      } else {
        o := Code(if interrupted then 130 else 0);
      }
    }

    /** Removes both rules of a fault, and reports any deletion that did not succeed. */
    method ClearDnsFault(resolver: string, ruleId: string, confirmed: bool, env: nat -> Behaviour)
      returns (o: Outcome, ghost removed: seq<Status>)
      modifies this
      ensures !confirmed <==> o == NotConfirmed
      ensures o == NotConfirmed ==> chain == old(chain) && log == old(log)
      ensures confirmed ==> log == old(log) + Deletes(PlanRules(resolver, ruleId))
      ensures confirmed ==> results == old(results) + removed && |removed| == 2
      ensures confirmed ==> o == if AllSucceeded(removed) then Code(0) else CleanupFailed
      ensures o == Code(0) ==>
                chain == RemoveFirst(RemoveFirst(old(chain), PlanRules(resolver, ruleId)[1]), PlanRules(resolver, ruleId)[0])
    {
      if !confirmed {
        return NotConfirmed, [];
      }
      var rules := PlanRules(resolver, ruleId);
      var second := Run(Delete(rules[1]), env(|log|));
      var first := Run(Delete(rules[0]), env(|log|));
      assert Deletes(rules) == [Delete(rules[1]), Delete(rules[0])];
      OneMoreResult([second], first);
      removed := [second] + [first];
      assert AllSucceeded([second]) <==> second == Success by {
        assert [second][0] == second;
      }
      o := if first == Success && second == Success then Code(0) else CleanupFailed;
    }
  }

  /** What a deletion of one attempted rule does to the layers. */
  lemma {:induction false} DeletionStep(chain: seq<Rule>, rest: seq<Rule>, base: seq<Rule>, left: set<Rule>, rule: Rule)
    requires Layered(chain, rest, base, left) && rule !in base
    ensures rule in chain ==> Layered(RemoveFirst(chain, rule), RemoveFirst(rest, rule), base, left - {rule})
    ensures rule !in chain ==> Layered(chain, rest, base, left - {rule})
  {
    RemoveDistinct(rest, rule);
    if rule in chain {
      RemoveFromTop(rest, base, rule);
    } else {
      assert rule !in Members(rest);
    }
  }

  lemma {:induction false} InsertionStep(ins: seq<Rule>, base: seq<Rule>, rules: seq<Rule>, n: nat)
    requires n < |rules| && Distinct(rules) && Distinct(ins) && Members(ins) <= Members(rules[..n])
    ensures Layered([rules[n]] + (ins + base), [rules[n]] + ins, base, Members(rules[..n + 1]))
    ensures Members(ins) <= Members(rules[..n + 1])
  {
    assert [rules[n]] + (ins + base) == [rules[n]] + ins + base;
    assert rules[..n + 1] == rules[..n] + [rules[n]];
    assert rules[n] !in rules[..n];
    assert rules[n] !in Members(ins);
    forall r | r in Members([rules[n]] + ins) ensures r in Members(rules[..n + 1]) {
      assert r == rules[n] || r in Members(ins);
    }
  }
}

/** The nine-step Boomerang protocol: the machine that tracks each task's progress, and what its three
    levels of strictness guarantee over every run. */
module BoomerangProtocol {
  import opened Text

  /** `Other` stands for any string that is not one of the named steps. */
  datatype Step =
    | Idle
    | MemoryQuery | ThoughtChain | Plan | Delegate | GitCheck | QualityGates | Improve | DocUpdate | MemorySave
    | Complete
    | Other(name: string)

  const MANDATORY: seq<Step> :=
    [MemoryQuery, ThoughtChain, Plan, Delegate, GitCheck, QualityGates, Improve, DocUpdate, MemorySave]

  /** The steps that may follow each step; no entry for a step that is not one of the named ones. */
  function Transitions(step: Step): Option<seq<Step>> {
    match step
    case Idle => Some([MemoryQuery])
    case MemoryQuery => Some([ThoughtChain, Complete])
    case ThoughtChain => Some([Plan])
    case Plan => Some([Delegate])
    case Delegate => Some([GitCheck])
    case GitCheck => Some([QualityGates])
    case QualityGates => Some([Improve])
    case Improve => Some([DocUpdate])
    case DocUpdate => Some([MemorySave])
    case MemorySave => Some([Complete])
    case Complete => Some([])
    case Other(_) => None
  }

  datatype Strictness = Lenient | Standard | Strict

  datatype Violation = Unexpected(from: Step, to: Step) | Misrouted(task: string)

  /** The value of a protocol state. */
  datatype Progress =
    Progress(current: Step, completed: seq<Step>, violations: seq<Violation>, waived: map<Step, string>)

  const FRESH := Progress(Idle, [], [], map[])

  // ---------------------------------------------------------------- one operation on one task's progress

  predicate IsUnexpected(from: Step, to: Step) {
    Transitions(from).Some? && to !in Transitions(from).value
  }

  function Moved(p: Progress, to: Step): Progress {
    p.(current := to,
       completed := if to in p.completed || to == Idle || to == Complete then p.completed else p.completed + [to])
  }

  predicate IsRejected(level: Strictness, p: Progress, to: Step) {
    level.Strict? && IsUnexpected(p.current, to)
  }

  function Advanced(level: Strictness, p: Progress, to: Step): Progress {
    if IsRejected(level, p, to) then p
    else if level.Standard? && IsUnexpected(p.current, to) then
      Moved(p.(violations := p.violations + [Unexpected(p.current, to)]), to)
    else Moved(p, to)
  }

  function Waived(level: Strictness, p: Progress, step: Step, phrase: string): Progress {
    Advanced(level, p.(waived := p.waived[step := phrase]), step)
  }

  const REMAINING: seq<Step> := [GitCheck, QualityGates, Improve, DocUpdate, MemorySave]

  /** The remaining steps one by one; a strict machine stops at the first that it rejects. */
  function AdvancedThrough(level: Strictness, p: Progress, steps: seq<Step>): Progress
    decreases |steps|, level, p
  {
    if steps == [] || IsRejected(level, p, steps[0]) then p
    else AdvancedThrough(level, Advanced(level, p, steps[0]), steps[1..])
  }

  predicate GetsThrough(level: Strictness, p: Progress, steps: seq<Step>)
    decreases |steps|, level, p
  {
    steps == [] || (!IsRejected(level, p, steps[0]) && GetsThrough(level, Advanced(level, p, steps[0]), steps[1..]))
  }

  function FinishedBy(level: Strictness, p: Progress, steps: seq<Step>): Progress {
    var q := AdvancedThrough(level, p, steps);
    if GetsThrough(level, p, steps) then Advanced(level, q, Complete) else q
  }

  function Finished(level: Strictness, p: Progress): Progress {
    FinishedBy(level, p, REMAINING)
  }

  predicate IsExcused(p: Progress, step: Step) {
    step in p.waived && p.waived[step] != ""
  }

  predicate IsMissing(p: Progress, step: Step) {
    step in MANDATORY && step !in p.completed && !IsExcused(p, step)
  }

  // ---------------------------------------------------------------- the machine

  class ProtocolState {
    var currentStep: Step
    var completedSteps: seq<Step>
    var violations: seq<Violation>
    var waivedSteps: map<Step, string>

    constructor ()
      ensures View() == FRESH
    {
      currentStep, completedSteps, violations, waivedSteps := Idle, [], [], map[];
    }

    function View(): Progress
      reads this
    {
      Progress(currentStep, completedSteps, violations, waivedSteps)
    }
  }

  /** Every mandatory step that is neither completed nor waived. */
  method MissingSteps(state: ProtocolState) returns (missing: seq<Step>)
    ensures forall step :: step in missing <==>
              && step in MANDATORY && step !in state.completedSteps
              && (step !in state.waivedSteps || state.waivedSteps[step] == "")
  {
    missing := [];
    for i := 0 to |MANDATORY|
      invariant forall step :: step in missing <==> step in MANDATORY[..i] && IsMissing(state.View(), step)
    {
      var step := MANDATORY[i];
      assert MANDATORY[..i + 1] == MANDATORY[..i] + [step];
      if step !in state.completedSteps && (step !in state.waivedSteps || state.waivedSteps[step] == "") {
        missing := missing + [step];
      }
    }
    assert MANDATORY[..|MANDATORY|] == MANDATORY;
  }

  class ProtocolMachine {
    const strictness: Strictness
    var states: map<string, ProtocolState>

    constructor (strictness: Strictness)
      ensures this.strictness == strictness && states == map[] && Valid()
    {
      this.strictness, states := strictness, map[];
    }

    /** No two tasks share a state object. */
    ghost predicate Valid()
      reads this
    {
      forall a, b :: a in states && b in states && a != b ==> states[a] != states[b]
    }

    /** The object that an operation on this task may change. */
    ghost function StateOf(taskId: string): set<ProtocolState>
      reads this
    {
      if taskId in states then {states[taskId]} else {}
    }

    /** The other tasks are still there, with the same objects, and these are as they were. */
    twostate predicate OthersUnchanged(taskId: string)
      reads this, states.Values
    {
      forall other :: other in old(states) && other != taskId ==>
        other in states && states[other] == old(states[other]) && states[other].View() == old(states[other].View())
    }

    /** `InitState` replaces the task's state, if there is one. */
    method InitState(taskId: string) returns (state: ProtocolState)
      requires Valid()
      modifies this`states
      ensures Valid() && fresh(state) && states == old(states)[taskId := state]
      ensures state.View() == FRESH && OthersUnchanged(taskId)
    {
      state := new ProtocolState();
      states := states[taskId := state];
    }

    /** `Enforce`. */
    method Enforce(taskId: string) returns (ok: bool)
      ensures taskId !in states ==> !ok
      ensures taskId in states ==>
                (ok <==> strictness.Strict? ==> forall step :: !IsMissing(states[taskId].View(), step))
    {
      if taskId !in states {
        return false;
      }
      if strictness.Lenient? {
        return true;
      }
      var missing := MissingSteps(states[taskId]);
      assert forall step :: step in missing <==> IsMissing(states[taskId].View(), step);
      if missing == [] {
        return true;
      }
      assert missing[0] in missing;
      return !strictness.Strict?;
    }

    /** `Advance`. */
    method Advance(taskId: string, step: Step) returns (ok: bool)
      requires Valid()
      modifies StateOf(taskId)
      ensures ok <==> taskId in states && !IsRejected(strictness, old(states[taskId].View()), step)
      ensures taskId in states ==> states[taskId].View() == Advanced(strictness, old(states[taskId].View()), step)
      ensures OthersUnchanged(taskId)
    {
      if taskId !in states {
        return false;
      }
      var state := states[taskId];
      var next := Transitions(state.currentStep);
      if next.Some? {
        var allowed := step in next.value;
        if !allowed && strictness.Strict? {
          return false;
        }
        if !allowed && strictness.Standard? {
          state.violations := state.violations + [Unexpected(state.currentStep, step)];
        }
      }
      state.currentStep := step;
      if step !in state.completedSteps && step != Idle && step != Complete {
        state.completedSteps := state.completedSteps + [step];
      }
      return true;
    }

    /** `ApplyWaiver`: records the phrase, whatever it is, and tries to advance. */
    method ApplyWaiver(taskId: string, step: Step, phrase: string)
      requires Valid()
      modifies StateOf(taskId)
      ensures taskId in states ==> states[taskId].View() == Waived(strictness, old(states[taskId].View()), step, phrase)
      ensures OthersUnchanged(taskId)
    {
      if taskId !in states {
        return;
      }
      var state := states[taskId];
      state.waivedSteps := state.waivedSteps[step := phrase];
      var _ := Advance(taskId, step);
    }

    /** `CompleteProtocol`. */
    method CompleteProtocol(taskId: string) returns (ok: bool)
      requires Valid()
      modifies StateOf(taskId)
      ensures taskId in states ==> states[taskId].View() == Finished(strictness, old(states[taskId].View()))
      ensures ok <==> && taskId in states
                      && GetsThrough(strictness, old(states[taskId].View()), REMAINING)
                      && (strictness.Strict? ==> forall step :: !IsMissing(states[taskId].View(), step))
      ensures OthersUnchanged(taskId)
    {
      for i := 0 to |REMAINING|
        invariant taskId in states ==>
                    AdvancedThrough(strictness, old(states[taskId].View()), REMAINING)
                    == AdvancedThrough(strictness, states[taskId].View(), REMAINING[i..])
        invariant taskId in states ==>
                    GetsThrough(strictness, old(states[taskId].View()), REMAINING)
                    == GetsThrough(strictness, states[taskId].View(), REMAINING[i..])
        invariant OthersUnchanged(taskId)
      {
        assert REMAINING[i..][0] == REMAINING[i] && REMAINING[i..][1..] == REMAINING[i + 1..];
        var advanced := Advance(taskId, REMAINING[i]);
        if !advanced && strictness.Strict? {
          return false;
        }
      }
      var _ := Advance(taskId, Complete);
      ok := Enforce(taskId);
    }
  }

  // ---------------------------------------------------------------- every run of a strict machine

  datatype Op = Init | Advance(to: Step) | Waive(step: Step, phrase: string) | Finish

  function Apply(level: Strictness, p: Progress, op: Op): Progress {
    match op
    case Init => FRESH
    case Advance(to) => Advanced(level, p, to)
    case Waive(step, phrase) => Waived(level, p, step, phrase)
    case Finish => Finished(level, p)
  }

  function Run(level: Strictness, p: Progress, ops: seq<Op>): Progress
    decreases |ops|
  {
    if ops == [] then p else Run(level, Apply(level, p, ops[0]), ops[1..])
  }

  /** Where a strict machine stands after completing `k` steps: at the k-th, or past the last, or out early. */
  predicate StandsAt(p: Progress, k: nat) {
    && k <= |MANDATORY| && p.completed == MANDATORY[..k] && p.violations == []
    && (p.current == (if k == 0 then Idle else MANDATORY[k - 1])
        || (p.current == Complete && (k == 1 || k == |MANDATORY|)))
  }

  ghost predicate InOrder(p: Progress) {
    exists k: nat :: StandsAt(p, k)
  }

  function Rank(step: Step): nat {
    match step
    case MemoryQuery => 0
    case ThoughtChain => 1
    case Plan => 2
    case Delegate => 3
    case GitCheck => 4
    case QualityGates => 5
    case Improve => 6
    case DocUpdate => 7
    case MemorySave => 8
    case _ => 9
  }

  lemma RankOfMandatory(k: nat)
    requires k < |MANDATORY|
    ensures Rank(MANDATORY[k]) == k
  {
    assert k == 0 || k == 1 || k == 2 || k == 3 || k == 4 || k == 5 || k == 6 || k == 7 || k == 8;
  }

  lemma NotYetThere(k: nat)
    requires k < |MANDATORY|
    ensures MANDATORY[k] !in MANDATORY[..k]
  {
    RankOfMandatory(k);
    if i :| 0 <= i < k && MANDATORY[..k][i] == MANDATORY[k] {
      RankOfMandatory(i);
    }
  }

  /** The table allows the next mandatory step, and leaving early or at the end; nothing else. */
  lemma TableIsTheOrder(k: nat, to: Step)
    requires k <= |MANDATORY|
    ensures var from := if k == 0 then Idle else MANDATORY[k - 1];
            !IsUnexpected(from, to) <==>
              (k < |MANDATORY| && to == MANDATORY[k]) || (to == Complete && (k == 1 || k == |MANDATORY|))
  {
    if k > 0 {
      RankOfMandatory(k - 1);
    }
  }

  /** Nothing may follow `Complete`, and anything may follow a step that is not one of the named ones. */
  lemma TableElsewhere(name: string, to: Step)
    ensures IsUnexpected(Complete, to) && !IsUnexpected(Other(name), to)
  {
  }

  /** One step in the three modes: a strict machine refuses an unexpected step and changes nothing; in every other
      case the machine goes there and records the step, once, unless it is `Idle` or `Complete`; a standard one
      also records a violation if the step was unexpected. */
  lemma OneStep(level: Strictness, p: Progress, to: Step)
    ensures var q := Advanced(level, p, to);
            if level == Strict && IsUnexpected(p.current, to) then q == p
            else
              && q.current == to && q.waived == p.waived
              && p.completed <= q.completed && |q.completed| <= |p.completed| + 1
              && (forall step :: step in q.completed <==>
                    step in p.completed || (step == to && step != Idle && step != Complete))
              && q.violations == p.violations + if level == Standard && IsUnexpected(p.current, to)
                                                then [Unexpected(p.current, to)] else []
  {
  }

  /** A waiver is recorded in every mode and for every step, in place of an earlier one; then the step is tried. */
  lemma OneWaiver(level: Strictness, p: Progress, step: Step, phrase: string)
    ensures var q, r := Waived(level, p, step, phrase), Advanced(level, p, step);
            && step in q.waived && q.waived[step] == phrase
            && (forall other :: other != step ==> Get(q.waived, other) == Get(p.waived, other))
            && q.current == r.current && q.completed == r.completed && q.violations == r.violations
  {
  }

  /** One more mandatory step. */
  lemma StepForward(p: Progress, k: nat)
    requires StandsAt(p, k) && k < |MANDATORY| && p.current != Complete
    ensures StandsAt(Moved(p, MANDATORY[k]), k + 1)
  {
    NotYetThere(k);
    RankOfMandatory(k);
    assert MANDATORY[..k + 1] == MANDATORY[..k] + [MANDATORY[k]];
  }

  /** What a strict machine does with a step: the next one is taken, leaving is taken where it is allowed,
      and everything else changes nothing. */
  lemma StrictStep(p: Progress, k: nat, to: Step)
    requires StandsAt(p, k)
    ensures p.current != Complete && k < |MANDATORY| && to == MANDATORY[k] ==> StandsAt(Advanced(Strict, p, to), k + 1)
    ensures p.current != Complete && (k == 1 || k == |MANDATORY|) && to == Complete ==>
              StandsAt(Advanced(Strict, p, to), k)
    ensures p.current == Complete
            || !((k < |MANDATORY| && to == MANDATORY[k]) || ((k == 1 || k == |MANDATORY|) && to == Complete)) ==>
              Advanced(Strict, p, to) == p
  {
    TableIsTheOrder(k, to);
    if p.current != Complete && k < |MANDATORY| && to == MANDATORY[k] {
      StepForward(p, k);
    }
  }

  lemma StrictStepKeepsOrder(p: Progress, to: Step)
    requires InOrder(p)
    ensures InOrder(Advanced(Strict, p, to))
  {
    var k: nat :| StandsAt(p, k);
    StrictStep(p, k, to);
  }

  lemma {:induction false} StrictStepsKeepOrder(p: Progress, steps: seq<Step>)
    requires InOrder(p)
    ensures InOrder(AdvancedThrough(Strict, p, steps))
    decreases |steps|
  {
    if steps != [] && !IsRejected(Strict, p, steps[0]) {
      StrictStepKeepsOrder(p, steps[0]);
      StrictStepsKeepOrder(Advanced(Strict, p, steps[0]), steps[1..]);
    }
  }

  lemma OpKeepsOrder(p: Progress, op: Op)
    requires InOrder(p)
    ensures InOrder(Apply(Strict, p, op))
  {
    match op
    case Init => assert StandsAt(FRESH, 0);
    case Advance(to) => StrictStepKeepsOrder(p, to);
    case Waive(step, phrase) =>
      var k: nat :| StandsAt(p, k);
      assert StandsAt(p.(waived := p.waived[step := phrase]), k);
      StrictStepKeepsOrder(p.(waived := p.waived[step := phrase]), step);
    case Finish =>
      StrictStepsKeepOrder(p, REMAINING);
      StrictStepKeepsOrder(AdvancedThrough(Strict, p, REMAINING), Complete);
  }

  lemma {:induction false} RunKeepsOrder(p: Progress, ops: seq<Op>)
    requires InOrder(p)
    ensures InOrder(Run(Strict, p, ops))
    decreases |ops|
  {
    if ops != [] {
      OpKeepsOrder(p, ops[0]);
      RunKeepsOrder(Apply(Strict, p, ops[0]), ops[1..]);
    }
  }

  /** Strict mode, any run of initialisations, advances, waivers and completions: the completed steps are
      the first k mandatory ones, in order, and the machine stands at the k-th, at `Idle` if there is
      none, or at `Complete` if k is 1 or 9. No waiver has let it skip a step. */
  lemma StrictRunsFollowTheOrder(ops: seq<Op>)
    ensures exists k: nat :: StandsAt(Run(Strict, FRESH, ops), k)
  {
    assert StandsAt(FRESH, 0);
    RunKeepsOrder(FRESH, ops);
  }

  /** `Complete` is final until the task is initialised again; waivers are still noted down. */
  lemma CompleteIsFinal(p: Progress, op: Op)
    requires p.current == Complete && op != Init
    ensures Apply(Strict, p, op) == p.(waived := Apply(Strict, p, op).waived)
    ensures !op.Waive? ==> Apply(Strict, p, op) == p
  {
  }

  /** In a strict run `Enforce` lets a task through exactly when every step that is not among the completed
      ones has a waiver with a non-empty phrase; having reached `Complete` is not asked for. */
  lemma EnforceInStrictRuns(ops: seq<Op>, k: nat)
    requires StandsAt(Run(Strict, FRESH, ops), k)
    ensures var p := Run(Strict, FRESH, ops);
            (forall step :: !IsMissing(p, step)) <==>
            forall i :: k <= i < |MANDATORY| ==> MANDATORY[i] in p.waived && p.waived[MANDATORY[i]] != ""
  {
    var p := Run(Strict, FRESH, ops);
    if forall step :: !IsMissing(p, step) {
      forall i | k <= i < |MANDATORY|
        ensures IsExcused(p, MANDATORY[i])
      {
        assert !IsMissing(p, MANDATORY[i]);
        NotYetThere(i);
        assert MANDATORY[..k] <= MANDATORY[..i];
      }
    }
    if forall i :: k <= i < |MANDATORY| ==> IsExcused(p, MANDATORY[i]) {
      forall step
        ensures !IsMissing(p, step)
      {
        if step in MANDATORY {
          var i :| 0 <= i < |MANDATORY| && MANDATORY[i] == step;
          if i < k {
            assert MANDATORY[..k][i] == step;
          }
        }
      }
    }
  }

  lemma OnlyFromDelegate(p: Progress, k: nat)
    requires StandsAt(p, k)
    ensures p.current == Delegate <==> k == 4 && p.current != Complete
    ensures IsRejected(Strict, p, GitCheck) <==> p.current != Delegate
  {
    TableIsTheOrder(k, GitCheck);
    RankOfMandatory(4);
    if k > 0 {
      RankOfMandatory(k - 1);
    }
    if k < |MANDATORY| {
      RankOfMandatory(k);
    }
  }

  lemma RejectedAtOnce(p: Progress, first: Step, rest: seq<Step>)
    requires IsRejected(Strict, p, first)
    ensures !GetsThrough(Strict, p, [first] + rest) && FinishedBy(Strict, p, [first] + rest) == p
  {
  }

  /** A strict machine can be finished from `Delegate` and from nowhere else; elsewhere nothing happens. */
  lemma StrictFinish(p: Progress, k: nat)
    requires StandsAt(p, k)
    ensures GetsThrough(Strict, p, REMAINING) <==> p.current == Delegate
    ensures p.current == Delegate ==> Finished(Strict, p) == p.(current := Complete, completed := MANDATORY)
    ensures p.current != Delegate ==> Finished(Strict, p) == p
  {
    OnlyFromDelegate(p, k);
    if p.current == Delegate {
      FinishFromDelegate(Strict, p);
    } else {
      RejectedAtOnce(p, GitCheck, REMAINING[1..]);
      assert [GitCheck] + REMAINING[1..] == REMAINING;
    }
  }

  // ---------------------------------------------------------------- finishing, in every mode

  lemma StepTaken(level: Strictness, p: Progress, k: nat)
    requires 0 < k < |MANDATORY| && p.current == MANDATORY[k - 1]
    requires p.completed == MANDATORY || p.completed == MANDATORY[..k]
    ensures !IsRejected(level, p, MANDATORY[k])
    ensures Advanced(level, p, MANDATORY[k])
         == p.(current := MANDATORY[k], completed := if p.completed == MANDATORY then MANDATORY else MANDATORY[..k + 1])
  {
    TableIsTheOrder(k, MANDATORY[k]);
    NotYetThere(k);
    RankOfMandatory(k);
    assert MANDATORY[..k + 1] == MANDATORY[..k] + [MANDATORY[k]];
  }

  lemma {:induction false} ThroughRemaining(level: Strictness, p: Progress, i: nat)
    requires i <= |REMAINING| && p.current == MANDATORY[i + 3]
    requires p.completed == MANDATORY || p.completed == MANDATORY[..i + 4]
    ensures GetsThrough(level, p, REMAINING[i..])
    ensures AdvancedThrough(level, p, REMAINING[i..]) == p.(current := MemorySave, completed := MANDATORY)
    decreases |REMAINING| - i
  {
    if i == |REMAINING| {
      assert MANDATORY[..9] == MANDATORY;
    } else {
      assert REMAINING[i] == MANDATORY[i + 4];
      StepTaken(level, p, i + 4);
      ThroughRemaining(level, Advanced(level, p, MANDATORY[i + 4]), i + 1);
      assert REMAINING[i..][1..] == REMAINING[i + 1..];
    }
  }

  lemma FinishBy(level: Strictness, p: Progress, steps: seq<Step>, q: Progress)
    requires GetsThrough(level, p, steps) && AdvancedThrough(level, p, steps) == q && q.current == MemorySave
    ensures FinishedBy(level, p, steps) == q.(current := Complete)
  {
  }

  lemma FinishFromDelegate(level: Strictness, p: Progress)
    requires p.current == Delegate && p.completed == MANDATORY[..4]
    ensures GetsThrough(level, p, REMAINING)
    ensures Finished(level, p) == p.(current := Complete, completed := MANDATORY)
  {
    ThroughRemaining(level, p, 0);
    assert REMAINING[0..] == REMAINING;
    FinishBy(level, p, REMAINING[0..], p.(current := MemorySave, completed := MANDATORY));
  }

  lemma Through(level: Strictness, p: Progress, step: Step, rest: seq<Step>)
    requires !IsRejected(level, p, step)
    ensures AdvancedThrough(level, p, [step] + rest) == AdvancedThrough(level, Advanced(level, p, step), rest)
    ensures GetsThrough(level, p, [step] + rest) == GetsThrough(level, Advanced(level, p, step), rest)
  {
    assert ([step] + rest)[1..] == rest;
  }

  /** What finishing a finished task leaves: a violation in standard mode, nothing otherwise. */
  function AfterRepeat(level: Strictness, p: Progress): Progress {
    if level.Standard? then p.(violations := p.violations + [Unexpected(Complete, GitCheck)]) else p
  }

  lemma FinishAgain(level: Strictness, p: Progress)
    requires p.current == Complete && p.completed == MANDATORY
    ensures Finished(level, p) == AfterRepeat(level, p)
  {
    if !level.Strict? {
      RankOfMandatory(4);
      var q := AfterRepeat(level, p).(current := GitCheck);
      assert Advanced(level, p, GitCheck) == q;
      ThroughRemaining(level, q, 1);
      Through(level, p, GitCheck, REMAINING[1..]);
      assert [GitCheck] + REMAINING[1..] == REMAINING;
      FinishBy(level, p, [GitCheck] + REMAINING[1..], q.(current := MemorySave));
    }
  }

  /** Any number of further completions of a finished task: one violation each in standard mode, none in
      the other modes, and the task is finished all the same. */
  lemma {:induction false} FinishManyTimes(level: Strictness, p: Progress, ops: seq<Op>)
    requires p.current == Complete && p.completed == MANDATORY
    requires forall i :: 0 <= i < |ops| ==> ops[i] == Finish
    ensures Run(level, p, ops).current == Complete && Run(level, p, ops).completed == MANDATORY
    ensures |Run(level, p, ops).violations| == |p.violations| + if level.Standard? then |ops| else 0
    decreases |ops|
  {
    if ops != [] {
      FinishAgain(level, p);
      FinishManyTimes(level, AfterRepeat(level, p), ops[1..]);
    }
  }
}

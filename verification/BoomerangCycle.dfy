/** The orchestrator's use of the protocol machine: routing, handling a task, and completing its cycle. */
module BoomerangCycle {
  import opened Text
  import opened BoomerangProtocol

  // ---------------------------------------------------------------- routing

  datatype TaskType =
    | CodeImpl | ArchDesign | FileFinding | Testing | Linting
    | GitTask | Documentation | WebScraping | McpDebug | ReleaseTask
    | OtherType(name: string)

  datatype Agent =
    | Orchestrating | Architect | Coder | Reviewer | Explorer | Tester
    | Linter | Git | Writer | Scraper | McpSpecialist | Releaser

  datatype Rule = Rule(taskType: TaskType, agent: Agent, forbidden: seq<Agent>)

  const ROUTING_MATRIX: seq<Rule> := [
    Rule(CodeImpl, Coder, [Explorer]),
    Rule(ArchDesign, Architect, [Coder, Explorer]),
    Rule(FileFinding, Explorer, [Architect, Coder, Tester, Writer, Linter, Git, Scraper, McpSpecialist, Releaser]),
    Rule(Testing, Tester, [Coder]),
    Rule(Linting, Linter, [Coder, Architect, Tester]),
    Rule(GitTask, Git, [Coder, Architect, Tester, Linter]),
    Rule(Documentation, Writer, [Explorer]),
    Rule(WebScraping, Scraper, [Explorer]),
    Rule(McpDebug, McpSpecialist, [Explorer]),
    Rule(ReleaseTask, Releaser, [Coder, Architect, Tester, Linter, Explorer, Scraper, Writer, Git, McpSpecialist])
  ]

  /** The lookup table filled from the matrix: a later rule for the same type replaces an earlier one. */
  function RuleFor(matrix: seq<Rule>, taskType: TaskType): Option<Rule> {
    if matrix == [] then None
    else if matrix[|matrix| - 1].taskType == taskType then Some(matrix[|matrix| - 1])
    else RuleFor(matrix[..|matrix| - 1], taskType)
  }

  function ResolveAgent(matrix: seq<Rule>, taskType: TaskType): Option<Agent> {
    var rule := RuleFor(matrix, taskType);
    if rule.Some? then Some(rule.value.agent) else None
  }

  /** `resolveTaskAgent`: the architect takes what no rule covers. */
  function ResolveTaskAgent(matrix: seq<Rule>, taskType: TaskType): Agent {
    var agent := ResolveAgent(matrix, taskType);
    if agent.Some? then agent.value else Architect
  }

  /** `ValidateRouting`: the rule's own agent, unless it is forbidden; any agent where there is no rule. */
  predicate IsValidRouting(matrix: seq<Rule>, taskType: TaskType, agent: Agent) {
    var rule := RuleFor(matrix, taskType);
    rule.None? || (rule.value.agent == agent && agent !in rule.value.forbidden)
  }

  /** No rule forbids the agent it names. */
  predicate IsConsistent(matrix: seq<Rule>) {
    forall i :: 0 <= i < |matrix| ==> matrix[i].agent !in matrix[i].forbidden
  }

  lemma {:induction false} RuleIsInMatrix(matrix: seq<Rule>, taskType: TaskType)
    requires RuleFor(matrix, taskType).Some?
    ensures RuleFor(matrix, taskType).value in matrix
  {
    if matrix[|matrix| - 1].taskType != taskType {
      RuleIsInMatrix(matrix[..|matrix| - 1], taskType);
    }
  }

  /** Under a consistent matrix the agent that is resolved always passes the validation, for known and for
      unknown task types, and where there is a rule no other agent does. */
  lemma ResolvedAgentIsValid(matrix: seq<Rule>, taskType: TaskType, agent: Agent)
    requires IsConsistent(matrix)
    ensures IsValidRouting(matrix, taskType, ResolveTaskAgent(matrix, taskType))
    ensures RuleFor(matrix, taskType).Some? ==>
              (IsValidRouting(matrix, taskType, agent) <==> agent == ResolveTaskAgent(matrix, taskType))
  {
    if RuleFor(matrix, taskType).Some? {
      RuleIsInMatrix(matrix, taskType);
    }
  }

  /** Rule `i` is the one that counts for this type: no later rule is for it. */
  predicate Counts(matrix: seq<Rule>, taskType: TaskType, i: int) {
    && 0 <= i < |matrix| && matrix[i].taskType == taskType
    && forall j :: i < j < |matrix| ==> matrix[j].taskType != taskType
  }

  lemma {:induction false} RuleForExactly(matrix: seq<Rule>, taskType: TaskType)
    ensures match RuleFor(matrix, taskType)
            case None => forall i :: 0 <= i < |matrix| ==> matrix[i].taskType != taskType
            case Some(rule) => exists i :: Counts(matrix, taskType, i) && matrix[i] == rule
  {
    if matrix != [] {
      var last := |matrix| - 1;
      if matrix[last].taskType == taskType {
        assert Counts(matrix, taskType, last);
      } else {
        RuleForExactly(matrix[..last], taskType);
        if RuleFor(matrix, taskType).Some? {
          var i :| Counts(matrix[..last], taskType, i) && matrix[..last][i] == RuleFor(matrix, taskType).value;
          assert Counts(matrix, taskType, i);
        }
      }
    }
  }

  /** An agent is valid for a task if and only if the last rule for the task's type, if there is one, names it and
      does not forbid it. */
  lemma ValidExactly(matrix: seq<Rule>, taskType: TaskType, agent: Agent)
    ensures IsValidRouting(matrix, taskType, agent) <==>
            forall i :: Counts(matrix, taskType, i) ==> matrix[i].agent == agent && agent !in matrix[i].forbidden
  {
    RuleForExactly(matrix, taskType);
    if RuleFor(matrix, taskType).Some? {
      var i :| Counts(matrix, taskType, i) && matrix[i] == RuleFor(matrix, taskType).value;
      assert forall j :: Counts(matrix, taskType, j) ==> j == i;
    }
  }

  /** Under the matrix of the source each type of task has its own agent, which no other agent can replace; the
      architect takes tasks of any other type, and there every agent would be valid. */
  lemma AgentOfEachType(taskType: TaskType, agent: Agent)
    ensures ResolveTaskAgent(ROUTING_MATRIX, taskType) ==
            match taskType
            case CodeImpl => Coder
            case ArchDesign => Architect
            case FileFinding => Explorer
            case Testing => Tester
            case Linting => Linter
            case GitTask => Git
            case Documentation => Writer
            case WebScraping => Scraper
            case McpDebug => McpSpecialist
            case ReleaseTask => Releaser
            case OtherType(_) => Architect
    ensures IsValidRouting(ROUTING_MATRIX, taskType, agent) <==>
            taskType.OtherType? || agent == ResolveTaskAgent(ROUTING_MATRIX, taskType)
  {
    RuleForExactly(ROUTING_MATRIX, taskType);
    MatrixIsConsistent();
    ResolvedAgentIsValid(ROUTING_MATRIX, taskType, agent);
    assert forall i :: 0 <= i < |ROUTING_MATRIX| ==> !ROUTING_MATRIX[i].taskType.OtherType?;
    match taskType
    case CodeImpl => assert ROUTING_MATRIX[0].taskType == taskType;
    case ArchDesign => assert ROUTING_MATRIX[1].taskType == taskType;
    case FileFinding => assert ROUTING_MATRIX[2].taskType == taskType;
    case Testing => assert ROUTING_MATRIX[3].taskType == taskType;
    case Linting => assert ROUTING_MATRIX[4].taskType == taskType;
    case GitTask => assert ROUTING_MATRIX[5].taskType == taskType;
    case Documentation => assert ROUTING_MATRIX[6].taskType == taskType;
    case WebScraping => assert ROUTING_MATRIX[7].taskType == taskType;
    case McpDebug => assert ROUTING_MATRIX[8].taskType == taskType;
    case ReleaseTask => assert ROUTING_MATRIX[9].taskType == taskType;
    case OtherType(_) =>
  }

  lemma MatrixIsConsistent()
    ensures IsConsistent(ROUTING_MATRIX)
  {
  }

  // ---------------------------------------------------------------- handling a task

  const PLANNED := Progress(Plan, [MemoryQuery, ThoughtChain, Plan], [], map[])

  /** The progress of a task that has just been handed to its agent. */
  const DELEGATED := Progress(Delegate, [MemoryQuery, ThoughtChain, Plan, Delegate], [], map[])

  const FINISHED := Progress(Complete, MANDATORY, [], map[])

  /** The first steps are the expected ones in every mode. */
  lemma UpToDelegate(level: Strictness, violations: seq<Violation>)
    ensures Advanced(level, Advanced(level, Advanced(level, FRESH, MemoryQuery), ThoughtChain), Plan) == PLANNED
    ensures Advanced(level, PLANNED.(violations := violations), Delegate) == DELEGATED.(violations := violations)
  {
    var p1 := Advanced(level, FRESH, MemoryQuery);
    assert p1 == Progress(MemoryQuery, [MemoryQuery], [], map[]);
    assert Advanced(level, p1, ThoughtChain) == Progress(ThoughtChain, [MemoryQuery, ThoughtChain], [], map[]);
  }

  class Orchestrator {
    const protocol: ProtocolMachine
    const matrix: seq<Rule>

    constructor (strictness: Strictness, matrix: seq<Rule>)
      ensures this.matrix == matrix && protocol.strictness == strictness && protocol.states == map[] && protocol.Valid()
    {
      this.matrix := matrix;
      protocol := new ProtocolMachine(strictness);
    }

    /** Whether the validation accepts the agent that the routing itself chose. */
    predicate Routes(taskType: TaskType) {
      IsValidRouting(matrix, taskType, ResolveTaskAgent(matrix, taskType))
    }

    /** The progress of a task once it has been routed. */
    function Routed(taskId: string, taskType: TaskType): Progress {
      if Routes(taskType) then DELEGATED
      else if protocol.strictness.Strict? then PLANNED.(violations := [Misrouted(taskId)])
      else DELEGATED.(violations := [Misrouted(taskId)])
    }

    /** The steps before the delegation. */
    method Prepare(taskId: string) returns (state: ProtocolState)
      requires protocol.Valid()
      modifies protocol`states
      ensures protocol.Valid() && fresh(state)
      ensures taskId in protocol.states && protocol.states[taskId] == state && state.View() == PLANNED
      ensures protocol.OthersUnchanged(taskId)
    {
      state := protocol.InitState(taskId);
      var _ := protocol.Advance(taskId, MemoryQuery);
      var _ := protocol.Advance(taskId, ThoughtChain);
      var _ := protocol.Advance(taskId, Plan);
      UpToDelegate(protocol.strictness, []);
    }

    /** The first four steps, shared by the stateless and the inline way of handling a task. The result is
        absent when strict routing blocks the task. */
    method Route(taskId: string, taskType: TaskType) returns (agent: Option<Agent>)
      requires protocol.Valid()
      modifies protocol`states
      ensures protocol.Valid()
      ensures agent == if !Routes(taskType) && protocol.strictness.Strict? then None
                       else Some(ResolveTaskAgent(matrix, taskType))
      ensures taskId in protocol.states && fresh(protocol.states[taskId])
      ensures protocol.states[taskId].View() == Routed(taskId, taskType)
      ensures protocol.OthersUnchanged(taskId)
    {
      var state := Prepare(taskId);
      var resolved := ResolveTaskAgent(matrix, taskType);
      if !IsValidRouting(matrix, taskType, resolved) {
        state.violations := state.violations + [Misrouted(taskId)];
        if protocol.strictness.Strict? {
          return None;
        }
      }
      UpToDelegate(protocol.strictness, state.violations);
      var _ := protocol.Advance(taskId, Delegate);
      return Some(resolved);
    }

    /** `HandleTaskStateless`. Building the context and storing the seed prompt may fail; the task's
        progress is then that of a routed task all the same. */
    method HandleTaskStateless(taskId: string, taskType: TaskType, contextBuilt: bool, promptStored: bool)
      returns (agent: Option<Agent>)
      requires protocol.Valid()
      modifies protocol`states
      ensures protocol.Valid()
      ensures agent == if (!Routes(taskType) && protocol.strictness.Strict?) || !contextBuilt || !promptStored then None
                       else Some(ResolveTaskAgent(matrix, taskType))
      ensures taskId in protocol.states && fresh(protocol.states[taskId])
      ensures protocol.states[taskId].View() == Routed(taskId, taskType)
      ensures protocol.OthersUnchanged(taskId)
    {
      agent := Route(taskId, taskType);
      if !contextBuilt || !promptStored {
        agent := None;
      }
    }

    /** `handleTaskInline`: the same without a seed prompt. */
    method HandleTaskInline(taskId: string, taskType: TaskType, contextBuilt: bool) returns (agent: Option<Agent>)
      requires protocol.Valid()
      modifies protocol`states
      ensures protocol.Valid()
      ensures agent == if (!Routes(taskType) && protocol.strictness.Strict?) || !contextBuilt then None
                       else Some(ResolveTaskAgent(matrix, taskType))
      ensures taskId in protocol.states && fresh(protocol.states[taskId])
      ensures protocol.states[taskId].View() == Routed(taskId, taskType)
      ensures protocol.OthersUnchanged(taskId)
    {
      agent := Route(taskId, taskType);
      if !contextBuilt {
        agent := None;
      }
    }

    /** `CompleteTaskCycle`: without the agent's wrap-up nothing happens; with it the protocol is finished,
        and whether that went well is not reported. */
    method CompleteTaskCycle(taskId: string, wrapUp: Option<string>) returns (fetched: Option<string>)
      requires protocol.Valid()
      modifies protocol.StateOf(taskId)
      ensures fetched == wrapUp
      ensures taskId in protocol.states ==>
                protocol.states[taskId].View()
                == if wrapUp.Some? then Finished(protocol.strictness, old(protocol.states[taskId].View()))
                   else old(protocol.states[taskId].View())
      ensures protocol.OthersUnchanged(taskId)
    {
      if wrapUp.None? {
        return None;
      }
      var _ := protocol.CompleteProtocol(taskId);
      return wrapUp;
    }
  }

  /** From delegation to the end, in every mode: all nine steps, in order, and no violation. */
  lemma CycleEndsFinished(level: Strictness)
    ensures Finished(level, DELEGATED) == FINISHED
    ensures forall step :: !IsMissing(Finished(level, DELEGATED), step)
  {
    assert MANDATORY[..4] == [MemoryQuery, ThoughtChain, Plan, Delegate];
    FinishFromDelegate(level, DELEGATED);
  }

  /** The same for a task whose agent did not pass the validation; its violation stays. */
  lemma MisroutedCycle(level: Strictness, violations: seq<Violation>)
    ensures Finished(level, DELEGATED.(violations := violations)) == FINISHED.(violations := violations)
    ensures Finished(Strict, PLANNED.(violations := violations)) == PLANNED.(violations := violations)
  {
    assert MANDATORY[..4] == [MemoryQuery, ThoughtChain, Plan, Delegate];
    FinishFromDelegate(level, DELEGATED.(violations := violations));
  }

  /** The progress after `i` completions. */
  predicate IsAfter(level: Strictness, routed: bool, start: seq<Violation>, p: Progress, i: nat) {
    if level == Strict && !routed then p == PLANNED.(violations := start)
    else
      && p.current == Complete && p.completed == MANDATORY && p.waived == map[]
      && start <= p.violations && |p.violations| == |start| + (if level == Standard then i - 1 else 0)
  }

  lemma FirstCompletion(level: Strictness, routed: bool, start: seq<Violation>)
    requires routed ==> start == []
    ensures var before := if level == Strict && !routed then PLANNED else DELEGATED;
            IsAfter(level, routed, start, Finished(level, before.(violations := start)), 1)
  {
    MisroutedCycle(level, start);
  }

  lemma OneMoreCompletion(level: Strictness, routed: bool, start: seq<Violation>, p: Progress, i: nat)
    requires i >= 1 && IsAfter(level, routed, start, p, i)
    ensures IsAfter(level, routed, start, Finished(level, p), i + 1)
  {
    if level == Strict && !routed {
      MisroutedCycle(level, start);
    } else {
      FinishAgain(level, p);
    }
  }

  /** A whole cycle of a task, with any number of repeated completions that do fetch their wrap-up: a task that
      strict routing blocks stays planned for good; every other one ends finished, with one violation if it was
      misrouted, and one more for each repetition in standard mode. */
  method WholeCycle(orchestrator: Orchestrator, taskId: string, taskType: TaskType, wrapUps: seq<string>)
    requires orchestrator.protocol.Valid() && wrapUps != []
    modifies orchestrator.protocol`states
    ensures taskId in orchestrator.protocol.states
    ensures var level, matrix := orchestrator.protocol.strictness, orchestrator.matrix;
            var routed := IsValidRouting(matrix, taskType, ResolveTaskAgent(matrix, taskType));
            var p := orchestrator.protocol.states[taskId].View();
            if level == Strict && !routed then
              p == Progress(Plan, [MemoryQuery, ThoughtChain, Plan], [Misrouted(taskId)], map[])
            else
              && p.current == Complete && p.completed == MANDATORY && p.waived == map[]
              && |p.violations| == (if routed then 0 else 1) + (if level == Standard then |wrapUps| - 1 else 0)
              && (!routed ==> p.violations[0] == Misrouted(taskId))
  {
    var level := orchestrator.protocol.strictness;
    var matrix := orchestrator.matrix;
    var routed := IsValidRouting(matrix, taskType, ResolveTaskAgent(matrix, taskType));
    var start := if routed then [] else [Misrouted(taskId)];
    var _ := orchestrator.HandleTaskStateless(taskId, taskType, true, true);
    FirstCompletion(level, routed, start);
    var _ := orchestrator.CompleteTaskCycle(taskId, Some(wrapUps[0]));
    for i := 1 to |wrapUps|
      invariant orchestrator.protocol.Valid() && taskId in orchestrator.protocol.states
      invariant fresh(orchestrator.protocol.states[taskId])
      invariant IsAfter(level, routed, start, orchestrator.protocol.states[taskId].View(), i)
    {
      OneMoreCompletion(level, routed, start, orchestrator.protocol.states[taskId].View(), i);
      var _ := orchestrator.CompleteTaskCycle(taskId, Some(wrapUps[i]));
    }
  }
}

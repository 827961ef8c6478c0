/** The saga object and its orchestrator, field by field and loop by loop, proved against SagaModel.
    What lies outside (node executor, compensation handler, repository) records its calls and answers
    from an arbitrary function of the call number. */
module SagaOrchestrator {
  import opened Common
  import opened Variables
  import opened SagaModel

  class NodeExecutor {
    var calls: seq<(string, Vars)>
    const answers: nat -> Answer

    constructor (answers: nat -> Answer)
      ensures calls == [] && this.answers == answers
    {
      calls := [];
      this.answers := answers;
    }

    method ExecuteNode(nodeId: string, variables: Vars) returns (answer: Answer)
      modifies this
      ensures calls == old(calls) + [(nodeId, variables)] && answer == answers(|old(calls)|)
    {
      answer := answers(|calls|);
      calls := calls + [(nodeId, variables)];
    }
  }

  class CompensationHandler {
    var calls: seq<UndoCall>
    const answers: nat -> Answer

    constructor (answers: nat -> Answer)
      ensures calls == [] && this.answers == answers
    {
      calls := [];
      this.answers := answers;
    }

    method ExecuteCompensation(call: UndoCall) returns (answer: Answer)
      modifies this
      ensures calls == old(calls) + [call] && answer == answers(|old(calls)|)
    {
      answer := answers(|calls|);
      calls := calls + [call];
    }
  }

  class SagaRepository {
    var writes: seq<SagaState>
    const accepts: nat -> bool

    constructor (accepts: nat -> bool)
      ensures writes == [] && this.accepts == accepts
    {
      writes := [];
      this.accepts := accepts;
    }

    method Write(state: SagaState) returns (ok: bool)
      modifies this
      ensures writes == old(writes) + [state] && ok == accepts(|old(writes)|)
    {
      ok := accepts(|writes|);
      writes := writes + [state];
    }
  }

  class Saga {
    var status: SagaStatus
    var steps: seq<SagaStep>
    var currentStepIndex: int
    var variables: Vars
    var error: Option<SagaError>
    var updatedAt: int
    var completedAt: Option<int>

    function State(): SagaState
      reads this
    {
      SagaState(status, steps, currentStepIndex, variables, error, updatedAt, completedAt)
    }

    constructor (variables: Vars, now: int)
      ensures State() == Start(variables, now).(status := Pending)
      ensures status == Pending && steps == [] && currentStepIndex == -1 && this.variables == variables
      ensures error == None && completedAt == None
    {
      status, steps, currentStepIndex := Pending, [], -1;
      this.variables, error, updatedAt, completedAt := variables, None, now, None;
    }

    method AddStep(nodeId: string, nodeName: string, undoId: string, undoName: string, input: Vars)
      modifies this`steps
      ensures steps == old(steps) + [NewStep(nodeId, nodeName, undoId, undoName, input)]
      ensures steps == old(steps) +
                [SagaStep(nodeId, nodeName, undoId, undoName, StepPending, input, map[], map[], None, None, None)]
    {
      steps := steps + [NewStep(nodeId, nodeName, undoId, undoName, input)];
    }

    method GetCompletedSteps() returns (completed: seq<SagaStep>)
      ensures completed == CompletedBelow(steps, |steps|)
      ensures completed == [] <==> !HasCompleted(steps)
    {
      completed := [];
      var i := |steps| - 1;
      while i >= 0
        invariant -1 <= i < |steps|
        invariant completed + CompletedBelow(steps, i + 1) == CompletedBelow(steps, |steps|)
        invariant completed == [] <==> forall j :: i < j < |steps| ==> steps[j].status != StepCompleted
      {
        if steps[i].status == StepCompleted {
          completed := completed + [steps[i]];
        }
        i := i - 1;
      }
    }

    method GetPendingSteps() returns (pending: seq<SagaStep>)
      requires -1 <= currentStepIndex
      ensures pending == PendingBetween(steps, currentStepIndex + 1, |steps|)
      ensures forall t :: t in pending <==>
                exists i :: currentStepIndex < i < |steps| && steps[i] == t && t.status == StepPending
    {
      pending := [];
      var i := currentStepIndex + 1;
      while i < |steps|
        invariant currentStepIndex < i
        invariant pending == PendingBetween(steps, currentStepIndex + 1, if i <= |steps| then i else |steps|)
        invariant forall t :: t in pending <==>
                    exists j :: currentStepIndex < j < i && j < |steps| && steps[j] == t && t.status == StepPending
      {
        if steps[i].status == StepPending {
          pending := pending + [steps[i]];
        }
        i := i + 1;
      }
    }

    method CanCompensate() returns (r: bool)
      ensures r == HasCompensation(steps)
    {
      for i := 0 to |steps|
        invariant forall j :: 0 <= j < i ==> !Undoable(steps[j])
      {
        if steps[i].compensateNodeId != "" && steps[i].status == StepCompleted {
          return true;
        }
      }
      return false;
    }
  }

  datatype Outcome = Success | InvalidIndex | NodeNotFound | ExecutionFailed | NotStored

  /** The error codes reported for a failed service task. */
  datatype TaskError = TaskFailed | TaskCompensated | CompensationFailed

  class Orchestrator {
    const executor: NodeExecutor
    const handler: CompensationHandler?
    const repository: SagaRepository?

    constructor (executor: NodeExecutor, handler: CompensationHandler?, repository: SagaRepository?)
      ensures this.executor == executor && this.handler == handler && this.repository == repository
    {
      this.executor, this.handler, this.repository := executor, handler, repository;
    }

    /** Whether the write after k others would be accepted. */
    ghost predicate AcceptsAfter(k: nat)
      reads repository
    {
      repository == null || repository.accepts(|repository.writes| + k)
    }

    /** Whether the next write would be accepted. */
    ghost predicate Accepts()
      reads repository
    {
      AcceptsAfter(0)
    }

    /** What these writes leave in the repository, accepted or not; nothing when there is none. */
    ghost function Recorded(states: seq<SagaState>): seq<SagaState> {
      if repository == null then [] else states
    }

    ghost function Writes(): seq<SagaState>
      reads repository
    {
      if repository == null then [] else repository.writes
    }

    /** The undo calls issued so far. */
    ghost function Undone(): seq<UndoCall>
      reads handler
    {
      if handler == null then [] else handler.calls
    }

    /** What a compensation of these steps adds to the undo calls. */
    ghost function NewCalls(steps: seq<SagaStep>): seq<UndoCall> {
      if handler == null then [] else UndoCalls(CompletedBelow(steps, |steps|))
    }

    method Store(saga: Saga) returns (ok: bool)
      modifies repository
      ensures ok == old(Accepts())
      ensures Writes() == old(Writes()) + Recorded([saga.State()])
    {
      ok := true;
      if repository != null {
        ok := repository.Write(saga.State());
      }
    }

    method StartSaga(variables: Vars, now: int) returns (saga: Saga?)
      modifies repository
      ensures saga != null <==> old(Accepts())
      ensures saga != null ==> fresh(saga) && saga.State() == Start(variables, now)
      ensures saga != null ==> saga.State() == SagaState(Running, [], -1, variables, None, now, None)
      ensures Writes() == old(Writes()) + Recorded([Start(variables, now)])
    {
      var created := new Saga(variables, now);
      created.status := Running;
      var ok := Store(created);
      return if ok then created else null;
    }

    method AddStep(saga: Saga, nodeId: string, nodeName: string, undoId: string, undoName: string, input: Vars, now: int)
      returns (ok: bool)
      modifies saga, repository
      ensures ok == old(Accepts())
      ensures saga.State() == Added(old(saga.State()), NewStep(nodeId, nodeName, undoId, undoName, input), now)
      ensures |saga.steps| == |old(saga.steps)| + 1 && saga.steps[..|old(saga.steps)|] == old(saga.steps)
      ensures saga.updatedAt == now && saga.variables == old(saga.variables) && saga.status == old(saga.status)
      ensures Writes() == old(Writes()) + Recorded([saga.State()])
    {
      saga.AddStep(nodeId, nodeName, undoId, undoName, input);
      saga.updatedAt := now;
      ok := Store(saga);
    }

    method ExecuteStep(saga: Saga, nodes: set<string>, stepIndex: int, now: int) returns (outcome: Outcome)
      modifies saga, executor, handler, repository
      ensures ExecuteEffect(old(saga.State()), saga.State(), nodes, stepIndex, now, old(|executor.calls|), old(Accepts()))
      ensures var s := old(saga.State());
              var runs := 0 <= stepIndex < |s.steps| && s.steps[stepIndex].nodeId in nodes;
              && executor.calls == old(executor.calls)
                 + (if runs then [(s.steps[stepIndex].nodeId, s.steps[stepIndex].input)] else [])
              && Undone() == old(Undone())
                 + (if runs && executor.answers(|old(executor.calls)|).Error?
                    then NewCalls(StepError(s, stepIndex, "EXECUTION_FAILED").steps) else [])
      ensures var s := old(saga.State());
              outcome == if stepIndex < 0 || stepIndex >= |s.steps| then InvalidIndex
                         else if s.steps[stepIndex].nodeId !in nodes then NodeNotFound
                         else if executor.answers(|old(executor.calls)|).Error? then ExecutionFailed
                         else if old(Accepts()) then Success else NotStored
      ensures Writes() == old(Writes()) + Recorded(
                match outcome
                case InvalidIndex => []
                case NodeNotFound => []
                case ExecutionFailed =>
                  var failed := StepError(old(saga.State()), stepIndex, "EXECUTION_FAILED");
                  if HasCompleted(failed.steps) then [CompensateStep(failed, now)] else []
                case _ => [saga.State()])
    {
      hide CompletedBelow; hide UndoCalls; hide MarkedAll; hide HasCompleted; hide HasFailed; hide CompensateStep;
      if stepIndex < 0 || stepIndex >= |saga.steps| {
        return InvalidIndex;
      }
      ghost var s := saga.State();
      saga.currentStepIndex := stepIndex;
      var step := saga.steps[stepIndex];
      if step.nodeId !in nodes {
        saga.steps := saga.steps[stepIndex := step.(status := StepFailed,
                                                    error := Some(SagaError("NODE_NOT_FOUND", step.nodeId)))];
        return NodeNotFound;
      }
      var answer := executor.ExecuteNode(step.nodeId, step.input);
      if answer.Error? {
        saga.steps := saga.steps[stepIndex := step.(status := StepFailed,
                                                    error := Some(SagaError("EXECUTION_FAILED", step.nodeId)))];
        assert saga.State() == StepError(s, stepIndex, "EXECUTION_FAILED");
        var ok := Compensate(saga, now);
        if !ok {
          saga.status := Failed;
        }
        return ExecutionFailed;
      }
      saga.steps := saga.steps[stepIndex := step.(status := StepCompleted, output := answer.variables,
                                                  executedAt := Some(now),
                                                  compensateInput := step.compensateInput + answer.variables)];
      saga.variables := saga.variables + answer.variables;
      saga.updatedAt := now;
      var ok := Store(saga);
      return if ok then Success else NotStored;
    }

    /** The saga after ExecuteStep is the model's, for the executor's answer and the repository's. */
    ghost predicate ExecuteEffect(s: SagaState, t: SagaState, nodes: set<string>, index: int, now: int,
                                  call: nat, saved: bool) {
      var known := 0 <= index < |s.steps| && s.steps[index].nodeId in nodes;
      t == SagaModel.ExecuteStep(s, index, known, executor.answers(call), saved, now)
    }

    /** Undo every completed step in reverse order, then mark. A handler error is only logged. */
    method Compensate(saga: Saga, now: int) returns (ok: bool)
      modifies saga, handler, repository
      ensures saga.State() == CompensateStep(old(saga.State()), now)
      ensures Undone() == old(Undone()) + NewCalls(old(saga.steps))
      ensures ok == (HasCompleted(old(saga.steps)) ==> old(Accepts()))
      ensures Writes() == old(Writes()) + Recorded(if HasCompleted(old(saga.steps)) then [saga.State()] else [])
    {
      hide CompletedBelow;
      saga.status := Compensating;
      var completed := saga.GetCompletedSteps();
      if |completed| == 0 {
        saga.status := Compensated;
        return true;
      }
      UndoEach(completed, now);
      saga.updatedAt := now;
      var allCompensated := MarkEach(saga, now);
      if allCompensated {
        saga.status := Compensated;
        saga.completedAt := Some(now);
      } else {
        saga.status := Failed;
      }
      ok := Store(saga);
    }

    /** The undo loop. */
    method UndoEach(completed: seq<SagaStep>, now: int)
      modifies handler
      ensures Undone() == if handler == null then [] else old(Undone()) + UndoCalls(completed)
    {
      ghost var before := Undone();
      for n := 0 to |completed|
        invariant Undone() == if handler == null then [] else before + UndoCalls(completed[..n])
      {
        UndoCallsSnoc(completed[..n], completed[n]);
        assert completed[..n + 1] == completed[..n] + [completed[n]];
        if completed[n].compensateNodeId != "" {
          CompensateOne(completed[n], now);
        }
      }
      assert completed[..|completed|] == completed;
    }

    /** The marking loop. */
    method MarkEach(saga: Saga, now: int) returns (allCompensated: bool)
      modifies saga`steps
      ensures saga.steps == MarkedAll(old(saga.steps), now)
      ensures allCompensated <==> forall i | 0 <= i < |old(saga.steps)| :: old(saga.steps)[i].status != StepFailed
    {
      allCompensated := true;
      ghost var steps := saga.steps;
      for i := 0 to |saga.steps|
        invariant |saga.steps| == |steps|
        invariant forall j :: 0 <= j < |steps| ==> saga.steps[j] == if j < i then Marked(steps[j], now) else steps[j]
        invariant allCompensated <==> forall j :: 0 <= j < i ==> steps[j].status != StepFailed
      {
        if saga.steps[i].status == StepCompleted {
          saga.steps := saga.steps[i := saga.steps[i].(status := StepCompensated, compensatedAt := Some(now))];
        } else if saga.steps[i].status == StepFailed {
          allCompensated := false;
        }
      }
    }

    /** The undo of one step. It works on a copy: nothing it stores there reaches the saga. */
    method CompensateOne(copy: SagaStep, now: int)
      modifies handler
      ensures Undone() == if handler == null then []
                          else old(Undone()) + [UndoCall(copy.compensateNodeId, copy.compensateNodeName, copy.compensateInput)]
    {
      if handler != null {
        var answer := handler.ExecuteCompensation(CallFor(copy));
      }
    }

    method CompleteSaga(saga: Saga, now: int) returns (ok: bool)
      modifies saga, repository
      ensures saga.State() == Step(old(saga.State()), Complete, now) && ok == old(Accepts())
      ensures saga.State() == old(saga.State()).(status := Completed, completedAt := Some(now), updatedAt := now)
      ensures Writes() == old(Writes()) + Recorded([saga.State()])
    {
      saga.status := Completed;
      saga.completedAt := Some(now);
      saga.updatedAt := now;
      ok := Store(saga);
    }

    method FailSaga(saga: Saga, now: int)
      modifies saga, repository
      ensures saga.State() == Step(old(saga.State()), Fail, now)
      ensures saga.status == Failed && saga.error.Some? && saga.error.value.code == "SAGA_FAILED"
      ensures saga.updatedAt == now && saga.steps == old(saga.steps) && saga.variables == old(saga.variables)
      ensures Writes() == old(Writes()) + Recorded([saga.State()])
    {
      saga.status := Failed;
      saga.error := Some(SagaError("SAGA_FAILED", ""));
      saga.updatedAt := now;
      var ok := Store(saga);
    }

    /** The error handler compensates exactly when some completed step names an undo node, and reports so
        when the result could be stored. */
    method HandleError(saga: Saga, now: int) returns (compensated: bool)
      modifies saga, handler, repository
      ensures saga.State() == Step(old(saga.State()), Op.HandleError, now)
      ensures saga.State() == if HasCompensation(old(saga.steps)) then CompensateStep(old(saga.State()), now)
                              else old(saga.State())
      ensures Undone() == old(Undone()) + NewCalls(old(saga.steps))
      ensures compensated <==> HasCompensation(old(saga.steps)) && old(Accepts())
      ensures Writes() == old(Writes()) + Recorded(if HasCompensation(old(saga.steps)) then [saga.State()] else [])
    {
      var can := saga.CanCompensate();
      if can {
        var completed := saga.GetCompletedSteps();
        if |completed| != 0 {
          compensated := Compensate(saga, now);
          return;
        }
      } else {
        NothingToUndo(saga.steps, |saga.steps|);
        UndoCallsFollowOrder(saga.steps, |saga.steps|);
      }
      return false;
    }

    method HandleServiceTaskError(saga: Saga, nodeId: string, nodeName: string, isForCompensation: bool, undoId: string,
                                  now: int) returns (code: TaskError)
      modifies saga, handler, repository
      ensures var task := NewStep(nodeId, nodeName, undoId, "", map[]);
              saga.State() == Step(old(saga.State()), HandleTaskError(isForCompensation || undoId != "", task), now)
      ensures code == if !HasCompensation(old(saga.steps)) then TaskFailed
                      else if old(AcceptsAfter(if isForCompensation || undoId != "" then 1 else 0))
                      then TaskCompensated else CompensationFailed
      ensures var task := NewStep(nodeId, nodeName, undoId, "", map[]);
              Writes() == old(Writes()) + Recorded(
                (if isForCompensation || undoId != "" then [Added(old(saga.State()), task, now)] else []) +
                (if HasCompensation(old(saga.steps)) then [saga.State()] else []))
      ensures Undone() == old(Undone()) + NewCalls(old(saga.steps))
    {
      hide UndoCalls; hide CompletedBelow; hide HasCompensation; hide HasCompleted; hide HasFailed; hide MarkedAll;
      hide CompensateStep;
      var compensatable := isForCompensation || undoId != "";
      TaskErrorFacts(saga.State(), NewStep(nodeId, nodeName, undoId, "", map[]), compensatable, now);
      if compensatable {
        var ok := AddStep(saga, nodeId, nodeName, undoId, "", map[], now);
      }
      var can := saga.CanCompensate();
      if can {
        var ok := Compensate(saga, now);
        return if ok then TaskCompensated else CompensationFailed;
      }
      return TaskFailed;
    }
  }

  /** The step added for a failed task changes neither what can be undone nor which undo calls that takes. */
  lemma TaskErrorFacts(s: SagaState, task: SagaStep, compensatable: bool, now: int)
    requires task.status == StepPending
    ensures var s' := if compensatable then Added(s, task, now) else s;
            && (HasCompensation(s'.steps) <==> HasCompensation(s.steps))
            && (HasCompensation(s.steps) ==> HasCompleted(s'.steps))
            && CompletedBelow(s'.steps, |s'.steps|) == CompletedBelow(s.steps, |s.steps|)
            && (!HasCompensation(s.steps) ==> UndoCalls(CompletedBelow(s.steps, |s.steps|)) == [])
            && Step(s, HandleTaskError(compensatable, task), now)
               == if HasCompensation(s'.steps) then CompensateStep(s', now) else s'
  {
    PendingStepAddsNoUndo(s.steps, task);
    hide UndoCalls; hide CompletedBelow; hide MarkedAll; hide CompensateStep;
    if !HasCompensation(s.steps) {
      NothingToUndo(s.steps, |s.steps|);
      UndoCallsFollowOrder(s.steps, |s.steps|);
    }
  }

  lemma {:induction false} UndoCallsSnoc(steps: seq<SagaStep>, step: SagaStep)
    ensures UndoCalls(steps + [step]) ==
            UndoCalls(steps) + if step.compensateNodeId != "" then [CallFor(step)] else []
  {
    if steps != [] {
      assert (steps + [step])[1..] == steps[1..] + [step];
      UndoCallsSnoc(steps[1..], step);
    }
  }

  lemma {:induction false} CompletedPrefix(steps: seq<SagaStep>, step: SagaStep, n: nat)
    requires n <= |steps|
    ensures CompletedBelow(steps + [step], n) == CompletedBelow(steps, n)
  {
    if n > 0 {
      CompletedPrefix(steps, step, n - 1);
      var longer := steps + [step];
      assert longer[n - 1] == steps[n - 1];
      assert CompletedBelow(longer, n) ==
             (if longer[n - 1].status == StepCompleted then [longer[n - 1]] else []) + CompletedBelow(longer, n - 1);
    }
  }

  lemma PendingStepAddsNoUndo(steps: seq<SagaStep>, step: SagaStep)
    requires step.status == StepPending
    ensures CompletedBelow(steps + [step], |steps| + 1) == CompletedBelow(steps, |steps|)
    ensures HasCompensation(steps + [step]) <==> HasCompensation(steps)
  {
    CompletedPrefix(steps, step, |steps|);
    assert (steps + [step])[|steps|] == step;
    assert CompletedBelow(steps + [step], |steps| + 1) == [] + CompletedBelow(steps + [step], |steps|);
    AddedCompensation(steps, step);
  }
}

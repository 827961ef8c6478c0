/** The saga as a state machine on values: what each orchestrator call does to a saga, which undo calls
    it issues, and what holds over every run of such calls. */
module SagaModel {
  import opened Common
  import opened Variables

  datatype SagaStatus = Pending | Running | Compensating | Completed | Failed | Compensated

  datatype StepStatus = StepPending | StepCompleted | StepCompensated | StepFailed

  datatype SagaError = SagaError(code: string, nodeId: string)

  datatype SagaStep = SagaStep(
    nodeId: string, nodeName: string, compensateNodeId: string, compensateNodeName: string,
    status: StepStatus, input: Vars, output: Vars, compensateInput: Vars,
    error: Option<SagaError>, executedAt: Option<int>, compensatedAt: Option<int>)

  datatype SagaState = SagaState(
    status: SagaStatus, steps: seq<SagaStep>, currentStepIndex: int, variables: Vars,
    error: Option<SagaError>, updatedAt: int, completedAt: Option<int>)

  /** What a node execution or an undo answers: output variables, or an error. */
  datatype Answer = Done(variables: Vars) | Error

  /** One call of the compensation handler. */
  datatype UndoCall = UndoCall(nodeId: string, nodeName: string, input: Vars)

  // ---------- the calls ----------

  function NewStep(nodeId: string, nodeName: string, undoId: string, undoName: string, input: Vars): SagaStep {
    SagaStep(nodeId, nodeName, undoId, undoName, StepPending, input, map[], map[], None, None, None)
  }

  function Start(variables: Vars, now: int): SagaState {
    SagaState(Running, [], -1, variables, None, now, None)
  }

  function Added(s: SagaState, step: SagaStep, now: int): SagaState {
    s.(steps := s.steps + [step], updatedAt := now)
  }

  /** The completed steps among the first n, last one first. */
  function CompletedBelow(steps: seq<SagaStep>, n: nat): seq<SagaStep>
    requires n <= |steps|
  {
    if n == 0 then []
    else (if steps[n - 1].status == StepCompleted then [steps[n - 1]] else []) + CompletedBelow(steps, n - 1)
  }

  /** The pending steps from position from up to n, in order. */
  function PendingBetween(steps: seq<SagaStep>, from: nat, n: nat): seq<SagaStep>
    requires n <= |steps|
  {
    if n <= from then []
    else PendingBetween(steps, from, n - 1) + (if steps[n - 1].status == StepPending then [steps[n - 1]] else [])
  }

  /** Positions, among the first n, of the completed steps that name an undo node, last one first. */
  function UndoIndices(steps: seq<SagaStep>, n: nat): seq<nat>
    requires n <= |steps|
  {
    if n == 0 then [] else (if Undoable(steps[n - 1]) then [n - 1] else []) + UndoIndices(steps, n - 1)
  }

  predicate Undoable(step: SagaStep) { step.status == StepCompleted && step.compensateNodeId != "" }

  function CallFor(step: SagaStep): UndoCall {
    UndoCall(step.compensateNodeId, step.compensateNodeName, step.compensateInput)
  }

  /** The handler calls issued for a list of steps, in the list's order. */
  function UndoCalls(steps: seq<SagaStep>): seq<UndoCall> {
    if steps == [] then []
    else (if steps[0].compensateNodeId != "" then [CallFor(steps[0])] else []) + UndoCalls(steps[1..])
  }

  predicate HasCompleted(steps: seq<SagaStep>) {
    exists i :: 0 <= i < |steps| && steps[i].status == StepCompleted
  }

  predicate HasFailed(steps: seq<SagaStep>) {
    exists i :: 0 <= i < |steps| && steps[i].status == StepFailed
  }

  predicate HasCompensation(steps: seq<SagaStep>) {
    exists i :: 0 <= i < |steps| && Undoable(steps[i])
  }

  function Marked(step: SagaStep, now: int): SagaStep {
    if step.status == StepCompleted then step.(status := StepCompensated, compensatedAt := Some(now)) else step
  }

  function MarkedAll(steps: seq<SagaStep>, now: int): (r: seq<SagaStep>)
    ensures |r| == |steps| && forall i :: 0 <= i < |steps| ==> r[i] == Marked(steps[i], now)
  {
    seq(|steps|, i requires 0 <= i < |steps| => Marked(steps[i], now))
  }

  /** Compensation, whatever the undo calls answer. */
  function CompensateStep(s: SagaState, now: int): SagaState {
    if !HasCompleted(s.steps) then s.(status := Compensated)
    else if HasFailed(s.steps) then s.(status := Failed, steps := MarkedAll(s.steps, now), updatedAt := now)
    else s.(status := Compensated, steps := MarkedAll(s.steps, now), updatedAt := now, completedAt := Some(now))
  }

  /** A compensation whose result the repository refuses to store. */
  function CompensateOrFail(s: SagaState, now: int, saved: bool): SagaState {
    if HasCompleted(s.steps) && !saved then CompensateStep(s, now).(status := Failed) else CompensateStep(s, now)
  }

  function StepError(s: SagaState, index: int, code: string): SagaState
    requires 0 <= index < |s.steps|
  {
    s.(currentStepIndex := index,
       steps := s.steps[index := s.steps[index].(status := StepFailed,
                                                 error := Some(SagaError(code, s.steps[index].nodeId)))])
  }

  function StepDone(s: SagaState, index: int, output: Vars, now: int): SagaState
    requires 0 <= index < |s.steps|
  {
    var step := s.steps[index];
    s.(currentStepIndex := index,
       steps := s.steps[index := step.(status := StepCompleted, output := output, executedAt := Some(now),
                                       compensateInput := step.compensateInput + output)],
       variables := s.variables + output,
       updatedAt := now)
  }

  /** Executing a step. The caller's saga is left alone on a bad index. */
  function ExecuteStep(s: SagaState, index: int, known: bool, answer: Answer, saved: bool, now: int): SagaState {
    if index < 0 || index >= |s.steps| then s
    else if !known then StepError(s, index, "NODE_NOT_FOUND")
    else
      match answer
      case Done(output) => StepDone(s, index, output, now)
      case Error => CompensateOrFail(StepError(s, index, "EXECUTION_FAILED"), now, saved)
  }

  // ---------- runs ----------

  /** One orchestrator or error-handler call, with the answers its surroundings gave. */
  datatype Op =
    | AddStep(step: SagaStep)
    | Execute(index: int, known: bool, answer: Answer, saved: bool)
    | Compensate
    | HandleError
    | HandleTaskError(compensatable: bool, step: SagaStep)
    | Complete
    | Fail

  /** Only freshly built steps are ever added. */
  predicate Proper(op: Op) {
    match op
    case AddStep(t) => t == NewStep(t.nodeId, t.nodeName, t.compensateNodeId, t.compensateNodeName, t.input)
    case HandleTaskError(_, t) => t == NewStep(t.nodeId, t.nodeName, t.compensateNodeId, "", map[])
    case _ => true
  }

  function Step(s: SagaState, op: Op, now: int): SagaState {
    match op
    case AddStep(step) => Added(s, step, now)
    case Execute(index, known, answer, saved) => ExecuteStep(s, index, known, answer, saved, now)
    case Compensate => CompensateStep(s, now)
    case HandleError => if HasCompensation(s.steps) then CompensateStep(s, now) else s
    case HandleTaskError(compensatable, step) =>
      var s' := if compensatable then Added(s, step, now) else s;
      if HasCompensation(s'.steps) then CompensateStep(s', now) else s'
    case Complete => s.(status := Completed, completedAt := Some(now), updatedAt := now)
    case Fail => s.(status := Failed, error := Some(SagaError("SAGA_FAILED", "")), updatedAt := now)
  }

  /** What the outside world sees of a run: successful executions and undo requests, by step position. */
  datatype Event = Executed(index: nat, output: Vars) | Undone(index: nat, input: Vars)

  function Undos(steps: seq<SagaStep>, n: nat): seq<Event>
    requires n <= |steps|
  {
    if n == 0 then []
    else (if Undoable(steps[n - 1]) then [Undone(n - 1, steps[n - 1].compensateInput)] else []) + Undos(steps, n - 1)
  }

  /** The undo requests of one compensation. */
  function UndosOf(s: SagaState): seq<Event> { Undos(s.steps, |s.steps|) }

  function Events(s: SagaState, op: Op): seq<Event> {
    match op
    case Execute(index, known, answer, _) =>
      if index < 0 || index >= |s.steps| || !known then []
      else if answer.Done? then [Executed(index, answer.variables)]
      else UndosOf(StepError(s, index, "EXECUTION_FAILED"))
    case Compensate => UndosOf(s)
    case HandleError => UndosOf(s)
    case HandleTaskError(compensatable, step) => UndosOf(s)
    case _ => []
  }

  function Run(variables: Vars, ops: seq<(Op, int)>): SagaState {
    if ops == [] then Start(variables, 0)
    else Step(Run(variables, ops[..|ops| - 1]), ops[|ops| - 1].0, ops[|ops| - 1].1)
  }

  function Log(variables: Vars, ops: seq<(Op, int)>): seq<Event> {
    if ops == [] then []
    else Log(variables, ops[..|ops| - 1]) + Events(Run(variables, ops[..|ops| - 1]), ops[|ops| - 1].0)
  }

  // ---------- one compensation ----------

  lemma {:induction false} UndoIndicesExact(steps: seq<SagaStep>, n: nat, i: nat)
    requires n <= |steps|
    ensures i in UndoIndices(steps, n) <==> i < n && Undoable(steps[i])
  {
    if n > 0 {
      UndoIndicesExact(steps, n - 1, i);
    }
  }

  lemma {:induction false} UndoIndicesDecrease(steps: seq<SagaStep>, n: nat, a: nat, b: nat)
    requires n <= |steps| && a < b < |UndoIndices(steps, n)|
    ensures UndoIndices(steps, n)[a] > UndoIndices(steps, n)[b]
  {
    var order, rest := UndoIndices(steps, n), UndoIndices(steps, n - 1);
    if !Undoable(steps[n - 1]) {
      assert order == rest;
      UndoIndicesDecrease(steps, n - 1, a, b);
    } else if a > 0 {
      UndoIndicesDecrease(steps, n - 1, a - 1, b - 1);
    } else {
      assert order[b] == rest[b - 1];
      UndoIndicesExact(steps, n - 1, order[b]);
    }
  }

  /** Undo goes strictly last step first, and through exactly the completed steps that have an undo node. */
  lemma UndoOrder(steps: seq<SagaStep>)
    ensures var order := UndoIndices(steps, |steps|);
            && (forall a, b :: 0 <= a < b < |order| ==> order[a] > order[b])
            && (forall i: nat :: i in order <==>
                  i < |steps| && steps[i].status == StepCompleted && steps[i].compensateNodeId != "")
  {
    var order := UndoIndices(steps, |steps|);
    forall a, b | 0 <= a < b < |order| ensures order[a] > order[b] {
      UndoIndicesDecrease(steps, |steps|, a, b);
    }
    forall i: nat ensures i in order <==> i < |steps| && Undoable(steps[i]) {
      UndoIndicesExact(steps, |steps|, i);
    }
  }

  lemma NextCall(steps: seq<SagaStep>, n: nat)
    requires 0 < n <= |steps|
    ensures UndoCalls(CompletedBelow(steps, n)) ==
            (if Undoable(steps[n - 1]) then [CallFor(steps[n - 1])] else []) + UndoCalls(CompletedBelow(steps, n - 1))
  {
    if steps[n - 1].status == StepCompleted {
      assert CompletedBelow(steps, n)[1..] == CompletedBelow(steps, n - 1);
    } else {
      assert CompletedBelow(steps, n) == CompletedBelow(steps, n - 1);
    }
  }

  /** Call number a of a compensation undoes step UndoIndices[a], with that step's own compensation input. */
  lemma {:induction false} UndoCallsFollowOrder(steps: seq<SagaStep>, n: nat)
    requires n <= |steps|
    ensures var order, calls := UndoIndices(steps, n), UndoCalls(CompletedBelow(steps, n));
            && |calls| == |order|
            && forall a :: 0 <= a < |order| ==>
                 && order[a] < n
                 && calls[a].nodeId == steps[order[a]].compensateNodeId
                 && calls[a].nodeName == steps[order[a]].compensateNodeName
                 && calls[a].input == steps[order[a]].compensateInput
  {
    if n > 0 {
      UndoCallsFollowOrder(steps, n - 1);
      var order, rest := UndoIndices(steps, n), UndoIndices(steps, n - 1);
      var calls, before := UndoCalls(CompletedBelow(steps, n)), UndoCalls(CompletedBelow(steps, n - 1));
      NextCall(steps, n);
      assert order == if Undoable(steps[n - 1]) then [n - 1] + rest else rest;
      hide UndoIndices; hide UndoCalls; hide CompletedBelow;
    }
  }

  /** The events of a compensation are its undo calls, position by position. */
  lemma {:induction false} UndosFollowOrder(steps: seq<SagaStep>, n: nat)
    requires n <= |steps|
    ensures var order, events := UndoIndices(steps, n), Undos(steps, n);
            && |events| == |order|
            && forall a :: 0 <= a < |order| ==> order[a] < n && events[a] == Undone(order[a], steps[order[a]].compensateInput)
  {
    if n > 0 {
      UndosFollowOrder(steps, n - 1);
      var order, rest := UndoIndices(steps, n), UndoIndices(steps, n - 1);
      var events, before := Undos(steps, n), Undos(steps, n - 1);
      assert order == if Undoable(steps[n - 1]) then [n - 1] + rest else rest;
      assert events == if Undoable(steps[n - 1])
                       then [Undone(n - 1, steps[n - 1].compensateInput)] + before else before;
    }
  }

  /** What a compensation leaves behind when there was something to compensate. */
  lemma CompensationOutcome(s: SagaState, now: int)
    requires HasCompleted(s.steps)
    ensures var t := CompensateStep(s, now);
            && !HasCompleted(t.steps) && |t.steps| == |s.steps|
            && (forall i :: 0 <= i < |s.steps| ==>
                  if s.steps[i].status == StepCompleted
                  then t.steps[i] == s.steps[i].(status := StepCompensated, compensatedAt := Some(now))
                  else t.steps[i] == s.steps[i])
            && (t.status == Compensated <==> forall i | 0 <= i < |s.steps| :: s.steps[i].status != StepFailed)
            && (t.status == Failed <==> HasFailed(t.steps))
            && (t.completedAt == if t.status == Compensated then Some(now) else s.completedAt)
            && t.updatedAt == now && t.variables == s.variables
            && t.currentStepIndex == s.currentStepIndex && t.error == s.error
  {
    var t := CompensateStep(s, now);
    if HasFailed(s.steps) {
      var i :| 0 <= i < |s.steps| && s.steps[i].status == StepFailed;
      assert t.steps[i].status == StepFailed;
    }
  }

  /** The status is documented as "successfully compensated". After any run, exactly when does Compensate
      grant it: when no step failed, or, less expectedly, when nothing was completed. And exactly when does
      it grant it to a saga that still has a failed step: when nothing was completed, and then it has not
      asked for a single undo. */
  lemma CompensatedIff(variables: Vars, ops: seq<(Op, int)>, now: int)
    ensures var s, t := Run(variables, ops), Run(variables, ops + [(Compensate, now)]);
            && (t.status == Compensated <==> !HasCompleted(s.steps) || !HasFailed(s.steps))
            && (t.status == Compensated && HasFailed(t.steps) <==> !HasCompleted(s.steps) && HasFailed(s.steps))
            && (t.status == Compensated && HasFailed(t.steps) ==> Events(s, Compensate) == [])
  {
    var s := Run(variables, ops);
    var more := ops + [(Compensate, now)];
    assert more[..|more| - 1] == ops;
    assert Run(variables, more) == CompensateStep(s, now);
    hide Run;
    if HasCompleted(s.steps) {
      CompensationOutcome(s, now);
    } else {
      NothingToUndo(s.steps, |s.steps|);
    }
  }

  /** Two calls reach that state: the only step of a saga is added and fails, and the saga is compensated. */
  lemma CompensatedDespiteFailure(variables: Vars, step: SagaStep, now: int)
    ensures var s := Run(variables, [(AddStep(step), now), (Execute(0, true, Error, true), now)]);
            HasFailed(s.steps) && s.status == Compensated
  {
    var add, execute := (AddStep(step), now), (Execute(0, true, Error, true), now);
    assert [add][..0] == [] && [add, execute][..1] == [add];
    var s := Run(variables, [add]);
    assert Run(variables, []) == Start(variables, 0);
    assert s == Added(Start(variables, 0), step, now);
    var failed := StepError(s, 0, "EXECUTION_FAILED");
    assert failed.steps[0].status == StepFailed && |failed.steps| == 1;
    assert Run(variables, [add, execute]) == Step(s, execute.0, now) == CompensateOrFail(failed, now, true);
  }

  lemma {:induction false} NothingToUndo(steps: seq<SagaStep>, n: nat)
    requires n <= |steps| && !HasCompensation(steps)
    ensures Undos(steps, n) == [] && UndoIndices(steps, n) == []
  {
    if n > 0 {
      NothingToUndo(steps, n - 1);
    }
  }

  /** Compensating a second time undoes nothing a second time. */
  lemma SecondCompensationIsSilent(s: SagaState, now: int)
    ensures var t := CompensateStep(s, now).steps;
            UndoCalls(CompletedBelow(t, |t|)) == []
  {
    var t := CompensateStep(s, now).steps;
    if HasCompleted(s.steps) {
      CompensationOutcome(s, now);
    }
    NothingToUndo(t, |t|);
    UndoCallsFollowOrder(t, |t|);
  }

  // ---------- whole runs ----------

  /** Steps are only appended; what names a step never changes. */
  ghost predicate Extends(s: SagaState, t: SagaState) {
    && |s.steps| <= |t.steps|
    && forall i :: 0 <= i < |s.steps| ==> SameStep(s.steps[i], t.steps[i])
  }

  predicate SameStep(a: SagaStep, b: SagaStep) {
    && a.nodeId == b.nodeId && a.nodeName == b.nodeName && a.input == b.input
    && a.compensateNodeId == b.compensateNodeId && a.compensateNodeName == b.compensateNodeName
  }

  lemma StepExtends(s: SagaState, op: Op, now: int)
    ensures Extends(s, Step(s, op, now))
  {
    match op
    case AddStep(step) =>
    case Execute(index, known, answer, saved) =>
      if 0 <= index < |s.steps| && known && answer.Error? {
        CompensateExtends(StepError(s, index, "EXECUTION_FAILED"), now);
      }
    case Compensate => CompensateExtends(s, now);
    case HandleError => CompensateExtends(s, now);
    case HandleTaskError(compensatable, step) =>
      CompensateExtends(if compensatable then Added(s, step, now) else s, now);
    case Complete =>
    case Fail =>
  }

  lemma CompensateExtends(s: SagaState, now: int)
    ensures Extends(s, CompensateStep(s, now)) && |CompensateStep(s, now).steps| == |s.steps|
  {}

  lemma {:induction false} RunExtends(variables: Vars, ops: seq<(Op, int)>, more: seq<(Op, int)>)
    ensures Extends(Run(variables, ops), Run(variables, ops + more))
  {
    hide Step;
    if more == [] {
      assert ops + more == ops;
    } else {
      var init := more[..|more| - 1];
      assert (ops + more)[..|ops + more| - 1] == ops + init;
      RunExtends(variables, ops, init);
      StepExtends(Run(variables, ops + init), more[|more| - 1].0, more[|more| - 1].1);
    }
  }

  function Executions(log: seq<Event>, i: nat): nat {
    if log == [] then 0
    else Executions(log[..|log| - 1], i) + (if log[|log| - 1].Executed? && log[|log| - 1].index == i then 1 else 0)
  }

  function UndoRequests(log: seq<Event>, i: nat): nat {
    if log == [] then 0
    else UndoRequests(log[..|log| - 1], i) + (if log[|log| - 1].Undone? && log[|log| - 1].index == i then 1 else 0)
  }

  /** All outputs of the successful executions in a log, later ones over earlier ones. */
  function Outputs(base: Vars, log: seq<Event>): Vars {
    if log == [] then base
    else
      var before := Outputs(base, log[..|log| - 1]);
      match log[|log| - 1]
      case Executed(_, output) => before + output
      case Undone(_, _) => before
  }

  /** The same for one step only. */
  function OutputsOf(log: seq<Event>, i: nat): Vars {
    if log == [] then map[]
    else
      var before := OutputsOf(log[..|log| - 1], i);
      match log[|log| - 1]
      case Executed(j, output) => if j == i then before + output else before
      case Undone(_, _) => before
  }

  lemma LogSnoc(log: seq<Event>, e: Event, base: Vars, i: nat)
    ensures UndoRequests(log + [e], i) == UndoRequests(log, i) + (if e.Undone? && e.index == i then 1 else 0)
    ensures Executions(log + [e], i) == Executions(log, i) + (if e.Executed? && e.index == i then 1 else 0)
    ensures Outputs(base, log + [e]) == if e.Executed? then Outputs(base, log) + e.output else Outputs(base, log)
    ensures OutputsOf(log + [e], i) == if e.Executed? && e.index == i then OutputsOf(log, i) + e.output else OutputsOf(log, i)
  {
    assert (log + [e])[..|log|] == log;
  }

  /** How a batch of undo requests counts: one exactly for an undoable step, none for any other, and no
      effect on executions or outputs. */
  lemma {:induction false} UndosCount(log: seq<Event>, base: Vars, steps: seq<SagaStep>, n: nat, i: nat)
    requires n <= |steps|
    ensures var all := log + Undos(steps, n);
            && UndoRequests(all, i) == UndoRequests(log, i) + (if i < n && Undoable(steps[i]) then 1 else 0)
            && Executions(all, i) == Executions(log, i)
            && Outputs(base, all) == Outputs(base, log)
            && OutputsOf(all, i) == OutputsOf(log, i)
    decreases n
  {
    hide Executions; hide UndoRequests; hide Outputs; hide OutputsOf;
    if n == 0 {
      assert log + [] == log;
    } else if Undoable(steps[n - 1]) {
      var e := Undone(n - 1, steps[n - 1].compensateInput);
      LogSnoc(log, e, base, i);
      assert log + Undos(steps, n) == (log + [e]) + Undos(steps, n - 1);
      UndosCount(log + [e], base, steps, n - 1, i);
    } else {
      assert Undos(steps, n) == Undos(steps, n - 1);
      UndosCount(log, base, steps, n - 1, i);
    }
  }

  /** The ledger of a run: undo requests never outnumber successful executions, a completed step has one
      execution to spare, its stored compensation input is what its executions put out, and the saga's
      variables are the initial ones overridden by every output in order. */
  ghost predicate Balanced(initial: Vars, s: SagaState, log: seq<Event>, i: nat) {
    && UndoRequests(log, i) <= Executions(log, i)
    && (i < |s.steps| && s.steps[i].status == StepCompleted ==> UndoRequests(log, i) < Executions(log, i))
    && (i < |s.steps| ==> s.steps[i].compensateInput == OutputsOf(log, i))
    && (i >= |s.steps| ==> Executions(log, i) == 0 && OutputsOf(log, i) == map[])
    && s.variables == Outputs(initial, log)
  }

  lemma CompensateKeepsBalance(initial: Vars, s: SagaState, log: seq<Event>, i: nat, now: int)
    requires Balanced(initial, s, log, i)
    ensures Balanced(initial, CompensateStep(s, now), log + UndosOf(s), i)
  {
    hide Executions; hide UndoRequests; hide Outputs; hide OutputsOf; hide Undos;
    UndosCount(log, initial, s.steps, |s.steps|, i);
    if HasCompleted(s.steps) {
      CompensationOutcome(s, now);
    }
  }

  /** A compensation that is not started because nothing can be undone would have undone nothing. */
  lemma SkipKeepsBalance(initial: Vars, s: SagaState, log: seq<Event>, i: nat)
    requires Balanced(initial, s, log, i) && !HasCompensation(s.steps)
    ensures Balanced(initial, s, log + UndosOf(s), i)
  {
    NothingToUndo(s.steps, |s.steps|);
    assert log + [] == log;
  }

  lemma AddKeepsBalance(initial: Vars, s: SagaState, log: seq<Event>, i: nat, step: SagaStep, now: int)
    requires Balanced(initial, s, log, i) && step.compensateInput == map[] && step.status == StepPending
    ensures Balanced(initial, Added(s, step, now), log, i)
    ensures UndosOf(Added(s, step, now)) == UndosOf(s)
  {
    UndosPrefix(s.steps, step, |s.steps|);
  }

  lemma {:induction false} UndosPrefix(steps: seq<SagaStep>, step: SagaStep, n: nat)
    requires n <= |steps|
    ensures Undos(steps + [step], n) == Undos(steps, n)
  {
    if n > 0 {
      UndosPrefix(steps, step, n - 1);
      assert (steps + [step])[n - 1] == steps[n - 1];
    }
  }

  lemma ExecuteKeepsBalance(initial: Vars, s: SagaState, log: seq<Event>, i: nat, op: Op, now: int)
    requires op.Execute? && Balanced(initial, s, log, i)
    ensures Balanced(initial, Step(s, op, now), log + Events(s, op), i)
  {
    hide Executions; hide UndoRequests; hide Outputs; hide OutputsOf; hide Undos;
    assert log + [] == log;
    if 0 <= op.index < |s.steps| && op.known {
      match op.answer
      case Done(output) => LogSnoc(log, Executed(op.index, output), initial, i);
      case Error => CompensateKeepsBalance(initial, StepError(s, op.index, "EXECUTION_FAILED"), log, i, now);
    }
  }

  lemma StepKeepsBalance(initial: Vars, s: SagaState, log: seq<Event>, i: nat, op: Op, now: int)
    requires Balanced(initial, s, log, i) && Proper(op)
    ensures Balanced(initial, Step(s, op, now), log + Events(s, op), i)
  {
    hide Executions; hide UndoRequests; hide Outputs; hide OutputsOf; hide Undos;
    assert log + [] == log;
    match op
    case AddStep(step) => AddKeepsBalance(initial, s, log, i, step, now);
    case Execute(_, _, _, _) => ExecuteKeepsBalance(initial, s, log, i, op, now);
    case Compensate => CompensateKeepsBalance(initial, s, log, i, now);
    case HandleError =>
      if HasCompensation(s.steps) {
        CompensateKeepsBalance(initial, s, log, i, now);
      } else {
        SkipKeepsBalance(initial, s, log, i);
      }
    case HandleTaskError(compensatable, step) =>
      AddKeepsBalance(initial, s, log, i, step, now);
      var s' := if compensatable then Added(s, step, now) else s;
      if HasCompensation(s'.steps) {
        CompensateKeepsBalance(initial, s', log, i, now);
      } else {
        SkipKeepsBalance(initial, s', log, i);
      }
    case Complete =>
    case Fail =>
  }

  /** The accounting law over every run of every interleaving of calls and answers. */
  lemma {:induction false} RunIsBalanced(variables: Vars, ops: seq<(Op, int)>, i: nat)
    requires forall p | p in ops :: Proper(p.0)
    ensures Balanced(variables, Run(variables, ops), Log(variables, ops), i)
  {
    if ops != [] {
      var init, last := ops[..|ops| - 1], ops[|ops| - 1];
      RunIsBalanced(variables, init, i);
      StepKeepsBalance(variables, Run(variables, init), Log(variables, init), i, last.0, last.1);
    }
  }

  /** Every undo request carries the outputs of the step it undoes, all of them and no others. */
  lemma {:induction false} UndoInputsAreOutputs(variables: Vars, ops: seq<(Op, int)>, at: nat)
    requires forall p | p in ops :: Proper(p.0)
    requires at < |Log(variables, ops)| && Log(variables, ops)[at].Undone?
    ensures var e := Log(variables, ops)[at];
            e.input == OutputsOf(Log(variables, ops)[..at], e.index)
  {
    hide Executions; hide UndoRequests; hide Outputs; hide OutputsOf; hide Undos; hide Step; hide Run;
    var init, last := ops[..|ops| - 1], ops[|ops| - 1];
    var s, log := Run(variables, init), Log(variables, init);
    var more := Events(s, last.0);
    if at < |log| {
      UndoInputsAreOutputs(variables, init, at);
      assert Log(variables, ops)[..at] == log[..at];
    } else {
      var e := more[at - |log|];
      RunIsBalanced(variables, init, e.index);
      var source := if last.0.Execute? then StepError(s, last.0.index, "EXECUTION_FAILED") else s;
      UndosAt(log, source.steps, |source.steps|, at - |log|);
      assert Log(variables, ops)[..at] == log + more[..at - |log|];
    }
  }

  /** Inside one batch, the request at position a names its step and leaves the outputs as they were. */
  lemma {:induction false} UndosAt(log: seq<Event>, steps: seq<SagaStep>, n: nat, a: nat)
    requires n <= |steps| && a < |Undos(steps, n)|
    ensures var e := Undos(steps, n)[a];
            && e.Undone? && e.index < n && e.input == steps[e.index].compensateInput
            && OutputsOf(log + Undos(steps, n)[..a], e.index) == OutputsOf(log, e.index)
    decreases n
  {
    var rest := Undos(steps, n - 1);
    if Undoable(steps[n - 1]) {
      var e := Undone(n - 1, steps[n - 1].compensateInput);
      assert Undos(steps, n) == [e] + rest;
      if a == 0 {
        assert log + Undos(steps, n)[..0] == log;
      } else {
        UndosAt(log + [e], steps, n - 1, a - 1);
        LogSnoc(log, e, map[], rest[a - 1].index);
        assert log + Undos(steps, n)[..a] == (log + [e]) + rest[..a - 1];
      }
    } else {
      assert Undos(steps, n) == rest;
      UndosAt(log, steps, n - 1, a);
    }
  }

  // ---------- executions, and what becomes of them ----------

  /** A successful execution, after any run: the step is completed and holds the call's output and time, the
      saga points at it, and nothing else of the saga but its variables and its stamp changes. */
  lemma ExecuteCompletes(variables: Vars, ops: seq<(Op, int)>, i: nat, output: Vars, saved: bool, now: int)
    requires i < |Run(variables, ops).steps|
    ensures var s, t := Run(variables, ops), Run(variables, ops + [(Execute(i, true, Done(output), saved), now)]);
            && |t.steps| == |s.steps|
            && t.steps[i].status == StepCompleted && t.steps[i].output == output && t.steps[i].executedAt == Some(now)
            && SameStep(s.steps[i], t.steps[i])
            && (forall j | 0 <= j < |s.steps| && j != i :: t.steps[j] == s.steps[j])
            && t.currentStepIndex == i && t.updatedAt == now
            && t.status == s.status && t.error == s.error && t.completedAt == s.completedAt
            && t.variables == s.variables + output
  {
    RunSnoc(variables, ops, Execute(i, true, Done(output), saved), now);
    hide Run;
  }

  /** A failing execution, after any run: the step failed, every other completed step is compensated, and
      the saga is failed if there was one, compensated if not. */
  lemma ExecuteFails(variables: Vars, ops: seq<(Op, int)>, i: nat, saved: bool, now: int)
    requires i < |Run(variables, ops).steps|
    ensures var s, t := Run(variables, ops), Run(variables, ops + [(Execute(i, true, Error, saved), now)]);
            && |t.steps| == |s.steps|
            && t.steps[i].status == StepFailed && t.steps[i].error == Some(SagaError("EXECUTION_FAILED", s.steps[i].nodeId))
            && (forall j | 0 <= j < |s.steps| && j != i ::
                  t.steps[j] == if s.steps[j].status == StepCompleted
                                then s.steps[j].(status := StepCompensated, compensatedAt := Some(now)) else s.steps[j])
            && t.currentStepIndex == i && t.variables == s.variables
            && t.status == if exists j :: 0 <= j < |s.steps| && j != i && s.steps[j].status == StepCompleted
                           then Failed else Compensated
  {
    RunSnoc(variables, ops, Execute(i, true, Error, saved), now);
    var s := Run(variables, ops);
    var failed := StepError(s, i, "EXECUTION_FAILED");
    hide Run;
    assert failed.steps[i].status == StepFailed;
    if j :| 0 <= j < |s.steps| && j != i && s.steps[j].status == StepCompleted {
      assert failed.steps[j].status == StepCompleted;
    }
    if j :| 0 <= j < |failed.steps| && failed.steps[j].status == StepCompleted {
      assert j != i && s.steps[j].status == StepCompleted;
    }
  }

  /** Without its node, the step fails and nothing is compensated. */
  lemma UnknownNodeFails(variables: Vars, ops: seq<(Op, int)>, i: nat, answer: Answer, saved: bool, now: int)
    requires i < |Run(variables, ops).steps|
    ensures var s, t := Run(variables, ops), Run(variables, ops + [(Execute(i, false, answer, saved), now)]);
            && t.steps == s.steps[i := s.steps[i].(status := StepFailed,
                                                   error := Some(SagaError("NODE_NOT_FOUND", s.steps[i].nodeId)))]
            && t == s.(steps := t.steps, currentStepIndex := i)
  {
    RunSnoc(variables, ops, Execute(i, false, answer, saved), now);
    hide Run;
  }

  lemma RunSnoc(variables: Vars, ops: seq<(Op, int)>, op: Op, now: int)
    ensures Run(variables, ops + [(op, now)]) == Step(Run(variables, ops), op, now)
  {
    assert (ops + [(op, now)])[..|ops|] == ops;
    hide Step;
  }

  /** A compensation asks exactly once for the undo of each completed step that names an undo node. */
  lemma UndoRequestsExact(s: SagaState, i: nat)
    ensures UndoRequests(Events(s, Compensate), i) ==
            if i < |s.steps| && s.steps[i].status == StepCompleted && s.steps[i].compensateNodeId != "" then 1 else 0
  {
    UndosCount([], map[], s.steps, |s.steps|, i);
    assert [] + Undos(s.steps, |s.steps|) == Undos(s.steps, |s.steps|);
  }

  /** Executed and then compensated, after any run: exactly one undo of that step is requested, if it names
      an undo node. */
  lemma ExecuteThenCompensate(variables: Vars, ops: seq<(Op, int)>, i: nat, output: Vars, saved: bool, now: int)
    requires i < |Run(variables, ops).steps|
    ensures var s, t := Run(variables, ops), Run(variables, ops + [(Execute(i, true, Done(output), saved), now)]);
            UndoRequests(Events(t, Compensate), i) == if s.steps[i].compensateNodeId != "" then 1 else 0
  {
    ExecuteCompletes(variables, ops, i, output, saved, now);
    UndoRequestsExact(Run(variables, ops + [(Execute(i, true, Done(output), saved), now)]), i);
    hide Run; hide UndoRequests; hide Events;
  }

  /** Call k executed step i with success. */
  ghost predicate Succeeds(variables: Vars, ops: seq<(Op, int)>, k: nat, i: nat) {
    && k < |ops| && ops[k].0.Execute? && ops[k].0.index == i && ops[k].0.known && ops[k].0.answer.Done?
    && i < |Run(variables, ops[..k]).steps|
  }

  /** Call m executed step i without success, or started a compensation. */
  ghost predicate Spoils(variables: Vars, ops: seq<(Op, int)>, m: nat, i: nat)
    requires m < |ops|
  {
    var steps := Run(variables, ops[..m]).steps;
    match ops[m].0
    case Execute(j, known, answer, _) =>
      (j == i && (!known || answer.Error?)) || (0 <= j < |steps| && known && answer.Error?)
    case Compensate => true
    case HandleError => HasCompensation(steps)
    case HandleTaskError(_, _) => HasCompensation(steps)
    case _ => false
  }

  ghost predicate CompletedSince(variables: Vars, ops: seq<(Op, int)>, k: nat, i: nat) {
    Succeeds(variables, ops, k, i) && forall m | k < m < |ops| :: !Spoils(variables, ops, m, i)
  }

  /** Over every run: a step is completed exactly when some execution of it succeeded and since then neither
      an execution of it failed nor a compensation was started. */
  lemma {:induction false} CompletedIff(variables: Vars, ops: seq<(Op, int)>, i: nat)
    requires forall p | p in ops :: Proper(p.0)
    ensures (i < |Run(variables, ops).steps| && Run(variables, ops).steps[i].status == StepCompleted) <==>
            exists k :: CompletedSince(variables, ops, k, i)
  {
    if ops == [] {
      assert forall k :: !Succeeds(variables, ops, k, i);
    } else {
      var init, last := ops[..|ops| - 1], |ops| - 1;
      CompletedIff(variables, init, i);
      CompletedStep(variables, ops, i);
      forall k: nat { SinceStep(variables, ops, k, i); }
      hide Run; hide CompletedSince; hide Succeeds; hide Spoils;
      if k: nat :| CompletedSince(variables, init, k, i) && !Spoils(variables, ops, last, i) {
        assert k < last ==> CompletedSince(variables, ops, k, i);
      }
      if Succeeds(variables, ops, last, i) {
        assert CompletedSince(variables, ops, last, i);
      }
    }
  }

  lemma SinceStep(variables: Vars, ops: seq<(Op, int)>, k: nat, i: nat)
    requires ops != []
    ensures var init, last := ops[..|ops| - 1], |ops| - 1;
            && (CompletedSince(variables, ops, k, i) <==>
                  if k == last then Succeeds(variables, ops, last, i)
                  else CompletedSince(variables, init, k, i) && !Spoils(variables, ops, last, i))
            && (CompletedSince(variables, init, k, i) ==> k < last)
  {
    var init, last := ops[..|ops| - 1], |ops| - 1;
    forall m: nat | m < last
      ensures Spoils(variables, init, m, i) == Spoils(variables, ops, m, i)
      ensures Succeeds(variables, init, m, i) == Succeeds(variables, ops, m, i)
    {
      assert init[..m] == ops[..m];
      hide Run; hide HasCompensation;
    }
    assert k >= last ==> !Succeeds(variables, init, k, i);
    assert k > last ==> !Succeeds(variables, ops, k, i);
    hide Spoils; hide Succeeds;
  }

  /** One call more. */
  lemma CompletedStep(variables: Vars, ops: seq<(Op, int)>, i: nat)
    requires ops != [] && Proper(ops[|ops| - 1].0)
    ensures var s, t := Run(variables, ops[..|ops| - 1]), Run(variables, ops);
            (i < |t.steps| && t.steps[i].status == StepCompleted) <==>
            Succeeds(variables, ops, |ops| - 1, i) ||
            (i < |s.steps| && s.steps[i].status == StepCompleted && !Spoils(variables, ops, |ops| - 1, i))
  {
    var s, op, now := Run(variables, ops[..|ops| - 1]), ops[|ops| - 1].0, ops[|ops| - 1].1;
    assert Run(variables, ops) == Step(s, op, now);
    hide Run;
    match op
    case AddStep(step) =>
    case Execute(j, known, answer, saved) =>
      if 0 <= j < |s.steps| && known && answer.Error? {
        NoneCompleted(StepError(s, j, "EXECUTION_FAILED"), now);
      }
    case Compensate => NoneCompleted(s, now);
    case HandleError => NoneCompleted(s, now);
    case HandleTaskError(compensatable, step) =>
      var s' := if compensatable then Added(s, step, now) else s;
      NoneCompleted(s', now);
      AddedCompensation(s.steps, step);
    case Complete =>
    case Fail =>
  }

  lemma NoneCompleted(s: SagaState, now: int)
    ensures !HasCompleted(CompensateStep(s, now).steps)
  {
    if HasCompleted(s.steps) {
      CompensationOutcome(s, now);
    }
  }

  lemma AddedCompensation(steps: seq<SagaStep>, step: SagaStep)
    requires step.status == StepPending
    ensures HasCompensation(steps + [step]) <==> HasCompensation(steps)
  {
    var longer := steps + [step];
    if i :| 0 <= i < |steps| && Undoable(steps[i]) {
      assert Undoable(longer[i]);
    }
  }
}

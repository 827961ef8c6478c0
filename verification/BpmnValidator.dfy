/** The validator, which appends to its two lists rule by rule, and what an empty error list guarantees. */
module BpmnValidator {
  import opened Common
  import opened Bpmn
  import opened BpmnGraph

  datatype Severity = ErrorLevel | WarningLevel

  /** The message texts, one constructor each. */
  datatype Rule =
    | NilProcess | ProcessWithoutId | EmptyProcess
    | NoStartEvent | NoEndEvent | StartWithoutOutgoing | EndWithoutIncoming
    | FlowWithoutId | FlowWithoutSource | UnknownSource | FlowWithoutTarget | UnknownTarget | SelfFlow | Orphan
    | IsolatedGateway | TaskWithoutOutgoing | TaskWithoutIncoming
    | Unattached | BadAttachment | NoDefinition | EmptyTimer | BoundaryWithoutOutgoing

  datatype Issue = Issue(elementId: string, elementName: string, message: Rule, severity: Severity)

  // ---------- the rules ----------

  predicate IsId(p: Process, id: string) { exists e :: e in p.elements && e.id == id && Named(e) }

  predicate FlowOk(p: Process, f: SequenceFlow) {
    f.id != "" && IsId(p, f.sourceRef) && IsId(p, f.targetRef) && f.sourceRef != f.targetRef
  }

  predicate GatewayOk(e: FlowElement) {
    e.kind.ExclusiveGateway? || e.kind.InclusiveGateway? || e.kind.ParallelGateway? ==>
      e.incoming != [] || e.outgoing != []
  }

  predicate CheckedTask(e: FlowElement) {
    e.kind.UserTask? || e.kind.ServiceTask? || e.kind.ScriptTask? || e.kind.ReceiveTask? || e.kind.SendTask?
  }

  predicate TaskOk(e: FlowElement) { CheckedTask(e) ==> e.incoming != [] && e.outgoing != [] }

  predicate EventOk(e: FlowElement) {
    (e.kind.StartEvent? ==> e.outgoing != []) && (e.kind.EndEvent? ==> e.incoming != [])
  }

  predicate CanCarryBoundary(e: FlowElement) {
    var ty := TypeOf(e);
    ty.TyUserTask? || ty.TyServiceTask? || ty.TyScriptTask? || ty.TyManualTask? || ty.TyReceiveTask? || ty.TySubProcess?
  }

  predicate IsCarrier(p: Process, id: string) { exists e :: e in p.elements && e.id == id && CanCarryBoundary(e) }

  predicate BoundaryOk(p: Process, e: FlowElement) {
    e.kind.BoundaryEvent? ==>
      && e.kind.attachedToRef != "" && IsCarrier(p, e.kind.attachedToRef)
      && (e.kind.timer.Some? || e.kind.error.Some?)
      && (e.kind.timer.Some? ==> e.kind.timer.value != TimerDefinition("", "", ""))
      && e.outgoing != []
  }

  predicate HasStart(p: Process) { exists e :: e in p.elements && e.kind.StartEvent? }

  predicate HasEnd(p: Process) { exists e :: e in p.elements && e.kind.EndEvent? }

  predicate EventsOk(p: Process) {
    HasStart(p) && HasEnd(p) && forall e | e in p.elements :: EventOk(e)
  }

  /** What a process must satisfy to be reported without error. */
  predicate Sound(p: Process) {
    && p.id != "" && p.elements != []
    && EventsOk(p)
    && (forall f | f in p.flows :: FlowOk(p, f))
    && (forall e | e in p.elements :: GatewayOk(e) && TaskOk(e) && BoundaryOk(p, e))
  }

  /** A list only grew, and stayed as it was exactly when the rule held. */
  ghost predicate Grew(before: seq<Issue>, after: seq<Issue>, ok: bool) {
    before <= after && (before == after <==> ok)
  }

  class Validator {
    var errors: seq<Issue>
    var warnings: seq<Issue>

    constructor ()
      ensures errors == [] && warnings == []
    {
      errors, warnings := [], [];
    }

    method AddError(id: string, name: string, message: Rule)
      modifies this`errors
      ensures errors == old(errors) + [Issue(id, name, message, ErrorLevel)]
    {
      errors := errors + [Issue(id, name, message, ErrorLevel)];
    }

    method AddWarning(id: string, name: string, message: Rule)
      modifies this`warnings
      ensures warnings == old(warnings) + [Issue(id, name, message, WarningLevel)]
    {
      warnings := warnings + [Issue(id, name, message, WarningLevel)];
    }

    method CollectEvents(p: Process) returns (starts: seq<FlowElement>, ends: seq<FlowElement>)
      ensures forall e :: e in starts <==> e in p.elements && e.kind.StartEvent?
      ensures forall e :: e in ends <==> e in p.elements && e.kind.EndEvent?
    {
      starts, ends := [], [];
      for n := 0 to |p.elements|
        invariant forall e :: e in starts <==> e in p.elements[..n] && e.kind.StartEvent?
        invariant forall e :: e in ends <==> e in p.elements[..n] && e.kind.EndEvent?
      {
        var e := p.elements[n];
        assert p.elements[..n + 1] == p.elements[..n] + [e];
        match e.kind
        case StartEvent => starts := starts + [e];
        case EndEvent => ends := ends + [e];
        case _ =>
      }
      assert p.elements[..|p.elements|] == p.elements;
    }

    method CheckStarts(starts: seq<FlowElement>)
      modifies this`errors
      ensures Grew(old(errors), errors, forall e | e in starts :: e.outgoing != [])
    {
      for n := 0 to |starts|
        invariant Grew(old(errors), errors, forall i :: 0 <= i < n ==> starts[i].outgoing != [])
      {
        if |starts[n].outgoing| == 0 {
          AddError(starts[n].id, starts[n].name, StartWithoutOutgoing);
        }
      }
    }

    method CheckEnds(ends: seq<FlowElement>)
      modifies this`errors
      ensures Grew(old(errors), errors, forall e | e in ends :: e.incoming != [])
    {
      for n := 0 to |ends|
        invariant Grew(old(errors), errors, forall i :: 0 <= i < n ==> ends[i].incoming != [])
      {
        if |ends[n].incoming| == 0 {
          AddError(ends[n].id, ends[n].name, EndWithoutIncoming);
        }
      }
    }

    method ValidateEvents(p: Process)
      modifies this`errors
      ensures Grew(old(errors), errors, EventsOk(p))
    {
      var starts, ends := CollectEvents(p);
      assert |starts| > 0 ==> starts[0] in starts;
      assert |ends| > 0 ==> ends[0] in ends;
      if |starts| == 0 {
        AddError(p.id, p.name, NoStartEvent);
      }
      if |ends| == 0 {
        AddError(p.id, p.name, NoEndEvent);
      }
      CheckStarts(starts);
      CheckEnds(ends);
    }

    method CollectIds(p: Process) returns (ids: set<string>)
      ensures forall id :: id in ids <==> IsId(p, id)
    {
      ids := {};
      for n := 0 to |p.elements|
        invariant forall id :: id in ids <==> exists e :: e in p.elements[..n] && e.id == id && Named(e)
      {
        var e := p.elements[n];
        assert p.elements[..n + 1] == p.elements[..n] + [e];
        if e.id != "" {
          ids := ids + {e.id};
        }
      }
      assert p.elements[..|p.elements|] == p.elements;
    }

    method ValidateSequenceFlows(p: Process)
      modifies this
      ensures Grew(old(errors), errors, forall f | f in p.flows :: FlowOk(p, f))
      ensures Grew(old(warnings), warnings, forall e | e in p.elements && Named(e) :: Connected(p, e.id))
    {
      hide FlowOk; hide IsId; hide Connected;
      var ids := CollectIds(p);
      for n := 0 to |p.flows|
        invariant warnings == old(warnings)
        invariant Grew(old(errors), errors, forall i :: 0 <= i < n ==> FlowOk(p, p.flows[i]))
      {
        assert p.flows[..n + 1] == p.flows[..n] + [p.flows[n]];
        ValidateFlow(p, p.flows[n], ids);
      }
      assert p.flows[..|p.flows|] == p.flows;
      CheckOrphanElements(p);
    }

    method ValidateFlow(p: Process, flow: SequenceFlow, ids: set<string>)
      requires forall id :: id in ids <==> IsId(p, id)
      modifies this`errors
      ensures Grew(old(errors), errors, FlowOk(p, flow))
    {
      if flow.id == "" {
        AddError(flow.id, flow.name, FlowWithoutId);
        return;
      }
      if flow.sourceRef == "" {
        AddError(flow.id, flow.name, FlowWithoutSource);
      } else if flow.sourceRef !in ids {
        AddError(flow.id, flow.name, UnknownSource);
      }
      if flow.targetRef == "" {
        AddError(flow.id, flow.name, FlowWithoutTarget);
      } else if flow.targetRef !in ids {
        AddError(flow.id, flow.name, UnknownTarget);
      }
      if flow.sourceRef == flow.targetRef && flow.sourceRef != "" {
        AddError(flow.id, flow.name, SelfFlow);
      }
    }

    /** Unconnected elements are warned about, never reported as errors. */
    method CheckOrphanElements(p: Process)
      modifies this`warnings
      ensures Grew(old(warnings), warnings, forall e | e in p.elements && Named(e) :: Connected(p, e.id))
    {
      var connected: set<string> := {};
      for n := 0 to |p.flows|
        invariant forall id :: id in connected <==> exists f :: f in p.flows[..n] && (f.sourceRef == id || f.targetRef == id)
      {
        assert p.flows[..n + 1] == p.flows[..n] + [p.flows[n]];
        connected := connected + {p.flows[n].sourceRef} + {p.flows[n].targetRef};
      }
      assert p.flows[..|p.flows|] == p.flows;
      for n := 0 to |p.elements|
        invariant Grew(old(warnings), warnings, forall i :: 0 <= i < n && Named(p.elements[i]) ==> Connected(p, p.elements[i].id))
      {
        var e := p.elements[n];
        assert p.elements[..n + 1] == p.elements[..n] + [e];
        if e.id != "" && e.id !in connected {
          AddWarning(e.id, e.name, Orphan);
        }
      }
      assert p.elements[..|p.elements|] == p.elements;
    }

    method ValidateGateways(p: Process)
      modifies this`errors
      ensures Grew(old(errors), errors, forall e | e in p.elements :: GatewayOk(e))
    {
      for n := 0 to |p.elements|
        invariant Grew(old(errors), errors, forall i :: 0 <= i < n ==> GatewayOk(p.elements[i]))
      {
        var e := p.elements[n];
        assert p.elements[..n + 1] == p.elements[..n] + [e];
        if e.kind.ExclusiveGateway? || e.kind.InclusiveGateway? || e.kind.ParallelGateway? {
          if |e.incoming| == 0 && |e.outgoing| == 0 {
            AddError(e.id, e.name, IsolatedGateway);
          }
        }
      }
      assert p.elements[..|p.elements|] == p.elements;
    }

    method ValidateTasks(p: Process)
      modifies this`errors
      ensures Grew(old(errors), errors, forall e | e in p.elements :: TaskOk(e))
    {
      for n := 0 to |p.elements|
        invariant Grew(old(errors), errors, forall i :: 0 <= i < n ==> TaskOk(p.elements[i]))
      {
        var e := p.elements[n];
        assert p.elements[..n + 1] == p.elements[..n] + [e];
        if CheckedTask(e) {
          if |e.outgoing| == 0 {
            AddError(e.id, e.name, TaskWithoutOutgoing);
          }
          if |e.incoming| == 0 {
            AddError(e.id, e.name, TaskWithoutIncoming);
          }
        }
      }
      assert p.elements[..|p.elements|] == p.elements;
    }

    method CollectCarriers(p: Process) returns (carriers: set<string>)
      ensures forall id :: id in carriers <==> IsCarrier(p, id)
    {
      carriers := {};
      for n := 0 to |p.elements|
        invariant forall id :: id in carriers <==> exists e :: e in p.elements[..n] && e.id == id && CanCarryBoundary(e)
      {
        assert p.elements[..n + 1] == p.elements[..n] + [p.elements[n]];
        if CanCarryBoundary(p.elements[n]) {
          carriers := carriers + {p.elements[n].id};
        }
      }
      assert p.elements[..|p.elements|] == p.elements;
    }

    method ValidateBoundaryEvents(p: Process)
      modifies this`errors
      ensures Grew(old(errors), errors, forall e | e in p.elements :: BoundaryOk(p, e))
    {
      hide BoundaryOk; hide IsCarrier;
      var carriers := CollectCarriers(p);
      for n := 0 to |p.elements|
        invariant Grew(old(errors), errors, forall i :: 0 <= i < n ==> BoundaryOk(p, p.elements[i]))
      {
        ValidateBoundaryEvent(p, p.elements[n], carriers);
      }
    }

    method ValidateBoundaryEvent(p: Process, e: FlowElement, carriers: set<string>)
      requires forall id :: id in carriers <==> IsCarrier(p, id)
      modifies this`errors
      ensures Grew(old(errors), errors, BoundaryOk(p, e))
    {
      if !e.kind.BoundaryEvent? {
        return;
      }
      if e.kind.attachedToRef == "" {
        AddError(e.id, e.name, Unattached);
      } else if e.kind.attachedToRef !in carriers {
        AddError(e.id, e.name, BadAttachment);
      }
      if e.kind.timer.None? && e.kind.error.None? {
        AddError(e.id, e.name, NoDefinition);
      }
      if e.kind.timer.Some? {
        var timer := e.kind.timer.value;
        if timer.duration == "" && timer.date == "" && timer.cycle == "" {
          AddError(e.id, e.name, EmptyTimer);
        }
      }
      if |e.outgoing| == 0 {
        AddError(e.id, e.name, BoundaryWithoutOutgoing);
      }
    }

    /** No error is reported exactly when there is a process and it satisfies every rule. */
    method Validate(process: Option<Process>)
      modifies this
      ensures Grew(old(errors), errors, process.Some? && Sound(process.value))
    {
      if process.None? {
        AddError("", "", NilProcess);
        return;
      }
      var p := process.value;
      if p.id == "" {
        AddError(p.id, p.name, ProcessWithoutId);
      }
      if |p.elements| == 0 {
        AddError(p.id, p.name, EmptyProcess);
      }
      ValidateEvents(p);
      ValidateSequenceFlows(p);
      ValidateGateways(p);
      ValidateTasks(p);
      ValidateBoundaryEvents(p);
    }
  }

  predicate Connected(p: Process, id: string) { exists f :: f in p.flows && (f.sourceRef == id || f.targetRef == id) }

  // ---------- what soundness gives ----------

  lemma IdIsNode(g: Graph, p: Process, id: string)
    requires Represents(g, p) && IsId(p, id)
    ensures id in g.nodes
  {
    NodeMapFacts(p.elements, |p.elements|);
    var e :| e in p.elements && e.id == id && Named(e);
    var i :| 0 <= i < |p.elements| && p.elements[i] == e;
    assert p.elements[i].id in g.nodes;
  }

  /** What the rules ask of each element of a sound process, by its kind. */
  lemma SoundElement(p: Process, e: FlowElement)
    requires Sound(p) && e in p.elements
    ensures e.kind.StartEvent? || e.kind.BoundaryEvent? ==> e.outgoing != []
    ensures e.kind.EndEvent? ==> e.incoming != []
    ensures e.kind.UserTask? || e.kind.ServiceTask? || e.kind.ScriptTask? || e.kind.ReceiveTask? || e.kind.SendTask? ==>
              e.incoming != [] && e.outgoing != []
    ensures e.kind.ExclusiveGateway? || e.kind.InclusiveGateway? || e.kind.ParallelGateway? ==>
              e.incoming != [] || e.outgoing != []
    ensures e.kind.BoundaryEvent? ==> exists a ::
              a in p.elements && a.id == e.kind.attachedToRef &&
              (a.kind.UserTask? || (a.kind.ServiceTask? && !a.kind.isForCompensation) || a.kind.ScriptTask? ||
               a.kind.ManualTask? || a.kind.ReceiveTask? || a.kind.SubProcess?)
  {
    assert EventOk(e) && GatewayOk(e) && TaskOk(e) && BoundaryOk(p, e);
  }

  /** Every flow of a sound process is an edge between two distinct existing nodes. */
  lemma SoundFlowIsEdge(g: Graph, p: Process, i: nat)
    requires Represents(g, p) && Sound(p) && i < |p.flows|
    ensures var f := p.flows[i];
            && f.sourceRef in g.nodes && f.targetRef in g.nodes && f.sourceRef != f.targetRef
            && Rank(g.nodes, p.flows, i) < |Lookup(g.edges, f.sourceRef)|
            && Lookup(g.edges, f.sourceRef)[Rank(g.nodes, p.flows, i)] == g.nodes[f.targetRef]
  {
    var f := p.flows[i];
    assert f in p.flows && FlowOk(p, f);
    IdIsNode(g, p, f.sourceRef);
    IdIsNode(g, p, f.targetRef);
    FlowHasEdge(g.nodes, p.flows, i);
    assert Lookup(g.edges, f.sourceRef) == Targets(g.nodes, p.flows, |p.flows|, f.sourceRef);
  }

  /** No flow of a sound process is lost: each node has as many edges as flows. */
  lemma SoundEdgesCountFlows(g: Graph, p: Process, s: string)
    requires Represents(g, p) && Sound(p)
    ensures |Lookup(g.edges, s)| == |All(p.flows, From(s))|
  {
    forall i | 0 <= i < |p.flows| ensures p.flows[i].targetRef in g.nodes {
      SoundFlowIsEdge(g, p, i);
    }
    TargetsCountFlows(g.nodes, p.flows, |p.flows|, s);
    assert Lookup(g.edges, s) == Targets(g.nodes, p.flows, |p.flows|, s);
  }

  lemma {:induction false} TargetsCountFlows(nodes: map<string, FlowElement>, flows: seq<SequenceFlow>, n: nat, s: string)
    requires n <= |flows| && forall i :: 0 <= i < |flows| ==> flows[i].targetRef in nodes
    ensures |Targets(nodes, flows, n, s)| == |Select(flows, n, From(s))|
  {
    if n > 0 {
      TargetsCountFlows(nodes, flows, n - 1, s);
    }
  }

  /** The edges out of the first n of these nodes. */
  function EdgeSum(g: Graph, ids: seq<string>, n: nat): nat
    requires n <= |ids|
  {
    if n == 0 then 0 else EdgeSum(g, ids, n - 1) + |Lookup(g.edges, ids[n - 1])|
  }

  /** The flows, among the first m, out of the first n of these nodes. */
  function FlowSum(flows: seq<SequenceFlow>, m: nat, ids: seq<string>, n: nat): nat
    requires m <= |flows| && n <= |ids|
  {
    if n == 0 then 0 else FlowSum(flows, m, ids, n - 1) + |Select(flows, m, From(ids[n - 1]))|
  }

  /** One flow more counts at its source and nowhere else. */
  lemma {:induction false} FlowCountsOnce(flows: seq<SequenceFlow>, m: nat, ids: seq<string>, n: nat)
    requires 0 < m <= |flows| && n <= |ids| && Distinct(ids)
    ensures FlowSum(flows, m, ids, n) ==
            FlowSum(flows, m - 1, ids, n) + (if flows[m - 1].sourceRef in ids[..n] then 1 else 0)
  {
    if n > 0 {
      FlowCountsOnce(flows, m, ids, n - 1);
      assert ids[..n] == ids[..n - 1] + [ids[n - 1]];
      assert ids[n - 1] !in ids[..n - 1];
      assert From(ids[n - 1])(flows[m - 1]) <==> flows[m - 1].sourceRef == ids[n - 1];
    }
  }

  lemma {:induction false} FlowSumIsCount(flows: seq<SequenceFlow>, m: nat, ids: seq<string>)
    requires m <= |flows| && Distinct(ids) && forall i :: 0 <= i < m ==> flows[i].sourceRef in ids
    ensures FlowSum(flows, m, ids, |ids|) == m
  {
    if m > 0 {
      FlowSumIsCount(flows, m - 1, ids);
      FlowCountsOnce(flows, m, ids, |ids|);
      assert ids[..|ids|] == ids;
    } else {
      NoFlows(flows, ids, |ids|);
    }
  }

  lemma {:induction false} NoFlows(flows: seq<SequenceFlow>, ids: seq<string>, n: nat)
    requires n <= |ids|
    ensures FlowSum(flows, 0, ids, n) == 0
  {
    if n > 0 {
      NoFlows(flows, ids, n - 1);
    }
  }

  lemma {:induction false} EdgeSumIsFlowSum(g: Graph, p: Process, ids: seq<string>, n: nat)
    requires Represents(g, p) && Sound(p) && n <= |ids|
    ensures EdgeSum(g, ids, n) == FlowSum(p.flows, |p.flows|, ids, n)
  {
    hide Represents; hide Sound; hide Select; hide Lookup;
    if n > 0 {
      EdgeSumIsFlowSum(g, p, ids, n - 1);
      SoundEdgesCountFlows(g, p, ids[n - 1]);
    }
  }

  /** In all, the graph of a sound process has exactly as many edges as the process has flows: summed over
      its nodes, taken once each in any order. */
  lemma SoundEdgesTotal(g: Graph, p: Process, ids: seq<string>)
    requires Represents(g, p) && Sound(p)
    requires Distinct(ids) && forall id :: id in ids <==> id in g.nodes
    ensures EdgeSum(g, ids, |ids|) == |p.flows|
  {
    EdgeSumIsFlowSum(g, p, ids, |ids|);
    forall i | 0 <= i < |p.flows| ensures p.flows[i].sourceRef in ids {
      SoundFlowIsEdge(g, p, i);
    }
    FlowSumIsCount(p.flows, |p.flows|, ids);
  }

  /** Boundary events of a sound process hang on nodes. */
  lemma SoundBoundaryKeysAreNodes(g: Graph, p: Process, activity: string)
    requires Represents(g, p) && Sound(p) && Lookup(g.boundaryByActivity, activity) != []
    ensures activity in g.nodes
  {
    SelectMembers(p.elements, |p.elements|, NamedAttached(Any, activity));
    assert Lookup(g.boundaryByActivity, activity) == Select(p.elements, |p.elements|, ByActivity()(activity));
    var i :| 0 <= i < |p.elements| && NamedAttached(Any, activity)(p.elements[i]);
    assert p.elements[i] in p.elements && BoundaryOk(p, p.elements[i]);
    var e :| e in p.elements && e.id == activity && CanCarryBoundary(e);
    assert IsId(p, activity);
    IdIsNode(g, p, activity);
  }

  /** A sound process has a start node exactly when one of its start events has an id; the validator does
      not ask for ids. */
  lemma SoundStartNode(g: Graph, p: Process)
    requires Represents(g, p) && Sound(p)
    ensures (forall e | e in p.elements :: Named(e)) ==> g.startEvents != []
    ensures g.startEvents != [] <==> exists e :: e in p.elements && e.kind.StartEvent? && Named(e)
  {
    StartNodeIff(g, p);
  }

  /** A process that is reported without error and yet has no start node. */
  lemma SoundWithoutStartNode() returns (p: Process)
    ensures Sound(p) && forall g :: Represents(g, p) ==> g.startEvents == []
  {
    var start := FlowElement("", "start", [], ["f"], StartEvent);
    var end := FlowElement("end", "end", ["f"], [], EndEvent);
    p := Process("p", "", "true", [start, end], []);
    assert start in p.elements && end in p.elements;
    forall g | Represents(g, p) ensures g.startEvents == [] {
      StartNodeIff(g, p);
    }
  }
}

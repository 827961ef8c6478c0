/** What executing one node decides: fail, wait, or go on to a node. */
module Executor {
  import opened Common
  import opened Variables
  import opened Bpmn
  import opened BpmnGraph
  import Expression

  /** The surroundings of the executor: number parsing, the publisher's answer to each attempt of each
      call, and which actions the service registry offers at each call. */
  datatype Environment = Environment(
    runtime: Expression.Runtime,
    hasPublisher: bool, publishes: (nat, nat) -> bool,
    hasRegistry: bool, offers: (nat, string, string) -> bool)

  datatype AwaitType = NoAwait | UserTaskDone | ExternalTask | Message | Event | ExternalService

  datatype ExecutionResult = ExecutionResult(nextNodeId: string, variables: Vars, awaits: AwaitType, terminated: bool)

  datatype Outcome = Failure | Success(result: ExecutionResult)

  function Pass(variables: Vars): Outcome { Success(ExecutionResult("", variables, NoAwait, false)) }

  function GoTo(next: string, variables: Vars): Outcome { Success(ExecutionResult(next, variables, NoAwait, false)) }

  function Wait(why: AwaitType, variables: Vars): Outcome { Success(ExecutionResult("", variables, why, false)) }

  const LAST_RESULT := "_lastExpressionResult"

  // ---------- tasks ----------

  function ExecuteExpression(env: Environment, expression: string, variables: Vars): Outcome {
    match Expression.Evaluate(env.runtime, variables, expression)
    case Err => Failure
    case Ok(_) => Pass(variables[LAST_RESULT := Bool(true)])
  }

  /** Up to three attempts to publish. */
  function ExecuteDelegate(env: Environment, call: nat, expression: string, variables: Vars): Outcome {
    match Expression.ParseDelegate(expression)
    case None => Failure
    case Some((service, action)) =>
      if env.hasRegistry && env.offers(call, service, action) && env.hasPublisher &&
         (env.publishes(call, 1) || env.publishes(call, 2) || env.publishes(call, 3))
      then Wait(ExternalService, variables) else Failure
  }

  function ExecuteServiceTask(env: Environment, call: nat, kind: Kind, variables: Vars): Outcome
    requires kind.ServiceTask?
  {
    if kind.class_ != "" then Pass(variables)
    else if kind.expression != "" then ExecuteExpression(env, kind.expression, variables)
    else if kind.delegateExpression != "" then ExecuteDelegate(env, call, kind.delegateExpression, variables)
    else if kind.topic != "" then
      if env.hasPublisher && env.publishes(call, 1) then Wait(ExternalTask, variables) else Failure
    else Pass(variables)
  }

  function FirstOf(ids: seq<string>): string { if ids == [] then "" else ids[0] }

  const MAX_RETRIES := 3

  /** The retry loop: the first accepted attempt ends it; the pause starts at 100 ms and doubles. */
  method PublishWithRetry(env: Environment, call: nat) returns (ok: bool, attempt: nat, sleptMs: nat)
    ensures ok <==> env.publishes(call, 1) || env.publishes(call, 2) || env.publishes(call, 3)
    ensures 1 <= attempt <= MAX_RETRIES && ok == env.publishes(call, attempt)
    ensures forall a: nat | 1 <= a < attempt :: !env.publishes(call, a)
    ensures sleptMs == (if attempt == 1 then 0 else if attempt == 2 then 100 else 300)
  {
    var retryDelayMs := 100;
    attempt, sleptMs := 1, 0;
    while attempt < MAX_RETRIES && !env.publishes(call, attempt)
      invariant 1 <= attempt <= MAX_RETRIES
      invariant forall a: nat | 1 <= a < attempt :: !env.publishes(call, a)
      invariant retryDelayMs == (if attempt == 1 then 100 else if attempt == 2 then 200 else 400)
      invariant sleptMs == retryDelayMs - 100
    {
      sleptMs := sleptMs + retryDelayMs;
      retryDelayMs := retryDelayMs * 2;
      attempt := attempt + 1;
    }
    ok := env.publishes(call, attempt);
  }

  // ---------- gateways ----------

  function Unconditional(): SequenceFlow -> bool {
    (f: SequenceFlow) => f.condition.None? || f.condition.value == ""
  }

  /** The flow the executor follows out of a gateway. */
  function GatewayChoice(g: Graph, e: FlowElement): Option<SequenceFlow> {
    var outgoing := All(g.flows, From(e.id));
    if e.kind.ExclusiveGateway? then Preferred(outgoing, Unconditional())
    else if outgoing == [] then None else Some(outgoing[0])
  }

  /** Where the flow stands that the executor follows: out of an exclusive gateway the first that has no
      condition, or the first of all when each has one; out of any other gateway the first of all. */
  lemma GatewayChoiceAt(g: Graph, e: FlowElement) returns (at: nat)
    ensures GatewayChoice(g, e).None? <==> forall f | f in g.flows :: f.sourceRef != e.id
    ensures GatewayChoice(g, e).Some? ==>
              && at < |g.flows| && GatewayChoice(g, e) == Some(g.flows[at]) && g.flows[at].sourceRef == e.id
              && if e.kind.ExclusiveGateway? && Free(g.flows[at])
                 then forall i | 0 <= i < at && g.flows[i].sourceRef == e.id :: !Free(g.flows[i])
                 else (e.kind.ExclusiveGateway? ==> forall f | f in g.flows && f.sourceRef == e.id :: !Free(f)) &&
                      forall i | 0 <= i < at :: g.flows[i].sourceRef != e.id
  {
    SelectMembers(g.flows, |g.flows|, From(e.id));
    at := 0;
    if e.kind.ExclusiveGateway? {
      at := PreferredAt(g.flows, From(e.id), Unconditional());
    } else if All(g.flows, From(e.id)) != [] {
      at := SelectHead(g.flows, |g.flows|, From(e.id));
    }
    hide Select; hide Preferred;
    assert forall f: SequenceFlow :: Free(f) <==> Unconditional()(f);
  }

  /** A flow without a condition, or with an empty one. */
  predicate Free(f: SequenceFlow) { f.condition.None? || f.condition == Some("") }

  predicate Gateway(e: FlowElement) { e.kind.ExclusiveGateway? || e.kind.InclusiveGateway? || e.kind.ParallelGateway? }

  function ExecuteGateway(g: Graph, e: FlowElement, variables: Vars): Outcome {
    match GatewayChoice(g, e)
    case None => Failure
    case Some(f) => GoTo(f.targetRef, variables)
  }

  // ---------- dispatch ----------

  function ExecuteNode(env: Environment, call: nat, g: Graph, e: FlowElement, variables: Vars): Outcome {
    match e.kind
    case StartEvent => if e.outgoing == [] then Failure else GoTo(e.outgoing[0], variables)
    case EndEvent => Success(ExecutionResult("", variables, NoAwait, true))
    case UserTask => Wait(UserTaskDone, variables)
    case ServiceTask(_, _, _, _, _, _) => ExecuteServiceTask(env, call, e.kind, variables)
    case ScriptTask => Pass(variables)
    case ManualTask => Pass(variables)
    case ReceiveTask(_) => Wait(Message, variables)
    case SendTask(messageRef) =>
      if env.hasPublisher && messageRef != "" && !env.publishes(call, 1) then Failure
      else GoTo(FirstOf(e.outgoing), variables)
    case ExclusiveGateway => ExecuteGateway(g, e, variables)
    case InclusiveGateway => ExecuteGateway(g, e, variables)
    case ParallelGateway => ExecuteGateway(g, e, variables)
    case IntermediateCatchEvent => Wait(Event, variables)
    case IntermediateThrowEvent => Pass(variables)
    case BoundaryEvent(_, _, _, _) => if e.outgoing == [] then Failure else GoTo(e.outgoing[0], variables)
    case ComplexGateway => Failure
    case EventBasedGateway => Failure
    case SubProcess => Failure
    case AdHocSubProcess => Failure
    case Transaction => Failure
  }

  // ---------- the next node ignores the variables ----------

  /** The next node id as a function of graph and node alone; empty when there is none. */
  function Successor(g: Graph, e: FlowElement): string {
    if e.kind.StartEvent? || e.kind.SendTask? || e.kind.BoundaryEvent? then FirstOf(e.outgoing)
    else if Gateway(e) then
      match GatewayChoice(g, e)
      case None => ""
      case Some(f) => f.targetRef
    else ""
  }

  /** Whatever the variables, the call and the surroundings: a node that goes on goes to its successor. */
  lemma NextNodeIgnoresVariables(env: Environment, call: nat, g: Graph, e: FlowElement, variables: Vars)
    ensures var o := ExecuteNode(env, call, g, e, variables);
            o.Success? ==> o.result.nextNodeId == Successor(g, e) && (Successor(g, e) != "" ==> o.result.awaits == NoAwait)
  {}

  /** Whether a publish attempt is all that stands between a node and its successor. */
  predicate Publishes(e: FlowElement) { e.kind.SendTask? }

  /** A node with a successor reaches it, unless it has to publish and cannot. */
  lemma NodeWithSuccessorGoesOn(env: Environment, call: nat, g: Graph, e: FlowElement, variables: Vars)
    requires Successor(g, e) != "" && (Publishes(e) && env.hasPublisher ==> env.publishes(call, 1))
    ensures ExecuteNode(env, call, g, e, variables) == GoTo(Successor(g, e), variables)
  {}

  // ---------- two gateway evaluators ----------

  /** The graph's evaluator and the executor name the same next node, or both name none. */
  ghost predicate Agree(g: Graph, e: FlowElement)
    requires Gateway(e)
  {
    match ExecuteGateway(g, e, map[])
    case Failure => NextNodes(g, e.id) == Some([])
    case Success(r) =>
      NextNodes(g, e.id).Some? && NextNodes(g, e.id).value != [] && NextNodes(g, e.id).value[0].id == r.nextNodeId
  }

  lemma {:induction false} FirstStays<T>(s: seq<T>, n: nat, q: T -> bool)
    requires 0 < n <= |s| && q(s[0])
    ensures Select(s, n, q) != [] && Select(s, n, q)[0] == s[0]
  {
    if n > 1 {
      FirstStays(s, n - 1, q);
    } else {
      assert Select(s, 1, q) == Select(s, 0, q) + [s[0]];
    }
  }

  function TargetIn(g: Graph): SequenceFlow -> bool { (f: SequenceFlow) => f.targetRef in g.nodes }

  /** The flows the graph considers are the executor's flows with existing targets. */
  lemma ExistingFlows(g: Graph, id: string)
    ensures All(g.flows, Existing(g, id)) == All(All(g.flows, From(id)), TargetIn(g))
  {
    SelectTwice(g.flows, |g.flows|, From(id), TargetIn(g), Existing(g, id));
  }

  lemma {:induction false} TargetsAreFlowTargets(g: Graph, n: nat, id: string)
    requires n <= |g.flows|
    ensures var existing := Select(g.flows, n, Existing(g, id));
            && |Targets(g.nodes, g.flows, n, id)| == |existing|
            && forall i :: 0 <= i < |existing| ==>
                 existing[i].targetRef in g.nodes && Targets(g.nodes, g.flows, n, id)[i] == g.nodes[existing[i].targetRef]
  {
    if n > 0 {
      TargetsAreFlowTargets(g, n - 1, id);
    }
  }

  /** Dropping flows with missing targets does not change the preferred flow when its own target exists. */
  lemma PreferredStays(g: Graph, outgoing: seq<SequenceFlow>)
    requires outgoing != [] && Preferred(outgoing, NoCondition()).value.targetRef in g.nodes
    ensures Preferred(All(outgoing, TargetIn(g)), NoCondition()) == Preferred(outgoing, NoCondition())
  {
    var existing := All(outgoing, TargetIn(g));
    var free := All(outgoing, NoCondition());
    var both := (f: SequenceFlow) => f.targetRef in g.nodes && f.condition.None?;
    SelectTwice(outgoing, |outgoing|, TargetIn(g), NoCondition(), both);
    SelectTwice(outgoing, |outgoing|, NoCondition(), TargetIn(g), both);
    assert All(existing, NoCondition()) == All(free, TargetIn(g));
    if free != [] {
      FirstStays(free, |free|, TargetIn(g));
    } else {
      FirstStays(outgoing, |outgoing|, TargetIn(g));
    }
  }

  /** Nodes are filed under their ids and edges follow the flows. */
  ghost predicate Consistent(g: Graph) {
    && (forall k | k in g.nodes :: g.nodes[k].id == k)
    && (forall s :: Lookup(g.edges, s) == Targets(g.nodes, g.flows, |g.flows|, s))
  }

  lemma RepresentsConsistent(g: Graph, p: Process)
    requires Represents(g, p)
    ensures Consistent(g) && g.flows == p.flows
  {
    assert p.flows[..|p.flows|] == p.flows;
    assert g.nodes == NodeMap(p.elements, |p.elements|);
    NodeMapFacts(p.elements, |p.elements|);
  }

  /** The graph's preferred flow out of an exclusive gateway against the executor's. */
  lemma ExclusiveChoices(g: Graph, e: FlowElement)
    requires e.kind.ExclusiveGateway? && forall f | f in g.flows :: Parsed(f)
    ensures var mine, choice := GatewayChoice(g, e), Preferred(All(g.flows, Existing(g, e.id)), NoCondition());
            && (mine.None? ==> choice.None?)
            && (mine.Some? && mine.value.targetRef in g.nodes ==> choice == mine)
  {
    hide Parsed;
    var outgoing := All(g.flows, From(e.id));
    ExistingFlows(g, e.id);
    ParsedConditions(g.flows, outgoing, e.id);
    if outgoing != [] && GatewayChoice(g, e).value.targetRef in g.nodes {
      PreferredStays(g, outgoing);
    }
  }

  lemma ExclusiveAgrees(g: Graph, e: FlowElement)
    requires Consistent(g) && (forall f | f in g.flows :: Parsed(f))
    requires e.kind.ExclusiveGateway? && e.id in g.nodes && g.nodes[e.id] == e
    ensures Agree(g, e) <==> GatewayChoice(g, e).None? || GatewayChoice(g, e).value.targetRef in g.nodes
    ensures NextNodes(g, e.id).Some? && |NextNodes(g, e.id).value| <= 1
  {
    hide Preferred; hide Select; hide Targets; hide GatewayChoice; hide Parsed;
    ExclusiveChoices(g, e);
  }

  /** The graph's next nodes out of a gateway, against the executor's first flow. */
  lemma FirstTarget(g: Graph, id: string)
    requires forall k | k in g.nodes :: g.nodes[k].id == k
    ensures var outgoing, targets := All(g.flows, From(id)), Targets(g.nodes, g.flows, |g.flows|, id);
            && (outgoing == [] ==> targets == [])
            && (outgoing != [] && outgoing[0].targetRef in g.nodes ==>
                  targets != [] && targets[0] == g.nodes[outgoing[0].targetRef])
            && (targets != [] ==> targets[0].id in g.nodes)
  {
    var outgoing := All(g.flows, From(id));
    ExistingFlows(g, id);
    TargetsAreFlowTargets(g, |g.flows|, id);
    if outgoing != [] && outgoing[0].targetRef in g.nodes {
      FirstStays(outgoing, |outgoing|, TargetIn(g));
    }
  }

  lemma OthersAgree(g: Graph, e: FlowElement)
    requires Consistent(g)
    requires (e.kind.InclusiveGateway? || e.kind.ParallelGateway?) && e.id in g.nodes && g.nodes[e.id] == e
    ensures Agree(g, e) <==> GatewayChoice(g, e).None? || GatewayChoice(g, e).value.targetRef in g.nodes
  {
    hide Select; hide Targets; hide Preferred;
    FirstTarget(g, e.id);
    assert NextNodes(g, e.id) == Some(Targets(g.nodes, g.flows, |g.flows|, e.id));
  }

  /** On a parsed process the two evaluators agree exactly when the executor's flow leads to an existing
      node, or there is no flow at all. An exclusive gateway has at most one next node. */
  lemma GatewaysAgreeIff(g: Graph, p: Process, e: FlowElement)
    requires Represents(g, p) && (forall f | f in p.flows :: Parsed(f))
    requires Gateway(e) && e.id in g.nodes && g.nodes[e.id] == e
    ensures Agree(g, e) <==> GatewayChoice(g, e).None? || GatewayChoice(g, e).value.targetRef in g.nodes
    ensures e.kind.ExclusiveGateway? ==> NextNodes(g, e.id).Some? && |NextNodes(g, e.id).value| <= 1
  {
    RepresentsConsistent(g, p);
    if e.kind.ExclusiveGateway? {
      ExclusiveAgrees(g, e);
    } else {
      OthersAgree(g, e);
    }
  }

  lemma ParsedConditions(flows: seq<SequenceFlow>, outgoing: seq<SequenceFlow>, id: string)
    requires outgoing == All(flows, From(id)) && forall f | f in flows :: Parsed(f)
    ensures Preferred(outgoing, Unconditional()) == Preferred(outgoing, NoCondition())
  {
    SelectMembers(flows, |flows|, From(id));
    forall i | 0 <= i < |outgoing| ensures Unconditional()(outgoing[i]) == NoCondition()(outgoing[i]) {
      assert outgoing[i] in outgoing;
      var j :| 0 <= j < |flows| && flows[j] == outgoing[i];
      assert Parsed(flows[j]);
    }
    SelectSame(outgoing, |outgoing|, Unconditional(), NoCondition());
  }

  /** In particular they agree whenever every flow target exists. */
  lemma GatewaysAgree(g: Graph, p: Process, e: FlowElement)
    requires Represents(g, p) && (forall f | f in p.flows :: Parsed(f) && f.targetRef in g.nodes)
    requires Gateway(e) && e.id in g.nodes && g.nodes[e.id] == e
    ensures Agree(g, e)
  {
    GatewaysAgreeIff(g, p, e);
    ChoiceIsAFlow(g, e);
    assert p.flows[..|p.flows|] == p.flows;
  }

  lemma ChoiceIsAFlow(g: Graph, e: FlowElement)
    ensures GatewayChoice(g, e).Some? ==> GatewayChoice(g, e).value in g.flows
  {
    var outgoing := All(g.flows, From(e.id));
    SelectMembers(g.flows, |g.flows|, From(e.id));
    SelectMembers(outgoing, |outgoing|, Unconditional());
    hide Select;
    if GatewayChoice(g, e).Some? {
      var f := GatewayChoice(g, e).value;
      var free := All(outgoing, Unconditional());
      assert free != [] ==> free[0] in free;
      assert f in outgoing;
    }
  }
}

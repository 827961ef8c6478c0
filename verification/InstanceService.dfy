/** The interpreter loop: how far one instance runs, when it stops, and what it stores when it does. */
module InstanceService {
  import opened Common
  import opened Variables
  import opened Bpmn
  import opened BpmnGraph
  import opened BpmnValidator
  import opened Executor

  /** Why an instance stopped: a missing node or a failed execution, a wait, or the end of the process. */
  datatype Stop = ErrorStop | WaitingStop(nodeId: string, why: AwaitType) | CompletedStop(variables: Vars)

  datatype Cursor = At(nodeId: string, variables: Vars) | Stopped(stop: Stop)

  /** One round of the loop; call numbers the rounds, so that every publish attempt has its own answer. */
  function Round(env: Environment, g: Graph, call: nat, c: Cursor): Cursor {
    if c.Stopped? then c
    else if c.nodeId !in g.nodes then Stopped(ErrorStop)
    else
      match ExecuteNode(env, call, g, g.nodes[c.nodeId], c.variables)
      case Failure => Stopped(ErrorStop)
      case Success(r) =>
        if r.awaits != NoAwait then Stopped(WaitingStop(c.nodeId, r.awaits))
        else if r.nextNodeId == "" then Stopped(CompletedStop(r.variables))
        else At(r.nextNodeId, r.variables)
  }

  /** Where the instance is after n rounds. */
  function After(env: Environment, g: Graph, start: string, variables: Vars, n: nat): Cursor {
    if n == 0 then At(start, variables) else Round(env, g, n - 1, After(env, g, start, variables, n - 1))
  }

  // ---------- one round, kind by kind ----------

  predicate PublishRefused(env: Environment, call: nat, e: FlowElement) {
    e.kind.SendTask? && env.hasPublisher && e.kind.messageRef != "" && !env.publishes(call, 1)
  }

  predicate Unimplemented(k: Kind) {
    k.ServiceTask? && k.class_ == "" && k.expression == "" && k.delegateExpression == "" && k.topic == ""
  }

  /** A class comes before an expression, an expression before a delegate, a delegate before a topic. */
  predicate HasClass(k: Kind) { k.ServiceTask? && k.class_ != "" }

  predicate HasExpression(k: Kind) { k.ServiceTask? && k.class_ == "" && k.expression != "" }

  predicate HasDelegate(k: Kind) { k.ServiceTask? && k.class_ == "" && k.expression == "" && k.delegateExpression != "" }

  predicate HasTopic(k: Kind) {
    k.ServiceTask? && k.class_ == "" && k.expression == "" && k.delegateExpression == "" && k.topic != ""
  }

  /** The expression reads ${service.action}, the registry offers that, and one of three attempts is published. */
  predicate DelegateAccepted(env: Environment, call: nat, expression: string) {
    match Expression.ParseDelegate(expression)
    case None => false
    case Some((service, action)) =>
      && env.hasRegistry && env.offers(call, service, action)
      && env.hasPublisher && (env.publishes(call, 1) || env.publishes(call, 2) || env.publishes(call, 3))
  }

  predicate TopicAccepted(env: Environment, call: nat) { env.hasPublisher && env.publishes(call, 1) }

  /** The node hands on this id: its first outgoing id as it stands, or the target of the flow it chooses.
      A send task without outgoing ids hands on the empty one. */
  predicate HandsOn(env: Environment, g: Graph, call: nat, e: FlowElement, to: string) {
    || ((e.kind.StartEvent? || e.kind.BoundaryEvent?) && e.outgoing != [] && e.outgoing[0] == to)
    || (e.kind.SendTask? && !PublishRefused(env, call, e) && to == if e.outgoing == [] then "" else e.outgoing[0])
    || ((e.kind.ExclusiveGateway? || e.kind.InclusiveGateway? || e.kind.ParallelGateway?) &&
        GatewayChoice(g, e).Some? && GatewayChoice(g, e).value.targetRef == to)
  }

  /** Exactly when an instance waits, and for what. */
  lemma RoundWaitsIff(env: Environment, g: Graph, call: nat, id: string, v: Vars, at: string, why: AwaitType)
    requires id in g.nodes
    ensures var k := g.nodes[id].kind;
            Round(env, g, call, At(id, v)) == Stopped(WaitingStop(at, why)) <==>
              at == id &&
              ((k.UserTask? && why == UserTaskDone) ||
               (k.ReceiveTask? && why == Message) ||
               (k.IntermediateCatchEvent? && why == Event) ||
               (HasTopic(k) && TopicAccepted(env, call) && why == ExternalTask) ||
               (HasDelegate(k) && DelegateAccepted(env, call, k.delegateExpression) && why == ExternalService))
  {
    hide Expression.Evaluate; hide Expression.ParseDelegate; hide GatewayChoice;
  }

  /** Exactly when an instance completes, and with which variables. */
  lemma RoundCompletesIff(env: Environment, g: Graph, call: nat, id: string, v: Vars, w: Vars)
    requires id in g.nodes
    ensures var k := g.nodes[id].kind;
            Round(env, g, call, At(id, v)) == Stopped(CompletedStop(w)) <==>
              (w == v && (k.EndEvent? || k.IntermediateThrowEvent? || k.ScriptTask? || k.ManualTask? ||
                          HasClass(k) || Unimplemented(k) || HandsOn(env, g, call, g.nodes[id], ""))) ||
              (HasExpression(k) && Expression.Evaluate(env.runtime, v, k.expression).Ok? &&
               w == v["_lastExpressionResult" := Bool(true)])
  {
    hide Expression.Evaluate; hide Expression.ParseDelegate; hide GatewayChoice;
  }

  /** Exactly when an instance goes on, and to which id: always with the variables it has. */
  lemma RoundGoesOnIff(env: Environment, g: Graph, call: nat, id: string, v: Vars, to: string, w: Vars)
    requires id in g.nodes
    ensures Round(env, g, call, At(id, v)) == At(to, w) <==>
              w == v && to != "" && HandsOn(env, g, call, g.nodes[id], to)
  {
    hide Expression.Evaluate; hide Expression.ParseDelegate; hide GatewayChoice;
  }

  /** Exactly when an instance stops in error. */
  lemma RoundFailsIff(env: Environment, g: Graph, call: nat, id: string, v: Vars)
    ensures Round(env, g, call, At(id, v)) == Stopped(ErrorStop) <==>
              || id !in g.nodes
              || (var e := g.nodes[id];
                  var k := e.kind;
                  || k.ComplexGateway? || k.EventBasedGateway? || k.SubProcess? || k.AdHocSubProcess? || k.Transaction?
                  || ((k.StartEvent? || k.BoundaryEvent?) && e.outgoing == [])
                  || PublishRefused(env, call, e)
                  || ((k.ExclusiveGateway? || k.InclusiveGateway? || k.ParallelGateway?) &&
                      forall f | f in g.flows :: f.sourceRef != e.id)
                  || (HasExpression(k) && Expression.Evaluate(env.runtime, v, k.expression).Err?)
                  || (HasDelegate(k) && !DelegateAccepted(env, call, k.delegateExpression))
                  || (HasTopic(k) && !TopicAccepted(env, call)))
  {
    hide ExecuteNode; hide HasExpression; hide HasDelegate; hide HasTopic; hide TopicAccepted; hide DelegateAccepted;
    if id in g.nodes {
      var e := g.nodes[id];
      RoundFailsWithNode(env, g, call, id, v);
      var at := GatewayChoiceAt(g, e);
      if e.kind.ServiceTask? {
        ServiceTaskFailsIff(env, call, e.kind, v);
        ServiceTaskNode(env, call, g, e, v);
      } else {
        NoServiceTask(e.kind);
        OtherNodeFailsIff(env, call, g, e, v);
      }
    }
  }

  lemma RoundFailsWithNode(env: Environment, g: Graph, call: nat, id: string, v: Vars)
    requires id in g.nodes
    ensures Round(env, g, call, At(id, v)) == Stopped(ErrorStop) <==>
              ExecuteNode(env, call, g, g.nodes[id], v) == Failure
  {
    hide ExecuteNode;
  }

  lemma ServiceTaskNode(env: Environment, call: nat, g: Graph, e: FlowElement, v: Vars)
    requires e.kind.ServiceTask?
    ensures ExecuteNode(env, call, g, e, v) == ExecuteServiceTask(env, call, e.kind, v)
  {
    hide ExecuteServiceTask;
  }

  lemma OtherNodeFailsIff(env: Environment, call: nat, g: Graph, e: FlowElement, v: Vars)
    requires !e.kind.ServiceTask?
    ensures var k := e.kind;
            ExecuteNode(env, call, g, e, v) == Failure <==>
              || k.ComplexGateway? || k.EventBasedGateway? || k.SubProcess? || k.AdHocSubProcess? || k.Transaction?
              || ((k.StartEvent? || k.BoundaryEvent?) && e.outgoing == [])
              || PublishRefused(env, call, e)
              || ((k.ExclusiveGateway? || k.InclusiveGateway? || k.ParallelGateway?) && GatewayChoice(g, e).None?)
  {
    hide GatewayChoice;
  }

  lemma ServiceTaskFailsIff(env: Environment, call: nat, k: Kind, v: Vars)
    requires k.ServiceTask?
    ensures ExecuteServiceTask(env, call, k, v) == Failure <==>
              || (HasExpression(k) && Expression.Evaluate(env.runtime, v, k.expression).Err?)
              || (HasDelegate(k) && !DelegateAccepted(env, call, k.delegateExpression))
              || (HasTopic(k) && !TopicAccepted(env, call))
  {
    hide Expression.Evaluate; hide Expression.ParseDelegate;
  }

  lemma NoServiceTask(k: Kind)
    requires !k.ServiceTask?
    ensures !HasExpression(k) && !HasDelegate(k) && !HasTopic(k)
  {}

  // ---------- the path ----------

  /** The node an instance visits in round n does not depend on variables, only on graph and start. */
  function Path(g: Graph, start: string, n: nat): string {
    if n == 0 then start
    else
      var before := Path(g, start, n - 1);
      if before in g.nodes then Successor(g, g.nodes[before]) else ""
  }

  lemma {:induction false} RunFollowsPath(env: Environment, g: Graph, start: string, variables: Vars, n: nat)
    requires After(env, g, start, variables, n).At?
    ensures After(env, g, start, variables, n).nodeId == Path(g, start, n)
    ensures forall m: nat | m < n :: After(env, g, start, variables, m).At? && Path(g, start, m) in g.nodes
  {
    hide ExecuteNode; hide Successor;
    if n > 0 {
      var before := After(env, g, start, variables, n - 1);
      RunFollowsPath(env, g, start, variables, n - 1);
      NextNodeIgnoresVariables(env, n - 1, g, g.nodes[before.nodeId], before.variables);
    }
  }

  /** Two instances of one process that are both still running are at the same node, whatever their
      variables and whatever their surroundings answered. */
  lemma VariablesDoNotSteer(env: Environment, env': Environment, g: Graph, start: string, vars: Vars, vars': Vars, n: nat)
    requires After(env, g, start, vars, n).At? && After(env', g, start, vars', n).At?
    ensures After(env, g, start, vars, n).nodeId == After(env', g, start, vars', n).nodeId
  {
    RunFollowsPath(env, g, start, vars, n);
    RunFollowsPath(env', g, start, vars', n);
  }

  // ---------- termination ----------

  /** More positions than values: two positions share a value. */
  lemma {:induction false} Pigeonhole(path: nat -> string, n: nat, values: set<string>) returns (i: nat, j: nat)
    requires |values| < n && forall m: nat | m < n :: path(m) in values
    ensures i < j < n && path(i) == path(j)
    decreases n
  {
    if k: nat :| k < n - 1 && path(k) == path(n - 1) {
      i, j := k, n - 1;
    } else {
      var fewer := values - {path(n - 1)};
      assert |fewer| == |values| - 1;
      i, j := Pigeonhole(path, n - 1, fewer);
    }
  }

  /** Either an instance stops within one round more than there are nodes, or it comes to a node twice. */
  lemma StopsOrRevisits(env: Environment, g: Graph, start: string, variables: Vars) returns (i: nat, j: nat)
    ensures After(env, g, start, variables, |g.nodes| + 1).Stopped? ||
            (i < j <= |g.nodes| && Path(g, start, i) == Path(g, start, j) && Path(g, start, i) in g.nodes)
  {
    var n := |g.nodes| + 1;
    i, j := 0, 0;
    if After(env, g, start, variables, n).At? {
      RunFollowsPath(env, g, start, variables, n);
      assert |g.nodes.Keys| == |g.nodes|;
      i, j := Pigeonhole((k: nat) => Path(g, start, k), n, g.nodes.Keys);
    }
  }

  /** Publishing never fails. */
  ghost predicate Reliable(env: Environment) { forall call, attempt :: env.publishes(call, attempt) }

  /** A path that came back to a node stays on that cycle. */
  lemma {:induction false} PathCycles(g: Graph, start: string, i: nat, j: nat, n: nat) returns (m: nat)
    requires i < j && Path(g, start, i) == Path(g, start, j) && i <= n
    ensures i <= m < j && Path(g, start, m) == Path(g, start, n)
  {
    if n < j {
      m := n;
    } else {
      m := PathCycles(g, start, i, j, n - 1);
      assert Path(g, start, m + 1) == Path(g, start, n);
      m := if m + 1 == j then i else m + 1;
    }
  }

  /** With reliable publishing, an instance that outlives its number of nodes runs forever. */
  lemma {:induction false} OutlivesForever(env: Environment, g: Graph, start: string, variables: Vars, n: nat)
    requires Reliable(env) && After(env, g, start, variables, |g.nodes| + 1).At?
    ensures After(env, g, start, variables, n).At?
  {
    hide Path; hide Round; hide Successor;
    if n <= |g.nodes| + 1 {
      hide After;
      if After(env, g, start, variables, n).Stopped? {
        StaysStopped(env, g, start, variables, n, |g.nodes| + 1);
      }
    } else {
      OutlivesForever(env, g, start, variables, n - 1);
      RunFollowsPath(env, g, start, variables, n - 1);
      var here := After(env, g, start, variables, n - 1);
      assert After(env, g, start, variables, n) == Round(env, g, n - 1, here);
      hide After;
      var i, j := StopsOrRevisits(env, g, start, variables);
      var m := PathCycles(g, start, i, j, n - 1);
      SuccessorOnPath(env, g, start, variables, m);
      RoundGoesOn(env, g, n - 1, here);
    }
  }

  lemma RoundGoesOn(env: Environment, g: Graph, call: nat, c: Cursor)
    requires Reliable(env) && c.At? && c.nodeId in g.nodes && Successor(g, g.nodes[c.nodeId]) != ""
    ensures Round(env, g, call, c).At?
  {
    hide ExecuteNode; hide Successor;
    assert env.publishes(call, 1);
    NodeWithSuccessorGoesOn(env, call, g, g.nodes[c.nodeId], c.variables);
  }

  /** Where the run still runs one round later, the node has a successor. */
  lemma SuccessorOnPath(env: Environment, g: Graph, start: string, variables: Vars, m: nat)
    requires m <= |g.nodes| && After(env, g, start, variables, |g.nodes| + 1).At?
    ensures Path(g, start, m) in g.nodes && Successor(g, g.nodes[Path(g, start, m)]) != ""
  {
    RunFollowsPath(env, g, start, variables, |g.nodes| + 1);
    var next := After(env, g, start, variables, m + 1);
    assert m < |g.nodes| ==> next.At?;
    RunFollowsPath(env, g, start, variables, m + 1);
    var before := After(env, g, start, variables, m);
    RunFollowsPath(env, g, start, variables, m);
    NextNodeIgnoresVariables(env, m, g, g.nodes[before.nodeId], before.variables);
  }

  lemma {:induction false} StaysStopped(env: Environment, g: Graph, start: string, variables: Vars, m: nat, n: nat)
    requires m <= n && After(env, g, start, variables, m).Stopped?
    ensures After(env, g, start, variables, n) == After(env, g, start, variables, m)
  {
    if m < n {
      StaysStopped(env, g, start, variables, m, n - 1);
    }
  }

  /** The termination question, decided: with reliable publishing an instance stops at all exactly when it
      has stopped one round after it could have visited every node. */
  lemma StopsIffStopsEarly(env: Environment, g: Graph, start: string, variables: Vars)
    requires Reliable(env)
    ensures (exists n: nat :: After(env, g, start, variables, n).Stopped?)
       <==> After(env, g, start, variables, |g.nodes| + 1).Stopped?
  {
    if After(env, g, start, variables, |g.nodes| + 1).At? {
      forall n: nat ensures After(env, g, start, variables, n).At? {
        OutlivesForever(env, g, start, variables, n);
      }
    }
  }

  /** The successor relation has no cycle: some rank falls along it. */
  ghost predicate Acyclic(g: Graph, rank: string -> nat) {
    forall k | k in g.nodes && Successor(g, g.nodes[k]) in g.nodes :: rank(Successor(g, g.nodes[k])) < rank(k)
  }

  /** Without a cycle every instance stops, reliable publishing or not. */
  lemma AcyclicStops(env: Environment, g: Graph, start: string, variables: Vars, rank: string -> nat)
    requires Acyclic(g, rank)
    ensures After(env, g, start, variables, |g.nodes| + 1).Stopped?
  {
    if After(env, g, start, variables, |g.nodes| + 1).At? {
      RunFollowsPath(env, g, start, variables, |g.nodes| + 1);
      var i, j := StopsOrRevisits(env, g, start, variables);
      RankFalls(g, start, rank, i, j);
    }
  }

  lemma {:induction false} RankFalls(g: Graph, start: string, rank: string -> nat, i: nat, j: nat)
    requires Acyclic(g, rank) && i < j && forall m: nat | m <= j :: Path(g, start, m) in g.nodes
    ensures rank(Path(g, start, j)) < rank(Path(g, start, i))
    decreases j
  {
    hide Successor;
    var before := Path(g, start, j - 1);
    assert before in g.nodes && Path(g, start, j) == Successor(g, g.nodes[before]);
    if i < j - 1 {
      RankFalls(g, start, rank, i, j - 1);
    }
  }

  // ---------- raw outgoing ids ----------

  /** The cursor stands on an id that names no node. */
  predicate Lost(g: Graph, c: Cursor) { c.At? && c.nodeId !in g.nodes }

  /** The nodes that hand on their first outgoing id as it stands, as if it named a node. */
  predicate HandsOnRawId(e: FlowElement) { e.kind.StartEvent? || e.kind.SendTask? || e.kind.BoundaryEvent? }

  /** In any round, an instance at such a node is lost in the next exactly when the raw id is neither empty
      nor a node's (and a send task could publish). */
  lemma RawIdLoses(env: Environment, g: Graph, start: string, variables: Vars, n: nat)
    requires var c := After(env, g, start, variables, n); c.At? && c.nodeId in g.nodes && HandsOnRawId(g.nodes[c.nodeId])
    ensures var e := g.nodes[After(env, g, start, variables, n).nodeId];
            Lost(g, After(env, g, start, variables, n + 1)) <==>
              FirstOf(e.outgoing) != "" && FirstOf(e.outgoing) !in g.nodes && !PublishRefused(env, n, e)
  {
    var here := After(env, g, start, variables, n);
    assert After(env, g, start, variables, n + 1) == Round(env, g, n, here);
  }

  /** A lost instance is in the error status from the next round on. */
  lemma LostEndsInError(env: Environment, g: Graph, start: string, variables: Vars, m: nat, n: nat)
    requires m < n && Lost(g, After(env, g, start, variables, m))
    ensures After(env, g, start, variables, n) == Stopped(ErrorStop)
  {
    assert After(env, g, start, variables, m + 1) == Round(env, g, m, After(env, g, start, variables, m));
    StaysStopped(env, g, start, variables, m + 1, n);
  }

  /** At the start event: the instance is lost exactly when the raw id is neither empty nor a node's, and
      completes at once exactly when it is empty. */
  lemma StartNeedsNodeId(env: Environment, g: Graph, e: FlowElement, variables: Vars, n: nat)
    requires e.kind.StartEvent? && e.id in g.nodes && g.nodes[e.id] == e && e.outgoing != []
    ensures Lost(g, After(env, g, e.id, variables, 1)) <==> e.outgoing[0] != "" && e.outgoing[0] !in g.nodes
    ensures Lost(g, After(env, g, e.id, variables, 1)) && n >= 2 ==>
              After(env, g, e.id, variables, n) == Stopped(ErrorStop)
    ensures After(env, g, e.id, variables, 1) == Stopped(CompletedStop(variables)) <==> e.outgoing[0] == ""
  {
    assert After(env, g, e.id, variables, 0) == At(e.id, variables);
    RawIdLoses(env, g, e.id, variables, 0);
    assert After(env, g, e.id, variables, 1) == Round(env, g, 0, At(e.id, variables));
    if Lost(g, After(env, g, e.id, variables, 1)) && n >= 2 {
      LostEndsInError(env, g, e.id, variables, 1, n);
    }
  }

  /** In a sound process no start event, boundary event or send task with an accepted message fails; what it
      hands on is its first outgoing id, which need not be a node's. */
  lemma SoundNodesHandOn(env: Environment, g: Graph, p: Process, call: nat, id: string, v: Vars)
    requires Sound(p) && Represents(g, p) && id in g.nodes
    requires var e := g.nodes[id];
             e.kind.StartEvent? || e.kind.BoundaryEvent? || (e.kind.SendTask? && !PublishRefused(env, call, e))
    ensures g.nodes[id].outgoing != []
    ensures g.nodes[id].outgoing[0] != "" ==> Round(env, g, call, At(id, v)) == At(g.nodes[id].outgoing[0], v)
  {
    NodeMapFacts(p.elements, |p.elements|);
    assert g.nodes == NodeMap(p.elements, |p.elements|);
    var e := g.nodes[id];
    SoundElement(p, e);
    if e.outgoing[0] != "" {
      RoundGoesOnIff(env, g, call, id, v, e.outgoing[0], v);
    }
  }

  /** An instance started at the graph's start node is in the error status from its second round on. */
  ghost predicate FailsAfterStart(env: Environment, g: Graph, variables: Vars) {
    g.startEvents != [] &&
    forall n: nat | n >= 2 :: After(env, g, g.startEvents[0].id, variables, n) == Stopped(ErrorStop)
  }

  /** A process as BPMN writes it, listing flow ids as outgoing: the validator reports no error, yet in its
      graph every instance that is started ends in the error status, because no node is named like the flow. */
  lemma SoundProcessCannotRun() returns (p: Process)
    ensures Sound(p)
    ensures forall g, env, variables | Represents(g, p) :: FailsAfterStart(env, g, variables)
  {
    var start := FlowElement("s", "", [], ["f"], StartEvent);
    var end := FlowElement("e", "", ["f"], [], EndEvent);
    p := Process("p", "", "true", [start, end], [SequenceFlow("f", "", "s", "e", None)]);
    TwoElementsSound(p, start, end);
    hide Sound; hide Represents; hide After;
    forall g, env, variables | Represents(g, p) ensures FailsAfterStart(env, g, variables) {
      TwoElementGraph(g, p, start, end);
      forall n: nat | n >= 2 ensures After(env, g, start.id, variables, n) == Stopped(ErrorStop) {
        StartNeedsNodeId(env, g, start, variables, n);
      }
    }
  }

  lemma TwoElementsSound(p: Process, start: FlowElement, end: FlowElement)
    requires p.id != "" && p.elements == [start, end] && |p.flows| == 1
    requires start.kind.StartEvent? && end.kind.EndEvent? && Named(start) && Named(end) && start.id != end.id
    requires start.outgoing != [] && end.incoming != []
    requires p.flows[0].id != "" && p.flows[0].sourceRef == start.id && p.flows[0].targetRef == end.id
    ensures Sound(p)
  {
    assert start in p.elements && end in p.elements;
  }

  /** The graph of a start event followed by an end event. */
  lemma TwoElementGraph(g: Graph, p: Process, start: FlowElement, end: FlowElement)
    requires Represents(g, p) && p.elements == [start, end]
    requires start.kind.StartEvent? && end.kind.EndEvent? && Named(start) && Named(end)
    ensures g.nodes == map[start.id := start][end.id := end] && g.startEvents == [start]
  {
    assert NodeMap(p.elements, 0) == map[];
    assert NodeMap(p.elements, 1) == map[start.id := start];
    assert g.nodes == NodeMap(p.elements, 2);
    assert OfType(TyStartEvent)(start) && !OfType(TyStartEvent)(end);
    assert Select(p.elements, 0, OfType(TyStartEvent)) == [];
    assert Select(p.elements, 1, OfType(TyStartEvent)) == [start];
    assert g.startEvents == Select(p.elements, 2, OfType(TyStartEvent)) == [start];
  }

  // ---------- the stored rows ----------

  datatype InstanceStatus = Running | Waiting | ErrorStatus | Completed

  datatype Instance = Instance(status: InstanceStatus, variables: Vars, startedAt: Option<int>, completedAt: Option<int>)

  /** A write the database accepted, with the instance it was handed. */
  datatype RowWrite = Create(id: string, i: Instance) | Update(id: string, i: Instance)

  /** The statements store status and variables; neither mentions the start or the completion time. */
  function Applied(rows: map<string, Instance>, w: RowWrite): map<string, Instance> {
    match w
    case Create(id, i) => if id in rows then rows else rows[id := Instance(i.status, i.variables, None, None)]
    case Update(id, i) =>
      if id in rows then rows[id := rows[id].(status := i.status, variables := i.variables)] else rows
  }

  function Rows(writes: seq<RowWrite>): map<string, Instance> {
    if writes == [] then map[] else Applied(Rows(writes[..|writes| - 1]), writes[|writes| - 1])
  }

  /** The instance handed to the latest write of a row: the creation, or an update after it. */
  function LatestWrite(writes: seq<RowWrite>, id: string): Option<Instance> {
    if writes == [] then None
    else
      var before, w := LatestWrite(writes[..|writes| - 1], id), writes[|writes| - 1];
      if w.id == id && (w.Update? <==> before.Some?) then Some(w.i) else before
  }

  /** Over every history of writes: a stored row has the status and the variables of its latest write, and
      it never has a start or a completion time, whatever times the written instances carried. */
  lemma {:induction false} RowsHaveNoTimes(writes: seq<RowWrite>, id: string)
    ensures id in Rows(writes) <==> LatestWrite(writes, id).Some?
    ensures id in Rows(writes) ==>
              var latest := LatestWrite(writes, id).value;
              Rows(writes)[id] == Instance(latest.status, latest.variables, None, None)
  {
    if writes != [] {
      RowsHaveNoTimes(writes[..|writes| - 1], id);
    }
  }

  // ---------- the loop, and what it stores ----------

  function StatusOf(stop: Stop): InstanceStatus {
    match stop
    case ErrorStop => ErrorStatus
    case WaitingStop(_, _) => Waiting
    case CompletedStop(_) => Completed
  }

  /** The stored instance after a stop: only completion stores the variables the run computed, and it
      does not store its time. */
  function Settled(i: Instance, stop: Stop): Instance {
    match stop
    case CompletedStop(variables) => i.(status := Completed, variables := variables)
    case _ => i.(status := StatusOf(stop))
  }

  class Service {
    var instances: map<string, Instance>
    var lookups: nat
    var writes: nat
    const finds: nat -> bool
    const accepts: nat -> bool
    /** The accepted writes. */
    ghost var log: seq<RowWrite>

    ghost predicate Valid()
      reads this
    {
      instances == Rows(log)
    }

    constructor (finds: nat -> bool, accepts: nat -> bool)
      ensures Valid() && instances == map[] && lookups == 0 && writes == 0
      ensures this.finds == finds && this.accepts == accepts
    {
      instances, lookups, writes, log := map[], 0, 0, [];
      this.finds, this.accepts := finds, accepts;
    }

    /** The row exists, and reading it and writing it back would both succeed. */
    predicate Changeable(id: string)
      reads this
    {
      id in instances && finds(lookups) && accepts(writes)
    }

    method CreateInstance(id: string, instance: Instance) returns (ok: bool)
      requires Valid()
      modifies this`instances, this`writes, this`log
      ensures Valid() && ok == (old(accepts(writes)) && id !in old(instances))
      ensures instances == if ok then old(instances)[id := Instance(instance.status, instance.variables, None, None)]
                           else old(instances)
    {
      ok := accepts(writes) && id !in instances;
      if ok {
        instances := instances[id := Instance(instance.status, instance.variables, None, None)];
        log := log + [Create(id, instance)];
      }
      writes := writes + 1;
    }

    method GetInstanceById(id: string) returns (instance: Option<Instance>)
      modifies this`lookups
      ensures lookups == old(lookups) + 1
      ensures instance == if id in instances && old(finds(lookups)) then Some(instances[id]) else None
    {
      instance := if id in instances && finds(lookups) then Some(instances[id]) else None;
      lookups := lookups + 1;
    }

    /** The stored row changes only when it exists and the write is accepted, and then in two columns only. */
    method UpdateInstance(id: string, instance: Instance)
      requires Valid()
      modifies this`instances, this`writes, this`log
      ensures Valid() && writes == old(writes) + 1
      ensures instances ==
              if id in old(instances) && old(accepts(writes))
              then old(instances)[id := old(instances)[id].(status := instance.status, variables := instance.variables)]
              else old(instances)
    {
      if id in instances && accepts(writes) {
        instances := instances[id := instances[id].(status := instance.status, variables := instance.variables)];
        log := log + [Update(id, instance)];
      }
      writes := writes + 1;
    }

    method UpdateInstanceStatus(id: string, status: InstanceStatus)
      requires Valid()
      modifies this
      ensures Valid()
      ensures instances == if old(Changeable(id))
                           then old(instances)[id := old(instances)[id].(status := status)] else old(instances)
    {
      var instance := GetInstanceById(id);
      if instance.None? {
        return;
      }
      UpdateInstance(id, instance.value.(status := status));
    }

    /** The completion time is set on the instance that was read, and goes no further. */
    method CompleteInstance(id: string, variables: Vars, now: int)
      requires Valid()
      modifies this
      ensures Valid()
      ensures instances == if old(Changeable(id))
                           then old(instances)[id := old(instances)[id].(status := Completed, variables := variables)]
                           else old(instances)
    {
      var instance := GetInstanceById(id);
      if instance.None? {
        return;
      }
      UpdateInstance(id, instance.value.(status := Completed, completedAt := Some(now), variables := variables));
    }

    /** The loop of an instance, followed for at most limit rounds. On a stop the row gets exactly one of
        the three statuses; while the instance runs, nothing is stored. */
    method ExecuteInstance(env: Environment, id: string, g: Graph, start: string, variables: Vars, now: int, limit: nat)
      returns (cursor: Cursor)
      requires Valid()
      modifies this
      ensures Valid()
      ensures cursor == After(env, g, start, variables, limit)
      ensures instances ==
              if cursor.Stopped? && old(Changeable(id))
              then old(instances)[id := Settled(old(instances)[id], cursor.stop)] else old(instances)
      ensures cursor.Stopped? && old(Changeable(id)) ==>
                match cursor.stop
                case ErrorStop => instances[id].status == ErrorStatus && instances[id].variables == old(instances)[id].variables
                case WaitingStop(_, _) => instances[id].status == Waiting && instances[id].variables == old(instances)[id].variables
                case CompletedStop(vars) => instances[id].status == Completed && instances[id].variables == vars
      ensures id in instances ==> instances[id].startedAt.None? && instances[id].completedAt.None?
    {
      RowsHaveNoTimes(log, id);
      var nodeId, vars := start, variables;
      for n := 0 to limit
        invariant After(env, g, start, variables, n) == At(nodeId, vars)
        invariant instances == old(instances) && lookups == old(lookups) && writes == old(writes)
        invariant Valid()
      {
        ghost var next := After(env, g, start, variables, n + 1);
        if nodeId !in g.nodes {
          StaysStopped(env, g, start, variables, n + 1, limit);
          UpdateInstanceStatus(id, ErrorStatus);
          return Stopped(ErrorStop);
        }
        match ExecuteNode(env, n, g, g.nodes[nodeId], vars)
        case Failure =>
          StaysStopped(env, g, start, variables, n + 1, limit);
          UpdateInstanceStatus(id, ErrorStatus);
          return Stopped(ErrorStop);
        case Success(result) =>
          vars := result.variables;
          if result.awaits != NoAwait {
            StaysStopped(env, g, start, variables, n + 1, limit);
            UpdateInstanceStatus(id, Waiting);
            return Stopped(WaitingStop(nodeId, result.awaits));
          }
          if result.nextNodeId == "" {
            StaysStopped(env, g, start, variables, n + 1, limit);
            CompleteInstance(id, vars, now);
            return Stopped(CompletedStop(vars));
          }
          nodeId := result.nextNodeId;
      }
      return At(nodeId, vars);
    }
  }

  /** Copies existing variables, then new ones over them; keys come in whatever order the maps yield them. */
  method MergeVariables(existing: Vars, newVars: Vars) returns (merged: Vars)
    ensures merged == existing + newVars
  {
    merged := map[];
    var todo := existing.Keys;
    while todo != {}
      invariant todo <= existing.Keys
      invariant merged == map k | k in existing && k !in todo :: existing[k]
    {
      var k :| k in todo;
      merged := merged[k := existing[k]];
      todo := todo - {k};
    }
    assert merged == existing;
    todo := newVars.Keys;
    while todo != {}
      invariant todo <= newVars.Keys
      invariant merged == existing + map k | k in newVars && k !in todo :: newVars[k]
    {
      var k :| k in todo;
      merged := merged[k := newVars[k]];
      todo := todo - {k};
    }
    assert (map k | k in newVars && k !in todo :: newVars[k]) == newVars;
  }
}

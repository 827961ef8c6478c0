/** The process graph: built in two loops, proved to be nothing but plain scans of the process. */
module BpmnGraph {
  import opened Common
  import opened Bpmn

  datatype Graph = Graph(
    nodes: map<string, FlowElement>,
    edges: map<string, seq<FlowElement>>,
    flows: seq<SequenceFlow>,
    startEvents: seq<FlowElement>,
    endEvents: seq<FlowElement>,
    gateways: map<ElementType, seq<FlowElement>>,
    tasks: map<ElementType, seq<FlowElement>>,
    boundaryEvents: seq<FlowElement>,
    boundaryByActivity: map<string, seq<FlowElement>>)

  function Lookup<K, V>(m: map<K, seq<V>>, k: K): seq<V> {
    if k in m then m[k] else []
  }

  /** Appends to the list stored under k. */
  function Push<K, V>(m: map<K, seq<V>>, k: K, v: V): map<K, seq<V>> {
    m[k := Lookup(m, k) + [v]]
  }

  // ---------- the plain scans ----------

  predicate Named(e: FlowElement) { e.id != "" }

  /** The last element of each id wins. */
  function NodeMap(elements: seq<FlowElement>, n: nat): map<string, FlowElement>
    requires n <= |elements|
  {
    if n == 0 then map[]
    else
      var e := elements[n - 1];
      if Named(e) then NodeMap(elements, n - 1)[e.id := e] else NodeMap(elements, n - 1)
  }

  function OfType(ty: ElementType): FlowElement -> bool {
    (e: FlowElement) => Named(e) && TypeOf(e) == ty
  }

  predicate GatewayType(ty: ElementType) {
    ty.TyExclusive? || ty.TyInclusive? || ty.TyParallel? || ty.TyComplex? || ty.TyEventBased?
  }

  predicate TaskType(ty: ElementType) {
    ty.TyUserTask? || ty.TyServiceTask? || ty.TyScriptTask? || ty.TyManualTask? || ty.TyReceiveTask? || ty.TySendTask?
  }

  function GatewayTest(ty: ElementType): FlowElement -> bool {
    (e: FlowElement) => Named(e) && GatewayType(ty) && TypeOf(e) == ty
  }

  function TaskTest(ty: ElementType): FlowElement -> bool {
    (e: FlowElement) => Named(e) && TaskType(ty) && TypeOf(e) == ty
  }

  function NamedBoundary(): FlowElement -> bool {
    (e: FlowElement) => Named(e) && e.kind.BoundaryEvent?
  }

  function NamedAttached(which: Which, activity: string): FlowElement -> bool {
    (e: FlowElement) => Named(e) && Wanted(which, e) && activity != "" && e.kind.attachedToRef == activity
  }

  /** Under every key k stands the scan of the first n elements by the test of k. */
  ghost predicate IndexedBy<K(!new)>(m: map<K, seq<FlowElement>>, elements: seq<FlowElement>, n: nat,
                                     test: K -> (FlowElement -> bool))
    requires n <= |elements|
  {
    forall k :: Lookup(m, k) == Select(elements, n, test(k))
  }

  /** The nodes that the first n flows lead to from s, in flow order. */
  function Targets(nodes: map<string, FlowElement>, flows: seq<SequenceFlow>, n: nat, s: string): seq<FlowElement>
    requires n <= |flows|
  {
    if n == 0 then []
    else
      var f := flows[n - 1];
      Targets(nodes, flows, n - 1, s) +
      (if f.sourceRef == s && f.targetRef in nodes then [nodes[f.targetRef]] else [])
  }

  /** The element indexes of g are the scans of the first n elements. */
  ghost predicate ElementsIndexed(g: Graph, elements: seq<FlowElement>, n: nat)
    requires n <= |elements|
  {
    && g.nodes == NodeMap(elements, n)
    && g.startEvents == Select(elements, n, OfType(TyStartEvent))
    && g.endEvents == Select(elements, n, OfType(TyEndEvent))
    && IndexedBy(g.gateways, elements, n, GatewayTest)
    && IndexedBy(g.tasks, elements, n, TaskTest)
    && g.boundaryEvents == Select(elements, n, NamedBoundary())
    && IndexedBy(g.boundaryByActivity, elements, n, ByActivity())
  }

  ghost predicate FlowsIndexed(g: Graph, flows: seq<SequenceFlow>, n: nat)
    requires n <= |flows|
  {
    && g.flows == flows[..n]
    && forall s :: Lookup(g.edges, s) == Targets(g.nodes, flows, n, s)
  }

  /** g is the graph of p. */
  ghost predicate Represents(g: Graph, p: Process) {
    ElementsIndexed(g, p.elements, |p.elements|) && FlowsIndexed(g, p.flows, |p.flows|)
  }

  // ---------- building ----------

  const EMPTY_GRAPH := Graph(map[], map[], [], [], [], map[], map[], [], map[])

  predicate BoundaryType(ty: ElementType) { ty.TyTimerBoundary? || ty.TyErrorBoundary? }

  /** One round of the element loop: the element is filed as a node and under its type. */
  function AddElement(g: Graph, e: FlowElement): Graph {
    var ty := TypeOf(e);
    if !Named(e) then g
    else
      Graph(g.nodes[e.id := e], g.edges, g.flows,
            g.startEvents + (if ty == TyStartEvent then [e] else []),
            g.endEvents + (if ty == TyEndEvent then [e] else []),
            if GatewayType(ty) then Push(g.gateways, ty, e) else g.gateways,
            if TaskType(ty) then Push(g.tasks, ty, e) else g.tasks,
            g.boundaryEvents + (if BoundaryType(ty) then [e] else []),
            if BoundaryType(ty) then Attach(g.boundaryByActivity, e) else g.boundaryByActivity)
  }

  function Attach(index: map<string, seq<FlowElement>>, e: FlowElement): map<string, seq<FlowElement>> {
    if e.kind.BoundaryEvent? && e.kind.attachedToRef != "" then Push(index, e.kind.attachedToRef, e) else index
  }

  /** An index gains element n under key k when only the test of k takes it. */
  lemma PushKeepsIndex<K(!new)>(m: map<K, seq<FlowElement>>, elements: seq<FlowElement>, n: nat,
                                test: K -> (FlowElement -> bool), key: K)
    requires n < |elements| && IndexedBy(m, elements, n, test)
    requires forall k :: test(k)(elements[n]) <==> k == key
    ensures IndexedBy(Push(m, key, elements[n]), elements, n + 1, test)
  {
    forall k ensures Lookup(Push(m, key, elements[n]), k) == Select(elements, n + 1, test(k)) {
      assert Lookup(m, k) == Select(elements, n, test(k));
    }
  }

  lemma SkipKeepsIndex<K(!new)>(m: map<K, seq<FlowElement>>, elements: seq<FlowElement>, n: nat,
                                test: K -> (FlowElement -> bool))
    requires n < |elements| && IndexedBy(m, elements, n, test)
    requires forall k :: !test(k)(elements[n])
    ensures IndexedBy(m, elements, n + 1, test)
  {
    forall k ensures Lookup(m, k) == Select(elements, n + 1, test(k)) {
      assert Lookup(m, k) == Select(elements, n, test(k));
    }
  }

  lemma BoundaryTyped(e: FlowElement)
    ensures e.kind.BoundaryEvent? <==> BoundaryType(TypeOf(e))
  {}

  lemma GatewaysNext(g: Graph, elements: seq<FlowElement>, n: nat)
    requires n < |elements| && IndexedBy(g.gateways, elements, n, GatewayTest)
    ensures IndexedBy(AddElement(g, elements[n]).gateways, elements, n + 1, GatewayTest)
  {
    var e := elements[n];
    hide Select; hide IndexedBy; hide TypeOf;
    if Named(e) && GatewayType(TypeOf(e)) {
      PushKeepsIndex(g.gateways, elements, n, GatewayTest, TypeOf(e));
    } else {
      SkipKeepsIndex(g.gateways, elements, n, GatewayTest);
    }
  }

  lemma TasksNext(g: Graph, elements: seq<FlowElement>, n: nat)
    requires n < |elements| && IndexedBy(g.tasks, elements, n, TaskTest)
    ensures IndexedBy(AddElement(g, elements[n]).tasks, elements, n + 1, TaskTest)
  {
    var e := elements[n];
    hide Select; hide IndexedBy; hide TypeOf;
    if Named(e) && TaskType(TypeOf(e)) {
      PushKeepsIndex(g.tasks, elements, n, TaskTest, TypeOf(e));
    } else {
      SkipKeepsIndex(g.tasks, elements, n, TaskTest);
    }
  }

  function ByActivity(): string -> (FlowElement -> bool) { (a: string) => NamedAttached(Any, a) }

  lemma BoundaryNext(g: Graph, elements: seq<FlowElement>, n: nat)
    requires n < |elements| && IndexedBy(g.boundaryByActivity, elements, n, ByActivity())
    ensures IndexedBy(AddElement(g, elements[n]).boundaryByActivity, elements, n + 1, ByActivity())
  {
    var e := elements[n];
    BoundaryTyped(e);
    hide Select; hide IndexedBy; hide TypeOf;
    if Named(e) && e.kind.BoundaryEvent? && e.kind.attachedToRef != "" {
      PushKeepsIndex(g.boundaryByActivity, elements, n, ByActivity(), e.kind.attachedToRef);
    } else {
      SkipKeepsIndex(g.boundaryByActivity, elements, n, ByActivity());
    }
  }

  lemma ListsNext(g: Graph, e: FlowElement)
    ensures var g' := AddElement(g, e);
            && g'.edges == g.edges && g'.flows == g.flows
            && g'.nodes == (if Named(e) then g.nodes[e.id := e] else g.nodes)
            && g'.startEvents == g.startEvents + (if OfType(TyStartEvent)(e) then [e] else [])
            && g'.endEvents == g.endEvents + (if OfType(TyEndEvent)(e) then [e] else [])
            && g'.boundaryEvents == g.boundaryEvents + (if NamedBoundary()(e) then [e] else [])
  {
    BoundaryTyped(e);
    hide TypeOf; hide Push; hide Attach;
  }

  lemma AddElementIndexes(g: Graph, elements: seq<FlowElement>, n: nat)
    requires n < |elements| && ElementsIndexed(g, elements, n)
    ensures ElementsIndexed(AddElement(g, elements[n]), elements, n + 1)
  {
    hide AddElement; hide IndexedBy; hide TypeOf; hide OfType; hide NamedBoundary;
    GatewaysNext(g, elements, n);
    TasksNext(g, elements, n);
    BoundaryNext(g, elements, n);
    ListsNext(g, elements[n]);
  }

  /** One round of the flow loop. */
  function AddFlow(g: Graph, f: SequenceFlow): Graph {
    var g := g.(flows := g.flows + [f]);
    if f.targetRef in g.nodes then g.(edges := Push(g.edges, f.sourceRef, g.nodes[f.targetRef])) else g
  }

  lemma AddFlowIndexes(g: Graph, flows: seq<SequenceFlow>, n: nat)
    requires n < |flows| && FlowsIndexed(g, flows, n)
    ensures FlowsIndexed(AddFlow(g, flows[n]), flows, n + 1)
  {
    var g' := AddFlow(g, flows[n]);
    forall s ensures Lookup(g'.edges, s) == Targets(g'.nodes, flows, n + 1, s) {
      assert Lookup(g.edges, s) == Targets(g.nodes, flows, n, s);
    }
  }

  method BuildGraph(p: Process) returns (graph: Graph)
    ensures Represents(graph, p)
  {
    graph := EMPTY_GRAPH;
    hide AddElement; hide AddFlow; hide ElementsIndexed;
    EmptyIsIndexed(p.elements);
    for n := 0 to |p.elements|
      invariant ElementsIndexed(graph, p.elements, n)
      invariant graph.edges == map[] && graph.flows == []
    {
      AddElementIndexes(graph, p.elements, n);
      ListsNext(graph, p.elements[n]);
      graph := AddElement(graph, p.elements[n]);
    }
    for n := 0 to |p.flows|
      invariant ElementsIndexed(graph, p.elements, |p.elements|)
      invariant FlowsIndexed(graph, p.flows, n)
    {
      AddFlowIndexes(graph, p.flows, n);
      AddFlowFrame(graph, p.flows[n], p.elements);
      graph := AddFlow(graph, p.flows[n]);
    }
    assert p.flows[..|p.flows|] == p.flows;
  }

  lemma EmptyIsIndexed(elements: seq<FlowElement>)
    ensures ElementsIndexed(EMPTY_GRAPH, elements, 0)
  {}

  lemma AddFlowFrame(g: Graph, f: SequenceFlow, elements: seq<FlowElement>)
    requires ElementsIndexed(g, elements, |elements|)
    ensures ElementsIndexed(AddFlow(g, f), elements, |elements|)
  {}

  // ---------- what the nodes are ----------

  /** Nodes are filed under their own non-empty id, and each is an element. */
  ghost predicate Filed(nodes: map<string, FlowElement>, elements: seq<FlowElement>) {
    forall k | k in nodes :: k != "" && nodes[k].id == k && nodes[k] in elements
  }

  lemma FileOne(nodes: map<string, FlowElement>, elements: seq<FlowElement>, e: FlowElement)
    requires Filed(nodes, elements) && e in elements && Named(e)
    ensures Filed(nodes[e.id := e], elements)
  {}

  /** Nodes are filed as they should be, and every named element's id is a node. */
  lemma {:induction false} NodeMapFacts(elements: seq<FlowElement>, n: nat)
    requires n <= |elements|
    ensures Filed(NodeMap(elements, n), elements)
    ensures forall i :: 0 <= i < n && Named(elements[i]) ==> elements[i].id in NodeMap(elements, n)
  {
    if n > 0 {
      NodeMapFacts(elements, n - 1);
      var before, e := NodeMap(elements, n - 1), elements[n - 1];
      assert NodeMap(elements, n) == if Named(e) then before[e.id := e] else before;
      hide Filed; hide NodeMap;
      if Named(e) {
        FileOne(before, elements, e);
      }
    }
  }

  /** Of several elements with one id, the last is the node. */
  lemma {:induction false} LastElementIsNode(elements: seq<FlowElement>, n: nat, i: nat)
    requires i < n <= |elements| && Named(elements[i])
    requires forall j | i < j < n :: elements[j].id != elements[i].id
    ensures elements[i].id in NodeMap(elements, n) && NodeMap(elements, n)[elements[i].id] == elements[i]
  {
    if i < n - 1 {
      LastElementIsNode(elements, n - 1, i);
    }
  }

  /** The start node exists exactly when some start event has an id. */
  lemma StartNodeIff(g: Graph, p: Process)
    requires Represents(g, p)
    ensures g.startEvents != [] <==> exists e :: e in p.elements && e.kind.StartEvent? && Named(e)
    ensures g.startEvents != [] ==> g.startEvents[0].kind.StartEvent? && g.startEvents[0].id in g.nodes
  {
    hide Select; hide NodeMap; hide IndexedBy;
    SelectMembers(p.elements, |p.elements|, OfType(TyStartEvent));
    NodeMapFacts(p.elements, |p.elements|);
    if e :| e in p.elements && e.kind.StartEvent? && Named(e) {
      var i :| 0 <= i < |p.elements| && p.elements[i] == e;
      assert OfType(TyStartEvent)(p.elements[i]);
    }
    if g.startEvents != [] {
      assert g.startEvents[0] in g.startEvents;
    }
  }

  // ---------- which lists hold which elements ----------

  lemma InScan(elements: seq<FlowElement>, test: FlowElement -> bool, e: FlowElement)
    ensures e in Select(elements, |elements|, test) <==> e in elements && test(e)
  {
    SelectMembers(elements, |elements|, test);
  }

  /** The event lists of the graph hold exactly the events of their kind that have an id. */
  lemma EventsListedByKind(g: Graph, p: Process, e: FlowElement)
    requires Represents(g, p)
    ensures var here := e in p.elements && e.id != "";
            && (e in g.startEvents <==> here && e.kind.StartEvent?)
            && (e in g.endEvents <==> here && e.kind.EndEvent?)
            && (e in g.boundaryEvents <==> here && e.kind.BoundaryEvent?)
  {
    InScan(p.elements, OfType(TyStartEvent), e);
    InScan(p.elements, OfType(TyEndEvent), e);
    InScan(p.elements, NamedBoundary(), e);
    hide Select; hide NodeMap;
  }

  lemma GatewayListed(g: Graph, p: Process, e: FlowElement, ty: ElementType)
    requires Represents(g, p)
    ensures e in Lookup(g.gateways, ty) <==> e in p.elements && GatewayTest(ty)(e)
  {
    InScan(p.elements, GatewayTest(ty), e);
    hide Select; hide NodeMap; hide Lookup;
  }

  lemma TaskListed(g: Graph, p: Process, e: FlowElement, ty: ElementType)
    requires Represents(g, p)
    ensures e in Lookup(g.tasks, ty) <==> e in p.elements && TaskTest(ty)(e)
  {
    InScan(p.elements, TaskTest(ty), e);
    hide Select; hide NodeMap; hide Lookup;
  }

  /** The same for the five lists of gateways. */
  lemma GatewaysListedByKind(g: Graph, p: Process, e: FlowElement)
    requires Represents(g, p)
    ensures var here := e in p.elements && e.id != "";
            && (e in Lookup(g.gateways, TyExclusive) <==> here && e.kind.ExclusiveGateway?)
            && (e in Lookup(g.gateways, TyInclusive) <==> here && e.kind.InclusiveGateway?)
            && (e in Lookup(g.gateways, TyParallel) <==> here && e.kind.ParallelGateway?)
            && (e in Lookup(g.gateways, TyComplex) <==> here && e.kind.ComplexGateway?)
            && (e in Lookup(g.gateways, TyEventBased) <==> here && e.kind.EventBasedGateway?)
  {
    hide Represents; hide Lookup;
    GatewayListed(g, p, e, TyExclusive);
    GatewayListed(g, p, e, TyInclusive);
    GatewayListed(g, p, e, TyParallel);
    GatewayListed(g, p, e, TyComplex);
    GatewayListed(g, p, e, TyEventBased);
  }

  /** And for the six lists of tasks; a service task that compensates is in none of them. */
  lemma TasksListedByKind(g: Graph, p: Process, e: FlowElement)
    requires Represents(g, p)
    ensures var here := e in p.elements && e.id != "";
            && (e in Lookup(g.tasks, TyUserTask) <==> here && e.kind.UserTask?)
            && (e in Lookup(g.tasks, TyServiceTask) <==> here && e.kind.ServiceTask? && !e.kind.isForCompensation)
            && (e in Lookup(g.tasks, TyScriptTask) <==> here && e.kind.ScriptTask?)
            && (e in Lookup(g.tasks, TyManualTask) <==> here && e.kind.ManualTask?)
            && (e in Lookup(g.tasks, TyReceiveTask) <==> here && e.kind.ReceiveTask?)
            && (e in Lookup(g.tasks, TySendTask) <==> here && e.kind.SendTask?)
  {
    hide Represents; hide Lookup;
    TaskListed(g, p, e, TyUserTask);
    TaskListed(g, p, e, TyServiceTask);
    TaskListed(g, p, e, TyScriptTask);
    TaskListed(g, p, e, TyManualTask);
    TaskListed(g, p, e, TyReceiveTask);
    TaskListed(g, p, e, TySendTask);
  }

  // ---------- edges are flows ----------

  /** Where the edge of flow i sits in its source's edge list. */
  function Rank(nodes: map<string, FlowElement>, flows: seq<SequenceFlow>, i: nat): nat
    requires i < |flows|
  {
    |Targets(nodes, flows, i, flows[i].sourceRef)|
  }

  lemma {:induction false} TargetsGrow(nodes: map<string, FlowElement>, flows: seq<SequenceFlow>, m: nat, n: nat, s: string)
    requires m <= n <= |flows|
    ensures Targets(nodes, flows, m, s) <= Targets(nodes, flows, n, s)
  {
    if m < n {
      TargetsGrow(nodes, flows, m, n - 1, s);
    }
  }

  /** Every flow with an existing target has its edge, at its rank. */
  lemma FlowHasEdge(nodes: map<string, FlowElement>, flows: seq<SequenceFlow>, i: nat)
    requires i < |flows| && flows[i].targetRef in nodes
    ensures var edges := Targets(nodes, flows, |flows|, flows[i].sourceRef);
            Rank(nodes, flows, i) < |edges| && edges[Rank(nodes, flows, i)] == nodes[flows[i].targetRef]
  {
    TargetsGrow(nodes, flows, i + 1, |flows|, flows[i].sourceRef);
  }

  /** Two flows never share an edge. */
  lemma RanksDiffer(nodes: map<string, FlowElement>, flows: seq<SequenceFlow>, i: nat, j: nat)
    requires i < j < |flows| && flows[i].targetRef in nodes && flows[i].sourceRef == flows[j].sourceRef
    ensures Rank(nodes, flows, i) < Rank(nodes, flows, j)
  {
    TargetsGrow(nodes, flows, i + 1, j, flows[i].sourceRef);
  }

  /** Every edge is the edge of some flow. */
  lemma {:induction false} EdgeHasFlow(nodes: map<string, FlowElement>, flows: seq<SequenceFlow>, n: nat, s: string, k: nat)
    returns (i: nat)
    requires n <= |flows| && k < |Targets(nodes, flows, n, s)|
    ensures i < n && flows[i].sourceRef == s && flows[i].targetRef in nodes
    ensures Rank(nodes, flows, i) == k && Targets(nodes, flows, n, s)[k] == nodes[flows[i].targetRef]
  {
    if k < |Targets(nodes, flows, n - 1, s)| {
      i := EdgeHasFlow(nodes, flows, n - 1, s, k);
    } else {
      i := n - 1;
    }
  }

  // ---------- boundary events ----------

  /** The graph's three boundary-event queries: the index, filtered. */
  method BoundaryEventsForActivity(g: Graph, which: Which, activity: string) returns (r: seq<FlowElement>)
    ensures r == All(Lookup(g.boundaryByActivity, activity), (e: FlowElement) => Wanted(which, e))
  {
    r := [];
    var all := Lookup(g.boundaryByActivity, activity);
    for n := 0 to |all|
      invariant r == Select(all, n, (e: FlowElement) => Wanted(which, e))
    {
      if Wanted(which, all[n]) {
        r := r + [all[n]];
      }
    }
  }

  /** The index answers what the parser's scan answers, exactly when the activity id is not empty and the
      events attached to it have ids (or nothing is attached there at all). */
  lemma BoundaryIndexIsScanIff(g: Graph, p: Process, which: Which, activity: string)
    requires Represents(g, p)
    ensures All(Lookup(g.boundaryByActivity, activity), (e: FlowElement) => Wanted(which, e))
              == All(p.elements, Attached(which, activity))
       <==> forall e | e in p.elements && Attached(which, activity)(e) :: activity != "" && Named(e)
  {
    var n := |p.elements|;
    var wanted := (e: FlowElement) => Wanted(which, e);
    var index, scan := NamedAttached(which, activity), Attached(which, activity);
    SelectTwice(p.elements, n, NamedAttached(Any, activity), wanted, index);
    SelectShorter(p.elements, n, index, scan);
    hide Select;
    if Select(p.elements, n, index) == Select(p.elements, n, scan) {
      forall e | e in p.elements && scan(e) ensures activity != "" && Named(e) {
        var i :| 0 <= i < n && p.elements[i] == e;
        assert index(p.elements[i]);
      }
    }
    if forall e | e in p.elements && scan(e) :: activity != "" && Named(e) {
      forall i | 0 <= i < n ensures index(p.elements[i]) == scan(p.elements[i]) {
        assert p.elements[i] in p.elements;
      }
      SelectSame(p.elements, n, index, scan);
    }
  }

  // ---------- incoming elements ----------

  /** How often id occurs among the first n targets. */
  function CountId(targets: seq<FlowElement>, n: nat, id: string): nat
    requires n <= |targets|
  {
    if n == 0 then 0 else CountId(targets, n - 1, id) + (if targets[n - 1].id == id then 1 else 0)
  }

  /** How often x is the source of an edge to id. */
  ghost function TimesSource(g: Graph, sources: set<string>, x: FlowElement, id: string): nat {
    if x.id in sources && x.id in g.nodes && g.nodes[x.id] == x
    then CountId(Lookup(g.edges, x.id), |Lookup(g.edges, x.id)|, id) else 0
  }

  /** Sources are visited in whatever order the edge table yields them. */
  method GetIncomingElements(g: Graph, id: string) returns (r: seq<FlowElement>)
    requires forall k | k in g.nodes :: g.nodes[k].id == k
    ensures forall x :: multiset(r)[x] == TimesSource(g, g.edges.Keys, x, id)
  {
    r := [];
    var todo := g.edges.Keys;
    assert g.edges.Keys - todo == {};
    while todo != {}
      invariant todo <= g.edges.Keys
      invariant forall x :: multiset(r)[x] == TimesSource(g, g.edges.Keys - todo, x, id)
      decreases todo
    {
      var s :| s in todo;
      todo := todo - {s};
      ghost var before := r;
      var targets := g.edges[s];
      assert CountId(targets, 0, id) == 0;
      for n := 0 to |targets|
        invariant forall x :: multiset(r)[x] == multiset(before)[x] +
                    if s in g.nodes && x == g.nodes[s] then CountId(targets, n, id) else 0
      {
        if targets[n].id == id {
          if s in g.nodes {
            r := r + [g.nodes[s]];
          }
        }
      }
    }
    assert g.edges.Keys - todo == g.edges.Keys;
  }

  function Between(s: string, t: string): SequenceFlow -> bool {
    (f: SequenceFlow) => f.sourceRef == s && f.targetRef == t
  }

  /** In the graph of a process, edges from s to an existing node t are counted by the flows from s to t. */
  lemma {:induction false} CountIdIsFlowCount(nodes: map<string, FlowElement>, flows: seq<SequenceFlow>, n: nat,
                                              s: string, t: string)
    requires n <= |flows| && t in nodes && forall k | k in nodes :: nodes[k].id == k
    ensures CountId(Targets(nodes, flows, n, s), |Targets(nodes, flows, n, s)|, t) == |Select(flows, n, Between(s, t))|
  {
    if n > 0 {
      CountIdIsFlowCount(nodes, flows, n - 1, s, t);
      var before := Targets(nodes, flows, n - 1, s);
      var f := flows[n - 1];
      if f.sourceRef == s && f.targetRef in nodes {
        CountIdPrefix(before, [nodes[f.targetRef]], |before|, t);
      } else {
        assert Targets(nodes, flows, n, s) == before;
      }
    }
  }

  lemma {:induction false} CountIdPrefix(targets: seq<FlowElement>, more: seq<FlowElement>, n: nat, id: string)
    requires n <= |targets|
    ensures CountId(targets + more, n, id) == CountId(targets, n, id)
  {
    if n > 0 {
      CountIdPrefix(targets, more, n - 1, id);
    }
  }

  /** GetIncomingElements inverts the edges: a node x comes back once for every flow from x to id. */
  lemma IncomingInvertsEdges(g: Graph, p: Process, x: FlowElement, id: string)
    requires Represents(g, p) && id in g.nodes
    ensures TimesSource(g, g.edges.Keys, x, id) ==
            if x.id in g.nodes && g.nodes[x.id] == x then |All(p.flows, Between(x.id, id))| else 0
  {
    NodeMapFacts(p.elements, |p.elements|);
    assert g.nodes == NodeMap(p.elements, |p.elements|);
    CountIdIsFlowCount(g.nodes, p.flows, |p.flows|, x.id, id);
    assert Lookup(g.edges, x.id) == Targets(g.nodes, p.flows, |p.flows|, x.id);
  }

  // ---------- next nodes ----------

  function Existing(g: Graph, id: string): SequenceFlow -> bool {
    (f: SequenceFlow) => f.sourceRef == id && f.targetRef in g.nodes
  }

  /** The first flow without a condition, else the first flow. */
  function Preferred(flows: seq<SequenceFlow>, unconditional: SequenceFlow -> bool): Option<SequenceFlow> {
    var free := All(flows, unconditional);
    if free != [] then Some(free[0]) else if flows != [] then Some(flows[0]) else None
  }

  function NoCondition(): SequenceFlow -> bool { (f: SequenceFlow) => f.condition.None? }

  /** Position k holds the first eligible flow that is free, or, when no eligible flow is free, the first
      eligible one. */
  ghost predicate FirstFreeElseFirst(flows: seq<SequenceFlow>, k: nat, eligible: SequenceFlow -> bool, free: SequenceFlow -> bool) {
    && k < |flows| && eligible(flows[k])
    && if free(flows[k]) then forall i | 0 <= i < k && eligible(flows[i]) :: !free(flows[i])
       else (forall i | 0 <= i < |flows| && eligible(flows[i]) :: !free(flows[i])) &&
            forall i | 0 <= i < k :: !eligible(flows[i])
  }

  /** Where the preferred of the eligible flows stands. */
  lemma PreferredAt(flows: seq<SequenceFlow>, eligible: SequenceFlow -> bool, free: SequenceFlow -> bool) returns (k: nat)
    ensures Preferred(All(flows, eligible), free).None? <==> forall f | f in flows :: !eligible(f)
    ensures Preferred(All(flows, eligible), free).Some? ==>
              FirstFreeElseFirst(flows, k, eligible, free) && Preferred(All(flows, eligible), free) == Some(flows[k])
  {
    var candidates := All(flows, eligible);
    var both := (f: SequenceFlow) => eligible(f) && free(f);
    SelectMembers(flows, |flows|, eligible);
    SelectMembers(flows, |flows|, both);
    SelectTwice(flows, |flows|, eligible, free, both);
    k := 0;
    if All(candidates, free) != [] {
      k := SelectHead(flows, |flows|, both);
    } else if candidates != [] {
      k := SelectHead(flows, |flows|, eligible);
      assert forall i | 0 <= i < |flows| :: !both(flows[i]);
    }
  }

  /** The flow leaves id for an existing node. */
  predicate Candidate(g: Graph, id: string, f: SequenceFlow) { f.sourceRef == id && f.targetRef in g.nodes }

  method EvaluateExclusiveGateway(g: Graph, id: string) returns (r: seq<FlowElement>, ghost at: nat)
    ensures var choice := Preferred(All(g.flows, Existing(g, id)), NoCondition());
            match choice
            case None => r == []
            case Some(f) => f.targetRef in g.nodes && r == [g.nodes[f.targetRef]]
    ensures r == [] <==> forall f | f in g.flows :: f.sourceRef != id || f.targetRef !in g.nodes
    ensures r != [] ==>
              && at < |g.flows| && g.flows[at].sourceRef == id && g.flows[at].targetRef in g.nodes
              && r == [g.nodes[g.flows[at].targetRef]]
              && if g.flows[at].condition.None?
                 then forall i | 0 <= i < at && Candidate(g, id, g.flows[i]) :: g.flows[i].condition.Some?
                 else (forall f | f in g.flows && Candidate(g, id, f) :: f.condition.Some?) &&
                      forall i | 0 <= i < at :: !Candidate(g, id, g.flows[i])
  {
    var candidates: seq<SequenceFlow> := [];
    for n := 0 to |g.flows|
      invariant candidates == Select(g.flows, n, Existing(g, id))
    {
      if g.flows[n].sourceRef == id {
        if g.flows[n].targetRef in g.nodes {
          candidates := candidates + [g.flows[n]];
        }
      }
    }
    SelectMembers(g.flows, |g.flows|, Existing(g, id));
    hide Select;
    assert forall f | f in candidates :: f.targetRef in g.nodes;
    var choice, _ := ChooseFlow(candidates);
    at := PreferredAt(g.flows, Existing(g, id), NoCondition());
    r := if choice.Some? then [g.nodes[choice.value.targetRef]] else [];
  }

  /** The second half of the exclusive evaluator: a flow without condition first, then any flow. */
  method ChooseFlow(candidates: seq<SequenceFlow>) returns (choice: Option<SequenceFlow>, ghost at: nat)
    ensures choice == Preferred(candidates, NoCondition())
    ensures choice.None? <==> candidates == []
    ensures choice.Some? ==>
              && at < |candidates| && choice.value == candidates[at]
              && if candidates[at].condition.None? then forall i | 0 <= i < at :: candidates[i].condition.Some?
                 else at == 0 && forall i | 0 <= i < |candidates| :: candidates[i].condition.Some?
  {
    hide Preferred;
    for n := 0 to |candidates|
      invariant forall i | 0 <= i < n :: candidates[i].condition.Some?
    {
      if candidates[n].condition.None? {
        PreferredIsFirstFree(candidates, n);
        return Some(candidates[n]), n;
      }
    }
    PreferredWithoutFree(candidates);
    return if |candidates| > 0 then Some(candidates[0]) else None, 0;
  }

  lemma PreferredIsFirstFree(candidates: seq<SequenceFlow>, n: nat)
    requires n < |candidates| && candidates[n].condition.None?
    requires forall i | 0 <= i < n :: candidates[i].condition.Some?
    ensures Preferred(candidates, NoCondition()) == Some(candidates[n])
  {
    assert NoCondition()(candidates[n]);
    SelectMembers(candidates, |candidates|, NoCondition());
    var k := SelectHead(candidates, |candidates|, NoCondition());
    hide Select;
    assert k == n;
  }

  lemma PreferredWithoutFree(candidates: seq<SequenceFlow>)
    requires forall i | 0 <= i < |candidates| :: candidates[i].condition.Some?
    ensures Preferred(candidates, NoCondition()) == if candidates == [] then None else Some(candidates[0])
  {
    SelectMembers(candidates, |candidates|, NoCondition());
  }

  method EvaluateInclusiveGateway(g: Graph, id: string) returns (r: seq<FlowElement>)
    ensures r == Targets(g.nodes, g.flows, |g.flows|, id)
  {
    r := [];
    for n := 0 to |g.flows|
      invariant r == Targets(g.nodes, g.flows, n, id)
    {
      if g.flows[n].sourceRef == id {
        if g.flows[n].targetRef in g.nodes {
          r := r + [g.nodes[g.flows[n].targetRef]];
        }
      }
    }
  }

  /** What FindNextNodes answers: nothing for an unknown id. */
  ghost function NextNodes(g: Graph, id: string): Option<seq<FlowElement>> {
    if id !in g.nodes then None
    else if TypeOf(g.nodes[id]) == TyExclusive then
      match Preferred(All(g.flows, Existing(g, id)), NoCondition())
      case None => Some([])
      case Some(f) => if f.targetRef in g.nodes then Some([g.nodes[f.targetRef]]) else Some([])
    else if TypeOf(g.nodes[id]) == TyInclusive then Some(Targets(g.nodes, g.flows, |g.flows|, id))
    else Some(Lookup(g.edges, id))
  }

  method FindNextNodes(g: Graph, id: string) returns (r: Option<seq<FlowElement>>)
    ensures r == NextNodes(g, id)
  {
    if id !in g.nodes {
      return None;
    }
    var ty := TypeOf(g.nodes[id]);
    if ty == TyExclusive {
      var next, _ := EvaluateExclusiveGateway(g, id);
      return Some(next);
    } else if ty == TyInclusive {
      var next := EvaluateInclusiveGateway(g, id);
      return Some(next);
    }
    return Some(Lookup(g.edges, id));
  }

  /** An exclusive gateway leads to nothing exactly when no flow leaves it for an existing node, and else to
      the target of one flow: the first candidate without a condition, or the first of all when each has one. */
  lemma ExclusiveNextNode(g: Graph, id: string) returns (at: nat)
    requires id in g.nodes && g.nodes[id].kind.ExclusiveGateway?
    ensures NextNodes(g, id) == Some([]) <==> forall f | f in g.flows :: !Candidate(g, id, f)
    ensures NextNodes(g, id) != Some([]) ==>
              && at < |g.flows| && Candidate(g, id, g.flows[at])
              && NextNodes(g, id) == Some([g.nodes[g.flows[at].targetRef]])
              && if g.flows[at].condition.None?
                 then forall i | 0 <= i < at && Candidate(g, id, g.flows[i]) :: g.flows[i].condition.Some?
                 else (forall f | f in g.flows && Candidate(g, id, f) :: f.condition.Some?) &&
                      forall i | 0 <= i < at :: !Candidate(g, id, g.flows[i])
  {
    at := PreferredAt(g.flows, Existing(g, id), NoCondition());
    hide Preferred;
  }
}

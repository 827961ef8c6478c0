/** Processes as the parser hands them over, and the parser's own scans of them. */
module Bpmn {
  import opened Common

  datatype TimerDefinition = TimerDefinition(duration: string, date: string, cycle: string)

  datatype ErrorDefinition = ErrorDefinition(errorRef: string)

  datatype Kind =
    | StartEvent | EndEvent | IntermediateCatchEvent | IntermediateThrowEvent
    | UserTask
    | ServiceTask(class_: string, expression: string, delegateExpression: string, topic: string,
                  isForCompensation: bool, compensateNodeId: string)
    | ScriptTask | ManualTask
    | ReceiveTask(messageRef: string)
    | SendTask(messageRef: string)
    | ExclusiveGateway | InclusiveGateway | ParallelGateway | ComplexGateway | EventBasedGateway
    | SubProcess | AdHocSubProcess | Transaction
    | BoundaryEvent(cancelActivity: string, attachedToRef: string,
                    timer: Option<TimerDefinition>, error: Option<ErrorDefinition>)

  datatype FlowElement = FlowElement(id: string, name: string, incoming: seq<string>, outgoing: seq<string>, kind: Kind)

  datatype SequenceFlow = SequenceFlow(id: string, name: string, sourceRef: string, targetRef: string,
                                       condition: Option<string>)

  datatype Process = Process(id: string, name: string, isExecutable: string,
                             elements: seq<FlowElement>, flows: seq<SequenceFlow>)

  datatype ElementType =
    | TyStartEvent | TyEndEvent | TyCatchEvent | TyThrowEvent
    | TyUserTask | TyServiceTask | TyScriptTask | TyManualTask | TyReceiveTask | TySendTask
    | TyExclusive | TyInclusive | TyParallel | TyComplex | TyEventBased
    | TySubProcess | TyAdHoc | TyTransaction | TyTimerBoundary | TyErrorBoundary | TyCompensationThrow

  function TypeOf(e: FlowElement): ElementType {
    match e.kind
    case StartEvent => TyStartEvent
    case EndEvent => TyEndEvent
    case IntermediateCatchEvent => TyCatchEvent
    case IntermediateThrowEvent => TyThrowEvent
    case UserTask => TyUserTask
    case ServiceTask(_, _, _, _, forCompensation, _) => if forCompensation then TyCompensationThrow else TyServiceTask
    case ScriptTask => TyScriptTask
    case ManualTask => TyManualTask
    case ReceiveTask(_) => TyReceiveTask
    case SendTask(_) => TySendTask
    case ExclusiveGateway => TyExclusive
    case InclusiveGateway => TyInclusive
    case ParallelGateway => TyParallel
    case ComplexGateway => TyComplex
    case EventBasedGateway => TyEventBased
    case SubProcess => TySubProcess
    case AdHocSubProcess => TyAdHoc
    case Transaction => TyTransaction
    case BoundaryEvent(_, _, timer, _) => if timer.Some? then TyTimerBoundary else TyErrorBoundary
  }

  // ---------- selecting from a list ----------

  /** The elements among the first n that satisfy p, in order. */
  function Select<T>(s: seq<T>, n: nat, p: T -> bool): seq<T>
    requires n <= |s|
  {
    if n == 0 then [] else Select(s, n - 1, p) + (if p(s[n - 1]) then [s[n - 1]] else [])
  }

  /** A selection is what it selects: membership, and emptiness. */
  lemma {:induction false} SelectMembers<T>(s: seq<T>, n: nat, p: T -> bool)
    requires n <= |s|
    ensures forall x :: x in Select(s, n, p) <==> exists i :: 0 <= i < n && s[i] == x && p(x)
    ensures Select(s, n, p) == [] <==> forall i :: 0 <= i < n ==> !p(s[i])
  {
    if n > 0 {
      SelectMembers(s, n - 1, p);
    }
  }

  /** The first of the selected elements is the first in the list that satisfies p. */
  lemma {:induction false} SelectHead<T>(s: seq<T>, n: nat, p: T -> bool) returns (k: nat)
    requires n <= |s| && Select(s, n, p) != []
    ensures k < n && s[k] == Select(s, n, p)[0] && p(s[k])
    ensures forall i :: 0 <= i < k ==> !p(s[i])
  {
    if Select(s, n - 1, p) == [] {
      k := n - 1;
      SelectMembers(s, k, p);
    } else {
      k := SelectHead(s, n - 1, p);
    }
  }

  /** The positions of the selected elements: strictly rising, and exactly those that satisfy p. */
  function Positions<T>(s: seq<T>, n: nat, p: T -> bool): (r: seq<nat>)
    requires n <= |s|
    ensures forall i :: 0 <= i < |r| ==> r[i] < n
  {
    if n == 0 then [] else Positions(s, n - 1, p) + (if p(s[n - 1]) then [n - 1] else [])
  }

  /** A selection keeps order and multiplicity: its elements stand at strictly rising positions of the list,
      and no other position satisfies p. */
  lemma {:induction false} SelectKeepsOrder<T>(s: seq<T>, n: nat, p: T -> bool)
    requires n <= |s|
    ensures var at := Positions(s, n, p);
            && |Select(s, n, p)| == |at|
            && (forall i :: 0 <= i < |at| ==> Select(s, n, p)[i] == s[at[i]])
            && (forall i, j :: 0 <= i < j < |at| ==> at[i] < at[j])
            && (forall k: nat :: k in at <==> k < n && p(s[k]))
  {
    if n > 0 {
      SelectKeepsOrder(s, n - 1, p);
    }
  }

  lemma {:induction false} SelectSame<T>(s: seq<T>, n: nat, p: T -> bool, q: T -> bool)
    requires n <= |s| && forall i :: 0 <= i < n ==> p(s[i]) == q(s[i])
    ensures Select(s, n, p) == Select(s, n, q)
  {
    if n > 0 {
      SelectSame(s, n - 1, p, q);
    }
  }

  /** Selecting by the stricter of two tests gives a shorter list unless they agree everywhere. */
  lemma {:induction false} SelectShorter<T>(s: seq<T>, n: nat, p: T -> bool, q: T -> bool)
    requires n <= |s| && forall i :: 0 <= i < n && p(s[i]) ==> q(s[i])
    ensures |Select(s, n, p)| <= |Select(s, n, q)|
    ensures |Select(s, n, p)| == |Select(s, n, q)| ==> forall i :: 0 <= i < n ==> p(s[i]) == q(s[i])
  {
    if n > 0 {
      SelectShorter(s, n - 1, p, q);
    }
  }

  /** Selecting twice is selecting by both tests. */
  lemma {:induction false} SelectTwice<T>(s: seq<T>, n: nat, p: T -> bool, q: T -> bool, both: T -> bool)
    requires n <= |s| && forall x :: both(x) == (p(x) && q(x))
    ensures Select(Select(s, n, p), |Select(s, n, p)|, q) == Select(s, n, both)
  {
    if n > 0 {
      SelectTwice(s, n - 1, p, q, both);
      var t := Select(s, n - 1, p);
      if p(s[n - 1]) {
        SelectPrefix(t, [s[n - 1]], |t|, q);
      } else {
        assert Select(s, n, p) == t;
      }
    }
  }

  lemma {:induction false} SelectPrefix<T>(s: seq<T>, more: seq<T>, n: nat, p: T -> bool)
    requires n <= |s|
    ensures Select(s + more, n, p) == Select(s, n, p)
  {
    if n > 0 {
      SelectPrefix(s, more, n - 1, p);
    }
  }

  /** All elements that satisfy p, in order. */
  function All<T>(s: seq<T>, p: T -> bool): seq<T> { Select(s, |s|, p) }

  // ---------- the parser ----------

  datatype RawFlow = RawFlow(id: string, name: string, sourceRef: string, targetRef: string, conditionText: string)

  /** A condition is absent exactly when its text is empty. */
  predicate Parsed(f: SequenceFlow) { f.condition.Some? ==> f.condition.value != "" }

  method ConvertFlows(raw: seq<RawFlow>) returns (flows: seq<SequenceFlow>)
    ensures |flows| == |raw|
    ensures forall i :: 0 <= i < |raw| ==>
              && Parsed(flows[i])
              && (flows[i].condition.None? <==> raw[i].conditionText == "")
              && (flows[i].condition.Some? ==> flows[i].condition.value == raw[i].conditionText)
              && (flows[i].id, flows[i].name, flows[i].sourceRef, flows[i].targetRef)
                 == (raw[i].id, raw[i].name, raw[i].sourceRef, raw[i].targetRef)
  {
    flows := [];
    for n := 0 to |raw|
      invariant |flows| == n
      invariant forall i :: 0 <= i < n ==>
                  && Parsed(flows[i])
                  && (flows[i].condition.None? <==> raw[i].conditionText == "")
                  && (flows[i].condition.Some? ==> flows[i].condition.value == raw[i].conditionText)
                  && (flows[i].id, flows[i].name, flows[i].sourceRef, flows[i].targetRef)
                     == (raw[i].id, raw[i].name, raw[i].sourceRef, raw[i].targetRef)
    {
      var flow := SequenceFlow(raw[n].id, raw[n].name, raw[n].sourceRef, raw[n].targetRef, None);
      if raw[n].conditionText != "" {
        flow := flow.(condition := Some(raw[n].conditionText));
      }
      flows := flows + [flow];
    }
  }

  function From(id: string): SequenceFlow -> bool { (f: SequenceFlow) => f.sourceRef == id }

  function To(id: string): SequenceFlow -> bool { (f: SequenceFlow) => f.targetRef == id }

  method GetOutgoingFlows(flows: seq<SequenceFlow>, id: string) returns (r: seq<SequenceFlow>)
    ensures r == All(flows, From(id))
    ensures forall f :: f in r <==> f in flows && f.sourceRef == id
  {
    r := [];
    for n := 0 to |flows|
      invariant r == Select(flows, n, From(id))
    {
      if flows[n].sourceRef == id {
        r := r + [flows[n]];
      }
    }
    SelectMembers(flows, |flows|, From(id));
  }

  method GetIncomingFlows(flows: seq<SequenceFlow>, id: string) returns (r: seq<SequenceFlow>)
    ensures r == All(flows, To(id))
    ensures forall f :: f in r <==> f in flows && f.targetRef == id
  {
    r := [];
    for n := 0 to |flows|
      invariant r == Select(flows, n, To(id))
    {
      if flows[n].targetRef == id {
        r := r + [flows[n]];
      }
    }
    SelectMembers(flows, |flows|, To(id));
  }

  /** Which boundary events a scan is after. */
  datatype Which = Any | Timer | Error

  predicate Wanted(which: Which, e: FlowElement) {
    e.kind.BoundaryEvent? && (which == Timer ==> e.kind.timer.Some?) && (which == Error ==> e.kind.error.Some?)
  }

  function Attached(which: Which, activity: string): FlowElement -> bool {
    (e: FlowElement) => Wanted(which, e) && e.kind.attachedToRef == activity
  }

  /** The parser's three boundary-event scans. */
  method ScanBoundaryEvents(p: Process, which: Which, activity: string) returns (r: seq<FlowElement>)
    ensures r == All(p.elements, Attached(which, activity))
    ensures forall e :: e in r <==>
              && e in p.elements && e.kind.BoundaryEvent? && e.kind.attachedToRef == activity
              && (which == Timer ==> e.kind.timer.Some?) && (which == Error ==> e.kind.error.Some?)
  {
    r := [];
    for n := 0 to |p.elements|
      invariant r == Select(p.elements, n, Attached(which, activity))
    {
      var e := p.elements[n];
      if e.kind.BoundaryEvent? {
        if e.kind.attachedToRef == activity && Wanted(which, e) {
          r := r + [e];
        }
      }
    }
    SelectMembers(p.elements, |p.elements|, Attached(which, activity));
  }
}

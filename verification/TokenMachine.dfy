/** The token state machine: a table of allowed moves, operations that record history, and Await, which
    asks the table nothing. */
module TokenMachine {
  import opened Common

  datatype Status = Pending | Active | Waiting | Completed | Failed | Terminated | Suspended

  datatype Entry = Entry(from: Status, to: Status, timestamp: int, action: string)

  datatype TokenState = TokenState(status: Status, history: seq<Entry>, updatedAt: int,
                                   startedAt: Option<int>, completedAt: Option<int>, error: Option<string>)

  function Table(from: Status): seq<Status> {
    match from
    case Pending => [Active, Waiting, Terminated]
    case Active => [Completed, Failed, Waiting, Suspended, Terminated]
    case Waiting => [Active, Terminated, Suspended]
    case Completed => []
    case Failed => [Active, Terminated]
    case Terminated => []
    case Suspended => [Active, Terminated]
  }

  predicate Allowed(from: Status, to: Status) { to in Table(from) }

  predicate IsTerminal(s: Status) { s == Completed || s == Failed || s == Terminated }

  // ---------- operations on values ----------

  function NewToken(now: int): TokenState { TokenState(Pending, [], now, None, None, None) }

  function Stamped(t: TokenState, to: Status, now: int): TokenState {
    match to
    case Active => t.(startedAt := Some(now))
    case Completed => t.(completedAt := Some(now))
    case Failed => t.(completedAt := Some(now))
    case Terminated => t.(completedAt := Some(now))
    case _ => t
  }

  /** A move the table does not allow changes nothing. */
  function Moved(t: TokenState, to: Status, action: string, now: int): TokenState {
    if !Allowed(t.status, to) then t
    else Stamped(t.(status := to, history := t.history + [Entry(t.status, to, now, action)], updatedAt := now), to, now)
  }

  /** Await overwrites the status first and records the overwritten one as where it came from. */
  function Awaited(t: TokenState, awaitType: string, now: int): TokenState {
    t.(status := Waiting, history := t.history + [Entry(Waiting, Waiting, now, "await:" + awaitType)], updatedAt := now)
  }

  datatype Op = Start | Complete | Fail(error: Option<string>) | Terminate | Suspend | Resume | Trigger | Await(kind: string)

  function Goal(op: Op): Status {
    match op
    case Start => Active
    case Complete => Completed
    case Fail(_) => Failed
    case Terminate => Terminated
    case Suspend => Suspended
    case Resume => Active
    case Trigger => Active
    case Await(_) => Waiting
  }

  function Action(op: Op): string {
    match op
    case Start => "start"
    case Complete => "complete"
    case Fail(_) => "fail"
    case Terminate => "terminate"
    case Suspend => "suspend"
    case Resume => "resume"
    case Trigger => "trigger"
    case Await(kind) => "await:" + kind
  }

  /** Fail stores its error even when the move is refused. */
  function Step(t: TokenState, op: Op, now: int): TokenState {
    if op.Await? then Awaited(t, op.kind, now)
    else
      var t' := if op.Fail? && op.error.Some? then t.(error := op.error) else t;
      Moved(t', Goal(op), Action(op), now)
  }

  function Run(ops: seq<(Op, int)>): TokenState {
    if ops == [] then NewToken(0)
    else Step(Run(ops[..|ops| - 1]), ops[|ops| - 1].0, ops[|ops| - 1].1)
  }

  // ---------- history ----------

  /** Each entry starts where the one before it ended, and the first starts at pending. */
  predicate Unbroken(h: seq<Entry>) {
    (h != [] ==> h[0].from == Pending) && forall i :: 0 < i < |h| ==> h[i].from == h[i - 1].to
  }

  predicate EndsIn(h: seq<Entry>, s: Status) { if h == [] then s == Pending else h[|h| - 1].to == s }

  predicate TableEdge(e: Entry) { Allowed(e.from, e.to) }

  predicate NoAwait(ops: seq<(Op, int)>) { forall p | p in ops :: !p.0.Await? }

  /** Every Await of the run was made while the token was waiting. */
  ghost predicate AwaitsOnlyWhileWaiting(ops: seq<(Op, int)>) {
    ops != [] ==>
      AwaitsOnlyWhileWaiting(ops[..|ops| - 1]) &&
      (ops[|ops| - 1].0.Await? ==> Run(ops[..|ops| - 1]).status == Waiting)
  }

  lemma UnbrokenSnoc(h: seq<Entry>, e: Entry, s: Status)
    requires EndsIn(h, s)
    ensures Unbroken(h + [e]) <==> Unbroken(h) && e.from == s
  {
    var h' := h + [e];
    if Unbroken(h') {
      assert h'[|h|] == e;
      forall i | 0 < i < |h| ensures h[i].from == h[i - 1].to {
        assert h'[i] == h[i] && h'[i - 1] == h[i - 1];
      }
      if h != [] {
        assert h'[0] == h[0] && h'[|h| - 1] == h[|h| - 1];
      }
    }
  }

  /** What one operation adds to the history, and the status it leaves. */
  function Added(t: TokenState, op: Op, now: int): seq<Entry> {
    if op.Await? then [Entry(Waiting, Waiting, now, Action(op))]
    else if Allowed(t.status, Goal(op)) then [Entry(t.status, Goal(op), now, Action(op))]
    else []
  }

  lemma StepAdds(t: TokenState, op: Op, now: int)
    ensures Step(t, op, now).history == t.history + Added(t, op, now)
    ensures Step(t, op, now).status == if Added(t, op, now) == [] then t.status else Goal(op)
  {
    assert t.history + [] == t.history;
  }

  /** The last entry always ends in the current status, and each entry is an edge of the table or an await. */
  lemma {:induction false} HistoryEntries(ops: seq<(Op, int)>)
    ensures EndsIn(Run(ops).history, Run(ops).status)
    ensures forall e | e in Run(ops).history :: TableEdge(e) || (e.from == Waiting && e.to == Waiting)
  {
    hide Action; hide Step; hide Table;
    if ops != [] {
      HistoryEntries(ops[..|ops| - 1]);
      StepAdds(Run(ops[..|ops| - 1]), ops[|ops| - 1].0, ops[|ops| - 1].1);
    }
  }

  /** Without Await, history is an unbroken walk in the table from pending to the current status. */
  lemma {:induction false} TableRunsAreWalks(ops: seq<(Op, int)>)
    requires NoAwait(ops)
    ensures Unbroken(Run(ops).history) && EndsIn(Run(ops).history, Run(ops).status)
    ensures forall e | e in Run(ops).history :: TableEdge(e)
  {
    hide Action; hide Step; hide Table;
    if ops != [] {
      var t, op := Run(ops[..|ops| - 1]), ops[|ops| - 1].0;
      StepAdds(t, op, ops[|ops| - 1].1);
      TableRunsAreWalks(ops[..|ops| - 1]);
      UnbrokenSnoc(t.history, Entry(t.status, Goal(op), ops[|ops| - 1].1, Action(op)), t.status);
    }
  }

  /** With Await, history stays unbroken exactly when every Await met an already waiting token. */
  lemma {:induction false} UnbrokenIff(ops: seq<(Op, int)>)
    ensures Unbroken(Run(ops).history) <==> AwaitsOnlyWhileWaiting(ops)
  {
    assert Unbroken([]);
    hide Action; hide Step; hide Table; hide Unbroken;
    if ops != [] {
      var (op, now) := ops[|ops| - 1];
      var t := Run(ops[..|ops| - 1]);
      StepAdds(t, op, now);
      UnbrokenIff(ops[..|ops| - 1]);
      HistoryEntries(ops[..|ops| - 1]);
      UnbrokenSnoc(t.history, Entry(t.status, Goal(op), now, Action(op)), t.status);
      UnbrokenSnoc(t.history, Entry(Waiting, Waiting, now, Action(op)), t.status);
    }
  }

  /** A first Await on a new token is recorded as coming from waiting, which breaks the history. */
  lemma AwaitBreaksHistory(kind: string, now: int)
    ensures var t := Run([(Await(kind), now)]);
            t.history == [Entry(Waiting, Waiting, now, Action(Await(kind)))] && !Unbroken(t.history)
  {
    var ops := [(Await(kind), now)];
    assert Run(ops[..0]) == NewToken(0);
    StepAdds(NewToken(0), Await(kind), now);
    assert Run(ops).history[0].from == Waiting;
  }

  // ---------- which operation does what ----------

  /** From which statuses an operation goes through, read operation by operation. */
  predicate GoesThrough(from: Status, op: Op) {
    match op
    case Start => from in {Pending, Waiting, Failed, Suspended}
    case Resume => from in {Pending, Waiting, Failed, Suspended}
    case Trigger => from in {Pending, Waiting, Failed, Suspended}
    case Complete => from == Active
    case Fail(_) => from == Active
    case Suspend => from in {Active, Waiting}
    case Terminate => from !in {Completed, Terminated}
    case Await(_) => true
  }

  /** The status an operation leaves when it goes through. */
  predicate LeavesIn(op: Op, to: Status) {
    match op
    case Start => to == Active
    case Resume => to == Active
    case Trigger => to == Active
    case Complete => to == Completed
    case Fail(_) => to == Failed
    case Suspend => to == Suspended
    case Terminate => to == Terminated
    case Await(_) => to == Waiting
  }

  /** The table, read by columns: an operation adds one entry and leaves its status exactly from the statuses
      listed for it, and from all others changes neither status nor history nor stamp. */
  lemma StepByOperation(t: TokenState, op: Op, now: int)
    ensures var t' := Step(t, op, now);
            if GoesThrough(t.status, op)
            then LeavesIn(op, t'.status) && |t'.history| == |t.history| + 1 && t'.updatedAt == now
            else t'.(error := t.error) == t
  {}

  /** The time of the latest entry that leads into one of these statuses. */
  function LastInto(h: seq<Entry>, goals: set<Status>): Option<int> {
    if h == [] then None
    else if h[|h| - 1].to in goals then Some(h[|h| - 1].timestamp)
    else LastInto(h[..|h| - 1], goals)
  }

  lemma LastIntoSnoc(h: seq<Entry>, e: Entry, goals: set<Status>)
    ensures LastInto(h + [e], goals) == if e.to in goals then Some(e.timestamp) else LastInto(h, goals)
  {
    assert (h + [e])[..|h|] == h;
  }

  /** Over every run the stamps are what the history says: started when last made active, completed when
      last completed, failed or terminated, updated with the latest entry. */
  lemma {:induction false} StampsFollowHistory(ops: seq<(Op, int)>)
    ensures var t := Run(ops);
            && t.startedAt == LastInto(t.history, {Active})
            && t.completedAt == LastInto(t.history, {Completed, Failed, Terminated})
            && t.updatedAt == if t.history == [] then 0 else t.history[|t.history| - 1].timestamp
  {
    hide Action; hide Table; hide Step; hide LastInto;
    assert LastInto([], {Active}).None? && LastInto([], {Completed, Failed, Terminated}).None? by { NothingInto(); }
    if ops != [] {
      var t, op, now := Run(ops[..|ops| - 1]), ops[|ops| - 1].0, ops[|ops| - 1].1;
      StampsFollowHistory(ops[..|ops| - 1]);
      StepAdds(t, op, now);
      StepStamps(t, op, now);
      assert t.history + [] == t.history;
      assert Added(t, op, now) != [] ==> Added(t, op, now) == [Added(t, op, now)[0]];
      if Added(t, op, now) != [] {
        LastIntoSnoc(t.history, Added(t, op, now)[0], {Active});
        LastIntoSnoc(t.history, Added(t, op, now)[0], {Completed, Failed, Terminated});
      }
    }
  }

  lemma NothingInto()
    ensures LastInto([], {Active}).None? && LastInto([], {Completed, Failed, Terminated}).None?
  {}

  lemma StepStamps(t: TokenState, op: Op, now: int)
    ensures var t', added := Step(t, op, now), Added(t, op, now);
            && (added == [] ==> t'.startedAt == t.startedAt && t'.completedAt == t.completedAt && t'.updatedAt == t.updatedAt)
            && (added != [] ==>
                  && added[0].to == Goal(op) && added[0].timestamp == now && t'.updatedAt == now
                  && t'.startedAt == (if Goal(op) == Active then Some(now) else t.startedAt)
                  && t'.completedAt == if Goal(op) in {Completed, Failed, Terminated} then Some(now) else t.completedAt)
  {
    hide Action; hide Table;
  }

  // ---------- absorbing states ----------

  /** No table-checked operation moves a completed or terminated token, adds to its history or stamps it. */
  lemma {:induction false} CompletedIsAbsorbing(t: TokenState, ops: seq<(Op, int)>)
    requires t.status == Completed || t.status == Terminated
    requires NoAwait(ops)
    ensures StepAll(t, ops).(error := t.error) == t
  {
    if ops != [] {
      CompletedIsAbsorbing(t, ops[..|ops| - 1]);
    }
  }

  function StepAll(t: TokenState, ops: seq<(Op, int)>): TokenState {
    if ops == [] then t else Step(StepAll(t, ops[..|ops| - 1]), ops[|ops| - 1].0, ops[|ops| - 1].1)
  }

  /** History only grows, and an Await anywhere makes it grow, on every token. */
  lemma {:induction false} AwaitLeavesATrace(t: TokenState, ops: seq<(Op, int)>)
    ensures |t.history| <= |StepAll(t, ops).history|
    ensures !NoAwait(ops) ==> |t.history| < |StepAll(t, ops).history|
  {
    hide Action; hide Step; hide Table;
    if ops != [] {
      var init, last := ops[..|ops| - 1], ops[|ops| - 1];
      assert ops == init + [last];
      AwaitLeavesATrace(t, init);
      StepAdds(StepAll(t, init), last.0, last.1);
    }
  }

  /** The error of the last Fail that carried one. */
  function LastError(ops: seq<(Op, int)>): Option<string> {
    if ops == [] then None
    else
      var op := ops[|ops| - 1].0;
      if op.Fail? && op.error.Some? then op.error else LastError(ops[..|ops| - 1])
  }

  /** Every Fail with an error stores it, on every token, whether the table allows the move or not. */
  lemma {:induction false} ErrorIsLastError(t: TokenState, ops: seq<(Op, int)>)
    ensures StepAll(t, ops).error == if LastError(ops).Some? then LastError(ops) else t.error
  {
    if ops != [] {
      ErrorIsLastError(t, ops[..|ops| - 1]);
    }
  }

  /** A completed or terminated token keeps everything but its error exactly as long as nothing awaits on
      it; it keeps everything exactly if, besides, the last Fail that carried an error, if any, carried the
      error the token already has. */
  lemma AbsorbedIff(t: TokenState, ops: seq<(Op, int)>)
    requires t.status == Completed || t.status == Terminated
    ensures NoAwait(ops) <==> StepAll(t, ops).(error := t.error) == t
    ensures StepAll(t, ops) == t <==> NoAwait(ops) && (LastError(ops).None? || LastError(ops) == t.error)
  {
    AwaitLeavesATrace(t, ops);
    ErrorIsLastError(t, ops);
    if NoAwait(ops) {
      CompletedIsAbsorbing(t, ops);
    }
  }

  /** A Fail that the table refuses still leaves its error on a finished token. */
  lemma RefusedFailLeavesError(t: TokenState, error: string, now: int)
    requires t.status == Completed || t.status == Terminated
    ensures !Allowed(t.status, Goal(Fail(Some(error))))
    ensures StepAll(t, [(Fail(Some(error)), now)]) == t.(error := Some(error))
  {
    var ops := [(Fail(Some(error)), now)];
    CompletedIsAbsorbing(t, ops);
    ErrorIsLastError(t, ops);
    assert LastError(ops) == Some(error);
  }

  /** Await followed by Trigger revives any token, finished ones included. */
  lemma AwaitRevives(t: TokenState, kind: string, now: int)
    ensures Step(Step(t, Await(kind), now), Trigger, now).status == Active
  {}

  /** Exactly when no table-checked run ever moves a token: when its status counts as terminal and is not
      Failed. A failed token counts as terminal, yet it can be retried. */
  lemma AbsorbingIff(t: TokenState)
    ensures (forall ops | NoAwait(ops) :: StepAll(t, ops).status == t.status)
       <==> IsTerminal(t.status) && t.status != Failed
    ensures IsTerminal(t.status) && (exists ops | NoAwait(ops) :: StepAll(t, ops).status != t.status)
       <==> t.status == Failed
  {
    if IsTerminal(t.status) && t.status != Failed {
      forall ops | NoAwait(ops) ensures StepAll(t, ops).status == t.status {
        CompletedIsAbsorbing(t, ops);
      }
    } else {
      var ops := [(Terminate, 0)];
      assert StepAll(t, ops[..0]) == t;
      StepAdds(t, Terminate, 0);
      assert NoAwait(ops) && StepAll(t, ops).status == Terminated;
    }
  }

  // ---------- the objects ----------

  class Token {
    var status: Status
    var history: seq<Entry>
    var updatedAt: int
    var startedAt: Option<int>
    var completedAt: Option<int>
    var error: Option<string>

    function View(): TokenState
      reads this
    {
      TokenState(status, history, updatedAt, startedAt, completedAt, error)
    }

    constructor (now: int)
      ensures View() == NewToken(now)
    {
      status, history, updatedAt, startedAt, completedAt, error := Pending, [], now, None, None, None;
    }
  }

  class StateMachine {
    const transitions: map<Status, seq<Status>>

    ghost predicate Valid() { forall s :: s in transitions && transitions[s] == Table(s) }

    constructor ()
      ensures Valid()
    {
      transitions := map[
        Pending := [Active, Waiting, Terminated],
        Active := [Completed, Failed, Waiting, Suspended, Terminated],
        Waiting := [Active, Terminated, Suspended],
        Completed := [],
        Failed := [Active, Terminated],
        Terminated := [],
        Suspended := [Active, Terminated]];
      new;
      forall s ensures s in transitions && transitions[s] == Table(s) {
        match s
        case Pending =>
        case Active =>
        case Waiting =>
        case Completed =>
        case Failed =>
        case Terminated =>
        case Suspended =>
      }
    }

    method CanTransition(from: Status, to: Status) returns (r: bool)
      requires Valid()
      ensures r == Allowed(from, to)
    {
      if from !in transitions {
        return false;
      }
      var allowed := transitions[from];
      for i := 0 to |allowed|
        invariant to !in allowed[..i]
      {
        if allowed[i] == to {
          return true;
        }
      }
      return false;
    }

    method Transition(token: Token, to: Status, action: string, now: int) returns (ok: bool)
      requires Valid()
      modifies token
      ensures ok == Allowed(old(token.status), to)
      ensures token.View() == Moved(old(token.View()), to, action, now)
    {
      var from := token.status;
      var can := CanTransition(from, to);
      if !can {
        return false;
      }
      token.history := token.history + [Entry(from, to, now, action)];
      token.status := to;
      token.updatedAt := now;
      match to
      case Active => token.startedAt := Some(now); return true;
      case Completed => token.completedAt := Some(now); return true;
      case Failed => token.completedAt := Some(now); return true;
      case Terminated => token.completedAt := Some(now); return true;
      case _ => return true;
    }

    method Fail(token: Token, err: Option<string>, now: int) returns (ok: bool)
      requires Valid()
      modifies token
      ensures ok == (old(token.status) == Active)
      ensures token.View() == Step(old(token.View()), Op.Fail(err), now)
    {
      if err.Some? {
        token.error := err;
      }
      ok := Transition(token, Failed, "fail", now);
    }

    method Start(token: Token, now: int) returns (ok: bool)
      requires Valid()
      modifies token
      ensures ok == (old(token.status) in {Pending, Waiting, Failed, Suspended})
      ensures token.View() == Moved(old(token.View()), Active, "start", now)
      ensures token.View() == Step(old(token.View()), Op.Start, now)
    {
      ok := Transition(token, Active, "start", now);
    }

    method Complete(token: Token, now: int) returns (ok: bool)
      requires Valid()
      modifies token
      ensures ok == (old(token.status) == Active)
      ensures token.View() == Moved(old(token.View()), Completed, "complete", now)
      ensures token.View() == Step(old(token.View()), Op.Complete, now)
    {
      ok := Transition(token, Completed, "complete", now);
    }

    method Terminate(token: Token, now: int) returns (ok: bool)
      requires Valid()
      modifies token
      ensures ok == (old(token.status) !in {Completed, Terminated})
      ensures token.View() == Moved(old(token.View()), Terminated, "terminate", now)
      ensures token.View() == Step(old(token.View()), Op.Terminate, now)
    {
      ok := Transition(token, Terminated, "terminate", now);
    }

    method Suspend(token: Token, now: int) returns (ok: bool)
      requires Valid()
      modifies token
      ensures ok == (old(token.status) in {Active, Waiting})
      ensures token.View() == Moved(old(token.View()), Suspended, "suspend", now)
      ensures token.View() == Step(old(token.View()), Op.Suspend, now)
    {
      ok := Transition(token, Suspended, "suspend", now);
    }

    method Resume(token: Token, now: int) returns (ok: bool)
      requires Valid()
      modifies token
      ensures ok == (old(token.status) in {Pending, Waiting, Failed, Suspended})
      ensures token.View() == Moved(old(token.View()), Active, "resume", now)
      ensures token.View() == Step(old(token.View()), Op.Resume, now)
    {
      ok := Transition(token, Active, "resume", now);
    }

    method Trigger(token: Token, now: int) returns (ok: bool)
      requires Valid()
      modifies token
      ensures ok == (old(token.status) in {Pending, Waiting, Failed, Suspended})
      ensures token.View() == Moved(old(token.View()), Active, "trigger", now)
      ensures token.View() == Step(old(token.View()), Op.Trigger, now)
    {
      ok := Transition(token, Active, "trigger", now);
    }

    method Await(token: Token, awaitType: string, now: int)
      modifies token
      ensures token.View() == Step(old(token.View()), Op.Await(awaitType), now)
      ensures token.status == Waiting
      ensures token.history == old(token.history) + [Entry(Waiting, Waiting, now, "await:" + awaitType)]
    {
      token.status := Waiting;
      token.updatedAt := now;
      token.history := token.history + [Entry(token.status, Waiting, now, "await:" + awaitType)];
    }
  }
}

/** Timer jobs: a table of rows that are scheduled, cancelled and fired. Publishing always succeeds here,
    and one pass over the due rows is one step. */
module Timers {
  import opened Common

  type JobId = string

  datatype TimerType = DateTimer | DurationTimer | CycleTimer | Iso8601Timer

  datatype JobStatus = Pending | Running | Completed | Failed | Cancelled

  datatype Job = Job(instanceId: string, nodeId: string, tokenId: string, timerType: TimerType,
                     dueDate: int, repeatInterval: Option<int>, maxAttempts: nat, attemptCount: nat,
                     status: JobStatus, lastExecutedAt: Option<int>, nextExecutionAt: int, updatedAt: int)

  /** The table, its ids in insertion order, and the ids of the fired jobs, one for each command published. */
  datatype State = State(jobs: map<JobId, Job>, order: seq<JobId>, fires: seq<JobId>)

  const MAX_ATTEMPTS := 3
  const PASS_LIMIT := 100

  // ---------- the steps ----------

  function NewJob(instanceId: string, nodeId: string, tokenId: string, ty: TimerType, duration: int, now: int): Job {
    Job(instanceId, nodeId, tokenId, ty, now + duration, if ty == CycleTimer then Some(duration) else None,
        MAX_ATTEMPTS, 0, Pending, None, now + duration, now)
  }

  function Scheduled(st: State, id: JobId, job: Job): State {
    st.(jobs := st.jobs[id := job], order := st.order + [id])
  }

  function CancelStep(st: State, id: JobId, now: int): State {
    if id in st.jobs && st.jobs[id].status == Pending
    then st.(jobs := st.jobs[id := st.jobs[id].(status := Cancelled, updatedAt := now)]) else st
  }

  /** A fired row: one attempt more; due again when it repeats and has attempts left, completed otherwise.
      The table's own trigger stamps every update with the current time. */
  function Fired(job: Job, now: int): Job {
    var job := job.(attemptCount := job.attemptCount + 1, lastExecutedAt := Some(now), updatedAt := now);
    if job.repeatInterval.Some? && job.attemptCount < job.maxAttempts then
      var nextDue := now + job.repeatInterval.value;
      job.(status := Pending, dueDate := nextDue, nextExecutionAt := nextDue)
    else job.(status := Completed)
  }

  function FireStep(st: State, id: JobId, now: int): State
    requires id in st.jobs
  {
    st.(jobs := st.jobs[id := Fired(st.jobs[id], now)], fires := st.fires + [id])
  }

  /** Firing the first n rows. */
  function FireRows(st: State, rows: seq<JobId>, n: nat, now: int): (r: State)
    requires n <= |rows| && forall id | id in rows :: id in st.jobs
    ensures r.jobs.Keys == st.jobs.Keys && r.order == st.order
  {
    if n == 0 then st else FireStep(FireRows(st, rows, n - 1, now), rows[n - 1], now)
  }

  predicate Due(st: State, id: JobId, now: int) {
    id in st.jobs && st.jobs[id].status == Pending && st.jobs[id].dueDate <= now
  }

  function DueDate(st: State, id: JobId): int { if id in st.jobs then st.jobs[id].dueDate else 0 }

  /** What the due query may answer: due rows only, earliest first, at most a hundred, and no due row is
      left out for a later one. */
  ghost predicate DueQuery(st: State, rows: seq<JobId>, now: int) {
    && Distinct(rows) && |rows| <= PASS_LIMIT
    && (forall id | id in rows :: Due(st, id, now))
    && (forall i, j :: 0 <= i < j < |rows| ==> DueDate(st, rows[i]) <= DueDate(st, rows[j]))
    && (forall id | Due(st, id, now) && id !in rows ::
          |rows| == PASS_LIMIT && forall i :: 0 <= i < |rows| ==> DueDate(st, rows[i]) <= DueDate(st, id))
  }

  datatype Op = Schedule(id: JobId, job: Job) | Cancel(id: JobId) | Pass(rows: seq<JobId>)

  /** Ids are fresh, jobs are new, and a pass works on an answer of the due query. */
  ghost predicate Enabled(st: State, op: Op, now: int) {
    match op
    case Schedule(id, job) =>
      id !in st.jobs &&
      exists d :: job == NewJob(job.instanceId, job.nodeId, job.tokenId, job.timerType, d, now)
    case Cancel(id) => true
    case Pass(rows) => DueQuery(st, rows, now)
  }

  function Step(st: State, op: Op, now: int): State
    requires op.Pass? ==> forall id | id in op.rows :: id in st.jobs
  {
    match op
    case Schedule(id, job) => Scheduled(st, id, job)
    case Cancel(id) => CancelStep(st, id, now)
    case Pass(rows) => FireRows(st, rows, |rows|, now)
  }

  /** A history of calls, each enabled when it was made, leads from one table to another. */
  ghost predicate Leads(start: State, ops: seq<(Op, int)>, st: State) {
    if ops == [] then st == start
    else
      var (op, now) := ops[|ops| - 1];
      exists before :: Leads(start, ops[..|ops| - 1], before) && Enabled(before, op, now) && st == Step(before, op, now)
  }

  const EMPTY_TABLE := State(map[], [], [])

  ghost predicate Reaches(ops: seq<(Op, int)>, st: State) { Leads(EMPTY_TABLE, ops, st) }

  /** The last call of a history and the table it was made on. */
  lemma LastCall(start: State, ops: seq<(Op, int)>, st: State) returns (before: State)
    requires ops != [] && Leads(start, ops, st)
    ensures var (op, now) := ops[|ops| - 1];
            Leads(start, ops[..|ops| - 1], before) && Enabled(before, op, now) && st == Step(before, op, now)
  {
    var (op, now) := ops[|ops| - 1];
    before :| Leads(start, ops[..|ops| - 1], before) && Enabled(before, op, now) && st == Step(before, op, now);
  }

  // ---------- one pass ----------

  /** A pass fires each of its rows once and leaves every other row as it was. */
  lemma {:induction false} PassFiresEachRowOnce(st: State, rows: seq<JobId>, n: nat, now: int)
    requires n <= |rows| && Distinct(rows) && forall id | id in rows :: id in st.jobs
    ensures var st' := FireRows(st, rows, n, now);
            && (forall id | id in st.jobs :: st'.jobs[id] == if id in rows[..n] then Fired(st.jobs[id], now) else st.jobs[id])
            && st'.fires == st.fires + rows[..n]
  {
    hide Fired; hide Distinct; hide FireRows;
    FireRowsUnfold(st, rows, n, now);
    if n > 0 {
      var before, row := FireRows(st, rows, n - 1, now), rows[n - 1];
      PassFiresEachRowOnce(st, rows, n - 1, now);
      NextRow(rows, n - 1);
      assert row in rows && row in st.jobs && before.jobs[row] == st.jobs[row];
      var after := FireRows(st, rows, n, now);
      assert after == FireStep(before, row, now);
      forall id | id in st.jobs
        ensures after.jobs[id] == if id in rows[..n] then Fired(st.jobs[id], now) else st.jobs[id]
      {
        assert id in rows[..n] <==> id in rows[..n - 1] || id == row;
      }
    }
  }

  /** The rows up to the next one, which is not among those before it. */
  lemma NextRow(rows: seq<JobId>, n: nat)
    requires n < |rows| && Distinct(rows)
    ensures rows[..n + 1] == rows[..n] + [rows[n]] && rows[n] !in rows[..n]
  {}

  /** Nothing due is left behind by a pass that did not reach its limit. */
  lemma ShortPassFiresAllDue(st: State, rows: seq<JobId>, now: int, id: JobId)
    requires DueQuery(st, rows, now) && |rows| < 100
    requires id in st.jobs && st.jobs[id].status == Pending && st.jobs[id].dueDate <= now
    ensures FireRows(st, rows, |rows|, now).jobs[id] == Fired(st.jobs[id], now)
  {
    PassFiresEachRowOnce(st, rows, |rows|, now);
    assert rows[..|rows|] == rows;
  }

  // ---------- accounting ----------

  /** How often a job fires in its life: three times when it repeats, once otherwise. */
  function Allowance(job: Job): int { if job.repeatInterval.Some? then job.maxAttempts else 1 }

  /** How often it can still fire. */
  function Remaining(job: Job): int { if job.status == Pending then Allowance(job) - job.attemptCount else 0 }

  function Count(fires: seq<JobId>, n: nat, id: JobId): nat
    requires n <= |fires|
  {
    if n == 0 then 0 else Count(fires, n - 1, id) + (if fires[n - 1] == id then 1 else 0)
  }

  /** Commands published for a job. */
  function Published(st: State, id: JobId): nat { Count(st.fires, |st.fires|, id) }

  /** A row at rest: commands published equal its attempts, a pending or cancelled row has fires left, and a
      completed row has used exactly its allowance. */
  ghost predicate Accounted(st: State, id: JobId) {
    if id !in st.jobs then Published(st, id) == 0
    else
      var job := st.jobs[id];
      && Published(st, id) == job.attemptCount <= job.maxAttempts
      && job.maxAttempts == MAX_ATTEMPTS
      && (job.status == Pending || job.status == Cancelled ==> job.attemptCount < Allowance(job))
      && (job.status == Completed ==> job.attemptCount == Allowance(job))
      && job.status in {Pending, Completed, Cancelled}
  }

  lemma {:induction false} CountAppend(fires: seq<JobId>, rows: seq<JobId>, n: nat, id: JobId)
    requires n <= |rows|
    ensures Count(fires + rows, |fires| + n, id) == Count(fires, |fires|, id) + Count(rows, n, id)
  {
    if n > 0 {
      CountAppend(fires, rows, n - 1, id);
    } else {
      CountPrefix(fires, rows, |fires|, id);
    }
  }

  lemma {:induction false} CountPrefix(fires: seq<JobId>, rows: seq<JobId>, n: nat, id: JobId)
    requires n <= |fires|
    ensures Count(fires + rows, n, id) == Count(fires, n, id)
  {
    if n > 0 {
      CountPrefix(fires, rows, n - 1, id);
    }
  }

  lemma {:induction false} CountDistinct(rows: seq<JobId>, n: nat, id: JobId)
    requires n <= |rows| && Distinct(rows)
    ensures Count(rows, n, id) == if id in rows[..n] then 1 else 0
  {
    if n > 0 {
      CountDistinct(rows, n - 1, id);
      assert rows[..n] == rows[..n - 1] + [rows[n - 1]];
      assert rows[n - 1] !in rows[..n - 1];
    }
  }

  lemma StepKeepsAccount(st: State, op: Op, now: int, id: JobId)
    requires Accounted(st, id) && Enabled(st, op, now)
    ensures Accounted(Step(st, op, now), id)
  {
    match op
    case Schedule(_, _) =>
    case Cancel(_) =>
    case Pass(rows) =>
      PassCounts(st, rows, now, id);
      assert id in rows ==> Due(st, id, now);
      hide Count; hide FireRows; hide DueQuery;
  }

  /** What a pass does to one job: fire and count it once if it is among the rows, else nothing. */
  lemma PassCounts(st: State, rows: seq<JobId>, now: int, id: JobId)
    requires Distinct(rows) && forall k | k in rows :: k in st.jobs
    ensures var st' := FireRows(st, rows, |rows|, now);
            && Published(st', id) == Published(st, id) + (if id in rows then 1 else 0)
            && (id in st.jobs ==> st'.jobs[id] == if id in rows then Fired(st.jobs[id], now) else st.jobs[id])
  {
    PassFiresEachRowOnce(st, rows, |rows|, now);
    assert rows[..|rows|] == rows;
    CountAppend(st.fires, rows, |rows|, id);
    CountDistinct(rows, |rows|, id);
  }

  /** Over every run: a job's commands are its attempts, at most three; a one-shot job fires at most once;
      a completed job fired exactly as often as its kind allows. */
  lemma {:induction false} RunIsAccounted(ops: seq<(Op, int)>, st: State, id: JobId)
    requires Reaches(ops, st)
    ensures Accounted(st, id)
    ensures Published(st, id) <= if id in st.jobs && st.jobs[id].repeatInterval.Some? then 3 else 1
  {
    if ops != [] {
      var before := LastCall(EMPTY_TABLE, ops, st);
      RunIsAccounted(ops[..|ops| - 1], before, id);
      StepKeepsAccount(before, ops[|ops| - 1].0, ops[|ops| - 1].1, id);
    }
  }

  predicate Finished(st: State, id: JobId) { id in st.jobs && st.jobs[id].status in {Completed, Cancelled} }

  lemma StepKeepsFinished(st: State, op: Op, now: int, id: JobId)
    requires Enabled(st, op, now) && Finished(st, id)
    ensures id in Step(st, op, now).jobs && Step(st, op, now).jobs[id] == st.jobs[id]
    ensures Published(Step(st, op, now), id) == Published(st, id)
  {
    if op.Pass? {
      PassCounts(st, op.rows, now, id);
      assert id in op.rows ==> Due(st, id, now);
    }
  }

  /** Completed and cancelled rows never change again and never fire again, whatever calls follow. */
  lemma {:induction false} FinishedStaysFinished(st: State, ops: seq<(Op, int)>, st': State, id: JobId)
    requires Leads(st, ops, st') && Finished(st, id)
    ensures id in st'.jobs && st'.jobs[id] == st.jobs[id]
    ensures Published(st', id) == Published(st, id)
  {
    hide Published; hide Enabled;
    if ops != [] {
      var before := LastCall(st, ops, st');
      FinishedStaysFinished(st, ops[..|ops| - 1], before, id);
      StepKeepsFinished(before, ops[|ops| - 1].0, ops[|ops| - 1].1, id);
    }
  }

  /** Cancelling a pending job takes effect: whatever calls follow, it stays cancelled and is never fired. */
  lemma CancelledNeverFires(st: State, id: JobId, now: int, ops: seq<(Op, int)>, st': State)
    requires id in st.jobs && st.jobs[id].status == Pending
    requires Leads(CancelStep(st, id, now), ops, st')
    ensures id in st'.jobs && st'.jobs[id].status == Cancelled && st'.jobs[id].attemptCount == st.jobs[id].attemptCount
    ensures Published(st', id) == Published(st, id)
  {
    FinishedStaysFinished(CancelStep(st, id, now), ops, st', id);
  }

  // ---------- the interval between fires ----------

  /** A pending row that has fired before repeats, and is due one interval after it last fired. */
  ghost predicate DueInTime(job: Job) {
    job.status == Pending && job.lastExecutedAt.Some? ==>
      && job.repeatInterval.Some?
      && job.dueDate == job.lastExecutedAt.value + job.repeatInterval.value
      && job.nextExecutionAt == job.dueDate
  }

  lemma StepKeepsDueInTime(st: State, op: Op, now: int, id: JobId)
    requires (id in st.jobs ==> DueInTime(st.jobs[id])) && Enabled(st, op, now)
    ensures id in Step(st, op, now).jobs ==> DueInTime(Step(st, op, now).jobs[id])
  {
    match op
    case Schedule(_, _) =>
    case Cancel(_) =>
    case Pass(rows) =>
      PassCounts(st, rows, now, id);
      hide FireRows; hide DueQuery; hide Published;
  }

  lemma {:induction false} RunIsInTime(ops: seq<(Op, int)>, st: State, id: JobId)
    requires Reaches(ops, st) && id in st.jobs
    ensures DueInTime(st.jobs[id])
  {
    hide DueInTime; hide Enabled; hide Step;
    if ops != [] {
      var before := LastCall(EMPTY_TABLE, ops, st);
      if id in before.jobs {
        RunIsInTime(ops[..|ops| - 1], before, id);
      }
      StepKeepsDueInTime(before, ops[|ops| - 1].0, ops[|ops| - 1].1, id);
    }
  }

  /** Over every run: a job that has fired before fires again only if it repeats, and not before its
      interval has passed; then that firing is its latest. */
  lemma FiresKeepTheInterval(ops: seq<(Op, int)>, st: State, rows: seq<JobId>, now: int, id: JobId, last: int)
    requires Reaches(ops, st) && DueQuery(st, rows, now)
    requires id in rows && id in st.jobs && st.jobs[id].lastExecutedAt == Some(last)
    ensures st.jobs[id].repeatInterval.Some? && now - last >= st.jobs[id].repeatInterval.value
    ensures var job := FireRows(st, rows, |rows|, now).jobs[id];
            job.lastExecutedAt == Some(now) && job.attemptCount == st.jobs[id].attemptCount + 1
  {
    assert Due(st, id, now);
    RunIsInTime(ops, st, id);
    PassCounts(st, rows, now, id);
  }

  // ---------- sums over the table ----------

  /** The weights of the first n rows of the table. */
  function Sum(jobs: map<JobId, Job>, order: seq<JobId>, n: nat, weight: Job -> int): int
    requires n <= |order|
  {
    if n == 0 then 0
    else Sum(jobs, order, n - 1, weight) + (if order[n - 1] in jobs then weight(jobs[order[n - 1]]) else 0)
  }

  function SumOf(st: State, weight: Job -> int): int { Sum(st.jobs, st.order, |st.order|, weight) }

  /** The fires the table still has in it. */
  function TotalOf(st: State): int { SumOf(st, Remaining) }

  function Attempts(job: Job): int { job.attemptCount }

  /** The fires a cancelled row will never make. */
  function Forfeited(job: Job): int { if job.status == Cancelled then Allowance(job) - job.attemptCount else 0 }

  /** Changing one row changes the sum by that row's change; a row outside the order changes nothing. */
  lemma {:induction false} SumUpdate(jobs: map<JobId, Job>, order: seq<JobId>, n: nat, id: JobId, job: Job, weight: Job -> int)
    requires n <= |order| && Distinct(order) && (forall k | k in order :: k in jobs)
    ensures Sum(jobs[id := job], order, n, weight) ==
            Sum(jobs, order, n, weight) + (if id in order[..n] then weight(job) - weight(jobs[id]) else 0)
  {
    if n > 0 {
      SumUpdate(jobs, order, n - 1, id, job, weight);
      assert order[..n] == order[..n - 1] + [order[n - 1]];
      assert order[n - 1] !in order[..n - 1];
    }
  }

  lemma {:induction false} SumPrefix(jobs: map<JobId, Job>, order: seq<JobId>, more: seq<JobId>, n: nat, weight: Job -> int)
    requires n <= |order|
    ensures Sum(jobs, order + more, n, weight) == Sum(jobs, order, n, weight)
  {
    if n > 0 {
      SumPrefix(jobs, order, more, n - 1, weight);
    }
  }

  /** The order lists each row once. */
  ghost predicate Ordered(st: State) {
    Distinct(st.order) && forall id :: id in st.order <==> id in st.jobs
  }

  lemma OrderedKept(st: State, st': State)
    requires Ordered(st) && st'.order == st.order && st'.jobs.Keys == st.jobs.Keys
    ensures Ordered(st')
  {
    forall id ensures id in st'.order <==> id in st'.jobs {
      assert id in st'.jobs.Keys <==> id in st.jobs.Keys;
    }
  }

  lemma StepKeepsOrder(st: State, op: Op, now: int)
    requires Ordered(st) && Enabled(st, op, now)
    ensures Ordered(Step(st, op, now))
  {
    match op
    case Schedule(_, _) =>
    case Cancel(_) => OrderedKept(st, CancelStep(st, op.id, now));
    case Pass(rows) => OrderedKept(st, FireRows(st, rows, |rows|, now));
  }

  lemma {:induction false} RunIsOrdered(ops: seq<(Op, int)>, st: State)
    requires Reaches(ops, st)
    ensures Ordered(st)
  {
    if ops != [] {
      var before := LastCall(EMPTY_TABLE, ops, st);
      RunIsOrdered(ops[..|ops| - 1], before);
      StepKeepsOrder(before, ops[|ops| - 1].0, ops[|ops| - 1].1);
    }
  }

  /** Overwriting one listed row changes the sum by that row's change. */
  lemma RowChangesSum(st: State, id: JobId, job: Job, weight: Job -> int)
    requires Ordered(st) && id in st.jobs
    ensures SumOf(st.(jobs := st.jobs[id := job]), weight) == SumOf(st, weight) + weight(job) - weight(st.jobs[id])
  {
    SumUpdate(st.jobs, st.order, |st.order|, id, job, weight);
    assert st.order[..|st.order|] == st.order;
  }

  lemma ScheduleChangesSum(st: State, id: JobId, job: Job, weight: Job -> int)
    requires Ordered(st) && id !in st.jobs
    ensures SumOf(Scheduled(st, id, job), weight) == SumOf(st, weight) + weight(job)
  {
    SumPrefix(st.jobs[id := job], st.order, [id], |st.order|, weight);
    SumUpdate(st.jobs, st.order, |st.order|, id, job, weight);
  }

  /** If firing changes the weight of each of the rows by delta, then firing n of them changes the sum n times. */
  lemma {:induction false} PassChangesSum(st: State, rows: seq<JobId>, n: nat, now: int, weight: Job -> int, delta: int)
    requires Ordered(st) && n <= |rows| && Distinct(rows)
    requires forall id | id in rows :: id in st.jobs && weight(Fired(st.jobs[id], now)) == weight(st.jobs[id]) + delta
    ensures SumOf(FireRows(st, rows, n, now), weight) == SumOf(st, weight) + n * delta
  {
    hide SumOf; hide Ordered; hide Distinct; hide Fired; hide FireStep; hide FireRows;
    FireRowsUnfold(st, rows, n, now);
    if n > 0 {
      PassChangesSum(st, rows, n - 1, now, weight, delta);
      var before := FireRows(st, rows, n - 1, now);
      RowUntouched(st, rows, n - 1, now);
      OrderedKept(st, before);
      FireChangesSum(before, rows[n - 1], now, weight);
      assert n * delta == (n - 1) * delta + delta;
    }
  }

  lemma FireRowsUnfold(st: State, rows: seq<JobId>, n: nat, now: int)
    requires n <= |rows| && forall id | id in rows :: id in st.jobs
    ensures FireRows(st, rows, n, now) ==
            if n == 0 then st else FireStep(FireRows(st, rows, n - 1, now), rows[n - 1], now)
  {}

  lemma FireChangesSum(st: State, id: JobId, now: int, weight: Job -> int)
    requires Ordered(st) && id in st.jobs
    ensures SumOf(FireStep(st, id, now), weight) == SumOf(st, weight) + weight(Fired(st.jobs[id], now)) - weight(st.jobs[id])
  {
    RowChangesSum(st, id, Fired(st.jobs[id], now), weight);
  }

  /** Row n is as it was when the rows before it have been fired. */
  lemma RowUntouched(st: State, rows: seq<JobId>, n: nat, now: int)
    requires n < |rows| && Distinct(rows) && forall id | id in rows :: id in st.jobs
    ensures rows[n] in FireRows(st, rows, n, now).jobs
    ensures FireRows(st, rows, n, now).jobs[rows[n]] == st.jobs[rows[n]]
  {
    PassFiresEachRowOnce(st, rows, n, now);
    assert rows[n] !in rows[..n];
  }

  // ---------- conservation of fires ----------

  /** A pass over r rows of a reachable table lowers its total of remaining fires by exactly r, so every
      pass with due rows makes progress. */
  lemma PassLowersTotal(ops: seq<(Op, int)>, st: State, rows: seq<JobId>, now: int)
    requires Reaches(ops, st) && DueQuery(st, rows, now)
    ensures TotalOf(FireRows(st, rows, |rows|, now)) == TotalOf(st) - |rows|
  {
    RunIsOrdered(ops, st);
    forall id | id in rows
      ensures id in st.jobs && Remaining(Fired(st.jobs[id], now)) == Remaining(st.jobs[id]) - 1
    {
      RunIsAccounted(ops, st, id);
      assert Due(st, id, now);
    }
    PassChangesSum(st, rows, |rows|, now, Remaining, -1);
  }

  lemma StepCountsAttempts(st: State, op: Op, now: int)
    requires Ordered(st) && Enabled(st, op, now) && |st.fires| == SumOf(st, Attempts)
    ensures |Step(st, op, now).fires| == SumOf(Step(st, op, now), Attempts)
  {
    hide Sum; hide SumOf; hide Distinct;
    match op
    case Schedule(id, job) => ScheduleChangesSum(st, id, job, Attempts);
    case Cancel(id) =>
      if id in st.jobs {
        RowChangesSum(st, id, st.jobs[id].(status := Cancelled, updatedAt := now), Attempts);
      }
    case Pass(rows) =>
      assert forall id | id in rows :: Due(st, id, now);
      PassChangesSum(st, rows, |rows|, now, Attempts, 1);
      PassFiresEachRowOnce(st, rows, |rows|, now);
      assert rows[..|rows|] == rows;
  }

  lemma {:induction false} FiresAreAttempts(ops: seq<(Op, int)>, st: State)
    requires Reaches(ops, st)
    ensures |st.fires| == SumOf(st, Attempts)
  {
    hide SumOf;
    if ops != [] {
      var before := LastCall(EMPTY_TABLE, ops, st);
      FiresAreAttempts(ops[..|ops| - 1], before);
      RunIsOrdered(ops[..|ops| - 1], before);
      StepCountsAttempts(before, ops[|ops| - 1].0, ops[|ops| - 1].1);
    } else {
      assert SumOf(EMPTY_TABLE, Attempts) == 0 by { EmptySum(); }
    }
  }

  lemma EmptySum()
    ensures SumOf(EMPTY_TABLE, Attempts) == 0
  {}

  lemma {:induction false} SumSplits(jobs: map<JobId, Job>, order: seq<JobId>, n: nat)
    requires n <= |order|
    requires forall id | id in jobs :: Allowance(jobs[id]) == Attempts(jobs[id]) + Remaining(jobs[id]) + Forfeited(jobs[id])
    ensures Sum(jobs, order, n, Allowance) ==
            Sum(jobs, order, n, Attempts) + Sum(jobs, order, n, Remaining) + Sum(jobs, order, n, Forfeited)
  {
    hide Allowance; hide Attempts; hide Remaining; hide Forfeited;
    if n > 0 {
      SumSplits(jobs, order, n - 1);
    }
  }

  /** Conservation over every run: the fires granted to all jobs ever scheduled are the commands published,
      the fires still to come and the fires forfeited by cancelling, and nothing else. */
  lemma FiresAreConserved(ops: seq<(Op, int)>, st: State)
    requires Reaches(ops, st)
    ensures SumOf(st, Allowance) == |st.fires| + TotalOf(st) + SumOf(st, Forfeited)
  {
    forall id | id in st.jobs
      ensures Allowance(st.jobs[id]) == Attempts(st.jobs[id]) + Remaining(st.jobs[id]) + Forfeited(st.jobs[id])
    {
      RunIsAccounted(ops, st, id);
    }
    SumSplits(st.jobs, st.order, |st.order|);
    FiresAreAttempts(ops, st);
  }

  // ---------- the manager ----------

  class TimerManager {
    var jobs: map<JobId, Job>
    var order: seq<JobId>
    var fires: seq<JobId>

    /** The table as the steps above see it. */
    function View(): State
      reads this
    {
      State(jobs, order, fires)
    }

    constructor ()
      ensures View() == State(map[], [], [])
    {
      jobs, order, fires := map[], [], [];
    }

    /** id stands for a fresh UUID. */
    method ScheduleTimer(id: JobId, instanceId: string, nodeId: string, tokenId: string, ty: TimerType,
                         duration: int, now: int) returns (job: Job)
      requires id !in jobs
      modifies this
      ensures job == NewJob(instanceId, nodeId, tokenId, ty, duration, now)
      ensures job.dueDate == now + duration && job.status == Pending && job.attemptCount == 0 && job.maxAttempts == 3
      ensures job.repeatInterval == if ty == CycleTimer then Some(duration) else None
      ensures View() == Scheduled(old(View()), id, job) && Enabled(old(View()), Schedule(id, job), now)
    {
      var repeatInterval: Option<int> := None;
      var dueDate := now + duration;
      if ty == CycleTimer {
        repeatInterval := Some(duration);
      }
      job := Job(instanceId, nodeId, tokenId, ty, dueDate, repeatInterval, MAX_ATTEMPTS, 0, Pending, None, dueDate, now);
      assert job == NewJob(job.instanceId, job.nodeId, job.tokenId, job.timerType, duration, now);
      jobs := jobs[id := job];
      order := order + [id];
    }

    method CancelTimer(id: JobId, now: int)
      modifies this
      ensures View() == CancelStep(old(View()), id, now)
      ensures id in old(jobs) && old(jobs)[id].status == Pending ==> jobs[id].status == Cancelled
    {
      if id in jobs && jobs[id].status == Pending {
        jobs := jobs[id := jobs[id].(status := Cancelled, updatedAt := now)];
      }
    }

    /** rows is the database's answer to the due query. */
    method ProcessDueTimers(rows: seq<JobId>, now: int)
      requires DueQuery(View(), rows, now)
      modifies this
      ensures View() == FireRows(old(View()), rows, |rows|, now)
      ensures View() == Step(old(View()), Pass(rows), now)
    {
      for n := 0 to |rows|
        invariant View() == FireRows(old(View()), rows, n, now)
      {
        assert Due(old(View()), rows[n], now);
        ExecuteTimer(rows[n], now);
      }
    }

    method ExecuteTimer(id: JobId, now: int)
      requires id in jobs
      modifies this
      ensures View() == FireStep(old(View()), id, now)
    {
      var scanned := jobs[id];
      jobs := jobs[id := scanned.(status := Running, attemptCount := scanned.attemptCount + 1,
                                  lastExecutedAt := Some(now), updatedAt := now)];
      fires := fires + [id];
      var newAttemptCount := jobs[id].attemptCount;
      if scanned.repeatInterval.Some? && newAttemptCount < scanned.maxAttempts {
        var nextDue := now + scanned.repeatInterval.value;
        jobs := jobs[id := jobs[id].(status := Pending, dueDate := nextDue, nextExecutionAt := nextDue,
                                     updatedAt := now)];
      } else {
        jobs := jobs[id := jobs[id].(status := Completed, updatedAt := now)];
      }
    }
  }
}

/** Durable queue work: one job is run repeatedly by the scheduler, and its audit row
    records the outcome. */
module Worker {
  const MAXIMUM_TERMINAL_AUDIT_SNOOZES := 20

  /** The audit row of a queued message. */
  datatype Row = Missing | Open | Completed | Failed

  datatype HandlerResult = Succeeded | Canceled | HandlerError(retryable: bool)

  /** How the closing audit write ends: it commits, it commits but reports an error, or
      it does not commit. */
  datatype AuditWrite = Committed | Unreported | NotWritten

  /** What the environment does to one run: whether the row loads, what the handler
      returns and how the audit write ends. */
  datatype Environment = Environment(loads: bool, handler: HandlerResult, audit: AuditWrite)

  /** What a run hands back to the scheduler. */
  datatype Verdict = Done | RetryLater | Cancel | Snooze

  /** A terminal audit write that did not commit keeps the job alive. */
  function AuditTransitionError(attempt: nat, maxAttempts: nat): Verdict {
    if attempt < maxAttempts then RetryLater else Snooze
  }

  predicate StopsBeforeHandler(attempt: nat, maxAttempts: nat, snoozes: nat) {
    attempt >= maxAttempts && snoozes >= MAXIMUM_TERMINAL_AUDIT_SNOOZES
  }

  class Executor {
    var row: Row
    var invocations: nat

    constructor (row: Row)
      ensures this.row == row && invocations == 0
    {
      this.row := row;
      invocations := 0;
    }

    method Complete(audit: AuditWrite) returns (ok: bool)
      modifies this`row
      ensures ok <==> audit.Committed?
      ensures row == if audit.NotWritten? then old(row) else Completed
    {
      if !audit.NotWritten? { row := Completed; }
      return audit.Committed?;
    }

    method Fail(audit: AuditWrite) returns (ok: bool)
      modifies this`row
      ensures ok <==> audit.Committed?
      ensures row == if audit.NotWritten? then old(row) else Failed
    {
      if !audit.NotWritten? { row := Failed; }
      return audit.Committed?;
    }

    /** Loads the row, invokes its handler and records the outcome. */
    method Execute(attempt: nat, maxAttempts: nat, snoozes: nat, env: Environment) returns (v: Verdict)
      modifies this
      ensures (v, row, invocations) == Executed(old(row), old(invocations), attempt, maxAttempts, snoozes, env)
      ensures Handles(old(row), attempt, maxAttempts, snoozes, env) && env.audit.Committed? ==>
                && (env.handler == HandlerError(false) ==> v == Cancel && row == Failed)
                && (env.handler == HandlerError(true) ==>
                      v == RetryLater && row == if attempt < maxAttempts then Open else Failed)
                && (env.handler == Succeeded ==> v == Done && row == Completed)
    {
      if !env.loads {
        return RetryLater;
      }
      if row.Missing? {
        return Cancel;
      }
      if row.Completed? || row.Failed? {
        return Done;
      }
      if attempt >= maxAttempts && snoozes >= MAXIMUM_TERMINAL_AUDIT_SNOOZES {
        return RetryLater;
      }
      invocations := invocations + 1;
      if env.handler.Succeeded? {
        var ok := Complete(env.audit);
        if !ok {
          return AuditTransitionError(attempt, maxAttempts);
        }
        return Done;
      }
      if env.handler.Canceled? {
        return RetryLater;
      }
      if env.handler.retryable && attempt < maxAttempts {
        return RetryLater;
      }
      var ok := Fail(env.audit);
      if !ok {
        return AuditTransitionError(attempt, maxAttempts);
      }
      if env.handler.retryable {
        return RetryLater;
      }
      return Cancel;
    }
  }

  /** One run: its verdict, the row and the handler invocations after it. */
  function Executed(row: Row, invocations: nat, attempt: nat, maxAttempts: nat, snoozes: nat,
                    env: Environment): (Verdict, Row, nat) {
    if !env.loads then (RetryLater, row, invocations)
    else if row.Missing? then (Cancel, row, invocations)
    else if row.Completed? || row.Failed? then (Done, row, invocations)
    else if StopsBeforeHandler(attempt, maxAttempts, snoozes) then (RetryLater, row, invocations)
    else
      var (verdict, closed) := Closed(attempt, maxAttempts, env.handler);
      if closed.Open? then (verdict, Open, invocations + 1)
      else if env.audit.Committed? then (verdict, closed, invocations + 1)
      else (AuditTransitionError(attempt, maxAttempts), if env.audit.Unreported? then closed else Open, invocations + 1)
  }

  /** How the handler's result ends the run, and the row it records (Open: none). */
  function Closed(attempt: nat, maxAttempts: nat, handler: HandlerResult): (Verdict, Row) {
    match handler
    case Succeeded => (Done, Completed)
    case Canceled => (RetryLater, Open)
    case HandlerError(retryable) =>
      if retryable && attempt < maxAttempts then (RetryLater, Open)
      else (if retryable then RetryLater else Cancel, Failed)
  }

  /** The run reaches its handler: the row loads and is open, and snoozes are left. */
  predicate Handles(row: Row, attempt: nat, maxAttempts: nat, snoozes: nat, env: Environment) {
    env.loads && row.Open? && (attempt < maxAttempts || snoozes < 20)
  }

  /** What a run that reaches its handler leaves: a success completes the row; a permanent
      error fails it at every attempt, a retryable one on the last; a canceled handler and
      an early retryable error leave it open; and a closing write that reports an error is
      tried again, later or on the same last attempt. */
  lemma HandledRuns(invocations: nat, attempt: nat, maxAttempts: nat, snoozes: nat, env: Environment)
    requires Handles(Open, attempt, maxAttempts, snoozes, env)
    ensures var (v, row, calls) := Executed(Open, invocations, attempt, maxAttempts, snoozes, env);
            var last := attempt >= maxAttempts;
            && calls == invocations + 1
            && (env.handler == Canceled ==> v == RetryLater && row == Open)
            && (env.handler == HandlerError(true) && !last ==> v == RetryLater && row == Open)
            && (env.handler == Succeeded && !env.audit.NotWritten? ==> row == Completed)
            && (env.handler == HandlerError(false) && !env.audit.NotWritten? ==> row == Failed)
            && (env.handler == HandlerError(true) && last && !env.audit.NotWritten? ==> row == Failed)
            && (env.audit.NotWritten? ==> row == Open)
            && (env.audit.Committed? ==>
                  && (env.handler == Succeeded ==> v == Done)
                  && (env.handler == HandlerError(false) ==> v == Cancel)
                  && (env.handler == HandlerError(true) ==> v == RetryLater))
            && (!env.audit.Committed? && (env.handler == Succeeded || env.handler == HandlerError(false)) ==>
                  v == if last then Snooze else RetryLater)
            && (!env.audit.Committed? && env.handler == HandlerError(true) && last ==> v == Snooze)
  {
  }

  /** A run that does not reach its handler changes nothing: the row was missing, was
      terminal, did not load, or had no snooze left. */
  lemma UnhandledRuns(row: Row, invocations: nat, attempt: nat, maxAttempts: nat, snoozes: nat, env: Environment)
    requires !Handles(row, attempt, maxAttempts, snoozes, env)
    ensures Executed(row, invocations, attempt, maxAttempts, snoozes, env)
         == (if !env.loads || row.Open? then RetryLater else if row.Missing? then Cancel else Done, row, invocations)
  {
  }

  // ----------------------------------------------------------- whole jobs

  /** A job as the scheduler keeps it. `over` jobs are never run again. */
  datatype Job = Job(maxAttempts: nat, attempt: nat, snoozes: nat, over: bool, row: Row, invocations: nat)

  function NewJob(maxAttempts: nat, row: Row): Job {
    Job(maxAttempts, 1, 0, false, row, 0)
  }

  /** A run can also die after calling the handler; the scheduler then counts it as a
      failed attempt. */
  datatype Event = Run(env: Environment) | Dies(afterHandler: bool)

  /** The scheduler's rules: an error is retried until the last attempt, a snooze reruns
      the attempt and counts itself, anything else ends the job. */
  function Scheduled(j: Job, v: Verdict): Job {
    match v
    case Done => j.(over := true)
    case Cancel => j.(over := true)
    case RetryLater => if j.attempt < j.maxAttempts then j.(attempt := j.attempt + 1) else j.(over := true)
    case Snooze => j.(snoozes := j.snoozes + 1)
  }

  function Step(j: Job, e: Event): Job {
    if j.over then j
    else
      match e
      case Run(env) =>
        var (v, row, invocations) := Executed(j.row, j.invocations, j.attempt, j.maxAttempts, j.snoozes, env);
        Scheduled(j.(row := row, invocations := invocations), v)
      case Dies(afterHandler) =>
        var called := afterHandler && j.row.Open? && !StopsBeforeHandler(j.attempt, j.maxAttempts, j.snoozes);
        Scheduled(j.(invocations := if called then j.invocations + 1 else j.invocations), RetryLater)
  }

  function After(j: Job, events: seq<Event>): Job {
    if events == [] then j else Step(After(j, events[..|events| - 1]), events[|events| - 1])
  }

  /** What is left of the budget of handler calls. */
  function Budget(j: Job): int {
    if j.over then 0 else j.maxAttempts - j.attempt + (MAXIMUM_TERMINAL_AUDIT_SNOOZES - j.snoozes)
  }

  ghost predicate Inv(j: Job) {
    && 1 <= j.attempt <= j.maxAttempts
    && j.snoozes <= MAXIMUM_TERMINAL_AUDIT_SNOOZES
    && (j.snoozes > 0 ==> j.attempt == j.maxAttempts)
    && j.invocations + Budget(j) <= j.maxAttempts - 1 + MAXIMUM_TERMINAL_AUDIT_SNOOZES
  }

  lemma StepKeepsInv(j: Job, e: Event)
    requires Inv(j)
    ensures Inv(Step(j, e)) && Step(j, e).maxAttempts == j.maxAttempts
  {
  }

  /** However often it is run, a job calls its handler at most once per early attempt and
      twenty times on the last one. */
  lemma {:induction false} HandlerCallsAreBounded(maxAttempts: nat, row: Row, events: seq<Event>)
    requires maxAttempts >= 1
    ensures var j := After(NewJob(maxAttempts, row), events);
            && Inv(j) && j.maxAttempts == maxAttempts
            && j.invocations <= maxAttempts - 1 + MAXIMUM_TERMINAL_AUDIT_SNOOZES
  {
    if events != [] {
      HandlerCallsAreBounded(maxAttempts, row, events[..|events| - 1]);
      StepKeepsInv(After(NewJob(maxAttempts, row), events[..|events| - 1]), events[|events| - 1]);
    }
  }

  /** The worst case: retryable failures, then audit writes that never commit. */
  function WorstCase(maxAttempts: nat, n: nat): seq<Event> {
    if n == 0 then []
    else WorstCase(maxAttempts, n - 1) + [if n < maxAttempts then RETRYABLE_FAILURE else LOST_AUDIT_WRITE]
  }

  const RETRYABLE_FAILURE := Run(Environment(true, HandlerError(true), NotWritten))
  const LOST_AUDIT_WRITE := Run(Environment(true, Succeeded, NotWritten))

  /** A retryable failure of an early attempt costs one call and moves to the next. */
  lemma EarlyAttempt(j: Job)
    requires !j.over && j.row.Open? && j.attempt < j.maxAttempts
    ensures Step(j, RETRYABLE_FAILURE) == j.(attempt := j.attempt + 1, invocations := j.invocations + 1)
  {
  }

  /** A success whose audit write is lost on the last attempt costs one call and a snooze. */
  lemma LastAttempt(j: Job)
    requires !j.over && j.row.Open? && j.attempt == j.maxAttempts && j.snoozes < MAXIMUM_TERMINAL_AUDIT_SNOOZES
    ensures Step(j, LOST_AUDIT_WRITE) == j.(snoozes := j.snoozes + 1, invocations := j.invocations + 1)
  {
  }

  /** The job after `n` steps of the worst case. */
  function WorstJob(maxAttempts: nat, n: nat): Job
    requires maxAttempts >= 1
  {
    if n < maxAttempts then Job(maxAttempts, n + 1, 0, false, Open, n)
    else Job(maxAttempts, maxAttempts, n - maxAttempts + 1, false, Open, n)
  }

  lemma {:induction false} WorstCaseReaches(maxAttempts: nat, n: nat)
    requires 1 <= maxAttempts && n <= maxAttempts - 1 + MAXIMUM_TERMINAL_AUDIT_SNOOZES
    ensures After(NewJob(maxAttempts, Open), WorstCase(maxAttempts, n)) == WorstJob(maxAttempts, n)
  {
    if n > 0 {
      WorstCaseReaches(maxAttempts, n - 1);
      var events := WorstCase(maxAttempts, n);
      assert events[..|events| - 1] == WorstCase(maxAttempts, n - 1);
      hide Step;
      if n < maxAttempts {
        EarlyAttempt(WorstJob(maxAttempts, n - 1));
      } else {
        LastAttempt(WorstJob(maxAttempts, n - 1));
      }
    }
  }

  /** The bound is tight, for every number of attempts. */
  lemma BoundIsTight(maxAttempts: nat) returns (events: seq<Event>)
    requires maxAttempts >= 1
    ensures After(NewJob(maxAttempts, Open), events).invocations == maxAttempts - 1 + MAXIMUM_TERMINAL_AUDIT_SNOOZES
  {
    events := WorstCase(maxAttempts, maxAttempts - 1 + MAXIMUM_TERMINAL_AUDIT_SNOOZES);
    WorstCaseReaches(maxAttempts, maxAttempts - 1 + MAXIMUM_TERMINAL_AUDIT_SNOOZES);
  }

  predicate Terminal(row: Row) {
    row.Completed? || row.Failed?
  }

  /** Once the row is terminal it stays as it is and the handler is never called again. */
  lemma {:induction false} NoCallsAfterTerminal(j: Job, events: seq<Event>)
    requires Terminal(j.row)
    ensures After(j, events).row == j.row && After(j, events).invocations == j.invocations
  {
    if events != [] {
      NoCallsAfterTerminal(j, events[..|events| - 1]);
    }
  }

  /** A run that the scheduler takes for done or cancelled leaves a terminal row, unless
      the row never existed. A run is snoozed exactly when it is the last attempt, it was
      not stopped before its handler, and its audit write reported an error. */
  lemma EndedRunsAreRecorded(j: Job, env: Environment)
    ensures var (v, row, _) := Executed(j.row, j.invocations, j.attempt, j.maxAttempts, j.snoozes, env);
            && (v.Done? ==> Terminal(row))
            && (v.Cancel? ==> row.Failed? || row.Missing?)
            && (v.Snooze? <==> env.loads && j.row.Open? && j.attempt >= j.maxAttempts
                               && j.snoozes < MAXIMUM_TERMINAL_AUDIT_SNOOZES && !env.handler.Canceled?
                               && !env.audit.Committed?)
  {
  }

  /** Some run of the list called the handler with the result that the row records: a
      success, or an error that was permanent or met the last attempt. */
  ghost predicate Explains(j: Job, events: seq<Event>, row: Row) {
    exists i | 0 <= i < |events| && events[i].Run? ::
      var before, env := After(j, events[..i]), events[i].env;
      && before.row.Open? && !before.over && env.loads && !env.audit.NotWritten?
      && (row.Completed? ==> env.handler.Succeeded?)
      && (row.Failed? ==> env.handler.HandlerError? && (!env.handler.retryable || before.attempt >= before.maxAttempts))
  }

  lemma StepExplains(j: Job, e: Event)
    requires j.row.Open? && Terminal(Step(j, e).row)
    ensures e.Run? && !j.over && e.env.loads && !e.env.audit.NotWritten?
    ensures Step(j, e).row.Completed? ==> e.env.handler.Succeeded?
    ensures Step(j, e).row.Failed? ==>
              e.env.handler.HandlerError? && (!e.env.handler.retryable || j.attempt >= j.maxAttempts)
  {
  }

  lemma StepKeepsRow(j: Job, e: Event)
    ensures Step(j, e).row != j.row ==> j.row.Open? && Terminal(Step(j, e).row)
  {
  }

  lemma MoreEventsExplain(j: Job, events: seq<Event>, e: Event, row: Row)
    requires Explains(j, events, row)
    ensures Explains(j, events + [e], row)
  {
    var i :| 0 <= i < |events| && events[i].Run?
             && var before, env := After(j, events[..i]), events[i].env;
                && before.row.Open? && !before.over && env.loads && !env.audit.NotWritten?
                && (row.Completed? ==> env.handler.Succeeded?)
                && (row.Failed? ==>
                      env.handler.HandlerError? && (!env.handler.retryable || before.attempt >= before.maxAttempts));
    hide After;
    assert (events + [e])[i] == events[i] && (events + [e])[..i] == events[..i];
  }

  /** Over every run of a job whose row was open, a terminal row is explained: some run's
      handler succeeded, or failed for good, and its audit write committed. */
  lemma {:induction false} OutcomesHappened(j: Job, events: seq<Event>)
    requires j.row.Open?
    ensures After(j, events).row.Open? || (Terminal(After(j, events).row) && Explains(j, events, After(j, events).row))
  {
    if events != [] {
      var front, last := events[..|events| - 1], events[|events| - 1];
      OutcomesHappened(j, front);
      var before, after := After(j, front), After(j, events);
      assert events == front + [last];
      hide Step;
      StepKeepsRow(before, last);
      if Terminal(before.row) {
        MoreEventsExplain(j, front, last, before.row);
      } else if Terminal(after.row) {
        StepExplains(before, last);
        assert events[..|front|] == front && events[|front|] == last;
      }
    }
  }

  /** What ends an open job without a terminal row: its last attempt dies, cannot load the
      row, has no snooze left, or is canceled. */
  predicate Abandons(j: Job, e: Event) {
    && !j.over && j.row.Open? && j.attempt >= j.maxAttempts
    && match e
       case Dies(_) => true
       case Run(env) => !env.loads || j.snoozes >= MAXIMUM_TERMINAL_AUDIT_SNOOZES || env.handler.Canceled?
  }

  predicate Abandoned(j: Job) {
    j.over && j.row.Open?
  }

  lemma StepAbandons(j: Job, e: Event)
    ensures Abandoned(Step(j, e)) <==> Abandoned(j) || Abandons(j, e)
  {
    if e.Run? {
      EndedRunsAreRecorded(j, e.env);
    }
  }

  ghost predicate WasAbandoned(j: Job, events: seq<Event>) {
    exists i | 0 <= i < |events| :: Abandons(After(j, events[..i]), events[i])
  }

  /** A job ends with an open row exactly when its last attempt was abandoned. */
  lemma {:induction false} OpenJobsWereAbandoned(j: Job, events: seq<Event>)
    requires !j.over
    ensures Abandoned(After(j, events)) <==> WasAbandoned(j, events)
  {
    hide Abandons, Abandoned, Step;
    if events == [] {
      NotAbandonedYet(j);
    } else {
      var front, last := events[..|events| - 1], events[|events| - 1];
      OpenJobsWereAbandoned(j, front);
      StepAbandons(After(j, front), last);
      assert forall i | 0 <= i < |front| :: events[..i] == front[..i] && events[i] == front[i];
      assert events[..|front|] == front;
    }
  }

  lemma NotAbandonedYet(j: Job)
    requires !j.over
    ensures !Abandoned(j)
  {
  }

  /** After a run whose handler failed for good, and whose closing write committed, the job
      is over: its row stays failed and the handler is not called again. */
  lemma PermanentErrorsEndTheJob(j: Job, events: seq<Event>, i: nat)
    requires i < |events| && events[i].Run? && events[i].env.handler == HandlerError(false)
    requires events[i].env.audit.Committed?
    requires var before := After(j, events[..i]);
             !before.over && Handles(before.row, before.attempt, before.maxAttempts, before.snoozes, events[i].env)
    ensures After(j, events).row == Failed && After(j, events).over
    ensures After(j, events).invocations == After(j, events[..i]).invocations + 1
  {
    var before, env := After(j, events[..i]), events[i].env;
    HandledRuns(before.invocations, before.attempt, before.maxAttempts, before.snoozes, env);
    assert events[..i + 1][..i] == events[..i];
    OverStaysOver(j, events, i + 1);
  }

  lemma {:induction false} OverStaysOver(j: Job, events: seq<Event>, n: nat)
    requires n <= |events| && After(j, events[..n]).over
    ensures After(j, events) == After(j, events[..n])
    decreases |events|
  {
    if n == |events| {
      assert events[..n] == events;
    } else {
      assert events[..|events| - 1][..n] == events[..n];
      OverStaysOver(j, events[..|events| - 1], n);
    }
  }
}

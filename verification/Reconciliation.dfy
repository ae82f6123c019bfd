/** Daily reconciliation of a purchase lineage: the next generation is saved before the
    provider is called, and retired only when the lineage has ended. */
module Reconciliation {
  import opened Text

  /** Seconds in the reconciliation interval. Times are seconds since the zero time, so
      its multiples are the UTC day boundaries. */
  const INTERVAL := 86400

  /** Go's Truncate and Add for a multiple of the interval. */
  function NextReconciliationTime(now: int): int {
    now - now % INTERVAL + INTERVAL
  }

  predicate SameDay(a: int, b: int) {
    a / INTERVAL == b / INTERVAL
  }

  /** The next time is the first day boundary after now. */
  lemma NextIsTheNextBoundary(now: int)
    ensures now < NextReconciliationTime(now) <= now + 86400
    ensures NextReconciliationTime(now) % 86400 == 0
    ensures forall t | t % 86400 == 0 && t > now :: t >= NextReconciliationTime(now)
  {
    assert NextReconciliationTime(now) == (now / INTERVAL + 1) * INTERVAL;
    forall t | t % INTERVAL == 0 && t > now ensures t >= NextReconciliationTime(now) {
      assert t == t / INTERVAL * INTERVAL;
    }
  }

  /** Times share a generation exactly when they are on one UTC day. */
  lemma OneGenerationPerDay(a: int, b: int)
    ensures NextReconciliationTime(a) == NextReconciliationTime(b) <==> SameDay(a, b)
  {
    assert NextReconciliationTime(a) == (a / INTERVAL + 1) * INTERVAL;
    assert NextReconciliationTime(b) == (b / INTERVAL + 1) * INTERVAL;
  }

  // ------------------------------------------------------------ lineage end

  datatype Lifecycle = Expired | OtherState
  datatype PurchaseAccess = Denied | OtherAccess
  datatype Renewal = RenewalDisabled | NotApplicable | OtherRenewal

  datatype Observation = Observation(state: Lifecycle, access: PurchaseAccess, renewal: Renewal)

  predicate Ended(o: Observation) {
    o.state == Expired && o.access == Denied && (o.renewal == RenewalDisabled || o.renewal == NotApplicable)
  }

  predicate LineageIsOver(observations: seq<Observation>) {
    observations != [] && forall o | o in observations :: Ended(o)
  }

  /** Every line item is expired and denied, with no renewal still possible. */
  method LineageEnded(observations: seq<Observation>) returns (r: bool)
    ensures r <==> LineageIsOver(observations)
    ensures r <==> observations != []
                   && forall i | 0 <= i < |observations| ::
                        && observations[i].state.Expired? && observations[i].access.Denied?
                        && (observations[i].renewal.RenewalDisabled? || observations[i].renewal.NotApplicable?)
  {
    if |observations| == 0 {
      return false;
    }
    for i := 0 to |observations|
      invariant forall j | 0 <= j < i :: Ended(observations[j])
    {
      var o := observations[i];
      assert o in observations;
      if o.state != Expired || o.access != Denied {
        return false;
      }
      if o.renewal != RenewalDisabled && o.renewal != NotApplicable {
        return false;
      }
    }
    return true;
  }

  // ---------------------------------------------------------------- handler

  /** A job's identity is derived from the protected request, which holds the
      verification and the boundary it is scheduled for. */
  datatype JobId = Reconcile(verification: string, scheduledFor: int)

  datatype JobRow = JobRow(availableAt: int, completed: bool)

  type Jobs = map<JobId, JobRow>

  /** One handling of a due job. A saved handling holds the next generation and the time
      it was computed at. */
  datatype Phase =
    | Opened
    | Saved(next: JobId, savedAt: int)
    | Calling(next: JobId, savedAt: int)
    | LineageOver(next: JobId)
    | Finished(success: bool)
    | Lost

  datatype Handling = Handling(verification: string, phase: Phase)

  /** One provider call, the generation saved for it and when that was computed. */
  datatype Call = Call(time: int, verification: string, next: JobId, savedAt: int)

  /** `ended` lists the lineages some answer has reported over. */
  datatype State = State(
    clock: int, jobs: Jobs, handlings: map<nat, Handling>, calls: seq<Call>, ended: seq<string>)

  /** Time passes, a verification schedules its first generation, a handling takes one
      step, the worker records a due job, or the process dies. A save may commit although
      it reports an error. */
  datatype Action =
    | Wait(seconds: nat)
    | Start(verification: string)
    | Open(n: nat, id: JobId, succeeds: bool)
    | Save(n: nat, commits: bool, succeeds: bool)
    | CallProvider(n: nat)
    | Answer(n: nat, answer: Option<seq<Observation>>)
    | Retire(n: nat, commits: bool)
    | Record(id: JobId)
    | Crash

  function NextId(verification: string, now: int): JobId {
    Reconcile(verification, NextReconciliationTime(now))
  }

  /** Saving an existing generation returns it unchanged. */
  function WithJob(jobs: Jobs, id: JobId): Jobs {
    if id in jobs then jobs else jobs[id := JobRow(id.scheduledFor, false)]
  }

  function WithoutJob(jobs: Jobs, id: JobId): Jobs {
    if id in jobs then jobs[id := jobs[id].(completed := true)] else jobs
  }

  predicate Due(s: State, id: JobId) {
    id in s.jobs && !s.jobs[id].completed && s.jobs[id].availableAt <= s.clock
  }

  predicate At(s: State, n: nat) {
    n in s.handlings
  }

  function SetPhase(s: State, n: nat, phase: Phase): State
    requires n in s.handlings
  {
    s.(handlings := s.handlings[n := s.handlings[n].(phase := phase)])
  }

  function LosePhase(phase: Phase): Phase {
    if phase.Finished? then phase else Lost
  }

  function AnswerPhase(phase: Phase, answer: Option<seq<Observation>>): Phase
    requires phase.Calling?
  {
    if answer.None? then Finished(false)
    else if LineageIsOver(answer.value) then LineageOver(phase.next)
    else Finished(true)
  }

  /** Steps that are not enabled leave the state as it is. */
  function Next(s: State, a: Action): State {
    match a
    case Wait(seconds) => s.(clock := s.clock + seconds)
    case Start(verification) => s.(jobs := WithJob(s.jobs, NextId(verification, s.clock)))
    case Open(n, id, succeeds) =>
      if n in s.handlings || !Due(s, id) then s
      else
        s.(handlings := s.handlings[n := Handling(id.verification, if succeeds then Opened else Finished(false))])
    case Save(n, commits, succeeds) =>
      if n !in s.handlings || !s.handlings[n].phase.Opened? then s
      else
        var next := NextId(s.handlings[n].verification, s.clock);
        var saved := if commits || succeeds then s.(jobs := WithJob(s.jobs, next)) else s;
        SetPhase(saved, n, if succeeds then Saved(next, s.clock) else Finished(false))
    case CallProvider(n) =>
      if n !in s.handlings || !s.handlings[n].phase.Saved? then s
      else
        var h := s.handlings[n];
        var call := Call(s.clock, h.verification, h.phase.next, h.phase.savedAt);
        SetPhase(s.(calls := s.calls + [call]), n, Calling(h.phase.next, h.phase.savedAt))
    case Answer(n, answer) =>
      if n !in s.handlings || !s.handlings[n].phase.Calling? then s
      else
        var h := s.handlings[n];
        var heard := if answer.Some? && LineageIsOver(answer.value) then s.(ended := s.ended + [h.verification]) else s;
        SetPhase(heard, n, AnswerPhase(h.phase, answer))
    case Retire(n, commits) =>
      if n !in s.handlings || !s.handlings[n].phase.LineageOver? then s
      else
        var next := s.handlings[n].phase.next;
        SetPhase(if commits then s.(jobs := WithoutJob(s.jobs, next)) else s, n, Finished(true))
    case Record(id) =>
      if Due(s, id) then s.(jobs := WithoutJob(s.jobs, id)) else s
    case Crash =>
      s.(handlings := map n | n in s.handlings :: s.handlings[n].(phase := LosePhase(s.handlings[n].phase)))
  }

  function Run(s: State, actions: seq<Action>): State {
    if actions == [] then s else Next(Run(s, actions[..|actions| - 1]), actions[|actions| - 1])
  }

  /** What one uninterrupted handling meets. */
  datatype Meets = Meets(opens: bool, saves: bool, answer: Option<seq<Observation>>, retires: bool)

  /** The steps of one uninterrupted handling, as the handler takes them. */
  function Steps(id: JobId, meets: Meets): seq<Action> {
    [Open(0, id, meets.opens), Save(0, false, meets.saves), CallProvider(0), Answer(0, meets.answer), Retire(0, meets.retires)]
  }

  class ReconciliationService {
    var jobs: Jobs
    ghost var calls: seq<Call>

    constructor ()
      ensures jobs == map[] && calls == []
    {
      jobs, calls := map[], [];
    }

    method ScheduleNext(verification: string, now: int, saves: bool) returns (id: Option<JobId>)
      modifies this`jobs
      ensures id == if saves then Some(NextId(verification, now)) else None
      ensures jobs == if saves then WithJob(old(jobs), NextId(verification, now)) else old(jobs)
    {
      var availableAt := NextReconciliationTime(now);
      if !saves {
        return None;
      }
      var jobId := Reconcile(verification, availableAt);
      if jobId !in jobs {
        jobs := jobs[jobId := JobRow(availableAt, false)];
      }
      return Some(jobId);
    }

    method RetireJob(id: JobId, commits: bool)
      modifies this`jobs
      ensures jobs == if commits then WithoutJob(old(jobs), id) else old(jobs)
    {
      if commits && id in jobs {
        jobs := jobs[id := jobs[id].(completed := true)];
      }
    }

    /** The provider call. */
    method Verify(verification: string, now: int, ghost next: JobId, answer: Option<seq<Observation>>)
      returns (r: Option<seq<Observation>>)
      modifies this`calls
      ensures r == answer && calls == old(calls) + [Call(now, verification, next, now)]
    {
      calls := calls + [Call(now, verification, next, now)];
      return answer;
    }

    /** Handles one due job without interruption: the five steps in their order. */
    method HandleReconciliation(id: JobId, now: int, meets: Meets) returns (success: bool)
      requires Due(State(now, jobs, map[], [], []), id)
      modifies this
      ensures var t := Run(State(now, old(jobs), map[], old(calls), []), Steps(id, meets));
              && t.jobs == jobs && t.calls == calls
              && At(t, 0) && t.handlings[0].phase == Finished(success)
      ensures success <==> meets.opens && meets.saves && meets.answer.Some?
      ensures var next := Reconcile(id.verification, NextReconciliationTime(now));
              var called := meets.opens && meets.saves;
              var retired := called && meets.answer.Some? && LineageIsOver(meets.answer.value) && meets.retires;
              && calls == old(calls) + (if called then [Call(now, id.verification, next, now)] else [])
              && (jobs.Keys == if called then old(jobs.Keys) + {next} else old(jobs.Keys))
              && (called && next !in old(jobs) ==> jobs[next] == JobRow(NextReconciliationTime(now), retired))
              && (called && next in old(jobs) ==>
                    jobs[next] == old(jobs)[next].(completed := retired || old(jobs)[next].completed))
              && (forall other | other in old(jobs) && other != next :: jobs[other] == old(jobs)[other])
              && (!called ==> jobs == old(jobs))
    {
      UninterruptedRun(jobs, calls, id, now, meets);
      hide LineageIsOver, NextReconciliationTime, Run, Steps;
      if !meets.opens {
        return false;
      }
      var next := ScheduleNext(id.verification, now, meets.saves);
      if next.None? {
        return false;
      }
      var result := Verify(id.verification, now, next.value, meets.answer);
      if result.None? {
        return false;
      }
      var ended := LineageEnded(result.value);
      if !ended {
        return true;
      }
      RetireJob(next.value, meets.retires);
      return true;
    }
  }

  lemma FiveSteps(s: State, a: Action, b: Action, c: Action, d: Action, e: Action)
    ensures Run(s, [a, b, c, d, e]) == Next(Next(Next(Next(Next(s, a), b), c), d), e)
  {
    hide Next;
    assert [a][..0] == [] && Run(s, [a]) == Next(s, a);
    assert [a, b][..1] == [a] && Run(s, [a, b]) == Next(Next(s, a), b);
    assert [a, b, c][..2] == [a, b] && Run(s, [a, b, c]) == Next(Next(Next(s, a), b), c);
    assert [a, b, c, d][..3] == [a, b, c] && Run(s, [a, b, c, d]) == Next(Next(Next(Next(s, a), b), c), d);
    assert [a, b, c, d, e][..4] == [a, b, c, d];
  }

  /** The jobs, calls and outcome of one uninterrupted handling. */
  function Uninterrupted(jobs: Jobs, calls: seq<Call>, id: JobId, now: int, meets: Meets): (Jobs, seq<Call>, bool) {
    if !meets.opens || !meets.saves then (jobs, calls, false)
    else
      var next := NextId(id.verification, now);
      var saved, called := WithJob(jobs, next), calls + [Call(now, id.verification, next, now)];
      if meets.answer.None? then (saved, called, false)
      else if LineageIsOver(meets.answer.value) && meets.retires then (WithoutJob(saved, next), called, true)
      else (saved, called, true)
  }

  /** A state whose only handling is number zero. */
  function One(now: int, jobs: Jobs, calls: seq<Call>, ended: seq<string>, h: Handling): State {
    State(now, jobs, map[0 := h], calls, ended)
  }

  lemma SetOne(now: int, jobs: Jobs, calls: seq<Call>, ended: seq<string>, h: Handling, phase: Phase)
    ensures SetPhase(One(now, jobs, calls, ended, h), 0, phase) == One(now, jobs, calls, ended, h.(phase := phase))
  {
    assert map[0 := h][0 := h.(phase := phase)] == map[0 := h.(phase := phase)];
  }

  lemma FinishedStays(s: State, success: bool, saves: bool, answer: Option<seq<Observation>>, retires: bool)
    requires At(s, 0) && s.handlings[0].phase == Finished(success)
    ensures Next(s, Save(0, false, saves)) == s && Next(s, CallProvider(0)) == s
    ensures Next(s, Answer(0, answer)) == s && Next(s, Retire(0, retires)) == s
  {
  }

  lemma UninterruptedRun(jobs: Jobs, calls: seq<Call>, id: JobId, now: int, meets: Meets)
    requires Due(State(now, jobs, map[], [], []), id)
    ensures var t := Run(State(now, jobs, map[], calls, []), Steps(id, meets));
            var (js, cs, success) := Uninterrupted(jobs, calls, id, now, meets);
            t.jobs == js && t.calls == cs && At(t, 0) && t.handlings[0].phase == Finished(success)
  {
    hide LineageIsOver, NextReconciliationTime;
    var s, v := State(now, jobs, map[], calls, []), id.verification;
    FiveSteps(s, Open(0, id, meets.opens), Save(0, false, meets.saves),
              CallProvider(0), Answer(0, meets.answer), Retire(0, meets.retires));
    var begun := Next(s, Open(0, id, meets.opens));
    assert begun == One(now, jobs, calls, [], Handling(v, if meets.opens then Opened else Finished(false)));
    if !meets.opens {
      hide Next;
      FinishedStays(begun, false, meets.saves, meets.answer, meets.retires);
    } else {
      SavedRun(jobs, calls, id, now, meets, begun);
    }
  }

  lemma SavedRun(jobs: Jobs, calls: seq<Call>, id: JobId, now: int, meets: Meets, begun: State)
    requires meets.opens && begun == One(now, jobs, calls, [], Handling(id.verification, Opened))
    ensures var t := Next(Next(Next(Next(begun, Save(0, false, meets.saves)), CallProvider(0)), Answer(0, meets.answer)),
                          Retire(0, meets.retires));
            var (js, cs, success) := Uninterrupted(jobs, calls, id, now, meets);
            t.jobs == js && t.calls == cs && At(t, 0) && t.handlings[0].phase == Finished(success)
  {
    hide LineageIsOver, NextReconciliationTime;
    var v, next := id.verification, NextId(id.verification, now);
    var saved := Next(begun, Save(0, false, meets.saves));
    if !meets.saves {
      SetOne(now, jobs, calls, [], Handling(v, Opened), Finished(false));
      assert saved == One(now, jobs, calls, [], Handling(v, Finished(false)));
      hide Next;
      FinishedStays(saved, false, false, meets.answer, meets.retires);
    } else {
      var js, cs := WithJob(jobs, next), calls + [Call(now, v, next, now)];
      SetOne(now, js, calls, [], Handling(v, Opened), Saved(next, now));
      SetOne(now, js, cs, [], Handling(v, Saved(next, now)), Calling(next, now));
      var called := Next(saved, CallProvider(0));
      assert called == One(now, js, cs, [], Handling(v, Calling(next, now)));
      hide Next;
      AnsweredRun(now, js, cs, v, next, meets);
    }
  }

  lemma AnsweredRun(now: int, jobs: Jobs, calls: seq<Call>, v: string, next: JobId, meets: Meets)
    ensures var called := One(now, jobs, calls, [], Handling(v, Calling(next, now)));
            var t := Next(Next(called, Answer(0, meets.answer)), Retire(0, meets.retires));
            var over := meets.answer.Some? && LineageIsOver(meets.answer.value);
            && t.jobs == (if over && meets.retires then WithoutJob(jobs, next) else jobs) && t.calls == calls
            && At(t, 0) && t.handlings[0].phase == Finished(meets.answer.Some?)
  {
    hide LineageIsOver;
  }

  // ------------------------------------------------------------------- runs

  /** The generation was computed at `savedAt` and is stored. */
  ghost predicate Scheduled(s: State, verification: string, next: JobId, savedAt: int) {
    savedAt <= s.clock && next == NextId(verification, savedAt) && next in s.jobs
  }

  ghost predicate HandlingOk(s: State, h: Handling) {
    && (h.phase.Saved? ==> Scheduled(s, h.verification, h.phase.next, h.phase.savedAt))
    && (h.phase.Calling? ==> Scheduled(s, h.verification, h.phase.next, h.phase.savedAt))
    && (h.phase.LineageOver? ==>
          h.phase.next.verification == h.verification && h.verification in s.ended && h.phase.next in s.jobs)
  }

  ghost predicate Inv(s: State) {
    && (forall id | id in s.jobs :: s.jobs[id].availableAt == id.scheduledFor)
    && (forall n | n in s.handlings :: HandlingOk(s, s.handlings[n]))
    && (forall c | c in s.calls :: Scheduled(s, c.verification, c.next, c.savedAt) && c.savedAt <= c.time <= s.clock)
    && (forall id | id in s.jobs && s.jobs[id].completed && s.jobs[id].availableAt > s.clock :: id.verification in s.ended)
  }

  const EMPTY := State(0, map[], map[], [], [])

  function Beginning(clock: int): State {
    EMPTY.(clock := clock)
  }

  /** Time and the stored generations only grow, and ended lineages stay ended. */
  ghost predicate Grows(s: State, t: State) {
    && s.clock <= t.clock && s.ended <= t.ended
    && forall id | id in s.jobs :: id in t.jobs
  }

  lemma StepGrows(s: State, a: Action)
    ensures Grows(s, Next(s, a))
  {
    hide NextReconciliationTime, LineageIsOver;
  }

  lemma ScheduledStays(s: State, t: State, verification: string, next: JobId, savedAt: int)
    requires Grows(s, t) && Scheduled(s, verification, next, savedAt)
    ensures Scheduled(t, verification, next, savedAt)
  {
  }

  lemma StepKeepsHandlings(s: State, a: Action, n: nat)
    requires Inv(s) && n in Next(s, a).handlings
    ensures HandlingOk(Next(s, a), Next(s, a).handlings[n])
  {
    StepGrows(s, a);
    hide NextReconciliationTime, LineageIsOver;
    if n in s.handlings {
      assert HandlingOk(s, s.handlings[n]);
    }
  }

  lemma StepKeepsCalls(s: State, a: Action, c: Call)
    requires Inv(s) && c in Next(s, a).calls
    ensures var t := Next(s, a); Scheduled(t, c.verification, c.next, c.savedAt) && c.savedAt <= c.time <= t.clock
  {
    StepGrows(s, a);
    hide NextReconciliationTime, LineageIsOver;
    if c in s.calls {
      ScheduledStays(s, Next(s, a), c.verification, c.next, c.savedAt);
    } else {
      assert HandlingOk(s, s.handlings[a.n]);
    }
  }

  lemma StepKeepsJobs(s: State, a: Action, id: JobId)
    requires Inv(s) && id in Next(s, a).jobs
    ensures var t := Next(s, a);
            && t.jobs[id].availableAt == id.scheduledFor
            && (t.jobs[id].completed && t.jobs[id].availableAt > t.clock ==> id.verification in t.ended)
  {
    StepGrows(s, a);
    hide NextReconciliationTime, LineageIsOver;
    if a.Retire? && a.n in s.handlings {
      assert HandlingOk(s, s.handlings[a.n]);
    }
  }

  lemma StepKeepsInv(s: State, a: Action)
    requires Inv(s)
    ensures Inv(Next(s, a))
  {
    var t := Next(s, a);
    hide NextReconciliationTime, LineageIsOver, Next, HandlingOk, Scheduled;
    forall n | n in t.handlings ensures HandlingOk(t, t.handlings[n]) {
      StepKeepsHandlings(s, a, n);
    }
    forall c | c in t.calls ensures Scheduled(t, c.verification, c.next, c.savedAt) && c.savedAt <= c.time <= t.clock {
      StepKeepsCalls(s, a, c);
    }
    forall id | id in t.jobs
      ensures t.jobs[id].availableAt == id.scheduledFor
      ensures t.jobs[id].completed && t.jobs[id].availableAt > t.clock ==> id.verification in t.ended
    {
      StepKeepsJobs(s, a, id);
    }
  }

  lemma {:induction false} RunKeepsInv(clock: int, actions: seq<Action>)
    ensures Inv(Run(Beginning(clock), actions))
  {
    if actions != [] {
      hide Inv, Next;
      RunKeepsInv(clock, actions[..|actions| - 1]);
      StepKeepsInv(Run(Beginning(clock), actions[..|actions| - 1]), actions[|actions| - 1]);
    }
  }

  /** In every run, whatever interleaves, fails or dies: a handling that is about to call
      the provider starts from a state that already stores the generation of the day
      boundary after its save, and that generation is still ahead of the call exactly
      when no day boundary has passed since the save. */
  lemma GenerationsAreSavedBeforeCalls(clock: int, actions: seq<Action>, n: nat)
    requires At(Run(Beginning(clock), actions), n) && Run(Beginning(clock), actions).handlings[n].phase.Saved?
    ensures var s := Run(Beginning(clock), actions); var h := s.handlings[n];
            && h.phase.next in s.jobs && h.phase.next.verification == h.verification
            && h.phase.savedAt < s.jobs[h.phase.next].availableAt <= h.phase.savedAt + INTERVAL
            && (s.clock < s.jobs[h.phase.next].availableAt <==> SameDay(h.phase.savedAt, s.clock))
            && Next(s, CallProvider(n)).calls == s.calls + [Call(s.clock, h.verification, h.phase.next, h.phase.savedAt)]
  {
    RunKeepsInv(clock, actions);
    var s := Run(Beginning(clock), actions);
    var h := s.handlings[n];
    assert HandlingOk(s, h);
    NextIsTheNextBoundary(h.phase.savedAt);
    AheadOnTheSameDay(h.phase.savedAt, s.clock);
  }

  lemma AheadOnTheSameDay(savedAt: int, now: int)
    requires savedAt <= now
    ensures now < NextReconciliationTime(savedAt) <==> SameDay(savedAt, now)
  {
    assert NextReconciliationTime(savedAt) == (savedAt / INTERVAL + 1) * INTERVAL;
  }

  /** Only a handling with a saved generation can call the provider. */
  lemma CallsNeedASave(s: State, a: Action)
    ensures Next(s, a).calls != s.calls ==> a.CallProvider? && At(s, a.n) && s.handlings[a.n].phase.Saved?
  {
    hide NextReconciliationTime, LineageIsOver;
  }

  /** In every run the generation saved for a provider call is stored ever after, at the
      day boundary after its save. */
  lemma EveryCallHasALaterGeneration(clock: int, actions: seq<Action>, c: Call)
    requires c in Run(Beginning(clock), actions).calls
    ensures var s := Run(Beginning(clock), actions);
            && c.next in s.jobs && c.next.verification == c.verification
            && c.savedAt < s.jobs[c.next].availableAt <= c.savedAt + INTERVAL
            && (c.time < s.jobs[c.next].availableAt <==> SameDay(c.savedAt, c.time))
  {
    RunKeepsInv(clock, actions);
    NextIsTheNextBoundary(c.savedAt);
    AheadOnTheSameDay(c.savedAt, c.time);
  }

  /** While no answer has reported a lineage over, each generation saved for its calls
      stays open until it is due: the chain does not break between two days. */
  lemma ChainStaysAlive(clock: int, actions: seq<Action>, c: Call)
    requires var s := Run(Beginning(clock), actions);
             c in s.calls && c.verification !in s.ended && s.clock < NextReconciliationTime(c.savedAt)
    ensures var s := Run(Beginning(clock), actions);
            c.next in s.jobs && !s.jobs[c.next].completed
  {
    RunKeepsInv(clock, actions);
  }

  /** A generation that is not due is closed only by a handling of its lineage that was
      told the lineage is over. */
  lemma OnlyEndedLineagesAreRetired(clock: int, actions: seq<Action>, a: Action, id: JobId)
    requires var s := Run(Beginning(clock), actions);
             id in s.jobs && !s.jobs[id].completed && s.jobs[id].availableAt > s.clock
    requires var t := Next(Run(Beginning(clock), actions), a); id in t.jobs && t.jobs[id].completed
    ensures var s := Run(Beginning(clock), actions);
            && a.Retire? && a.commits && At(s, a.n) && s.handlings[a.n].phase == LineageOver(id)
            && id.verification in s.ended
  {
    RunKeepsInv(clock, actions);
    var s := Run(Beginning(clock), actions);
    hide NextReconciliationTime, LineageIsOver;
    assert HandlingOk(s, s.handlings[a.n]);
  }

  /** Saving while a due generation is handled schedules a strictly later one. */
  lemma GenerationsMoveForward(clock: int, actions: seq<Action>, id: JobId)
    requires Due(Run(Beginning(clock), actions), id)
    ensures NextId(id.verification, Run(Beginning(clock), actions).clock).scheduledFor > id.scheduledFor
  {
    RunKeepsInv(clock, actions);
    NextIsTheNextBoundary(Run(Beginning(clock), actions).clock);
  }

  /** A closed generation is never reopened, however often it is saved again. */
  lemma {:induction false} ClosedStaysClosed(s: State, actions: seq<Action>, id: JobId)
    requires id in s.jobs && s.jobs[id].completed
    ensures id in Run(s, actions).jobs && Run(s, actions).jobs[id].completed
    decreases |actions|
  {
    if actions != [] {
      hide Next;
      var front := actions[..|actions| - 1];
      ClosedStaysClosed(s, front, id);
      StepKeepsClosed(Run(s, front), actions[|actions| - 1], id);
    }
  }

  lemma StepKeepsClosed(s: State, a: Action, id: JobId)
    requires id in s.jobs && s.jobs[id].completed
    ensures id in Next(s, a).jobs && Next(s, a).jobs[id].completed
  {
  }

  /** Once a handling was told its lineage ended and its retirement committed, the
      generation it had saved is closed, never becomes due and calls no provider. */
  lemma RetiredIsNeverDue(clock: int, actions: seq<Action>, n: nat, later: seq<Action>)
    requires At(Run(Beginning(clock), actions), n) && Run(Beginning(clock), actions).handlings[n].phase.LineageOver?
    ensures var s := Run(Beginning(clock), actions); var next := s.handlings[n].phase.next;
            var t := Next(s, Retire(n, true));
            && next in t.jobs && t.jobs[next].completed && t.handlings[n].phase == Finished(true)
            && !Due(Run(t, later), next)
  {
    RunKeepsInv(clock, actions);
    var s := Run(Beginning(clock), actions);
    assert HandlingOk(s, s.handlings[n]);
    ClosedStaysClosed(Next(s, Retire(n, true)), later, s.handlings[n].phase.next);
  }

  /** An answer ends a handling: a provider error fails it, an ended lineage is retired
      next, and any other answer finishes it. */
  lemma AnswersDecide(s: State, n: nat, answer: Option<seq<Observation>>)
    requires At(s, n) && s.handlings[n].phase.Calling?
    ensures var t := Next(s, Answer(n, answer)); var phase := t.handlings[n].phase;
            && (phase == Finished(false) <==> answer.None?)
            && (phase == LineageOver(s.handlings[n].phase.next) <==> answer.Some? && LineageIsOver(answer.value))
            && (phase == Finished(true) <==> answer.Some? && !LineageIsOver(answer.value))
            && t.jobs == s.jobs && t.calls == s.calls
  {
    hide LineageIsOver;
  }
}

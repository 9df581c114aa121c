/**
 One notebook session: running a cell, resuming it with one response, resetting.
 The functions say what each call does to the machine; the class updates its fields
 step by step and is proved to do exactly that.
 */
module Session {
  import opened Wrappers
  import opened Engine

  const MAX_PENDING_JOB_DRAIN := 4096
  const MAX_PROMISE_SETTLE := 4096

  datatype AsyncError = AsyncError(code: string, message: string)
  datatype Response = Response(ok: bool, value: Option<string>, error: Option<AsyncError>)

  /** Why `resume_async_pending` gives up; all but the first happen on a live entry. */
  datatype ResumeFault = NoEntry | NotCallable | CallbackThrew | CallbackInterrupted

  datatype CellError =
    | ThrownException
    | FuelExhausted
    | DrainLimit
    | TopRejected
    | StillPending
    | BadResponse
    | StuckPromise
    | ResumeFailed(fault: ResumeFault)

  /** The three shapes of a run result: waiting for calls, done, failed. */
  datatype RunResult =
    | Yielded(stdout: seq<string>, commands: seq<Command>)
    | Finished(stdout: seq<string>)
    | Failed(stdout: seq<string>, error: CellError)

  datatype State = State(machine: Machine, needsReset: bool, fuelLimit: nat)

  // ─── Jobs ─────────────────────────────────────────────────────

  ghost function RunNextJob(prog: Program, m: Machine): Machine
    requires m.jobs != []
  {
    Activate(prog, m.(jobs := m.jobs[1..]), RunJob(m.jobs[0])).0
  }

  /** `drain_pending_jobs` after `count` jobs. */
  ghost function Drain(prog: Program, m: Machine, count: nat): (Machine, Option<CellError>)
    requires count < MAX_PENDING_JOB_DRAIN
    decreases MAX_PENDING_JOB_DRAIN - count
  {
    if m.jobs == [] then (m, if m.fuel == 0 then Some(FuelExhausted) else None)
    else
      var m' := RunNextJob(prog, m);
      if count + 1 == MAX_PENDING_JOB_DRAIN then (m', Some(DrainLimit))
      else if m'.fuel == 0 then (m', Some(FuelExhausted))
      else Drain(prog, m', count + 1)
  }

  /** The machine after `n` jobs, stopping early when there are none left. */
  ghost function AfterJobs(prog: Program, m: Machine, n: nat): Machine
    decreases n
  {
    if n == 0 || m.jobs == [] then m else AfterJobs(prog, RunNextJob(prog, m), n - 1)
  }

  // ─── Resuming one call ────────────────────────────────────────

  function PayloadOf(response: Response): Payload {
    if response.ok then Value(if response.value.Some? then response.value.value else "null")
    else if response.error.Some? then Error(response.error.value.code, response.error.value.message)
    else Error("E_UNKNOWN", "unknown async error")
  }

  ghost function ResumePending(prog: Program, m: Machine, id: int, response: Response): (Machine, Option<ResumeFault>) {
    if id !in m.pending then (m, Some(NoEntry))
    else
      var entry := m.pending[id];
      if entry.resolve.None? || entry.reject.None? then (m, Some(NotCallable))
      else
        var closure := if response.ok then entry.resolve.value else entry.reject.value;
        var (m', outcome) := Activate(prog, m, Callback(closure, PayloadOf(response)));
        match outcome
        case Interrupted => (m', Some(CallbackInterrupted))
        case Threw => (m', Some(CallbackThrew))
        case Returned(_) => (m'.(pending := m'.pending - {id}, deleted := m'.deleted + {id}), None)
  }

  ghost function TakeQueue(m: Machine): Machine {
    m.(queue := [], drained := m.drained + m.queue)
  }

  /** How a run ends: hand out what is queued, otherwise report the outcome. */
  ghost function Conclude(m: Machine, stillPromise: bool): (Machine, RunResult) {
    if m.queue != [] then (TakeQueue(m), Yielded(m.stdout, m.queue))
    else if m.fuel == 0 then (m, Failed(m.stdout, FuelExhausted))
    else if stillPromise then (m, Failed(m.stdout, StillPending))
    else (m, Finished(m.stdout))
  }

  /** The promise-settle loop of a run, turn by turn. */
  ghost function Settle(prog: Program, m: Machine, turns: nat): (Machine, RunResult)
    requires turns <= MAX_PROMISE_SETTLE
    decreases MAX_PROMISE_SETTLE - turns
  {
    if turns == MAX_PROMISE_SETTLE || !m.top.Promise? then Conclude(m, m.top.Promise?)
    else
      match m.top.state
      case Fulfilled => Conclude(m, false)
      case Rejected => (m, Failed(m.stdout, TopRejected))
      case Pending =>
        if m.queue != [] then (TakeQueue(m), Yielded(m.stdout, m.queue))
        else if m.jobs == [] then Conclude(m, true)
        else
          var (m', error) := Drain(prog, RunNextJob(prog, m), 0);
          if error.Some? then (m', Failed(m'.stdout, error.value))
          else Settle(prog, m', turns + 1)
  }

  /** The top-promise check of a resume, reached when nothing is outstanding. */
  ghost function ResumeTop(prog: Program, m: Machine): (Machine, RunResult) {
    if m.top == Promise(Rejected) then (m, Failed(m.stdout, TopRejected))
    else
      var (m', error) := if m.top == Promise(Pending) then Drain(prog, m, 0) else (m, None);
      if error.Some? then (m', Failed(m'.stdout, error.value))
      else if m.top == Promise(Pending) && (m'.pending.Keys != {} || m'.queue != []) then
        (TakeQueue(m'), Yielded(m'.stdout, m'.queue))
      else if m'.fuel == 0 then (m', Failed(m'.stdout, FuelExhausted))
      else (m', Finished(m'.stdout))
  }

  /**
   Once a drain has succeeded no job is left, so the settle loop never runs a job, never
   turns twice and never meets empty fuel; the same holds for the second drain of a resume.
   */
  lemma SettleAfterDrain(prog: Program, m: Machine)
    requires m.jobs == [] && m.fuel > 0
    ensures Settle(prog, m, 0) == AfterRun(m)
    ensures m.pending.Keys == {} && m.queue == [] ==> ResumeTop(prog, m) == AfterResume(m)
  {
  }

  ghost function ResumeMachine(prog: Program, m: Machine, id: int, response: Response): (Machine, RunResult) {
    var (m1, fault) := ResumePending(prog, m, id, response);
    if fault.Some? then (m1, Failed(m1.stdout, ResumeFailed(fault.value)))
    else
      var (m2, error) := Drain(prog, m1, 0);
      if error.Some? then (m2, Failed(m2.stdout, error.value)) else AfterResume(m2)
  }

  /** What a resume reports once its jobs have been drained. */
  ghost function AfterResume(m: Machine): (Machine, RunResult) {
    if m.pending.Keys != {} || m.queue != [] then (TakeQueue(m), Yielded(m.stdout, m.queue))
    else if m.top == Promise(Rejected) then (m, Failed(m.stdout, TopRejected))
    else (m, Finished(m.stdout))
  }

  /** `resume_cell`; an unparsable response is None. */
  ghost function ResumeCell(prog: Program, s: State, id: int, response: Option<Response>): (State, RunResult) {
    if response.None? then (s, Failed([], BadResponse))
    else
      var (m, r) := ResumeMachine(prog, s.machine.(fuel := s.fuelLimit), id, response.value);
      (s.(machine := m, needsReset := s.needsReset || (r.Failed? && r.error.ResumeFailed?)), r)
  }

  // ─── Running a cell ───────────────────────────────────────────

  /** The machine a new cell starts on: jobs an earlier cell left behind survive. */
  ghost function StartCell(s: State): Machine {
    var m := if s.needsReset then FRESH else s.machine;
    FRESH.(jobs := m.jobs, trace := m.trace, fuel := s.fuelLimit)
  }

  ghost function RunMachine(prog: Program, m: Machine, code: string, stdin: string): (Machine, RunResult) {
    var (m1, outcome) := Activate(prog, m, Eval(code, stdin));
    if outcome.Interrupted? then (m1, Failed(m1.stdout, FuelExhausted))
    else if outcome.Threw? then (m1, Failed(m1.stdout, ThrownException))
    else
      var (m2, error) := Drain(prog, m1.(top := outcome.top), 0);
      if error.Some? then (m2, Failed(m2.stdout, error.value)) else AfterRun(m2)
  }

  /** What a run reports once its jobs have been drained. */
  ghost function AfterRun(m: Machine): (Machine, RunResult) {
    if m.top == Promise(Rejected) then (m, Failed(m.stdout, TopRejected))
    else if m.queue != [] then (TakeQueue(m), Yielded(m.stdout, m.queue))
    else if m.top == Promise(Pending) then (m, Failed(m.stdout, StillPending))
    else (m, Finished(m.stdout))
  }

  ghost function RunCell(prog: Program, s: State, code: string, stdin: string): (State, RunResult) {
    var (m, r) := RunMachine(prog, StartCell(s), code, stdin);
    (State(m, false, s.fuelLimit), r)
  }

  // ─── The session object ───────────────────────────────────────

  /** The history fields of the machine, kept for the proofs only. */
  datatype History = History(
    log: seq<Command>, entries: seq<Entry>, drained: seq<Command>,
    cancelled: set<int>, cleared: set<int>, deleted: set<int>, settles: seq<PromiseState>, done: seq<Done>)

  const NO_HISTORY := History([], [], [], {}, {}, {}, [], [])

  class JsSession {
    const prog: Program

    var stdout: seq<string>
    var queue: seq<Command>
    var counter: nat
    var pending: map<int, Entry>
    var jobs: seq<nat>
    var fuel: nat
    var top: Top
    var needsReset: bool
    var fuelLimit: nat

    var trace: seq<Event>

    ghost var history: History

    ghost function Now(): Machine
      reads this
    {
      Machine(stdout, queue, counter, pending, jobs, fuel, top, trace,
              history.log, history.entries, history.drained,
              history.cancelled, history.cleared, history.deleted, history.settles, history.done)
    }

    ghost function Snapshot(): State
      reads this
    {
      State(Now(), needsReset, fuelLimit)
    }

    /** What the calls below never touch: everything outside the machine. */
    twostate predicate OnlyMachine()
      reads this
    {
      needsReset == old(needsReset) && fuelLimit == old(fuelLimit)
    }

    constructor (prog: Program, fuelLimit: nat)
      ensures this.prog == prog && Snapshot() == State(FRESH, false, fuelLimit)
    {
      this.prog, this.fuelLimit, needsReset := prog, fuelLimit, false;
      stdout, queue, counter, pending, jobs, fuel, top, trace := [], [], 0, map[], [], 0, Absent, [];
      history := NO_HISTORY;
    }

    // ─── Host globals ───────────────────────────────────────────

    method Push(action: string, params: Params, entry: Entry) returns (id: nat)
      modifies this
      ensures OnlyMachine() && Now() == Register(old(Now()), action, params, entry) && id == counter
    {
      counter := (counter + 1) % U32_SIZE;
      id := counter;
      var command := Command(id, action, params);
      queue := queue + [command];
      pending := pending[id := entry];
      history := history.(log := history.log + [command], entries := history.entries + [entry]);
    }

    method SetTimeout(callback: Option<nat>, ms: real) returns (id: Option<nat>)
      modifies this
      ensures OnlyMachine() && Now() == Effect(old(Now()), Op.SetTimeout(callback, ms))
      ensures id == if callback.None? then None else Some(counter)
      ensures callback.None? ==> Now() == old(Now())
      ensures callback.Some? ==>
                && queue == old(queue) + [Command(counter, "sleep", Duration(if ms > 0.0 then ms else 0.0))]
                && pending == old(pending)[counter := Entry("sleep", Some(TimerCallback(callback.value)), Some(Ignore))]
    {
      if callback.None? {
        return None;
      }
      var duration := if ms < 0.0 then 0.0 else ms;
      var callId := Push("sleep", Duration(duration),
                         Entry("sleep", Some(TimerCallback(callback.value)), Some(Ignore)));
      id := Some(callId);
    }

    method SetInterval(callback: Option<nat>, ms: real) returns (id: Option<nat>)
      modifies this
      ensures OnlyMachine() && Now() == Effect(old(Now()), Op.SetInterval(callback, ms))
      ensures id == if callback.None? then None else Some(counter)
      ensures callback.None? ==> Now() == old(Now())
      ensures callback.Some? ==>
                var duration := if ms > 0.0 then ms else 0.0;
                && queue == old(queue) + [Command(counter, "sleep", Duration(duration))]
                && pending == old(pending)[counter := Entry("sleep", Some(IntervalTick(callback.value, duration)),
                                                            Some(Ignore))]
    {
      if callback.None? {
        return None;
      }
      var duration := if ms < 0.0 then 0.0 else ms;
      var callId := Push("sleep", Duration(duration),
                         Entry("sleep", Some(IntervalTick(callback.value, duration)), Some(Ignore)));
      id := Some(callId);
    }

    method ClearTimer(id: TimerId)
      modifies this
      ensures OnlyMachine() && Now() == Effect(old(Now()), Op.ClearTimer(id))
      ensures forall c :: c in queue <==> c in old(queue) && c.callId != (if id < 0 then id + U32_SIZE else id)
      ensures pending == old(pending) - {id}
      ensures stdout == old(stdout) && counter == old(counter) && jobs == old(jobs)
      ensures fuel == old(fuel) && top == old(top) && trace == old(trace)
    {
      WithoutMembers(queue, id % U32_SIZE);
      var key := id % U32_SIZE;
      history := history.(cancelled := history.cancelled + ({key} * Ids(queue)),
                          cleared := history.cleared + ({id as int} * pending.Keys));
      if id in pending {
        pending := pending - {id};
      } else {
        assert pending - {id} == pending;
      }
      queue := Without(queue, key);
    }

    /** One host-visible operation of user code; false when the interrupt handler fires. */
    method Perform(op: Op) returns (alive: bool)
      modifies this
      ensures OnlyMachine() && alive == !(op.Poll? && old(fuel) == 0)
      ensures Now() == if alive then Step(old(Now()), op) else old(Now())
    {
      ghost var done := history.done + [Done(op, queue, pending.Keys)];
      alive := true;
      match op {
        case Poll =>
          if fuel == 0 {
            alive := false;
          } else {
            fuel := fuel - 1;
          }
        case Print(line) => stdout := stdout + [line];
        case TriggerAsync(action, params, resolve, reject) =>
          var _ := Push(action, params, Entry(action, resolve, reject));
        case SetTimeout(callback, ms) => var _ := SetTimeout(callback, ms);
        case SetInterval(callback, ms) => var _ := SetInterval(callback, ms);
        case ClearTimer(id) => ClearTimer(id);
        case Enqueue(job) => jobs := jobs + [job];
        case SettleTop(state) =>
          history := history.(settles := history.settles + [state]);
          if top == Promise(Pending) {
            top := Promise(state);
          }
      }
      if alive {
        history := history.(done := done);
      }
    }

    // ─── Entering the engine ────────────────────────────────────

    method Enter(event: Event) returns (outcome: Outcome)
      modifies this
      ensures OnlyMachine() && (Now(), outcome) == Activate(prog, old(Now()), event)
    {
      var burst := BurstOf(prog, trace, event);
      trace := trace + [event];
      ghost var start := Now();
      var i := 0;
      while i < |burst.ops|
        invariant 0 <= i <= |burst.ops| && OnlyMachine()
        invariant Exec(start, burst.ops) == Exec(Now(), burst.ops[i..])
      {
        assert burst.ops[i..][1..] == burst.ops[i + 1..];
        var alive := Perform(burst.ops[i]);
        if !alive {
          return Interrupted;
        }
        i := i + 1;
      }
      outcome := if burst.ending.Throws? then Threw else Returned(burst.ending.top);
    }

    /** `execute_pending_job`: false when no job is waiting. */
    method ExecutePendingJob() returns (ran: bool)
      modifies this
      ensures OnlyMachine() && ran == (old(jobs) != [])
      ensures Now() == if ran then RunNextJob(prog, old(Now())) else old(Now())
    {
      if jobs == [] {
        return false;
      }
      var job := jobs[0];
      jobs := jobs[1..];
      var _ := Enter(RunJob(job));
      ran := true;
    }

    method DrainPendingJobs() returns (error: Option<CellError>)
      modifies this
      ensures OnlyMachine() && (Now(), error) == Drain(prog, old(Now()), 0)
    {
      var drainedJobs := 0;
      while true
        invariant 0 <= drainedJobs < MAX_PENDING_JOB_DRAIN && OnlyMachine()
        invariant Drain(prog, old(Now()), 0) == Drain(prog, Now(), drainedJobs)
        decreases MAX_PENDING_JOB_DRAIN - drainedJobs
      {
        var ran := ExecutePendingJob();
        if !ran {
          break;
        }
        drainedJobs := drainedJobs + 1;
        if drainedJobs >= MAX_PENDING_JOB_DRAIN {
          return Some(DrainLimit);
        }
        if fuel == 0 {
          return Some(FuelExhausted);
        }
      }
      error := if fuel == 0 then Some(FuelExhausted) else None;
    }

    // ─── Public calls ───────────────────────────────────────────

    method ResumeAsyncPending(id: int, response: Response) returns (fault: Option<ResumeFault>)
      modifies this
      ensures OnlyMachine() && (Now(), fault) == ResumePending(prog, old(Now()), id, response)
    {
      if id !in pending {
        return Some(NoEntry);
      }
      var entry := pending[id];
      if entry.resolve.None? || entry.reject.None? {
        return Some(NotCallable);
      }
      var closure := if response.ok then entry.resolve.value else entry.reject.value;
      var outcome := Enter(Callback(closure, PayloadOf(response)));
      match outcome {
        case Interrupted => fault := Some(CallbackInterrupted);
        case Threw => fault := Some(CallbackThrew);
        case Returned(_) =>
          pending := pending - {id};
          history := history.(deleted := history.deleted + {id});
          fault := None;
      }
    }

    method TakePending() returns (commands: seq<Command>)
      modifies this
      ensures OnlyMachine() && commands == old(queue) && queue == [] && Now() == TakeQueue(old(Now()))
      ensures commands == [] ==> Now() == old(Now())
    {
      commands := queue;
      assert queue == [] ==> history.drained + queue == history.drained;
      history := history.(drained := history.drained + queue);
      queue := [];
    }

    method ResumeTopPromise() returns (result: RunResult)
      modifies this
      ensures OnlyMachine() && (Now(), result) == ResumeTop(prog, old(Now()))
    {
      if top == Promise(Rejected) {
        return Failed(stdout, TopRejected);
      }
      if top == Promise(Pending) {
        var error := DrainPendingJobs();
        if error.Some? {
          return Failed(stdout, error.value);
        }
        var commands := TakePending();
        if pending.Keys != {} || commands != [] {
          return Yielded(stdout, commands);
        }
      }
      result := if fuel == 0 then Failed(stdout, FuelExhausted) else Finished(stdout);
    }

    /** The part of `resume_cell` that runs inside the engine. */
    method ResumeInContext(id: int, response: Response) returns (result: RunResult)
      modifies this
      ensures OnlyMachine() && (Now(), result) == ResumeMachine(prog, old(Now()), id, response)
    {
      var fault := ResumeAsyncPending(id, response);
      if fault.Some? {
        return Failed(stdout, ResumeFailed(fault.value));
      }
      var error := DrainPendingJobs();
      if error.Some? {
        return Failed(stdout, error.value);
      }
      DrainLeavesNothing(prog, ResumePending(prog, old(Now()), id, response).0, 0);
      var commands := TakePending();
      if pending.Keys != {} || commands != [] {
        return Yielded(stdout, commands);
      }
      SettleAfterDrain(prog, Now());
      result := ResumeTopPromise();
    }

    method Resume(id: int, response: Option<Response>) returns (result: RunResult)
      modifies this
      ensures (Snapshot(), result) == ResumeCell(prog, old(Snapshot()), id, response)
    {
      if response.None? {
        return Failed([], BadResponse);
      }
      fuel := fuelLimit;
      result := ResumeInContext(id, response.value);
      if result.Failed? && result.error.ResumeFailed? {
        needsReset := true;
      }
    }

    method Reset()
      modifies this
      ensures Snapshot() == old(Snapshot()).(needsReset := true)
    {
      needsReset := true;
    }

    method PerformReset()
      modifies this
      ensures Snapshot() == State(FRESH, false, old(fuelLimit))
      ensures stdout == [] && queue == [] && counter == 0 && pending == map[] && jobs == [] && top == Absent
    {
      needsReset := false;
      stdout, queue, counter, pending, jobs, fuel, top, trace := [], [], 0, map[], [], 0, Absent, [];
      history := NO_HISTORY;
    }

    method BeginCell()
      modifies this
      ensures Snapshot() == State(StartCell(old(Snapshot())), false, old(fuelLimit))
      ensures stdout == [] && queue == [] && counter == 0 && pending == map[] && top == Absent && fuel == fuelLimit
      ensures jobs == if old(needsReset) then [] else old(jobs)
    {
      if needsReset {
        PerformReset();
      }
      stdout, queue, counter, fuel, pending, top := [], [], 0, fuelLimit, map[], Absent;
      history := NO_HISTORY;
    }

    method Run(code: string, stdin: string) returns (result: RunResult)
      modifies this
      ensures (Snapshot(), result) == RunCell(prog, old(Snapshot()), code, stdin)
    {
      BeginCell();
      result := RunInContext(code, stdin);
    }

    method RunInContext(code: string, stdin: string) returns (result: RunResult)
      modifies this
      ensures OnlyMachine() && (Now(), result) == RunMachine(prog, old(Now()), code, stdin)
    {
      var outcome := Enter(Eval(code, stdin));
      if outcome.Interrupted? {
        return Failed(stdout, FuelExhausted);
      }
      if outcome.Threw? {
        return Failed(stdout, ThrownException);
      }
      top := outcome.top;
      ghost var evaluated := Now();
      var error := DrainPendingJobs();
      if error.Some? {
        return Failed(stdout, error.value);
      }
      DrainLeavesNothing(prog, evaluated, 0);
      SettleAfterDrain(prog, Now());
      result := SettleTopPromise();
    }

    method SettleTopPromise() returns (result: RunResult)
      modifies this
      ensures OnlyMachine() && (Now(), result) == Settle(prog, old(Now()), 0)
    {
      hide Drain, Activate, Conclude;
      var stillPromise := top.Promise?;
      var turns := 0;
      while stillPromise && turns < MAX_PROMISE_SETTLE
        invariant 0 <= turns <= MAX_PROMISE_SETTLE && OnlyMachine() && stillPromise == top.Promise?
        invariant Settle(prog, old(Now()), 0) == Settle(prog, Now(), turns)
        decreases MAX_PROMISE_SETTLE - turns
      {
        match top.state {
          case Fulfilled =>
            stillPromise := false;
            break;
          case Rejected =>
            return Failed(stdout, TopRejected);
          case Pending =>
            if queue != [] {
              var commands := TakePending();
              return Yielded(stdout, commands);
            }
            var ran := ExecutePendingJob();
            if !ran {
              break;
            }
            var error := DrainPendingJobs();
            if error.Some? {
              return Failed(stdout, error.value);
            }
        }
        turns := turns + 1;
        stillPromise := top.Promise?;
      }
      result := ConcludeRun(stillPromise);
    }

    method ConcludeRun(stillPromise: bool) returns (result: RunResult)
      modifies this
      ensures OnlyMachine() && (Now(), result) == Conclude(old(Now()), stillPromise)
    {
      var commands := TakePending();
      if commands != [] {
        return Yielded(stdout, commands);
      }
      if stillPromise {
        return Failed(stdout, if fuel == 0 then FuelExhausted else StillPending);
      }
      result := if fuel == 0 then Failed(stdout, FuelExhausted) else Finished(stdout);
    }
  }

  lemma {:induction false} DrainLeavesNothing(prog: Program, m: Machine, count: nat)
    requires count < MAX_PENDING_JOB_DRAIN
    ensures var (m', error) := Drain(prog, m, count); error.None? ==> m'.jobs == [] && m'.fuel > 0
    decreases MAX_PENDING_JOB_DRAIN - count
  {
    if m.jobs != [] && count + 1 < MAX_PENDING_JOB_DRAIN && RunNextJob(prog, m).fuel > 0 {
      DrainLeavesNothing(prog, RunNextJob(prog, m), count + 1);
    }
  }
}

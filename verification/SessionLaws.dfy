/** What every session call keeps, over any sequence of calls. */
module SessionLaws {
  import opened Wrappers
  import opened Engine
  import opened Session

  // ─── Draining jobs ────────────────────────────────────────────

  lemma EvolvesTransitive(a: Machine, b: Machine, c: Machine)
    requires Evolves(a, b) && Evolves(b, c)
    ensures Evolves(a, c)
  {
  }

  lemma EvolvesReflexive(m: Machine)
    ensures Evolves(m, m)
  {
  }

  lemma RunNextJobKeepsInv(prog: Program, m: Machine)
    requires Inv(m) && m.jobs != []
    ensures Inv(RunNextJob(prog, m)) && Evolves(m, RunNextJob(prog, m))
  {
    hide Activate, Kept, Numbered, Increasing;
    ActivateKeepsInv(prog, m.(jobs := m.jobs[1..]), RunJob(m.jobs[0]));
  }

  lemma {:induction false} DrainKeepsInv(prog: Program, m: Machine, count: nat)
    requires count < MAX_PENDING_JOB_DRAIN && Inv(m)
    ensures Inv(Drain(prog, m, count).0) && Evolves(m, Drain(prog, m, count).0)
    decreases MAX_PENDING_JOB_DRAIN - count
  {
    hide Inv, Evolves, RunNextJob;
    EvolvesReflexive(m);
    if m.jobs != [] {
      var m' := RunNextJob(prog, m);
      RunNextJobKeepsInv(prog, m);
      if count + 1 < MAX_PENDING_JOB_DRAIN && m'.fuel > 0 {
        DrainKeepsInv(prog, m', count + 1);
        EvolvesTransitive(m, m', Drain(prog, m', count + 1).0);
      }
    }
  }

  lemma {:induction false} JobsBurnFuel(prog: Program, m: Machine, n: nat)
    ensures AfterJobs(prog, m, n).fuel <= m.fuel
    decreases n
  {
    if n > 0 && m.jobs != [] {
      ExecBurnsFuel(m.(jobs := m.jobs[1..], trace := m.trace + [RunJob(m.jobs[0])]),
                    BurstOf(prog, m.trace, RunJob(m.jobs[0])).ops);
      JobsBurnFuel(prog, RunNextJob(prog, m), n - 1);
    }
  }

  lemma {:induction false} ExecBurnsFuel(m: Machine, ops: seq<Op>)
    ensures Exec(m, ops).0.fuel <= m.fuel
    decreases |ops|
  {
    if ops != [] && !(ops[0].Poll? && m.fuel == 0) {
      ExecBurnsFuel(Step(m, ops[0]), ops[1..]);
    }
  }

  /**
   `drain_pending_jobs` reports success exactly when fewer jobs than the limit remain to be
   run and fuel is left after the last of them; the machine is then the one after those jobs.
   */
  lemma {:induction false} DrainContract(prog: Program, m: Machine, count: nat)
    requires count < MAX_PENDING_JOB_DRAIN
    ensures var room := MAX_PENDING_JOB_DRAIN - 1 - count;
            var end := AfterJobs(prog, m, room);
            (Drain(prog, m, count).1.None? <==> end.jobs == [] && end.fuel > 0)
            && (Drain(prog, m, count).1.None? ==> Drain(prog, m, count).0 == end)
    decreases MAX_PENDING_JOB_DRAIN - count
  {
    if m.jobs != [] {
      var m' := RunNextJob(prog, m);
      if count + 1 < MAX_PENDING_JOB_DRAIN {
        JobsBurnFuel(prog, m', MAX_PENDING_JOB_DRAIN - 2 - count);
        DrainContract(prog, m', count + 1);
      }
    }
  }

  // ─── One resume ───────────────────────────────────────────────

  /**
   The event in which a response reaches the call with this entry: its value, or null, goes to
   the resolve function; its error, or one saying so when it has none, goes to the reject function.
   */
  predicate Reaches(event: Event, entry: Entry, response: Response) {
    event.Callback? &&
    if response.ok then
      && entry.resolve == Some(event.closure)
      && event.payload == (match response.value { case Some(v) => Value(v) case None => Value("null") })
    else
      && entry.reject == Some(event.closure)
      && event.payload == (match response.error {
                             case Some(AsyncError(code, message)) => Error(code, message)
                             case None => Error("E_UNKNOWN", "unknown async error") })
  }

  ghost predicate FaultFits(m: Machine, m': Machine, id: int, response: Response, fault: Option<ResumeFault>) {
    && (fault == Some(NoEntry) <==> id !in m.pending)
    && (id in m.pending ==>
          (fault == Some(NotCallable) <==> m.pending[id].resolve.None? || m.pending[id].reject.None?))
    && (fault != Some(NoEntry) && fault != Some(NotCallable) ==>
          && id in m.pending && |m.trace| < |m'.trace|
          && Reaches(m'.trace[|m.trace|], m.pending[id], response))
  }

  /** What one resume does to a machine, as seen by the loop that called it. */
  ghost predicate ResumeEffect(m: Machine, m': Machine, id: int, response: Response, r: RunResult) {
    && Evolves(m, m'.(drained := m.drained, deleted := m.deleted))
    && m'.drained == m.drained + (if r.Yielded? then r.commands else [])
    && m'.deleted == m.deleted + (if r.Failed? && r.error.ResumeFailed? then {} else {id})
    && r.stdout == m'.stdout
    && FaultFits(m, m', id, response, if r.Failed? && r.error.ResumeFailed? then Some(r.error.fault) else None)
    && (r.Yielded? ==> m'.queue == [] && (m'.pending.Keys != {} || r.commands != []))
    && (r.Yielded? && |m'.log| < U32_SIZE ==> m'.pending.Keys != {})
    && (r.Finished? || (r.Failed? && r.error.TopRejected?) ==>
          m'.queue == [] && m'.pending.Keys == {} && m'.jobs == [] && m'.fuel > 0)
    && (r.Finished? ==> m'.top != Promise(Rejected))
  }

  /** Dropping the entry of a call that was handed out keeps the books balanced. */
  lemma DeleteKeepsBooks(m: Machine, id: int)
    requires Books(m) && id in Ids(m.drained) && (|m.log| < I32_SIZE ==> 1 <= id <= |m.log|)
    ensures Books(m.(pending := m.pending - {id}, deleted := m.deleted + {id}))
  {
    hide Kept, Numbered, Increasing;
    if |m.log| < U32_SIZE {
      QueueAfterDrained(m);
    }
  }

  lemma DeleteKeepsInv(m: Machine, id: int)
    requires Inv(m) && id in Ids(m.drained) && (|m.log| < I32_SIZE ==> 1 <= id <= |m.log|)
    ensures Inv(m.(pending := m.pending - {id}, deleted := m.deleted + {id}))
  {
    DeleteKeepsBooks(m, id);
    hide Books, Triggers, Ids;
  }

  lemma ResumePendingFits(prog: Program, m: Machine, id: int, response: Response)
    requires Inv(m)
    ensures var (m', fault) := ResumePending(prog, m, id, response); FaultFits(m, m', id, response, fault)
  {
    hide Activate, Inv, Evolves;
    if id in m.pending && m.pending[id].resolve.Some? && m.pending[id].reject.Some? {
      var entry := m.pending[id];
      var closure := if response.ok then entry.resolve.value else entry.reject.value;
      var event := Callback(closure, PayloadOf(response));
      ActivateKeepsInv(prog, m, event);
      assert Activate(prog, m, event).0.trace[|m.trace|] == event;
    }
  }

  lemma CallKeepsInv(prog: Program, m: Machine, id: int, event: Event)
    requires Inv(m) && id in m.pending && id in Ids(m.drained)
    ensures var m1 := Activate(prog, m, event).0;
            var m2 := m1.(pending := m1.pending - {id}, deleted := m1.deleted + {id});
            && Inv(m1) && Inv(m2) && Evolves(m, m1) && Evolves(m, m2.(deleted := m.deleted))
            && m1.deleted == m.deleted
  {
    assert |m.log| < I32_SIZE ==> 1 <= id <= |m.log|;
    hide Activate, Inv, Ids;
    ActivateKeepsInv(prog, m, event);
    DeleteKeepsInv(Activate(prog, m, event).0, id);
  }

  lemma ResumePendingKeepsInv(prog: Program, m: Machine, id: int, response: Response)
    requires Inv(m) && (id in m.pending ==> id in Ids(m.drained))
    ensures var (m', fault) := ResumePending(prog, m, id, response);
            && Inv(m') && Evolves(m, m'.(deleted := m.deleted))
            && m'.deleted == m.deleted + (if fault.Some? then {} else {id})
  {
    hide Activate, Inv, Ids, PayloadOf;
    if id in m.pending && m.pending[id].resolve.Some? && m.pending[id].reject.Some? {
      var entry := m.pending[id];
      var closure := if response.ok then entry.resolve.value else entry.reject.value;
      CallKeepsInv(prog, m, id, Callback(closure, PayloadOf(response)));
    }
  }

  lemma TakeQueueKeepsInv(m: Machine)
    requires Inv(m)
    ensures Inv(TakeQueue(m))
  {
    assert m.drained + m.queue + [] == m.drained + m.queue;
  }

  /** Evolution up to what a resume may change besides: the handed-out and resumed ids. */
  lemma EffectSteps(m: Machine, m1: Machine, m2: Machine)
    requires Evolves(m, m1.(deleted := m.deleted)) && Evolves(m1, m2)
    ensures Evolves(m, m2.(deleted := m.deleted)) && m2.deleted == m1.deleted && m2.drained == m.drained
    ensures Evolves(m, TakeQueue(m2).(drained := m.drained, deleted := m.deleted))
  {
    EvolvesTransitive(m, m1.(deleted := m.deleted), m2.(deleted := m.deleted));
  }

  lemma AfterResumeEffect(m: Machine, m2: Machine, id: int, response: Response)
    requires Inv(m2) && Evolves(m, m2.(deleted := m.deleted)) && m2.deleted == m.deleted + {id}
    requires FaultFits(m, m2, id, response, None) && m2.jobs == [] && m2.fuel > 0
    ensures var (m', r) := AfterResume(m2); Inv(m') && ResumeEffect(m, m', id, response, r)
  {
    TakeQueueKeepsInv(m2);
    assert m2.queue != [] ==> m2.queue[0] in m2.queue;
  }

  lemma FaultEffect(m: Machine, m1: Machine, id: int, response: Response, fault: ResumeFault)
    requires Evolves(m, m1.(deleted := m.deleted)) && m1.deleted == m.deleted
    requires FaultFits(m, m1, id, response, Some(fault))
    ensures ResumeEffect(m, m1, id, response, Failed(m1.stdout, ResumeFailed(fault)))
  {
    assert m1.drained == m.drained;
    assert m.drained + [] == m.drained;
  }

  lemma DrainErrorEffect(prog: Program, m: Machine, m1: Machine, id: int, response: Response)
    requires Evolves(m, m1.(deleted := m.deleted)) && m1.deleted == m.deleted + {id}
    requires Inv(m1) && FaultFits(m, m1, id, response, None)
    ensures var (m2, error) := Drain(prog, m1, 0);
            && Inv(m2) && Evolves(m, m2.(deleted := m.deleted)) && m2.deleted == m.deleted + {id}
            && FaultFits(m, m2, id, response, None)
            && (error.Some? ==> ResumeEffect(m, m2, id, response, Failed(m2.stdout, error.value)))
            && (error.None? ==> m2.jobs == [] && m2.fuel > 0)
  {
    hide Drain, Inv;
    DrainKeepsInv(prog, m1, 0);
    DrainLeavesNothing(prog, m1, 0);
    DrainErrors(prog, m1, 0);
    var m2 := Drain(prog, m1, 0).0;
    EffectSteps(m, m1, m2);
    assert m.drained + [] == m.drained;
  }

  lemma {:induction false} DrainErrors(prog: Program, m: Machine, count: nat)
    requires count < MAX_PENDING_JOB_DRAIN
    ensures Drain(prog, m, count).1 in {None, Some(FuelExhausted), Some(DrainLimit)}
    decreases MAX_PENDING_JOB_DRAIN - count
  {
    if m.jobs != [] && count + 1 < MAX_PENDING_JOB_DRAIN && RunNextJob(prog, m).fuel > 0 {
      DrainErrors(prog, RunNextJob(prog, m), count + 1);
    }
  }

  lemma ResumeKeepsInv(prog: Program, m: Machine, id: int, response: Response)
    requires Inv(m) && (id in m.pending ==> id in Ids(m.drained))
    ensures var (m', r) := ResumeMachine(prog, m, id, response);
            Inv(m') && ResumeEffect(m, m', id, response, r)
  {
    ResumePendingKeepsInv(prog, m, id, response);
    ResumePendingFits(prog, m, id, response);
    var (m1, fault) := ResumePending(prog, m, id, response);
    if fault.Some? {
      FaultEffect(m, m1, id, response, fault.value);
    } else {
      DrainErrorEffect(prog, m, m1, id, response);
      var (m2, error) := Drain(prog, m1, 0);
      if error.None? {
        AfterResumeEffect(m, m2, id, response);
      }
    }
  }

  // ─── One run ──────────────────────────────────────────────────

  ghost predicate RunEffect(m': Machine, r: RunResult) {
    && m'.drained == (if r.Yielded? then r.commands else [])
    && m'.deleted == {}
    && r.stdout == m'.stdout
    && (r.Yielded? ==> m'.queue == [] && r.commands != [])
    && (r.Finished? ==>
          m'.queue == [] && m'.jobs == [] && m'.fuel > 0 && m'.top != Promise(Pending) && m'.top != Promise(Rejected))
  }

  lemma SettledEffect(m: Machine)
    requires Inv(m) && m.drained == [] && m.deleted == {} && m.jobs == [] && m.fuel > 0
    ensures Inv(AfterRun(m).0) && RunEffect(AfterRun(m).0, AfterRun(m).1)
    ensures m.trace == AfterRun(m).0.trace
  {
    hide Inv;
    TakeQueueKeepsInv(m);
    assert [] + m.queue == m.queue;
  }

  lemma StartCellInv(s: State)
    ensures Inv(StartCell(s))
  {
  }

  lemma TopKeepsInv(m: Machine, top: Top)
    requires Inv(m)
    ensures Inv(m.(top := top))
  {
    hide Triggers, Printed, Attempts, Cancelled, Cleared;
  }

  lemma DrainAndJudge(prog: Program, m: Machine)
    requires Inv(m) && m.drained == [] && m.deleted == {}
    ensures var (m1, error) := Drain(prog, m, 0);
            && Inv(m1) && m.trace <= m1.trace && m1.drained == [] && m1.deleted == {}
            && (error.None? ==>
                  && Inv(AfterRun(m1).0) && RunEffect(AfterRun(m1).0, AfterRun(m1).1)
                  && AfterRun(m1).0.trace == m1.trace)
            && (error.Some? ==> RunEffect(m1, Failed(m1.stdout, error.value)))
  {
    hide Drain, AfterRun, Inv;
    DrainKeepsInv(prog, m, 0);
    DrainLeavesNothing(prog, m, 0);
    var (m1, error) := Drain(prog, m, 0);
    if error.None? {
      SettledEffect(m1);
    }
  }

  lemma EvaluationKeepsInv(prog: Program, m: Machine, code: string, stdin: string)
    requires Inv(m) && m.drained == [] && m.deleted == {}
    ensures var (m1, outcome) := Activate(prog, m, Eval(code, stdin));
            && m.trace <= m1.trace && Inv(m1) && RunEffect(m1, Failed(m1.stdout, ThrownException))
            && (outcome.Returned? ==> Inv(m1.(top := outcome.top)))
  {
    hide Activate, Inv;
    ActivateKeepsInv(prog, m, Eval(code, stdin));
    var (m1, outcome) := Activate(prog, m, Eval(code, stdin));
    if outcome.Returned? {
      TopKeepsInv(m1, outcome.top);
    }
  }

  lemma RunMachineKeepsInv(prog: Program, m: Machine, code: string, stdin: string)
    requires Inv(m) && m.drained == [] && m.deleted == {}
    ensures var (m', r) := RunMachine(prog, m, code, stdin);
            Inv(m') && RunEffect(m', r) && m.trace <= m'.trace
  {
    hide Activate, Drain, AfterRun, Inv;
    EvaluationKeepsInv(prog, m, code, stdin);
    var (m1, outcome) := Activate(prog, m, Eval(code, stdin));
    var r := RunMachine(prog, m, code, stdin);
    match outcome {
      case Interrupted => assert r == (m1, Failed(m1.stdout, FuelExhausted));
      case Threw => assert r == (m1, Failed(m1.stdout, ThrownException));
      case Returned(top) =>
        DrainAndJudge(prog, m1.(top := top));
        var (m2, error) := Drain(prog, m1.(top := top), 0);
        assert r == if error.Some? then (m2, Failed(m2.stdout, error.value)) else AfterRun(m2);
    }
  }

  lemma RunKeepsInv(prog: Program, s: State, code: string, stdin: string)
    ensures var (s', r) := RunCell(prog, s, code, stdin);
            Inv(s'.machine) && RunEffect(s'.machine, r) && StartCell(s).trace <= s'.machine.trace
  {
    StartCellInv(s);
    RunMachineKeepsInv(prog, StartCell(s), code, stdin);
  }

  // ─── Any sequence of calls ────────────────────────────────────

  datatype Call =
    | Run(code: string, stdin: string)
    | Resume(id: int, response: Option<Response>)
    | Reset
    | ResetNow
    | SetFuelLimit(limit: nat)

  ghost function Apply(prog: Program, s: State, call: Call): State {
    match call
    case Run(code, stdin) => RunCell(prog, s, code, stdin).0
    case Resume(id, response) => ResumeCell(prog, s, id, response).0
    case Reset => s.(needsReset := true)
    case ResetNow => State(FRESH, false, s.fuelLimit)
    case SetFuelLimit(limit) => s.(fuelLimit := limit)
  }

  ghost function ApplyAll(prog: Program, s: State, calls: seq<Call>): State
    decreases |calls|
  {
    if calls == [] then s else ApplyAll(prog, Apply(prog, s, calls[0]), calls[1..])
  }

  /** The host resumes only ids that the current cell has handed out. */
  ghost predicate Legal(prog: Program, s: State, calls: seq<Call>)
    decreases |calls|
  {
    calls == [] ||
    ((calls[0].Resume? ==> calls[0].id in Ids(s.machine.drained))
     && Legal(prog, Apply(prog, s, calls[0]), calls[1..]))
  }

  lemma {:induction false} CallsKeepInv(prog: Program, s: State, calls: seq<Call>)
    requires Inv(s.machine) && Legal(prog, s, calls)
    ensures Inv(ApplyAll(prog, s, calls).machine)
    decreases |calls|
  {
    if calls != [] {
      match calls[0] {
        case Run(code, stdin) => RunKeepsInv(prog, s, code, stdin);
        case Resume(id, response) =>
          if response.Some? {
            ResumeKeepsInv(prog, s.machine.(fuel := s.fuelLimit), id, response.value);
          }
        case _ =>
      }
      CallsKeepInv(prog, Apply(prog, s, calls[0]), calls[1..]);
    }
  }

  /**
   In every session reached by legal calls, until the id counter of the current cell wraps:
   queued ids increase, each has a live entry, every live id lies between 1 and the counter,
   and nothing cancelled or already handed out is queued.  So the next id is fresh, and a
   timer cleared before its command was handed out is in no later batch.
   */
  lemma EngineInvariant(prog: Program, fuelLimit: nat, calls: seq<Call>)
    requires Legal(prog, State(FRESH, false, fuelLimit), calls)
    ensures var m := ApplyAll(prog, State(FRESH, false, fuelLimit), calls).machine;
            |m.log| < U32_SIZE ==>
              && Increasing(m.drained + m.queue)
              && Ids(m.queue) <= m.pending.Keys
              && (forall k :: k in m.pending ==> 1 <= k <= m.counter)
              && m.counter + 1 !in m.pending && m.counter + 1 !in Ids(m.drained + m.queue)
              && Ids(m.drained) !! Ids(m.queue) !! m.cancelled
              && (forall k :: 1 <= k <= m.counter ==> k in Ids(m.drained) || k in Ids(m.queue) || k in m.cancelled)
  {
    CallsKeepInv(prog, State(FRESH, false, fuelLimit), calls);
    var m := ApplyAll(prog, State(FRESH, false, fuelLimit), calls).machine;
    if |m.log| < U32_SIZE {
      QueueAfterDrained(m);
    }
  }
}

/** How a run and a resume end, case by case, in terms of what user code did. */
module Outcomes {
  import opened Wrappers
  import opened Engine
  import opened Session
  import opened SessionLaws

  // ─── A drain ──────────────────────────────────────────────────

  /** The most jobs that a drain can run without an error. */
  const ROOM: nat := 4095

  /**
   One of three: fuel is gone after the jobs there is room for, or jobs are still left then, or
   neither, and the drain succeeds.
   */
  lemma {:induction false} DrainOutcome(prog: Program, m: Machine, count: nat)
    requires count < MAX_PENDING_JOB_DRAIN && (count > 0 ==> m.fuel > 0)
    ensures var (m', error) := Drain(prog, m, count);
            var end := AfterJobs(prog, m, ROOM - count);
            && error == (if end.fuel == 0 then Some(FuelExhausted)
                         else if end.jobs != [] then Some(DrainLimit) else None)
            && (error == None ==> m' == end)
    decreases MAX_PENDING_JOB_DRAIN - count
  {
    if m.jobs != [] {
      hide RunNextJob;
      var m' := RunNextJob(prog, m);
      if count + 1 < MAX_PENDING_JOB_DRAIN {
        JobsBurnFuel(prog, m', ROOM - count - 1);
        if m'.fuel > 0 {
          DrainOutcome(prog, m', count + 1);
        }
      }
    }
  }

  // ─── A run ────────────────────────────────────────────────────

  /** The machine at the start of a cell: everything anew but the jobs that wait, unless a reset is due. */
  ghost function CellStart(s: State): Machine {
    var (jobs, trace) := if s.needsReset then ([], []) else (s.machine.jobs, s.machine.trace);
    Machine([], [], 0, map[], jobs, s.fuelLimit, Absent, trace, [], [], [], {}, {}, {}, [], [])
  }

  /** The verdict of a run over the machine `end` that its jobs have left. */
  ghost predicate RunVerdict(end: Machine, r: RunResult) {
    var drained := end.fuel > 0 && end.jobs == [];
    && (r.Failed? && r.error == FuelExhausted <==> end.fuel == 0)
    && (r.Failed? && r.error == DrainLimit <==> end.fuel > 0 && end.jobs != [])
    && (r.Failed? && r.error == TopRejected <==> drained && end.top == Promise(Rejected))
    && (r.Yielded? <==> drained && end.top != Promise(Rejected) && end.queue != [])
    && (r.Yielded? ==> r.commands == end.queue)
    && (r.Failed? && r.error == StillPending <==> drained && end.top == Promise(Pending) && end.queue == [])
    && (r.Finished? <==> drained && end.queue == [] && end.top != Promise(Pending) && end.top != Promise(Rejected))
  }

  /** A run whose evaluation returned: its drain, then its judgement of the top value. */
  ghost function Judged(prog: Program, m: Machine): (Machine, RunResult) {
    var (m', error) := Drain(prog, m, 0);
    if error.Some? then (m', Failed(m'.stdout, error.value)) else AfterRun(m')
  }

  lemma JudgedOutcome(prog: Program, m: Machine)
    ensures var (m', r) := Judged(prog, m);
            var end := AfterJobs(prog, m, ROOM);
            && r.stdout == m'.stdout && RunVerdict(end, r)
            && (r.Finished? ==> m' == end)
            && (r.Yielded? ==> m' == end.(queue := [], drained := end.drained + end.queue))
            && !(r.Failed? && r.error == ThrownException)
  {
    hide Drain, AfterJobs;
    DrainOutcome(prog, m, 0);
  }

  /**
   A run starts its cell afresh.  It reports an exception exactly when the evaluation threw, and
   exhausted fuel when the evaluation was interrupted; otherwise the verdict is over the machine
   after the jobs there is room for.  A call to be made, or a good end, leaves just that machine.
   */
  lemma RunOutcome(prog: Program, s: State, code: string, stdin: string)
    ensures var (m, outcome) := Activate(prog, CellStart(s), Eval(code, stdin));
            var (s', r) := RunCell(prog, s, code, stdin);
            && !s'.needsReset && s'.fuelLimit == s.fuelLimit && r.stdout == s'.machine.stdout
            && (r.Failed? && r.error == ThrownException <==> outcome.Threw?)
            && (outcome.Threw? ==> s'.machine == m)
            && (outcome.Interrupted? ==> s'.machine == m && r == Failed(m.stdout, FuelExhausted))
            && (outcome.Returned? ==>
                  var end := AfterJobs(prog, m.(top := outcome.top), ROOM);
                  && RunVerdict(end, r)
                  && (r.Finished? ==> s'.machine == end)
                  && (r.Yielded? ==> s'.machine == end.(queue := [], drained := end.drained + end.queue)))
  {
    assert StartCell(s) == CellStart(s);
    hide Activate, Drain, AfterJobs, AfterRun, RunVerdict, StartCell, CellStart;
    var (m, outcome) := Activate(prog, CellStart(s), Eval(code, stdin));
    var (s', r) := RunCell(prog, s, code, stdin);
    match outcome {
      case Interrupted => assert (s'.machine, r) == (m, Failed(m.stdout, FuelExhausted));
      case Threw => assert (s'.machine, r) == (m, Failed(m.stdout, ThrownException));
      case Returned(top) =>
        assert (s'.machine, r) == Judged(prog, m.(top := top));
        JudgedOutcome(prog, m.(top := top));
    }
  }

  // ─── A resume ─────────────────────────────────────────────────

  /** The verdict of a resume over the machine `end` that its jobs have left. */
  ghost predicate ResumeVerdict(end: Machine, r: RunResult) {
    var drained := end.fuel > 0 && end.jobs == [];
    var waiting := end.pending.Keys != {} || end.queue != [];
    && (r.Failed? && r.error == FuelExhausted <==> end.fuel == 0)
    && (r.Failed? && r.error == DrainLimit <==> end.fuel > 0 && end.jobs != [])
    && (r.Yielded? <==> drained && waiting)
    && (r.Yielded? ==> r.commands == end.queue)
    && (r.Failed? && r.error == TopRejected <==> drained && !waiting && end.top == Promise(Rejected))
    && (r.Finished? <==> drained && !waiting && end.top != Promise(Rejected))
  }

  /** The machine after a call has been answered: its entry is gone. */
  function Answered(m: Machine, id: int): Machine {
    m.(pending := m.pending - {id}, deleted := m.deleted + {id})
  }

  /**
   A response that cannot be read changes nothing.  A resume without a live entry that can be called
   changes nothing but the fuel, and asks for a reset.
   */
  lemma ResumeRefused(prog: Program, s: State, id: int, response: Response)
    ensures ResumeCell(prog, s, id, None) == (s, Failed([], BadResponse))
    ensures var (s', r) := ResumeCell(prog, s, id, Some(response));
            var pending := s.machine.pending;
            var refused := State(s.machine.(fuel := s.fuelLimit), true, s.fuelLimit);
            && (r.Failed? && r.error == ResumeFailed(NoEntry) <==> id !in pending)
            && (r.Failed? && r.error == ResumeFailed(NotCallable) <==>
                  id in pending && (pending[id].resolve.None? || pending[id].reject.None?))
            && (r.Failed? && r.error in {ResumeFailed(NoEntry), ResumeFailed(NotCallable)} ==>
                  s' == refused && r.stdout == s.machine.stdout)
  {
    hide Activate, Drain;
    if id in s.machine.pending && s.machine.pending[id].resolve.Some? && s.machine.pending[id].reject.Some? {
      var entry := s.machine.pending[id];
      var closure := if response.ok then entry.resolve.value else entry.reject.value;
      var m := Activate(prog, s.machine.(fuel := s.fuelLimit), Callback(closure, PayloadOf(response))).0;
      DrainOutcome(prog, Answered(m, id), 0);
    }
  }

  /**
   Any other resume starts on full fuel and calls the function stored for its call.  If that throws
   or is interrupted, the resume fails, the entry stays and a reset is due; otherwise the entry
   goes and the verdict is over the machine after the jobs there is room for.
   */
  lemma ResumeOutcome(prog: Program, s: State, id: int, response: Response, event: Event)
    requires id in s.machine.pending
    requires s.machine.pending[id].resolve.Some? && s.machine.pending[id].reject.Some?
    requires Reaches(event, s.machine.pending[id], response)
    ensures var (m, outcome) := Activate(prog, s.machine.(fuel := s.fuelLimit), event);
            var (s', r) := ResumeCell(prog, s, id, Some(response));
            && s'.fuelLimit == s.fuelLimit && r.stdout == s'.machine.stdout
            && (s'.needsReset <==> s.needsReset || !outcome.Returned?)
            && (r.Failed? && r.error == ResumeFailed(CallbackThrew) <==> outcome.Threw?)
            && (r.Failed? && r.error == ResumeFailed(CallbackInterrupted) <==> outcome.Interrupted?)
            && (!outcome.Returned? ==> s'.machine == m)
            && (outcome.Returned? ==>
                  var end := AfterJobs(prog, Answered(m, id), ROOM);
                  && ResumeVerdict(end, r)
                  && (r.Finished? ==> s'.machine == end)
                  && (r.Yielded? ==> s'.machine == end.(queue := [], drained := end.drained + end.queue)))
  {
    hide Activate, Drain, AfterJobs;
    assert event == Callback(event.closure, PayloadOf(response));
    var (m, outcome) := Activate(prog, s.machine.(fuel := s.fuelLimit), event);
    if outcome.Returned? {
      DrainOutcome(prog, Answered(m, id), 0);
    }
  }
}

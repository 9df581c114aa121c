/** Jobs run in the order they were enqueued, each once, whatever the calls of a cell do. */
module JobOrder {
  import opened Sequences
  import opened Engine
  import opened EngineLaws
  import opened Session
  import opened SessionLaws
  import opened AsyncLoop
  import opened Outcomes

  /** The jobs that ran, by their entries into the engine. */
  function JobsRun(trace: seq<Event>): seq<nat> {
    if trace == [] then []
    else
      var last := trace[|trace| - 1];
      JobsRun(trace[..|trace| - 1]) + (if last.RunJob? then [last.job] else [])
  }

  function Enqueued(done: seq<Done>): seq<nat> {
    if done == [] then []
    else
      var last := done[|done| - 1].op;
      Enqueued(done[..|done| - 1]) + (if last.Enqueue? then [last.job] else [])
  }

  lemma {:induction false} JobsRunConcat(a: seq<Event>, b: seq<Event>)
    ensures JobsRun(a + b) == JobsRun(a) + JobsRun(b)
  {
    if b == [] {
      assert a + b == a;
    } else {
      JobsRunConcat(a, b[..|b| - 1]);
      assert (a + b)[..|a + b| - 1] == a + b[..|b| - 1];
    }
  }

  lemma {:induction false} EnqueuedConcat(a: seq<Done>, b: seq<Done>)
    ensures Enqueued(a + b) == Enqueued(a) + Enqueued(b)
  {
    if b == [] {
      assert a + b == a;
    } else {
      EnqueuedConcat(a, b[..|b| - 1]);
      assert (a + b)[..|a + b| - 1] == a + b[..|b| - 1];
    }
  }

  /** From `m` to `m'`: the jobs run, then those waiting, are those that waited, then those enqueued. */
  ghost predicate InOrder(m: Machine, m': Machine) {
    && m.trace <= m'.trace && m.done <= m'.done
    && JobsRun(m'.trace[|m.trace|..]) + m'.jobs == m.jobs + Enqueued(m'.done[|m.done|..])
  }

  lemma InOrderTransitive(a: Machine, b: Machine, c: Machine)
    requires InOrder(a, b) && InOrder(b, c)
    ensures InOrder(a, c)
  {
    var ran, ran' := b.trace[|a.trace|..], c.trace[|b.trace|..];
    var done, done' := b.done[|a.done|..], c.done[|b.done|..];
    assert c.trace[|a.trace|..] == ran + ran' && c.done[|a.done|..] == done + done';
    JobsRunConcat(ran, ran');
    EnqueuedConcat(done, done');
    Regroup(JobsRun(ran), JobsRun(ran'), c.jobs);
    Regroup(JobsRun(ran), b.jobs, Enqueued(done'));
    Regroup(a.jobs, Enqueued(done), Enqueued(done'));
  }

  lemma Quiet(m: Machine, m': Machine)
    requires m'.trace == m.trace && m'.done == m.done && m'.jobs == m.jobs
    ensures InOrder(m, m')
  {
  }

  lemma StepInOrder(m: Machine, op: Op)
    requires op.Poll? ==> m.fuel > 0
    ensures InOrder(m, Step(m, op)) && Step(m, op).trace == m.trace
  {
    var m' := Step(m, op);
    var d := Done(op, m.queue, m.pending.Keys);
    assert m'.done[|m.done|..] == [d] && [d][..0] == [];
    assert Enqueued([d]) == if op.Enqueue? then [op.job] else [];
  }

  lemma {:induction false} ExecInOrder(m: Machine, ops: seq<Op>)
    ensures InOrder(m, Exec(m, ops).0) && Exec(m, ops).0.trace == m.trace
    decreases |ops|
  {
    if ops == [] || (ops[0].Poll? && m.fuel == 0) {
      Quiet(m, m);
    } else {
      StepInOrder(m, ops[0]);
      ExecInOrder(Step(m, ops[0]), ops[1..]);
      hide InOrder, Step;
      InOrderTransitive(m, Step(m, ops[0]), Exec(m, ops).0);
    }
  }

  /** An entry that is no job, or that takes the first job from the queue. */
  lemma ActivateInOrder(prog: Program, m: Machine, taken: seq<nat>, event: Event)
    requires taken <= m.jobs
    requires if event.RunJob? then taken == [event.job] else taken == []
    ensures InOrder(m, Activate(prog, m.(jobs := m.jobs[|taken|..]), event).0)
  {
    var m0 := m.(jobs := m.jobs[|taken|..]);
    var m1 := m0.(trace := m.trace + [event]);
    hide Exec, BurstOf;
    ExecInOrder(m1, BurstOf(prog, m.trace, event).ops);
    assert m1.trace[|m.trace|..] == [event] && [event][..0] == [];
    assert JobsRun([event]) == taken;
    assert m1.done[|m.done|..] == [];
    assert InOrder(m, m1);
    InOrderTransitive(m, m1, Exec(m1, BurstOf(prog, m.trace, event).ops).0);
  }

  lemma RunNextJobInOrder(prog: Program, m: Machine)
    requires m.jobs != []
    ensures InOrder(m, RunNextJob(prog, m))
  {
    hide Activate;
    assert m.jobs == [m.jobs[0]] + m.jobs[1..];
    ActivateInOrder(prog, m, [m.jobs[0]], RunJob(m.jobs[0]));
  }

  lemma {:induction false} DrainInOrder(prog: Program, m: Machine, count: nat)
    requires count < MAX_PENDING_JOB_DRAIN
    ensures InOrder(m, Drain(prog, m, count).0)
    decreases MAX_PENDING_JOB_DRAIN - count
  {
    hide RunNextJob;
    Quiet(m, m);
    if m.jobs != [] {
      var m' := RunNextJob(prog, m);
      RunNextJobInOrder(prog, m);
      if count + 1 < MAX_PENDING_JOB_DRAIN && m'.fuel > 0 {
        DrainInOrder(prog, m', count + 1);
        hide InOrder;
        InOrderTransitive(m, m', Drain(prog, m, count).0);
      }
    }
  }

  lemma ResumePendingInOrder(prog: Program, m: Machine, id: int, response: Response)
    ensures InOrder(m, ResumePending(prog, m, id, response).0)
  {
    hide Activate;
    Quiet(m, m);
    if id in m.pending && m.pending[id].resolve.Some? && m.pending[id].reject.Some? {
      var entry := m.pending[id];
      var closure := if response.ok then entry.resolve.value else entry.reject.value;
      var event := Callback(closure, PayloadOf(response));
      assert m.jobs[0..] == m.jobs && m.(jobs := m.jobs) == m;
      ActivateInOrder(prog, m, [], event);
      assert InOrder(m, Activate(prog, m, event).0);
    }
  }

  lemma ResumeInOrder(prog: Program, m: Machine, id: int, response: Response)
    ensures InOrder(m, ResumeMachine(prog, m, id, response).0)
  {
    hide ResumePending, Drain;
    var (m1, fault) := ResumePending(prog, m, id, response);
    ResumePendingInOrder(prog, m, id, response);
    if fault.None? {
      DrainInOrder(prog, m1, 0);
      var m2 := Drain(prog, m1, 0).0;
      InOrderTransitive(m, m1, m2);
    }
  }

  /** Within a run: the evaluation and its drain. */
  lemma RunInOrder(prog: Program, s: State, code: string, stdin: string)
    ensures InOrder(CellStart(s), RunCell(prog, s, code, stdin).0.machine)
  {
    hide Activate, Drain;
    var m := CellStart(s);
    assert m == StartCell(s) && m.jobs[0..] == m.jobs && m.(jobs := m.jobs) == m;
    ActivateInOrder(prog, m, [], Eval(code, stdin));
    var (m1, outcome) := Activate(prog, m, Eval(code, stdin));
    if outcome.Returned? {
      var m2 := m1.(top := outcome.top);
      DrainInOrder(prog, m2, 0);
      InOrderTransitive(m, m2, Drain(prog, m2, 0).0);
    }
  }

  // ─── Whole runs ───────────────────────────────────────────────

  lemma DeliverInOrder(env: Env, m: Machine, l: Loop, command: Command, response: Response)
    requires InOrder(m, l.state.machine)
    ensures InOrder(m, Deliver(env, l, command, response).state.machine)
  {
    hide ResumeMachine;
    var m1 := l.state.machine.(fuel := l.state.fuelLimit);
    ResumeInOrder(env.prog, m1, command.callId, response);
    InOrderTransitive(m, m1, ResumeMachine(env.prog, m1, command.callId, response).0);
  }

  lemma {:induction false} ServeInOrder(env: Env, m: Machine, l: Loop, batch: seq<Command>,
                                        responses: seq<Response>, acc: seq<Command>)
    requires |batch| == |responses| && InOrder(m, l.state.machine)
    ensures InOrder(m, Serve(env, l, batch, responses, acc).0.state.machine)
    decreases |batch|
  {
    hide Deliver, InOrder;
    if batch != [] {
      var given := if env.aborted(l.polls) then ABORT_RESPONSE else responses[0];
      DeliverInOrder(env, m, l.(polls := l.polls + 1), batch[0], given);
      var l' := ServeOne(env, l, batch[0], responses[0]);
      ServeInOrder(env, m, l', batch[1..], responses[1..], acc + NewCommands(l'.result));
    }
  }

  lemma {:induction false} AbortAllInOrder(env: Env, m: Machine, l: Loop, batch: seq<Command>)
    requires InOrder(m, l.state.machine)
    ensures InOrder(m, AbortAll(env, l, batch).state.machine)
    decreases |batch|
  {
    hide Deliver, InOrder;
    if batch != [] {
      DeliverInOrder(env, m, l, batch[0], ABORT_RESPONSE);
      AbortAllInOrder(env, m, Deliver(env, l, batch[0], ABORT_RESPONSE), batch[1..]);
    }
  }

  lemma {:induction false} TurnsInOrder(env: Env, m: Machine, l: Loop, n: nat)
    requires InOrder(m, l.state.machine)
    ensures InOrder(m, Turns(env, l, n).state.machine)
    decreases n
  {
    hide Serve, AbortAll, InOrder;
    if n > 0 && l.result.Yielded? && !l.stopped {
      var batch := l.result.commands;
      if batch != [] && env.aborted(l.polls) {
        AbortAllInOrder(env, m, l.(polls := l.polls + 1, aborted := true), batch);
      } else if batch != [] {
        ServeInOrder(env, m, l.(polls := l.polls + 1, dispatched := l.dispatched + batch), batch,
                     Responses(env, |l.dispatched|, batch), []);
      }
      TurnsInOrder(env, m, Turn(env, l), n - 1);
    }
  }

  /**
   Over a whole run of the loop, whatever throws, runs out of fuel or is aborted: the jobs run
   since the cell started, followed by those still waiting, are the jobs an earlier cell left
   followed by those enqueued, in that order.
   */
  lemma JobsRunInOrder(env: Env, s: State, code: string, stdin: string, n: nat)
    ensures InOrder(CellStart(s), Turns(env, Start(env, s, code, stdin), n).state.machine)
  {
    hide InOrder, RunCell;
    RunInOrder(env.prog, s, code, stdin);
    TurnsInOrder(env, CellStart(s), Start(env, s, code, stdin), n);
  }

  lemma RunEvaluatesFirst(prog: Program, s: State, code: string, stdin: string)
    ensures CellStart(s).trace + [Eval(code, stdin)] <= RunCell(prog, s, code, stdin).0.machine.trace
  {
    hide Activate, Drain;
    var m := CellStart(s);
    assert m == StartCell(s);
    ActivateExecutes(prog, m, Eval(code, stdin));
    var (m1, outcome) := Activate(prog, m, Eval(code, stdin));
    if outcome.Returned? {
      DrainInOrder(prog, m1.(top := outcome.top), 0);
    }
  }

  /** The loop evaluates the code it was given, with its input, before anything else; that run's result is its first. */
  lemma EvaluatesFirst(env: Env, s: State, code: string, stdin: string, n: nat)
    ensures var l := Turns(env, Start(env, s, code, stdin), n);
            && CellStart(s).trace + [Eval(code, stdin)] <= l.state.machine.trace
            && (n == 0 ==> l.result == RunCell(env.prog, s, code, stdin).1 && l.deliveries == [] && l.dispatched == [])
  {
    hide RunCell;
    var l0 := Start(env, s, code, stdin);
    RunEvaluatesFirst(env.prog, s, code, stdin);
    Quiet(l0.state.machine, l0.state.machine);
    TurnsInOrder(env, l0.state.machine, l0, n);
  }
}

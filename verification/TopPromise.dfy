/** The top-level promise over a whole run: who settles it, and what a resume reports about it. */
module TopPromise {
  import opened Engine
  import opened Session
  import opened AsyncLoop

  // ─── Attempts to settle ───────────────────────────────────────

  /** The top value after attempts to settle it: the first one that settles a pending promise counts. */
  function SettleAll(top: Top, states: seq<PromiseState>): Top
    decreases |states|
  {
    if states == [] || top != Promise(Pending) then top else SettleAll(Promise(states[0]), states[1..])
  }

  lemma {:induction false} SettleAllConcat(top: Top, a: seq<PromiseState>, b: seq<PromiseState>)
    ensures SettleAll(top, a + b) == SettleAll(SettleAll(top, a), b)
    decreases |a|
  {
    if a == [] {
      assert a + b == b;
    } else if top == Promise(Pending) {
      SettleAllConcat(Promise(a[0]), a[1..], b);
      assert (a + b)[1..] == a[1..] + b;
    }
  }

  lemma {:induction false} SettleAllPending(top: Top, states: seq<PromiseState>)
    ensures SettleAll(top, states) == Promise(Pending)
       <==> top == Promise(Pending) && forall p :: p in states ==> p == Pending
    decreases |states|
  {
    if states != [] && top == Promise(Pending) {
      var first, rest := states[0], states[1..];
      SettleAllPending(Promise(first), rest);
      assert first in states && forall p :: p in states <==> p == first || p in rest;
    }
  }

  /** `m'` comes after `m` in the same cell, and its top value is what the attempts between made of it. */
  ghost predicate Follows(m: Machine, m': Machine) {
    m.settles <= m'.settles && m'.top == SettleAll(m.top, m'.settles[|m.settles|..])
  }

  lemma FollowsTransitive(a: Machine, b: Machine, c: Machine)
    requires Follows(a, b) && Follows(b, c)
    ensures Follows(a, c)
  {
    var early, late := b.settles[|a.settles|..], c.settles[|b.settles|..];
    SettleAllConcat(a.top, early, late);
    assert c.settles[|a.settles|..] == early + late;
  }

  lemma SameTop(m: Machine, m': Machine)
    requires m'.top == m.top && m'.settles == m.settles
    ensures Follows(m, m')
  {
  }

  lemma StepFollows(m: Machine, op: Op)
    requires op.Poll? ==> m.fuel > 0
    ensures Follows(m, Step(m, op))
  {
    if op.SettleTop? {
      assert (m.settles + [op.state])[|m.settles|..] == [op.state];
      assert [op.state][1..] == [];
    } else {
      SameTop(m, Step(m, op));
    }
  }

  lemma {:induction false} ExecFollows(m: Machine, ops: seq<Op>)
    ensures Follows(m, Exec(m, ops).0)
    decreases |ops|
  {
    hide Step, SettleAll;
    if ops == [] || (ops[0].Poll? && m.fuel == 0) {
      SameTop(m, m);
    } else {
      StepFollows(m, ops[0]);
      ExecFollows(Step(m, ops[0]), ops[1..]);
      FollowsTransitive(m, Step(m, ops[0]), Exec(m, ops).0);
    }
  }

  lemma ActivateFollows(prog: Program, m: Machine, event: Event)
    ensures Follows(m, Activate(prog, m, event).0)
  {
    hide Exec, BurstOf, SettleAll;
    var m1 := m.(trace := m.trace + [event]);
    ExecFollows(m1, BurstOf(prog, m.trace, event).ops);
  }

  lemma {:induction false} DrainFollows(prog: Program, m: Machine, count: nat)
    requires count < MAX_PENDING_JOB_DRAIN
    ensures Follows(m, Drain(prog, m, count).0)
    decreases MAX_PENDING_JOB_DRAIN - count
  {
    hide Activate, SettleAll;
    SameTop(m, m);
    if m.jobs != [] {
      var m' := RunNextJob(prog, m);
      ActivateFollows(prog, m.(jobs := m.jobs[1..]), RunJob(m.jobs[0]));
      if count + 1 < MAX_PENDING_JOB_DRAIN && m'.fuel > 0 {
        DrainFollows(prog, m', count + 1);
        FollowsTransitive(m, m', Drain(prog, m, count).0);
      }
    }
  }

  // ─── One resume ───────────────────────────────────────────────

  /** The ways a resume can fail; only one of them speaks about the top-level promise. */
  predicate ResumeError(error: CellError) {
    error.ResumeFailed? || error.FuelExhausted? || error.DrainLimit? || error.TopRejected?
  }

  /** What a result says about the top value. */
  ghost predicate Truthful(m: Machine, r: RunResult) {
    && (r.Finished? ==> m.top != Promise(Rejected))
    && (r.Failed? ==> ResumeError(r.error) && (r.error.TopRejected? ==> m.top == Promise(Rejected)))
  }

  lemma {:induction false} DrainFailsOnLimits(prog: Program, m: Machine, count: nat)
    requires count < MAX_PENDING_JOB_DRAIN
    ensures var error := Drain(prog, m, count).1;
            error.Some? ==> error.value.FuelExhausted? || error.value.DrainLimit?
    decreases MAX_PENDING_JOB_DRAIN - count
  {
    hide Activate;
    if m.jobs != [] && count + 1 < MAX_PENDING_JOB_DRAIN && RunNextJob(prog, m).fuel > 0 {
      DrainFailsOnLimits(prog, RunNextJob(prog, m), count + 1);
    }
  }

  lemma ResumeFollows(prog: Program, m: Machine, id: int, response: Response)
    ensures var (m', r) := ResumeMachine(prog, m, id, response);
            Follows(m, m') && Truthful(m', r)
  {
    hide Activate, Drain, SettleAll;
    var (m1, fault) := ResumePending(prog, m, id, response);
    SameTop(m, m);
    if id in m.pending && m.pending[id].resolve.Some? && m.pending[id].reject.Some? {
      var entry := m.pending[id];
      var closure := if response.ok then entry.resolve.value else entry.reject.value;
      ActivateFollows(prog, m, Callback(closure, PayloadOf(response)));
    }
    assert Follows(m, m1);
    if fault.None? {
      DrainFollows(prog, m1, 0);
      DrainFailsOnLimits(prog, m1, 0);
      var m2 := Drain(prog, m1, 0).0;
      FollowsTransitive(m, m1, m2);
    }
  }

  /**
   With nothing outstanding, a resume and a run judge the top value alike exactly when it is
   not a pending promise; a run reports that as an error, a resume as success.
   */
  lemma ResumeJudgesLikeRun(prog: Program, m: Machine)
    requires m.jobs == [] && m.fuel > 0 && m.pending.Keys == {} && m.queue == []
    ensures ResumeTop(prog, m).1 == Settle(prog, m, 0).1 <==> m.top != Promise(Pending)
    ensures m.top == Promise(Pending) ==>
              ResumeTop(prog, m).1 == Finished(m.stdout) && Settle(prog, m, 0).1 == Failed(m.stdout, StillPending)
  {
    SettleAfterDrain(prog, m);
  }

  /** Should the fuel be gone by then, a resume reports that, unless the top promise is rejected. */
  lemma ResumeWithoutFuel(prog: Program, m: Machine)
    requires m.jobs == [] && m.fuel == 0 && m.pending.Keys == {} && m.queue == []
    ensures ResumeTop(prog, m).0 == m
    ensures ResumeTop(prog, m).1
         == Failed(m.stdout, if m.top == Promise(Rejected) then TopRejected else FuelExhausted)
  {
  }

  // ─── A run ────────────────────────────────────────────────────

  /** `l` comes after `l0` in the same run; every failed delivery, and a good result, is truthful. */
  ghost predicate RunFollows(l0: Loop, l: Loop) {
    && Follows(l0.state.machine, l.state.machine)
    && (l.result.Finished? ==> l.state.machine.top != Promise(Rejected))
    && (forall d :: d in l.deliveries && d.result.Failed? ==>
          ResumeError(d.result.error)
          && (d.result.error.TopRejected? ==> l.state.machine.top == Promise(Rejected)))
  }

  lemma DeliverFollows(env: Env, l0: Loop, l: Loop, command: Command, response: Response)
    requires RunFollows(l0, l)
    ensures RunFollows(l0, Deliver(env, l, command, response))
  {
    hide ResumeMachine, SettleAll;
    var m := l.state.machine.(fuel := l.state.fuelLimit);
    ResumeFollows(env.prog, m, command.callId, response);
    var l' := Deliver(env, l, command, response);
    FollowsTransitive(l0.state.machine, m, l'.state.machine);
    RejectedStays(l.state.machine, l'.state.machine);
    forall d | d in l'.deliveries && d.result.Failed?
      ensures ResumeError(d.result.error)
      ensures d.result.error.TopRejected? ==> l'.state.machine.top == Promise(Rejected)
    {
      assert d in l.deliveries || d == l'.deliveries[|l.deliveries|];
    }
  }

  lemma RejectedStays(m: Machine, m': Machine)
    requires Follows(m, m')
    ensures m.top == Promise(Rejected) ==> m'.top == Promise(Rejected)
  {
  }

  lemma {:induction false} ServeFollows(env: Env, l0: Loop, l: Loop, batch: seq<Command>, responses: seq<Response>,
                                        acc: seq<Command>)
    requires |batch| == |responses| && RunFollows(l0, l)
    ensures RunFollows(l0, Serve(env, l, batch, responses, acc).0)
    decreases |batch|
  {
    hide Deliver, Follows;
    if batch != [] {
      var given := if env.aborted(l.polls) then ABORT_RESPONSE else responses[0];
      DeliverFollows(env, l0, l.(polls := l.polls + 1), batch[0], given);
      var l' := ServeOne(env, l, batch[0], responses[0]);
      ServeFollows(env, l0, l', batch[1..], responses[1..], acc + NewCommands(l'.result));
    }
  }

  lemma {:induction false} AbortAllFollows(env: Env, l0: Loop, l: Loop, batch: seq<Command>)
    requires RunFollows(l0, l)
    ensures RunFollows(l0, AbortAll(env, l, batch))
    decreases |batch|
  {
    hide Deliver, Follows;
    if batch != [] {
      DeliverFollows(env, l0, l, batch[0], ABORT_RESPONSE);
      AbortAllFollows(env, l0, Deliver(env, l, batch[0], ABORT_RESPONSE), batch[1..]);
    }
  }

  lemma {:induction false} TurnsFollow(env: Env, l0: Loop, l: Loop, n: nat)
    requires RunFollows(l0, l)
    ensures RunFollows(l0, Turns(env, l, n))
    decreases n
  {
    hide Serve, AbortAll, Follows;
    if n > 0 && l.result.Yielded? && !l.stopped {
      var batch := l.result.commands;
      if batch != [] && env.aborted(l.polls) {
        AbortAllFollows(env, l0, l.(polls := l.polls + 1, aborted := true), batch);
      } else if batch != [] {
        ServeFollows(env, l0, l.(polls := l.polls + 1, dispatched := l.dispatched + batch), batch,
                     Responses(env, |l.dispatched|, batch), []);
      }
      TurnsFollow(env, l0, Turn(env, l), n - 1);
    }
  }
}

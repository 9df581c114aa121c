/** How a run of the loop can end, and what its result then says about the cell. */
module LoopEndings {
  import opened Wrappers
  import opened Engine
  import opened Session
  import opened SessionLaws
  import opened AsyncLoop
  import opened TopPromise
  import opened LoopLaws
  import opened LoopTurns
  import opened LoopTheorems

  // ─── Abort ────────────────────────────────────────────────────

  /** Deliveries that carry the abort error, from the `k`-th on. */
  ghost predicate AbortedFrom(deliveries: seq<Delivery>, k: nat) {
    forall j :: k <= j < |deliveries| ==> deliveries[j].response == ABORT_RESPONSE
  }

  lemma {:induction false} AbortAllResponds(env: Env, l: Loop, batch: seq<Command>, k: nat)
    requires AbortedFrom(l.deliveries, k)
    ensures var l' := AbortAll(env, l, batch);
            && Commands(l'.deliveries) == Commands(l.deliveries) + batch
            && AbortedFrom(l'.deliveries, k)
            && l'.dispatched == l.dispatched
    decreases |batch|
  {
    hide ResumeCell;
    if batch == [] {
      assert Commands(l.deliveries) + batch == Commands(l.deliveries);
    } else {
      var l1 := Deliver(env, l, batch[0], ABORT_RESPONSE);
      ServedAppend(l.deliveries, l1.deliveries[|l.deliveries|]);
      AbortAllResponds(env, l1, batch[1..], k);
      assert Commands(l.deliveries) + [batch[0]] + batch[1..] == Commands(l.deliveries) + batch;
    }
  }

  lemma {:induction false} AbortEndsTurns(env: Env, l: Loop, n: nat)
    requires LoopInv(env, l) && !l.stopped
    ensures var l' := Turns(env, l, n);
            l'.aborted ==>
              && l'.dispatched < Commands(l'.deliveries)
              && AbortedFrom(l'.deliveries, |l'.dispatched|)
    decreases n
  {
    hide Inv, Reached, Serve, AbortAll, Chain;
    if n > 0 && l.result.Yielded? && l.result.commands != [] {
      var batch := l.result.commands;
      if env.aborted(l.polls) {
        AbortAllResponds(env, l.(polls := l.polls + 1, aborted := true), batch, |l.dispatched|);
      } else {
        ServeTurnKeepsLoopInv(env, l);
        ServeKeepsFlags(env, l.(polls := l.polls + 1, dispatched := l.dispatched + batch), batch,
                        Responses(env, |l.dispatched|, batch), []);
        AbortEndsTurns(env, Turn(env, l), n - 1);
      }
    }
  }

  /**
   When an abort ends a run, each command given to the handler has been resumed, and the whole
   batch that was next is resumed with the abort error instead of being given to the handler.
   */
  lemma AbortSkipsHandler(env: Env, s: State, code: string, stdin: string, n: nat)
    ensures var l := CellRun(env, s, code, stdin, n);
            l.aborted ==>
              && l.dispatched < Commands(l.deliveries)
              && AbortedFrom(l.deliveries, |l.dispatched|)
  {
    StartKeepsLoopInv(env, s, code, stdin);
    AbortEndsTurns(env, Start(env, s, code, stdin), n);
  }

  // ─── The end of a run ─────────────────────────────────────────

  predicate Over(l: Loop) {
    l.stopped || !l.result.Yielded?
  }

  lemma {:induction false} TurnsSplit(env: Env, l: Loop, n: nat, more: nat)
    ensures Turns(env, l, n + more) == Turns(env, Turns(env, l, n), more)
    decreases n
  {
    hide Turn;
    if n > 0 && !Over(l) {
      TurnsSplit(env, Turn(env, l), n - 1, more);
    }
  }

  /** The commands that were handed out and never resumed. */
  ghost function Unresumed(l: Loop): seq<Command>
    requires |l.deliveries| <= |l.state.machine.drained|
  {
    l.state.machine.drained[|l.deliveries|..]
  }

  lemma EndIsBetween(env: Env, l: Loop)
    requires LoopInv(env, l)
    ensures |l.deliveries| <= |l.state.machine.drained| && Between(env, l, Unresumed(l))
  {
    hide Base;
    assert |Commands(l.deliveries)| == |l.deliveries|;
  }

  /**
   What a batch yields while it is resumed is dropped when the loop ends with that batch, be it
   by an abort or because the last resume failed: no later turn dispatches any of it.
   */
  lemma EndDropsYielded(env: Env, s: State, code: string, stdin: string, n: nat, more: nat)
    ensures var l := CellRun(env, s, code, stdin, n);
            AtBatch(l) ==>
              var (mid, acc) := Midway(env, l, |l.result.commands|);
              var end := CellRun(env, s, code, stdin, n + 1 + more);
              env.aborted(l.polls) || mid.result.Failed? ==>
                && |end.deliveries| <= |end.state.machine.drained|
                && Unresumed(end) == acc
                && (|end.state.machine.log| < U32_SIZE ==> Ids(acc) !! Ids(end.dispatched))
  {
    hide Turn, Turns, Midway, Serve, AbortAll, Lost, Base, LoopInv;
    var l := CellRun(env, s, code, stdin, n);
    if AtBatch(l) {
      var (mid, acc) := Midway(env, l, |l.result.commands|);
      RunKeepsLoopInv(env, s, code, stdin, n);
      MidwayIsBetween(env, l, |l.result.commands|);
      MidwayEndsTurn(env, l);
      TurnsSplit(env, Start(env, s, code, stdin), n, 1 + more);
      if env.aborted(l.polls) || mid.result.Failed? {
        OneTurnOver(env, l, more);
        assert l.result.commands[|l.result.commands|..] + acc == acc;
        DispatchedWereResumed(env, s, code, stdin, n + 1 + more);
        NothingDispatched(env, Turn(env, l), acc);
      }
    }
  }

  lemma OneTurnOver(env: Env, l: Loop, more: nat)
    requires AtBatch(l) && Over(Turn(env, l))
    ensures Turns(env, l, 1 + more) == Turn(env, l)
  {
    hide Turn;
    assert Turns(env, Turn(env, l), more) == Turn(env, l);
  }

  lemma DispatchedWereResumed(env: Env, s: State, code: string, stdin: string, n: nat)
    ensures var l := CellRun(env, s, code, stdin, n);
            Inv(l.state.machine) && l.dispatched <= l.state.machine.drained && |l.dispatched| <= |l.deliveries|
  {
    hide Chain, Reached, Apart, CellRun;
    RunKeepsLoopInv(env, s, code, stdin, n);
    AbortSkipsHandler(env, s, code, stdin, n);
  }

  lemma NothingDispatched(env: Env, l: Loop, rest: seq<Command>)
    requires Inv(l.state.machine) && l.state.machine.drained == Commands(l.deliveries) + rest
    requires l.dispatched <= l.state.machine.drained && |l.dispatched| <= |l.deliveries|
    ensures |l.deliveries| <= |l.state.machine.drained| && Unresumed(l) == rest
    ensures |l.state.machine.log| < U32_SIZE ==> Ids(rest) !! Ids(l.dispatched)
  {
    hide Kept, Numbered, Increasing, Ids, Accounted;
    var drained := l.state.machine.drained;
    assert drained[|l.deliveries|..] == rest;
    assert drained[..|l.dispatched|] == l.dispatched;
    if |l.state.machine.log| < U32_SIZE {
      QueueAfterDrained(l.state.machine);
      IncreasingApart(drained, |l.dispatched|, |l.deliveries|);
    }
  }

  /**
   An aborted run that ends without error leaves the cell pending exactly when some call is still
   live: one that the abort resumes yielded, and nobody will dispatch, or one whose own resume
   failed; unless user code cleared it.  Otherwise the cell has finished.
   */
  lemma AbortedPendingExactlyWhen(env: Env, s: State, code: string, stdin: string, n: nat)
    ensures var l := CellRun(env, s, code, stdin, n);
            var m := l.state.machine;
            l.aborted && !l.result.Failed? && |m.log| < I32_SIZE ==>
              && |l.deliveries| <= |m.drained|
              && (l.result.Yielded? <==>
                    Ids(Unresumed(l)) - m.cleared != {} || FaultIds(l.deliveries) - m.cleared != {})
  {
    var l := CellRun(env, s, code, stdin, n);
    RunKeepsLoopInv(env, s, code, stdin, n);
    EndIsBetween(env, l);
    AbortSkipsHandler(env, s, code, stdin, n);
    hide CellRun, Base;
    if l.aborted && |l.state.machine.log| < I32_SIZE {
      BetweenIsConserved(env, l, Unresumed(l));
    }
  }

  // ─── A good end ───────────────────────────────────────────────

  /**
   A run that ends well never leaves the top promise rejected; it leaves it pending exactly when
   the first evaluation did and no attempt to settle it has been made since.
   */
  lemma FinishedPendingExactlyWhen(env: Env, s: State, code: string, stdin: string, n: nat)
    ensures var m0 := Start(env, s, code, stdin).state.machine;
            var l := CellRun(env, s, code, stdin, n);
            var m := l.state.machine;
            && m0.settles <= m.settles
            && (l.result.Finished? ==>
                  && m.top != Promise(Rejected)
                  && (m.top == Promise(Pending) <==>
                        m0.top == Promise(Pending) && forall p :: p in m.settles[|m0.settles|..] ==> p == Pending))
  {
    var l0 := Start(env, s, code, stdin);
    RunKeepsInv(env.prog, s, code, stdin);
    SameTop(l0.state.machine, l0.state.machine);
    TurnsFollow(env, l0, l0, n);
    var m0, m := l0.state.machine, CellRun(env, s, code, stdin, n).state.machine;
    SettleAllPending(m0.top, m.settles[|m0.settles|..]);
  }

  // ─── The last resume decides ──────────────────────────────────

  /** The result is that of the last resume, or pending in place of one that did not fail. */
  ghost predicate LastDecides(l: Loop) {
    l.deliveries != [] ==>
      var last := l.deliveries[|l.deliveries| - 1].result;
      l.result == last || (l.result.Yielded? && !last.Failed?)
  }

  lemma {:induction false} TurnsLastDecides(env: Env, l: Loop, n: nat)
    requires LastDecides(l) && !l.stopped && !l.aborted
    ensures var l' := Turns(env, l, n); LastDecides(l') || (l'.stopped && !l'.aborted && l'.result.Failed?)
    decreases n
  {
    hide Turn, Yields;
    if n > 0 && l.result.Yielded? {
      TurnMeaning(env, l);
      if l.result.commands != [] && !env.aborted(l.polls) {
        TurnsLastDecides(env, Turn(env, l), n - 1);
      }
    }
  }

  /**
   The loop reports the failure of a resume exactly when it is the last one, then as it is; only
   the error for an empty batch comes from elsewhere.  So where a run reports no error, every
   resume went well exactly when all before the last one did, and the failure of any earlier
   one is hidden.
   */
  lemma LastResumeDecides(env: Env, s: State, code: string, stdin: string, n: nat)
    ensures var l := CellRun(env, s, code, stdin, n);
            l.deliveries != [] && !(l.stopped && !l.aborted) ==>
              var last := l.deliveries[|l.deliveries| - 1].result;
              && (l.result.Failed? <==> last.Failed?)
              && (l.result.Failed? ==> l.result == last)
    ensures var l := CellRun(env, s, code, stdin, n);
            !l.result.Failed? ==>
              ((forall j :: 0 <= j < |l.deliveries| ==> !l.deliveries[j].result.Failed?)
               <==> (forall j :: 0 <= j < |l.deliveries| - 1 ==> !l.deliveries[j].result.Failed?))
  {
    var l := CellRun(env, s, code, stdin, n);
    TurnsLastDecides(env, Start(env, s, code, stdin), n);
    hide CellRun, LastDecides;
    LastDecidesMeans(l);
  }

  lemma LastDecidesMeans(l: Loop)
    requires LastDecides(l) || (l.stopped && !l.aborted && l.result.Failed?)
    ensures l.deliveries != [] && !(l.stopped && !l.aborted) ==>
              var last := l.deliveries[|l.deliveries| - 1].result;
              (l.result.Failed? <==> last.Failed?) && (l.result.Failed? ==> l.result == last)
    ensures !l.result.Failed? ==>
              ((forall j :: 0 <= j < |l.deliveries| ==> !l.deliveries[j].result.Failed?)
               <==> (forall j :: 0 <= j < |l.deliveries| - 1 ==> !l.deliveries[j].result.Failed?))
  {
  }

  /**
   A failure that a run with a good end hides, being that of an earlier resume, is one of these: a drain
   that ran out of fuel or reached its job limit, the entry being gone by then, or a resume whose
   entry user code cleared, before or after.
   */
  lemma HiddenFailures(env: Env, s: State, code: string, stdin: string, n: nat, d: Delivery)
    ensures var l := CellRun(env, s, code, stdin, n);
            var m := l.state.machine;
            l.result.Finished? && d in l.deliveries && d.result.Failed? && |m.log| < I32_SIZE ==>
              d.result.error.FuelExhausted? || d.result.error.DrainLimit?
              || (d.result.error.ResumeFailed? && d.command.callId in m.cleared)
  {
    var l0 := Start(env, s, code, stdin);
    var l := CellRun(env, s, code, stdin, n);
    RunKeepsInv(env.prog, s, code, stdin);
    SameTop(l0.state.machine, l0.state.machine);
    TurnsFollow(env, l0, l0, n);
    RunKeepsLoopInv(env, s, code, stdin, n);
    EndIsBetween(env, l);
    hide CellRun, Base;
    if l.result.Finished? && d in l.deliveries && Fault(d) && |l.state.machine.log| < I32_SIZE {
      BetweenIsConserved(env, l, Unresumed(l));
      assert d.command.callId in FaultIds(l.deliveries);
    }
  }

  // ─── Instances: a promise nobody settles ──────────────────────

  /** A cell that awaits a promise nobody settles, next to one ordinary call. */
  function Unsettled(trace: seq<Event>): Burst {
    if trace != [] && trace[|trace| - 1].Eval? then
      Burst([NAP_TRIGGER], Returns(Promise(Pending)))
    else
      Burst([], Returns(Absent))
  }

  const NAP := Command(1, "sleep", Json("{}"))
  const NAP_ENTRY := Entry("sleep", Some(User(0)), Some(User(1)))

  const NAP_TRIGGER := TriggerAsync("sleep", Json("{}"), Some(User(0)), Some(User(1)))

  lemma NapRun(prog: Program)
    requires prog([Eval("", "")]) == Burst([NAP_TRIGGER], Returns(Promise(Pending)))
    ensures RunCell(prog, State(FRESH, false, 1), "", "") ==
            (State(Machine([], [], 1, map[1 := NAP_ENTRY], [], 1, Promise(Pending), [Eval("", "")],
                           [NAP], [NAP_ENTRY], [NAP], {}, {}, {}, [], [Done(NAP_TRIGGER, [], {})]), false, 1),
             Yielded([], [NAP]))
  {
    var m := StartCell(State(FRESH, false, 1));
    var m1 := m.(trace := [Eval("", "")]);
    assert m.trace + [Eval("", "")] == [Eval("", "")];
    assert [NAP_TRIGGER][1..] == [];
    var m2 := Step(m1, NAP_TRIGGER);
    assert Exec(m1, [NAP_TRIGGER]) == Exec(m2, []) == (m2, true);
    assert m2.queue == [NAP] && m2.log == [NAP] && m2.entries == [NAP_ENTRY];
    assert m2.drained + m2.queue == [NAP];
    assert m1.pending.Keys == {} && m2.done == [Done(NAP_TRIGGER, [], {})];
  }

  lemma UnsettledResume(m: Machine, response: Response)
    requires m.pending == map[1 := NAP_ENTRY] && m.top == Promise(Pending)
    requires m.queue == [] && m.jobs == [] && m.fuel > 0
    ensures var (m', r) := ResumeMachine(Unsettled, m, 1, response);
            r == Finished(m.stdout) && m'.top == Promise(Pending)
  {
    var closure := if response.ok then User(0) else User(1);
    var m1 := Activate(Unsettled, m, Callback(closure, PayloadOf(response))).0;
    assert m1 == m.(trace := m1.trace);
    assert m1.pending - {1} == map[];
  }

  /**
   A run whose promise stays pending with nothing queued is an error, but a resume in the same
   position reports success: the loop's result can be good while the cell never finished.
   */
  lemma FinishedWhileStillPending()
    ensures var env := Env(Unsettled, (k, c) => Handled(Response(true, None, None)), k => false);
            var l := CellRun(env, State(FRESH, false, 1), "", "", 1);
            l.result == Finished([]) && l.state.machine.top == Promise(Pending)
  {
    hide RunCell, ResumeMachine;
    var env := Env(Unsettled, (k, c) => Handled(Response(true, None, None)), k => false);
    NapRun(Unsettled);
    var l0 := Start(env, State(FRESH, false, 1), "", "");
    var l1 := l0.(polls := 1, dispatched := l0.dispatched + [NAP]);
    var responses := Responses(env, 0, [NAP]);
    UnsettledResume(l0.state.machine, responses[0]);
    assert [NAP][1..] == [] && responses[1..] == [];
    var l2 := ServeOne(env, l1, NAP, responses[0]);
    assert l0.state.machine.(fuel := 1) == l0.state.machine;
    assert l2.result == Finished([]);
    assert NewCommands(l2.result) == [];
    var none: seq<Command> := [];
    assert none + NewCommands(l2.result) == [];
    assert Serve(env, l1, [NAP], responses, []) == Serve(env, l2, [], [], none + NewCommands(l2.result)) == (l2, []);
    assert Turns(env, l0, 1) == Turns(env, Turn(env, l0), 0);
  }

  // ─── Instance: a call in answer to the abort ──────────────────

  /** A cell that answers a rejected call with another call. */
  function Retrying(trace: seq<Event>): Burst {
    if trace != [] && (trace[|trace| - 1].Eval? || trace[|trace| - 1].Callback?) then
      Burst([NAP_TRIGGER], Returns(Promise(Pending)))
    else
      Burst([], Returns(Absent))
  }

  const SECOND_NAP := Command(2, "sleep", Json("{}"))

  lemma RetryingResume(m: Machine)
    requires m.pending == map[1 := NAP_ENTRY] && m.counter == 1
    requires m.queue == [] && m.jobs == [] && m.fuel > 0
    ensures ResumeMachine(Retrying, m, 1, ABORT_RESPONSE).1 == Yielded(m.stdout, [SECOND_NAP])
  {
    var event := Callback(User(1), PayloadOf(ABORT_RESPONSE));
    var m1 := m.(trace := m.trace + [event]);
    assert [NAP_TRIGGER][1..] == [];
    var m2 := Step(m1, NAP_TRIGGER);
    assert Exec(m1, [NAP_TRIGGER]) == Exec(m2, []) == (m2, true);
    assert m2.queue == [SECOND_NAP];
    assert 2 in m2.pending.Keys - {1};
  }

  /** An aborted cell need not unwind: the loop can return a pending result whose command is lost. */
  lemma AbortedWhileStillPending()
    ensures var env := Env(Retrying, (k, c) => Handled(Response(true, None, None)), k => true);
            var l := CellRun(env, State(FRESH, false, 1), "", "", 1);
            l.aborted && l.dispatched == [] && l.result == Yielded([], [SECOND_NAP])
  {
    hide RunCell, ResumeMachine;
    var env := Env(Retrying, (k, c) => Handled(Response(true, None, None)), k => true);
    NapRun(Retrying);
    var l0 := Start(env, State(FRESH, false, 1), "", "");
    RetryingResume(l0.state.machine);
    assert l0.state.machine.(fuel := 1) == l0.state.machine;
    assert [NAP][1..] == [];
    var l1 := l0.(polls := 1, aborted := true);
    var l2 := Deliver(env, l1, NAP, ABORT_RESPONSE);
    assert AbortAll(env, l1, [NAP]) == AbortAll(env, l2, []) == l2;
    assert Turns(env, l0, 1) == Turns(env, Turn(env, l0), 0);
  }

  // ─── Instances: two timers ────────────────────────────────────

  const TIMERS := [SetTimeout(Some(0), 0.0), SetTimeout(Some(1), 0.0)]
  const FIRST := Command(1, "sleep", Duration(0.0))
  const SECOND := Command(2, "sleep", Duration(0.0))
  const FIRST_ENTRY := Entry("sleep", Some(TimerCallback(0)), Some(Ignore))
  const SECOND_ENTRY := Entry("sleep", Some(TimerCallback(1)), Some(Ignore))
  const OK := Response(true, None, None)

  lemma TimersRun(prog: Program)
    requires prog([Eval("", "")]) == Burst(TIMERS, Returns(Plain))
    ensures RunCell(prog, State(FRESH, false, 1), "", "") ==
            (State(Machine([], [], 2, map[1 := FIRST_ENTRY, 2 := SECOND_ENTRY], [], 1, Plain, [Eval("", "")],
                           [FIRST, SECOND], [FIRST_ENTRY, SECOND_ENTRY], [FIRST, SECOND], {}, {}, {}, [],
                           [Done(TIMERS[0], [], {}), Done(TIMERS[1], [FIRST], {1})]), false, 1),
             Yielded([], [FIRST, SECOND]))
  {
    var m1 := StartCell(State(FRESH, false, 1)).(trace := [Eval("", "")]);
    assert [] + [Eval("", "")] == [Eval("", "")];
    var m2 := Step(m1, TIMERS[0]);
    var m3 := Step(m2, TIMERS[1]);
    assert TIMERS[1..] == [TIMERS[1]] && [TIMERS[1]][1..] == [];
    assert Exec(m1, TIMERS) == Exec(m2, [TIMERS[1]]) == Exec(m3, []) == (m3, true);
    assert m2.queue == [FIRST] && m3.queue == [FIRST, SECOND] && m3.log == [FIRST, SECOND];
    assert m3.entries == [FIRST_ENTRY, SECOND_ENTRY];
    assert m3.pending == map[1 := FIRST_ENTRY, 2 := SECOND_ENTRY];
    assert m3.drained + m3.queue == [FIRST, SECOND];
    assert m1.pending.Keys == {} && m2.pending.Keys == {1};
    assert m3.done == [Done(TIMERS[0], [], {}), Done(TIMERS[1], [FIRST], {1})];
  }

  /** One turn that resumes both timers. */
  lemma BothResumed(env: Env, l0: Loop)
    requires l0.result == Yielded([], [FIRST, SECOND]) && l0.dispatched == [] && !l0.stopped
    requires (forall k, c :: env.handle(k, c) == Handled(OK)) && (forall k :: !env.aborted(k))
    ensures var l1 := l0.(polls := l0.polls + 1, dispatched := [FIRST, SECOND]);
            var l2 := ServeOne(env, l1, FIRST, OK);
            var l3 := ServeOne(env, l2, SECOND, OK);
            NewCommands(l2.result) == [] && NewCommands(l3.result) == [] ==> Turns(env, l0, 1) == l3
  {
    hide ServeOne;
    var batch := [FIRST, SECOND];
    var l1 := l0.(polls := l0.polls + 1, dispatched := batch);
    assert l0.dispatched + batch == batch;
    var responses := Responses(env, 0, batch);
    assert responses == [OK, OK];
    var l2 := ServeOne(env, l1, FIRST, OK);
    var l3 := ServeOne(env, l2, SECOND, OK);
    if NewCommands(l2.result) == [] && NewCommands(l3.result) == [] {
      assert batch[1..] == [SECOND] && [OK, OK][1..] == [OK];
      assert Serve(env, l2, [SECOND], [OK], []) == (l3, []) by {
        assert [SECOND][1..] == [] && [OK][1..] == [];
        var none: seq<Command> := [];
        assert none + [] == none;
      }
      var none: seq<Command> := [];
      assert none + NewCommands(l2.result) == none;
      assert Serve(env, l1, batch, responses, []) == Serve(env, l2, [SECOND], [OK], none);
      assert Turns(env, l0, 1) == Turns(env, Turn(env, l0), 0);
    }
  }

  predicate IsCallback(trace: seq<Event>, callback: nat) {
    trace != [] && trace[|trace| - 1].Callback? && trace[|trace| - 1].closure == TimerCallback(callback)
  }

  /** A cell whose first timer clears the second. */
  function Clearing(trace: seq<Event>): Burst {
    if trace != [] && trace[|trace| - 1].Eval? then Burst(TIMERS, Returns(Plain))
    else if IsCallback(trace, 0) then Burst([ClearTimer(2)], Returns(Absent))
    else Burst([], Returns(Absent))
  }

  lemma ClearingResume(m: Machine)
    requires m.pending == map[1 := FIRST_ENTRY, 2 := SECOND_ENTRY] && m.top == Plain
    requires m.queue == [] && m.jobs == [] && m.fuel > 0
    ensures var (m', r) := ResumeMachine(Clearing, m, 1, OK);
            r == Finished(m.stdout) && m'.pending == map[] && m'.stdout == m.stdout
  {
    var event := Callback(TimerCallback(0), PayloadOf(OK));
    var m1 := m.(trace := m.trace + [event]);
    assert [ClearTimer(2)][1..] == [];
    var m2 := Step(m1, ClearTimer(2));
    assert Exec(m1, [ClearTimer(2)]) == Exec(m2, []) == (m2, true);
    assert m2.pending == map[1 := FIRST_ENTRY];
    assert m2.pending - {1} == map[];
  }

  /** Both timers were handed out; the first clears the second, whose resume then fails the cell. */
  lemma ClearedTimerFailsCell()
    ensures var env := Env(Clearing, (k, c) => Handled(OK), k => false);
            var l := CellRun(env, State(FRESH, false, 1), "", "", 1);
            l.result == Failed([], ResumeFailed(NoEntry))
  {
    hide RunCell, ResumeMachine;
    var env := Env(Clearing, (k, c) => Handled(OK), k => false);
    TimersRun(Clearing);
    var l0 := Start(env, State(FRESH, false, 1), "", "");
    BothResumed(env, l0);
    assert l0.state.machine.(fuel := 1) == l0.state.machine;
    ClearingResume(l0.state.machine);
    var l1 := l0.(polls := l0.polls + 1, dispatched := [FIRST, SECOND]);
    var l2 := ServeOne(env, l1, FIRST, OK);
    MissingResume(Clearing, l2.state.machine.(fuel := 1));
  }

  lemma MissingResume(prog: Program, m: Machine)
    requires m.pending == map[]
    ensures ResumeMachine(prog, m, 2, OK).1 == Failed(m.stdout, ResumeFailed(NoEntry))
  {
  }

  /** A cell whose first timer leaves a job that uses up the fuel. */
  function Burning(trace: seq<Event>): Burst {
    if trace != [] && trace[|trace| - 1].Eval? then Burst(TIMERS, Returns(Plain))
    else if IsCallback(trace, 0) then Burst([Enqueue(0)], Returns(Absent))
    else if trace != [] && trace[|trace| - 1].RunJob? then Burst([Poll], Returns(Absent))
    else Burst([], Returns(Absent))
  }

  lemma BurningJob(m: Machine)
    requires m.jobs == [0] && m.fuel == 1
    ensures var (m', error) := Drain(Burning, m, 0);
            error == Some(FuelExhausted) && m' == m.(jobs := [], fuel := 0, trace := m'.trace, done := m'.done)
  {
    assert m.jobs[1..] == [] && [Poll][1..] == [];
    var m1 := m.(jobs := [], trace := m.trace + [RunJob(0)]);
    var m2 := Step(m1, Poll);
    assert Exec(m1, [Poll]) == Exec(m2, []) == (m2, true);
    assert RunNextJob(Burning, m) == m2;
  }

  lemma BurningResume(m: Machine)
    requires m.pending == map[1 := FIRST_ENTRY, 2 := SECOND_ENTRY] && m.top == Plain
    requires m.queue == [] && m.jobs == [] && m.fuel == 1
    ensures var (m', r) := ResumeMachine(Burning, m, 1, OK);
            && r == Failed(m.stdout, FuelExhausted)
            && m'.pending == map[2 := SECOND_ENTRY] && m'.top == Plain
            && m'.queue == [] && m'.jobs == [] && m'.stdout == m.stdout
  {
    hide Drain;
    var event := Callback(TimerCallback(0), PayloadOf(OK));
    var m1 := m.(trace := m.trace + [event]);
    assert [Enqueue(0)][1..] == [];
    var m2 := Step(m1, Enqueue(0));
    assert Exec(m1, [Enqueue(0)]) == Exec(m2, []) == (m2, true);
    assert m2.jobs == [0];
    assert m2.pending - {1} == map[2 := SECOND_ENTRY];
    BurningJob(m2.(pending := m2.pending - {1}, deleted := m2.deleted + {1}));
  }

  lemma QuietResume(m: Machine)
    requires m.pending == map[2 := SECOND_ENTRY] && m.top == Plain
    requires m.queue == [] && m.jobs == [] && m.fuel > 0
    ensures ResumeMachine(Burning, m, 2, OK).1 == Finished(m.stdout)
  {
    var m1 := Activate(Burning, m, Callback(TimerCallback(1), PayloadOf(OK))).0;
    assert m1 == m.(trace := m1.trace);
    assert m1.pending - {2} == map[];
  }

  /** The first resume runs out of fuel, the second succeeds, and the run reports success. */
  lemma ExhaustedResumeHidden()
    ensures var env := Env(Burning, (k, c) => Handled(OK), k => false);
            var l := CellRun(env, State(FRESH, false, 1), "", "", 1);
            l.result == Finished([]) && |l.deliveries| == 2 && l.deliveries[0].result == Failed([], FuelExhausted)
  {
    hide RunCell, ResumeMachine;
    var env := Env(Burning, (k, c) => Handled(OK), k => false);
    TimersRun(Burning);
    var l0 := Start(env, State(FRESH, false, 1), "", "");
    BothResumed(env, l0);
    assert l0.state.machine.(fuel := 1) == l0.state.machine;
    BurningResume(l0.state.machine);
    var l1 := l0.(polls := l0.polls + 1, dispatched := [FIRST, SECOND]);
    var l2 := ServeOne(env, l1, FIRST, OK);
    QuietResume(l2.state.machine.(fuel := 1));
  }
}

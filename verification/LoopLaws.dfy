/** What `run_cell_async_loop` guarantees about ids, entries, responses and output. */
module LoopLaws {
  import opened Engine
  import opened Session
  import opened SessionLaws
  import opened AsyncLoop

  ghost function Commands(deliveries: seq<Delivery>): (commands: seq<Command>)
    ensures |commands| == |deliveries|
  {
    seq(|deliveries|, i requires 0 <= i < |deliveries| => deliveries[i].command)
  }

  /** The resume itself failed, so the entry was not deleted. */
  predicate Fault(d: Delivery) {
    d.result.Failed? && d.result.error.ResumeFailed?
  }

  ghost function FaultIds(deliveries: seq<Delivery>): set<int> {
    set d | d in deliveries && Fault(d) :: d.command.callId
  }

  ghost function ServedIds(deliveries: seq<Delivery>): set<int> {
    set d | d in deliveries && !Fault(d) :: d.command.callId
  }

  ghost predicate Chain(outputs: seq<seq<string>>) {
    forall i :: 0 <= i < |outputs| - 1 ==> outputs[i] <= outputs[i + 1]
  }

  /** The stdout of each result in turn: the run's, then one for each resume. */
  ghost function Outputs(l: Loop): (outputs: seq<seq<string>>)
    ensures |outputs| == |l.deliveries| + 1
  {
    [l.first.stdout] + seq(|l.deliveries|, i requires 0 <= i < |l.deliveries| => l.deliveries[i].result.stdout)
  }

  /** The resume found a callable entry, so it entered the engine. */
  predicate Activated(d: Delivery) {
    !(d.result.Failed? && d.result.error in {ResumeFailed(NoEntry), ResumeFailed(NotCallable)})
  }

  /** No two resumes share an entry into the engine. */
  ghost predicate Apart(m: Machine, deliveries: seq<Delivery>) {
    && (forall i :: 0 <= i < |deliveries| ==>
          deliveries[i].at <= |m.trace| && (Activated(deliveries[i]) ==> deliveries[i].at < |m.trace|))
    && (forall i, j :: 0 <= i < j < |deliveries| && Activated(deliveries[i]) ==> deliveries[i].at < deliveries[j].at)
  }

  /** A delivery reached the closure stored by its own trigger, or failed for a stated reason. */
  ghost predicate Reached(m: Machine, d: Delivery) {
    var id := d.command.callId;
    1 <= id <= |m.entries| &&
    var entry := m.entries[id - 1];
    if d.result.Failed? && d.result.error == ResumeFailed(NoEntry) then
      |m.log| < I32_SIZE ==> id in m.cleared
    else if d.result.Failed? && d.result.error == ResumeFailed(NotCallable) then
      entry.resolve.None? || entry.reject.None?
    else
      d.at < |m.trace| && Reaches(m.trace[d.at], entry, d.response)
  }

  ghost predicate Base(env: Env, l: Loop) {
    var m := l.state.machine;
    && Inv(m)
    && m.deleted == ServedIds(l.deliveries)
    && l.result.stdout == m.stdout
    && Chain(Outputs(l) + [m.stdout])
    && l.dispatched <= m.drained
    && Apart(m, l.deliveries)
    && (|m.log| < U32_SIZE ==> forall d :: d in l.deliveries ==> Reached(m, d))
  }

  /** Between two resumes: `rest` has been handed out by the engine and not yet been resumed. */
  ghost predicate Between(env: Env, l: Loop, rest: seq<Command>) {
    Base(env, l) && l.state.machine.drained == Commands(l.deliveries) + rest
  }

  // ─── One resume ───────────────────────────────────────────────

  /** What the result of one resume says about what is still outstanding. */
  ghost predicate Consistent(l: Loop) {
    var m := l.state.machine;
    && (l.result.Yielded? ==> m.queue == [] && (m.pending.Keys != {} || l.result.commands != []))
    && (l.result.Yielded? && |m.log| < U32_SIZE ==> m.pending.Keys != {})
    && (l.result.Finished? || (l.result.Failed? && l.result.error.TopRejected?) ==>
          m.queue == [] && m.pending.Keys == {} && m.jobs == [])
  }

  lemma ReachedStays(m: Machine, m': Machine, d: Delivery)
    requires Reached(m, d) && m.log <= m'.log && m.entries <= m'.entries
    requires m.trace <= m'.trace && m.cleared <= m'.cleared
    ensures Reached(m', d)
  {
  }

  lemma HandedOutEntry(m: Machine, command: Command)
    requires Ordered(m) && command in m.drained
    ensures 1 <= command.callId <= |m.entries|
    ensures command.callId in m.pending ==> m.pending[command.callId] == m.entries[command.callId - 1]
  {
    QueueAfterDrained(m);
    assert command in m.drained + m.queue;
  }

  lemma DeliveryReaches(m: Machine, m': Machine, command: Command, response: Response, r: RunResult, looks: nat)
    requires |m'.log| < U32_SIZE && Inv(m) && command in m.drained
    requires (|m.log| < I32_SIZE ==> command.callId !in m.deleted)
    requires ResumeEffect(m, m', command.callId, response, r)
    ensures Reached(m', Delivery(command, response, r, |m.trace|, looks))
  {
    hide Kept, Numbered;
    HandedOutEntry(m, command);
    assert m'.entries[command.callId - 1] == m.entries[command.callId - 1];
  }

  lemma ServedAppend(deliveries: seq<Delivery>, d: Delivery)
    ensures Commands(deliveries + [d]) == Commands(deliveries) + [d.command]
    ensures ServedIds(deliveries + [d]) == ServedIds(deliveries) + (if Fault(d) then {} else {d.command.callId})
    ensures FaultIds(deliveries + [d]) == FaultIds(deliveries) + (if Fault(d) then {d.command.callId} else {})
  {
    var all := deliveries + [d];
    assert forall x :: x in all <==> x in deliveries || x == d;
  }

  lemma NotYetServed(m: Machine, deliveries: seq<Delivery>, command: Command, rest: seq<Command>)
    requires Ordered(m) && m.drained == Commands(deliveries) + ([command] + rest)
    ensures command.callId !in ServedIds(deliveries)
  {
    QueueAfterDrained(m);
    IncreasingSplit(Commands(deliveries), [command] + rest);
    forall d | d in deliveries ensures d.command.callId != command.callId {
      var i :| 0 <= i < |deliveries| && deliveries[i] == d;
      assert Commands(deliveries)[i].callId < ([command] + rest)[0].callId;
    }
  }

  lemma ChainAppend(outputs: seq<seq<string>>, last: seq<string>, next: seq<string>)
    requires Chain(outputs + [last]) && last <= next
    ensures Chain(outputs + [next] + [next])
  {
    var old' := outputs + [last];
    forall i | 0 <= i < |outputs| + 1
      ensures (outputs + [next] + [next])[i] <= (outputs + [next] + [next])[i + 1]
    {
      if i < |outputs| {
        assert old'[i] <= old'[i + 1];
      }
    }
  }

  function NextDelivery(l: Loop, command: Command, response: Response, result: RunResult): Delivery {
    Delivery(command, response, result, |l.state.machine.trace|, l.polls)
  }

  lemma DeliverEffect(env: Env, l: Loop, command: Command, response: Response, rest: seq<Command>)
    requires Between(env, l, [command] + rest)
    ensures var l' := Deliver(env, l, command, response);
            && command in l.state.machine.drained
            && Inv(l'.state.machine)
            && ResumeEffect(l.state.machine.(fuel := l.state.fuelLimit), l'.state.machine,
                            command.callId, response, l'.result)
            && l' == l.(state := l'.state, result := l'.result,
                        deliveries := l.deliveries + [NextDelivery(l, command, response, l'.result)])
  {
    var m := l.state.machine;
    assert m.drained[|l.deliveries|] == command;
    ResumeKeepsInv(env.prog, m.(fuel := l.state.fuelLimit), command.callId, response);
  }

  lemma DeliverReaches(env: Env, l: Loop, command: Command, response: Response, rest: seq<Command>)
    requires Between(env, l, [command] + rest)
    ensures var l' := Deliver(env, l, command, response);
            |l'.state.machine.log| < U32_SIZE ==> forall d :: d in l'.deliveries ==> Reached(l'.state.machine, d)
  {
    hide Kept, Numbered, Increasing, Triggers, Cancelled, Cleared, Printed, Attempts, Chain, ResumeCell;
    DeliverEffect(env, l, command, response, rest);
    var l' := Deliver(env, l, command, response);
    var m, m' := l.state.machine.(fuel := l.state.fuelLimit), l'.state.machine;
    if |m'.log| < U32_SIZE {
      NotYetServed(m, l.deliveries, command, rest);
      DeliveryReaches(m, m', command, response, l'.result, l.polls);
      forall x | x in l.deliveries ensures Reached(m', x) {
        ReachedStays(m, m', x);
      }
    }
  }

  lemma DeliverExtendsOutput(env: Env, l: Loop, command: Command, response: Response, rest: seq<Command>)
    requires Between(env, l, [command] + rest)
    ensures var l' := Deliver(env, l, command, response); Chain(Outputs(l') + [l'.state.machine.stdout])
  {
    DeliverEffect(env, l, command, response, rest);
    var l' := Deliver(env, l, command, response);
    ChainAppend(Outputs(l), l.state.machine.stdout, l'.state.machine.stdout);
    assert Outputs(l') == Outputs(l) + [l'.state.machine.stdout];
  }

  lemma HandsOut(m: Machine, m': Machine, deliveries: seq<Delivery>, d: Delivery, rest: seq<Command>)
    requires m.deleted == ServedIds(deliveries)
    requires m.drained == Commands(deliveries) + ([d.command] + rest)
    requires ResumeEffect(m, m', d.command.callId, d.response, d.result)
    ensures m'.drained == Commands(deliveries + [d]) + (rest + NewCommands(d.result))
    ensures m.drained <= m'.drained && m'.deleted == ServedIds(deliveries + [d])
  {
    ServedAppend(deliveries, d);
  }

  lemma DeliverHandsOut(env: Env, l: Loop, command: Command, response: Response, rest: seq<Command>)
    requires Between(env, l, [command] + rest)
    ensures var l' := Deliver(env, l, command, response);
            var m, m' := l.state.machine, l'.state.machine;
            && m'.drained == Commands(l'.deliveries) + (rest + NewCommands(l'.result))
            && m.drained <= m'.drained
            && m'.deleted == ServedIds(l'.deliveries)
            && l'.result.stdout == m'.stdout
            && Consistent(l')
            && m.log <= m'.log && m.cleared <= m'.cleared
  {
    DeliverEffect(env, l, command, response, rest);
    var l' := Deliver(env, l, command, response);
    HandsOut(l.state.machine.(fuel := l.state.fuelLimit), l'.state.machine, l.deliveries,
             Delivery(command, response, l'.result, |l.state.machine.trace|, l.polls), rest);
  }

  lemma DeliverKeepsApart(env: Env, l: Loop, command: Command, response: Response, rest: seq<Command>)
    requires Between(env, l, [command] + rest)
    ensures var l' := Deliver(env, l, command, response); Apart(l'.state.machine, l'.deliveries)
  {
    hide Inv, Chain, Reached, ResumeCell;
    DeliverEffect(env, l, command, response, rest);
  }

  lemma DeliverKeepsBetween(env: Env, l: Loop, command: Command, response: Response, rest: seq<Command>)
    requires Between(env, l, [command] + rest)
    ensures var l' := Deliver(env, l, command, response);
            && Between(env, l', rest + NewCommands(l'.result))
            && Consistent(l')
            && l'.deliveries == l.deliveries + [NextDelivery(l, command, response, l'.result)]
            && l' == l.(state := l'.state, result := l'.result, deliveries := l'.deliveries)
            && l.state.machine.log <= l'.state.machine.log
            && l.state.machine.cleared <= l'.state.machine.cleared
  {
    hide Inv, Chain, Reached, Deliver, Outputs, ResumeEffect, Apart;
    DeliverEffect(env, l, command, response, rest);
    DeliverKeepsApart(env, l, command, response, rest);
    DeliverReaches(env, l, command, response, rest);
    DeliverExtendsOutput(env, l, command, response, rest);
    DeliverHandsOut(env, l, command, response, rest);
  }

  // ─── A batch ──────────────────────────────────────────────────

  lemma MorePolls(env: Env, l: Loop, rest: seq<Command>)
    requires Between(env, l, rest)
    ensures Between(env, l.(polls := l.polls + 1), rest)
  {
    var l' := l.(polls := l.polls + 1);
    assert Outputs(l') == Outputs(l);
  }

  lemma {:induction false} ServeKeepsBetween(env: Env, l: Loop, batch: seq<Command>, responses: seq<Response>,
                                             tail: seq<Command>, acc: seq<Command>)
    requires |batch| == |responses|
    requires Between(env, l, batch + (tail + acc))
    ensures var (l', acc') := Serve(env, l, batch, responses, acc);
            && Between(env, l', tail + acc')
            && Commands(l'.deliveries) == Commands(l.deliveries) + batch
            && (batch != [] ==> Consistent(l') && (acc' == [] ==> NewCommands(l'.result) == []))
            && acc <= acc'
            && l' == l.(state := l'.state, result := l'.result, deliveries := l'.deliveries, polls := l'.polls)
    decreases |batch|
  {
    hide Inv, Chain, Reached, Deliver, Outputs, Apart, ServeOne;
    if batch == [] {
      assert batch + (tail + acc) == tail + acc;
      assert Commands(l.deliveries) + batch == Commands(l.deliveries);
    } else {
      var l1 := ServeOne(env, l, batch[0], responses[0]);
      var acc1 := acc + NewCommands(l1.result);
      ServeOneKeepsBetween(env, l, batch, responses[0], tail, acc);
      ServeKeepsBetween(env, l1, batch[1..], responses[1..], tail, acc1);
      assert Commands(l.deliveries) + [batch[0]] + batch[1..] == Commands(l.deliveries) + batch;
    }
  }

  lemma ServeOneKeepsBetween(env: Env, l: Loop, batch: seq<Command>, response: Response,
                             tail: seq<Command>, acc: seq<Command>)
    requires batch != []
    requires Between(env, l, batch + (tail + acc))
    ensures var l1 := ServeOne(env, l, batch[0], response);
            && Between(env, l1, batch[1..] + (tail + (acc + NewCommands(l1.result))))
            && Commands(l1.deliveries) == Commands(l.deliveries) + [batch[0]]
            && |l1.deliveries| == |l.deliveries| + 1
            && Consistent(l1)
            && l1 == l.(state := l1.state, result := l1.result, deliveries := l1.deliveries, polls := l.polls + 1)
  {
    hide Inv, Chain, Reached, Deliver, Outputs, Apart;
    var rest := batch[1..] + (tail + acc);
    assert batch + (tail + acc) == [batch[0]] + rest;
    MorePolls(env, l, [batch[0]] + rest);
    var given := if env.aborted(l.polls) then ABORT_RESPONSE else response;
    DeliverKeepsBetween(env, l.(polls := l.polls + 1), batch[0], given, rest);
    var l1 := ServeOne(env, l, batch[0], response);
    assert rest + NewCommands(l1.result) == batch[1..] + (tail + (acc + NewCommands(l1.result)));
    ServedAppend(l.deliveries, l1.deliveries[|l.deliveries|]);
  }

  /** The commands that the abort resumes of a batch yield. */
  ghost function Lost(env: Env, l: Loop, batch: seq<Command>): seq<Command>
    decreases |batch|
  {
    if batch == [] then []
    else
      var l1 := Deliver(env, l, batch[0], ABORT_RESPONSE);
      NewCommands(l1.result) + Lost(env, l1, batch[1..])
  }

  lemma {:induction false} AbortAllKeepsBetween(env: Env, l: Loop, batch: seq<Command>, rest: seq<Command>)
    requires Between(env, l, batch + rest)
    ensures var l' := AbortAll(env, l, batch);
            && Between(env, l', rest + Lost(env, l, batch))
            && Commands(l'.deliveries) == Commands(l.deliveries) + batch
            && (batch != [] ==> Consistent(l'))
            && l' == l.(state := l'.state, result := l'.result, deliveries := l'.deliveries)
    decreases |batch|
  {
    hide Inv, Chain, Reached, Deliver, Outputs, Apart;
    if batch == [] {
      assert Commands(l.deliveries) + batch == Commands(l.deliveries);
      assert batch + rest == rest + [];
    } else {
      var l1 := Deliver(env, l, batch[0], ABORT_RESPONSE);
      AbortOneKeepsBetween(env, l, batch, rest);
      AbortAllKeepsBetween(env, l1, batch[1..], rest + NewCommands(l1.result));
      assert Commands(l.deliveries) + [batch[0]] + batch[1..] == Commands(l.deliveries) + batch;
      assert (rest + NewCommands(l1.result)) + Lost(env, l1, batch[1..]) == rest + Lost(env, l, batch);
    }
  }

  lemma AbortOneKeepsBetween(env: Env, l: Loop, batch: seq<Command>, rest: seq<Command>)
    requires batch != [] && Between(env, l, batch + rest)
    ensures var l1 := Deliver(env, l, batch[0], ABORT_RESPONSE);
            && Between(env, l1, batch[1..] + (rest + NewCommands(l1.result)))
            && Commands(l1.deliveries) == Commands(l.deliveries) + [batch[0]]
            && Consistent(l1)
            && l1 == l.(state := l1.state, result := l1.result, deliveries := l1.deliveries)
  {
    hide Deliver, Inv, Chain, Reached, Outputs, Apart;
    var later := batch[1..] + rest;
    assert batch + rest == [batch[0]] + later;
    DeliverKeepsBetween(env, l, batch[0], ABORT_RESPONSE, later);
    var l1 := Deliver(env, l, batch[0], ABORT_RESPONSE);
    assert later + NewCommands(l1.result) == batch[1..] + (rest + NewCommands(l1.result));
    ServedAppend(l.deliveries, l1.deliveries[|l.deliveries|]);
  }

  // ─── Turns ────────────────────────────────────────────────────

  /** What holds each time the loop looks at its result. */
  ghost predicate LoopInv(env: Env, l: Loop) {
    var m := l.state.machine;
    && Base(env, l)
    && Commands(l.deliveries) <= m.drained
    && (!l.aborted ==> l.dispatched == Commands(l.deliveries))
    && (l.aborted ==> l.stopped)
    && (!l.stopped && !l.result.Failed? ==>
          m.queue == [] && m.drained == Commands(l.deliveries) + NewCommands(l.result))
    && (!l.stopped && l.result == Yielded(l.result.stdout, []) ==> m.pending.Keys != {})
    && (l.result.Finished? && l.deliveries != [] ==> m.queue == [] && m.pending.Keys == {})
    && (l.stopped && l.result.Yielded? && |m.log| < U32_SIZE ==> m.queue == [] && m.pending.Keys != {})
  }

  lemma StartKeepsLoopInv(env: Env, s: State, code: string, stdin: string)
    ensures LoopInv(env, Start(env, s, code, stdin))
  {
    RunKeepsInv(env.prog, s, code, stdin);
    var l := Start(env, s, code, stdin);
    assert Outputs(l) + [l.state.machine.stdout] == [l.first.stdout, l.first.stdout];
    assert Commands(l.deliveries) + NewCommands(l.result) == NewCommands(l.result);
  }

  lemma DispatchKeepsBetween(env: Env, l: Loop)
    requires LoopInv(env, l) && l.result.Yielded? && !l.stopped
    ensures Between(env, l.(polls := l.polls + 1, dispatched := l.dispatched + l.result.commands),
                    l.result.commands + ([] + []))
  {
    var l' := l.(polls := l.polls + 1, dispatched := l.dispatched + l.result.commands);
    MorePolls(env, l, l.result.commands);
    assert l.result.commands + ([] + []) == l.result.commands;
    assert Outputs(l') == Outputs(l);
  }

  lemma ServeTurnKeepsLoopInv(env: Env, l: Loop)
    requires LoopInv(env, l) && l.result.Yielded? && !l.stopped && l.result.commands != []
    ensures LoopInv(env, ServeTurn(env, l.(polls := l.polls + 1), l.result.commands))
  {
    hide Inv, Reached, Serve, Chain, Apart;
    var batch := l.result.commands;
    var l1 := l.(polls := l.polls + 1, dispatched := l.dispatched + batch);
    var responses := Responses(env, |l.dispatched|, batch);
    DispatchKeepsBetween(env, l);
    ServeKeepsBetween(env, l1, batch, responses, [], []);
    var (l', acc) := Serve(env, l1, batch, responses, []);
    assert [] + acc == acc;
    assert Outputs(ServeTurn(env, l.(polls := l.polls + 1), batch)) == Outputs(l');
  }

  lemma AbortTurnKeepsLoopInv(env: Env, l: Loop)
    requires LoopInv(env, l) && l.result.Yielded? && l.result.commands != [] && !l.stopped && env.aborted(l.polls)
    ensures LoopInv(env, AbortAll(env, l.(polls := l.polls + 1, aborted := true), l.result.commands).(stopped := true))
  {
    var l1 := l.(polls := l.polls + 1, aborted := true);
    MorePolls(env, l, l.result.commands);
    assert Outputs(l1) == Outputs(l);
    assert l.result.commands + [] == l.result.commands;
    AbortAllKeepsBetween(env, l1, l.result.commands, []);
    assert Commands(AbortAll(env, l1, l.result.commands).deliveries) != [];
    var l2 := AbortAll(env, l1, l.result.commands);
    assert Outputs(l2.(stopped := true)) == Outputs(l2);
  }

  lemma {:induction false} TurnsKeepLoopInv(env: Env, l: Loop, n: nat)
    requires LoopInv(env, l)
    ensures LoopInv(env, Turns(env, l, n))
    decreases n
  {
    hide Inv, Reached, Serve, AbortAll, Chain, Apart;
    if n > 0 && l.result.Yielded? && !l.stopped {
      if l.result.commands == [] {
        assert Outputs(Turn(env, l)) == Outputs(l);
      } else if env.aborted(l.polls) {
        AbortTurnKeepsLoopInv(env, l);
      } else {
        ServeTurnKeepsLoopInv(env, l);
      }
      TurnsKeepLoopInv(env, Turn(env, l), n - 1);
    }
  }
}

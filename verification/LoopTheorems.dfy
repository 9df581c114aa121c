/** The guarantees of a whole cell run: any program, handler, abort schedule and number of batches. */
module LoopTheorems {
  import opened Engine
  import opened Session
  import opened SessionLaws
  import opened AsyncLoop
  import opened LoopLaws
  import opened LoopTurns

  /** The loop after at most `n` batches of a cell. */
  ghost function CellRun(env: Env, s: State, code: string, stdin: string, n: nat): Loop {
    Turns(env, Start(env, s, code, stdin), n)
  }

  lemma RunKeepsLoopInv(env: Env, s: State, code: string, stdin: string, n: nat)
    ensures LoopInv(env, CellRun(env, s, code, stdin, n))
  {
    StartKeepsLoopInv(env, s, code, stdin);
    TurnsKeepLoopInv(env, Start(env, s, code, stdin), n);
  }

  /** The loop has a batch in its result, to dispatch or, after an abort, to resume at once. */
  ghost predicate AtBatch(l: Loop) {
    l.result.Yielded? && !l.stopped && l.result.commands != []
  }

  /** After `k` resumes of the batch, by either path: the loop and the commands yielded meanwhile. */
  ghost function Midway(env: Env, l: Loop, k: nat): (Loop, seq<Command>)
    requires l.result.Yielded? && k <= |l.result.commands|
  {
    var batch := l.result.commands;
    if env.aborted(l.polls) then
      var l1 := l.(polls := l.polls + 1, aborted := true);
      (AbortAll(env, l1, batch[..k]), Lost(env, l1, batch[..k]))
    else
      Serve(env, l.(polls := l.polls + 1, dispatched := l.dispatched + batch),
            batch[..k], Responses(env, |l.dispatched|, batch)[..k], [])
  }

  lemma MidwayIsBetween(env: Env, l: Loop, k: nat)
    requires LoopInv(env, l) && AtBatch(l) && k <= |l.result.commands|
    ensures var (mid, acc) := Midway(env, l, k);
            && Between(env, mid, l.result.commands[k..] + acc)
            && Commands(mid.deliveries) == Commands(l.deliveries) + l.result.commands[..k]
            && (k > 0 ==> Consistent(mid))
  {
    hide Serve, AbortAll, Lost, Inv, Reached, Chain, Apart;
    var batch := l.result.commands;
    if env.aborted(l.polls) {
      var l1 := l.(polls := l.polls + 1, aborted := true);
      MorePolls(env, l, batch);
      assert Outputs(l1) == Outputs(l);
      assert batch[..k] + batch[k..] == batch;
      AbortAllKeepsBetween(env, l1, batch[..k], batch[k..]);
    } else {
      DispatchKeepsBetween(env, l);
      assert batch + ([] + []) == batch[..k] + (batch[k..] + []);
      ServeKeepsBetween(env, l.(polls := l.polls + 1, dispatched := l.dispatched + batch),
                        batch[..k], Responses(env, |l.dispatched|, batch)[..k], batch[k..], []);
    }
  }

  /** After the whole batch the turn is over, up to a result forced to pending. */
  lemma MidwayEndsTurn(env: Env, l: Loop)
    requires AtBatch(l)
    ensures var (mid, acc) := Midway(env, l, |l.result.commands|);
            Turn(env, l) == if env.aborted(l.polls) then mid.(stopped := true)
                            else if acc != [] && !mid.result.Failed? then
                              mid.(result := Yielded(mid.result.stdout, acc))
                            else mid
  {
    var batch := l.result.commands;
    assert batch[..|batch|] == batch;
    var responses := Responses(env, |l.dispatched|, batch);
    assert responses[..|batch|] == responses;
  }

  // ─── Dispatch order ───────────────────────────────────────────

  /**
   With no hypothesis but that the 32-bit counter has not wrapped, and whatever is cleared,
   thrown, aborted or out of fuel: the commands given to the handler are an initial segment,
   in trigger order, of the commands triggered and not cancelled in the queue.  So their ids
   strictly increase and none is dispatched twice.
   */
  lemma DispatchOrder(env: Env, s: State, code: string, stdin: string, n: nat)
    ensures var l := CellRun(env, s, code, stdin, n);
            var m := l.state.machine;
            |m.log| < U32_SIZE ==>
              && l.dispatched <= Kept(m.log, m.cancelled)
              && Increasing(l.dispatched)
              && (forall c :: c in l.dispatched ==> 1 <= c.callId <= |m.log| && m.log[c.callId - 1] == c)
  {
    RunKeepsLoopInv(env, s, code, stdin, n);
    var l := CellRun(env, s, code, stdin, n);
    var m := l.state.machine;
    hide CellRun, Chain, Reached, Kept, Increasing, Numbered, Apart, Ids;
    if |m.log| < U32_SIZE {
      QueueAfterDrained(m);
      var all := m.drained + m.queue;
      assert all[..|l.dispatched|] == l.dispatched;
      IncreasingApart(all, |l.dispatched|, |l.dispatched|);
      assert forall c :: c in l.dispatched ==> c in all;
    }
  }

  // ─── History ──────────────────────────────────────────────────

  /**
   At every point of every run, output, call ids, commands, entries and cleared ids are what the
   operations executed since the cell started amount to.
   */
  lemma RunIsReplayed(env: Env, s: State, code: string, stdin: string, n: nat)
    ensures Replayed(CellRun(env, s, code, stdin, n).state.machine)
  {
    RunKeepsLoopInv(env, s, code, stdin, n);
  }

  // ─── Cleared timers ───────────────────────────────────────────

  /**
   A timer that user code clears while its command is still queued never fires: in the whole run its
   id is in no batch given to the handler, and no resume is for it.
   */
  lemma ClearedInQueueNeverRuns(env: Env, s: State, code: string, stdin: string, n: nat, d: Done, c: Command)
    ensures var l := CellRun(env, s, code, stdin, n);
            var m := l.state.machine;
            |m.log| < U32_SIZE && d in m.done && d.op.ClearTimer?
            && c in d.queued && c.callId == (if d.op.id < 0 then d.op.id + U32_SIZE else d.op.id) ==>
              && c.callId !in Ids(l.dispatched)
              && c.callId !in Ids(Commands(l.deliveries))
              && c.callId !in Ids(m.drained) && c.callId !in Ids(m.queue)
  {
    RunKeepsLoopInv(env, s, code, stdin, n);
    var l := CellRun(env, s, code, stdin, n);
    var m := l.state.machine;
    hide CellRun, Chain, Reached, Apart, Books, Replayed;
    assert Inv(m);
    if |m.log| < U32_SIZE && d in m.done && d.op.ClearTimer?
       && c in d.queued && c.callId == (if d.op.id < 0 then d.op.id + U32_SIZE else d.op.id)
    {
      hide Inv;
      CancelledIsGone(m, d, c);
      assert forall x :: x in l.dispatched ==> x in m.drained;
      assert forall x :: x in Commands(l.deliveries) ==> x in m.drained;
    }
  }

  lemma CancelledIsGone(m: Machine, d: Done, c: Command)
    requires Inv(m) && |m.log| < U32_SIZE && d in m.done && d.op.ClearTimer?
    requires c in d.queued && c.callId == if d.op.id < 0 then d.op.id + U32_SIZE else d.op.id
    ensures c.callId !in Ids(m.drained) && c.callId !in Ids(m.queue)
  {
    assert Ordered(m) && m.cancelled == Cancelled(m.done);
    hide Ordered, Replayed, Accounted, Ids;
    assert c.callId == d.op.id % U32_SIZE;
    QueueAfterDrained(m);
  }

  // ─── Conservation ─────────────────────────────────────────────

  /** The live entries, sorted by where their command is. */
  ghost predicate Conserved(l: Loop, rest: seq<Command>) {
    var m := l.state.machine;
    var faulty := FaultIds(l.deliveries) - m.cleared;
    && m.pending.Keys == Ids(m.queue) + (Ids(rest) - m.cleared) + faulty
    && Ids(m.queue) !! Ids(rest) !! FaultIds(l.deliveries)
    && Ids(m.queue) !! m.cleared
  }

  lemma CommandIds(deliveries: seq<Delivery>)
    ensures Ids(Commands(deliveries)) == FaultIds(deliveries) + ServedIds(deliveries)
  {
    forall k | k in Ids(Commands(deliveries)) ensures k in FaultIds(deliveries) + ServedIds(deliveries) {
      var i :| 0 <= i < |deliveries| && Commands(deliveries)[i].callId == k;
      assert deliveries[i] in deliveries;
    }
    forall k | k in FaultIds(deliveries) + ServedIds(deliveries) ensures k in Ids(Commands(deliveries)) {
      var d :| d in deliveries && d.command.callId == k;
      var i :| 0 <= i < |deliveries| && deliveries[i] == d;
      assert Commands(deliveries)[i].callId == k;
      assert Commands(deliveries)[i] in Commands(deliveries);
    }
  }

  lemma FaultsNotServed(deliveries: seq<Delivery>)
    requires Increasing(Commands(deliveries))
    ensures FaultIds(deliveries) !! ServedIds(deliveries)
  {
    forall d, e | d in deliveries && e in deliveries && d.command.callId == e.command.callId
      ensures d == e
    {
      var i :| 0 <= i < |deliveries| && deliveries[i] == d;
      var j :| 0 <= j < |deliveries| && deliveries[j] == e;
      assert Commands(deliveries)[i] == d.command && Commands(deliveries)[j] == e.command;
    }
  }

  lemma BetweenIsConserved(env: Env, l: Loop, rest: seq<Command>)
    requires Between(env, l, rest) && |l.state.machine.log| < I32_SIZE
    ensures Conserved(l, rest)
  {
    var m := l.state.machine;
    hide Replayed, Chain, Reached, Apart;
    QueueAfterDrained(m);
    CommandIds(l.deliveries);
    IncreasingSplit(Commands(l.deliveries), rest);
    FaultsNotServed(l.deliveries);
    assert Ids(m.drained) == Ids(Commands(l.deliveries)) + Ids(rest) by {
      assert forall c :: c in m.drained <==> c in Commands(l.deliveries) || c in rest;
    }
    ConservedSets(m, FaultIds(l.deliveries), Ids(Commands(l.deliveries)), Ids(rest));
  }

  lemma ConservedSets(m: Machine, faults: set<int>, resumed: set<int>, rest: set<int>)
    requires Inv(m) && |m.log| < I32_SIZE
    requires Ids(m.drained) == resumed + rest && resumed == faults + m.deleted && faults !! m.deleted && resumed !! rest
    requires Ids(m.drained) !! Ids(m.queue) !! m.cancelled
    requires forall k :: 1 <= k <= |m.log| ==> k in Ids(m.drained) || k in Ids(m.queue) || k in m.cancelled
    requires forall c :: c in m.drained + m.queue ==> 1 <= c.callId <= |m.log|
    ensures m.pending.Keys == Ids(m.queue) + (rest - m.cleared) + (faults - m.cleared)
    ensures Ids(m.queue) !! rest !! faults && Ids(m.queue) !! m.cleared
  {
    hide Kept;
    forall k ensures k in m.pending.Keys <==> k in Ids(m.queue) + (rest - m.cleared) + (faults - m.cleared) {
      if k in rest + faults {
        assert k in Ids(m.drained);
        var c :| c in m.drained && c.callId == k;
        assert c in m.drained + m.queue;
      }
    }
  }

  /**
   Between any two resumes of any run, those of an abort included, the live entries of
   `__webJsPending` are exactly: the queued commands, the commands handed out and not yet resumed
   unless a clear removed them, and the commands whose resume failed without their entry being
   cleared.
   */
  lemma Conservation(env: Env, s: State, code: string, stdin: string, n: nat, k: nat)
    ensures var l := CellRun(env, s, code, stdin, n);
            AtBatch(l) && k <= |l.result.commands| ==>
              var (mid, acc) := Midway(env, l, k);
              |mid.state.machine.log| < I32_SIZE ==> Conserved(mid, l.result.commands[k..] + acc)
  {
    RunKeepsLoopInv(env, s, code, stdin, n);
    var l := CellRun(env, s, code, stdin, n);
    if AtBatch(l) && k <= |l.result.commands| {
      MidwayIsBetween(env, l, k);
      var (mid, acc) := Midway(env, l, k);
      hide CellRun, Midway, LoopInv;
      if |mid.state.machine.log| < I32_SIZE {
        BetweenIsConserved(env, mid, l.result.commands[k..] + acc);
      }
    }
  }

  /** No resume has failed, and no command still to be resumed has lost its entry to a clear. */
  ghost predicate Clean(l: Loop, rest: seq<Command>) {
    FaultIds(l.deliveries) == {} && Ids(rest) !! l.state.machine.cleared
  }

  lemma CleanSplit(m: Machine, unresumed: seq<Command>, yielded: seq<Command>)
    requires Increasing(unresumed + yielded) && Ids(unresumed + yielded) !! m.cleared
    requires m.pending.Keys == Ids(m.queue) + (Ids(unresumed + yielded) - m.cleared)
    requires Ids(m.queue) !! Ids(unresumed + yielded)
    ensures m.pending.Keys == Ids(m.queue) + Ids(yielded) + Ids(unresumed)
    ensures Ids(m.queue) !! Ids(yielded) !! Ids(unresumed)
  {
    IncreasingSplit(unresumed, yielded);
    hide Increasing;
    assert forall c :: c in unresumed + yielded <==> c in unresumed || c in yielded;
    assert Ids(unresumed + yielded) == Ids(unresumed) + Ids(yielded);
  }

  /** In a clean run, aborted or not, the live entries are the disjoint union of queued, yielded and unresumed ids. */
  lemma CleanConservation(env: Env, s: State, code: string, stdin: string, n: nat, k: nat)
    ensures var l := CellRun(env, s, code, stdin, n);
            AtBatch(l) && k <= |l.result.commands| ==>
              var (mid, acc) := Midway(env, l, k);
              var m := mid.state.machine;
              |m.log| < I32_SIZE && Clean(mid, l.result.commands[k..] + acc) ==>
                && m.pending.Keys == Ids(m.queue) + Ids(acc) + Ids(l.result.commands[k..])
                && Ids(m.queue) !! Ids(acc) !! Ids(l.result.commands[k..])
  {
    Conservation(env, s, code, stdin, n, k);
    RunKeepsLoopInv(env, s, code, stdin, n);
    var l := CellRun(env, s, code, stdin, n);
    if AtBatch(l) && k <= |l.result.commands| {
      MidwayIsBetween(env, l, k);
      hide CellRun, Midway, Chain, Reached, Apart, Kept, LoopInv;
      var (mid, acc) := Midway(env, l, k);
      var m := mid.state.machine;
      if |m.log| < I32_SIZE && Clean(mid, l.result.commands[k..] + acc) {
        QueueAfterDrained(m);
        IncreasingSplit(Commands(mid.deliveries), l.result.commands[k..] + acc);
        CleanSplit(m, l.result.commands[k..], acc);
      }
    }
  }

  // ─── Delivery ─────────────────────────────────────────────────

  /**
   Resumes happen in dispatch order, one for each dispatched command, with the handler's answer
   to that command or, after an abort was seen, the abort error.  Each reaches the closure its
   own trigger stored, in an entry into the engine of its own; the stored entry is missing only
   for an id that a clear removed.
   */
  lemma DeliveredToItsTrigger(env: Env, s: State, code: string, stdin: string, n: nat, j: nat)
    ensures var l := CellRun(env, s, code, stdin, n);
            var m := l.state.machine;
            j < |l.deliveries| ==>
              && AnswersItsCall(env, l, j)
              && (!l.aborted ==> l.dispatched == Commands(l.deliveries))
              && j < |m.drained| && l.deliveries[j].command == m.drained[j]
              && (|m.log| < U32_SIZE ==> Reached(m, l.deliveries[j]))
              && Apart(m, l.deliveries)
  {
    RunKeepsLoopInv(env, s, code, stdin, n);
    EveryAnswer(env, s, code, stdin, n, j);
    var l := CellRun(env, s, code, stdin, n);
    if j < |l.deliveries| {
      assert l.deliveries[j] in l.deliveries;
      assert Commands(l.deliveries)[j] == l.state.machine.drained[j];
    }
  }

  /** The next resume finds its entry exactly when no clear has removed it. */
  lemma MissingEntryMeansCleared(env: Env, l: Loop, command: Command, response: Response, rest: seq<Command>)
    requires Between(env, l, [command] + rest) && |l.state.machine.log| < I32_SIZE
    ensures Deliver(env, l, command, response).result == Failed(l.state.machine.stdout, ResumeFailed(NoEntry))
       <==> command.callId in l.state.machine.cleared
  {
    var m := l.state.machine;
    hide Chain, Reached;
    QueueAfterDrained(m);
    NotYetServed(m, l.deliveries, command, rest);
    assert m.drained[|l.deliveries|] == command;
    assert command in m.drained + m.queue;
    DeliverEffect(env, l, command, response, rest);
    hide ResumeCell, Deliver;
  }

  // ─── Never early, never stuck ─────────────────────────────────

  /**
   A resume that reports the cell done, or rejected at top level, does so with nothing
   outstanding: every command not yet resumed, and every faulty one, was cleared by user code.
   In a clean run it is therefore the last resume of its batch and nothing new was yielded.
   */
  lemma NeverEarly(env: Env, s: State, code: string, stdin: string, n: nat, k: nat)
    ensures var l := CellRun(env, s, code, stdin, n);
            AtBatch(l) && 0 < k <= |l.result.commands| ==>
              var (mid, acc) := Midway(env, l, k);
              var m := mid.state.machine;
              var rest := l.result.commands[k..] + acc;
              |m.log| < I32_SIZE && (mid.result.Finished? || mid.result == Failed(m.stdout, TopRejected)) ==>
                && m.queue == [] && m.jobs == []
                && Ids(rest) <= m.cleared && FaultIds(mid.deliveries) <= m.cleared
                && (Clean(mid, rest) ==> k == |l.result.commands| && acc == [])
  {
    Conservation(env, s, code, stdin, n, k);
    RunKeepsLoopInv(env, s, code, stdin, n);
    var l := CellRun(env, s, code, stdin, n);
    if AtBatch(l) && 0 < k <= |l.result.commands| {
      MidwayIsBetween(env, l, k);
      hide CellRun, Midway, Chain, Reached, Apart, Kept, LoopInv, Inv;
      var (mid, acc) := Midway(env, l, k);
      var rest := l.result.commands[k..] + acc;
      if rest != [] && |mid.state.machine.log| < I32_SIZE {
        assert rest[0].callId in Ids(rest);
      }
    }
  }

  /**
   When the loop meets an empty batch, some resume has failed and left its entry behind; and
   whenever a batch ends without error and with nothing new, that is the only way to be stuck.
   */
  lemma StuckExactlyAfterFault(env: Env, s: State, code: string, stdin: string, n: nat)
    ensures var l := CellRun(env, s, code, stdin, n);
            var m := l.state.machine;
            && !l.stopped && |m.log| < I32_SIZE && !l.result.Failed?
            && l.deliveries != [] && NewCommands(l.result) == [] ==>
              (l.result.Yielded? <==> FaultIds(l.deliveries) - m.cleared != {})
  {
    RunKeepsLoopInv(env, s, code, stdin, n);
    var l := CellRun(env, s, code, stdin, n);
    if !l.stopped && !l.result.Failed? && |l.state.machine.log| < I32_SIZE && NewCommands(l.result) == [] {
      BetweenIsConserved(env, l, []);
    }
  }

  /** While no resume has failed, a pending result at the head of the loop carries a command. */
  lemma NeverStuck(env: Env, s: State, code: string, stdin: string, n: nat)
    ensures var l := CellRun(env, s, code, stdin, n);
            !l.stopped && |l.state.machine.log| < I32_SIZE && FaultIds(l.deliveries) == {} && l.result.Yielded? ==>
              l.result.commands != []
  {
    RunKeepsLoopInv(env, s, code, stdin, n);
    var l := CellRun(env, s, code, stdin, n);
    if !l.stopped && |l.state.machine.log| < I32_SIZE && NewCommands(l.result) == [] && l.result.Yielded? {
      BetweenIsConserved(env, l, []);
    }
  }

  /** Nothing is stuck before the first batch: a run that yields hands out a command. */
  lemma FirstBatchNotEmpty(env: Env, s: State, code: string, stdin: string)
    ensures var l := Start(env, s, code, stdin); l.result.Yielded? ==> l.result.commands != []
  {
    RunKeepsInv(env.prog, s, code, stdin);
  }

  /**
   A cell that ends well without an abort has dispatched, exactly once and in order, every
   command it triggered and did not cancel, and has resumed each exactly once.
   */
  lemma Completion(env: Env, s: State, code: string, stdin: string, n: nat)
    ensures var l := CellRun(env, s, code, stdin, n);
            var m := l.state.machine;
            l.result.Finished? && !l.aborted && |m.log| < U32_SIZE ==>
              && l.dispatched == Commands(l.deliveries) == Kept(m.log, m.cancelled)
              && m.queue == []
              && (|m.log| < I32_SIZE ==> FaultIds(l.deliveries) <= m.cleared && m.pending.Keys == {})
  {
    RunKeepsLoopInv(env, s, code, stdin, n);
    var l := CellRun(env, s, code, stdin, n);
    var m := l.state.machine;
    hide Replayed, Chain, Reached, Apart;
    StoppedWithoutAbort(env, Start(env, s, code, stdin), n);
    if l.result.Finished? && !l.aborted {
      assert m.drained == Commands(l.deliveries) + [] == Commands(l.deliveries);
      if |m.log| < I32_SIZE {
        BetweenIsConserved(env, l, []);
        if l.deliveries == [] {
          assert FaultIds(l.deliveries) == {};
        }
      }
    }
  }

  /** The loop stops early only on an abort or on an empty batch. */
  lemma {:induction false} StoppedWithoutAbort(env: Env, l: Loop, n: nat)
    requires !l.stopped && !l.aborted
    ensures var l' := Turns(env, l, n);
            l'.stopped && !l'.aborted ==> l'.result == Failed(l'.result.stdout, StuckPromise)
    decreases n
  {
    hide Serve, AbortAll, Responses;
    if n > 0 && l.result.Yielded? {
      var batch := l.result.commands;
      if batch != [] && env.aborted(l.polls) {
        AbortAllKeepsFlags(env, l.(polls := l.polls + 1, aborted := true), batch);
      } else if batch != [] {
        ServeKeepsFlags(env, l.(polls := l.polls + 1, dispatched := l.dispatched + batch), batch,
                        Responses(env, |l.dispatched|, batch), []);
        StoppedWithoutAbort(env, Turn(env, l), n - 1);
      }
    }
  }

  lemma {:induction false} AbortAllKeepsFlags(env: Env, l: Loop, batch: seq<Command>)
    ensures AbortAll(env, l, batch).aborted == l.aborted
    decreases |batch|
  {
    if batch != [] {
      AbortAllKeepsFlags(env, Deliver(env, l, batch[0], ABORT_RESPONSE), batch[1..]);
    }
  }

  lemma {:induction false} ServeKeepsFlags(env: Env, l: Loop, batch: seq<Command>, responses: seq<Response>,
                                           acc: seq<Command>)
    requires |batch| == |responses|
    ensures var l' := Serve(env, l, batch, responses, acc).0; l'.aborted == l.aborted && l'.stopped == l.stopped
    decreases |batch|
  {
    if batch != [] {
      var l' := ServeOne(env, l, batch[0], responses[0]);
      ServeKeepsFlags(env, l', batch[1..], responses[1..], acc + NewCommands(l'.result));
    }
  }

  // ─── Progress ─────────────────────────────────────────────────

  lemma {:induction false} ServeDelivers(env: Env, l: Loop, batch: seq<Command>, responses: seq<Response>,
                                         acc: seq<Command>)
    requires |batch| == |responses|
    ensures |Serve(env, l, batch, responses, acc).0.deliveries| == |l.deliveries| + |batch|
    decreases |batch|
  {
    hide ResumeCell;
    if batch != [] {
      var l' := ServeOne(env, l, batch[0], responses[0]);
      ServeDelivers(env, l', batch[1..], responses[1..], acc + NewCommands(l'.result));
    }
  }

  lemma {:induction false} TurnsDeliver(env: Env, l: Loop, n: nat)
    ensures var l' := Turns(env, l, n);
            l'.result.Yielded? && !l'.stopped ==> |l.deliveries| + n <= |l'.deliveries|
    decreases n
  {
    hide Serve, AbortAll, Responses;
    if n > 0 && l.result.Yielded? && !l.stopped {
      var batch := l.result.commands;
      ServeDelivers(env, l.(polls := l.polls + 1, dispatched := l.dispatched + batch), batch,
                    Responses(env, |l.dispatched|, batch), []);
      TurnsDeliver(env, Turn(env, l), n - 1);
    }
  }

  lemma {:induction false} IncreasingBound(commands: seq<Command>, bound: nat)
    requires Increasing(commands) && forall c :: c in commands ==> 1 <= c.callId <= bound
    ensures |commands| <= bound
    decreases |commands|
  {
    if commands != [] {
      var last := commands[|commands| - 1];
      var front := commands[..|commands| - 1];
      assert last in commands;
      forall c | c in front ensures 1 <= c.callId <= last.callId - 1 {
        var i :| 0 <= i < |front| && front[i] == c;
        assert commands[i] == c && c in commands;
      }
      IncreasingBound(front, last.callId - 1);
    }
  }

  /** The loop goes on only while user code triggers: after `n` turns without an end, at least `n` commands. */
  lemma TurnsNeedTriggers(env: Env, s: State, code: string, stdin: string, n: nat)
    ensures var l := CellRun(env, s, code, stdin, n);
            var m := l.state.machine;
            l.result.Yielded? && !l.stopped && |m.log| < U32_SIZE ==> n <= |l.deliveries| <= |m.log|
  {
    RunKeepsLoopInv(env, s, code, stdin, n);
    TurnsDeliver(env, Start(env, s, code, stdin), n);
    var l := CellRun(env, s, code, stdin, n);
    assert l.result.Yielded? && !l.stopped ==> n <= |l.deliveries|;
    hide CellRun, Chain, Reached, Apart, Increasing, Kept, Numbered;
    if |l.state.machine.log| < U32_SIZE {
      QueueAfterDrained(l.state.machine);
      IncreasingBound(l.state.machine.drained, |l.state.machine.log|);
      assert |Commands(l.deliveries)| <= |l.state.machine.drained|;
    }
  }

  // ─── Output ───────────────────────────────────────────────────

  /**
   The stdout of the run and of each resume, aborted ones included, form a chain of prefixes
   that ends in everything printed since the cell started; the loop's result carries all of it.
   */
  lemma OutputIsComplete(env: Env, s: State, code: string, stdin: string, n: nat)
    ensures var l := CellRun(env, s, code, stdin, n);
            var m := l.state.machine;
            && Chain(Outputs(l) + [m.stdout])
            && l.result.stdout == m.stdout == Printed(m.done)
  {
    RunKeepsLoopInv(env, s, code, stdin, n);
  }
}

/**
 `run_cell_async_loop`: run a cell, hand each batch of yielded commands to the handler,
 resume the session with one response at a time, and go round again.

 A cell can keep yielding for ever, so the loop is cut after a given number of batches;
 every claim holds for every such number, hence at each point of each run.
 */
module AsyncLoop {
  import opened Wrappers
  import opened Engine
  import opened Session

  datatype HandlerResult = Handled(response: Response) | HandlerFailed(error: AsyncError)

  /** What the loop cannot see into: user code, the handler's answer to the k-th dispatched
      command, and the value of the abort flag at the k-th look at it. */
  datatype Env = Env(prog: Program, handle: (nat, Command) -> HandlerResult, aborted: nat -> bool)

  const ABORT_RESPONSE := Response(false, None, Some(AsyncError("E_ABORTED", "Runner aborted")))

  function ResponseOf(r: HandlerResult): Response {
    match r
    case Handled(response) => response
    case HandlerFailed(error) => Response(false, None, Some(error))
  }

  /** One resume; before it came `at` entries into the engine and `looks` looks at the abort flag. */
  datatype Delivery = Delivery(command: Command, response: Response, result: RunResult, at: nat, looks: nat)

  /** The loop's variables, with what it has dispatched and delivered so far. */
  datatype Loop = Loop(
    state: State,
    result: RunResult,
    first: RunResult,
    dispatched: seq<Command>,
    deliveries: seq<Delivery>,
    polls: nat,
    aborted: bool,
    stopped: bool
  )

  ghost function Start(env: Env, s: State, code: string, stdin: string): Loop {
    var (s', r) := RunCell(env.prog, s, code, stdin);
    Loop(s', r, r, [], [], 0, false, false)
  }

  ghost function Deliver(env: Env, l: Loop, command: Command, response: Response): Loop {
    var (s, r) := ResumeCell(env.prog, l.state, command.callId, Some(response));
    l.(state := s, result := r,
       deliveries := l.deliveries + [Delivery(command, response, r, |l.state.machine.trace|, l.polls)])
  }

  /** Resume every command of the batch with the abort error. */
  ghost function AbortAll(env: Env, l: Loop, batch: seq<Command>): Loop
    decreases |batch|
  {
    if batch == [] then l else AbortAll(env, Deliver(env, l, batch[0], ABORT_RESPONSE), batch[1..])
  }

  function NewCommands(r: RunResult): seq<Command> {
    if r.Yielded? then r.commands else []
  }

  /** Look at the abort flag, then resume with the response or with the abort error. */
  ghost function ServeOne(env: Env, l: Loop, command: Command, response: Response): Loop {
    Deliver(env, l.(polls := l.polls + 1), command, if env.aborted(l.polls) then ABORT_RESPONSE else response)
  }

  /** Resume the batch serially; the second component collects the commands yielded meanwhile. */
  ghost function Serve(env: Env, l: Loop, batch: seq<Command>, responses: seq<Response>, acc: seq<Command>)
    : (Loop, seq<Command>)
    requires |batch| == |responses|
    decreases |batch|
  {
    if batch == [] then (l, acc)
    else
      var l' := ServeOne(env, l, batch[0], responses[0]);
      Serve(env, l', batch[1..], responses[1..], acc + NewCommands(l'.result))
  }

  function Responses(env: Env, k: nat, batch: seq<Command>): (responses: seq<Response>)
    ensures |responses| == |batch|
  {
    seq(|batch|, i requires 0 <= i < |batch| => ResponseOf(env.handle(k + i, batch[i])))
  }

  /** Dispatch a batch, serve it, and force another turn if anything new was yielded. */
  ghost function ServeTurn(env: Env, l: Loop, batch: seq<Command>): Loop {
    var l1 := l.(dispatched := l.dispatched + batch);
    var (l', acc) := Serve(env, l1, batch, Responses(env, |l.dispatched|, batch), []);
    if acc != [] && !l'.result.Failed? then l'.(result := Yielded(l'.result.stdout, acc)) else l'
  }

  /** One turn of the loop. */
  ghost function Turn(env: Env, l: Loop): Loop
    requires l.result.Yielded?
  {
    var batch := l.result.commands;
    if batch == [] then l.(result := Failed(l.result.stdout, StuckPromise), stopped := true)
    else if env.aborted(l.polls) then
      AbortAll(env, l.(polls := l.polls + 1, aborted := true), batch).(stopped := true)
    else ServeTurn(env, l.(polls := l.polls + 1), batch)
  }

  ghost function Turns(env: Env, l: Loop, n: nat): Loop
    decreases n
  {
    if n == 0 || l.stopped || !l.result.Yielded? then l else Turns(env, Turn(env, l), n - 1)
  }

  // ─── The loop itself ──────────────────────────────────────────

  class Runner {
    const env: Env
    const session: JsSession

    var dispatched: seq<Command>
    var polls: nat
    var aborted: bool
    ghost var first: RunResult
    ghost var deliveries: seq<Delivery>

    ghost predicate Valid()
      reads this
    {
      session.prog == env.prog
    }

    ghost function Now(result: RunResult, stopped: bool): Loop
      reads this, session
    {
      Loop(session.Snapshot(), result, first, dispatched, deliveries, polls, aborted, stopped)
    }

    constructor (env: Env, session: JsSession)
      requires session.prog == env.prog
      ensures Valid() && this.env == env && this.session == session
    {
      this.env, this.session := env, session;
      dispatched, polls, aborted, deliveries := [], 0, false, [];
      first := Finished([]);
    }

    method Resume(command: Command, response: Response, ghost before: RunResult) returns (result: RunResult)
      requires Valid()
      modifies this`deliveries, session
      ensures Valid()
      ensures Now(result, false) == Deliver(env, old(Now(before, false)), command, response)
    {
      ghost var at := |session.trace|;
      result := session.Resume(command.callId, Some(response));
      deliveries := deliveries + [Delivery(command, response, result, at, polls)];
    }

    method ResumeAborted(batch: seq<Command>, before: RunResult) returns (result: RunResult)
      requires Valid()
      modifies this`deliveries, session
      ensures Valid()
      ensures Now(result, false) == AbortAll(env, old(Now(before, false)), batch)
    {
      result := before;
      var i := 0;
      while i < |batch|
        invariant 0 <= i <= |batch| && Valid()
        invariant AbortAll(env, old(Now(before, false)), batch) == AbortAll(env, Now(result, false), batch[i..])
      {
        assert batch[i..][1..] == batch[i + 1..];
        result := Resume(batch[i], ABORT_RESPONSE, result);
        i := i + 1;
      }
    }

    method ServeBatch(batch: seq<Command>, responses: seq<Response>, before: RunResult)
      returns (result: RunResult, accumulated: seq<Command>)
      requires Valid() && |batch| == |responses|
      modifies this`deliveries, this`polls, session
      ensures Valid()
      ensures (Now(result, false), accumulated) == Serve(env, old(Now(before, false)), batch, responses, [])
    {
      hide ResumeCell, Deliver;
      result, accumulated := before, [];
      var i := 0;
      while i < |batch|
        invariant 0 <= i <= |batch| && Valid()
        invariant Serve(env, old(Now(before, false)), batch, responses, [])
               == Serve(env, Now(result, false), batch[i..], responses[i..], accumulated)
      {
        assert batch[i..][1..] == batch[i + 1..] && responses[i..][1..] == responses[i + 1..];
        var response := responses[i];
        if env.aborted(polls) {
          response := ABORT_RESPONSE;
        }
        polls := polls + 1;
        result := Resume(batch[i], response, result);
        accumulated := accumulated + NewCommands(result);
        i := i + 1;
      }
    }

    /** One turn; false when the loop returns. */
    method RunBatch(before: RunResult) returns (result: RunResult, stopped: bool)
      requires Valid() && before.Yielded?
      modifies this, session
      ensures Valid() && Now(result, stopped) == Turn(env, old(Now(before, false)))
    {
      var batch := before.commands;
      if batch == [] {
        return Failed(before.stdout, StuckPromise), true;
      }
      var abortNow := env.aborted(polls);
      polls := polls + 1;
      if abortNow {
        aborted := true;
        result := ResumeAborted(batch, before);
        return result, true;
      }
      result := ServeAndForce(batch, before);
      stopped := false;
    }

    method ServeAndForce(batch: seq<Command>, before: RunResult) returns (result: RunResult)
      requires Valid()
      modifies this, session
      ensures Valid() && Now(result, false) == ServeTurn(env, old(Now(before, false)), batch)
    {
      var responses := Responses(env, |dispatched|, batch);
      dispatched := dispatched + batch;
      var accumulated;
      result, accumulated := ServeBatch(batch, responses, before);
      if accumulated != [] && !result.Failed? {
        result := Yielded(result.stdout, accumulated);
      }
    }

    method RunCellAsyncLoop(code: string, stdin: string, maxBatches: nat)
      returns (result: RunResult, stopped: bool)
      requires Valid()
      modifies this, session
      ensures Now(result, stopped) == Turns(env, Start(env, old(session.Snapshot()), code, stdin), maxBatches)
    {
      hide Turn, RunCell;
      dispatched, deliveries, polls, aborted := [], [], 0, false;
      result := session.Run(code, stdin);
      first := result;
      stopped := false;
      var batches := 0;
      ghost var start := Start(env, old(session.Snapshot()), code, stdin);
      while result.Yielded? && !stopped && batches < maxBatches
        invariant Valid() && 0 <= batches <= maxBatches
        invariant Turns(env, start, maxBatches) == Turns(env, Now(result, stopped), maxBatches - batches)
      {
        result, stopped := RunBatch(result);
        batches := batches + 1;
      }
    }
  }
}

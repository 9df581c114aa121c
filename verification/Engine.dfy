/**
 The QuickJS side of a notebook cell, seen from the host.

 User code is an arbitrary deterministic program: each time the engine is entered
 (a cell is evaluated, a job runs, a stored callback is called) the program answers
 with a burst of host-visible operations.  The burst may depend on every earlier
 entry, so it stands for any heap, closure or promise state the program keeps.
 */
module Engine {
  import opened Sequences
  import opened Wrappers

  /** Call ids are `u32`; `clearTimeout` reads its argument as an `i32`. */
  const U32_SIZE := 0x1_0000_0000
  const I32_SIZE := 0x8000_0000

  type TimerId = i: int | -I32_SIZE <= i < I32_SIZE witness 0

  /** A function value the host can call: a promise's resolve or reject, or a timer wrapper. */
  datatype Closure =
    | User(name: nat)
    | TimerCallback(callback: nat)
    | IntervalTick(callback: nat, ms: real)
    | Ignore

  datatype Params = Json(text: string) | Duration(ms: real)

  datatype Command = Command(callId: int, action: string, params: Params)

  /** One entry of `__webJsPending`; a member that is not a function is None. */
  datatype Entry = Entry(action: string, resolve: Option<Closure>, reject: Option<Closure>)

  datatype PromiseState = Pending | Fulfilled | Rejected

  /** `__webJsTopPromise`: absent, a plain value, or a promise. */
  datatype Top = Absent | Plain | Promise(state: PromiseState)

  datatype Payload = Value(json: string) | Error(code: string, message: string)

  datatype Event =
    | Eval(code: string, stdin: string)
    | RunJob(job: nat)
    | Callback(closure: Closure, payload: Payload)

  datatype Op =
    | Poll                       // one call of the interrupt handler
    | Print(line: string)
    | TriggerAsync(action: string, params: Params, resolve: Option<Closure>, reject: Option<Closure>)
    | SetTimeout(callback: Option<nat>, ms: real)
    | SetInterval(callback: Option<nat>, ms: real)
    | ClearTimer(id: TimerId)    // clearTimeout and clearInterval
    | Enqueue(job: nat)
    | SettleTop(state: PromiseState)

  datatype Ending = Throws | Returns(top: Top)

  datatype Burst = Burst(ops: seq<Op>, ending: Ending)

  type Program = seq<Event> -> Burst

  /** An operation that was executed, with the queue and the keys of `__webJsPending` it met. */
  datatype Done = Done(op: Op, queued: seq<Command>, live: set<int>)

  /**
   The host state and the engine state that outlives one entry.  The last eight fields are
   the history of the current cell: every command triggered with the entry stored for it,
   the commands handed out, the ids dropped from the queue, the ids whose entry a clear
   removed, the ids whose entry a resume removed, the attempts to settle the top promise, and
   every operation executed.
   */
  datatype Machine = Machine(
    stdout: seq<string>,
    queue: seq<Command>,
    counter: nat,
    pending: map<int, Entry>,
    jobs: seq<nat>,
    fuel: nat,
    top: Top,
    trace: seq<Event>,
    log: seq<Command>,
    entries: seq<Entry>,
    drained: seq<Command>,
    cancelled: set<int>,
    cleared: set<int>,
    deleted: set<int>,
    settles: seq<PromiseState>,
    done: seq<Done>
  )

  const FRESH := Machine([], [], 0, map[], [], 0, Absent, [], [], [], [], {}, {}, {}, [], [])

  // ─── Host functions ───────────────────────────────────────────

  ghost function Ids(commands: seq<Command>): set<int> {
    set c | c in commands :: c.callId
  }

  /** The queue after `retain(|c| c.call_id != id)`. */
  function Without(commands: seq<Command>, id: int): seq<Command> {
    if commands == [] then []
    else (if commands[0].callId == id then [] else [commands[0]]) + Without(commands[1..], id)
  }

  function NonNegative(ms: real): real {
    if ms < 0.0 then 0.0 else ms
  }

  /** Take the next call id, queue the command and store its entry. */
  ghost function Register(m: Machine, action: string, params: Params, entry: Entry): Machine {
    var id := (m.counter + 1) % U32_SIZE;
    var command := Command(id, action, params);
    m.(counter := id, queue := m.queue + [command], pending := m.pending[id := entry],
       log := m.log + [command], entries := m.entries + [entry])
  }

  ghost function Effect(m: Machine, op: Op): Machine
    requires op.Poll? ==> m.fuel > 0
  {
    match op
    case Poll => m.(fuel := m.fuel - 1)
    case Print(line) => m.(stdout := m.stdout + [line])
    case TriggerAsync(action, params, resolve, reject) =>
      Register(m, action, params, Entry(action, resolve, reject))
    case SetTimeout(callback, ms) =>
      if callback.None? then m
      else Register(m, "sleep", Duration(NonNegative(ms)),
                    Entry("sleep", Some(TimerCallback(callback.value)), Some(Ignore)))
    case SetInterval(callback, ms) =>
      if callback.None? then m
      else Register(m, "sleep", Duration(NonNegative(ms)),
                    Entry("sleep", Some(IntervalTick(callback.value, NonNegative(ms))), Some(Ignore)))
    case ClearTimer(id) =>
      var key := id % U32_SIZE;
      m.(pending := m.pending - {id}, queue := Without(m.queue, key),
         cancelled := m.cancelled + ({key} * Ids(m.queue)),
         cleared := m.cleared + ({id as int} * m.pending.Keys))
    case Enqueue(job) => m.(jobs := m.jobs + [job])
    case SettleTop(state) =>
      m.(top := if m.top == Promise(Pending) then Promise(state) else m.top, settles := m.settles + [state])
  }

  /** Execute one operation and note it in the history. */
  ghost function Step(m: Machine, op: Op): Machine
    requires op.Poll? ==> m.fuel > 0
  {
    Effect(m, op).(done := m.done + [Done(op, m.queue, m.pending.Keys)])
  }

  // ─── Entering the engine ──────────────────────────────────────

  datatype Outcome = Interrupted | Threw | Returned(top: Top)

  /** Run operations in order; the interrupt handler stops them once the fuel is gone. */
  ghost function Exec(m: Machine, ops: seq<Op>): (Machine, bool)
    decreases |ops|
  {
    if ops == [] then (m, true)
    else if ops[0].Poll? && m.fuel == 0 then (m, false)
    else Exec(Step(m, ops[0]), ops[1..])
  }

  /** What an entry runs.  Timer wrappers add the host's own code around the user callback. */
  function BurstOf(prog: Program, trace: seq<Event>, event: Event): Burst {
    var burst := prog(trace + [event]);
    match event
    case Callback(Ignore, _) => Burst([], Returns(Absent))
    case Callback(IntervalTick(callback, ms), _) =>
      if burst.ending.Throws? then burst
      else Burst(burst.ops + [TriggerAsync("sleep", Duration(ms),
                                           Some(IntervalTick(callback, ms)), Some(Ignore))],
                 burst.ending)
    case _ => burst
  }

  ghost function Activate(prog: Program, m: Machine, event: Event): (Machine, Outcome) {
    var burst := BurstOf(prog, m.trace, event);
    var (m', finished) := Exec(m.(trace := m.trace + [event]), burst.ops);
    (m', if !finished then Interrupted else if burst.ending.Throws? then Threw else Returned(burst.ending.top))
  }

  // ─── What a history of operations amounts to ──────────────────

  datatype Trigger = Trigger(action: string, params: Params, entry: Entry)

  function Sleep(ms: real, wrapper: Closure): Trigger {
    Trigger("sleep", Duration(if ms > 0.0 then ms else 0.0), Entry("sleep", Some(wrapper), Some(Ignore)))
  }

  /** The call that one operation triggers, if any. */
  function Triggered(op: Op): seq<Trigger> {
    match op
    case TriggerAsync(action, params, resolve, reject) =>
      [Trigger(action, params, Entry(action, resolve, reject))]
    case SetTimeout(Some(callback), ms) => [Sleep(ms, TimerCallback(callback))]
    case SetInterval(Some(callback), ms) => [Sleep(ms, IntervalTick(callback, if ms > 0.0 then ms else 0.0))]
    case _ => []
  }

  ghost function Triggers(done: seq<Done>): seq<Trigger> {
    if done == [] then [] else Triggers(done[..|done| - 1]) + Triggered(done[|done| - 1].op)
  }

  ghost function Printed(done: seq<Done>): seq<string> {
    if done == [] then []
    else
      var last := done[|done| - 1].op;
      Printed(done[..|done| - 1]) + (if last.Print? then [last.line] else [])
  }

  ghost function Attempts(done: seq<Done>): seq<PromiseState> {
    if done == [] then []
    else
      var last := done[|done| - 1].op;
      Attempts(done[..|done| - 1]) + (if last.SettleTop? then [last.state] else [])
  }

  /** The ids that a clear met in the queue. */
  ghost function Cancelled(done: seq<Done>): set<int> {
    set d, c | d in done && d.op.ClearTimer? && c in d.queued && c.callId == d.op.id % U32_SIZE :: c.callId
  }

  /** The ids whose entry a clear met. */
  ghost function Cleared(done: seq<Done>): set<int> {
    set d | d in done && d.op.ClearTimer? && d.op.id in d.live :: d.op.id as int
  }

  /** Ids count up from 1 as unsigned 32-bit numbers; commands and entries are those of the triggers, in order. */
  ghost predicate Spelled(m: Machine, triggers: seq<Trigger>) {
    && |m.log| == |m.entries| == |triggers|
    && m.counter == |triggers| % U32_SIZE
    && (forall i :: 0 <= i < |triggers| ==>
          m.log[i] == Command((i + 1) % U32_SIZE, triggers[i].action, triggers[i].params))
    && (forall i :: 0 <= i < |triggers| ==> m.entries[i] == triggers[i].entry)
  }

  /** The history fields and the output are what the executed operations amount to. */
  ghost predicate Replayed(m: Machine) {
    && Spelled(m, Triggers(m.done))
    && m.stdout == Printed(m.done)
    && m.settles == Attempts(m.done)
    && m.cancelled == Cancelled(m.done)
    && m.cleared == Cleared(m.done)
  }

  // ─── Invariant ────────────────────────────────────────────────

  /** The commands of `log` whose id is not in `gone`, in order. */
  ghost function Kept(log: seq<Command>, gone: set<int>): seq<Command> {
    if log == [] then []
    else
      var last := log[|log| - 1];
      Kept(log[..|log| - 1], gone) + (if last.callId in gone then [] else [last])
  }

  ghost predicate Numbered(log: seq<Command>) {
    forall i :: 0 <= i < |log| ==> log[i].callId == i + 1
  }

  ghost predicate Increasing(commands: seq<Command>) {
    forall i, j :: 0 <= i < j < |commands| ==> commands[i].callId < commands[j].callId
  }

  /** What holds while the 32-bit id counter has not wrapped within the cell. */
  ghost predicate Ordered(m: Machine) {
    && m.counter == |m.log| == |m.entries|
    && Numbered(m.log)
    && Kept(m.log, m.cancelled) == m.drained + m.queue
    && (forall c :: c in m.queue ==> c.callId in m.pending)
    && (forall k :: k in m.pending ==> 1 <= k <= m.counter && m.pending[k] == m.entries[k - 1])
    && (forall k :: k in m.cancelled ==> 1 <= k <= m.counter)
  }

  /** What holds while every id also fits the `i32` that `clearTimeout` reads. */
  ghost predicate Accounted(m: Machine) {
    && m.cancelled <= m.cleared
    && (forall k :: k in m.cleared ==> 1 <= k <= |m.log|)
    && (forall k :: k in m.deleted ==> 1 <= k <= |m.log|)
    && (forall k :: 1 <= k <= |m.log| ==> (k in m.pending <==> k !in m.cleared && k !in m.deleted))
  }

  ghost predicate Books(m: Machine) {
    && |m.entries| == |m.log|
    && (|m.log| < U32_SIZE ==> Ordered(m))
    && (|m.log| < I32_SIZE ==> Accounted(m))
  }

  ghost predicate Inv(m: Machine) {
    Books(m) && Replayed(m)
  }

  /** What an entry into the engine can change: output and triggers only grow. */
  ghost predicate Evolves(m: Machine, m': Machine) {
    && m.stdout <= m'.stdout
    && m.log <= m'.log
    && m.entries <= m'.entries
    && m.trace <= m'.trace
    && m.cancelled <= m'.cancelled
    && m.cleared <= m'.cleared
    && m.done <= m'.done
    && m.drained == m'.drained
    && m.deleted == m'.deleted
    && m'.fuel <= m.fuel
  }

  // ─── Lemmas about the trigger log ─────────────────────────────

  lemma {:induction false} WithoutSplit(a: seq<Command>, b: seq<Command>, id: int)
    ensures Without(a + b, id) == Without(a, id) + Without(b, id)
  {
    if a == [] {
      assert a + b == b;
    } else {
      WithoutSplit(a[1..], b, id);
      assert (a + b)[1..] == a[1..] + b && (a + b)[0] == a[0];
      Regroup(if a[0].callId == id then [] else [a[0]], Without(a[1..], id), Without(b, id));
    }
  }

  lemma {:induction false} WithoutAbsent(a: seq<Command>, id: int)
    requires forall c :: c in a ==> c.callId != id
    ensures Without(a, id) == a
  {
    if a != [] {
      WithoutAbsent(a[1..], id);
    }
  }

  lemma {:induction false} WithoutMembers(a: seq<Command>, id: int)
    ensures forall c :: c in Without(a, id) <==> c in a && c.callId != id
  {
    if a != [] {
      WithoutMembers(a[1..], id);
      assert a == [a[0]] + a[1..];
    }
  }

  lemma {:induction false} KeptMore(log: seq<Command>, gone: set<int>, id: int)
    ensures Kept(log, gone + {id}) == Without(Kept(log, gone), id)
  {
    if log != [] {
      var last := log[|log| - 1];
      var tail := if last.callId in gone then [] else [last];
      KeptMore(log[..|log| - 1], gone, id);
      WithoutSplit(Kept(log[..|log| - 1], gone), tail, id);
    }
  }

  /** The kept part of a numbered log holds exactly the commands whose id is not gone. */
  lemma {:induction false} KeptMembers(log: seq<Command>, gone: set<int>)
    requires Numbered(log)
    ensures forall c :: c in Kept(log, gone) ==> 1 <= c.callId <= |log| && c == log[c.callId - 1] && c.callId !in gone
    ensures forall k :: 0 <= k < |log| && k + 1 !in gone ==> log[k] in Kept(log, gone)
  {
    if log != [] {
      var front := log[..|log| - 1];
      KeptMembers(front, gone);
      forall c | c in Kept(log, gone)
        ensures 1 <= c.callId <= |log| && c == log[c.callId - 1] && c.callId !in gone
      {
        if c in Kept(front, gone) {
          assert c == front[c.callId - 1];
        }
      }
      forall k | 0 <= k < |log| && k + 1 !in gone ensures log[k] in Kept(log, gone) {
        if k < |front| {
          assert front[k] in Kept(front, gone);
        }
      }
    }
  }

  lemma {:induction false} KeptIncreasing(log: seq<Command>, gone: set<int>)
    requires Numbered(log)
    ensures Increasing(Kept(log, gone))
  {
    if log != [] {
      var front := Kept(log[..|log| - 1], gone);
      KeptIncreasing(log[..|log| - 1], gone);
      KeptMembers(log[..|log| - 1], gone);
      forall i, j | 0 <= i < j < |Kept(log, gone)|
        ensures Kept(log, gone)[i].callId < Kept(log, gone)[j].callId
      {
        assert front[i] in front;
      }
    }
  }

  lemma KeptAppend(log: seq<Command>, c: Command, gone: set<int>)
    requires c.callId !in gone
    ensures Kept(log + [c], gone) == Kept(log, gone) + [c]
  {
    assert (log + [c])[..|log|] == log;
  }

  lemma IncreasingSplit(a: seq<Command>, b: seq<Command>)
    requires Increasing(a + b)
    ensures Increasing(a) && Increasing(b)
    ensures forall i, j :: 0 <= i < |a| && 0 <= j < |b| ==> a[i].callId < b[j].callId
  {
    var all := a + b;
    forall i, j | 0 <= i < j < |a| ensures a[i].callId < a[j].callId {
      assert all[i] == a[i] && all[j] == a[j];
    }
    forall i, j | 0 <= i < j < |b| ensures b[i].callId < b[j].callId {
      assert all[|a| + i] == b[i] && all[|a| + j] == b[j];
    }
    forall i, j | 0 <= i < |a| && 0 <= j < |b| ensures a[i].callId < b[j].callId {
      assert all[i] == a[i] && all[|a| + j] == b[j];
    }
  }

  lemma IncreasingApart(commands: seq<Command>, k: nat, j: nat)
    requires Increasing(commands) && k <= j <= |commands|
    ensures Increasing(commands[..k])
    ensures Ids(commands[j..]) !! Ids(commands[..k])
  {
    forall c, d | c in commands[j..] && d in commands[..k] ensures c.callId != d.callId {
      var a :| 0 <= a < |commands| - j && commands[j..][a] == c;
      var b :| 0 <= b < k && commands[..k][b] == d;
      assert commands[b].callId < commands[j + a].callId;
    }
  }

  /** In an ordered machine the queue follows what was handed out, and the two are disjoint. */
  lemma QueueAfterDrained(m: Machine)
    requires Ordered(m)
    ensures Increasing(m.drained + m.queue) && Increasing(m.drained) && Increasing(m.queue)
    ensures Ids(m.drained) !! Ids(m.queue) !! m.cancelled
    ensures forall c :: c in m.drained + m.queue ==> 1 <= c.callId <= |m.log| && c == m.log[c.callId - 1]
    ensures forall k :: 1 <= k <= |m.log| ==> k in Ids(m.drained) || k in Ids(m.queue) || k in m.cancelled
  {
    hide Kept;
    KeptIncreasing(m.log, m.cancelled);
    KeptMembers(m.log, m.cancelled);
    IncreasingSplit(m.drained, m.queue);
    forall k | 1 <= k <= |m.log| && k !in m.cancelled ensures k in Ids(m.drained) || k in Ids(m.queue) {
      assert m.log[k - 1] in m.drained + m.queue;
    }
  }

  // ─── Every step is replayed ───────────────────────────────────

  lemma StepTriggers(m: Machine, op: Op)
    requires op.Poll? ==> m.fuel > 0
    ensures var m' := Step(m, op);
            && Triggers(m'.done) == Triggers(m.done) + Triggered(op)
            && m'.counter == (if Triggered(op) == [] then m.counter else (m.counter + 1) % U32_SIZE)
            && m'.log == m.log + (if Triggered(op) == [] then []
                                  else [Command(m'.counter, Triggered(op)[0].action, Triggered(op)[0].params)])
            && m'.entries == m.entries + (if Triggered(op) == [] then [] else [Triggered(op)[0].entry])
  {
    hide Without, Ids;
    assert Step(m, op).done[..|m.done|] == m.done;
  }

  lemma SpelledOneMore(m: Machine, m': Machine, triggers: seq<Trigger>, next: Trigger)
    requires Spelled(m, triggers) && m'.counter == (m.counter + 1) % U32_SIZE
    requires m'.log == m.log + [Command(m'.counter, next.action, next.params)]
    requires m'.entries == m.entries + [next.entry]
    ensures Spelled(m', triggers + [next])
  {
    NextId(|triggers|);
  }

  lemma RegisterReplays(m: Machine, op: Op)
    requires Replayed(m) && (op.Poll? ==> m.fuel > 0)
    ensures Spelled(Step(m, op), Triggers(Step(m, op).done))
  {
    assert Spelled(m, Triggers(m.done));
    StepTriggers(m, op);
    TriggersOnce(op);
    hide Replayed, Step, Triggered, Triggers;
    var triggers, next := Triggers(m.done), Triggered(op);
    if next == [] {
      assert triggers + next == triggers;
      assert m.log + [] == m.log && m.entries + [] == m.entries;
    } else {
      hide Spelled;
      SpelledOneMore(m, Step(m, op), triggers, next[0]);
    }
  }

  lemma TriggersOnce(op: Op)
    ensures Triggered(op) == [] || Triggered(op) == [Triggered(op)[0]]
  {
  }

  lemma NextId(n: nat)
    ensures (n % U32_SIZE + 1) % U32_SIZE == (n + 1) % U32_SIZE
  {
  }

  lemma ClearsReplay(m: Machine, op: Op)
    requires m.cancelled == Cancelled(m.done) && m.cleared == Cleared(m.done) && (op.Poll? ==> m.fuel > 0)
    ensures var m' := Step(m, op); m'.cancelled == Cancelled(m'.done) && m'.cleared == Cleared(m'.done)
  {
    hide Without;
    var m' := Step(m, op);
    var d := Done(op, m.queue, m.pending.Keys);
    assert forall e :: e in m'.done <==> e in m.done || e == d;
    var dropped := if op.ClearTimer? then {op.id % U32_SIZE} * Ids(m.queue) else {};
    assert m'.cancelled == m.cancelled + dropped;
    assert Cancelled(m'.done) == Cancelled(m.done) + dropped;
    assert Cleared(m'.done)
        == Cleared(m.done) + (if op.ClearTimer? then {op.id as int} * m.pending.Keys else {});
  }

  lemma StepReplays(m: Machine, op: Op)
    requires Replayed(m) && (op.Poll? ==> m.fuel > 0)
    ensures Replayed(Step(m, op))
  {
    RegisterReplays(m, op);
    ClearsReplay(m, op);
    hide Triggers, Cancelled, Cleared, Without, Ids;
    assert Step(m, op).done[..|m.done|] == m.done;
  }

  // ─── Every step keeps the invariant ───────────────────────────

  lemma NumberedAppend(log: seq<Command>, c: Command)
    requires Numbered(log) && c.callId == |log| + 1
    ensures Numbered(log + [c])
  {
  }

  lemma RegisterKeepsOrdered(m: Machine, action: string, params: Params, entry: Entry)
    requires |m.log| + 1 < U32_SIZE && Ordered(m)
    ensures Ordered(Register(m, action, params, entry))
  {
    var c := Command((m.counter + 1) % U32_SIZE, action, params);
    assert c.callId == m.counter + 1;
    NumberedAppend(m.log, c);
    KeptAppend(m.log, c, m.cancelled);
    hide Kept, Numbered;
    Regroup(m.drained, m.queue, [c]);
  }

  lemma RegisterKeepsBooks(m: Machine, action: string, params: Params, entry: Entry)
    requires Books(m)
    ensures Books(Register(m, action, params, entry)) && Evolves(m, Register(m, action, params, entry))
  {
    hide Kept, Numbered;
    if |m.log| + 1 < U32_SIZE {
      RegisterKeepsOrdered(m, action, params, entry);
    }
  }

  lemma ClearKeepsKept(m: Machine, id: TimerId)
    requires Ordered(m)
    ensures var m' := Effect(m, ClearTimer(id)); Kept(m'.log, m'.cancelled) == m'.drained + m'.queue
  {
    hide Increasing, Numbered;
    var m' := Effect(m, ClearTimer(id));
    var key := id % U32_SIZE;
    QueueAfterDrained(m);
    if key in Ids(m.queue) {
      assert m'.cancelled == m.cancelled + {key};
      KeptMore(m.log, m.cancelled, key);
      WithoutSplit(m.drained, m.queue, key);
      WithoutAbsent(m.drained, key);
    } else {
      WithoutAbsent(m.queue, key);
      assert m'.cancelled == m.cancelled;
    }
  }

  lemma ClearKeepsOrdered(m: Machine, id: TimerId)
    requires |m.log| < U32_SIZE && Ordered(m)
    ensures Ordered(Effect(m, ClearTimer(id)))
  {
    hide Kept;
    ClearKeepsKept(m, id);
    WithoutMembers(m.queue, id % U32_SIZE);
  }

  lemma ClearKeepsAccounted(m: Machine, id: TimerId)
    requires |m.log| < I32_SIZE && Ordered(m) && Accounted(m)
    ensures Accounted(Effect(m, ClearTimer(id)))
  {
    assert id % U32_SIZE in Ids(m.queue) ==> id % U32_SIZE == id;
  }

  lemma ClearKeepsBooks(m: Machine, id: TimerId)
    requires Books(m)
    ensures Books(Effect(m, ClearTimer(id))) && Evolves(m, Effect(m, ClearTimer(id)))
  {
    if |m.log| < U32_SIZE {
      ClearKeepsOrdered(m, id);
    }
    if |m.log| < I32_SIZE {
      ClearKeepsAccounted(m, id);
    }
  }

  /** Operations that leave ids, commands and entries alone. */
  lemma QuietKeepsBooks(m: Machine, op: Op)
    requires Books(m) && (op.Poll? ==> m.fuel > 0)
    requires op.Poll? || op.Print? || op.Enqueue? || op.SettleTop?
    ensures Books(Effect(m, op)) && Evolves(m, Effect(m, op))
  {
    hide Kept, Increasing, Numbered;
  }

  lemma EffectKeepsBooks(m: Machine, op: Op)
    requires Books(m) && (op.Poll? ==> m.fuel > 0)
    ensures Books(Effect(m, op)) && Evolves(m, Effect(m, op))
  {
    hide Ordered, Accounted, Numbered, Increasing, Kept, Without, Ids, Register;
    match op {
      case TriggerAsync(action, params, resolve, reject) =>
        hide Books, Evolves;
        RegisterKeepsBooks(m, action, params, Entry(action, resolve, reject));
      case SetTimeout(callback, ms) =>
        if callback.Some? {
          hide Books, Evolves;
          RegisterKeepsBooks(m, "sleep", Duration(NonNegative(ms)),
                           Entry("sleep", Some(TimerCallback(callback.value)), Some(Ignore)));
        }
      case SetInterval(callback, ms) =>
        if callback.Some? {
          hide Books, Evolves;
          RegisterKeepsBooks(m, "sleep", Duration(NonNegative(ms)),
                           Entry("sleep", Some(IntervalTick(callback.value, NonNegative(ms))), Some(Ignore)));
        }
      case ClearTimer(id) =>
        hide Books, Evolves;
        ClearKeepsBooks(m, id);
      case _ =>
        hide Books, Evolves;
        QuietKeepsBooks(m, op);
    }
  }

  lemma NotedKeepsBooks(m: Machine, m': Machine, done: seq<Done>)
    requires Books(m') && Evolves(m, m'.(done := m.done)) && m.done <= done
    ensures Books(m'.(done := done)) && Evolves(m, m'.(done := done))
  {
    hide Kept, Numbered, Ids;
  }

  lemma StepKeepsInv(m: Machine, op: Op)
    requires Inv(m) && (op.Poll? ==> m.fuel > 0)
    ensures Inv(Step(m, op)) && Evolves(m, Step(m, op))
  {
    EffectKeepsBooks(m, op);
    StepReplays(m, op);
    assert Effect(m, op).(done := m.done) == Effect(m, op);
    hide Effect, Books, Replayed, Evolves;
    NotedKeepsBooks(m, Effect(m, op), m.done + [Done(op, m.queue, m.pending.Keys)]);
  }

  lemma {:induction false} ExecKeepsInv(m: Machine, ops: seq<Op>)
    requires Inv(m)
    ensures Inv(Exec(m, ops).0) && Evolves(m, Exec(m, ops).0)
    decreases |ops|
  {
    if ops != [] && !(ops[0].Poll? && m.fuel == 0) {
      StepKeepsInv(m, ops[0]);
      ExecKeepsInv(Step(m, ops[0]), ops[1..]);
    }
  }

  lemma ActivateKeepsInv(prog: Program, m: Machine, event: Event)
    requires Inv(m)
    ensures Inv(Activate(prog, m, event).0) && Evolves(m, Activate(prog, m, event).0)
    ensures m.trace + [event] <= Activate(prog, m, event).0.trace
  {
    var m1 := m.(trace := m.trace + [event]);
    ExecKeepsInv(m1, BurstOf(prog, m.trace, event).ops);
  }
}

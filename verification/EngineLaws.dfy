/** What one operation and one entry into the engine do, in terms of queue, entries, output and fuel. */
module EngineLaws {
  import opened Wrappers
  import opened Engine

  // ─── Clearing a timer ─────────────────────────────────────────

  /** The `i`-th command is the only one in the queue with its id. */
  ghost predicate Sole(queue: seq<Command>, i: nat) {
    i < |queue| && forall j :: 0 <= j < |queue| && j != i ==> queue[j].callId != queue[i].callId
  }

  lemma WithoutItself(c: Command)
    ensures Without([c], c.callId) == []
  {
    assert [c][1..] == [];
  }

  lemma WithoutCut(queue: seq<Command>, i: nat)
    requires Sole(queue, i)
    ensures Without(queue, queue[i].callId) == queue[..i] + queue[i + 1..]
  {
    hide Without;
    var id := queue[i].callId;
    assert queue == queue[..i] + [queue[i]] + queue[i + 1..];
    WithoutSplit(queue[..i] + [queue[i]], queue[i + 1..], id);
    WithoutSplit(queue[..i], [queue[i]], id);
    WithoutItself(queue[i]);
    WithoutAbsent(queue[..i], id);
    WithoutAbsent(queue[i + 1..], id);
  }

  /**
   Clearing a timer takes its command out of the queue, wherever it stands, and its entry out of
   `__webJsPending`; all other commands and entries stay, in order, and so does everything else.
   The queue is searched for the id as an unsigned, the entries for the id as a signed integer.
   */
  lemma ClearTimerRemoves(m: Machine, id: TimerId)
    ensures var m' := Step(m, ClearTimer(id));
            var key := if id < 0 then id + U32_SIZE else id;
            && (forall c :: c in m'.queue <==> c in m.queue && c.callId != key)
            && (key !in Ids(m.queue) ==> m'.queue == m.queue)
            && (forall i: nat :: Sole(m.queue, i) && m.queue[i].callId == key ==>
                  m'.queue == m.queue[..i] + m.queue[i + 1..])
            && (forall k :: k in m'.pending <==> k in m.pending && k != id)
            && (forall k :: k in m'.pending ==> m'.pending[k] == m.pending[k])
            && m' == m.(queue := m'.queue, pending := m'.pending, cancelled := m'.cancelled,
                        cleared := m'.cleared, done := m'.done)
  {
    var m' := Step(m, ClearTimer(id));
    var key := if id < 0 then id + U32_SIZE else id;
    assert key == id % U32_SIZE;
    WithoutMembers(m.queue, key);
    if key !in Ids(m.queue) {
      WithoutAbsent(m.queue, key);
    }
    forall i: nat | Sole(m.queue, i) && m.queue[i].callId == key
      ensures m'.queue == m.queue[..i] + m.queue[i + 1..]
    {
      WithoutCut(m.queue, i);
    }
  }

  // ─── Entering the engine ──────────────────────────────────────

  ghost function Polls(ops: seq<Op>): nat {
    if ops == [] then 0 else (if ops[0].Poll? then 1 else 0) + Polls(ops[1..])
  }

  /** `m'` comes from `m` by executing just the first `k` of the operations. */
  ghost predicate Executed(m: Machine, m': Machine, ops: seq<Op>, k: nat) {
    && k <= |ops|
    && |m'.done| == |m.done| + k && m.done <= m'.done
    && (forall i :: 0 <= i < k ==> m'.done[|m.done| + i].op == ops[i])
    && m'.fuel + Polls(ops[..k]) == m.fuel
  }

  lemma ExecutedOneMore(m: Machine, m': Machine, ops: seq<Op>, k: nat)
    requires ops != [] && (ops[0].Poll? ==> m.fuel > 0) && Executed(Step(m, ops[0]), m', ops[1..], k)
    ensures Executed(m, m', ops, k + 1)
  {
    var m1 := Step(m, ops[0]);
    assert m1.done[|m.done|].op == ops[0];
    assert ops[..k + 1] == [ops[0]] + ops[1..][..k];
    forall i | 0 <= i < k + 1 ensures m'.done[|m.done| + i].op == ops[i] {
      if i > 0 {
        assert m'.done[|m1.done| + (i - 1)].op == ops[1..][i - 1];
      } else {
        assert m'.done[|m.done|] == m1.done[|m.done|];
      }
    }
  }

  /** The operations are executed in order; only a poll at empty fuel stops them, and each poll costs one unit. */
  lemma {:induction false} ExecMeaning(m: Machine, ops: seq<Op>)
    ensures var (m', finished) := Exec(m, ops);
            var k := |m'.done| - |m.done|;
            && 0 <= k && Executed(m, m', ops, k)
            && (if finished then k == |ops| else k < |ops| && ops[k].Poll? && m'.fuel == 0)
            && m'.trace == m.trace
    decreases |ops|
  {
    if ops != [] && !(ops[0].Poll? && m.fuel == 0) {
      var m1 := Step(m, ops[0]);
      ExecMeaning(m1, ops[1..]);
      var m' := Exec(m1, ops[1..]).0;
      ExecutedOneMore(m, m', ops, |m'.done| - |m1.done|);
    }
  }

  lemma ActivateExecutes(prog: Program, m: Machine, event: Event)
    ensures var burst := BurstOf(prog, m.trace, event);
            var (m', outcome) := Activate(prog, m, event);
            var k := |m'.done| - |m.done|;
            && m'.trace == m.trace + [event]
            && 0 <= k && Executed(m, m', burst.ops, k)
            && (outcome.Interrupted? <==> k < |burst.ops|)
            && (outcome.Interrupted? ==> burst.ops[k].Poll? && m'.fuel == 0)
            && (outcome.Threw? <==> k == |burst.ops| && burst.ending.Throws?)
            && (outcome.Returned? ==> outcome.top == burst.ending.top)
            && (Replayed(m) ==> Replayed(m'))
  {
    var m1 := m.(trace := m.trace + [event]);
    var burst := BurstOf(prog, m.trace, event);
    ExecMeaning(m1, burst.ops);
    assert Replayed(m) ==> Replayed(m1);
    if Replayed(m) {
      ExecReplays(m1, burst.ops);
    }
    hide Exec, BurstOf, Replayed, Polls;
  }

  /**
   One entry executes the operations that user code answers the event with; it reports an
   interrupt exactly when a poll met empty fuel before the last of them, and otherwise an
   exception exactly when user code threw.
   */
  lemma ActivateMeaning(prog: Program, m: Machine, event: Event)
    ensures var burst := prog(m.trace + [event]);
            var (m', outcome) := Activate(prog, m, event);
            var k := |m'.done| - |m.done|;
            (event.Callback? && (event.closure.Ignore? || event.closure.IntervalTick?)) ||
            (&& m'.trace == m.trace + [event]
             && 0 <= k && Executed(m, m', burst.ops, k)
             && (outcome.Interrupted? <==> k < |burst.ops|)
             && (outcome.Interrupted? ==> burst.ops[k].Poll? && m'.fuel == 0)
             && (outcome.Threw? <==> k == |burst.ops| && burst.ending.Throws?)
             && (outcome.Returned? ==> outcome.top == burst.ending.top))
  {
    ActivateExecutes(prog, m, event);
    hide Activate;
  }

  /** The function that ignores a rejected timer does nothing, not even at empty fuel. */
  lemma IgnoredRejection(prog: Program, m: Machine, payload: Payload)
    ensures var event := Callback(Ignore, payload);
            Activate(prog, m, event) == (m.(trace := m.trace + [event]), Returned(Absent))
  {
  }

  /** The last command triggered is a sleep whose entry ticks again. */
  ghost predicate TicksAgain(m: Machine, callback: nat, ms: real) {
    && |m.log| == |m.entries| > 0
    && m.log[|m.log| - 1] == Command(m.counter, "sleep", Duration(ms))
    && m.entries[|m.log| - 1] == Entry("sleep", Some(IntervalTick(callback, ms)), Some(Ignore))
  }

  lemma LastTriggers(m: Machine, callback: nat, ms: real)
    requires Replayed(m) && m.done != []
    requires m.done[|m.done| - 1].op
          == TriggerAsync("sleep", Duration(ms), Some(IntervalTick(callback, ms)), Some(Ignore))
    ensures TicksAgain(m, callback, ms)
  {
    var before := Triggers(m.done[..|m.done| - 1]);
    var last := Trigger("sleep", Duration(ms), Entry("sleep", Some(IntervalTick(callback, ms)), Some(Ignore)));
    assert Triggers(m.done) == before + [last];
  }

  /**
   An interval that ticks without an exception goes on: its callback runs, and then, as the last
   thing, a new sleep of the same length is triggered whose entry ticks again.  If the callback
   throws, no further sleep is triggered.
   */
  lemma IntervalGoesOn(prog: Program, m: Machine, callback: nat, ms: real, payload: Payload)
    requires Replayed(m)
    ensures var event := Callback(IntervalTick(callback, ms), payload);
            var burst := prog(m.trace + [event]);
            var (m', outcome) := Activate(prog, m, event);
            && (outcome.Threw? ==> Executed(m, m', burst.ops, |burst.ops|) && burst.ending.Throws?)
            && (outcome.Returned? ==>
                  && |m'.done| == |m.done| + |burst.ops| + 1
                  && (forall i :: 0 <= i < |burst.ops| ==> m'.done[|m.done| + i].op == burst.ops[i])
                  && TicksAgain(m', callback, ms))
  {
    var event := Callback(IntervalTick(callback, ms), payload);
    var burst := prog(m.trace + [event]);
    var ops := BurstOf(prog, m.trace, event).ops;
    ActivateExecutes(prog, m, event);
    hide Activate, Replayed, Polls;
    var (m', outcome) := Activate(prog, m, event);
    if outcome.Returned? {
      assert |ops| == |burst.ops| + 1;
      assert m'.done[|m.done| + |burst.ops|].op == ops[|burst.ops|];
      LastTriggers(m', callback, ms);
      forall i | 0 <= i < |burst.ops| ensures m'.done[|m.done| + i].op == burst.ops[i] {
        assert m'.done[|m.done| + i].op == ops[i];
      }
    }
  }

  lemma {:induction false} ExecReplays(m: Machine, ops: seq<Op>)
    requires Replayed(m)
    ensures Replayed(Exec(m, ops).0)
    decreases |ops|
  {
    hide Replayed;
    if ops != [] && !(ops[0].Poll? && m.fuel == 0) {
      StepReplays(m, ops[0]);
      ExecReplays(Step(m, ops[0]), ops[1..]);
    }
  }
}

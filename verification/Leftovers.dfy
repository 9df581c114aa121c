/** Which jobs of one cell are left for the next. */
module Leftovers {
  import opened Wrappers
  import opened Engine
  import opened Session
  import opened SessionLaws

  // ─── A drain cut short ────────────────────────────────────────

  /** Of at most `limit` jobs the `k`-th is the last to run, for want of fuel or by the limit, and more wait. */
  ghost predicate CutAt(prog: Program, m: Machine, k: nat, limit: nat) {
    && 0 < k <= limit
    && (k > 1 ==> AfterJobs(prog, m, k - 1).fuel > 0)
    && (k == limit || AfterJobs(prog, m, k).fuel == 0)
    && AfterJobs(prog, m, k).jobs != []
  }

  ghost predicate CutShort(prog: Program, m: Machine, limit: nat) {
    exists k :: CutAt(prog, m, k, limit)
  }

  lemma CutLater(prog: Program, m: Machine, k: nat, limit: nat)
    requires m.jobs != [] && 0 < k && 0 < limit && RunNextJob(prog, m).fuel > 0
    ensures CutAt(prog, m, k + 1, limit + 1) <==> CutAt(prog, RunNextJob(prog, m), k, limit)
  {
    hide RunNextJob;
    assert AfterJobs(prog, m, k + 1) == AfterJobs(prog, RunNextJob(prog, m), k);
    assert AfterJobs(prog, m, k) == AfterJobs(prog, RunNextJob(prog, m), k - 1);
    assert k == 1 ==> AfterJobs(prog, RunNextJob(prog, m), k - 1) == RunNextJob(prog, m);
  }

  lemma CutFirst(prog: Program, m: Machine, k: nat, limit: nat)
    requires m.jobs != [] && 0 < limit && (limit == 1 || RunNextJob(prog, m).fuel == 0)
    ensures CutAt(prog, m, k, limit) <==> k == 1 && RunNextJob(prog, m).jobs != []
  {
    var m' := RunNextJob(prog, m);
    assert AfterJobs(prog, m, 1) == AfterJobs(prog, m', 0) == m';
    if k > 1 {
      JobsBurnFuel(prog, m', k - 2);
      assert AfterJobs(prog, m, k - 1) == AfterJobs(prog, m', k - 2);
    }
  }

  /** A drain leaves jobs exactly when it is cut short. */
  lemma {:induction false} DrainLeavesJobsExactlyWhen(prog: Program, m: Machine, count: nat)
    requires count < MAX_PENDING_JOB_DRAIN
    ensures Drain(prog, m, count).0.jobs != [] <==> CutShort(prog, m, MAX_PENDING_JOB_DRAIN - count)
    decreases MAX_PENDING_JOB_DRAIN - count
  {
    var limit := MAX_PENDING_JOB_DRAIN - count;
    if m.jobs == [] {
      forall k: nat ensures AfterJobs(prog, m, k) == m {
      }
    } else {
      hide RunNextJob;
      var m' := RunNextJob(prog, m);
      if limit == 1 || m'.fuel == 0 {
        forall k: nat ensures CutAt(prog, m, k, limit) <==> k == 1 && m'.jobs != [] {
          CutFirst(prog, m, k, limit);
        }
        hide CutAt;
        assert m'.jobs != [] ==> CutAt(prog, m, 1, limit);
      } else {
        DrainLeavesJobsExactlyWhen(prog, m', count + 1);
        NotCutFirst(prog, m, limit);
        hide CutAt;
        var later := limit - 1;
        if k: nat :| CutAt(prog, m', k, later) {
          CutIsPositive(prog, m', k, later);
          CutLater(prog, m, k, later);
          assert CutAt(prog, m, k + 1, limit);
        }
        if k: nat :| CutAt(prog, m, k, limit) {
          CutIsPositive(prog, m, k, limit);
          CutLater(prog, m, k - 1, later);
          assert CutAt(prog, m', k - 1, later);
        }
      }
    }
  }

  lemma NotCutFirst(prog: Program, m: Machine, limit: nat)
    requires m.jobs != [] && limit > 1 && RunNextJob(prog, m).fuel > 0
    ensures !CutAt(prog, m, 1, limit)
  {
    assert AfterJobs(prog, m, 1) == AfterJobs(prog, RunNextJob(prog, m), 0);
  }

  lemma CutIsPositive(prog: Program, m: Machine, k: nat, limit: nat)
    ensures CutAt(prog, m, k, limit) ==> k > 0
  {
  }

  // ─── Between two cells ────────────────────────────────────────

  /** A run leaves jobs exactly when its evaluation failed with jobs waiting, or its drain was cut short. */
  lemma RunLeavesJobsExactlyWhen(prog: Program, s: State, code: string, stdin: string)
    ensures var (m, outcome) := Activate(prog, StartCell(s), Eval(code, stdin));
            (RunCell(prog, s, code, stdin).0.machine.jobs != [] <==>
               if outcome.Returned? then CutShort(prog, m.(top := outcome.top), MAX_PENDING_JOB_DRAIN)
               else m.jobs != [])
  {
    hide Activate, Drain, CutShort;
    var (m, outcome) := Activate(prog, StartCell(s), Eval(code, stdin));
    if outcome.Returned? {
      DrainLeavesJobsExactlyWhen(prog, m.(top := outcome.top), 0);
    }
  }

  /** A resume leaves jobs to the next cell exactly when no reset is due and its drain was cut short. */
  lemma ResumeLeavesJobsExactlyWhen(prog: Program, s: State, id: int, response: Response)
    ensures var (m, fault) := ResumePending(prog, s.machine.(fuel := s.fuelLimit), id, response);
            (StartCell(ResumeCell(prog, s, id, Some(response)).0).jobs != [] <==>
               !s.needsReset && fault.None? && CutShort(prog, m, MAX_PENDING_JOB_DRAIN))
  {
    hide ResumePending, Drain, CutShort;
    var (m, fault) := ResumePending(prog, s.machine.(fuel := s.fuelLimit), id, response);
    DrainLeavesJobsExactlyWhen(prog, m, 0);
    DrainErrors(prog, m, 0);
  }

  /** No job is left by a call that reports anything but these errors. */
  lemma LeftoversMeanLimits(prog: Program, s: State, code: string, stdin: string, id: int, response: Response)
    ensures var (s', r) := RunCell(prog, s, code, stdin);
            s'.machine.jobs != [] ==>
              r.Failed? && (r.error.ThrownException? || r.error.FuelExhausted? || r.error.DrainLimit?)
    ensures var (s', r) := ResumeCell(prog, s, id, Some(response));
            s'.machine.jobs != [] && !s'.needsReset ==>
              r.Failed? && (r.error.FuelExhausted? || r.error.DrainLimit?)
  {
    hide Activate, Drain, ResumePending;
    var (m, outcome) := Activate(prog, StartCell(s), Eval(code, stdin));
    if outcome.Returned? {
      DrainLeavesNothing(prog, m.(top := outcome.top), 0);
      DrainErrors(prog, m.(top := outcome.top), 0);
    }
    var (m1, fault) := ResumePending(prog, s.machine.(fuel := s.fuelLimit), id, response);
    DrainLeavesNothing(prog, m1, 0);
    DrainErrors(prog, m1, 0);
  }

  // ─── Instance ─────────────────────────────────────────────────

  /** Cell `a` enqueues a job that uses up the fuel and one that prints; any other cell does nothing. */
  function Leaking(trace: seq<Event>): Burst {
    if trace == [] then Burst([], Returns(Plain))
    else
      match trace[|trace| - 1]
      case Eval(code, _) => Burst(if code == "a" then [Enqueue(0), Enqueue(1)] else [], Returns(Plain))
      case RunJob(job) => Burst(if job == 0 then [Poll] else [Print("leak")], Returns(Absent))
      case Callback(_, _) => Burst([], Returns(Absent))
  }

  const CELL_A := Eval("a", "")
  const CELL_B := Eval("b", "")

  lemma LeakingFirst()
    ensures var (s, r) := RunCell(Leaking, State(FRESH, false, 1), "a", "");
            && s == State(FRESH.(jobs := [1], top := Plain, trace := [CELL_A, RunJob(0)], done := s.machine.done),
                          false, 1)
            && r == Failed([], FuelExhausted)
  {
    var ops := [Enqueue(0), Enqueue(1)];
    var m0 := FRESH.(fuel := 1, trace := [CELL_A]);
    assert [] + [CELL_A] == [CELL_A];
    var m1 := Step(m0, ops[0]);
    var m2 := Step(m1, ops[1]);
    assert ops[1..] == [ops[1]] && [ops[1]][1..] == [];
    assert Exec(m0, ops) == Exec(m1, [ops[1]]) == Exec(m2, []) == (m2, true);
    assert m2.jobs == [0, 1] && [0, 1][1..] == [1];
    var m3 := m2.(top := Plain);
    var m4 := m3.(jobs := [1], trace := [CELL_A, RunJob(0)]);
    assert [CELL_A] + [RunJob(0)] == [CELL_A, RunJob(0)];
    assert [Poll][1..] == [];
    assert Exec(m4, [Poll]) == Exec(Step(m4, Poll), []) == (Step(m4, Poll), true);
    assert RunNextJob(Leaking, m3) == Step(m4, Poll);
    assert Drain(Leaking, m3, 0) == (Step(m4, Poll), Some(FuelExhausted));
  }

  lemma LeakingSecond(s: State)
    requires s.machine.jobs == [1] && !s.needsReset && s.fuelLimit == 1
    ensures RunCell(Leaking, s, "b", "").1 == Finished(["leak"])
  {
    var m0 := StartCell(s);
    var m1 := m0.(trace := m0.trace + [CELL_B]);
    assert Exec(m1, []) == (m1, true);
    var m2 := m1.(top := Plain);
    var m3 := m2.(jobs := [], trace := m2.trace + [RunJob(1)]);
    assert m2.jobs[1..] == [] && [Print("leak")][1..] == [];
    var m4 := Step(m3, Print("leak"));
    assert Exec(m3, [Print("leak")]) == Exec(m4, []) == (m4, true);
    assert RunNextJob(Leaking, m2) == m4 && m4.stdout == ["leak"];
    assert Drain(Leaking, m2, 0) == Drain(Leaking, m4, 1) == (m4, None);
  }

  /** The first cell runs out of fuel; the second prints nothing itself and ends well with the first one's output. */
  lemma LeftoverPrintsInNextCell()
    ensures var (s, r) := RunCell(Leaking, State(FRESH, false, 1), "a", "");
            r == Failed([], FuelExhausted) && RunCell(Leaking, s, "b", "").1 == Finished(["leak"])
  {
    hide RunCell;
    LeakingFirst();
    LeakingSecond(RunCell(Leaking, State(FRESH, false, 1), "a", "").0);
  }
}

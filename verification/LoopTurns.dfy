/** What one turn of the loop does, and which response each resume carries. */
module LoopTurns {
  import opened Wrappers
  import opened Engine
  import opened Session
  import opened AsyncLoop

  // ─── Responses ────────────────────────────────────────────────

  predicate Aborts(response: Response) {
    response == Response(false, None, Some(AsyncError("E_ABORTED", "Runner aborted")))
  }

  /** The response passes on what the handler said; an error of the handler itself becomes a rejection. */
  predicate Answers(response: Response, answer: HandlerResult) {
    match answer
    case Handled(given) => response == given
    case HandlerFailed(error) => !response.ok && response.value == None && response.error == Some(error)
  }

  /** The look at the abort flag just before a resume decides: the abort error, or the handler's answer. */
  ghost predicate Decided(env: Env, j: nat, d: Delivery) {
    d.looks > 0 &&
    if env.aborted(d.looks - 1) then Aborts(d.response) else Answers(d.response, env.handle(j, d.command))
  }

  /** The commands that the resumes yielded, in order. */
  function Yields(deliveries: seq<Delivery>): seq<Command> {
    if deliveries == [] then []
    else
      var last := deliveries[|deliveries| - 1].result;
      Yields(deliveries[..|deliveries| - 1]) + (if last.Yielded? then last.commands else [])
  }

  // ─── One turn ─────────────────────────────────────────────────

  /** `l'` comes from `l` by resuming the commands of the batch one after the other. */
  ghost predicate Resumed(l: Loop, l': Loop, batch: seq<Command>) {
    && |l'.deliveries| == |l.deliveries| + |batch| && l.deliveries <= l'.deliveries
    && (forall j :: |l.deliveries| <= j < |l'.deliveries| ==>
          l'.deliveries[j].command == batch[j - |l.deliveries|])
    && l'.first == l.first
  }

  ghost function New(l: Loop, l': Loop): seq<Delivery>
    requires |l.deliveries| <= |l'.deliveries|
  {
    l'.deliveries[|l.deliveries|..]
  }

  ghost function LastOf(l: Loop): Delivery
    requires l.deliveries != []
  {
    l.deliveries[|l.deliveries| - 1]
  }

  /** The loop looked at the flag before each resume; `responses` are used where it was not set. */
  ghost predicate Served(env: Env, l: Loop, l': Loop, batch: seq<Command>, responses: seq<Response>)
    requires |batch| == |responses|
  {
    && Resumed(l, l', batch)
    && l'.polls == l.polls + |batch|
    && l'.dispatched == l.dispatched && l'.aborted == l.aborted && l'.stopped == l.stopped
    && (forall j :: |l.deliveries| <= j < |l'.deliveries| ==>
          l'.deliveries[j].looks == l.polls + (j - |l.deliveries|) + 1)
    && (forall j :: |l.deliveries| <= j < |l'.deliveries| ==>
          if env.aborted(l'.deliveries[j].looks - 1) then Aborts(l'.deliveries[j].response)
          else l'.deliveries[j].response == responses[j - |l.deliveries|])
  }

  lemma ServeOneMeaning(env: Env, l: Loop, command: Command, response: Response)
    ensures var l1 := ServeOne(env, l, command, response);
            && Served(env, l, l1, [command], [response])
            && l1.deliveries == l.deliveries + [LastOf(l1)] && l1.result == LastOf(l1).result
  {
    hide ResumeCell;
  }

  lemma ServedMore(env: Env, l: Loop, l1: Loop, l': Loop, batch: seq<Command>, responses: seq<Response>)
    requires |batch| == |responses| > 0
    requires Served(env, l, l1, [batch[0]], [responses[0]]) && Served(env, l1, l', batch[1..], responses[1..])
    ensures Served(env, l, l', batch, responses)
  {
    hide Aborts;
    forall j | |l.deliveries| <= j < |l'.deliveries|
      ensures l'.deliveries[j].command == batch[j - |l.deliveries|]
      ensures l'.deliveries[j].looks == l.polls + (j - |l.deliveries|) + 1
      ensures if env.aborted(l'.deliveries[j].looks - 1) then Aborts(l'.deliveries[j].response)
              else l'.deliveries[j].response == responses[j - |l.deliveries|]
    {
      if j == |l.deliveries| {
        assert l'.deliveries[j] == l1.deliveries[j];
      }
    }
  }

  lemma {:induction false} ServeMeaning(env: Env, l: Loop, batch: seq<Command>, responses: seq<Response>,
                                        acc: seq<Command>)
    requires |batch| == |responses|
    ensures var l' := Serve(env, l, batch, responses, acc).0;
            Served(env, l, l', batch, responses) && (batch != [] ==> l'.result == LastOf(l').result)
    decreases |batch|
  {
    hide ServeOne;
    if batch != [] {
      var l1 := ServeOne(env, l, batch[0], responses[0]);
      var acc1 := acc + NewCommands(l1.result);
      ServeOneMeaning(env, l, batch[0], responses[0]);
      ServeMeaning(env, l1, batch[1..], responses[1..], acc1);
      hide Served;
      ServedMore(env, l, l1, Serve(env, l1, batch[1..], responses[1..], acc1).0, batch, responses);
    }
  }

  lemma NewSplits(l: Loop, l1: Loop, l': Loop)
    requires l1.deliveries != [] && l1.deliveries == l.deliveries + [LastOf(l1)] && l1.deliveries <= l'.deliveries
    ensures Yields(New(l, l')) == NewCommands(LastOf(l1).result) + Yields(New(l1, l'))
  {
    assert New(l, l') == [LastOf(l1)] + New(l1, l');
    YieldsFirst(LastOf(l1), New(l1, l'));
  }

  lemma {:induction false} ServeYields(env: Env, l: Loop, batch: seq<Command>, responses: seq<Response>,
                                       acc: seq<Command>)
    requires |batch| == |responses|
    ensures var (l', acc') := Serve(env, l, batch, responses, acc);
            l.deliveries <= l'.deliveries && acc' == acc + Yields(New(l, l'))
    decreases |batch|
  {
    hide ServeOne, Yields;
    if batch == [] {
      NothingYielded(l);
    } else {
      var l1 := ServeOne(env, l, batch[0], responses[0]);
      var acc1 := acc + NewCommands(l1.result);
      ServeOneMeaning(env, l, batch[0], responses[0]);
      ServeYields(env, l1, batch[1..], responses[1..], acc1);
      hide Served, New;
      NewSplits(l, l1, Serve(env, l1, batch[1..], responses[1..], acc1).0);
    }
  }

  lemma NothingYielded(l: Loop)
    ensures Yields(New(l, l)) == []
  {
  }

  lemma {:induction false} YieldsFirst(d: Delivery, rest: seq<Delivery>)
    ensures Yields([d] + rest) == NewCommands(d.result) + Yields(rest)
  {
    if rest != [] {
      var front := rest[..|rest| - 1];
      YieldsFirst(d, front);
      assert ([d] + rest)[..|rest|] == [d] + front;
    } else {
      assert ([d] + rest)[..0] == [];
    }
  }

  lemma {:induction false} AbortMeaning(env: Env, l: Loop, batch: seq<Command>)
    ensures var l' := AbortAll(env, l, batch);
            && Resumed(l, l', batch)
            && l'.polls == l.polls && l'.dispatched == l.dispatched
            && l'.aborted == l.aborted && l'.stopped == l.stopped
            && (forall j :: |l.deliveries| <= j < |l'.deliveries| ==>
                  l'.deliveries[j].looks == l.polls && Aborts(l'.deliveries[j].response))
            && (batch != [] ==> l'.result == LastOf(l').result)
    decreases |batch|
  {
    hide ResumeCell;
    if batch != [] {
      var l1 := Deliver(env, l, batch[0], ABORT_RESPONSE);
      AbortMeaning(env, l1, batch[1..]);
      var l' := AbortAll(env, l1, batch[1..]);
      assert l'.deliveries[|l.deliveries|] == l1.deliveries[|l.deliveries|];
    }
  }

  /**
   One turn, by its traces.  An empty batch is the stuck error and nothing else.  If the flag is set
   at the head of the loop the batch is resumed with the abort error and the loop ends, without a
   further look and without the handler.  Otherwise the batch is dispatched and resumed, each
   resume after a look of its own; the result is that of the last resume, unless that is no error
   and something was yielded on the way: then it is pending with everything yielded.
   */
  lemma TurnMeaning(env: Env, l: Loop)
    requires l.result.Yielded? && !l.stopped
    ensures var l' := Turn(env, l);
            var batch := l.result.commands;
            if batch == [] then l' == l.(result := Failed(l.result.stdout, StuckPromise), stopped := true)
            else
              && |l'.deliveries| > |l.deliveries| && Resumed(l, l', batch)
              && if env.aborted(l.polls) then AbortTurn(l, l') else ServingTurn(env, l, l')
  {
    hide AbortTurn, ServingTurn, Resumed, AbortAll, ServeTurn;
    var batch := l.result.commands;
    if batch != [] && env.aborted(l.polls) {
      AbortTurnMeaning(env, l, batch);
    } else if batch != [] {
      ServeTurnMeaning(env, l, batch);
    }
  }

  lemma AbortTurnMeaning(env: Env, l: Loop, batch: seq<Command>)
    requires batch != []
    ensures var l' := AbortAll(env, l.(polls := l.polls + 1, aborted := true), batch).(stopped := true);
            |l'.deliveries| > |l.deliveries| && Resumed(l, l', batch) && AbortTurn(l, l')
  {
    AbortMeaning(env, l.(polls := l.polls + 1, aborted := true), batch);
  }

  ghost predicate AbortTurn(l: Loop, l': Loop)
    requires |l'.deliveries| > |l.deliveries|
  {
    && l'.dispatched == l.dispatched && l'.polls == l.polls + 1 && l'.aborted && l'.stopped
    && l'.result == LastOf(l').result
    && forall j :: |l.deliveries| <= j < |l'.deliveries| ==>
         l'.deliveries[j].looks == l'.polls && Aborts(l'.deliveries[j].response)
  }

  ghost predicate ServingTurn(env: Env, l: Loop, l': Loop)
    requires l.result.Yielded? && |l'.deliveries| > |l.deliveries|
  {
    var yielded := Yields(New(l, l'));
    && l'.dispatched == l.dispatched + l.result.commands && l'.polls == l.polls + 1 + |l.result.commands|
    && l'.aborted == l.aborted && !l'.stopped
    && l'.result == (if LastOf(l').result.Failed? || yielded == [] then LastOf(l').result
                     else Yielded(LastOf(l').result.stdout, yielded))
    && (forall j :: |l.deliveries| <= j < |l'.deliveries| ==>
          l'.deliveries[j].looks == l.polls + 2 + (j - |l.deliveries|))
    && forall j :: |l.deliveries| <= j < |l'.deliveries| ==>
         Decided(env, |l.dispatched| + (j - |l.deliveries|), l'.deliveries[j])
  }

  lemma ServedDecides(env: Env, l: Loop, l': Loop, batch: seq<Command>, k: nat)
    requires Served(env, l, l', batch, Responses(env, k, batch))
    ensures forall j :: |l.deliveries| <= j < |l'.deliveries| ==>
              Decided(env, k + (j - |l.deliveries|), l'.deliveries[j])
  {
    forall j | |l.deliveries| <= j < |l'.deliveries|
      ensures Decided(env, k + (j - |l.deliveries|), l'.deliveries[j])
    {
      var i := j - |l.deliveries|;
      assert l'.deliveries[j].command == batch[i];
      assert Responses(env, k, batch)[i] == ResponseOf(env.handle(k + i, batch[i]));
    }
  }

  lemma ServeTurnMeaning(env: Env, l: Loop, batch: seq<Command>)
    requires l.result.Yielded? && !l.stopped && batch == l.result.commands != []
    ensures var l' := ServeTurn(env, l.(polls := l.polls + 1), batch);
            |l'.deliveries| > |l.deliveries| && Resumed(l, l', batch) && ServingTurn(env, l, l')
  {
    hide Serve, Yields, Responses, Decided;
    var l1 := l.(polls := l.polls + 1, dispatched := l.dispatched + batch);
    var responses := Responses(env, |l.dispatched|, batch);
    ServeMeaning(env, l1, batch, responses, []);
    ServeYields(env, l1, batch, responses, []);
    var (l2, acc) := Serve(env, l1, batch, responses, []);
    ServedDecides(env, l1, l2, batch, |l.dispatched|);
    var l' := ServeTurn(env, l.(polls := l.polls + 1), batch);
    assert acc == Yields(New(l1, l2)) == Yields(New(l, l'));
    assert LastOf(l') == LastOf(l2);
  }

  // ─── Whole runs ───────────────────────────────────────────────

  /**
   The `j`-th resume carries what the look before it decided.  A resume of a dispatched command has
   a look of its own, after the one at the head of its turn; the others, which come last, share
   the look that ended the loop.
   */
  ghost predicate AnswersItsCall(env: Env, l: Loop, j: nat)
    requires j < |l.deliveries|
  {
    var d := l.deliveries[j];
    && Decided(env, j, d)
    && d.looks <= l.polls
    && (j < |l.dispatched| ==> d.looks > if j == 0 then 1 else l.deliveries[j - 1].looks)
    && (j >= |l.dispatched| ==> l.aborted && d.looks == l.polls && env.aborted(l.polls - 1))
  }

  ghost predicate AllAnswered(env: Env, l: Loop) {
    && (!l.stopped ==> !l.aborted && |l.dispatched| == |l.deliveries|)
    && forall j :: 0 <= j < |l.deliveries| ==> AnswersItsCall(env, l, j)
  }

  /** What was answered before a turn stays answered. */
  lemma AnsweredStays(env: Env, l: Loop, l': Loop, j: nat)
    requires j < |l.deliveries| <= |l'.deliveries| && l.deliveries <= l'.deliveries
    requires AnswersItsCall(env, l, j) && j < |l.dispatched| <= |l'.dispatched| && l.polls <= l'.polls
    ensures AnswersItsCall(env, l', j)
  {
  }

  lemma OldAnswersStay(env: Env, l: Loop, l': Loop)
    requires !l.stopped && AllAnswered(env, l) && l.deliveries <= l'.deliveries
    requires l.dispatched <= l'.dispatched && l.polls <= l'.polls
    ensures forall j :: 0 <= j < |l.deliveries| ==> AnswersItsCall(env, l', j)
    ensures l.deliveries != [] ==> LastOf(l).looks <= l.polls
  {
    forall j | 0 <= j < |l.deliveries| ensures AnswersItsCall(env, l', j) {
      assert AnswersItsCall(env, l, j);
      AnsweredStays(env, l, l', j);
    }
    if l.deliveries != [] {
      assert AnswersItsCall(env, l, |l.deliveries| - 1);
    }
  }

  lemma AbortTurnAnswers(env: Env, l: Loop, l': Loop)
    requires !l.stopped && AllAnswered(env, l) && l.deliveries <= l'.deliveries && |l'.deliveries| > |l.deliveries|
    requires env.aborted(l.polls) && AbortTurn(l, l')
    ensures AllAnswered(env, l')
  {
    hide Aborts;
    OldAnswersStay(env, l, l');
  }

  lemma ServingTurnAnswers(env: Env, l: Loop, l': Loop)
    requires !l.stopped && AllAnswered(env, l) && l.deliveries <= l'.deliveries && |l'.deliveries| > |l.deliveries|
    requires l.result.Yielded? && |l'.deliveries| == |l.deliveries| + |l.result.commands|
    requires ServingTurn(env, l, l')
    ensures AllAnswered(env, l')
  {
    hide Decided, Yields;
    OldAnswersStay(env, l, l');
    if l.deliveries != [] {
      assert l'.deliveries[|l.deliveries| - 1] == LastOf(l);
    }
  }

  lemma TurnKeepsAnswered(env: Env, l: Loop)
    requires l.result.Yielded? && !l.stopped && AllAnswered(env, l)
    ensures AllAnswered(env, Turn(env, l))
  {
    TurnMeaning(env, l);
    hide Turn, AbortTurn, ServingTurn, AnswersItsCall;
    var l' := Turn(env, l);
    if l.result.commands == [] {
      StuckAnswers(env, l, l');
    } else if env.aborted(l.polls) {
      AbortTurnAnswers(env, l, l');
    } else {
      ServingTurnAnswers(env, l, l');
    }
  }

  lemma StuckAnswers(env: Env, l: Loop, l': Loop)
    requires !l.stopped && AllAnswered(env, l)
    requires l' == l.(result := l'.result, stopped := true)
    ensures AllAnswered(env, l')
  {
    OldAnswersStay(env, l, l');
  }

  lemma {:induction false} TurnsKeepAnswered(env: Env, l: Loop, n: nat)
    requires AllAnswered(env, l)
    ensures AllAnswered(env, Turns(env, l, n))
    decreases n
  {
    hide Turn, AllAnswered;
    if n > 0 && l.result.Yielded? && !l.stopped {
      TurnKeepsAnswered(env, l);
      TurnsKeepAnswered(env, Turn(env, l), n - 1);
    }
  }

  /** In every run, every resume answers its own call in this way. */
  lemma EveryAnswer(env: Env, s: State, code: string, stdin: string, n: nat, j: nat)
    ensures var l := Turns(env, Start(env, s, code, stdin), n);
            j < |l.deliveries| ==> AnswersItsCall(env, l, j)
  {
    hide RunCell;
    TurnsKeepAnswered(env, Start(env, s, code, stdin), n);
  }
}

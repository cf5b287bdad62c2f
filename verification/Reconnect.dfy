// The reconnect protocol of daemon/protocol/client.go: event handlers, D-Bus calls and loop
// goroutines interleave; each region under reconnectMu, each select and each call into the
// WhatsApp client is one step. What Connect, IsConnected and HasSession answer is arbitrary.
module Reconnect {
  import opened Sequences

  datatype Stage =
    | Entering    // about to evaluate the select with a fresh timer
    | Blocked     // in the select, neither case ready yet
    | Checking    // the timer fired, about to ask IsConnected
    | Connecting  // inside Connect
    | Exiting     // returning: the deferred StopReconnect is still to run
    | Done

  // delay and waited are in seconds; late counts the Connect calls begun after cancellation.
  datatype Loop = Loop(stage: Stage, delay: int, fails: nat, waits: nat, waited: int, late: nat)

  // Contexts are numbered in order of creation, and loop c runs on context c.
  datatype State = State(
    made: nat,
    cancelled: set<nat>,
    cancelRetry: Option<nat>,
    reconnectCtx: Option<nat>,
    loops: map<nat, Loop>)

  datatype Step =
    | Disconnected(hasSession: bool)  // startReconnectLoop
    | Stop                            // StopReconnect by anything but a loop's own exit
    | EnterSelect(c: nat)
    | WakeDone(c: nat)
    | WakeTimer(c: nat)
    | Check(c: nat, connected: bool)
    | ConnectReturns(c: nat, ok: bool)
    | Finish(c: nat)                  // the deferred StopReconnect

  const INITIAL := State(0, {}, None, None, map[])

  predicate At(s: State, c: nat, stage: Stage) {
    c in s.loops && s.loops[c].stage == stage
  }

  predicate Enabled(s: State, step: Step) {
    match step
    case Disconnected(_) => true
    case Stop => true
    case EnterSelect(c) => At(s, c, Entering)
    case WakeDone(c) => At(s, c, Blocked) && c in s.cancelled
    case WakeTimer(c) => At(s, c, Blocked)
    case Check(c, _) => At(s, c, Checking)
    case ConnectReturns(c, _) => At(s, c, Connecting)
    case Finish(c) => At(s, c, Exiting)
  }

  function StopReconnect(s: State): State {
    if s.cancelRetry.Some?
    then s.(cancelled := s.cancelled + {s.cancelRetry.value}, cancelRetry := None, reconnectCtx := None)
    else s
  }

  function StartReconnectLoop(s: State, hasSession: bool): State {
    if !hasSession || s.cancelRetry.Some? then s
    else State(s.made + 1, s.cancelled, Some(s.made), Some(s.made),
               s.loops[s.made := Loop(Entering, 2, 0, 0, 0, 0)])
  }

  function Move(s: State, c: nat, stage: Stage): State
    requires c in s.loops
  {
    s.(loops := s.loops[c := s.loops[c].(stage := stage)])
  }

  function Doubled(delay: int): int {
    if delay * 2 > 60 then 60 else delay * 2
  }

  function Next(s: State, step: Step): State
    requires Enabled(s, step)
  {
    match step
    case Disconnected(hasSession) => StartReconnectLoop(s, hasSession)
    case Stop => StopReconnect(s)
    case EnterSelect(c) =>
      var l := s.loops[c];
      if c in s.cancelled then Move(s, c, Exiting)
      else s.(loops := s.loops[c := l.(stage := Blocked, waits := l.waits + 1, waited := l.waited + l.delay)])
    case WakeDone(c) => Move(s, c, Exiting)
    case WakeTimer(c) => Move(s, c, Checking)
    case Check(c, connected) =>
      var l := s.loops[c];
      if connected then Move(s, c, Exiting)
      else s.(loops := s.loops[c := l.(stage := Connecting, late := if c in s.cancelled then l.late + 1 else l.late)])
    case ConnectReturns(c, ok) =>
      var l := s.loops[c];
      if ok then Move(s, c, Exiting)
      else s.(loops := s.loops[c := l.(stage := Entering, delay := Doubled(l.delay), fails := l.fails + 1)])
    case Finish(c) => StopReconnect(Move(s, c, Done))
  }

  ghost predicate IsRun(run: seq<State>, steps: seq<Step>) {
    && |run| == |steps| + 1 && run[0] == INITIAL
    && forall i :: 0 <= i < |steps| ==> Enabled(run[i], steps[i]) && run[i + 1] == Next(run[i], steps[i])
  }

  // ---- Contexts ----

  // At most one context is uncancelled, and cancelRetry (like reconnectCtx) is that one.
  ghost predicate OneLiveContext(s: State) {
    && (forall c: nat :: c in s.loops <==> c < s.made)
    && (forall c: nat :: c in s.cancelled ==> c < s.made)
    && (forall c: nat :: c < s.made && c !in s.cancelled <==> s.cancelRetry == Some(c))
    && s.reconnectCtx == s.cancelRetry
  }

  // A loop that is done left a cancelled context behind.
  ghost predicate DoneIsCancelled(s: State) {
    forall c :: At(s, c, Done) ==> c in s.cancelled
  }

  // A cancelled loop makes at most one further Connect, and none once it is back in the select.
  ghost predicate AtMostOneLate(s: State) {
    forall c :: c in s.loops ==>
      && s.loops[c].late <= 1
      && (c !in s.cancelled || s.loops[c].stage in {Blocked, Checking} ==> s.loops[c].late == 0)
  }

  lemma StepKeepsOneLiveContext(s: State, step: Step)
    requires OneLiveContext(s) && Enabled(s, step)
    ensures OneLiveContext(Next(s, step))
  {
  }

  lemma StepKeepsDoneCancelled(s: State, step: Step)
    requires OneLiveContext(s) && DoneIsCancelled(s) && Enabled(s, step)
    ensures DoneIsCancelled(Next(s, step))
  {
  }

  lemma StepKeepsAtMostOneLate(s: State, step: Step)
    requires OneLiveContext(s) && AtMostOneLate(s) && Enabled(s, step)
    ensures AtMostOneLate(Next(s, step))
  {
  }

  lemma {:induction false} ContextsInEveryRun(run: seq<State>, steps: seq<Step>, i: nat)
    requires IsRun(run, steps) && i < |run|
    ensures OneLiveContext(run[i]) && DoneIsCancelled(run[i]) && AtMostOneLate(run[i])
  {
    if i > 0 {
      ContextsInEveryRun(run, steps, i - 1);
      StepKeepsOneLiveContext(run[i - 1], steps[i - 1]);
      StepKeepsDoneCancelled(run[i - 1], steps[i - 1]);
      StepKeepsAtMostOneLate(run[i - 1], steps[i - 1]);
    }
  }

  // A non-nil cancelRetry always belongs to a goroutine that has not finished. It may have
  // returned already, with nothing but its deferred StopReconnect left to run.
  lemma PendingRetryHasAnUnfinishedLoop(run: seq<State>, steps: seq<Step>, i: nat, c: nat)
    requires IsRun(run, steps) && i < |run| && run[i].cancelRetry == Some(c)
    ensures c in run[i].loops && run[i].loops[c].stage != Done
    ensures forall d :: d in run[i].loops && d !in run[i].cancelled ==> d == c
  {
    ContextsInEveryRun(run, steps, i);
    assert c < run[i].made && c !in run[i].cancelled;
    if At(run[i], c, Done) {
      assert false;
    }
  }

  // ---- When a loop starts and stops ----

  // Disconnected events up to step i that found a session and no pending retry.
  ghost function Starts(run: seq<State>, steps: seq<Step>, i: nat): nat
    requires IsRun(run, steps) && i < |run|
  {
    if i == 0 then 0
    else
      Starts(run, steps, i - 1)
      + (if steps[i - 1] == Disconnected(true) && run[i - 1].cancelRetry.None? then 1 else 0)
  }

  // Loops start for those events and for nothing else, one each.
  lemma {:induction false} OneLoopPerStart(run: seq<State>, steps: seq<Step>, i: nat)
    requires IsRun(run, steps) && i < |run|
    ensures run[i].made == Starts(run, steps, i)
    ensures forall c: nat :: c in run[i].loops <==> c < Starts(run, steps, i)
  {
    if i > 0 {
      OneLoopPerStart(run, steps, i - 1);
      assert Enabled(run[i - 1], steps[i - 1]) && run[i] == Next(run[i - 1], steps[i - 1]);
    }
    ContextsInEveryRun(run, steps, i);
  }

  // The step is one of the returns of loop c.
  predicate Returns(s: State, step: Step, c: nat) {
    || step == Check(c, true)
    || step == ConnectReturns(c, true)
    || step == WakeDone(c)
    || (step == EnterSelect(c) && c in s.cancelled)
  }

  predicate HasReturned(s: State, c: nat) {
    At(s, c, Exiting) || At(s, c, Done)
  }

  lemma ReturnStep(s: State, step: Step, c: nat)
    requires OneLiveContext(s) && Enabled(s, step)
    ensures HasReturned(Next(s, step), c) <==> HasReturned(s, c) || Returns(s, step, c)
  {
  }

  ghost predicate ReturnedBy(run: seq<State>, steps: seq<Step>, i: nat, c: nat)
    requires IsRun(run, steps) && i < |run|
  {
    exists k :: 0 <= k < i && Returns(run[k], steps[k], c)
  }

  // A loop is over exactly when it found the client connected, connected it, or saw its own
  // context cancelled at a select; until then it keeps retrying.
  lemma {:induction false} LoopsStopExactlyWhen(run: seq<State>, steps: seq<Step>, i: nat, c: nat)
    requires IsRun(run, steps) && i < |run|
    ensures HasReturned(run[i], c) <==> ReturnedBy(run, steps, i, c)
  {
    if i > 0 {
      LoopsStopExactlyWhen(run, steps, i - 1, c);
      ContextsInEveryRun(run, steps, i - 1);
      ReturnStep(run[i - 1], steps[i - 1], c);
      assert ReturnedBy(run, steps, i, c) <==> ReturnedBy(run, steps, i - 1, c) || Returns(run[i - 1], steps[i - 1], c);
    }
  }

  // ---- What a loop has done ----

  ghost function Taken(steps: seq<Step>, i: nat, x: Step): nat
    requires i <= |steps|
  {
    if i == 0 then 0 else Taken(steps, i - 1, x) + (if steps[i - 1] == x then 1 else 0)
  }

  // Those of them that were taken when context c was cancelled.
  ghost function TakenLate(run: seq<State>, steps: seq<Step>, i: nat, x: Step, c: nat): nat
    requires i <= |steps| < |run|
  {
    if i == 0 then 0
    else TakenLate(run, steps, i - 1, x, c) + (if steps[i - 1] == x && c in run[i - 1].cancelled then 1 else 0)
  }

  function Bit(b: bool): int {
    if b then 1 else 0
  }

  // The steps of loop c so far: it enters the select once more than Connect failed, wakes from
  // each select it blocked in, asks IsConnected after each timer, connects after each check
  // that found no connection, and finishes after its one return.
  ghost predicate Balanced(run: seq<State>, steps: seq<Step>, i: nat, c: nat)
    requires i <= |steps| < |run| && c in run[i].loops
  {
    var l := run[i].loops[c];
    var enters, cut := Taken(steps, i, EnterSelect(c)), TakenLate(run, steps, i, EnterSelect(c), c);
    var timers, woken := Taken(steps, i, WakeTimer(c)), Taken(steps, i, WakeDone(c));
    var found, missed := Taken(steps, i, Check(c, true)), Taken(steps, i, Check(c, false));
    var connected, failed := Taken(steps, i, ConnectReturns(c, true)), Taken(steps, i, ConnectReturns(c, false));
    && enters + Bit(l.stage == Entering) == 1 + failed
    && enters == cut + timers + woken + Bit(l.stage == Blocked)
    && timers == found + missed + Bit(l.stage == Checking)
    && missed == connected + failed + Bit(l.stage == Connecting)
    && cut + woken + found + connected == Taken(steps, i, Finish(c)) + Bit(l.stage == Exiting)
    && Taken(steps, i, Finish(c)) == Bit(l.stage == Done)
    && l.fails == failed && l.waits == enters - cut && l.late == TakenLate(run, steps, i, Check(c, false), c)
  }

  predicate StepsOf(step: Step, c: nat) {
    match step
    case EnterSelect(d) => d == c
    case WakeDone(d) => d == c
    case WakeTimer(d) => d == c
    case Check(d, _) => d == c
    case ConnectReturns(d, _) => d == c
    case Finish(d) => d == c
    case _ => false
  }

  ghost predicate NothingTaken(run: seq<State>, steps: seq<Step>, i: nat, c: nat)
    requires i <= |steps| < |run|
  {
    (forall x :: StepsOf(x, c) ==> Taken(steps, i, x) == 0)
    && forall x :: StepsOf(x, c) ==> TakenLate(run, steps, i, x, c) == 0
  }

  lemma OtherStepsKeepTheLoop(s: State, step: Step, c: nat)
    requires Enabled(s, step) && c in s.loops && !StepsOf(step, c) && OneLiveContext(s)
    ensures c in Next(s, step).loops && Next(s, step).loops[c] == s.loops[c]
  {
    assert c < s.made;
  }

  lemma BalanceStep(run: seq<State>, steps: seq<Step>, i: nat, c: nat)
    requires IsRun(run, steps) && i < |steps| && c in run[i].loops && Balanced(run, steps, i, c)
    requires OneLiveContext(run[i])
    ensures c in run[i + 1].loops && Balanced(run, steps, i + 1, c)
  {
    assert Enabled(run[i], steps[i]) && run[i + 1] == Next(run[i], steps[i]);
    if !StepsOf(steps[i], c) {
      OtherStepsKeepTheLoop(run[i], steps[i], c);
    }
  }

  lemma BalanceStarts(run: seq<State>, steps: seq<Step>, i: nat, c: nat)
    requires IsRun(run, steps) && i < |steps| && c !in run[i].loops && NothingTaken(run, steps, i, c)
    ensures if c in run[i + 1].loops then Balanced(run, steps, i + 1, c) else NothingTaken(run, steps, i + 1, c)
  {
    assert Enabled(run[i], steps[i]) && run[i + 1] == Next(run[i], steps[i]);
  }

  // In every run, for every loop.
  lemma {:induction false} LoopStepsBalance(run: seq<State>, steps: seq<Step>, i: nat, c: nat)
    requires IsRun(run, steps) && i < |run|
    ensures if c in run[i].loops then Balanced(run, steps, i, c) else NothingTaken(run, steps, i, c)
  {
    if i > 0 {
      LoopStepsBalance(run, steps, i - 1, c);
      ContextsInEveryRun(run, steps, i - 1);
      if c in run[i - 1].loops {
        BalanceStep(run, steps, i - 1, c);
      } else {
        BalanceStarts(run, steps, i - 1, c);
      }
    }
  }

  lemma OneMoreStep(run: seq<State>, steps: seq<Step>, step: Step, s: State, t: State)
    requires IsRun(run, steps) && s == run[|run| - 1] && Enabled(s, step) && t == Next(s, step)
    ensures IsRun(run + [t], steps + [step])
  {
  }

  // ---- Who cancels whom ----

  // The exit of loop c cancels a context that is not its own.
  predicate CancelsSuccessor(s: State, step: Step) {
    step.Finish? && s.cancelRetry.Some? && s.cancelRetry.value != step.c
  }

  // It happens exactly when the loop was already cancelled and another one is current: the
  // deferred stop does not look which loop it stops.
  lemma SuccessorIsCancelledExactlyWhen(run: seq<State>, steps: seq<Step>, i: nat)
    requires IsRun(run, steps) && i < |steps| && steps[i].Finish?
    ensures CancelsSuccessor(run[i], steps[i]) <==>
      steps[i].c in run[i].cancelled && run[i].cancelRetry.Some?
    ensures CancelsSuccessor(run[i], steps[i]) <==>
      exists d :: d in run[i].loops && d != steps[i].c && d !in run[i].cancelled && d in run[i + 1].cancelled
  {
    ContextsInEveryRun(run, steps, i);
    ContextsInEveryRun(run, steps, i + 1);
    var s, c := run[i], steps[i].c;
    assert c < s.made;
    if CancelsSuccessor(s, steps[i]) {
      var d := s.cancelRetry.value;
      assert d < s.made && d !in s.cancelled;
      assert d in run[i + 1].cancelled;
    }
  }

  // ---- When a Disconnected event is retried ----

  // Loop c will go on trying to connect.
  predicate Retrying(s: State, c: nat) {
    c in s.loops && c !in s.cancelled && !HasReturned(s, c)
  }

  ghost predicate AnyRetrying(s: State) {
    exists c :: c in s.loops && Retrying(s, c)
  }

  // cancelRetry belongs to a loop that has returned and is about to stop itself.
  predicate RetryIsOver(s: State) {
    s.cancelRetry.Some? && At(s, s.cancelRetry.value, Exiting)
  }

  // In every run a loop goes on trying exactly when cancelRetry is set and not over.
  lemma SomeLoopRetriesExactlyWhen(run: seq<State>, steps: seq<Step>, i: nat)
    requires IsRun(run, steps) && i < |run|
    ensures AnyRetrying(run[i]) <==> run[i].cancelRetry.Some? && !RetryIsOver(run[i])
    ensures run[i].cancelRetry.Some? && !RetryIsOver(run[i]) ==> Retrying(run[i], run[i].cancelRetry.value)
  {
    ContextsInEveryRun(run, steps, i);
    if c :| c in run[i].loops && Retrying(run[i], c) {
      assert c < run[i].made;
    }
    if run[i].cancelRetry.Some? && !RetryIsOver(run[i]) {
      var d := run[i].cancelRetry.value;
      assert d < run[i].made && d !in run[i].cancelled;
      assert d in run[i].loops && Retrying(run[i], d);
    }
  }

  // The step ends loop c: it returns, or another one stops it.
  predicate Ends(s: State, step: Step, c: nat) {
    Returns(s, step, c) || step == Stop || (step.Finish? && step.c != c)
  }

  lemma RetryingStep(s: State, step: Step, c: nat)
    requires OneLiveContext(s) && DoneIsCancelled(s) && Enabled(s, step) && c in s.loops
    ensures c in Next(s, step).loops
    ensures Retrying(Next(s, step), c) <==> Retrying(s, c) && !Ends(s, step, c)
  {
    ReturnStep(s, step, c);
    assert c < s.made;
  }

  ghost predicate EndedBetween(run: seq<State>, steps: seq<Step>, i: nat, j: nat, c: nat)
    requires IsRun(run, steps) && j < |run|
  {
    exists k :: i <= k < j && Ends(run[k], steps[k], c)
  }

  // A loop goes on trying until it returns by itself, StopReconnect is called or another
  // loop's exit stops it, and no longer.
  lemma {:induction false} RetriesUntilEnded(run: seq<State>, steps: seq<Step>, i: nat, j: nat, c: nat)
    requires IsRun(run, steps) && i <= j < |run| && Retrying(run[i], c)
    ensures c in run[j].loops
    ensures Retrying(run[j], c) <==> !EndedBetween(run, steps, i, j, c)
  {
    if i < j {
      RetriesUntilEnded(run, steps, i, j - 1, c);
      ContextsInEveryRun(run, steps, j - 1);
      RetryingStep(run[j - 1], steps[j - 1], c);
      assert EndedBetween(run, steps, i, j, c) <==>
        EndedBetween(run, steps, i, j - 1, c) || Ends(run[j - 1], steps[j - 1], c);
    }
  }

  // startReconnectLoop leaves a loop that goes on trying exactly when it did not find the
  // cancelRetry of a loop that has returned. That loop tries until it ends and no longer.
  lemma DisconnectedIsRetriedExactlyWhen(run: seq<State>, steps: seq<Step>, i: nat, j: nat)
    requires IsRun(run, steps) && i < j < |run| && steps[i] == Disconnected(true)
    ensures AnyRetrying(run[i + 1]) <==> !RetryIsOver(run[i])
    ensures !RetryIsOver(run[i]) ==>
      && run[i + 1].cancelRetry.Some?
      && var c := run[i + 1].cancelRetry.value;
        Retrying(run[j], c) <==> !EndedBetween(run, steps, i + 1, j, c)
  {
    SomeLoopRetriesExactlyWhen(run, steps, i + 1);
    assert run[i + 1] == StartReconnectLoop(run[i], true);
    if !RetryIsOver(run[i]) {
      RetriesUntilEnded(run, steps, i + 1, j, run[i + 1].cancelRetry.value);
    }
  }

  // Wherever a loop that goes on trying stands, its own next steps lead into Connect.
  lemma RetryingLoopReachesConnect(run: seq<State>, steps: seq<Step>, c: nat)
      returns (run': seq<State>, steps': seq<Step>)
    requires IsRun(run, steps) && Retrying(run[|run| - 1], c)
    ensures IsRun(run', steps') && |steps| <= |steps'| <= |steps| + 3 && steps'[..|steps|] == steps
    ensures forall k :: |steps| <= k < |steps'| ==> steps'[k] in {EnterSelect(c), WakeTimer(c), Check(c, false)}
    ensures At(run'[|run'| - 1], c, Connecting)
  {
    run', steps' := run, steps;
    var s := run[|run| - 1];
    if At(s, c, Entering) {
      OneMoreStep(run', steps', EnterSelect(c), s, Next(s, EnterSelect(c)));
      run', steps', s := run' + [Next(s, EnterSelect(c))], steps' + [EnterSelect(c)], Next(s, EnterSelect(c));
    }
    if At(s, c, Blocked) {
      OneMoreStep(run', steps', WakeTimer(c), s, Next(s, WakeTimer(c)));
      run', steps', s := run' + [Next(s, WakeTimer(c))], steps' + [WakeTimer(c)], Next(s, WakeTimer(c));
    }
    if At(s, c, Checking) {
      OneMoreStep(run', steps', Check(c, false), s, Next(s, Check(c, false)));
      run', steps', s := run' + [Next(s, Check(c, false))], steps' + [Check(c, false)], Next(s, Check(c, false));
    }
  }

  // Every loop starts only after all earlier loops are done.
  ghost predicate StartsInTurn(run: seq<State>, steps: seq<Step>)
    requires IsRun(run, steps)
  {
    forall i, c :: 0 <= i < |steps| && steps[i].Disconnected? && run[i + 1].made > run[i].made && c in run[i].loops
      ==> run[i].loops[c].stage == Done
  }

  // Only the newest loop may be unfinished.
  ghost predicate OnlyNewestUnfinished(s: State) {
    forall c :: c in s.loops && s.loops[c].stage != Done ==> c + 1 == s.made
  }

  lemma {:induction false} NewestInEveryOrderlyRun(run: seq<State>, steps: seq<Step>, i: nat)
    requires IsRun(run, steps) && StartsInTurn(run, steps) && i < |run|
    ensures OnlyNewestUnfinished(run[i])
  {
    if i > 0 {
      NewestInEveryOrderlyRun(run, steps, i - 1);
      ContextsInEveryRun(run, steps, i - 1);
      assert Enabled(run[i - 1], steps[i - 1]);
    }
  }

  // Under that discipline no exit ever cancels another loop.
  lemma OrderlyStartsKeepSuccessors(run: seq<State>, steps: seq<Step>, i: nat)
    requires IsRun(run, steps) && StartsInTurn(run, steps) && i < |steps|
    ensures !CancelsSuccessor(run[i], steps[i])
  {
    NewestInEveryOrderlyRun(run, steps, i);
    ContextsInEveryRun(run, steps, i);
    if steps[i].Finish? && run[i].cancelRetry.Some? {
      var d := run[i].cancelRetry.value;
      PendingRetryHasAnUnfinishedLoop(run, steps, i, d);
      assert Enabled(run[i], steps[i]);
    }
  }

  // The first loop is the only one and nothing has stopped it.
  function Solo(l: Loop): State {
    State(1, {}, Some(0), Some(0), map[0 := l])
  }

  function AfterOneWait(stage: Stage): Loop {
    Loop(stage, 2, 0, 1, 2, 0)
  }

  lemma FirstLoopWakes() returns (run: seq<State>, steps: seq<Step>)
    ensures IsRun(run, steps) && steps == [Disconnected(true), EnterSelect(0), WakeTimer(0)]
    ensures run == [INITIAL, Solo(Loop(Entering, 2, 0, 0, 0, 0)), Solo(AfterOneWait(Blocked)),
                    Solo(AfterOneWait(Checking))]
  {
    var l := Loop(Entering, 2, 0, 0, 0, 0);
    run, steps := [INITIAL], [];
    OneMoreStep(run, steps, Disconnected(true), INITIAL, Solo(l));
    run, steps := run + [Solo(l)], steps + [Disconnected(true)];
    OneMoreStep(run, steps, EnterSelect(0), Solo(l), Solo(AfterOneWait(Blocked)));
    run, steps := run + [Solo(AfterOneWait(Blocked))], steps + [EnterSelect(0)];
    OneMoreStep(run, steps, WakeTimer(0), Solo(AfterOneWait(Blocked)), Solo(AfterOneWait(Checking)));
    run, steps := run + [Solo(AfterOneWait(Checking))], steps + [WakeTimer(0)];
  }

  // Without it one can: after the last Disconnected event nothing but the exit of the old
  // loop ran, and no loop is left to reconnect.
  lemma ExitingLoopCanCancelItsSuccessor() returns (run: seq<State>, steps: seq<Step>)
    ensures IsRun(run, steps)
    ensures steps ==
      [Disconnected(true), EnterSelect(0), WakeTimer(0), Check(0, true), Stop, Disconnected(true), Finish(0)]
    ensures run[6].cancelRetry == Some(1) && CancelsSuccessor(run[6], steps[6])
    ensures run[7].cancelRetry == None && forall c :: c in run[7].loops ==> c in run[7].cancelled
  {
    run, steps := FirstLoopWakes();
    var first, second := AfterOneWait(Exiting), Loop(Entering, 2, 0, 0, 0, 0);
    var stopped := State(1, {0}, None, None, map[0 := first]);
    var both := State(2, {0}, Some(1), Some(1), map[0 := first, 1 := second]);
    var none := State(2, {0, 1}, None, None, map[0 := first.(stage := Done), 1 := second]);
    OneMoreStep(run, steps, Check(0, true), Solo(AfterOneWait(Checking)), Solo(first));
    run, steps := run + [Solo(first)], steps + [Check(0, true)];
    OneMoreStep(run, steps, Stop, Solo(first), stopped);
    run, steps := run + [stopped], steps + [Stop];
    OneMoreStep(run, steps, Disconnected(true), stopped, both);
    run, steps := run + [both], steps + [Disconnected(true)];
    OneMoreStep(run, steps, Finish(0), both, none);
    run, steps := run + [none], steps + [Finish(0)];
  }

  // A Disconnected event can be lost even so: the second one finds the cancelRetry of a loop
  // that has just connected and changes nothing, then that loop finishes and none is left.
  // Nobody calls StopReconnect and no exit stops another loop.
  lemma DisconnectedCanBeLost() returns (run: seq<State>, steps: seq<Step>)
    ensures IsRun(run, steps) && StartsInTurn(run, steps)
    ensures steps == [Disconnected(true), EnterSelect(0), WakeTimer(0), Check(0, false), ConnectReturns(0, true),
                      Disconnected(true), Finish(0)]
    ensures forall i :: 0 <= i < |steps| ==> !CancelsSuccessor(run[i], steps[i])
    ensures RetryIsOver(run[5]) && run[6] == run[5] && run[7].cancelRetry.None? && !AnyRetrying(run[7])
  {
    run, steps := FirstLoopConnects();
    var s := Solo(AfterOneWait(Exiting));
    var t := State(1, {0}, None, None, map[0 := AfterOneWait(Done)]);
    OneMoreStep(run, steps, Disconnected(true), s, s);
    run, steps := run + [s], steps + [Disconnected(true)];
    OneMoreStep(run, steps, Finish(0), s, t);
    run, steps := run + [t], steps + [Finish(0)];
    SomeLoopRetriesExactlyWhen(run, steps, 7);
  }

  lemma FirstLoopConnects() returns (run: seq<State>, steps: seq<Step>)
    ensures IsRun(run, steps)
    ensures steps == [Disconnected(true), EnterSelect(0), WakeTimer(0), Check(0, false), ConnectReturns(0, true)]
    ensures run == [INITIAL, Solo(Loop(Entering, 2, 0, 0, 0, 0)), Solo(AfterOneWait(Blocked)),
                    Solo(AfterOneWait(Checking)), Solo(AfterOneWait(Connecting)), Solo(AfterOneWait(Exiting))]
  {
    run, steps := FirstLoopWakes();
    OneMoreStep(run, steps, Check(0, false), Solo(AfterOneWait(Checking)), Solo(AfterOneWait(Connecting)));
    run, steps := run + [Solo(AfterOneWait(Connecting))], steps + [Check(0, false)];
    OneMoreStep(run, steps, ConnectReturns(0, true), Solo(AfterOneWait(Connecting)), Solo(AfterOneWait(Exiting)));
    run, steps := run + [Solo(AfterOneWait(Exiting))], steps + [ConnectReturns(0, true)];
  }

  // ---- Backoff ----

  function Pow2(k: nat): int {
    if k == 0 then 1 else 2 * Pow2(k - 1)
  }

  // The k-th wait of a loop, counted from 1.
  function Wait(k: nat): int {
    Min(Pow2(k), 60)
  }

  function TotalWait(n: nat): int {
    if n == 0 then 0 else TotalWait(n - 1) + Wait(n)
  }

  lemma {:induction false} Pow2Grows(k: nat)
    ensures k <= 5 ==> Pow2(k) <= 32
    ensures k >= 6 ==> Pow2(k) >= 64
  {
    if k > 6 {
      Pow2Grows(k - 1);
    } else {
      assert Pow2(0) == 1 && Pow2(1) == 2 && Pow2(2) == 4 && Pow2(3) == 8;
      assert Pow2(4) == 16 && Pow2(5) == 32 && Pow2(6) == 64;
    }
  }

  lemma {:induction false} TotalWaitClosedForm(n: nat)
    ensures TotalWait(n) == if n <= 5 then Pow2(n + 1) - 2 else 62 + 60 * (n - 5)
  {
    if n > 0 {
      TotalWaitClosedForm(n - 1);
      Pow2Grows(n);
      if n == 6 {
        assert Pow2(6) == 64;
      }
    }
  }

  ghost predicate BacksOff(l: Loop) {
    && l.delay == Wait(l.fails + 1)
    && l.waited == TotalWait(l.waits)
    && (l.stage == Entering ==> l.waits == l.fails)
    && (l.stage in {Blocked, Checking, Connecting} ==> l.waits == l.fails + 1)
  }

  lemma StepKeepsBackoff(s: State, step: Step)
    requires Enabled(s, step) && forall c :: c in s.loops ==> BacksOff(s.loops[c])
    ensures forall c :: c in Next(s, step).loops ==> BacksOff(Next(s, step).loops[c])
  {
  }

  // In every run the k-th wait of a loop lasts min(2^k, 60) seconds, one more than its failed
  // connects so far, and its waits add up accordingly.
  lemma {:induction false} EveryLoopBacksOff(run: seq<State>, steps: seq<Step>, i: nat, c: nat)
    requires IsRun(run, steps) && i < |run| && c in run[i].loops
    ensures BacksOff(run[i].loops[c])
    ensures var n := run[i].loops[c].waits;
      run[i].loops[c].waited == if n <= 5 then Pow2(n + 1) - 2 else 62 + 60 * (n - 5)
  {
    LoopsBackOff(run, steps, i);
    TotalWaitClosedForm(run[i].loops[c].waits);
  }

  lemma {:induction false} LoopsBackOff(run: seq<State>, steps: seq<Step>, i: nat)
    requires IsRun(run, steps) && i < |run|
    ensures forall c :: c in run[i].loops ==> BacksOff(run[i].loops[c])
  {
    if i > 0 {
      LoopsBackOff(run, steps, i - 1);
      StepKeepsBackoff(run[i - 1], steps[i - 1]);
    }
  }
}

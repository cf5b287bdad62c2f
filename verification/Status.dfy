// Connection status: setStatus of daemon/dbus/service.go writes under its lock and emits after
// unlocking, so the writes of several goroutines and their signals interleave; the frontend of
// app/src/dbusbridge.cpp mirrors what it is sent.
module Status {
  import opened Sequences

  // The four status strings of the daemon.
  datatype Connection = Disconnected | Connecting | QrPending | Connected

  datatype Signal = Changed(status: Connection) | LoginSuccessful

  datatype Ticket = Ticket(writer: nat, signal: Signal)

  // pending holds the signals that writers still owe, in the order of their writes.
  datatype State = State(status: Connection, writes: seq<Connection>, pending: seq<Ticket>, emitted: seq<Signal>)

  datatype Step =
    | Write(writer: nat, status: Connection, login: bool)  // login: LoginSuccessful is emitted as well
    | Emit(k: nat)                                     // the owner of pending[k] emits it

  const INITIAL := State(Disconnected, [], [], [])

  predicate Enabled(s: State, step: Step) {
    match step
    case Write(w, v, login) =>
      (forall i :: 0 <= i < |s.pending| ==> s.pending[i].writer != w) && (login ==> v == Connected)
    case Emit(k) =>
      k < |s.pending| && forall i :: 0 <= i < k ==> s.pending[i].writer != s.pending[k].writer
  }

  function Owed(s: State, step: Step): seq<Ticket>
    requires step.Write?
  {
    (if s.status != step.status then [Ticket(step.writer, Changed(step.status))] else [])
    + (if step.login then [Ticket(step.writer, LoginSuccessful)] else [])
  }

  function Next(s: State, step: Step): State
    requires Enabled(s, step)
  {
    match step
    case Write(w, v, login) =>
      State(v,
            if s.status != v then s.writes + [v] else s.writes,
            s.pending + Owed(s, step),
            s.emitted)
    case Emit(k) =>
      s.(pending := s.pending[..k] + s.pending[k + 1..], emitted := s.emitted + [s.pending[k].signal])
  }

  ghost predicate IsRun(run: seq<State>, steps: seq<Step>) {
    && |run| == |steps| + 1 && run[0] == INITIAL
    && forall i :: 0 <= i < |steps| ==> Enabled(run[i], steps[i]) && run[i + 1] == Next(run[i], steps[i])
  }

  // ---- The frontend ----

  function Shown(signal: Signal): Connection {
    if signal.Changed? then signal.status else Connected
  }

  function Mirror(shown: Connection, signals: seq<Signal>): Connection {
    if signals == [] then shown else Shown(signals[|signals| - 1])
  }

  class DBusBridge {
    var connectionStatus: Connection
    var notified: nat  // connectionStatusChanged signals so far

    constructor ()
      ensures connectionStatus == Disconnected && notified == 0
    {
      connectionStatus := Disconnected;
      notified := 0;
    }

    method SetConnectionStatus(status: Connection)
      modifies this
      ensures connectionStatus == status
      ensures notified == old(notified) + if old(connectionStatus) != status then 1 else 0
    {
      if connectionStatus == status {
        return;
      }
      connectionStatus := status;
      notified := notified + 1;
    }

    // The bus delivers signals in the order they were emitted.
    method Deliver(signals: seq<Signal>)
      modifies this
      ensures connectionStatus == Mirror(old(connectionStatus), signals)
      ensures old(notified) <= notified <= old(notified) + |signals|
    {
      for i := 0 to |signals|
        invariant connectionStatus == Mirror(old(connectionStatus), signals[..i])
        invariant old(notified) <= notified <= old(notified) + i
      {
        match signals[i] {
          case Changed(status) => SetConnectionStatus(status);
          case LoginSuccessful => SetConnectionStatus(Connected);
        }
        assert signals[..i + 1][i] == signals[i];
      }
      assert signals[..|signals|] == signals;
    }
  }

  // ---- Every interleaving ----

  function Signals(tickets: seq<Ticket>): (r: seq<Signal>)
    ensures |r| == |tickets| && forall i :: 0 <= i < |r| ==> r[i] == tickets[i].signal
  {
    if tickets == [] then [] else [tickets[0].signal] + Signals(tickets[1..])
  }

  // The statuses that a sequence of signals announces.
  function Announced(signals: seq<Signal>): multiset<Connection> {
    if signals == [] then multiset{}
    else Announced(signals[..|signals| - 1])
         + (if signals[|signals| - 1].Changed? then multiset{signals[|signals| - 1].status} else multiset{})
  }

  lemma {:induction false} AnnouncedConcat(a: seq<Signal>, b: seq<Signal>)
    ensures Announced(a + b) == Announced(a) + Announced(b)
  {
    if b == [] {
      assert a + b == a;
    } else {
      AnnouncedConcat(a, b[..|b| - 1]);
      assert (a + b)[..|a + b| - 1] == a + b[..|b| - 1];
    }
  }

  lemma SignalsConcat(a: seq<Ticket>, b: seq<Ticket>)
    ensures Signals(a + b) == Signals(a) + Signals(b)
  {
  }

  ghost predicate NoRepeats(writes: seq<Connection>) {
    && (writes != [] ==> writes[0] != Disconnected)
    && forall i :: 0 <= i < |writes| - 1 ==> writes[i] != writes[i + 1]
  }

  ghost predicate WritesAccounted(s: State) {
    && s.status == (if s.writes == [] then Disconnected else s.writes[|s.writes| - 1])
    && NoRepeats(s.writes)
    && AllAnnounced(s)
  }

  ghost predicate AllAnnounced(s: State) {
    Announced(s.emitted) + Announced(Signals(s.pending)) == multiset(s.writes)
  }

  lemma OwedAnnouncement(s: State, step: Step)
    requires step.Write?
    ensures Announced(Signals(Owed(s, step))) == if s.status != step.status then multiset{step.status} else multiset{}
  {
    var a := if s.status != step.status then [Ticket(step.writer, Changed(step.status))] else [];
    var b := if step.login then [Ticket(step.writer, LoginSuccessful)] else [];
    SignalsConcat(a, b);
    AnnouncedConcat(Signals(a), Signals(b));
    assert forall x: Signal :: Announced([x]) == if x.Changed? then multiset{x.status} else multiset{} by {
      forall x: Signal ensures Announced([x]) == if x.Changed? then multiset{x.status} else multiset{} {
        assert [x][..0] == [];
      }
    }
    assert b != [] ==> Signals(b) == [LoginSuccessful];
    assert a != [] ==> Signals(a) == [Changed(step.status)];
  }

  lemma EmitMovesOne(s: State, k: nat)
    requires k < |s.pending|
    ensures Announced(s.emitted + [s.pending[k].signal]) + Announced(Signals(s.pending[..k] + s.pending[k + 1..])) ==
      Announced(s.emitted) + Announced(Signals(s.pending))
  {
    var a, x, b := s.pending[..k], [s.pending[k]], s.pending[k + 1..];
    assert s.pending == a + x + b;
    SignalsConcat(a + x, b);
    SignalsConcat(a, x);
    SignalsConcat(a, b);
    assert Signals(x) == [s.pending[k].signal];
    AnnouncedConcat(Signals(a) + Signals(x), Signals(b));
    AnnouncedConcat(Signals(a), Signals(x));
    AnnouncedConcat(Signals(a), Signals(b));
    AnnouncedConcat(s.emitted, [s.pending[k].signal]);
  }

  lemma OwedIsAdded(s: State, step: Step)
    requires step.Write?
    ensures Announced(Signals(s.pending + Owed(s, step))) ==
      Announced(Signals(s.pending)) + (if s.status != step.status then multiset{step.status} else multiset{})
  {
    OwedAnnouncement(s, step);
    SignalsConcat(s.pending, Owed(s, step));
    AnnouncedConcat(Signals(s.pending), Signals(Owed(s, step)));
  }

  lemma WriteIsAnnounced(s: State, step: Step)
    requires AllAnnounced(s) && step.Write? && Enabled(s, step)
    ensures AllAnnounced(Next(s, step))
  {
    OwedIsAdded(s, step);
    OneMoreElement(s.writes, step.status);
  }

  lemma OneMoreElement<T>(s: seq<T>, x: T)
    ensures multiset(s + [x]) == multiset(s) + multiset{x}
  {
  }

  lemma WriteIsAccounted(s: State, step: Step)
    requires WritesAccounted(s) && step.Write? && Enabled(s, step)
    ensures WritesAccounted(Next(s, step))
  {
    WriteIsAnnounced(s, step);
    if s.status != step.status {
    }
  }

  lemma EmitIsAccounted(s: State, step: Step)
    requires WritesAccounted(s) && step.Emit? && Enabled(s, step)
    ensures WritesAccounted(Next(s, step))
  {
    EmitMovesOne(s, step.k);
  }

  // Consecutive writes always differ, the status is the last write, and the signals emitted so
  // far together with those still owed announce each write exactly once.
  lemma {:induction false} WritesAreAnnouncedOnce(run: seq<State>, steps: seq<Step>, i: nat)
    requires IsRun(run, steps) && i < |run|
    ensures WritesAccounted(run[i])
  {
    if i > 0 {
      WritesAreAnnouncedOnce(run, steps, i - 1);
      if steps[i - 1].Write? {
        WriteIsAccounted(run[i - 1], steps[i - 1]);
      } else {
        EmitIsAccounted(run[i - 1], steps[i - 1]);
      }
    }
  }

  // ---- What was written ----

  function Written(steps: seq<Step>): seq<Connection> {
    if steps == [] then []
    else Written(steps[..|steps| - 1])
         + (if steps[|steps| - 1].Write? then [steps[|steps| - 1].status] else [])
  }

  function LastOr(first: Connection, values: seq<Connection>): Connection {
    if values == [] then first else values[|values| - 1]
  }

  // The values without those that repeat the one before.
  function Changes(values: seq<Connection>): seq<Connection> {
    if values == [] then []
    else
      var init, last := values[..|values| - 1], values[|values| - 1];
      Changes(init) + (if last != LastOr(Disconnected, init) then [last] else [])
  }

  // In every run the status is the last value handed to setStatus, and the writes that are
  // announced are exactly its changes, in order.
  lemma {:induction false} WritesAreTheChanges(run: seq<State>, steps: seq<Step>, i: nat)
    requires IsRun(run, steps) && i < |run|
    ensures run[i].status == LastOr(Disconnected, Written(steps[..i]))
    ensures run[i].writes == Changes(Written(steps[..i]))
  {
    if i > 0 {
      WritesAreTheChanges(run, steps, i - 1);
      var s, step := run[i - 1], steps[i - 1];
      assert Enabled(s, step) && run[i] == Next(s, step);
      assert steps[..i][..i - 1] == steps[..i - 1];
      var before := Written(steps[..i - 1]);
      if step.Write? {
        assert Written(steps[..i]) == before + [step.status];
        assert (before + [step.status])[..|before|] == before;
      } else {
        assert Written(steps[..i]) == before;
      }
    } else {
      assert steps[..0] == [];
    }
  }

  function IsLogin(): Signal -> bool { (x: Signal) => x.LoginSuccessful? }

  function IsLoginWrite(): Step -> bool { (x: Step) => x.Write? && x.login }

  lemma LoginStep(s: State, step: Step)
    requires Enabled(s, step)
    ensures Count(IsLogin(), Next(s, step).emitted) + Count(IsLogin(), Signals(Next(s, step).pending)) ==
      Count(IsLogin(), s.emitted) + Count(IsLogin(), Signals(s.pending)) + if IsLoginWrite()(step) then 1 else 0
  {
    if step.Write? {
      OwedLogins(s, step);
      SignalsConcat(s.pending, Owed(s, step));
      CountAppend(IsLogin(), Signals(s.pending), Signals(Owed(s, step)));
    } else {
      var a, x, b := s.pending[..step.k], s.pending[step.k], s.pending[step.k + 1..];
      SplitAt(s.pending, step.k);
      SignalsConcat(a, [x] + b);
      SignalsConcat([x], b);
      SignalsConcat(a, b);
      assert Signals([x]) == [x.signal];
      CountAppend(IsLogin(), Signals(a), [x.signal] + Signals(b));
      CountAppend(IsLogin(), [x.signal], Signals(b));
      CountAppend(IsLogin(), Signals(a), Signals(b));
      CountAppend(IsLogin(), s.emitted, [x.signal]);
    }
  }

  lemma OwedLogins(s: State, step: Step)
    requires step.Write?
    ensures Count(IsLogin(), Signals(Owed(s, step))) == if step.login then 1 else 0
  {
    var a := if s.status != step.status then [Ticket(step.writer, Changed(step.status))] else [];
    var b := if step.login then [Ticket(step.writer, LoginSuccessful)] else [];
    SignalsConcat(a, b);
    CountAppend(IsLogin(), Signals(a), Signals(b));
    assert a != [] ==> Signals(a) == [Changed(step.status)];
    assert b != [] ==> Signals(b) == [LoginSuccessful];
    assert Count(IsLogin(), [LoginSuccessful]) == 1 && Count(IsLogin(), [Changed(step.status)]) == 0;
  }

  // Each login is announced once as well.
  lemma {:induction false} LoginsAreAnnouncedOnce(run: seq<State>, steps: seq<Step>, i: nat)
    requires IsRun(run, steps) && i < |run|
    ensures Count(IsLogin(), run[i].emitted) + Count(IsLogin(), Signals(run[i].pending)) ==
      Count(IsLoginWrite(), steps[..i])
  {
    if i > 0 {
      LoginsAreAnnouncedOnce(run, steps, i - 1);
      LoginStep(run[i - 1], steps[i - 1]);
      assert steps[..i] == steps[..i - 1] + [steps[i - 1]];
      CountAppend(IsLoginWrite(), steps[..i - 1], [steps[i - 1]]);
    } else {
      assert steps[..0] == [];
    }
  }

  // ---- The frontend once nothing is owed ----

  predicate Matches(s: State) {
    Mirror(Disconnected, s.emitted) == s.status
  }

  // A step emits the only owed signal and that signal does not show the status.
  predicate Misleads(s: State, step: Step) {
    step.Emit? && |s.pending| == 1 && Shown(s.pending[0].signal) != s.status
  }

  ghost predicate QuietMatch(run: seq<State>, n: nat)
    requires n < |run|
  {
    forall i :: 0 <= i <= n && run[i].pending == [] ==> Matches(run[i])
  }

  ghost predicate NeverMisled(run: seq<State>, steps: seq<Step>, n: nat)
    requires n <= |steps| < |run|
  {
    forall i :: 0 <= i < n ==> !Misleads(run[i], steps[i])
  }

  // No signal was emitted in between.
  ghost predicate LastEmission(steps: seq<Step>, e: nat, i: nat)
    requires i <= |steps|
  {
    e < i && steps[e].Emit? && forall k :: e < k < i ==> !steps[k].Emit?
  }

  lemma QuietEmission(s: State, step: Step)
    requires Enabled(s, step) && step.Emit?
    ensures Next(s, step).pending == [] <==> |s.pending| == 1
    ensures Next(s, step).pending == [] ==> (Matches(Next(s, step)) <==> !Misleads(s, step))
  {
    assert |Next(s, step).pending| == |s.pending| - 1;
  }

  // The last signal before state i, if any, did not mislead the frontend.
  ghost predicate LastIsHonest(run: seq<State>, steps: seq<Step>, i: nat)
    requires i <= |steps| < |run|
  {
    forall e: nat :: LastEmission(steps, e, i) ==> !Misleads(run[e], steps[e])
  }

  // Whenever nothing is owed, the frontend shows the status if and only if the last signal
  // did not mislead it.
  lemma {:induction false} QuietFrontendMatchesExactlyWhen(run: seq<State>, steps: seq<Step>, i: nat)
    requires IsRun(run, steps) && i < |run| && run[i].pending == []
    ensures Matches(run[i]) <==> LastIsHonest(run, steps, i)
  {
    if i > 0 {
      assert Enabled(run[i - 1], steps[i - 1]) && run[i] == Next(run[i - 1], steps[i - 1]);
      if steps[i - 1].Write? {
        QuietFrontendMatchesExactlyWhen(run, steps, i - 1);
      } else {
        QuietEmission(run[i - 1], steps[i - 1]);
      }
    }
  }

  // Throughout a run the frontend shows the status whenever nothing is owed, if and only if
  // no emission misleads it.
  lemma {:induction false} QuietFrontendFollowsExactlyWhen(run: seq<State>, steps: seq<Step>, n: nat)
    requires IsRun(run, steps) && n < |run|
    ensures QuietMatch(run, n) <==> NeverMisled(run, steps, n)
  {
    if NeverMisled(run, steps, n) {
      forall i | 0 <= i <= n && run[i].pending == [] ensures Matches(run[i]) {
        QuietFrontendMatchesExactlyWhen(run, steps, i);
      }
    } else {
      var i :| 0 <= i < n && Misleads(run[i], steps[i]);
      QuietEmission(run[i], steps[i]);
      assert run[i + 1] == Next(run[i], steps[i]);
    }
  }

  // ---- Which signal misleads ----

  // All signals in the order of their writes, the numbers of those still owed, and the numbers
  // of the emitted ones in the order of their emission.
  datatype Ledger = Ledger(issued: seq<Signal>, owed: seq<nat>, order: seq<nat>)

  function From(start: nat, n: nat): (r: seq<nat>)
    ensures |r| == n && forall i :: 0 <= i < n ==> r[i] == start + i
  {
    if n == 0 then [] else From(start, n - 1) + [start + n - 1]
  }

  function Issue(l: Ledger, tickets: seq<Ticket>): Ledger {
    Ledger(l.issued + Signals(tickets), l.owed + From(|l.issued|, |tickets|), l.order)
  }

  function Book(l: Ledger, s: State, step: Step): (r: Ledger)
    requires Enabled(s, step) && |l.owed| == |s.pending|
    ensures |r.owed| == |Next(s, step).pending|
  {
    match step
    case Write(_, _, _) => Issue(l, Owed(s, step))
    case Emit(k) => Ledger(l.issued, l.owed[..k] + l.owed[k + 1..], l.order + [l.owed[k]])
  }

  ghost function LedgerOf(run: seq<State>, steps: seq<Step>, i: nat): (l: Ledger)
    requires IsRun(run, steps) && i < |run|
    ensures |l.owed| == |run[i].pending|
  {
    if i == 0 then Ledger([], [], []) else Book(LedgerOf(run, steps, i - 1), run[i - 1], steps[i - 1])
  }

  // The numbers stand for the owed and for the emitted signals.
  ghost predicate Numbered(l: Ledger, s: State) {
    && |l.owed| == |s.pending| && |l.order| == |s.emitted|
    && (forall k :: 0 <= k < |l.owed| ==> l.owed[k] < |l.issued| && l.issued[l.owed[k]] == s.pending[k].signal)
    && (forall k :: 0 <= k < |l.order| ==> l.order[k] < |l.issued| && l.issued[l.order[k]] == s.emitted[k])
  }

  // Each of n signals is owed or emitted, and by their number only once.
  ghost predicate EachOnce(owed: seq<nat>, order: seq<nat>, n: nat) {
    |owed| + |order| == n && forall k :: 0 <= k < n ==> k in owed || k in order
  }

  // The newest signal shows the status.
  ghost predicate NewestIsStatus(l: Ledger, s: State) {
    s.status == if l.issued == [] then Disconnected else Shown(l.issued[|l.issued| - 1])
  }

  lemma BookNumbers(l: Ledger, s: State, step: Step)
    requires Enabled(s, step) && Numbered(l, s)
    ensures Numbered(Book(l, s, step), Next(s, step))
  {
  }

  lemma EmitKeepsEachOnce(owed: seq<nat>, order: seq<nat>, n: nat, k: nat)
    requires EachOnce(owed, order, n) && k < |owed|
    ensures EachOnce(owed[..k] + owed[k + 1..], order + [owed[k]], n)
  {
    assert owed == owed[..k] + [owed[k]] + owed[k + 1..];
  }

  lemma IssueKeepsEachOnce(owed: seq<nat>, order: seq<nat>, n: nat, m: nat)
    requires EachOnce(owed, order, n)
    ensures EachOnce(owed + From(n, m), order, n + m)
  {
    forall k | n <= k < n + m ensures k in From(n, m) {
      assert From(n, m)[k - n] == k;
    }
  }

  lemma BookKeepsEachOnce(l: Ledger, s: State, step: Step)
    requires Enabled(s, step) && |l.owed| == |s.pending| && EachOnce(l.owed, l.order, |l.issued|)
    ensures var r := Book(l, s, step); EachOnce(r.owed, r.order, |r.issued|)
  {
    if step.Write? {
      IssueKeepsEachOnce(l.owed, l.order, |l.issued|, |Owed(s, step)|);
    } else {
      EmitKeepsEachOnce(l.owed, l.order, |l.issued|, step.k);
    }
  }

  lemma BookKeepsNewest(l: Ledger, s: State, step: Step)
    requires Enabled(s, step) && |l.owed| == |s.pending| && NewestIsStatus(l, s)
    ensures NewestIsStatus(Book(l, s, step), Next(s, step))
  {
    if step.Write? && Owed(s, step) != [] {
      var tickets := Owed(s, step);
      assert Shown(tickets[|tickets| - 1].signal) == step.status;
    }
  }

  lemma {:induction false} LedgerInEveryRun(run: seq<State>, steps: seq<Step>, i: nat)
    requires IsRun(run, steps) && i < |run|
    ensures var l := LedgerOf(run, steps, i);
      Numbered(l, run[i]) && EachOnce(l.owed, l.order, |l.issued|) && NewestIsStatus(l, run[i])
  {
    if i > 0 {
      LedgerInEveryRun(run, steps, i - 1);
      var l := LedgerOf(run, steps, i - 1);
      BookNumbers(l, run[i - 1], steps[i - 1]);
      BookKeepsEachOnce(l, run[i - 1], steps[i - 1]);
      BookKeepsNewest(l, run[i - 1], steps[i - 1]);
    }
  }

  lemma LastOwedSignal(l: Ledger, s: State)
    requires Numbered(l, s) && EachOnce(l.owed, l.order, |l.issued|) && NewestIsStatus(l, s) && |s.pending| == 1
    ensures l.owed[0] < |l.issued| && l.issued[l.owed[0]] == s.pending[0].signal
    ensures Shown(s.pending[0].signal) != s.status <==>
      |l.issued| - 1 in l.order && Shown(l.issued[l.owed[0]]) != Shown(l.issued[|l.issued| - 1])
  {
    assert l.owed[0] < |l.issued|;
    assert |l.issued| - 1 in l.owed || |l.issued| - 1 in l.order;
  }

  // An emission misleads the frontend exactly when it comes last and the newest signal,
  // which shows something else, was emitted ahead of it.
  lemma MisleadingSignalWasOvertaken(run: seq<State>, steps: seq<Step>, i: nat)
    requires IsRun(run, steps) && i < |steps| && steps[i].Emit? && |run[i].pending| == 1
    ensures var l := LedgerOf(run, steps, i);
      && l.owed[0] < |l.issued|
      && (Misleads(run[i], steps[i]) <==>
           && |l.issued| - 1 in l.order
           && Shown(l.issued[l.owed[0]]) != Shown(l.issued[|l.issued| - 1]))
  {
    LedgerInEveryRun(run, steps, i);
    LastOwedSignal(LedgerOf(run, steps, i), run[i]);
  }

  // ---- The frontend in every state ----

  // Delivering what is owed in write order would leave the frontend at the daemon's status.
  predicate Settled(s: State) {
    s.status == if s.pending != [] then Shown(s.pending[|s.pending| - 1].signal) else Mirror(Disconnected, s.emitted)
  }

  // A step emits the newest owed signal ahead of the one written before it, which says
  // something else.
  predicate Overtakes(s: State, step: Step) {
    step.Emit? && 0 < step.k == |s.pending| - 1
    && Shown(s.pending[step.k].signal) != Shown(s.pending[step.k - 1].signal)
  }

  lemma SettledStep(s: State, step: Step)
    requires Enabled(s, step) && Settled(s)
    ensures Settled(Next(s, step)) <==> !Overtakes(s, step)
  {
  }

  ghost predicate SettledThrough(run: seq<State>, n: nat)
    requires n < |run|
  {
    forall i :: 0 <= i <= n ==> Settled(run[i])
  }

  ghost predicate NoOvertaking(run: seq<State>, steps: seq<Step>, n: nat)
    requires n <= |steps| < |run|
  {
    forall i :: 0 <= i < n ==> !Overtakes(run[i], steps[i])
  }

  // A run stays settled in every state, also while signals are owed, if and only if no newest
  // signal overtakes its predecessor. That is more than agreeing whenever nothing is owed,
  // which QuietFrontendFollowsExactlyWhen is about.
  lemma {:induction false} FrontendFollowsExactlyWhen(run: seq<State>, steps: seq<Step>, n: nat)
    requires IsRun(run, steps) && n < |run|
    ensures SettledThrough(run, n) <==> NoOvertaking(run, steps, n)
  {
    if n == 0 {
      assert Settled(run[0]);
    } else {
      FrontendFollowsExactlyWhen(run, steps, n - 1);
      SettledOneMore(run, steps, n - 1);
    }
  }

  lemma SettledOneMore(run: seq<State>, steps: seq<Step>, n: nat)
    requires IsRun(run, steps) && n < |steps|
    ensures SettledThrough(run, n) ==> (Settled(run[n + 1]) <==> !Overtakes(run[n], steps[n]))
    ensures SettledThrough(run, n + 1) <==> SettledThrough(run, n) && Settled(run[n + 1])
    ensures NoOvertaking(run, steps, n + 1) <==> NoOvertaking(run, steps, n) && !Overtakes(run[n], steps[n])
  {
    if SettledThrough(run, n) {
      SettledStep(run[n], steps[n]);
    }
  }

  // One writer at a time: nobody writes while another still owes a signal.
  ghost predicate Serialised(run: seq<State>, steps: seq<Step>)
    requires IsRun(run, steps)
  {
    forall i :: 0 <= i < |steps| && steps[i].Write? ==> run[i].pending == []
  }

  lemma {:induction false} SerialisedHasOneWriter(run: seq<State>, steps: seq<Step>, i: nat)
    requires IsRun(run, steps) && Serialised(run, steps) && i < |run|
    ensures forall a, b :: 0 <= a < b < |run[i].pending| ==> run[i].pending[a].writer == run[i].pending[b].writer
  {
    if i > 0 {
      SerialisedHasOneWriter(run, steps, i - 1);
      assert Enabled(run[i - 1], steps[i - 1]) && run[i] == Next(run[i - 1], steps[i - 1]);
    }
  }

  // With serialised writers the frontend equals the daemon whenever nothing is owed, also
  // through the extra LoginSuccessful signal.
  lemma SerialisedFrontendMatches(run: seq<State>, steps: seq<Step>, i: nat)
    requires IsRun(run, steps) && Serialised(run, steps) && i < |run|
    ensures run[i].pending == [] ==> Mirror(Disconnected, run[i].emitted) == run[i].status
  {
    forall j | 0 <= j < i ensures !Overtakes(run[j], steps[j]) {
      SerialisedHasOneWriter(run, steps, j);
      assert Enabled(run[j], steps[j]);
    }
    FrontendFollowsExactlyWhen(run, steps, i);
    assert Settled(run[i]);
  }

  lemma OneMoreStep(run: seq<State>, steps: seq<Step>, step: Step, s: State, t: State)
    requires IsRun(run, steps) && s == run[|run| - 1] && Enabled(s, step) && t == Next(s, step)
    ensures IsRun(run + [t], steps + [step])
  {
  }

  function Login(): Ticket { Ticket(0, LoginSuccessful) }

  function Left(): Ticket { Ticket(1, Changed(Disconnected)) }

  // Writer 1 logs out while writer 0 still owes its login signal.
  lemma LogoutDuringLogin() returns (run: seq<State>, steps: seq<Step>)
    ensures IsRun(run, steps)
    ensures run[|run| - 1] ==
      State(Disconnected, [Connected, Disconnected], [Login(), Left()], [Changed(Connected)])
  {
    var changed := Ticket(0, Changed(Connected));
    var s1 := State(Connected, [Connected], [changed, Login()], []);
    var s2 := State(Connected, [Connected], [Login()], [changed.signal]);
    var s3 := State(Disconnected, [Connected, Disconnected], [Login(), Left()], [changed.signal]);
    run, steps := [INITIAL], [];
    assert s1 == Next(INITIAL, Write(0, Connected, true));
    OneMoreStep(run, steps, Write(0, Connected, true), INITIAL, s1);
    run, steps := run + [s1], steps + [Write(0, Connected, true)];
    OneMoreStep(run, steps, Emit(0), s1, s2);
    run, steps := run + [s2], steps + [Emit(0)];
    assert s3 == Next(s2, Write(1, Disconnected, false));
    OneMoreStep(run, steps, Write(1, Disconnected, false), s2, s3);
    run, steps := run + [s3], steps + [Write(1, Disconnected, false)];
  }

  // Two goroutines can leave the frontend wrong for good: the login signal of one arrives
  // after the other logged out.
  lemma LoginSignalCanOutliveTheLogin() returns (run: seq<State>, steps: seq<Step>)
    ensures IsRun(run, steps)
    ensures var last := run[|run| - 1];
      last.pending == [] && last.status == Disconnected && Mirror(Disconnected, last.emitted) == Connected
  {
    run, steps := LogoutDuringLogin();
    var s3 := run[|run| - 1];
    var s4 := s3.(pending := [Login()], emitted := s3.emitted + [Left().signal]);
    var s5 := s4.(pending := [], emitted := s4.emitted + [LoginSuccessful]);
    OneMoreStep(run, steps, Emit(1), s3, s4);
    run, steps := run + [s4], steps + [Emit(1)];
    OneMoreStep(run, steps, Emit(0), s4, s5);
    run, steps := run + [s5], steps + [Emit(0)];
  }

}

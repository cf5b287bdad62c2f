// The single-flight avatar fetch of daemon/dbus/service.go. Callers and workers interleave;
// each region under cacheMu is one step, and so is every library call of a worker.
module Avatars {

  // ---- File names ----

  predicate IsReplaced(c: char) {
    c == '@' || c == '.' || c == '/'
  }

  function Clean(c: char): char {
    if IsReplaced(c) then '_' else c
  }

  function Sanitize(jid: string): (r: string)
    ensures |r| == |jid| && forall i :: 0 <= i < |jid| ==> r[i] == Clean(jid[i])
  {
    if jid == "" then "" else [Clean(jid[0])] + Sanitize(jid[1..])
  }

  predicate Confusable(c: char) {
    c in "@./_"
  }

  predicate SameInFile(c: char, d: char) {
    c == d || (Confusable(c) && Confusable(d))
  }

  // Two jids share a file exactly when they differ only within the characters @ . / and _.
  lemma {:induction false} SameFileExactlyWhen(a: string, b: string)
    ensures Sanitize(a) == Sanitize(b) <==> |a| == |b| && forall i :: 0 <= i < |a| ==> SameInFile(a[i], b[i])
  {
  }

  ghost predicate PlainUser(user: string) {
    forall i :: 0 <= i < |user| ==> !Confusable(user[i])
  }

  // user@server with a plain user and one of the known servers.
  ghost predicate WellFormed(servers: set<string>, jid: string) {
    exists user, server :: PlainUser(user) && server in servers && jid == user + "@" + server
  }

  ghost predicate DistinctFiles(servers: set<string>) {
    forall a, b :: a in servers && b in servers && Sanitize(a) == Sanitize(b) ==> a == b
  }

  lemma SanitizedParts(user: string, server: string)
    requires PlainUser(user)
    ensures Sanitize(user + "@" + server) == user + "_" + Sanitize(server)
  {
  }

  lemma UserEndsAtFirstUnderscore(u: string, v: string, x: string, y: string)
    requires PlainUser(u) && PlainUser(v) && u + "_" + x == v + "_" + y
    ensures u == v && x == y
  {
    var s := u + "_" + x;
    var t := v + "_" + y;
    assert s[|u|] == '_' && t[|v|] == '_';
    assert forall i :: 0 <= i < |u| ==> s[i] == u[i];
    assert forall i :: 0 <= i < |v| ==> t[i] == v[i];
    assert |u| == |v|;
    assert u == s[..|u|] && v == t[..|v|];
    assert x == s[|u| + 1..] && y == t[|v| + 1..];
  }

  lemma SanitizeIsInjective(servers: set<string>, a: string, b: string)
    requires DistinctFiles(servers) && WellFormed(servers, a) && WellFormed(servers, b)
    requires Sanitize(a) == Sanitize(b)
    ensures a == b
  {
    var u, x :| PlainUser(u) && x in servers && a == u + "@" + x;
    var v, y :| PlainUser(v) && y in servers && b == v + "@" + y;
    SanitizedParts(u, x);
    SanitizedParts(v, y);
    UserEndsAtFirstUnderscore(u, v, Sanitize(x), Sanitize(y));
  }

  // ---- Workers ----

  datatype Stage = Spawned | Locating | AskingInfo | Downloading | MakingDir | Writing | Emitting | Deferred

  datatype Worker = Worker(jid: string, stage: Stage)

  // avatarDownloads and the workers that have not run their deferred delete.
  datatype State = State(downloads: set<string>, workers: map<nat, Worker>)

  datatype Step =
    | Schedule(jid: string, w: nat)  // check and mark under the lock, then start worker w
    | Proceed(w: nat)                // the call of the current stage succeeded
    | GiveUp(w: nat)                 // it failed, or there is no picture
    | Unmark(w: nat)                 // the deferred delete under the lock

  function NextStage(s: Stage): Stage {
    match s
    case Spawned => Locating
    case Locating => AskingInfo
    case AskingInfo => Downloading
    case Downloading => MakingDir
    case MakingDir => Writing
    case Writing => Emitting
    case Emitting => Deferred
    case Deferred => Deferred
  }

  predicate Enabled(s: State, step: Step) {
    match step
    case Schedule(jid, w) => w !in s.workers
    case Proceed(w) => w in s.workers && s.workers[w].stage != Deferred
    case GiveUp(w) => w in s.workers && s.workers[w].stage in {Locating, AskingInfo, Downloading, MakingDir, Writing}
    case Unmark(w) => w in s.workers && s.workers[w].stage == Deferred
  }

  function Next(s: State, step: Step): State
    requires Enabled(s, step)
  {
    match step
    case Schedule(jid, w) =>
      if jid in s.downloads then s
      else State(s.downloads + {jid}, s.workers[w := Worker(jid, Spawned)])
    case Proceed(w) => s.(workers := s.workers[w := s.workers[w].(stage := NextStage(s.workers[w].stage))])
    case GiveUp(w) => s.(workers := s.workers[w := s.workers[w].(stage := Deferred)])
    case Unmark(w) => State(s.downloads - {s.workers[w].jid}, s.workers - {w})
  }

  // A run of the system: each step enabled where it is taken.
  ghost predicate IsRun(run: seq<State>, steps: seq<Step>) {
    && |run| == |steps| + 1
    && run[0] == State({}, map[])
    && forall i :: 0 <= i < |steps| ==> Enabled(run[i], steps[i]) && run[i + 1] == Next(run[i], steps[i])
  }

  // jid is marked exactly while one worker for it is under way.
  ghost predicate SingleFlight(s: State) {
    && (forall w :: w in s.workers ==> s.workers[w].jid in s.downloads)
    && (forall jid :: jid in s.downloads ==> HasWorker(s, jid))
    && (forall v, w :: v in s.workers && w in s.workers && s.workers[v].jid == s.workers[w].jid ==> v == w)
  }

  ghost predicate HasWorker(s: State, jid: string) {
    exists w :: w in s.workers && s.workers[w].jid == jid
  }

  lemma StepKeepsWorkers(s: State, step: Step, jid: string)
    requires SingleFlight(s) && Enabled(s, step) && jid in Next(s, step).downloads
    ensures HasWorker(Next(s, step), jid)
  {
    var t := Next(s, step);
    if step.Schedule? && jid == step.jid && jid !in s.downloads {
      assert step.w in t.workers && t.workers[step.w].jid == jid;
    } else {
      assert HasWorker(s, jid);
      var w :| w in s.workers && s.workers[w].jid == jid;
      assert w in t.workers && t.workers[w].jid == jid;
    }
  }

  lemma StepKeepsSingleFlight(s: State, step: Step)
    requires SingleFlight(s) && Enabled(s, step)
    ensures SingleFlight(Next(s, step))
  {
    forall jid | jid in Next(s, step).downloads ensures HasWorker(Next(s, step), jid) {
      StepKeepsWorkers(s, step, jid);
    }
  }

  lemma {:induction false} EveryRunIsSingleFlight(run: seq<State>, steps: seq<Step>, i: nat)
    requires IsRun(run, steps) && i < |run|
    ensures SingleFlight(run[i])
  {
    if i > 0 {
      EveryRunIsSingleFlight(run, steps, i - 1);
      StepKeepsSingleFlight(run[i - 1], steps[i - 1]);
    }
  }

  // Over well-formed jids no two workers ever hold the same avatar file, let alone write it.
  lemma OneWriterPerFile(servers: set<string>, run: seq<State>, steps: seq<Step>, i: nat, v: nat, w: nat)
    requires DistinctFiles(servers) && IsRun(run, steps) && i < |run|
    requires v in run[i].workers && w in run[i].workers
    requires WellFormed(servers, run[i].workers[v].jid) && WellFormed(servers, run[i].workers[w].jid)
    requires Sanitize(run[i].workers[v].jid) == Sanitize(run[i].workers[w].jid)
    ensures v == w
  {
    EveryRunIsSingleFlight(run, steps, i);
    SanitizeIsInjective(servers, run[i].workers[v].jid, run[i].workers[w].jid);
  }

  lemma BothProceed(run: seq<State>, steps: seq<Step>, a: string, b: string, stage: Stage)
      returns (run': seq<State>, steps': seq<Step>)
    requires IsRun(run, steps) && stage != Deferred
    requires run[|run| - 1] == State({a, b}, map[0 := Worker(a, stage), 1 := Worker(b, stage)])
    ensures IsRun(run', steps')
    ensures run'[|run'| - 1] ==
      State({a, b}, map[0 := Worker(a, NextStage(stage)), 1 := Worker(b, NextStage(stage))])
  {
    var t := Next(run[|run| - 1], Proceed(0));
    run', steps' := run + [t, Next(t, Proceed(1))], steps + [Proceed(0), Proceed(1)];
  }

  // Outside that shape the guarantee is lost: two jids with one file get two writers.
  lemma TwoWritersForOneFile(a: string, b: string) returns (run: seq<State>, steps: seq<Step>)
    requires a != b && Sanitize(a) == Sanitize(b)
    ensures IsRun(run, steps)
    ensures run[|run| - 1].workers == map[0 := Worker(a, Writing), 1 := Worker(b, Writing)]
  {
    var s0 := State({}, map[]);
    var s1 := Next(s0, Schedule(a, 0));
    var s2 := Next(s1, Schedule(b, 1));
    run, steps := [s0, s1, s2], [Schedule(a, 0), Schedule(b, 1)];
    run, steps := BothProceed(run, steps, a, b, Spawned);
    run, steps := BothProceed(run, steps, a, b, Locating);
    run, steps := BothProceed(run, steps, a, b, AskingInfo);
    run, steps := BothProceed(run, steps, a, b, Downloading);
    run, steps := BothProceed(run, steps, a, b, MakingDir);
  }

  // There are such jids.
  lemma TwoJidsOneFile() returns (a: string, b: string, run: seq<State>, steps: seq<Step>)
    ensures a == "1.2@lid" && b == "1_2@lid" && Sanitize(a) == Sanitize(b)
    ensures IsRun(run, steps)
    ensures run[|run| - 1].workers == map[0 := Worker(a, Writing), 1 := Worker(b, Writing)]
  {
    a, b := "1.2@lid", "1_2@lid";
    assert a[1] != b[1];
    SameFileExactlyWhen(a, b);
    run, steps := TwoWritersForOneFile(a, b);
  }

  // In every run: a jid that no worker is under way for gets one, any other call changes nothing.
  lemma ScheduleStartsAWorkerExactlyWhen(run: seq<State>, steps: seq<Step>, i: nat)
    requires IsRun(run, steps) && i < |steps| && steps[i].Schedule?
    ensures var jid, w := steps[i].jid, steps[i].w;
      if HasWorker(run[i], jid) then run[i + 1] == run[i]
      else run[i + 1] == State(run[i].downloads + {jid}, run[i].workers[w := Worker(jid, Spawned)])
  {
    EveryRunIsSingleFlight(run, steps, i);
    assert Enabled(run[i], steps[i]) && run[i + 1] == Next(run[i], steps[i]);
  }

  function Alone(jid: string, stage: Stage): State {
    State({jid}, map[0 := Worker(jid, stage)])
  }

  lemma AloneProceeds(run: seq<State>, steps: seq<Step>, jid: string, stage: Stage, next: Stage)
    requires IsRun(run, steps) && run[|run| - 1] == Alone(jid, stage)
    requires (stage, next) in [(Spawned, Locating), (Locating, AskingInfo), (AskingInfo, Downloading),
                               (Downloading, MakingDir), (MakingDir, Writing), (Writing, Emitting),
                               (Emitting, Deferred)]
    ensures IsRun(run + [Alone(jid, next)], steps + [Proceed(0)])
  {
    assert Next(Alone(jid, stage), Proceed(0)).workers == map[0 := Worker(jid, next)];
  }

  lemma FetchDownloads(jid: string) returns (run: seq<State>, steps: seq<Step>)
    ensures IsRun(run, steps) && steps == [Schedule(jid, 0), Proceed(0), Proceed(0), Proceed(0)]
    ensures run == [State({}, map[]), Alone(jid, Spawned), Alone(jid, Locating), Alone(jid, AskingInfo),
                    Alone(jid, Downloading)]
  {
    run, steps := [State({}, map[]), Alone(jid, Spawned)], [Schedule(jid, 0)];
    AloneProceeds(run, steps, jid, Spawned, Locating);
    run, steps := run + [Alone(jid, Locating)], steps + [Proceed(0)];
    AloneProceeds(run, steps, jid, Locating, AskingInfo);
    run, steps := run + [Alone(jid, AskingInfo)], steps + [Proceed(0)];
    AloneProceeds(run, steps, jid, AskingInfo, Downloading);
    run, steps := run + [Alone(jid, Downloading)], steps + [Proceed(0)];
  }

  // An undisturbed fetch makes its calls in this order, the file is written before AvatarUpdated
  // is emitted, and afterwards the jid can be fetched again.
  lemma FetchRunsToItsEnd(jid: string) returns (run: seq<State>, steps: seq<Step>)
    ensures IsRun(run, steps)
    ensures steps == [Schedule(jid, 0), Proceed(0), Proceed(0), Proceed(0), Proceed(0), Proceed(0), Proceed(0),
                      Proceed(0), Unmark(0)]
    ensures run == [State({}, map[]), Alone(jid, Spawned), Alone(jid, Locating), Alone(jid, AskingInfo),
                    Alone(jid, Downloading), Alone(jid, MakingDir), Alone(jid, Writing), Alone(jid, Emitting),
                    Alone(jid, Deferred), State({}, map[])]
  {
    run, steps := FetchDownloads(jid);
    AloneProceeds(run, steps, jid, Downloading, MakingDir);
    run, steps := run + [Alone(jid, MakingDir)], steps + [Proceed(0)];
    AloneProceeds(run, steps, jid, MakingDir, Writing);
    run, steps := run + [Alone(jid, Writing)], steps + [Proceed(0)];
    AloneProceeds(run, steps, jid, Writing, Emitting);
    run, steps := run + [Alone(jid, Emitting)], steps + [Proceed(0)];
    AloneProceeds(run, steps, jid, Emitting, Deferred);
    run, steps := run + [Alone(jid, Deferred)], steps + [Proceed(0)];
    UnmarkAlone(run, steps, jid);
    run, steps := run + [State({}, map[])], steps + [Unmark(0)];
  }

  lemma UnmarkAlone(run: seq<State>, steps: seq<Step>, jid: string)
    requires IsRun(run, steps) && run[|run| - 1] == Alone(jid, Deferred)
    ensures IsRun(run + [State({}, map[])], steps + [Unmark(0)])
  {
    var t := Next(Alone(jid, Deferred), Unmark(0));
    assert t.downloads == {} && t.workers == map[];
  }

  // Whichever call fails, the worker only has its unmarking left, and the jid is free again.
  lemma FailedFetchCanBeRetried(run: seq<State>, steps: seq<Step>, w: nat) returns (run': seq<State>)
    requires IsRun(run, steps) && w in run[|run| - 1].workers
    requires run[|run| - 1].workers[w].stage in {Locating, AskingInfo, Downloading, MakingDir, Writing}
    ensures IsRun(run', steps + [GiveUp(w), Unmark(w)])
    ensures var jid := run[|run| - 1].workers[w].jid;
      jid !in run'[|run'| - 1].downloads && !HasWorker(run'[|run'| - 1], jid)
  {
    var s := run[|run| - 1];
    EveryRunIsSingleFlight(run, steps, |run| - 1);
    var t := Next(s, GiveUp(w));
    assert t.workers[w] == Worker(s.workers[w].jid, Deferred);
    run' := run + [t, Next(t, Unmark(w))];
  }
}

// The group-info cache of daemon/dbus/service.go: loads, invalidations and the clock
// interleave; each region under cacheMu is one step and the query to WhatsApp is another.
module GroupCache {

  // 5 * time.Minute in nanoseconds.
  const LIFETIME: int := 5 * 60 * 1_000_000_000

  // fetchedAt numbers the step that obtained the value; storedAt is clock time.
  datatype Entry<I> = Entry(info: I, storedAt: int, expiresAt: int, fetchedAt: int)

  datatype Load<I> = Missed(jid: string) | Fetched(jid: string, info: I, fetchedAt: int)

  datatype State<I> = State(now: int, cache: map<string, Entry<I>>, loads: map<nat, Load<I>>)

  datatype Step<I> =
    | Tick(d: nat)
    | Lookup(l: nat, jid: string)  // a hit is served at once, a miss starts load l
    | Fetch(l: nat, info: I)
    | FetchFails(l: nat)
    | StoreInfo(l: nat)
    | Invalidate(jid: string)

  predicate Hit<I>(s: State<I>, jid: string) {
    jid in s.cache && s.now < s.cache[jid].expiresAt
  }

  predicate Enabled<I>(s: State<I>, step: Step<I>) {
    match step
    case Tick(_) => true
    case Lookup(l, jid) => l !in s.loads
    case Fetch(l, _) => l in s.loads && s.loads[l].Missed?
    case FetchFails(l) => l in s.loads && s.loads[l].Missed?
    case StoreInfo(l) => l in s.loads && s.loads[l].Fetched?
    case Invalidate(_) => true
  }

  // n is the number of the step.
  function Next<I>(s: State<I>, step: Step<I>, n: nat): State<I>
    requires Enabled(s, step)
  {
    match step
    case Tick(d) => s.(now := s.now + d)
    case Lookup(l, jid) => if Hit(s, jid) then s else s.(loads := s.loads[l := Missed(jid)])
    case Fetch(l, info) => s.(loads := s.loads[l := Fetched(s.loads[l].jid, info, n)])
    case FetchFails(l) => s.(loads := s.loads - {l})
    case StoreInfo(l) =>
      var load := s.loads[l];
      State(s.now,
            s.cache[load.jid := Entry(load.info, s.now, s.now + LIFETIME, load.fetchedAt)],
            s.loads - {l})
    case Invalidate(jid) => s.(cache := s.cache - {jid})
  }

  ghost predicate IsRun<I>(run: seq<State<I>>, steps: seq<Step<I>>) {
    && |run| == |steps| + 1
    && run[0].cache == map[] && run[0].loads == map[]
    && forall i :: 0 <= i < |steps| ==> Enabled(run[i], steps[i]) && run[i + 1] == Next(run[i], steps[i], i)
  }

  // ---- What the cache holds, read off the run ----

  ghost predicate StoresAt<I>(run: seq<State<I>>, steps: seq<Step<I>>, k: int, jid: string)
    requires IsRun(run, steps)
  {
    0 <= k < |steps| && steps[k].StoreInfo? && run[k].loads[steps[k].l].jid == jid
  }

  ghost predicate TouchesAt<I>(run: seq<State<I>>, steps: seq<Step<I>>, k: int, jid: string)
    requires IsRun(run, steps)
  {
    StoresAt(run, steps, k, jid) || (0 <= k < |steps| && steps[k] == Invalidate(jid))
  }

  // Step k stored the value and nothing stored or invalidated jid between it and step i.
  ghost predicate LastStore<I>(run: seq<State<I>>, steps: seq<Step<I>>, k: int, i: int, jid: string)
    requires IsRun(run, steps)
  {
    k < i && StoresAt(run, steps, k, jid) && forall j :: k < j < i ==> !TouchesAt(run, steps, j, jid)
  }

  ghost predicate EntryExplained<I>(run: seq<State<I>>, steps: seq<Step<I>>, i: int, jid: string)
    requires IsRun(run, steps) && 0 <= i < |run|
  {
    if jid in run[i].cache then
      exists k :: LastStore(run, steps, k, i, jid) && EntryIs(run, steps, k, run[i].cache[jid])
    else
      forall k :: !LastStore(run, steps, k, i, jid)
  }

  ghost predicate EntryIs<I>(run: seq<State<I>>, steps: seq<Step<I>>, k: int, e: Entry<I>)
    requires IsRun(run, steps)
  {
    && 0 <= k < |steps| && steps[k].StoreInfo?
    && var load := run[k].loads[steps[k].l];
       e == Entry(load.info, run[k].now, run[k].now + LIFETIME, load.fetchedAt)
  }

  lemma LastStoreStays<I>(run: seq<State<I>>, steps: seq<Step<I>>, i: nat, jid: string)
    requires IsRun(run, steps) && 0 < i < |run| && !TouchesAt(run, steps, i - 1, jid)
    ensures forall k :: LastStore(run, steps, k, i, jid) <==> LastStore(run, steps, k, i - 1, jid)
  {
  }

  lemma UntouchedEntryStays<I>(run: seq<State<I>>, steps: seq<Step<I>>, i: nat, jid: string)
    requires IsRun(run, steps) && i < |steps| && !TouchesAt(run, steps, i, jid)
    ensures jid in run[i + 1].cache <==> jid in run[i].cache
    ensures jid in run[i].cache ==> run[i + 1].cache[jid] == run[i].cache[jid]
  {
  }

  lemma TouchedEntryIsExplained<I>(run: seq<State<I>>, steps: seq<Step<I>>, i: nat, jid: string)
    requires IsRun(run, steps) && i < |steps| && TouchesAt(run, steps, i, jid)
    ensures EntryExplained(run, steps, i + 1, jid)
  {
    assert Enabled(run[i], steps[i]) && run[i + 1] == Next(run[i], steps[i], i);
    if StoresAt(run, steps, i, jid) {
      assert LastStore(run, steps, i, i + 1, jid);
      assert EntryIs(run, steps, i, run[i + 1].cache[jid]);
    }
  }

  lemma {:induction false} CacheHoldsTheLastStore<I>(run: seq<State<I>>, steps: seq<Step<I>>, i: nat, jid: string)
    requires IsRun(run, steps) && i < |run|
    ensures EntryExplained(run, steps, i, jid)
  {
    if i > 0 {
      if TouchesAt(run, steps, i - 1, jid) {
        TouchedEntryIsExplained(run, steps, i - 1, jid);
      } else {
        CacheHoldsTheLastStore(run, steps, i - 1, jid);
        LastStoreStays(run, steps, i, jid);
        UntouchedEntryStays(run, steps, i - 1, jid);
        if jid in run[i].cache {
          var k :| LastStore(run, steps, k, i - 1, jid) && EntryIs(run, steps, k, run[i - 1].cache[jid]);
          assert LastStore(run, steps, k, i, jid) && EntryIs(run, steps, k, run[i].cache[jid]);
        }
      }
    }
  }

  // In every interleaving a lookup is served from the cache exactly when the last thing that
  // happened to the group was a store less than five minutes ago, and it is served that value.
  lemma ServedExactlyWhenStoredWithinFiveMinutes<I>(run: seq<State<I>>, steps: seq<Step<I>>, i: nat, jid: string)
    requires IsRun(run, steps) && i < |run|
    ensures Hit(run[i], jid) <==>
      exists k :: LastStore(run, steps, k, i, jid) && run[i].now - run[k].now < 300_000_000_000
    ensures Hit(run[i], jid) ==> forall k :: LastStore(run, steps, k, i, jid) ==>
      run[i].cache[jid].info == run[k].loads[steps[k].l].info && 0 <= run[i].now - run[k].now < 300_000_000_000
  {
    CacheHoldsTheLastStore(run, steps, i, jid);
    if jid in run[i].cache {
      var k :| LastStore(run, steps, k, i, jid) && EntryIs(run, steps, k, run[i].cache[jid]);
      ClockNeverGoesBack(run, steps, k, i);
      assert TouchesAt(run, steps, k, jid);
      forall k' | LastStore(run, steps, k', i, jid) ensures k' == k {
        assert TouchesAt(run, steps, k', jid);
      }
    }
  }

  // A lookup starts a load exactly when there is no such store, and changes nothing else.
  lemma LookupLoadsExactlyWhenExpired<I>(run: seq<State<I>>, steps: seq<Step<I>>, i: nat)
    requires IsRun(run, steps) && i < |steps| && steps[i].Lookup?
    ensures var l, jid := steps[i].l, steps[i].jid;
      run[i + 1] == if exists k :: LastStore(run, steps, k, i, jid) && run[i].now - run[k].now < 300_000_000_000
                    then run[i]
                    else run[i].(loads := run[i].loads[l := Missed(jid)])
  {
    ServedExactlyWhenStoredWithinFiveMinutes(run, steps, i, steps[i].jid);
    assert Enabled(run[i], steps[i]) && run[i + 1] == Next(run[i], steps[i], i);
  }

  // A load ends when its value is stored or its fetch fails, and in no other way.
  lemma LoadsEndExactlyWhen<I>(run: seq<State<I>>, steps: seq<Step<I>>, i: nat, l: nat)
    requires IsRun(run, steps) && i < |steps| && l in run[i].loads
    ensures l !in run[i + 1].loads <==> steps[i] == StoreInfo(l) || steps[i] == FetchFails(l)
  {
    assert Enabled(run[i], steps[i]) && run[i + 1] == Next(run[i], steps[i], i);
  }

  // Step f fetched the value for the group.
  ghost predicate FetchedBy<I>(run: seq<State<I>>, steps: seq<Step<I>>, f: int, i: int, jid: string, info: I)
    requires IsRun(run, steps) && i < |run|
  {
    && 0 <= f < i && steps[f].Fetch? && steps[f].info == info
    && steps[f].l in run[f].loads && run[f].loads[steps[f].l] == Missed(jid)
  }

  // In every run a load holds what its own fetch brought, and so does a cached entry.
  lemma {:induction false} ValuesWereFetched<I>(run: seq<State<I>>, steps: seq<Step<I>>, i: nat)
    requires IsRun(run, steps) && i < |run|
    ensures forall l :: l in run[i].loads && run[i].loads[l].Fetched? ==>
      FetchedBy(run, steps, run[i].loads[l].fetchedAt, i, run[i].loads[l].jid, run[i].loads[l].info)
    ensures forall jid :: jid in run[i].cache ==>
      FetchedBy(run, steps, run[i].cache[jid].fetchedAt, i, jid, run[i].cache[jid].info)
  {
    if i > 0 {
      ValuesWereFetched(run, steps, i - 1);
      var s, step, t := run[i - 1], steps[i - 1], run[i];
      assert Enabled(s, step) && t == Next(s, step, i - 1);
      forall l | l in t.loads && t.loads[l].Fetched?
        ensures FetchedBy(run, steps, t.loads[l].fetchedAt, i, t.loads[l].jid, t.loads[l].info)
      {
        if !(step.Fetch? && step.l == l) {
          assert l in s.loads && s.loads[l] == t.loads[l];
        }
      }
      forall jid | jid in t.cache ensures FetchedBy(run, steps, t.cache[jid].fetchedAt, i, jid, t.cache[jid].info) {
        if step.StoreInfo? && s.loads[step.l].jid == jid {
          assert s.loads[step.l].Fetched?;
        } else {
          assert jid in s.cache && s.cache[jid] == t.cache[jid];
        }
      }
    }
  }

  lemma {:induction false} ClockNeverGoesBack<I>(run: seq<State<I>>, steps: seq<Step<I>>, k: nat, i: nat)
    requires IsRun(run, steps) && k <= i < |run|
    ensures run[k].now <= run[i].now
  {
    if k < i {
      ClockNeverGoesBack(run, steps, k, i - 1);
      assert Enabled(run[i - 1], steps[i - 1]) && run[i] == Next(run[i - 1], steps[i - 1], i - 1);
    }
  }

  // ---- Invalidation ----

  // No invalidation of the group happened after the value was fetched and before step i.
  ghost predicate Current<I>(steps: seq<Step<I>>, fetchedAt: int, i: int, jid: string) {
    forall k :: fetchedAt < k < i && 0 <= k < |steps| ==> steps[k] != Invalidate(jid)
  }

  ghost predicate FreshAt<I>(run: seq<State<I>>, steps: seq<Step<I>>, i: int)
    requires 0 <= i < |run|
  {
    forall jid :: jid in run[i].cache ==> Current(steps, run[i].cache[jid].fetchedAt, i, jid)
  }

  // Step i stores a value although the group was invalidated after the value was fetched.
  ghost predicate StaleStoreAt<I>(run: seq<State<I>>, steps: seq<Step<I>>, i: int)
    requires IsRun(run, steps)
  {
    && 0 <= i < |steps| && steps[i].StoreInfo?
    && var load := run[i].loads[steps[i].l]; !Current(steps, load.fetchedAt, i, load.jid)
  }

  lemma FreshnessStep<I>(run: seq<State<I>>, steps: seq<Step<I>>, i: nat)
    requires IsRun(run, steps) && i < |steps| && FreshAt(run, steps, i)
    ensures FreshAt(run, steps, i + 1) <==> !StaleStoreAt(run, steps, i)
  {
    var s, step, t := run[i], steps[i], run[i + 1];
    assert Enabled(s, step) && t == Next(s, step, i);
    if step.StoreInfo? {
      var load := s.loads[step.l];
      assert t.cache[load.jid].fetchedAt == load.fetchedAt;
      assert Current(steps, load.fetchedAt, i + 1, load.jid) <==> Current(steps, load.fetchedAt, i, load.jid);
    }
    if !StaleStoreAt(run, steps, i) {
      forall jid | jid in t.cache ensures Current(steps, t.cache[jid].fetchedAt, i + 1, jid) {
        if !(step.StoreInfo? && s.loads[step.l].jid == jid) {
          assert jid in s.cache && t.cache[jid] == s.cache[jid];
          assert step != Invalidate(jid);
        }
      }
    }
  }

  // The cache never holds a value fetched before an invalidation if and only if no store in
  // the run was overtaken by one between its fetch and itself.
  lemma {:induction false} CacheIsFreshExactlyWhen<I>(run: seq<State<I>>, steps: seq<Step<I>>, n: nat)
    requires IsRun(run, steps) && n < |run|
    ensures (forall i :: 0 <= i <= n ==> FreshAt(run, steps, i)) <==>
      forall i :: 0 <= i < n ==> !StaleStoreAt(run, steps, i)
  {
    if n > 0 {
      CacheIsFreshExactlyWhen(run, steps, n - 1);
      if forall i :: 0 <= i < n ==> FreshAt(run, steps, i) {
        assert FreshAt(run, steps, n - 1);
        FreshnessStep(run, steps, n - 1);
        if !StaleStoreAt(run, steps, n - 1) {
          assert FreshAt(run, steps, n);
        }
      }
    } else {
      assert FreshAt(run, steps, 0);
    }
  }

  // Invalidations that never hit a group with a fetched, unstored value are safe.
  ghost predicate LoadsNotInterrupted<I>(run: seq<State<I>>, steps: seq<Step<I>>)
    requires IsRun(run, steps)
  {
    forall i, l :: 0 <= i < |steps| && steps[i].Invalidate? && l in run[i].loads && run[i].loads[l].jid == steps[i].jid
      ==> run[i].loads[l].Missed?
  }

  lemma {:induction false} UninterruptedLoadsStayCurrent<I>(run: seq<State<I>>, steps: seq<Step<I>>, i: nat, l: nat)
    requires IsRun(run, steps) && LoadsNotInterrupted(run, steps) && i < |run|
    requires l in run[i].loads && run[i].loads[l].Fetched?
    ensures Current(steps, run[i].loads[l].fetchedAt, i, run[i].loads[l].jid)
  {
    var s, step := run[i - 1], steps[i - 1];
    assert Enabled(s, step) && run[i] == Next(s, step, i - 1);
    if !(step.Fetch? && step.l == l) {
      assert l in s.loads && s.loads[l] == run[i].loads[l];
      UninterruptedLoadsStayCurrent(run, steps, i - 1, l);
      assert step != Invalidate(s.loads[l].jid);
    }
  }

  lemma UninterruptedRunsAreFresh<I>(run: seq<State<I>>, steps: seq<Step<I>>, i: nat)
    requires IsRun(run, steps) && LoadsNotInterrupted(run, steps) && i < |run|
    ensures FreshAt(run, steps, i)
  {
    forall j | 0 <= j < i ensures !StaleStoreAt(run, steps, j) {
      if steps[j].StoreInfo? {
        assert Enabled(run[j], steps[j]);
        UninterruptedLoadsStayCurrent(run, steps, j, steps[j].l);
      }
    }
    CacheIsFreshExactlyWhen(run, steps, i);
  }

  // A run in which an invalidation overtakes a load: the old value is served afterwards.
  lemma InvalidationCanBeOvertaken<I>(jid: string, stale: I) returns (run: seq<State<I>>, steps: seq<Step<I>>)
    ensures IsRun(run, steps) && steps == [Lookup(0, jid), Fetch(0, stale), Invalidate(jid), StoreInfo(0)]
    ensures Hit(run[4], jid) && run[4].cache[jid].info == stale && StaleStoreAt(run, steps, 3)
  {
    steps := [Lookup(0, jid), Fetch(0, stale), Invalidate(jid), StoreInfo(0)];
    var s0: State<I> := State(0, map[], map[]);
    var s1 := Next(s0, steps[0], 0);
    var s2 := Next(s1, steps[1], 1);
    var s3 := Next(s2, steps[2], 2);
    var s4 := Next(s3, steps[3], 3);
    run := [s0, s1, s2, s3, s4];
    assert !Current(steps, 1, 3, jid) by {
      assert steps[2] == Invalidate(jid);
    }
  }
}

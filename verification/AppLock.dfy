// The lock of app/src/applock.cpp against a wallet that may fail to open, to write or to
// remove. Each method takes the wallet's answers as parameters.
module AppLocks {
  import opened Sequences

  datatype LockState = LockState(enabled: bool, locked: bool, entry: Option<string>)

  datatype Op =
    | EnableLock(pin: string, opens: bool, writes: bool)
    | DisableLock(opens: bool, removes: bool)
    | Unlock(pin: string, opens: bool)
    | Lock
    | InitializeState(opens: bool)

  function Step(s: LockState, op: Op): LockState {
    match op
    case EnableLock(pin, opens, writes) =>
      if |pin| < 4 || !opens then s else LockState(true, true, if writes then Some(pin) else s.entry)
    case DisableLock(opens, removes) =>
      if !opens then s else LockState(false, false, if removes then None else s.entry)
    case Unlock(pin, opens) =>
      if opens && s.entry == Some(pin) then s.(locked := false) else s
    case Lock =>
      if !s.enabled then s else s.(locked := true)
    case InitializeState(opens) =>
      if opens then LockState(s.entry.Some?, s.entry.Some?, s.entry) else s
  }

  function Run(s: LockState, ops: seq<Op>): LockState {
    if ops == [] then s else Step(Run(s, ops[..|ops| - 1]), ops[|ops| - 1])
  }

  class AppLock {
    var lockEnabled: bool
    var locked: bool
    var entry: Option<string>  // what the wallet holds under applock_pin

    function State(): LockState
      reads this
    {
      LockState(lockEnabled, locked, entry)
    }

    constructor (entry: Option<string>)
      ensures State() == LockState(false, false, entry)
    {
      lockEnabled, locked := false, false;
      this.entry := entry;
    }

    method EnableLock(pin: string, opens: bool, writes: bool)
      modifies this
      ensures State() == Step(old(State()), Op.EnableLock(pin, opens, writes))
    {
      if |pin| < 4 {
        return;
      }
      if !opens {
        return;
      }
      if writes {
        entry := Some(pin);
      }
      lockEnabled := true;
      locked := true;
    }

    method DisableLock(opens: bool, removes: bool)
      modifies this
      ensures State() == Step(old(State()), Op.DisableLock(opens, removes))
    {
      if !opens {
        return;
      }
      if removes {
        entry := None;
      }
      lockEnabled := false;
      locked := false;
    }

    method Unlock(pin: string, opens: bool) returns (ok: bool)
      modifies this
      ensures State() == Step(old(State()), Op.Unlock(pin, opens))
      ensures ok <==> opens && old(entry) == Some(pin)
    {
      if !opens {
        return false;
      }
      if entry.None? || entry.value != pin {
        return false;
      }
      if locked {
        locked := false;
      }
      return true;
    }

    method Lock()
      modifies this
      ensures State() == Step(old(State()), Op.Lock)
    {
      if !lockEnabled || locked {
        return;
      }
      locked := true;
    }

    method InitializeState(opens: bool)
      modifies this
      ensures State() == Step(old(State()), Op.InitializeState(opens))
    {
      if opens {
        var enabled := entry.Some?;
        if lockEnabled != enabled {
          lockEnabled := enabled;
        }
        if locked != enabled {
          locked := enabled;
        }
      }
    }
  }

  predicate LongEnough(entry: Option<string>) {
    entry.Some? ==> |entry.value| >= 4
  }

  // From the start of the application, in every run, locked implies enabled and no pin of
  // fewer than four characters enters the wallet.
  lemma {:induction false} LockedImpliesEnabled(entry: Option<string>, ops: seq<Op>)
    ensures var s := Run(LockState(false, false, entry), ops);
      (s.locked ==> s.enabled) && (LongEnough(entry) ==> LongEnough(s.entry))
  {
    if ops != [] {
      LockedImpliesEnabled(entry, ops[..|ops| - 1]);
    }
  }

  predicate KeepsPin(op: Op) {
    !op.EnableLock? && !op.DisableLock?
  }

  // The pin the wallet holds opens the lock at step k.
  predicate OpensAt(ops: seq<Op>, k: int, pin: string) {
    0 <= k < |ops| && ops[k] == Unlock(pin, true)
  }

  predicate LocksAt(ops: seq<Op>, k: int) {
    0 <= k < |ops| && (ops[k].Lock? || (ops[k].InitializeState? && ops[k].opens))
  }

  // unlock(pin) succeeded and nothing locked since.
  ghost predicate OpenedLast(ops: seq<Op>, pin: string) {
    exists k :: OpensAt(ops, k, pin) && forall j :: k < j ==> !LocksAt(ops, j)
  }

  lemma OpenedOneMore(ops: seq<Op>, pin: string)
    requires ops != []
    ensures OpenedLast(ops, pin) <==>
      OpensAt(ops, |ops| - 1, pin) || (OpenedLast(ops[..|ops| - 1], pin) && !LocksAt(ops, |ops| - 1))
  {
    var init, n := ops[..|ops| - 1], |ops| - 1;
    forall k | k < n ensures OpensAt(ops, k, pin) == OpensAt(init, k, pin) && LocksAt(ops, k) == LocksAt(init, k) {
    }
    if OpensAt(ops, n, pin) {
      assert forall j :: n < j ==> !LocksAt(ops, j);
    }
    if k :| OpensAt(init, k, pin) && (forall j :: k < j ==> !LocksAt(init, j)) && !LocksAt(ops, n) {
      assert OpensAt(ops, k, pin);
    }
    if k :| OpensAt(ops, k, pin) && forall j :: k < j ==> !LocksAt(ops, j) {
      assert k < n ==> OpensAt(init, k, pin);
    }
  }

  // After the pin was stored, and until it is changed or the lock disabled: the pin and the
  // lock survive, whatever else is called and however often the wallet fails to open, and the
  // application is unlocked exactly when unlock(pin) succeeded and nothing locked it since.
  lemma {:induction false} OnlyThePinUnlocks(s: LockState, pin: string, ops: seq<Op>)
    requires |pin| >= 4
    requires forall k :: 0 <= k < |ops| ==> KeepsPin(ops[k])
    ensures var now := Run(Step(s, EnableLock(pin, true, true)), ops);
      && now.enabled && now.entry == Some(pin)
      && (!now.locked <==> OpenedLast(ops, pin))
  {
    if ops != [] {
      var init, last := ops[..|ops| - 1], ops[|ops| - 1];
      OnlyThePinUnlocks(s, pin, init);
      assert KeepsPin(last);
      OpenedOneMore(ops, pin);
    }
  }

  // ---- A lock without a key ----

  // Locked, and unlock fails for every pin even with an open wallet.
  ghost predicate NoPinOpens(s: LockState) {
    s.locked && forall pin :: Step(s, Unlock(pin, true)).locked
  }

  // enableLock that cannot write the pin: the result of writePassword is not looked at.
  predicate UnwrittenAt(entry: Option<string>, ops: seq<Op>, k: int) {
    0 <= k < |ops| && ops[k].EnableLock? && |ops[k].pin| >= 4 && ops[k].opens && !ops[k].writes
    && Run(LockState(false, false, entry), ops[..k]).entry.None?
  }

  // The wallet opens and the operation reads or rewrites the entry.
  predicate Repairs(op: Op) {
    || (op.EnableLock? && |op.pin| >= 4 && op.opens && op.writes)
    || (op.DisableLock? && op.opens)
    || (op.InitializeState? && op.opens)
  }

  ghost predicate RepairedAfter(ops: seq<Op>, k: int) {
    exists j :: 0 <= k < j < |ops| && Repairs(ops[j])
  }

  ghost predicate LockedWithoutKey(entry: Option<string>, ops: seq<Op>) {
    exists k :: UnwrittenAt(entry, ops, k) && !RepairedAfter(ops, k)
  }

  // In every run the application is locked so that no pin opens it exactly when enableLock
  // failed to write into a wallet without a pin and the wallet was not put right since.
  lemma NoPinOpensExactlyWhen(entry: Option<string>, ops: seq<Op>)
    ensures var s := Run(LockState(false, false, entry), ops);
      && (NoPinOpens(s) <==> s.locked && s.entry.None?)
      && (NoPinOpens(s) <==> LockedWithoutKey(entry, ops))
  {
    var s := Run(LockState(false, false, entry), ops);
    if s.locked && s.entry.Some? {
      assert !Step(s, Unlock(s.entry.value, true)).locked;
    }
    KeylessExactlyWhen(entry, ops);
  }

  predicate Keyless(s: LockState) {
    s.locked && s.entry.None?
  }

  predicate KeylessNext(s: LockState, op: Op) {
    || (Keyless(s) && !Repairs(op))
    || (s.entry.None? && op.EnableLock? && |op.pin| >= 4 && op.opens && !op.writes)
  }

  lemma {:induction false} KeylessExactlyWhen(entry: Option<string>, ops: seq<Op>)
    ensures Keyless(Run(LockState(false, false, entry), ops)) <==> LockedWithoutKey(entry, ops)
    ensures var s := Run(LockState(false, false, entry), ops); s.entry.None? && s.enabled ==> s.locked
  {
    if ops != [] {
      var init, last := ops[..|ops| - 1], ops[|ops| - 1];
      KeylessExactlyWhen(entry, init);
      assert Keyless(Run(LockState(false, false, entry), ops)) <==>
        KeylessNext(Run(LockState(false, false, entry), init), last);
      LockedWithoutKeyOneMore(entry, ops);
    }
  }

  lemma LockedWithoutKeyOneMore(entry: Option<string>, ops: seq<Op>)
    requires ops != []
    ensures var init, last, n := ops[..|ops| - 1], ops[|ops| - 1], |ops| - 1;
      LockedWithoutKey(entry, ops) <==> (LockedWithoutKey(entry, init) && !Repairs(last)) || UnwrittenAt(entry, ops, n)
  {
    var init, last, n := ops[..|ops| - 1], ops[|ops| - 1], |ops| - 1;
    forall k | 0 <= k < n ensures UnwrittenAt(entry, ops, k) <==> UnwrittenAt(entry, init, k) {
      assert ops[..k] == init[..k];
    }
    forall k | 0 <= k < n ensures RepairedAfter(ops, k) <==> RepairedAfter(init, k) || Repairs(last) {
      if j :| k < j < |ops| && Repairs(ops[j]) {
        assert j < n ==> Repairs(init[j]);
      }
      if j :| k < j < |init| && Repairs(init[j]) {
        assert Repairs(ops[j]);
      }
    }
    if k :| UnwrittenAt(entry, init, k) && !RepairedAfter(init, k) && !Repairs(last) {
      assert UnwrittenAt(entry, ops, k) && !RepairedAfter(ops, k);
    }
    if k :| UnwrittenAt(entry, ops, k) && !RepairedAfter(ops, k) {
      if k < n {
        assert UnwrittenAt(entry, init, k) && !RepairedAfter(init, k);
      }
    }
  }

  // One unwritten pin is enough.
  lemma FirstPinIsLost() returns (ops: seq<Op>)
    ensures ops == [EnableLock("1234", true, false)]
    ensures NoPinOpens(Run(LockState(false, false, None), ops)) && LockedWithoutKey(None, ops)
  {
    ops := [EnableLock("1234", true, false)];
    assert ops[..0] == [];
    assert Run(LockState(false, false, None), ops) == LockState(true, true, None);
    NoPinOpensExactlyWhen(None, ops);
  }

  // ---- Which pin opens ----

  // The operation stores the pin, or removes the one there is.
  predicate StoresPin(op: Op, pin: string) {
    op.EnableLock? && op.pin == pin && |pin| >= 4 && op.opens && op.writes
  }

  predicate ChangesEntry(op: Op) {
    (op.EnableLock? && StoresPin(op, op.pin)) || (op.DisableLock? && op.opens && op.removes)
  }

  predicate StoredAt(ops: seq<Op>, k: int, pin: string) {
    0 <= k < |ops| && StoresPin(ops[k], pin)
  }

  predicate ChangedAt(ops: seq<Op>, k: int) {
    0 <= k < |ops| && ChangesEntry(ops[k])
  }

  // The pin is the last one written and was not removed, or was there from the start.
  ghost predicate LastWritten(entry: Option<string>, ops: seq<Op>, pin: string) {
    || (exists k :: StoredAt(ops, k, pin) && forall j :: k < j ==> !ChangedAt(ops, j))
    || (entry == Some(pin) && forall j :: !ChangedAt(ops, j))
  }

  lemma {:induction false} EntryIsLastWritten(s: LockState, ops: seq<Op>, pin: string)
    ensures Run(s, ops).entry == Some(pin) <==> LastWritten(s.entry, ops, pin)
  {
    if ops == [] {
      assert forall j :: !ChangedAt(ops, j);
    } else {
      EntryIsLastWritten(s, ops[..|ops| - 1], pin);
      LastWrittenOneMore(s.entry, ops, pin);
    }
  }

  lemma LastWrittenOneMore(entry: Option<string>, ops: seq<Op>, pin: string)
    requires ops != []
    ensures LastWritten(entry, ops, pin) <==>
      StoresPin(ops[|ops| - 1], pin)
      || (!ChangesEntry(ops[|ops| - 1]) && LastWritten(entry, ops[..|ops| - 1], pin))
  {
    var init, n := ops[..|ops| - 1], |ops| - 1;
    assert forall k :: k < n ==> StoredAt(ops, k, pin) == StoredAt(init, k, pin);
    assert forall k :: k < n ==> ChangedAt(ops, k) == ChangedAt(init, k);
    if StoresPin(ops[n], pin) {
      assert StoredAt(ops, n, pin) && forall j :: n < j ==> !ChangedAt(ops, j);
    } else if ChangesEntry(ops[n]) {
      assert ChangedAt(ops, n);
    } else {
      assert forall j :: ChangedAt(ops, j) == ChangedAt(init, j);
      assert forall k :: StoredAt(ops, k, pin) == StoredAt(init, k, pin);
    }
  }

  // In every run the pin that opens a lock is the last one the wallet really took, which need
  // not be the last one that was set.
  lemma LastWrittenPinOpens(entry: Option<string>, ops: seq<Op>, pin: string)
    ensures var s := Run(LockState(false, false, entry), ops);
      s.locked ==> (!Step(s, Unlock(pin, true)).locked <==> LastWritten(entry, ops, pin))
  {
    EntryIsLastWritten(LockState(false, false, entry), ops, pin);
  }

  // A pin that could not be written opens the lock, then and until the next change, exactly
  // when the wallet held that very pin before. The old pin goes on opening it.
  lemma UnwrittenPinOpensExactlyWhen(s: LockState, pin: string, ops: seq<Op>, p: string)
    requires |pin| >= 4 && forall k :: 0 <= k < |ops| ==> !ChangesEntry(ops[k])
    ensures var now := Run(Step(s, EnableLock(pin, true, false)), ops);
      now.entry == s.entry && (now.locked ==> (!Step(now, Unlock(p, true)).locked <==> s.entry == Some(p)))
  {
    EntryStays(Step(s, EnableLock(pin, true, false)), ops);
  }

  lemma {:induction false} EntryStays(s: LockState, ops: seq<Op>)
    requires forall k :: 0 <= k < |ops| ==> !ChangesEntry(ops[k])
    ensures Run(s, ops).entry == s.entry
  {
    if ops != [] {
      EntryStays(s, ops[..|ops| - 1]);
    }
  }

  // ---- Both flags, read off the operations ----

  function Before(entry: Option<string>, ops: seq<Op>, k: nat): LockState
    requires k <= |ops|
  {
    Run(LockState(false, false, entry), ops[..k])
  }

  predicate Locks(entry: Option<string>, ops: seq<Op>, k: nat) {
    k < |ops| &&
      match ops[k]
      case EnableLock(pin, opens, _) => opens && |pin| >= 4
      case Lock => Before(entry, ops, k).enabled
      case InitializeState(opens) => opens && Before(entry, ops, k).entry.Some?
      case _ => false
  }

  predicate Unlocks(entry: Option<string>, ops: seq<Op>, k: nat) {
    k < |ops| &&
      match ops[k]
      case Unlock(pin, opens) => opens && Before(entry, ops, k).entry == Some(pin)
      case DisableLock(opens, _) => opens
      case InitializeState(opens) => opens && Before(entry, ops, k).entry.None?
      case _ => false
  }

  predicate Enables(entry: Option<string>, ops: seq<Op>, k: nat) {
    k < |ops| && !ops[k].Lock? && Locks(entry, ops, k)
  }

  predicate Disables(entry: Option<string>, ops: seq<Op>, k: nat) {
    k < |ops| && !ops[k].Unlock? && Unlocks(entry, ops, k)
  }

  lemma StepBefore(entry: Option<string>, ops: seq<Op>, k: nat)
    requires k < |ops|
    ensures Before(entry, ops, k + 1) == Step(Before(entry, ops, k), ops[k])
  {
    assert ops[..k + 1][..k] == ops[..k];
  }

  lemma SameInPrefix(entry: Option<string>, ops: seq<Op>, k: nat)
    requires k < |ops| - 1
    ensures Locks(entry, ops, k) == Locks(entry, ops[..|ops| - 1], k)
    ensures Unlocks(entry, ops, k) == Unlocks(entry, ops[..|ops| - 1], k)
  {
    assert ops[..|ops| - 1][..k] == ops[..k];
  }

  // Something among the first n operations raised the flag and nothing lowered it since.
  ghost predicate RaisedLast(raises: nat -> bool, lowers: nat -> bool, n: nat) {
    exists k: nat :: k < n && raises(k) && NotIn(lowers, k, n)
  }

  ghost predicate NotIn(lowers: nat -> bool, k: nat, n: nat) {
    forall j: nat :: k < j < n ==> !lowers(j)
  }

  lemma RaisedLastOneMore(raises: nat -> bool, lowers: nat -> bool, n: nat)
    ensures RaisedLast(raises, lowers, n + 1) <==> raises(n) || (RaisedLast(raises, lowers, n) && !lowers(n))
  {
    if raises(n) {
      assert NotIn(lowers, n, n + 1);
    }
    if k: nat :| k < n && raises(k) && NotIn(lowers, k, n) && !lowers(n) {
      assert NotIn(lowers, k, n + 1);
    }
    if k: nat :| k < n + 1 && raises(k) && NotIn(lowers, k, n + 1) {
      assert NotIn(lowers, k, n);
    }
  }

  lemma RaisedLastAlike(raises: nat -> bool, lowers: nat -> bool, raises': nat -> bool, lowers': nat -> bool, n: nat)
    requires forall k: nat :: k < n ==> raises(k) == raises'(k) && lowers(k) == lowers'(k)
    ensures RaisedLast(raises, lowers, n) ==> RaisedLast(raises', lowers', n)
  {
    if k: nat :| k < n && raises(k) && NotIn(lowers, k, n) {
      assert raises'(k) && NotIn(lowers', k, n);
    }
  }

  function LocksIn(entry: Option<string>, ops: seq<Op>): nat -> bool { (k: nat) => Locks(entry, ops, k) }

  function UnlocksIn(entry: Option<string>, ops: seq<Op>): nat -> bool { (k: nat) => Unlocks(entry, ops, k) }

  function EnablesIn(entry: Option<string>, ops: seq<Op>): nat -> bool { (k: nat) => Enables(entry, ops, k) }

  function DisablesIn(entry: Option<string>, ops: seq<Op>): nat -> bool { (k: nat) => Disables(entry, ops, k) }

  ghost predicate LockedLast(entry: Option<string>, ops: seq<Op>) {
    RaisedLast(LocksIn(entry, ops), UnlocksIn(entry, ops), |ops|)
  }

  ghost predicate EnabledLast(entry: Option<string>, ops: seq<Op>) {
    RaisedLast(EnablesIn(entry, ops), DisablesIn(entry, ops), |ops|)
  }

  lemma LockedOneMore(entry: Option<string>, ops: seq<Op>)
    requires ops != []
    ensures var init, n := ops[..|ops| - 1], |ops| - 1;
      LockedLast(entry, ops) <==> Locks(entry, ops, n) || (LockedLast(entry, init) && !Unlocks(entry, ops, n))
  {
    var init, n := ops[..|ops| - 1], |ops| - 1;
    forall k: nat | k < n
      ensures Locks(entry, ops, k) == Locks(entry, init, k) && Unlocks(entry, ops, k) == Unlocks(entry, init, k)
    {
      SameInPrefix(entry, ops, k);
    }
    RaisedLastOneMore(LocksIn(entry, ops), UnlocksIn(entry, ops), n);
    RaisedLastAlike(LocksIn(entry, ops), UnlocksIn(entry, ops), LocksIn(entry, init), UnlocksIn(entry, init), n);
    RaisedLastAlike(LocksIn(entry, init), UnlocksIn(entry, init), LocksIn(entry, ops), UnlocksIn(entry, ops), n);
  }

  lemma EnabledOneMore(entry: Option<string>, ops: seq<Op>)
    requires ops != []
    ensures var init, n := ops[..|ops| - 1], |ops| - 1;
      EnabledLast(entry, ops) <==> Enables(entry, ops, n) || (EnabledLast(entry, init) && !Disables(entry, ops, n))
  {
    var init, n := ops[..|ops| - 1], |ops| - 1;
    forall k: nat | k < n
      ensures Enables(entry, ops, k) == Enables(entry, init, k) && Disables(entry, ops, k) == Disables(entry, init, k)
    {
      SameInPrefix(entry, ops, k);
    }
    RaisedLastOneMore(EnablesIn(entry, ops), DisablesIn(entry, ops), n);
    RaisedLastAlike(EnablesIn(entry, ops), DisablesIn(entry, ops), EnablesIn(entry, init), DisablesIn(entry, init), n);
    RaisedLastAlike(EnablesIn(entry, init), DisablesIn(entry, init), EnablesIn(entry, ops), DisablesIn(entry, ops), n);
  }

  // In every run: with a closed wallet or a short pin nothing changes, and only the operations
  // listed raise or lower a flag.
  lemma {:induction false} FlagsAreReadOffTheLog(entry: Option<string>, ops: seq<Op>)
    ensures Run(LockState(false, false, entry), ops).locked <==> LockedLast(entry, ops)
    ensures Run(LockState(false, false, entry), ops).enabled <==> EnabledLast(entry, ops)
  {
    if ops != [] {
      FlagsAreReadOffTheLog(entry, ops[..|ops| - 1]);
      LockedOneMore(entry, ops);
      EnabledOneMore(entry, ops);
      StepBefore(entry, ops, |ops| - 1);
      assert ops[..|ops|] == ops;
    }
  }
}

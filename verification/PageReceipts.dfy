// When the chat page of app/qml/ChatPage.qml shows the stored receipt of a message: which step
// last wrote the item, what happened in the store since, and what is still on its way.
module PageReceipts {
  import opened Sequences
  import opened Store
  import opened Events

  predicate Shows(items: seq<Item>, id: string) {
    FirstItem(items, id) < |items|
  }

  function ShownReceipt(items: seq<Item>, id: string): int
    requires Shows(items, id)
  {
    items[FirstItem(items, id)].receipt
  }

  function StoredReceipt(log: seq<Op>, id: string): int {
    if Lookup(Run(log), id).Some? then Lookup(Run(log), id).value.receipt else 0
  }

  predicate Agrees(s: State, id: string) {
    Shows(s.shown, id) && ShownReceipt(s.shown, id) == StoredReceipt(s.log, id)
  }

  predicate Acknowledges(x: Signal, id: string) {
    x.MessageAcknowledged? && x.id == id
  }

  predicate DeliversAcknowledgement(s: State, step: Step, id: string) {
    step.Deliver? && s.seen < |s.emitted| && Acknowledges(s.emitted[s.seen], id)
  }

  // The step writes the first item of the id: it loads a page with the id, or delivers an
  // acknowledgement while the id is shown.
  predicate Writes(s: State, step: Step, id: string) {
    || (step.LoadPage? && Shows(step.items, id))
    || (DeliversAcknowledgement(s, step, id) && Shows(s.shown, id))
  }

  // onMessageAcknowledged puts a receipt on the page that is not the stored one.
  predicate Overwrites(s: State, step: Step, id: string) {
    DeliversAcknowledgement(s, step, id) && s.emitted[s.seen].receipt != StoredReceipt(s.log, id)
  }

  // A handler is about to store a higher receipt.
  predicate Raises(s: State, step: Step, id: string) {
    && step.UpdateNext? && step.h in s.handlers && s.handlers[step.h].Updating?
    && var u := s.handlers[step.h];
      u.next < |u.ids| && u.ids[u.next] == id && MapReceiptType(u.kind) > StoredReceipt(s.log, id)
  }

  // ---- Single steps ----

  lemma {:induction false} FirstItemOfConcat(a: seq<Item>, b: seq<Item>, id: string)
    ensures FirstItem(a + b, id) == if Shows(a, id) then FirstItem(a, id) else |a| + FirstItem(b, id)
  {
    if a == [] {
      assert a + b == b;
    } else {
      assert (a + b)[1..] == a[1..] + b;
      FirstItemOfConcat(a[1..], b, id);
    }
  }

  // Changing the receipt of one item moves no item.
  lemma {:induction false} FirstItemAfterUpdate(items: seq<Item>, k: nat, receipt: int, id: string)
    requires k < |items|
    ensures FirstItem(items[k := Item(items[k].id, receipt)], id) == FirstItem(items, id)
  {
    if k > 0 {
      assert items[k := Item(items[k].id, receipt)][1..] == items[1..][k - 1 := Item(items[k].id, receipt)];
      FirstItemAfterUpdate(items[1..], k - 1, receipt, id);
    } else {
      assert items[k := Item(items[k].id, receipt)][1..] == items[1..];
    }
  }

  lemma AcknowledgedItem(items: seq<Item>, x: string, receipt: int, id: string)
    ensures Shows(Acknowledge(items, x, receipt), id) <==> Shows(items, id)
    ensures Shows(items, id) ==>
      ShownReceipt(Acknowledge(items, x, receipt), id) == if x == id then receipt else ShownReceipt(items, id)
  {
    var k := FirstItem(items, x);
    if k < |items| {
      FirstItemAfterUpdate(items, k, receipt, id);
    }
  }

  lemma LoadedItem(s: State, step: Step, id: string)
    requires Enabled(s, step) && step.LoadPage? && Shows(step.items, id)
    ensures Shows(Next(s, step).shown, id)
    ensures ShownReceipt(Next(s, step).shown, id) == StoredReceipt(s.log, id)
  {
    FirstItemOfConcat(step.items, s.shown, id);
  }

  // A page just loaded agrees with the store; a delivery agrees if it brings what is stored.
  lemma WritingStep(s: State, step: Step, id: string)
    requires Enabled(s, step) && Writes(s, step, id)
    ensures Shows(Next(s, step).shown, id) && Next(s, step).log == s.log
    ensures Agrees(Next(s, step), id) <==> !Overwrites(s, step, id)
  {
    if step.LoadPage? {
      LoadedItem(s, step, id);
    } else {
      AcknowledgedItem(s.shown, s.emitted[s.seen].id, s.emitted[s.seen].receipt, id);
    }
  }

  // After a reload the page holds what was loaded and agrees with the store throughout.
  lemma ReloadAgrees(s: State, step: Step, id: string)
    requires Enabled(s, step) && step.LoadPage? && step.reload
    ensures Shows(Next(s, step).shown, id) <==> exists j :: 0 <= j < |step.items| && step.items[j].id == id
    ensures Shows(Next(s, step).shown, id) ==> Agrees(Next(s, step), id)
  {
    NoneBefore(step.items, id);
  }

  lemma {:induction false} NoneBefore(items: seq<Item>, id: string)
    ensures forall j :: 0 <= j < FirstItem(items, id) ==> items[j].id != id
  {
    if items != [] && items[0].id != id {
      NoneBefore(items[1..], id);
    }
  }

  lemma OtherStepKeepsTheItem(s: State, step: Step, id: string)
    requires Enabled(s, step) && !Writes(s, step, id) && Shows(Next(s, step).shown, id)
    ensures Shows(s.shown, id) && ShownReceipt(Next(s, step).shown, id) == ShownReceipt(s.shown, id)
  {
    if step.LoadPage? {
      assert !step.reload;
      FirstItemOfConcat(step.items, s.shown, id);
    } else if step.Deliver? && s.emitted[s.seen].MessageAcknowledged? {
      AcknowledgedItem(s.shown, s.emitted[s.seen].id, s.emitted[s.seen].receipt, id);
    }
  }

  lemma ReceiptAfterOperation(log: seq<Op>, op: Op, id: string)
    requires Lookup(Run(log), id).Some?
    ensures Lookup(Run(log + [op]), id).Some?
    ensures StoredReceipt(log + [op], id) ==
      if op.UpdateReceipt? && op.id == id then Max(StoredReceipt(log, id), op.receipt)
      else if op.Save? && op.msg.id == id then Max(StoredReceipt(log, id), op.msg.receipt)
      else StoredReceipt(log, id)
  {
    RunOneMore(log, op, id);
  }

  lemma UpdateStoresTheMaximum(s: State, step: Step, id: string)
    requires Enabled(s, step) && step.UpdateNext? && Lookup(Run(s.log), id).Some?
    ensures StoredReceipt(Next(s, step).log, id) >= StoredReceipt(s.log, id)
    ensures StoredReceipt(Next(s, step).log, id) == StoredReceipt(s.log, id) <==> !Raises(s, step, id)
  {
    var u := s.handlers[step.h];
    if u.next < |u.ids| {
      ReceiptAfterOperation(s.log, UpdateReceipt(u.ids[u.next], MapReceiptType(u.kind)), id);
    }
  }

  lemma OtherStepsStoreNoReceipt(s: State, step: Step, id: string)
    requires Enabled(s, step) && !step.UpdateNext? && Lookup(Run(s.log), id).Some? && StoredReceipt(s.log, id) >= 0
    ensures StoredReceipt(Next(s, step).log, id) == StoredReceipt(s.log, id)
  {
    LogGrowsByOne(s, step);
    var t := Next(s, step);
    if t.log != s.log {
      assert !t.log[|s.log|].UpdateReceipt? && (t.log[|s.log|].Save? ==> t.log[|s.log|].msg.receipt == 0);
      ReceiptAfterOperation(s.log, t.log[|s.log|], id);
    }
  }

  // The stored receipt changes in the steps that raise it and in no other.
  lemma StoredReceiptStep(s: State, step: Step, id: string)
    requires Enabled(s, step) && SavesCarryNoReceipt(s.log) && Lookup(Run(s.log), id).Some?
    ensures StoredReceipt(Next(s, step).log, id) >= StoredReceipt(s.log, id)
    ensures StoredReceipt(Next(s, step).log, id) == StoredReceipt(s.log, id) <==> !Raises(s, step, id)
  {
    if step.UpdateNext? {
      UpdateStoresTheMaximum(s, step, id);
    } else {
      StoredReceiptWasHandled(s.log, id);
      OtherStepsStoreNoReceipt(s, step, id);
    }
  }

  // ---- Whole runs ----

  // Step e is the last one before state i that wrote the item.
  ghost predicate LastWriter(run: seq<State>, steps: seq<Step>, e: nat, i: nat, id: string)
    requires i <= |steps| < |run|
  {
    e < i && Writes(run[e], steps[e], id) && forall k :: e < k < i ==> !Writes(run[k], steps[k], id)
  }

  lemma {:induction false} ShownItemHasAWriter(run: seq<State>, steps: seq<Step>, i: nat, id: string) returns (e: nat)
    requires IsRun(run, steps) && i < |run| && Shows(run[i].shown, id)
    ensures LastWriter(run, steps, e, i, id)
  {
    assert i > 0;
    if Writes(run[i - 1], steps[i - 1], id) {
      e := i - 1;
    } else {
      OtherStepKeepsTheItem(run[i - 1], steps[i - 1], id);
      e := ShownItemHasAWriter(run, steps, i - 1, id);
    }
  }

  ghost predicate RaisedBetween(run: seq<State>, steps: seq<Step>, e: nat, i: nat, id: string)
    requires i <= |steps| < |run|
  {
    exists k :: e < k < i && Raises(run[k], steps[k], id)
  }

  lemma InOrderBefore(s: State, step: Step, id: string)
    requires Enabled(s, step) && InOrder(Next(s, step).log, id)
    ensures InOrder(s.log, id)
  {
    LogGrowsByOne(s, step);
    if Next(s, step).log != s.log {
      InOrderEarlier(s.log, Next(s, step).log[|s.log|], id);
    }
  }

  lemma FirstShownIsNotAhead(run: seq<State>, steps: seq<Step>, i: nat, id: string)
    requires IsRun(run, steps) && i < |run| && Shows(run[i].shown, id) && InOrder(run[i].log, id)
    ensures Lookup(Run(run[i].log), id).Some?
    ensures ShownReceipt(run[i].shown, id) <= StoredReceipt(run[i].log, id)
  {
    PageIsNeverAheadOfTheStore(run, steps, i);
    assert NotAhead(run[i].log, run[i].shown[FirstItem(run[i].shown, id)]);
  }

  ghost predicate ShownInOrder(s: State, id: string) {
    Shows(s.shown, id) && InOrder(s.log, id)
  }

  lemma OneStepBack(run: seq<State>, steps: seq<Step>, k: nat, id: string)
    requires IsRun(run, steps) && k < |steps| && !Writes(run[k], steps[k], id) && ShownInOrder(run[k + 1], id)
    ensures ShownInOrder(run[k], id)
  {
    OtherStepKeepsTheItem(run[k], steps[k], id);
    InOrderBefore(run[k], steps[k], id);
  }

  lemma {:induction false} Backward(p: nat -> bool, from: nat, to: nat, j: nat)
    requires from <= j <= to && p(to)
    requires forall k :: from <= k < to && p(k + 1) ==> p(k)
    ensures p(j)
  {
    if j < to {
      Backward(p, from, to - 1, j);
    }
  }

  lemma {:induction false} Forward(p: nat -> bool, from: nat, to: nat)
    requires from <= to && p(from)
    requires forall k :: from <= k < to && p(k) ==> p(k + 1)
    ensures p(to)
  {
    if from < to {
      Forward(p, from, to - 1);
    }
  }

  // From its last write on the item is there.
  lemma ShownSinceTheWriter(run: seq<State>, steps: seq<Step>, e: nat, j: nat, i: nat, id: string)
    requires IsRun(run, steps) && e < j <= i < |run| && LastWriter(run, steps, e, i, id) && ShownInOrder(run[i], id)
    ensures ShownInOrder(run[j], id)
  {
    var p := (k: nat) => k < |run| && ShownInOrder(run[k], id);
    forall k | e + 1 <= k < i && p(k + 1) ensures p(k) {
      OneStepBack(run, steps, k, id);
    }
    Backward(p, e + 1, i, j);
    assert p(j);
  }

  lemma AgreementStep(run: seq<State>, steps: seq<Step>, k: nat, id: string)
    requires IsRun(run, steps) && k < |steps| && !Writes(run[k], steps[k], id)
    requires ShownInOrder(run[k], id) && ShownInOrder(run[k + 1], id)
    ensures Agrees(run[k + 1], id) <==> Agrees(run[k], id) && !Raises(run[k], steps[k], id)
  {
    FirstShownIsNotAhead(run, steps, k, id);
    RunSavesCarryNoReceipt(run, steps, k);
    OtherStepKeepsTheItem(run[k], steps[k], id);
    StoredReceiptStep(run[k], steps[k], id);
  }

  lemma {:induction false} KeptExactlyWhen(good: nat -> bool, bad: nat -> bool, from: nat, to: nat)
    requires from <= to
    requires forall k :: from <= k < to ==> (good(k + 1) <==> good(k) && !bad(k))
    ensures good(to) <==> good(from) && forall k :: from <= k < to ==> !bad(k)
  {
    if from < to {
      KeptExactlyWhen(good, bad, from, to - 1);
    }
  }

  lemma AgreementSinceTheWriter(run: seq<State>, steps: seq<Step>, e: nat, k: nat, i: nat, id: string)
    requires IsRun(run, steps) && e < k < i < |run| && LastWriter(run, steps, e, i, id) && ShownInOrder(run[i], id)
    ensures Agrees(run[k + 1], id) <==> Agrees(run[k], id) && !Raises(run[k], steps[k], id)
  {
    ShownSinceTheWriter(run, steps, e, k, i, id);
    ShownSinceTheWriter(run, steps, e, k + 1, i, id);
    AgreementStep(run, steps, k, id);
  }

  lemma AgreesSinceTheWriter(run: seq<State>, steps: seq<Step>, e: nat, i: nat, id: string)
    requires IsRun(run, steps) && i < |run| && LastWriter(run, steps, e, i, id) && ShownInOrder(run[i], id)
    ensures Agrees(run[i], id) <==> Agrees(run[e + 1], id) && !RaisedBetween(run, steps, e, i, id)
  {
    var good := (k: nat) => k < |run| && Agrees(run[k], id);
    var bad := (k: nat) => k < |steps| && Raises(run[k], steps[k], id);
    forall k | e + 1 <= k < i ensures good(k + 1) <==> good(k) && !bad(k) {
      AgreementSinceTheWriter(run, steps, e, k, i, id);
    }
    KeptExactlyWhen(good, bad, e + 1, i);
    assert good(i) == Agrees(run[i], id) && good(e + 1) == Agrees(run[e + 1], id);
    BadMeansRaised(run, steps, e, i, id, bad);
    if RaisedBetween(run, steps, e, i, id) {
      assert !good(i);
    } else {
      assert good(i) == good(e + 1);
    }
  }

  lemma BadMeansRaised(run: seq<State>, steps: seq<Step>, e: nat, i: nat, id: string, bad: nat -> bool)
    requires i <= |steps| < |run|
    requires forall k: nat :: k < i ==> bad(k) == Raises(run[k], steps[k], id)
    ensures RaisedBetween(run, steps, e, i, id) <==> !(forall k :: e + 1 <= k < i ==> !bad(k))
  {
    if !(forall k :: e + 1 <= k < i ==> !bad(k)) {
      var k :| e + 1 <= k < i && bad(k);
      assert Raises(run[k], steps[k], id);
    }
  }

  // In every interleaving, for every shown message whose receipts were handled after its row
  // was saved: the page shows the stored receipt if and only if the step that last wrote the
  // item did not put another receipt there and the store has not been raised since.
  lemma PageEqualsTheStoreExactlyWhen(run: seq<State>, steps: seq<Step>, i: nat, id: string) returns (e: nat)
    requires IsRun(run, steps) && i < |run| && Shows(run[i].shown, id) && InOrder(run[i].log, id)
    ensures LastWriter(run, steps, e, i, id) && Lookup(Run(run[i].log), id).Some?
    ensures Agrees(run[i], id) <==>
      !Overwrites(run[e], steps[e], id) && !RaisedBetween(run, steps, e, i, id)
  {
    e := ShownItemHasAWriter(run, steps, i, id);
    FirstShownIsNotAhead(run, steps, i, id);
    WritingStep(run[e], steps[e], id);
    AgreesSinceTheWriter(run, steps, e, i, id);
  }

  // ---- Nothing on its way ----

  predicate Announces(e: Event, id: string) {
    e.Receipt? && MapReceiptType(e.kind) > 0 && id in e.ids
  }

  // The handler has stored a receipt for the id and not sent its event yet.
  predicate HandlerOwes(h: Handler, id: string) {
    match h
    case Updating(ids, kind, n) => MapReceiptType(kind) > 0 && n <= |ids| && id in ids[..n]
    case Sending(e) => Announces(e, id)
  }

  predicate LoopOwes(l: Loop, id: string) {
    l.Processing? && Announces(l.event, id) && l.next <= |l.event.ids| && id in l.event.ids[l.next..]
  }

  // An acknowledgement for the id is on its way from its handler to the page.
  ghost predicate InFlight(s: State, id: string) {
    || (exists h :: h in s.handlers && HandlerOwes(s.handlers[h], id))
    || (exists j :: 0 <= j < |s.queue| && Announces(s.queue[j], id))
    || LoopOwes(s.loop, id)
    || (exists j :: s.seen <= j < |s.emitted| && Acknowledges(s.emitted[j], id))
  }

  // The full channel swallows it.
  predicate Drops(s: State, step: Step, id: string) {
    && step.TrySend? && |s.queue| >= CAPACITY
    && step.h in s.handlers && s.handlers[step.h].Sending? && Announces(s.handlers[step.h].event, id)
  }

  lemma RaiseIsInFlight(s: State, step: Step, id: string)
    requires Enabled(s, step) && Raises(s, step, id) && StoredReceipt(s.log, id) >= 0
    ensures InFlight(Next(s, step), id)
  {
    var t, u := Next(s, step), s.handlers[step.h];
    assert t.handlers[step.h] == u.(next := u.next + 1);
    assert u.ids[..u.next + 1][u.next] == id;
    assert step.h in t.handlers && HandlerOwes(t.handlers[step.h], id);
  }

  lemma HandlerStaysInFlight(s: State, step: Step, id: string, h: nat)
    requires Enabled(s, step) && h in s.handlers && HandlerOwes(s.handlers[h], id) && !Drops(s, step, id)
    ensures InFlight(Next(s, step), id)
  {
    var t := Next(s, step);
    if step == TrySend(h) {
      assert t.queue[|s.queue|] == s.handlers[h].event;
    } else if step == UpdateNext(h) {
      var u := s.handlers[h];
      if u.next < |u.ids| {
        assert u.ids[..u.next + 1] == u.ids[..u.next] + [u.ids[u.next]];
      } else {
        assert u.ids[..u.next] == u.ids;
      }
      assert h in t.handlers && HandlerOwes(t.handlers[h], id);
    } else {
      assert h in t.handlers && t.handlers[h] == s.handlers[h];
    }
  }

  lemma QueuedStaysInFlight(s: State, step: Step, id: string, j: nat)
    requires Enabled(s, step) && j < |s.queue| && Announces(s.queue[j], id)
    ensures InFlight(Next(s, step), id)
  {
    var t := Next(s, step);
    if step.Receive? {
      if j == 0 {
        assert s.queue[0].ids[0..] == s.queue[0].ids;
        assert LoopOwes(t.loop, id);
      } else {
        assert t.queue[j - 1] == s.queue[j];
      }
    } else {
      assert j < |t.queue| && t.queue[j] == s.queue[j];
    }
  }

  lemma LoopStaysInFlight(s: State, step: Step, id: string)
    requires Enabled(s, step) && LoopOwes(s.loop, id) && s.seen <= |s.emitted|
    ensures InFlight(Next(s, step), id)
  {
    var t := Next(s, step);
    if step.Process? {
      var ids, n := s.loop.event.ids, s.loop.next;
      assert ids[n..] == [ids[n]] + ids[n + 1..];
      if ids[n] == id {
        assert Acknowledges(t.emitted[|s.emitted|], id);
      } else {
        assert LoopOwes(t.loop, id);
      }
    } else {
      assert t.loop == s.loop;
    }
  }

  lemma EmittedStaysInFlight(s: State, step: Step, id: string, j: nat)
    requires Enabled(s, step) && s.seen <= j < |s.emitted| && Acknowledges(s.emitted[j], id)
    requires !DeliversAcknowledgement(s, step, id)
    ensures InFlight(Next(s, step), id)
  {
    var t := Next(s, step);
    assert j < |t.emitted| && t.emitted[j] == s.emitted[j];
    assert t.seen <= j;
  }

  // What is on its way stays so until it reaches the page or is dropped.
  lemma InFlightStays(s: State, step: Step, id: string)
    requires Enabled(s, step) && InFlight(s, id) && s.seen <= |s.emitted|
    requires !Drops(s, step, id) && !DeliversAcknowledgement(s, step, id)
    ensures InFlight(Next(s, step), id)
  {
    if h :| h in s.handlers && HandlerOwes(s.handlers[h], id) {
      HandlerStaysInFlight(s, step, id, h);
    } else if j :| 0 <= j < |s.queue| && Announces(s.queue[j], id) {
      QueuedStaysInFlight(s, step, id, j);
    } else if LoopOwes(s.loop, id) {
      LoopStaysInFlight(s, step, id);
    } else {
      var j :| s.seen <= j < |s.emitted| && Acknowledges(s.emitted[j], id);
      EmittedStaysInFlight(s, step, id, j);
    }
  }

  lemma {:induction false} SeenWasEmitted(run: seq<State>, steps: seq<Step>, i: nat)
    requires IsRun(run, steps) && i < |run|
    ensures run[i].seen <= |run[i].emitted|
  {
    if i > 0 {
      SeenWasEmitted(run, steps, i - 1);
      assert Enabled(run[i - 1], steps[i - 1]);
    }
  }

  ghost predicate Undisturbed(run: seq<State>, steps: seq<Step>, k: nat, i: nat, id: string)
    requires i <= |steps| < |run|
  {
    forall j :: k < j < i ==> !Drops(run[j], steps[j], id) && !DeliversAcknowledgement(run[j], steps[j], id)
  }

  // A raised receipt is on its way unless a later step dropped or delivered an
  // acknowledgement for the id.
  lemma RaisedReceiptIsInFlight(run: seq<State>, steps: seq<Step>, k: nat, i: nat, id: string)
    requires IsRun(run, steps) && k < i < |run| && Raises(run[k], steps[k], id) && StoredReceipt(run[k].log, id) >= 0
    requires Undisturbed(run, steps, k, i, id)
    ensures InFlight(run[i], id)
  {
    RaiseIsInFlight(run[k], steps[k], id);
    var p := (j: nat) => j < |run| && InFlight(run[j], id);
    forall j | k + 1 <= j < i && p(j) ensures p(j + 1) {
      SeenWasEmitted(run, steps, j);
      InFlightStays(run[j], steps[j], id);
    }
    Forward(p, k + 1, i);
    assert p(i);
  }

  ghost predicate HasDropped(s: State, id: string) {
    exists d :: d in s.dropped && Announces(d, id)
  }

  lemma DropsAreRecorded(run: seq<State>, steps: seq<Step>, j: nat, i: nat, id: string)
    requires IsRun(run, steps) && j < i < |run| && Drops(run[j], steps[j], id)
    ensures HasDropped(run[i], id)
  {
    var p := (k: nat) => k < |run| && HasDropped(run[k], id);
    forall k | j + 1 <= k < i && p(k) ensures p(k + 1) {
    }
    Forward(p, j + 1, i);
    assert p(i);
  }

  // A receipt that was raised after the last write of a shown item is still on its way, unless
  // the channel dropped it: no delivery can have come since.
  lemma RaisedSinceTheWriter(run: seq<State>, steps: seq<Step>, e: nat, i: nat, id: string)
    requires IsRun(run, steps) && i < |run| && LastWriter(run, steps, e, i, id) && ShownInOrder(run[i], id)
    requires RaisedBetween(run, steps, e, i, id)
    ensures InFlight(run[i], id) || HasDropped(run[i], id)
  {
    var k :| e < k < i && Raises(run[k], steps[k], id);
    ShownSinceTheWriter(run, steps, e, k, i, id);
    FirstShownIsNotAhead(run, steps, k, id);
    RunSavesCarryNoReceipt(run, steps, k);
    StoredReceiptWasHandled(run[k].log, id);
    if j :| k < j < i && Drops(run[j], steps[j], id) {
      DropsAreRecorded(run, steps, j, i, id);
    } else {
      forall j | k < j < i ensures !DeliversAcknowledgement(run[j], steps[j], id) {
        ShownSinceTheWriter(run, steps, e, j, i, id);
      }
      RaisedReceiptIsInFlight(run, steps, k, i, id);
    }
  }

  // Once nothing is on its way and nothing was dropped, the last write alone decides: the page
  // shows the stored receipt unless a late delivery put another one there.
  lemma SettledPageEqualsTheStoreExactlyWhen(run: seq<State>, steps: seq<Step>, i: nat, id: string) returns (e: nat)
    requires IsRun(run, steps) && i < |run| && Shows(run[i].shown, id) && InOrder(run[i].log, id)
    requires !InFlight(run[i], id) && !HasDropped(run[i], id)
    ensures LastWriter(run, steps, e, i, id)
    ensures Agrees(run[i], id) <==> !Overwrites(run[e], steps[e], id)
  {
    e := PageEqualsTheStoreExactlyWhen(run, steps, i, id);
    if RaisedBetween(run, steps, e, i, id) {
      RaisedSinceTheWriter(run, steps, e, i, id);
    }
  }

  // Nothing is on its way in a state in which handlers, channel and loop are idle and the page
  // has seen every signal.
  lemma QuietMeansNothingInFlight(s: State, id: string)
    requires s.handlers == map[] && s.queue == [] && !s.loop.Processing? && s.seen == |s.emitted|
    ensures !InFlight(s, id)
  {
  }
}

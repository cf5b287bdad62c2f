// The list algorithms of app/qml/ChatPage.qml over GetMessages of daemon/dbus/service.go.
module ChatPages {
  import opened Sequences
  import opened Sorting
  import opened Messages
  import opened Store
  import opened Queries

  // GetMessages replaces a limit that is not positive by 50 and a negative offset by 0.
  function GetMessages(t: Table, jid: string, limit: int, offset: int): Table {
    Page(t, jid, if limit <= 0 then 50 else limit, if offset < 0 then 0 else offset)
  }

  // Unlike the store query, GetMessages never returns an unbounded page.
  lemma PagesAreBounded(t: Table, jid: string, limit: int, offset: int)
    ensures |GetMessages(t, jid, limit, offset)| ==
      Min(if limit <= 0 then 50 else limit, Max(0, Count(InChat(jid), t) - Max(0, offset)))
    ensures limit < 0 && offset == 0 ==>
      |Page(t, jid, limit, offset)| == Count(InChat(jid), t)
  {
    HistoryLength(t, jid);
    WindowLength(ChatHistory(t, jid), if limit <= 0 then 50 else limit, if offset < 0 then 0 else offset);
    WindowLength(ChatHistory(t, jid), limit, offset);
  }

  // It starts where the offset says, newest first.
  lemma PageStartsAtTheOffset(t: Table, jid: string, limit: int, offset: int, i: nat)
    requires i < |GetMessages(t, jid, limit, offset)|
    ensures var from := if offset < 0 then 0 else offset;
      from + i < |ChatHistory(t, jid)| && GetMessages(t, jid, limit, offset)[i] == ChatHistory(t, jid)[from + i]
  {
    var size, from := if limit <= 0 then 50 else limit, if offset < 0 then 0 else offset;
    WindowHolds(ChatHistory(t, jid), size, from, i);
  }

  class ChatPage {
    const jid: string
    var messageModel: seq<StoredMessage>
    var loadedCount: nat

    constructor (jid: string)
      ensures this.jid == jid && messageModel == [] && loadedCount == 50
    {
      this.jid := jid;
      messageModel := [];
      loadedCount := 50;
    }

    method ReloadMessages(t: Table)
      modifies this
      ensures loadedCount == 50
      ensures messageModel == Reverse(Window(ChatHistory(t, jid), 50, 0))
    {
      loadedCount := 50;
      var messages := GetMessages(t, jid, loadedCount, 0);
      messageModel := [];
      var index := |messages| - 1;
      while index >= 0
        invariant -1 <= index < |messages|
        invariant |messageModel| == |messages| - 1 - index && loadedCount == 50
        invariant forall k :: 0 <= k < |messageModel| ==> messageModel[k] == messages[|messages| - 1 - k]
      {
        messageModel := messageModel + [messages[index]];
        index := index - 1;
      }
      assert messageModel == Reverse(messages);
    }

    // Inserts at the front, last message of the batch first.
    method LoadMoreMessages(t: Table)
      modifies this
      ensures var older := Window(ChatHistory(t, jid), 25, old(loadedCount));
        messageModel == older + old(messageModel) && loadedCount == old(loadedCount) + |older|
    {
      var older := GetMessages(t, jid, 25, loadedCount);
      if |older| == 0 {
        assert older + messageModel == messageModel;
        return;
      }
      InsertBatch(older);
      loadedCount := loadedCount + |older|;
    }

    method InsertBatch(older: seq<StoredMessage>)
      modifies this`messageModel
      ensures messageModel == older + old(messageModel)
    {
      var index := |older| - 1;
      while index >= 0
        invariant -1 <= index < |older|
        invariant messageModel == older[index + 1..] + old(messageModel)
      {
        ghost var was := messageModel;
        messageModel := [older[index]] + messageModel;
        PrependOne(older, index, old(messageModel), was);
        index := index - 1;
      }
    }

    static lemma PrependOne(older: seq<StoredMessage>, index: nat, rest: seq<StoredMessage>, was: seq<StoredMessage>)
      requires index < |older| && was == older[index + 1..] + rest
      ensures [older[index]] + was == older[index..] + rest
    {
    }

    // Sets the receipt of the first item with the acknowledged id.
    method OnMessageAcknowledged(messageId: string, receiptType: int)
      modifies this
      ensures loadedCount == old(loadedCount)
      ensures var k := IndexOf(old(messageModel), messageId);
        messageModel == if k < |old(messageModel)|
                        then old(messageModel)[k := old(messageModel)[k].(receipt := receiptType)]
                        else old(messageModel)
    {
      var index := 0;
      while index < |messageModel|
        invariant index <= |messageModel| && messageModel == old(messageModel) && loadedCount == old(loadedCount)
        invariant forall j :: 0 <= j < index ==> messageModel[j].id != messageId
      {
        if messageModel[index].id == messageId {
          IndexOfIs(messageModel, messageId, index);
          messageModel := messageModel[index := messageModel[index].(receipt := receiptType)];
          return;
        }
        index := index + 1;
      }
      IndexOfIs(messageModel, messageId, index);
    }
  }

  // ---- One reload and k loads over an unchanged history (newest first) ----

  // The b-th batch of 25 behind the first fifty.
  function Batch<T>(history: seq<T>, b: nat): seq<T> {
    history[Min(|history|, 50 + 25 * b)..Min(|history|, 75 + 25 * b)]
  }

  function Newest<T>(history: seq<T>, k: nat): seq<T> {
    history[..Min(|history|, 50 + 25 * k)]
  }

  function Model<T>(history: seq<T>, k: nat): seq<T> {
    if k == 0 then Reverse(Newest(history, 0)) else Batch(history, k - 1) + Model(history, k - 1)
  }

  // loadedCount starts at 50 even when the chat is shorter.
  lemma LoadFetchesOneBatch<T>(history: seq<T>, b: nat)
    ensures Window(history, 25, Max(50, Min(|history|, 50 + 25 * b))) == Batch(history, b)
    ensures Max(50, Min(|history|, 50 + 25 * b)) + |Batch(history, b)| == Max(50, Min(|history|, 75 + 25 * b))
  {
  }

  // The page after a reload and any number of loads.
  method ReloadThenLoad(page: ChatPage, t: Table, k: nat)
    modifies page
    ensures page.messageModel == Model(ChatHistory(t, page.jid), k)
    ensures page.loadedCount == Max(50, Min(|ChatHistory(t, page.jid)|, 50 + 25 * k))
  {
    ghost var history := ChatHistory(t, page.jid);
    page.ReloadMessages(t);
    assert Window(history, 50, 0) == Newest(history, 0);
    for i := 0 to k
      invariant page.messageModel == Model(history, i)
      invariant page.loadedCount == Max(50, Min(|history|, 50 + 25 * i))
    {
      LoadFetchesOneBatch(history, i);
      page.LoadMoreMessages(t);
    }
  }

  // History position 50+25b+o sits at offset o of the b-th batch, which stands in front of
  // everything newer.
  ghost predicate BatchItemPlaced<T>(history: seq<T>, m: seq<T>, b: nat, o: nat) {
    50 + 25 * b + o < |history| ==>
      var at := |m| - Min(|history|, 75 + 25 * b) + o;
      0 <= at < |m| && m[at] == history[50 + 25 * b + o]
  }

  lemma BatchItemShifts<T>(history: seq<T>, batch: seq<T>, before: seq<T>, b: nat, o: nat)
    requires BatchItemPlaced(history, before, b, o)
    ensures BatchItemPlaced(history, batch + before, b, o)
  {
  }

  lemma BatchItemInFront<T>(history: seq<T>, before: seq<T>, b: nat, o: nat)
    requires o < 25 && |before| == Min(|history|, 50 + 25 * b)
    ensures BatchItemPlaced(history, Batch(history, b) + before, b, o)
  {
  }

  lemma {:induction false} ModelLength<T>(history: seq<T>, k: nat)
    ensures |Model(history, k)| == Min(|history|, 50 + 25 * k)
  {
    if k > 0 {
      ModelLength(history, k - 1);
    }
  }

  lemma {:induction false} FirstFiftyPlaced<T>(history: seq<T>, k: nat, p: nat)
    requires p < Min(|history|, 50)
    ensures p < |Model(history, k)| && Model(history, k)[|Model(history, k)| - 1 - p] == history[p]
  {
    if k > 0 {
      FirstFiftyPlaced(history, k - 1, p);
    }
  }

  lemma {:induction false} BatchPlaced<T>(history: seq<T>, k: nat, b: nat, o: nat)
    requires b < k && o < 25
    ensures BatchItemPlaced(history, Model(history, k), b, o)
  {
    if b < k - 1 {
      BatchPlaced(history, k - 1, b, o);
      BatchItemShifts(history, Batch(history, k - 1), Model(history, k - 1), b, o);
    } else {
      ModelLength(history, b);
      BatchItemInFront(history, Model(history, b), b, o);
    }
  }

  // The model holds the newest min(n, 50+25k) messages: the first fifty in reverse, and in
  // front of them the loaded batches, oldest batch first, each batch still newest-first.
  lemma ModelLayout<T>(history: seq<T>, k: nat)
    ensures |Model(history, k)| == Min(|history|, 50 + 25 * k)
    ensures forall p :: 0 <= p < Min(|history|, 50) ==> Model(history, k)[|Model(history, k)| - 1 - p] == history[p]
    ensures forall b: nat, o: nat :: b < k && o < 25 ==> BatchItemPlaced(history, Model(history, k), b, o)
  {
    ModelLength(history, k);
    forall p | 0 <= p < Min(|history|, 50) ensures Model(history, k)[|Model(history, k)| - 1 - p] == history[p] {
      FirstFiftyPlaced(history, k, p);
    }
    forall b: nat, o: nat | b < k && o < 25 ensures BatchItemPlaced(history, Model(history, k), b, o) {
      BatchPlaced(history, k, b, o);
    }
  }

  lemma {:induction false} ReverseKeepsElements<T>(s: seq<T>)
    ensures multiset(Reverse(s)) == multiset(s)
  {
    if s != [] {
      ReverseKeepsElements(s[1..]);
      assert s == [s[0]] + s[1..];
    }
  }

  lemma NewestGrowsByABatch<T>(history: seq<T>, k: nat)
    requires k > 0
    ensures Newest(history, k) == Newest(history, k - 1) + Batch(history, k - 1)
  {
  }

  lemma ConcatInEitherOrder<T>(a: seq<T>, b: seq<T>, c: seq<T>)
    requires multiset(b) == multiset(c)
    ensures multiset(a + b) == multiset(c + a)
  {
  }

  // Each of the newest messages is shown exactly once.
  lemma {:induction false} ModelHoldsTheNewestOnce<T>(history: seq<T>, k: nat)
    ensures multiset(Model(history, k)) == multiset(Newest(history, k))
  {
    if k == 0 {
      ReverseKeepsElements(Newest(history, 0));
    } else {
      ModelHoldsTheNewestOnce(history, k - 1);
      NewestGrowsByABatch(history, k);
      var batch, before := Batch(history, k - 1), Model(history, k - 1);
      ConcatInEitherOrder(batch, before, Newest(history, k - 1));
      assert Model(history, k) == batch + before;
    }
  }

  ghost predicate Ascending<T>(key: T -> int, s: seq<T>) {
    forall i, j :: 0 <= i < j < |s| ==> key(s[i]) <= key(s[j])
  }

  ghost predicate Chronological(s: Table) {
    Ascending(ByTime(), s)
  }

  // The batch starts and ends at one key.
  ghost predicate IsOneInstant<T>(key: T -> int, batch: seq<T>) {
    batch != [] ==> key(batch[0]) == key(batch[|batch| - 1])
  }

  lemma AscendingConcat<T>(key: T -> int, a: seq<T>, b: seq<T>)
    requires forall i, j :: 0 <= i < |a| && 0 <= j < |b| ==> key(a[i]) <= key(b[j])
    ensures Ascending(key, a + b) <==> Ascending(key, a) && Ascending(key, b)
  {
    var s := a + b;
    if Ascending(key, s) {
      assert forall i :: 0 <= i < |a| ==> s[i] == a[i];
      assert forall i :: 0 <= i < |b| ==> s[|a| + i] == b[i];
    }
  }

  lemma DescendingAndAscending<T>(key: T -> int, s: seq<T>)
    requires Descending(key, s)
    ensures Ascending(key, s) <==> IsOneInstant(key, s)
  {
  }

  lemma SliceStaysDescending<T>(key: T -> int, s: seq<T>, i: nat, j: nat)
    requires Descending(key, s) && i <= j <= |s|
    ensures Descending(key, s[i..j])
  {
  }

  lemma ReversedIsAscending<T>(key: T -> int, s: seq<T>)
    requires Descending(key, s)
    ensures Ascending(key, Reverse(s))
  {
  }

  lemma SamePlace<T>(a: seq<T>, b: seq<T>, j: nat) returns (p: nat)
    requires multiset(a) == multiset(b) && j < |a|
    ensures p < |b| && b[p] == a[j]
  {
    assert a[j] in multiset(b);
    p :| 0 <= p < |b| && b[p] == a[j];
  }

  lemma BatchItemIsOlder<T>(key: T -> int, history: seq<T>, k: nat, i: nat, j: nat)
    requires Descending(key, history) && i < |Batch(history, k)| && j < |Model(history, k)|
    ensures key(Batch(history, k)[i]) <= key(Model(history, k)[j])
  {
    ModelHoldsTheNewestOnce(history, k);
    var p := SamePlace(Model(history, k), Newest(history, k), j);
    assert key(history[p]) >= key(history[50 + 25 * k + i]);
  }

  ghost predicate EveryBatchIsOneInstant<T>(key: T -> int, history: seq<T>, k: nat) {
    forall b: nat :: b < k ==> IsOneInstant(key, Batch(history, b))
  }

  // After a reload the list is chronological. After k loads it is so exactly when every
  // loaded batch lies at one timestamp, because batches are put in front newest-first.
  lemma ModelIsChronologicalExactlyWhen(history: Table, k: nat)
    requires Descending(ByTime(), history)
    ensures Chronological(Model(history, k)) <==> EveryBatchIsOneInstant(ByTime(), history, k)
  {
    ModelIsAscendingExactlyWhen(ByTime(), history, k);
  }

  lemma ModelIsAscendingExactlyWhen<T>(key: T -> int, history: seq<T>, k: nat)
    requires Descending(key, history)
    ensures Ascending(key, Model(history, k)) <==> EveryBatchIsOneInstant(key, history, k)
  {
    if EveryBatchIsOneInstant(key, history, k) {
      InstantsKeepTheOrder(key, history, k);
    } else {
      var b: nat :| b < k && !IsOneInstant(key, Batch(history, b));
      DisorderStays(key, history, b, k);
    }
  }

  lemma {:induction false} InstantsKeepTheOrder<T>(key: T -> int, history: seq<T>, k: nat)
    requires Descending(key, history) && EveryBatchIsOneInstant(key, history, k)
    ensures Ascending(key, Model(history, k))
  {
    if k == 0 {
      FirstFiftyAreAscending(key, history);
    } else {
      InstantsKeepTheOrder(key, history, k - 1);
      assert IsOneInstant(key, Batch(history, k - 1));
      OneMoreBatchIsAscending(key, history, k);
    }
  }

  lemma {:induction false} DisorderStays<T>(key: T -> int, history: seq<T>, b: nat, k: nat)
    requires Descending(key, history) && b < k && !IsOneInstant(key, Batch(history, b))
    ensures !Ascending(key, Model(history, k))
  {
    OneMoreBatchIsAscending(key, history, k);
    if b < k - 1 {
      DisorderStays(key, history, b, k - 1);
    }
  }

  lemma FirstFiftyAreAscending<T>(key: T -> int, history: seq<T>)
    requires Descending(key, history)
    ensures Ascending(key, Model(history, 0))
  {
    SliceStaysDescending(key, history, 0, Min(|history|, 50));
    assert history[0..Min(|history|, 50)] == Newest(history, 0);
    ReversedIsAscending(key, Newest(history, 0));
  }

  lemma OneMoreBatchIsAscending<T>(key: T -> int, history: seq<T>, k: nat)
    requires k > 0 && Descending(key, history)
    ensures Ascending(key, Model(history, k)) <==>
      Ascending(key, Model(history, k - 1)) && IsOneInstant(key, Batch(history, k - 1))
  {
    var batch, m := Batch(history, k - 1), Model(history, k - 1);
    forall i, j | 0 <= i < |batch| && 0 <= j < |m| ensures key(batch[i]) <= key(m[j]) {
      BatchItemIsOlder(key, history, k - 1, i, j);
    }
    AscendingConcat(key, batch, m);
    SliceStaysDescending(key, history, Min(|history|, 25 + 25 * k), Min(|history|, 50 + 25 * k));
    DescendingAndAscending(key, batch);
  }

  // Any history of at least 52 messages at different times is out of order after a load.
  lemma OneLoadBreaksTheOrder(history: Table, k: nat)
    requires Descending(ByTime(), history) && |history| >= 52 && k >= 1
    requires ByTime()(history[50]) != ByTime()(history[51])
    ensures !Chronological(Model(history, k))
  {
    ModelIsChronologicalExactlyWhen(history, k);
    var batch := Batch(history, 0);
    assert batch[0] == history[50] && batch[|batch| - 1] == history[49 + |batch|];
    assert ByTime()(history[51]) >= ByTime()(history[49 + |batch|]);
  }

  function Ticks(n: nat): (id: string)
    ensures |id| == n
  {
    if n == 0 then "" else Ticks(n - 1) + "'"
  }

  // The n-th message of a chat that gets one empty message a second.
  function NthMessage(jid: string, n: nat): StoredMessage {
    EmptyMessage(Ticks(n), jid, n)
  }

  function Arrived(jid: string, n: nat): (t: Table)
    ensures |t| == n && forall i :: 0 <= i < n ==> t[i] == NthMessage(jid, i)
  {
    if n == 0 then [] else Arrived(jid, n - 1) + [NthMessage(jid, n - 1)]
  }

  function Arrivals(jid: string, n: nat): seq<Op> {
    if n == 0 then [] else Arrivals(jid, n - 1) + [Save(NthMessage(jid, n - 1))]
  }

  lemma {:induction false} ArrivalsAreStored(jid: string, n: nat)
    ensures Run(Arrivals(jid, n)) == Arrived(jid, n)
  {
    if n > 0 {
      ArrivalsAreStored(jid, n - 1);
      var log, m := Arrivals(jid, n), NthMessage(jid, n - 1);
      assert log[..|log| - 1] == Arrivals(jid, n - 1);
      IndexOfIs(Arrived(jid, n - 1), m.id, n - 1);
    }
  }

  // Elements with different keys keep them when they are put in another order.
  lemma DistinctKeys<T>(key: T -> int, s: seq<T>, r: seq<T>, i: nat, j: nat)
    requires multiset(s) == multiset(r) && i < j < |r|
    requires forall a, b :: 0 <= a < b < |s| ==> key(s[a]) != key(s[b])
    ensures key(r[i]) != key(r[j])
  {
    var p := HasKey(key, key(r[i]));
    CountIsPermutationInvariant(p, s, r);
    CountAtMostOne(p, s);
    CountAtMostOne(p, r);
    assert p(r[i]);
  }

  lemma HistoryOfArrivals(jid: string, n: nat)
    requires n >= 52
    ensures var history := ChatHistory(Arrived(jid, n), jid);
      |history| == n && Descending(ByTime(), history) && ByTime()(history[50]) != ByTime()(history[51])
  {
    var t := Arrived(jid, n);
    FilterAll(InChat(jid), t);
    var history := Sorted(ByTime(), t);
    SortedIsAStableSort(ByTime(), t);
    DistinctKeys(ByTime(), t, history, 50, 51);
  }

  // So in a chat of 52 messages or more, saved one after the other, the first load is
  // enough to put them out of order.
  lemma FiftyTwoMessagesGetOutOfOrder(jid: string, n: nat)
    requires n >= 52
    ensures !Chronological(Model(ChatHistory(Run(Arrivals(jid, n)), jid), 1))
  {
    ArrivalsAreStored(jid, n);
    HistoryOfArrivals(jid, n);
    OneLoadBreaksTheOrder(ChatHistory(Arrived(jid, n), jid), 1);
  }

  // ---- Rows saved between a reload and a load ----

  function IsIn<T(==)>(s: seq<T>): T -> bool {
    (x: T) => x in s
  }

  // Of a history of n rows a reload and k loads show `shown`; the next load starts at `from`,
  // which by then counts m newer rows as well.
  function Repeated(n: nat, k: nat, m: nat): int {
    var shown := Min(n, 50 + 25 * k);
    var from := Max(50, shown);
    Max(0, Min(from + 25, m + shown) - Max(from, m))
  }

  lemma ShownIsTheFront<T>(history: seq<T>, newer: seq<T>, k: nat, q: nat)
    requires NoRepeats(newer + history) && q < |newer| + |history|
    ensures (newer + history)[q] in Model(history, k) <==> |newer| <= q < |newer| + Min(|history|, 50 + 25 * k)
  {
    var all, newest := newer + history, Newest(history, k);
    ModelHoldsTheNewestOnce(history, k);
    assert all[q] in Model(history, k) <==> all[q] in multiset(newest);
    if all[q] in newest {
      var p :| 0 <= p < |newest| && newest[p] == all[q];
      assert all[|newer| + p] == all[q];
    }
    if |newer| <= q < |newer| + Min(|history|, 50 + 25 * k) {
      assert newest[q - |newer|] == all[q];
    }
  }

  // How many rows of the next batch the page shows already.
  lemma RowsRepeat<T>(history: seq<T>, newer: seq<T>, k: nat)
    requires NoRepeats(newer + history)
    ensures var from := Max(50, Min(|history|, 50 + 25 * k));
      Count(IsIn(Model(history, k)), Window(newer + history, 25, from)) == Repeated(|history|, k, |newer|)
  {
    var all, shown := newer + history, Min(|history|, 50 + 25 * k);
    var from, to := Min(Max(50, shown), |all|), Min(Max(50, shown) + 25, |all|);
    forall q | from <= q < to ensures IsIn(Model(history, k))(all[q]) <==> |newer| <= q < |newer| + shown {
      ShownIsTheFront(history, newer, k, q);
    }
    CountInterval(IsIn(Model(history, k)), all, from, to, |newer|, |newer| + shown);
    assert Window(all, 25, Max(50, shown)) == all[from..to];
  }

  ghost predicate AreNewer(t: Table, newer: Table, jid: string) {
    forall r, q :: r in t && q in newer && r.jid == jid == q.jid ==> r.timestamp < q.timestamp
  }

  lemma NewerRowsComeFirst(t: Table, newer: Table, jid: string)
    requires AreNewer(t, newer, jid)
    ensures ChatHistory(t + newer, jid) == ChatHistory(newer, jid) + ChatHistory(t, jid)
  {
    var a, b := Filter(InChat(jid), t), Filter(InChat(jid), newer);
    FilterAppend(InChat(jid), t, newer);
    FilterMembers(InChat(jid), t);
    FilterMembers(InChat(jid), newer);
    forall i, j | 0 <= i < |a| && 0 <= j < |b| ensures ByTime()(a[i]) < ByTime()(b[j]) {
      assert a[i] in t && b[j] in newer && InChat(jid)(a[i]) && InChat(jid)(b[j]);
    }
    LargerKeysFirst(ByTime(), a, b);
  }

  function Is<T(==)>(x: T): T -> bool {
    (y: T) => y == x
  }

  function IsAndIn(x: StoredMessage, jid: string): StoredMessage -> bool {
    (y: StoredMessage) => Is(x)(y) && InChat(jid)(y)
  }

  lemma HistoryHasNoRepeats(t: Table, jid: string)
    requires UniqueIds(t)
    ensures NoRepeats(ChatHistory(t, jid))
  {
    var history := ChatHistory(t, jid);
    forall i, j | 0 <= i < j < |history| ensures history[i] != history[j] {
      var x := history[i];
      CountOfFilter(Is(x), InChat(jid), IsAndIn(x, jid), t);
      SortedIsAStableSort(ByTime(), Filter(InChat(jid), t));
      CountIsPermutationInvariant(Is(x), history, Filter(InChat(jid), t));
      CountAtMostOne(IsAndIn(x, jid), t);
      CountAtMostOne(Is(x), history);
      assert Is(x)(history[i]);
    }
  }

  // After a reload and k loads, newer rows are saved of which m belong to the chat. The next
  // batch then repeats so many rows of the page, and none exactly when m == 0, the batch is
  // empty, the chat was, or m is so large that the batch lies among the newer rows.
  lemma RowsRepeatExactlyWhen(t: Table, newer: Table, jid: string, k: nat)
    requires UniqueIds(t + newer) && AreNewer(t, newer, jid)
    ensures var history, m := ChatHistory(t, jid), Count(InChat(jid), newer);
      var from := Max(50, Min(|history|, 50 + 25 * k));
      var batch := Window(ChatHistory(t + newer, jid), 25, from);
      var repeats := Count(IsIn(Model(history, k)), batch);
      && repeats == Repeated(|history|, k, m)
      && (repeats == 0 <==> m == 0 || batch == [] || history == [] || m >= from + 25)
  {
    var history, recent := ChatHistory(t, jid), ChatHistory(newer, jid);
    NewerRowsComeFirst(t, newer, jid);
    HistoryHasNoRepeats(t + newer, jid);
    HistoryLength(newer, jid);
    RowsRepeat(history, recent, k);
    WindowLength(recent + history, 25, Max(50, Min(|history|, 50 + 25 * k)));
  }

  // The page in that case.
  method LoadAfterNewerRows(page: ChatPage, t: Table, newer: Table, k: nat)
    modifies page
    ensures var history := ChatHistory(t, page.jid);
      var batch := Window(ChatHistory(t + newer, page.jid), 25, Max(50, Min(|history|, 50 + 25 * k)));
      page.messageModel == batch + Model(history, k)
  {
    ReloadThenLoad(page, t, k);
    page.LoadMoreMessages(t + newer);
  }

  // ---- The load loop run in the other direction ----

  function ModelInOrder<T>(history: seq<T>, k: nat): seq<T> {
    if k == 0 then Reverse(Newest(history, 0)) else Reverse(Batch(history, k - 1)) + ModelInOrder(history, k - 1)
  }

  lemma ReverseConcat<T>(a: seq<T>, b: seq<T>)
    ensures Reverse(a + b) == Reverse(b) + Reverse(a)
  {
  }

  // Inserting each batch first message first would keep the list chronological always.
  lemma ReversedLoopIsChronological(history: Table, k: nat)
    requires Descending(ByTime(), history)
    ensures ModelInOrder(history, k) == Reverse(Newest(history, k))
    ensures Chronological(ModelInOrder(history, k))
  {
    ModelInOrderIsReversed(history, k);
    SliceStaysDescending(ByTime(), history, 0, |Newest(history, k)|);
    assert history[0..|Newest(history, k)|] == Newest(history, k);
    ReversedIsAscending(ByTime(), Newest(history, k));
  }

  lemma {:induction false} ModelInOrderIsReversed<T>(history: seq<T>, k: nat)
    ensures ModelInOrder(history, k) == Reverse(Newest(history, k))
  {
    if k > 0 {
      ModelInOrderIsReversed(history, k - 1);
      NewestGrowsByABatch(history, k);
      ReverseConcat(Newest(history, k - 1), Batch(history, k - 1));
    }
  }

  // The insert loop of loadMoreMessages with its index running upwards.
  method InsertFirstToLast<T>(messageModel: seq<T>, older: seq<T>) returns (r: seq<T>)
    ensures r == Reverse(older) + messageModel
  {
    r := messageModel;
    for index := 0 to |older|
      invariant r == Reverse(older[..index]) + messageModel
    {
      assert older[..index + 1] == older[..index] + [older[index]];
      ReverseConcat(older[..index], [older[index]]);
      r := [older[index]] + r;
    }
    assert older[..|older|] == older;
  }

  method LoadMoreInOrder(t: Table, jid: string, messageModel: Table, loadedCount: nat) returns (m: Table, count: nat)
    ensures var older := Window(ChatHistory(t, jid), 25, loadedCount);
      m == Reverse(older) + messageModel && count == loadedCount + |older|
  {
    var older := GetMessages(t, jid, 25, loadedCount);
    m := InsertFirstToLast(messageModel, older);
    count := loadedCount + |older|;
  }

  // A reload and k loads that insert in this direction.
  method ReloadThenLoadInOrder(t: Table, jid: string, k: nat) returns (messageModel: Table)
    ensures messageModel == ModelInOrder(ChatHistory(t, jid), k)
  {
    ghost var history := ChatHistory(t, jid);
    var newest := GetMessages(t, jid, 50, 0);
    assert newest == Newest(history, 0);
    messageModel := InsertFirstToLast([], newest);
    var loadedCount := 50;
    for i := 0 to k
      invariant messageModel == ModelInOrder(history, i)
      invariant loadedCount == Max(50, Min(|history|, 50 + 25 * i))
    {
      LoadFetchesOneBatch(history, i);
      messageModel, loadedCount := LoadMoreInOrder(t, jid, messageModel, loadedCount);
    }
  }
}

// From a WhatsApp event to a D-Bus signal: the event handler of daemon/protocol/client.go,
// the 32-slot channel and RunEventLoop of daemon/dbus/service.go, together with D-Bus calls
// that use the same store and a chat page that reads it. Every database call, channel
// operation and emission is one step; handlers may run concurrently.
module Events {
  import opened Sequences
  import opened Messages
  import opened Store
  import opened History

  // ---- Events and what is stored for them ----

  datatype MediaKind = Image | Audio | Document | Video | Sticker

  datatype Media = Media(kind: MediaKind, mime: string, size: int, key: Blob, directPath: string, url: string,
                         encSha256: Blob, sha256: Blob, caption: string)

  datatype MessageEvent = MessageEvent(
    id: string, chat: string, sender: string, fromMe: bool, timestamp: int,
    conversation: string, extendedText: string, media: Option<Media>)

  datatype ReceiptType = Delivered | Read | ReadSelf | Played | PlayedSelf | OtherType

  datatype Event =
    | Message(m: MessageEvent)
    | Receipt(ids: seq<string>, kind: ReceiptType)
    | Other  // connection, presence, group and picture events

  // The same in client.go and service.go.
  function MapReceiptType(kind: ReceiptType): (r: int)
    ensures 0 <= r <= 2 && (r == 0 <==> kind.OtherType?) && (r == 1 <==> kind.Delivered?)
  {
    match kind
    case Read | ReadSelf | Played | PlayedSelf => 2
    case Delivered => 1
    case OtherType => 0
  }

  // extractMessageText and extractDisplayText.
  function MessageText(m: MessageEvent): string {
    if m.conversation != "" then m.conversation else m.extendedText
  }

  function MediaTypeName(kind: MediaKind): string {
    match kind
    case Image => "image"
    case Audio => "audio"
    case Document => "document"
    case Video => "video"
    case Sticker => "sticker"
  }

  predicate HasSuffix(s: string, suffix: string) {
    |suffix| <= |s| && s[|s| - |suffix|..] == suffix
  }

  // name is what the contact lookup answered.
  method BuildStoredMessage(m: MessageEvent, name: string) returns (stored: StoredMessage)
    ensures StoredFor(m, name, stored)
  {
    stored := StoredMessage(
      m.id, m.chat, m.fromMe, MessageText(m), m.timestamp,
      if m.sender != "" then m.sender else m.chat, name, HasSuffix(m.chat, "@g.us"), 0,
      false, "", "", 0, "", Null, "", "", Null, Null, m.fromMe, "");
    if m.media.Some? {
      var media := m.media.value;
      stored := stored.(hasMedia := true, mediaType := MediaTypeName(media.kind), mediaMime := media.mime,
        mediaSize := media.size, mediaKey := media.key, directPath := media.directPath, mediaUrl := media.url,
        fileEncSha256 := media.encSha256, fileSha256 := media.sha256);
      if stored.text == "" && (media.kind == Image || media.kind == Document || media.kind == Video) {
        stored := stored.(text := media.caption);
      }
    }
  }

  // The conversation, or the extended text when there is none.
  ghost predicate IsTextOf(m: MessageEvent, text: string) {
    if m.conversation != "" then text == m.conversation else text == m.extendedText
  }

  ghost predicate HasText(m: MessageEvent) {
    m.conversation != "" || m.extendedText != ""
  }

  // Images, documents and videos come with a caption.
  ghost predicate HasCaption(m: MessageEvent) {
    m.media.Some? && (m.media.value.kind.Image? || m.media.value.kind.Document? || m.media.value.kind.Video?)
  }

  // The stored form of an event, field by field.
  ghost predicate StoredFor(m: MessageEvent, name: string, stored: StoredMessage) {
    && stored.id == m.id && stored.jid == m.chat && stored.fromMe == m.fromMe && stored.timestamp == m.timestamp
    && stored.senderJid == (if m.sender == "" then m.chat else m.sender) && stored.senderName == name
    && stored.receipt == 0 && (stored.isRead <==> m.fromMe) && stored.urlPreview == "" && stored.localPath == ""
    && (stored.isGroup <==> |m.chat| >= 5 && m.chat[|m.chat| - 5..] == "@g.us")
    && (HasText(m) ==> IsTextOf(m, stored.text))
    && (!HasText(m) && HasCaption(m) ==> stored.text == m.media.value.caption)
    && (!HasText(m) && !HasCaption(m) ==> stored.text == "")
    && (stored.hasMedia <==> m.media.Some?)
    && (m.media.Some? ==> MediaStored(m.media.value, stored))
    && (m.media.None? ==> NoMediaStored(stored))
  }

  ghost predicate MediaStored(media: Media, stored: StoredMessage) {
    && stored.mediaMime == media.mime && stored.mediaSize == media.size && stored.mediaKey == media.key
    && stored.directPath == media.directPath && stored.mediaUrl == media.url
    && stored.fileEncSha256 == media.encSha256 && stored.fileSha256 == media.sha256
    && (media.kind.Image? ==> stored.mediaType == "image") && (media.kind.Audio? ==> stored.mediaType == "audio")
    && (media.kind.Document? ==> stored.mediaType == "document")
    && (media.kind.Video? ==> stored.mediaType == "video") && (media.kind.Sticker? ==> stored.mediaType == "sticker")
  }

  ghost predicate NoMediaStored(stored: StoredMessage) {
    && stored.mediaType == "" && stored.mediaMime == "" && stored.mediaSize == 0 && stored.mediaKey == Null
    && stored.directPath == "" && stored.mediaUrl == "" && stored.fileEncSha256 == Null && stored.fileSha256 == Null
  }

  // ---- The system ----

  datatype Handler = Updating(ids: seq<string>, kind: ReceiptType, next: nat) | Sending(event: Event)

  datatype Loop = Waiting | Processing(event: Event, next: nat) | Stopped

  datatype Signal = MessageReceived(m: MessageEvent, text: string) | MessageAcknowledged(id: string, receipt: int)

  datatype Item = Item(id: string, receipt: int)

  // log: database operations; handled, accepted, dropped: events in the order of their send;
  // shown and seen: the chat page and how many signals it has received.
  datatype State = State(
    log: seq<Op>,
    handlers: map<nat, Handler>,
    queue: seq<Event>,
    loop: Loop,
    handled: seq<Event>,
    accepted: seq<Event>,
    dropped: seq<Event>,
    delivered: seq<Event>,
    emitted: seq<Signal>,
    shown: seq<Item>,
    seen: nat)

  const CAPACITY := 32

  const INITIAL := State([], map[], [], Waiting, [], [], [], [], [], [], 0)

  datatype Step =
    | HandleMessage(h: nat, m: MessageEvent, stored: StoredMessage)
    | HandleReceipt(h: nat, ids: seq<string>, kind: ReceiptType)
    | HandleOther(h: nat)
    | UpdateNext(h: nat)
    | TrySend(h: nat)
    | Receive
    | Process
    | StopLoop
    | Call(op: Op)                             // SendTextMessage, DownloadMedia, MarkAsRead
    | LoadPage(items: seq<Item>, reload: bool)
    | Deliver

  predicate Persists(stored: StoredMessage) {
    stored.text != "" || stored.hasMedia
  }

  ghost predicate Enabled(s: State, step: Step) {
    match step
    case HandleMessage(h, m, stored) => h !in s.handlers && StoredFor(m, stored.senderName, stored)
    case HandleReceipt(h, _, _) => h !in s.handlers
    case HandleOther(h) => h !in s.handlers
    case UpdateNext(h) => h in s.handlers && s.handlers[h].Updating?
    case TrySend(h) => h in s.handlers && s.handlers[h].Sending?
    case Receive => s.loop.Waiting? && s.queue != []
    case Process => s.loop.Processing?
    case StopLoop => s.loop.Waiting?
    case Call(op) => !op.UpdateReceipt? && (op.Save? ==> op.msg.receipt == 0)
    case LoadPage(items, _) =>
      forall i :: 0 <= i < |items| ==>
        Lookup(Run(s.log), items[i].id).Some? && Lookup(Run(s.log), items[i].id).value.receipt == items[i].receipt
    case Deliver => s.seen < |s.emitted|
  }

  function FirstItem(items: seq<Item>, id: string): (k: nat)
    ensures k <= |items|
    ensures k < |items| ==> items[k].id == id
  {
    if items == [] || items[0].id == id then 0 else 1 + FirstItem(items[1..], id)
  }

  function Acknowledge(items: seq<Item>, id: string, receipt: int): seq<Item> {
    var k := FirstItem(items, id);
    if k < |items| then items[k := Item(id, receipt)] else items
  }

  // What the event loop does with one event, one emission at a time.
  function ProcessEvent(s: State): State
    requires s.loop.Processing?
  {
    var e, n := s.loop.event, s.loop.next;
    if e.Message? then
      var text := MessageText(e.m);
      if text != "" && !e.m.fromMe
      then s.(loop := Waiting, emitted := s.emitted + [MessageReceived(e.m, text)])
      else s.(loop := Waiting)
    else if e.Receipt? && MapReceiptType(e.kind) != 0 && n < |e.ids| then
      s.(loop := Processing(e, n + 1), emitted := s.emitted + [MessageAcknowledged(e.ids[n], MapReceiptType(e.kind))])
    else s.(loop := Waiting)
  }

  ghost function Next(s: State, step: Step): State
    requires Enabled(s, step)
  {
    match step
    case HandleMessage(h, m, stored) =>
      s.(log := if Persists(stored) then s.log + [Save(stored)] else s.log,
         handlers := s.handlers[h := Sending(Message(m))])
    case HandleReceipt(h, ids, kind) =>
      var next := if MapReceiptType(kind) > 0 then Updating(ids, kind, 0) else Sending(Receipt(ids, kind));
      s.(handlers := s.handlers[h := next])
    case HandleOther(h) => s.(handlers := s.handlers[h := Sending(Other)])
    case UpdateNext(h) =>
      var u := s.handlers[h];
      if u.next < |u.ids|
      then s.(log := s.log + [UpdateReceipt(u.ids[u.next], MapReceiptType(u.kind))],
              handlers := s.handlers[h := u.(next := u.next + 1)])
      else s.(handlers := s.handlers[h := Sending(Receipt(u.ids, u.kind))])
    case TrySend(h) =>
      var e := s.handlers[h].event;
      var t := s.(handlers := s.handlers - {h}, handled := s.handled + [e]);
      if |s.queue| < CAPACITY
      then t.(queue := s.queue + [e], accepted := s.accepted + [e])
      else t.(dropped := s.dropped + [e])
    case Receive =>
      s.(queue := s.queue[1..], delivered := s.delivered + [s.queue[0]], loop := Processing(s.queue[0], 0))
    case Process => ProcessEvent(s)
    case StopLoop => s.(loop := Stopped)
    case Call(op) => s.(log := s.log + [op])
    case LoadPage(items, reload) => s.(shown := if reload then items else items + s.shown)
    case Deliver =>
      var x := s.emitted[s.seen];
      s.(seen := s.seen + 1,
         shown := if x.MessageAcknowledged? then Acknowledge(s.shown, x.id, x.receipt) else s.shown)
  }

  ghost predicate IsRun(run: seq<State>, steps: seq<Step>) {
    && |run| == |steps| + 1 && run[0] == INITIAL
    && forall i :: 0 <= i < |steps| ==> Enabled(run[i], steps[i]) && run[i + 1] == Next(run[i], steps[i])
  }

  // ---- The channel ----

  // f picks increasing positions of t that spell s.
  ghost predicate Embeds<T>(s: seq<T>, t: seq<T>, f: seq<nat>) {
    && |f| == |s|
    && (forall i :: 0 <= i < |f| ==> f[i] < |t| && t[f[i]] == s[i])
    && forall i, j :: 0 <= i < j < |f| ==> f[i] < f[j]
  }

  ghost predicate Conserves(s: State) {
    && s.accepted == s.delivered + s.queue && |s.queue| <= 32
    && multiset(s.handled) == multiset(s.delivered) + multiset(s.queue) + multiset(s.dropped)
    && |s.handled| == |s.delivered| + |s.queue| + |s.dropped|
    && exists f :: Embeds(s.accepted, s.handled, f)
  }

  lemma EmbedsOneMore<T>(s: seq<T>, t: seq<T>, f: seq<nat>, x: T)
    requires Embeds(s, t, f)
    ensures Embeds(s + [x], t + [x], f + [|t|]) && Embeds(s, t + [x], f)
  {
  }

  lemma SendConserves(s: State, step: Step)
    requires Conserves(s) && Enabled(s, step) && step.TrySend?
    ensures Conserves(Next(s, step))
  {
    var e, t := s.handlers[step.h].event, Next(s, step);
    var f: seq<nat> :| Embeds(s.accepted, s.handled, f);
    EmbedsOneMore(s.accepted, s.handled, f, e);
    if |s.queue| < CAPACITY {
      assert t.accepted == t.delivered + t.queue;
    }
  }

  lemma ReceiveConserves(s: State)
    requires Conserves(s) && Enabled(s, Receive)
    ensures Conserves(Next(s, Receive))
  {
    assert s.queue == [s.queue[0]] + s.queue[1..];
    var f: seq<nat> :| Embeds(s.accepted, s.handled, f);
    assert Next(s, Receive).accepted == Next(s, Receive).delivered + Next(s, Receive).queue;
  }

  lemma OtherStepsKeepTheChannel(s: State, step: Step)
    requires Enabled(s, step) && !step.TrySend? && !step.Receive?
    ensures var t := Next(s, step);
      t.queue == s.queue && t.handled == s.handled && t.accepted == s.accepted && t.dropped == s.dropped
      && t.delivered == s.delivered
  {
  }

  // In every run: handled = delivered + queued + dropped, at most 32 are queued, and events
  // reach the loop in the order in which their handlers sent them.
  lemma {:induction false} ChannelConservesEvents(run: seq<State>, steps: seq<Step>, i: nat)
    requires IsRun(run, steps) && i < |run|
    ensures Conserves(run[i])
    ensures exists f :: Embeds(run[i].delivered, run[i].handled, f)
  {
    if i == 0 {
      assert Embeds<Event>([], [], []);
    } else {
      ChannelConservesEvents(run, steps, i - 1);
      assert Enabled(run[i - 1], steps[i - 1]);
      if steps[i - 1].TrySend? {
        SendConserves(run[i - 1], steps[i - 1]);
      } else if steps[i - 1].Receive? {
        ReceiveConserves(run[i - 1]);
      } else {
        OtherStepsKeepTheChannel(run[i - 1], steps[i - 1]);
      }
    }
    DeliveredInOrder(run[i]);
  }

  lemma DeliveredInOrder(s: State)
    requires Conserves(s)
    ensures exists f :: Embeds(s.delivered, s.handled, f)
  {
    var f: seq<nat> :| Embeds(s.accepted, s.handled, f);
    var g := f[..|s.delivered|];
    assert forall i :: 0 <= i < |g| ==> s.delivered[i] == s.accepted[i];
    assert Embeds(s.delivered, s.handled, g);
  }

  // An event is dropped exactly when 32 are waiting as it is sent.
  lemma DroppedExactlyWhenFull(run: seq<State>, steps: seq<Step>, i: nat)
    requires IsRun(run, steps) && i < |steps| && steps[i].TrySend?
    ensures var e := run[i].handlers[steps[i].h].event;
      if |run[i].queue| == 32
      then run[i + 1].dropped == run[i].dropped + [e] && run[i + 1].queue == run[i].queue
      else run[i + 1].queue == run[i].queue + [e] && run[i + 1].dropped == run[i].dropped
  {
    ChannelConservesEvents(run, steps, i);
    assert Enabled(run[i], steps[i]) && run[i + 1] == Next(run[i], steps[i]);
  }

  // ---- What is emitted ----

  function Acknowledgements(ids: seq<string>, receipt: int): (r: seq<Signal>)
    ensures |r| == |ids| && forall i :: 0 <= i < |ids| ==> r[i] == MessageAcknowledged(ids[i], receipt)
  {
    if ids == [] then [] else [MessageAcknowledged(ids[0], receipt)] + Acknowledgements(ids[1..], receipt)
  }

  // Incoming messages with a text are announced once; receipts of a known kind once per id.
  function SignalsOf(e: Event): seq<Signal> {
    match e
    case Message(m) =>
      if m.fromMe then []
      else if m.conversation != "" then [MessageReceived(m, m.conversation)]
      else if m.extendedText != "" then [MessageReceived(m, m.extendedText)]
      else []
    case Receipt(ids, kind) => if MapReceiptType(kind) != 0 then Acknowledgements(ids, MapReceiptType(kind)) else []
    case Other => []
  }

  function SignalsOfAll(events: seq<Event>): seq<Signal> {
    if events == [] then [] else SignalsOfAll(events[..|events| - 1]) + SignalsOf(events[|events| - 1])
  }

  ghost predicate EmitsInOrder(s: State) {
    if s.loop.Processing? then
      && s.delivered != [] && s.delivered[|s.delivered| - 1] == s.loop.event
      && s.loop.next <= |SignalsOf(s.loop.event)| && (s.loop.event.Message? ==> s.loop.next == 0)
      && s.emitted == SignalsOfAll(s.delivered[..|s.delivered| - 1]) + SignalsOf(s.loop.event)[..s.loop.next]
    else
      s.emitted == SignalsOfAll(s.delivered)
  }

  lemma MessageEmitsInOrder(s: State)
    requires EmitsInOrder(s) && s.loop.Processing? && s.loop.event.Message?
    ensures EmitsInOrder(ProcessEvent(s))
  {
    var mine, before := SignalsOf(s.loop.event), s.delivered[..|s.delivered| - 1];
    assert mine[..0] == [];
    assert s.emitted == SignalsOfAll(before);
    assert ProcessEvent(s).emitted == s.emitted + mine;
    assert ProcessEvent(s).delivered == s.delivered && !ProcessEvent(s).loop.Processing?;
    assert SignalsOfAll(s.delivered) == SignalsOfAll(before) + mine;
  }

  lemma ReceiptEmitsInOrder(s: State)
    requires EmitsInOrder(s) && s.loop.Processing? && !s.loop.event.Message?
    ensures EmitsInOrder(ProcessEvent(s))
  {
    var n, mine := s.loop.next, SignalsOf(s.loop.event);
    var earlier := SignalsOfAll(s.delivered[..|s.delivered| - 1]);
    if n < |mine| {
      OneMoreTaken(earlier, mine, n);
    } else {
      assert mine[..n] == mine;
    }
  }

  lemma OneMoreTaken<T>(earlier: seq<T>, mine: seq<T>, n: nat)
    requires n < |mine|
    ensures earlier + mine[..n] + [mine[n]] == earlier + mine[..n + 1]
  {
  }

  lemma ReceiveEmitsInOrder(s: State)
    requires EmitsInOrder(s) && Enabled(s, Receive)
    ensures EmitsInOrder(Next(s, Receive))
  {
    var t := Next(s, Receive);
    assert t.delivered[..|t.delivered| - 1] == s.delivered;
    assert SignalsOf(t.loop.event)[..0] == [];
  }

  lemma OtherStepsEmitNothing(s: State, step: Step)
    requires Enabled(s, step) && !step.Process? && !step.Receive?
    ensures SameEmissions(s, Next(s, step))
  {
  }

  ghost predicate SameEmissions(s: State, t: State) {
    && t.emitted == s.emitted && t.delivered == s.delivered
    && (t.loop == s.loop || (s.loop.Waiting? && t.loop.Stopped?))
  }

  lemma StillEmitsInOrder(s: State, t: State)
    requires EmitsInOrder(s) && SameEmissions(s, t)
    ensures EmitsInOrder(t)
  {
  }

  lemma StepEmitsInOrder(s: State, step: Step)
    requires EmitsInOrder(s) && Enabled(s, step)
    ensures EmitsInOrder(Next(s, step))
  {
    if step.Receive? {
      ReceiveEmitsInOrder(s);
    } else if !step.Process? {
      OtherStepsEmitNothing(s, step);
      StillEmitsInOrder(s, Next(s, step));
    } else if s.loop.event.Message? {
      MessageEmitsInOrder(s);
    } else {
      ReceiptEmitsInOrder(s);
    }
  }

  // In every run the signals emitted so far are those of the delivered events, in delivery
  // order and id by id, up to the event in progress.
  lemma {:induction false} EmittedSignalsFollowDelivery(run: seq<State>, steps: seq<Step>, i: nat)
    requires IsRun(run, steps) && i < |run|
    ensures EmitsInOrder(run[i])
  {
    if i > 0 {
      EmittedSignalsFollowDelivery(run, steps, i - 1);
      StepEmitsInOrder(run[i - 1], steps[i - 1]);
    }
  }

  lemma {:induction false} SignalsOfOneAreThere(events: seq<Event>, j: nat, x: Signal)
    requires j < |events| && x in SignalsOf(events[j])
    ensures x in SignalsOfAll(events)
  {
    if j < |events| - 1 {
      SignalsOfOneAreThere(events[..|events| - 1], j, x);
    }
  }

  ghost predicate IsAnnounced(emitted: seq<Signal>, m: MessageEvent) {
    exists x :: x in emitted && x.MessageReceived? && x.m == m && IsTextOf(m, x.text)
  }

  // The delivered events that the loop is through with.
  ghost function Processed(s: State): seq<Event> {
    if s.loop.Processing? && s.delivered != [] then s.delivered[..|s.delivered| - 1] else s.delivered
  }

  // Every incoming message that has a text, plain or extended, is announced with it once the
  // loop is through with its event.
  lemma DeliveredMessagesAreAnnounced(run: seq<State>, steps: seq<Step>, i: nat, m: MessageEvent)
    requires IsRun(run, steps) && i < |run| && Message(m) in Processed(run[i])
    requires !m.fromMe && HasText(m)
    ensures IsAnnounced(run[i].emitted, m)
  {
    EmittedSignalsFollowDelivery(run, steps, i);
    var x := MessageReceived(m, if m.conversation != "" then m.conversation else m.extendedText);
    assert SignalsOf(Message(m)) == [x];
    var j :| 0 <= j < |Processed(run[i])| && Processed(run[i])[j] == Message(m);
    SignalsOfOneAreThere(Processed(run[i]), j, x);
    assert x in run[i].emitted && IsTextOf(m, x.text);
  }

  // ---- Persisted before notified ----

  // The store saved the event's message at position k of the log.
  ghost predicate SavedFor(log: seq<Op>, k: int, m: MessageEvent) {
    0 <= k < |log| && log[k].Save? && StoredFor(m, log[k].msg.senderName, log[k].msg)
  }

  ghost predicate WasSaved(log: seq<Op>, m: MessageEvent) {
    exists k :: SavedFor(log, k, m)
  }

  ghost predicate AcknowledgedAt(log: seq<Op>, k: int, id: string, receipt: int) {
    0 <= k < |log| && log[k] == UpdateReceipt(id, receipt)
  }

  ghost predicate WasAcknowledged(log: seq<Op>, id: string, receipt: int) {
    exists k :: AcknowledgedAt(log, k, id, receipt)
  }

  // What the store has recorded once the handler of an event is about to send it.
  ghost predicate Recorded(log: seq<Op>, e: Event) {
    && (e.Message? && (HasText(e.m) || e.m.media.Some?) ==> WasSaved(log, e.m))
    && (e.Receipt? && MapReceiptType(e.kind) > 0 ==> IdsRecorded(log, e.ids, |e.ids|, MapReceiptType(e.kind)))
  }

  ghost predicate IdsRecorded(log: seq<Op>, ids: seq<string>, n: int, receipt: int) {
    forall i :: 0 <= i < n <= |ids| ==> WasAcknowledged(log, ids[i], receipt)
  }

  ghost predicate SignalRecorded(log: seq<Op>, x: Signal) {
    match x
    case MessageReceived(m, text) =>
      text != "" && IsTextOf(m, text) && !m.fromMe && WasSaved(log, m)
    case MessageAcknowledged(id, receipt) =>
      receipt > 0 && WasAcknowledged(log, id, receipt)
  }

  ghost predicate HandlerRecorded(log: seq<Op>, h: Handler) {
    match h
    case Updating(ids, kind, n) =>
      MapReceiptType(kind) > 0 && n <= |ids| && IdsRecorded(log, ids, n, MapReceiptType(kind))
    case Sending(e) => Recorded(log, e)
  }

  ghost predicate AllRecorded(s: State) {
    && (forall h :: h in s.handlers ==> HandlerRecorded(s.log, s.handlers[h]))
    && (forall i :: 0 <= i < |s.handled| ==> Recorded(s.log, s.handled[i]))
    && (forall i :: 0 <= i < |s.queue| ==> Recorded(s.log, s.queue[i]))
    && (s.loop.Processing? ==> Recorded(s.log, s.loop.event))
    && (forall i :: 0 <= i < |s.emitted| ==> SignalRecorded(s.log, s.emitted[i]))
  }

  lemma LaterLogsRemember(log: seq<Op>, op: Op)
    ensures forall m :: WasSaved(log, m) ==> WasSaved(log + [op], m)
    ensures forall id, r :: WasAcknowledged(log, id, r) ==> WasAcknowledged(log + [op], id, r)
  {
    forall m | WasSaved(log, m) ensures WasSaved(log + [op], m) {
      var k :| SavedFor(log, k, m);
      assert SavedFor(log + [op], k, m);
    }
    forall id, r | WasAcknowledged(log, id, r) ensures WasAcknowledged(log + [op], id, r) {
      var k :| AcknowledgedAt(log, k, id, r);
      assert AcknowledgedAt(log + [op], k, id, r);
    }
  }

  // One more operation takes nothing away.
  lemma StillRecorded(s: State, op: Op)
    requires AllRecorded(s)
    ensures AllRecorded(s.(log := s.log + [op]))
  {
    LaterLogsRemember(s.log, op);
  }

  lemma HandlingRecords(s: State, step: Step)
    requires AllRecorded(s) && Enabled(s, step)
    requires step.HandleMessage? || step.HandleReceipt? || step.HandleOther?
    ensures AllRecorded(Next(s, step))
  {
    if step.HandleMessage? {
      StillRecorded(s, Save(step.stored));
      var log := s.log + [Save(step.stored)];
      assert SavedFor(log, |s.log|, step.m);
    }
  }

  lemma UpdatingRecords(s: State, step: Step)
    requires AllRecorded(s) && Enabled(s, step) && step.UpdateNext?
    ensures AllRecorded(Next(s, step))
  {
    var u := s.handlers[step.h];
    assert HandlerRecorded(s.log, u);
    if u.next < |u.ids| {
      var op := UpdateReceipt(u.ids[u.next], MapReceiptType(u.kind));
      StillRecorded(s, op);
      var log := s.log + [op];
      assert HandlerRecorded(log, u);
      assert AcknowledgedAt(log, |s.log|, u.ids[u.next], MapReceiptType(u.kind));
      assert WasAcknowledged(log, u.ids[u.next], MapReceiptType(u.kind));
    }
  }

  lemma ProcessingRecords(s: State)
    requires AllRecorded(s) && s.loop.Processing?
    ensures AllRecorded(ProcessEvent(s))
  {
  }

  lemma StepRecords(s: State, step: Step)
    requires AllRecorded(s) && Enabled(s, step)
    ensures AllRecorded(Next(s, step))
  {
    match step
    case HandleMessage(_, _, _) => HandlingRecords(s, step);
    case HandleReceipt(_, _, _) => HandlingRecords(s, step);
    case HandleOther(_) => HandlingRecords(s, step);
    case UpdateNext(_) => UpdatingRecords(s, step);
    case TrySend(h) => assert HandlerRecorded(s.log, s.handlers[h]);
    case Receive =>
    case Process => ProcessingRecords(s);
    case StopLoop =>
    case Call(op) => StillRecorded(s, op);
    case LoadPage(_, _) =>
    case Deliver =>
  }

  lemma {:induction false} RunRecords(run: seq<State>, steps: seq<Step>, i: nat)
    requires IsRun(run, steps) && i < |run|
    ensures AllRecorded(run[i])
  {
    if i > 0 {
      RunRecords(run, steps, i - 1);
      StepRecords(run[i - 1], steps[i - 1]);
    }
  }

  // Whenever MessageReceived has been emitted, the row with that id is stored and the emitted
  // text is the one the handler saved; a message of one's own is never announced.
  lemma PersistedBeforeNotified(run: seq<State>, steps: seq<Step>, i: nat, x: Signal)
    requires IsRun(run, steps) && i < |run| && x in run[i].emitted && x.MessageReceived?
    ensures Lookup(Run(run[i].log), x.m.id).Some? && !x.m.fromMe && x.text != ""
    ensures exists k :: SavedFor(run[i].log, k, x.m) && run[i].log[k].msg.text == x.text
  {
    RunRecords(run, steps, i);
    var log := run[i].log;
    assert SignalRecorded(log, x);
    var k :| SavedFor(log, k, x.m);
    assert SaveAt(log, k, x.m.id);
    HistoryRefinement(log, x.m.id);
  }

  // Every handled message that has a text, a caption or an attachment is stored, also when
  // the full channel dropped its event.
  lemma HandledMessagesAreStored(run: seq<State>, steps: seq<Step>, i: nat, m: MessageEvent)
    requires IsRun(run, steps) && i < |run| && Message(m) in run[i].handled
    requires HasText(m) || m.media.Some?
    ensures Lookup(Run(run[i].log), m.id).Some? && WasSaved(run[i].log, m)
  {
    RunRecords(run, steps, i);
    var log := run[i].log;
    assert Recorded(log, Message(m));
    var k :| SavedFor(log, k, m);
    assert SaveAt(log, k, m.id);
    HistoryRefinement(log, m.id);
  }

  // A save in the log was called for over D-Bus or handled a message with a text, a caption or
  // an attachment: what has none of them is not stored.
  ghost predicate SaveHasASource(steps: seq<Step>, i: nat, op: Op)
    requires i <= |steps|
  {
    exists j :: 0 <= j < i &&
      (steps[j] == Call(op)
       || (steps[j].HandleMessage? && op == Save(steps[j].stored)
           && (steps[j].stored.text != "" || steps[j].m.media.Some?)))
  }

  lemma {:induction false} SavesHaveASource(run: seq<State>, steps: seq<Step>, i: nat, k: nat)
    requires IsRun(run, steps) && i < |run| && k < |run[i].log| && run[i].log[k].Save?
    ensures SaveHasASource(steps, i, run[i].log[k])
  {
    var s, step := run[i - 1], steps[i - 1];
    assert Enabled(s, step) && run[i] == Next(s, step);
    LogGrowsByOne(s, step);
    if k < |s.log| {
      SavesHaveASource(run, steps, i - 1, k);
      var j :| 0 <= j < i - 1 &&
        (steps[j] == Call(run[i].log[k])
         || (steps[j].HandleMessage? && run[i].log[k] == Save(steps[j].stored)
             && (steps[j].stored.text != "" || steps[j].m.media.Some?)));
    } else {
      assert SaveHasASource(steps, i, run[i].log[k]);
    }
  }

  // ---- Receipts ----

  ghost predicate SavesCarryNoReceipt(log: seq<Op>) {
    forall k :: 0 <= k < |log| && log[k].Save? ==> log[k].msg.receipt == 0
  }

  lemma {:induction false} RunSavesCarryNoReceipt(run: seq<State>, steps: seq<Step>, i: nat)
    requires IsRun(run, steps) && i < |run|
    ensures SavesCarryNoReceipt(run[i].log)
  {
    if i > 0 {
      RunSavesCarryNoReceipt(run, steps, i - 1);
      assert Enabled(run[i - 1], steps[i - 1]);
    }
  }

  // An update that found its row.
  ghost predicate EffectiveAt(log: seq<Op>, k: int, id: string, receipt: int) {
    AcknowledgedAt(log, k, id, receipt) && StoredBefore(log, k, id)
  }

  // For an acknowledged message the store holds at least the announced receipt exactly when
  // some receipt as high was handled while the row existed. A receipt handled before
  // SendTextMessage saved its row is announced but lost to the store.
  lemma StoreHoldsTheReceiptExactlyWhen(run: seq<State>, steps: seq<Step>, i: nat, x: Signal)
    requires IsRun(run, steps) && i < |run| && x in run[i].emitted && x.MessageAcknowledged?
    requires Lookup(Run(run[i].log), x.id).Some?
    ensures WasAcknowledged(run[i].log, x.id, x.receipt)
    ensures Lookup(Run(run[i].log), x.id).value.receipt >= x.receipt <==>
      exists k, r :: EffectiveAt(run[i].log, k, x.id, r) && r >= x.receipt
  {
    RunRecords(run, steps, i);
    RunSavesCarryNoReceipt(run, steps, i);
    var log, id := run[i].log, x.id;
    assert SignalRecorded(log, x);
    HistoryRefinement(log, id);
    var row := Lookup(Run(log), id).value;
    assert ReceiptIsMaximum(log, id, row);
    if row.receipt >= x.receipt {
      var k :| ReceiptAt(log, k, id, row.receipt);
      assert EffectiveAt(log, k, id, row.receipt);
    }
    if k, r :| EffectiveAt(log, k, id, r) && r >= x.receipt {
      assert ReceiptAt(log, k, id, r);
    }
  }

  // ---- The chat page ----

  // Every receipt for id was handled after its row was saved.
  ghost predicate InOrder(log: seq<Op>, id: string) {
    forall k, r :: AcknowledgedAt(log, k, id, r) ==> StoredBefore(log, k, id)
  }

  ghost predicate NotAhead(log: seq<Op>, item: Item) {
    Lookup(Run(log), item.id).Some? && item.receipt <= Lookup(Run(log), item.id).value.receipt
  }

  lemma InOrderEarlier(log: seq<Op>, op: Op, id: string)
    requires InOrder(log + [op], id)
    ensures InOrder(log, id)
  {
    PrefixFacts(log, op, id);
    forall k, r | AcknowledgedAt(log, k, id, r) ensures StoredBefore(log, k, id) {
      assert AcknowledgedAt(log + [op], k, id, r);
    }
  }

  lemma AcknowledgedIsNotAhead(log: seq<Op>, k: int, id: string, receipt: int)
    requires InOrder(log, id) && AcknowledgedAt(log, k, id, receipt)
    ensures NotAhead(log, Item(id, receipt))
  {
    HistoryRefinement(log, id);
    var s :| s < k && SaveAt(log, s, id);
    assert StoredBefore(log, |log|, id);
    assert ReceiptAt(log, k, id, receipt);
  }

  lemma LogGrowsByOne(s: State, step: Step)
    requires Enabled(s, step)
    ensures Next(s, step).log == s.log ||
      (|Next(s, step).log| == |s.log| + 1 && Next(s, step).log == s.log + [Next(s, step).log[|s.log|]])
  {
  }

  ghost predicate PageNotAhead(s: State) {
    forall j :: 0 <= j < |s.shown| && InOrder(s.log, s.shown[j].id) ==> NotAhead(s.log, s.shown[j])
  }

  lemma PageChangeKeepsUp(s: State, step: Step)
    requires Enabled(s, step) && (step.LoadPage? || step.Deliver?)
    requires AllRecorded(s) && PageNotAhead(s)
    ensures PageNotAhead(Next(s, step))
  {
    var t := Next(s, step);
    forall j | 0 <= j < |t.shown| && InOrder(t.log, t.shown[j].id) ensures NotAhead(t.log, t.shown[j]) {
      if step.LoadPage? {
        assert j < |step.items| ==> t.shown[j] == step.items[j];
        assert j >= |step.items| ==> t.shown[j] == s.shown[j - |step.items|];
      } else {
        var x := s.emitted[s.seen];
        if x.MessageAcknowledged? && j == FirstItem(s.shown, x.id) {
          assert SignalRecorded(s.log, x);
          var k :| AcknowledgedAt(s.log, k, x.id, x.receipt);
          AcknowledgedIsNotAhead(s.log, k, x.id, x.receipt);
        } else {
          assert t.shown[j] == s.shown[j];
        }
      }
    }
  }

  lemma StoreChangeKeepsUp(s: State, op: Op)
    requires PageNotAhead(s)
    ensures PageNotAhead(s.(log := s.log + [op]))
  {
    var log := s.log + [op];
    forall j | 0 <= j < |s.shown| && InOrder(log, s.shown[j].id) ensures NotAhead(log, s.shown[j]) {
      InOrderEarlier(s.log, op, s.shown[j].id);
      assert NotAhead(s.log, s.shown[j]);
      ReceiptKeptByOneOperation(s.log, op, s.shown[j].id);
    }
  }

  lemma StepKeepsUp(s: State, step: Step)
    requires Enabled(s, step) && AllRecorded(s) && PageNotAhead(s)
    ensures PageNotAhead(Next(s, step))
  {
    if step.LoadPage? || step.Deliver? {
      PageChangeKeepsUp(s, step);
    } else {
      LogGrowsByOne(s, step);
      var t := Next(s, step);
      assert t.shown == s.shown;
      if t.log != s.log {
        StoreChangeKeepsUp(s, t.log[|s.log|]);
      }
    }
  }

  // In every interleaving the page shows no receipt that the store does not hold, for every
  // message whose receipts were all handled after its row was saved.
  lemma {:induction false} PageIsNeverAheadOfTheStore(run: seq<State>, steps: seq<Step>, i: nat)
    requires IsRun(run, steps) && i < |run|
    ensures PageNotAhead(run[i])
  {
    if i > 0 {
      PageIsNeverAheadOfTheStore(run, steps, i - 1);
      RunRecords(run, steps, i - 1);
      StepKeepsUp(run[i - 1], steps[i - 1]);
    }
  }

  lemma StoredReceiptWasHandled(log: seq<Op>, id: string)
    requires SavesCarryNoReceipt(log) && Lookup(Run(log), id).Some?
    ensures Lookup(Run(log), id).value.receipt >= 0
    ensures Lookup(Run(log), id).value.receipt > 0 ==> WasAcknowledged(log, id, Lookup(Run(log), id).value.receipt)
  {
    HistoryRefinement(log, id);
    var row := Lookup(Run(log), id).value;
    assert ReceiptIsMaximum(log, id, row);
    var s :| s < |log| && SaveAt(log, s, id);
    assert ReceiptAt(log, s, id, 0);
    var k :| ReceiptAt(log, k, id, row.receipt);
    assert row.receipt > 0 ==> AcknowledgedAt(log, k, id, row.receipt);
  }

  lemma {:induction false} ShownReceiptsInEveryRun(run: seq<State>, steps: seq<Step>, i: nat)
    requires IsRun(run, steps) && i < |run|
    ensures forall j :: 0 <= j < |run[i].shown| ==> run[i].shown[j].receipt >= 0
  {
    if i > 0 {
      ShownReceiptsInEveryRun(run, steps, i - 1);
      RunRecords(run, steps, i - 1);
      RunSavesCarryNoReceipt(run, steps, i - 1);
      ShownReceiptsStep(run[i - 1], steps[i - 1]);
    }
  }

  lemma ShownReceiptsStep(s: State, step: Step)
    requires Enabled(s, step) && AllRecorded(s) && SavesCarryNoReceipt(s.log)
    requires forall j :: 0 <= j < |s.shown| ==> s.shown[j].receipt >= 0
    ensures forall j :: 0 <= j < |Next(s, step).shown| ==> Next(s, step).shown[j].receipt >= 0
  {
    if step.LoadPage? {
      forall j | 0 <= j < |step.items| ensures step.items[j].receipt >= 0 {
        StoredReceiptWasHandled(s.log, step.items[j].id);
      }
    } else if step.Deliver? {
      assert SignalRecorded(s.log, s.emitted[s.seen]);
    } else {
      LogGrowsByOne(s, step);
      assert Next(s, step).shown == s.shown;
    }
  }

  // In other words, the page shows the stored receipt unless a higher one has been handled.
  // Which steps bring that about is the subject of PageReceipts.
  lemma ShownIsStoredUnlessHigherHandled(run: seq<State>, steps: seq<Step>, i: nat, item: Item)
    requires IsRun(run, steps) && i < |run| && item in run[i].shown && InOrder(run[i].log, item.id)
    ensures Lookup(Run(run[i].log), item.id).Some?
    ensures item.receipt == Lookup(Run(run[i].log), item.id).value.receipt <==>
      forall r :: WasAcknowledged(run[i].log, item.id, r) ==> r <= item.receipt
  {
    PageIsNeverAheadOfTheStore(run, steps, i);
    ShownReceiptsInEveryRun(run, steps, i);
    RunSavesCarryNoReceipt(run, steps, i);
    assert NotAhead(run[i].log, item);
    StoredReceiptWasHandled(run[i].log, item.id);
    forall r | WasAcknowledged(run[i].log, item.id, r) ensures NotAhead(run[i].log, Item(item.id, r)) {
      var k :| AcknowledgedAt(run[i].log, k, item.id, r);
      AcknowledgedIsNotAhead(run[i].log, k, item.id, r);
    }
  }

  // ---- Two runs in which the page and the store part ----

  lemma OneMoreStep(run: seq<State>, steps: seq<Step>, step: Step, s: State, t: State)
    requires IsRun(run, steps) && s == run[|run| - 1] && Enabled(s, step) && t == Next(s, step)
    ensures IsRun(run + [t], steps + [step])
  {
  }

  lemma AcknowledgeOnly(id: string, before: int, receipt: int)
    ensures Acknowledge([Item(id, before)], id, receipt) == [Item(id, receipt)]
  {
  }

  // Nothing is under way and the page has seen every signal.
  function Idle(log: seq<Op>, events: seq<Event>, emitted: seq<Signal>, shown: seq<Item>): State {
    State(log, map[], [], Waiting, events, events, [], events, emitted, shown, |emitted|)
  }

  lemma ReceiptHandled(run: seq<State>, steps: seq<Step>, s: State, id: string, kind: ReceiptType)
      returns (run': seq<State>, steps': seq<Step>)
    requires IsRun(run, steps) && s == run[|run| - 1] && s == Idle(s.log, s.handled, s.emitted, s.shown)
    requires MapReceiptType(kind) > 0
    ensures IsRun(run', steps')
    ensures var e := Receipt([id], kind);
      run'[|run'| - 1] == s.(log := s.log + [UpdateReceipt(id, MapReceiptType(kind))], queue := [e],
                             handled := s.handled + [e], accepted := s.accepted + [e])
  {
    var e, receipt := Receipt([id], kind), MapReceiptType(kind);
    var s1 := s.(handlers := map[0 := Updating([id], kind, 0)]);
    var s2 := s.(log := s.log + [UpdateReceipt(id, receipt)], handlers := map[0 := Updating([id], kind, 1)]);
    var s3 := s2.(handlers := map[0 := Sending(e)]);
    var s4 := s2.(handlers := map[], queue := [e], handled := s.handled + [e], accepted := s.accepted + [e]);
    OneMoreStep(run, steps, HandleReceipt(0, [id], kind), s, s1);
    run', steps' := run + [s1], steps + [HandleReceipt(0, [id], kind)];
    OneMoreStep(run', steps', UpdateNext(0), s1, s2);
    run', steps' := run' + [s2], steps' + [UpdateNext(0)];
    OneMoreStep(run', steps', UpdateNext(0), s2, s3);
    run', steps' := run' + [s3], steps' + [UpdateNext(0)];
    OneMoreStep(run', steps', TrySend(0), s3, s4);
    run', steps' := run' + [s4], steps' + [TrySend(0)];
  }

  lemma ReceiptShown(run: seq<State>, steps: seq<Step>, s: State, id: string, kind: ReceiptType, before: int)
      returns (run': seq<State>, steps': seq<Step>)
    requires IsRun(run, steps) && s == run[|run| - 1] && s.shown == [Item(id, before)]
    requires s.loop.Waiting? && s.queue == [Receipt([id], kind)] && s.seen == |s.emitted| && MapReceiptType(kind) > 0
    ensures IsRun(run', steps')
    ensures var e := Receipt([id], kind);
      run'[|run'| - 1] == s.(queue := [], delivered := s.delivered + [e], seen := s.seen + 1,
                             emitted := s.emitted + [MessageAcknowledged(id, MapReceiptType(kind))],
                             shown := [Item(id, MapReceiptType(kind))])
  {
    var e, receipt := Receipt([id], kind), MapReceiptType(kind);
    var s1 := s.(queue := [], delivered := s.delivered + [e], loop := Processing(e, 0));
    var s2 := s1.(emitted := s.emitted + [MessageAcknowledged(id, receipt)], loop := Processing(e, 1));
    var s3 := s2.(seen := s.seen + 1, shown := [Item(id, receipt)]);
    AcknowledgeOnly(id, before, receipt);
    OneMoreStep(run, steps, Receive, s, s1);
    run', steps' := run + [s1], steps + [Receive];
    OneMoreStep(run', steps', Process, s1, s2);
    run', steps' := run' + [s2], steps' + [Process];
    OneMoreStep(run', steps', Deliver, s2, s3);
    run', steps' := run' + [s3], steps' + [Deliver];
    OneMoreStep(run', steps', Process, s3, s3.(loop := Waiting));
    run', steps' := run' + [s3.(loop := Waiting)], steps' + [Process];
  }

  lemma ReceiptPasses(run: seq<State>, steps: seq<Step>, s: State, id: string, kind: ReceiptType, before: int)
      returns (run': seq<State>, steps': seq<Step>)
    requires IsRun(run, steps) && s == run[|run| - 1]
    requires s == Idle(s.log, s.handled, s.emitted, [Item(id, before)]) && MapReceiptType(kind) > 0
    ensures IsRun(run', steps')
    ensures run'[|run'| - 1] ==
      Idle(s.log + [UpdateReceipt(id, MapReceiptType(kind))], s.handled + [Receipt([id], kind)],
           s.emitted + [MessageAcknowledged(id, MapReceiptType(kind))], [Item(id, MapReceiptType(kind))])
  {
    run', steps' := ReceiptHandled(run, steps, s, id, kind);
    run', steps' := ReceiptShown(run', steps', run'[|run'| - 1], id, kind, before);
  }

  lemma LostReceiptLog(sent: StoredMessage)
    requires sent.receipt == 0
    ensures var log := [UpdateReceipt(sent.id, 2), Save(sent)];
      Lookup(Run(log), sent.id).Some? && Lookup(Run(log), sent.id).value.receipt == 0
  {
    var first := [UpdateReceipt(sent.id, 2)];
    assert [] + [UpdateReceipt(sent.id, 2)] == first;
    RunOneMore([], UpdateReceipt(sent.id, 2), sent.id);
    RunOneMore(first, Save(sent), sent.id);
    assert first + [Save(sent)] == [UpdateReceipt(sent.id, 2), Save(sent)];
  }

  // The read receipt of a message being sent is handled before SendTextMessage saves its row:
  // the page ends up ahead of the store.
  lemma ReceiptBeforeSaveIsLost(sent: StoredMessage) returns (run: seq<State>, steps: seq<Step>)
    requires sent.receipt == 0
    ensures IsRun(run, steps)
    ensures var last := run[|run| - 1];
      && last == Idle(last.log, last.handled, last.emitted, [Item(sent.id, 2)])
      && Lookup(Run(last.log), sent.id).Some? && Lookup(Run(last.log), sent.id).value.receipt == 0
  {
    LostReceiptLog(sent);
    run, steps := ReceiptHandled([INITIAL], [], INITIAL, sent.id, Read);
    var s1 := run[|run| - 1];
    var s2 := s1.(log := [UpdateReceipt(sent.id, 2), Save(sent)]);
    var s3 := s2.(shown := [Item(sent.id, 0)]);
    OneMoreStep(run, steps, Call(Save(sent)), s1, s2);
    run, steps := run + [s2], steps + [Call(Save(sent))];
    OneMoreStep(run, steps, LoadPage([Item(sent.id, 0)], true), s2, s3);
    run, steps := run + [s3], steps + [LoadPage([Item(sent.id, 0)], true)];
    run, steps := ReceiptShown(run, steps, s3, sent.id, Read, 0);
  }

  lemma LateDeliveredLog(sent: StoredMessage)
    requires sent.receipt == 0
    ensures var log := [Save(sent)]; Lookup(Run(log), sent.id).Some? && Lookup(Run(log), sent.id).value.receipt == 0
    ensures var log := [Save(sent)] + [UpdateReceipt(sent.id, 2)] + [UpdateReceipt(sent.id, 1)];
      Lookup(Run(log), sent.id).Some? && Lookup(Run(log), sent.id).value.receipt == 2
  {
    assert [] + [Save(sent)] == [Save(sent)];
    RunOneMore([], Save(sent), sent.id);
    RunOneMore([Save(sent)], UpdateReceipt(sent.id, 2), sent.id);
    RunOneMore([Save(sent)] + [UpdateReceipt(sent.id, 2)], UpdateReceipt(sent.id, 1), sent.id);
  }

  // Read is followed by a late Delivered: the page ends up below the store, which keeps Read.
  lemma LateDeliveredLowersThePage(sent: StoredMessage) returns (run: seq<State>, steps: seq<Step>)
    requires sent.receipt == 0
    ensures IsRun(run, steps)
    ensures var last := run[|run| - 1];
      && last == Idle(last.log, last.handled, last.emitted, [Item(sent.id, 1)])
      && Lookup(Run(last.log), sent.id).Some? && Lookup(Run(last.log), sent.id).value.receipt == 2
  {
    LateDeliveredLog(sent);
    var s1 := Idle([Save(sent)], [], [], []);
    var s2 := Idle([Save(sent)], [], [], [Item(sent.id, 0)]);
    run, steps := [INITIAL], [];
    OneMoreStep(run, steps, Call(Save(sent)), INITIAL, s1);
    run, steps := run + [s1], steps + [Call(Save(sent))];
    OneMoreStep(run, steps, LoadPage([Item(sent.id, 0)], true), s1, s2);
    run, steps := run + [s2], steps + [LoadPage([Item(sent.id, 0)], true)];
    run, steps := ReceiptPasses(run, steps, s2, sent.id, Read, 0);
    run, steps := ReceiptPasses(run, steps, run[|run| - 1], sent.id, Delivered, 2);
  }
}

// Unread counts: what each operation does to them, and the total the tray shows.
module Unread {
  import opened Sequences
  import opened Messages
  import opened Store
  import opened Queries

  predicate Unseen(r: StoredMessage) {
    !r.fromMe && !r.isRead
  }

  function UnseenIn(jid: string): StoredMessage -> bool {
    (r: StoredMessage) => r.jid == jid && Unseen(r)
  }

  function AnyUnseen(): StoredMessage -> bool {
    (r: StoredMessage) => Unseen(r)
  }

  function UnreadCount(t: Table, jid: string): nat {
    Count(UnseenIn(jid), t)
  }

  method GetUnreadCount(t: Table, jid: string) returns (count: nat)
    ensures count == UnreadCount(t, jid)
  {
    count := 0;
    for i := 0 to |t|
      invariant count == Count(UnseenIn(jid), t[..i])
    {
      assert t[..i + 1] == t[..i] + [t[i]];
      CountAppend(UnseenIn(jid), t[..i], [t[i]]);
      if t[i].jid == jid && !t[i].fromMe && !t[i].isRead {
        count := count + 1;
      }
    }
    assert t[..|t|] == t;
  }

  ghost function UnreadRows(t: Table, jid: string): set<int> {
    set i | 0 <= i < |t| && t[i].jid == jid && !t[i].fromMe && !t[i].isRead
  }

  // The count is the number of incoming rows of the chat that are not read.
  lemma UnreadCountIsCardinality(t: Table, jid: string)
    ensures UnreadCount(t, jid) == |UnreadRows(t, jid)|
  {
    CountIsCardinality(UnseenIn(jid), t);
    assert forall i :: i in Positions(UnseenIn(jid), t) <==> i in UnreadRows(t, jid);
    assert Positions(UnseenIn(jid), t) == UnreadRows(t, jid);
  }

  function Bit(b: bool): int {
    if b then 1 else 0
  }

  function Counted(row: Option<StoredMessage>, jid: string): int {
    Bit(row.Some? && UnseenIn(jid)(row.value))
  }

  lemma PutChangesOneRow(t: Table, m: StoredMessage, jid: string)
    ensures UnreadCount(Put(t, m), jid) ==
      UnreadCount(t, jid) - Counted(Lookup(t, m.id), jid) + Counted(Lookup(Put(t, m), m.id), jid)
  {
    var k := IndexOf(t, m.id);
    IndexOfIs(Put(t, m), m.id, k);
    if k < |t| {
      CountUpdate(UnseenIn(jid), t, k, Merge(t[k], m));
    } else {
      CountAppend(UnseenIn(jid), t, [m]);
    }
  }

  lemma PutRow(t: Table, m: StoredMessage)
    ensures Lookup(Put(t, m), m.id) ==
      Some(if Lookup(t, m.id).Some? then Merge(Lookup(t, m.id).value, m) else m)
  {
    IndexOfIs(Put(t, m), m.id, IndexOf(t, m.id));
  }

  // A save moves the counts by what happens to its own row and by nothing else.
  lemma SaveChangesOneRow(t: Table, msg: StoredMessage, jid: string)
    ensures UnreadCount(Apply(t, Save(msg)), jid) ==
      UnreadCount(t, jid) - Counted(Lookup(t, msg.id), jid)
      + Counted(RowStep(Lookup(t, msg.id), Save(msg), msg.id), jid)
  {
    PutChangesOneRow(t, FillPreview(msg), jid);
    PutRow(t, FillPreview(msg));
  }

  lemma NewMessageCountsOnce(t: Table, msg: StoredMessage, jid: string)
    requires Lookup(t, msg.id).None? && !msg.fromMe && !msg.isRead
    ensures UnreadCount(Apply(t, Save(msg)), jid) == UnreadCount(t, jid) + Bit(jid == msg.jid)
  {
    SaveChangesOneRow(t, msg, jid);
  }

  // A replayed id raises some chat's count exactly when an unread incoming copy arrives for
  // an unread row that was outgoing or sat in another chat; same chat and direction never do.
  lemma ReplayRaisesACountExactlyWhen(t: Table, msg: StoredMessage)
    requires Lookup(t, msg.id).Some?
    ensures var stored := Lookup(t, msg.id).value;
      (exists jid :: UnreadCount(Apply(t, Save(msg)), jid) > UnreadCount(t, jid)) <==>
      !msg.fromMe && !msg.isRead && !stored.isRead && (stored.fromMe || stored.jid != msg.jid)
  {
    var before, after := Lookup(t, msg.id), RowStep(Lookup(t, msg.id), Save(msg), msg.id);
    forall jid
      ensures UnreadCount(Apply(t, Save(msg)), jid) == UnreadCount(t, jid) - Counted(before, jid) + Counted(after, jid)
    {
      SaveChangesOneRow(t, msg, jid);
    }
    var stored := Lookup(t, msg.id).value;
    if !msg.fromMe && !msg.isRead && !stored.isRead && (stored.fromMe || stored.jid != msg.jid) {
      assert UnreadCount(Apply(t, Save(msg)), msg.jid) > UnreadCount(t, msg.jid);
    }
  }

  // Marking a chat as read empties its count and leaves every other chat alone; receipts
  // and local paths change no count.
  lemma UpdatesAndUnreadCounts(t: Table, op: Op, jid: string)
    requires !op.Save?
    ensures UnreadCount(Apply(t, op), jid) == if op == MarkJIDAsRead(jid) then 0 else UnreadCount(t, jid)
  {
    if op == MarkJIDAsRead(jid) {
      CountZero(UnseenIn(jid), Apply(t, op));
      forall r | r in Apply(t, op) ensures !UnseenIn(jid)(r) {
        var i :| 0 <= i < |t| && Apply(t, op)[i] == r;
        assert r == Touch(op, t[i]);
      }
    } else {
      CountPointwise(UnseenIn(jid), UnseenIn(jid), t, Apply(t, op));
    }
  }

  // ---- The chat list and the tray ----

  datatype Chat = Chat(
    jid: string, name: string, lastMessage: string, timestamp: int, unread: int, isGroup: bool, avatarPath: string)

  // What the group cache, the contacts and the avatar cache answered for one entry; a name is
  // empty when its lookup failed.
  datatype Answer = Answer(groupName: string, contactName: string, avatarPath: string)

  // int32(unreadCount) in Go keeps the low 32 bits.
  function AsInt32(n: int): (r: int)
    ensures -0x8000_0000 <= r < 0x8000_0000
    ensures n < 0x8000_0000 && n >= -0x8000_0000 ==> r == n
    ensures (n - r) % 0x1_0000_0000 == 0
  {
    var low := n % 0x1_0000_0000;
    if low < 0x8000_0000 then low else low - 0x1_0000_0000
  }

  // What one entry of the list holds. A chat without a name is shown under its jid.
  ghost predicate IsEntry(t: Table, r: StoredMessage, a: Answer, c: Chat) {
    && c.jid == r.jid && c.lastMessage == r.text && c.timestamp == r.timestamp && c.isGroup == r.isGroup
    && c.avatarPath == a.avatarPath && c.unread == AsInt32(UnreadCount(t, r.jid))
    && (r.isGroup && a.groupName != "" ==> c.name == a.groupName)
    && (!r.isGroup && a.contactName != "" ==> c.name == a.contactName)
    && ((if r.isGroup then a.groupName == "" else a.contactName == "") ==> c.name == r.jid)
  }

  function Entry(t: Table, r: StoredMessage, a: Answer): (c: Chat)
    ensures IsEntry(t, r, a, c)
  {
    Chat(r.jid, OrElse(if r.isGroup then a.groupName else a.contactName, r.jid), r.text, r.timestamp,
         AsInt32(UnreadCount(t, r.jid)), r.isGroup, a.avatarPath)
  }

  ghost predicate IsChatList(t: Table, answers: nat -> Answer, chats: seq<Chat>) {
    && |chats| == |RecentChats(t)|
    && forall i: nat :: i < |chats| ==> IsEntry(t, RecentChats(t)[i], answers(i), chats[i])
  }

  method GetChats(t: Table, answers: nat -> Answer) returns (chats: seq<Chat>)
    ensures IsChatList(t, answers, chats)
  {
    var recent := GetRecentChats(t);
    chats := [];
    for i := 0 to |recent|
      invariant |chats| == i
      invariant forall k: nat :: k < i ==> IsEntry(t, recent[k], answers(k), chats[k])
    {
      var message, answer, name := recent[i], answers(i), recent[i].jid;
      if message.isGroup {
        if answer.groupName != "" {
          name := answer.groupName;
        }
      } else if answer.contactName != "" {
        name := answer.contactName;
      }
      var unread := GetUnreadCount(t, message.jid);
      chats := chats + [Chat(message.jid, name, message.text, message.timestamp, AsInt32(unread), message.isGroup,
                             answer.avatarPath)];
    }
  }

  function UnreadOf(): Chat -> int {
    (c: Chat) => c.unread
  }

  method GetTotalUnread(chats: seq<Chat>) returns (total: int)
    ensures total == Sum(UnreadOf(), chats)
  {
    total := 0;
    for i := 0 to |chats|
      invariant total == Sum(UnreadOf(), chats[..i])
    {
      assert chats[..i + 1] == chats[..i] + [chats[i]];
      SumAppend(UnreadOf(), chats[..i], [chats[i]]);
      total := total + chats[i].unread;
    }
    assert chats[..|chats|] == chats;
  }

  lemma TotalAddsEveryEntry(chats: seq<Chat>, c: Chat)
    ensures Sum(UnreadOf(), []) == 0
    ensures Sum(UnreadOf(), chats + [c]) == Sum(UnreadOf(), chats) + c.unread
  {
    SumAppend(UnreadOf(), chats, [c]);
    assert Sum(UnreadOf(), [c]) == c.unread + Sum(UnreadOf(), []);
  }

  // The chats of the table, each once.
  function Chats(t: Table): (s: seq<string>)
    ensures forall i, j :: 0 <= i < j < |s| ==> s[i] != s[j]
    ensures forall i :: 0 <= i < |s| ==> exists r :: r in t && r.jid == s[i]
    ensures forall r :: r in t ==> r.jid in s
  {
    if t == [] then []
    else
      var rest := Chats(t[1..]);
      assert t == [t[0]] + t[1..];
      if t[0].jid in rest then rest else [t[0].jid] + rest
  }

  function TiedUnread(t: Table): string -> int {
    (jid: string) => Ties(t, jid) * UnreadCount(t, jid)
  }

  function ChatUnread(t: Table): string -> int {
    (jid: string) => UnreadCount(t, jid)
  }

  function Weighted(s: Table, weight: string -> int): string -> int {
    (jid: string) => Count(InChat(jid), s) * weight(jid)
  }

  function WeightOf(weight: string -> int): StoredMessage -> int {
    (r: StoredMessage) => weight(r.jid)
  }

  lemma {:induction false} SumPointwise<T>(f: T -> int, g: T -> int, s: seq<T>)
    requires forall i :: 0 <= i < |s| ==> f(s[i]) == g(s[i])
    ensures Sum(f, s) == Sum(g, s)
  {
    if s != [] {
      SumPointwise(f, g, s[1..]);
    }
  }

  // Raising one summand of distinct indices raises the sum by as much.
  lemma {:induction false} SumBump(f: string -> int, g: string -> int, s: seq<string>, j: string, d: int)
    requires j in s && forall i, k :: 0 <= i < k < |s| ==> s[i] != s[k]
    requires forall x :: g(x) == if x == j then f(x) + d else f(x)
    ensures Sum(g, s) == Sum(f, s) + d
  {
    if s[0] == j {
      assert forall i :: 0 <= i < |s| - 1 ==> s[1..][i] == s[i + 1] && s[i + 1] != j;
      SumPointwise(g, f, s[1..]);
    } else {
      SumBump(f, g, s[1..], j, d);
    }
  }

  lemma WeightedOneMore(s: Table, weight: string -> int, x: string)
    requires s != []
    ensures Weighted(s, weight)(x) ==
      if x == s[0].jid then Weighted(s[1..], weight)(x) + weight(x) else Weighted(s[1..], weight)(x)
  {
    var c := Count(InChat(x), s[1..]);
    assert (c + 1) * weight(x) == c * weight(x) + weight(x);
  }

  // Summing a weight over rows is summing it over chats, times the rows of each chat.
  lemma {:induction false} SumByChat(s: Table, weight: string -> int, chats: seq<string>)
    requires forall i, k :: 0 <= i < k < |chats| ==> chats[i] != chats[k]
    requires forall r :: r in s ==> r.jid in chats
    ensures Sum(WeightOf(weight), s) == Sum(Weighted(s, weight), chats)
  {
    if s == [] {
      SumOfZeros(Weighted(s, weight), chats);
    } else {
      var rest := s[1..];
      assert s == [s[0]] + rest;
      SumByChat(rest, weight, chats);
      forall x ensures Weighted(s, weight)(x) ==
        if x == s[0].jid then Weighted(rest, weight)(x) + weight(s[0].jid) else Weighted(rest, weight)(x)
      {
        WeightedOneMore(s, weight, x);
      }
      SumBump(Weighted(rest, weight), Weighted(s, weight), chats, s[0].jid, weight(s[0].jid));
    }
  }

  lemma {:induction false} SumOfZeros<T>(f: T -> int, s: seq<T>)
    requires forall i :: 0 <= i < |s| ==> f(s[i]) == 0
    ensures Sum(f, s) == 0
  {
    if s != [] {
      SumOfZeros(f, s[1..]);
    }
  }

  function One(): string -> int {
    (jid: string) => 1
  }

  lemma {:induction false} SumOfOnes<T>(f: T -> int, s: seq<T>)
    requires forall i :: 0 <= i < |s| ==> f(s[i]) == 1
    ensures Sum(f, s) == |s|
  {
    if s != [] {
      SumOfOnes(f, s[1..]);
    }
  }

  lemma UnseenByChat(t: Table, jid: string)
    ensures Weighted(Filter(AnyUnseen(), t), One())(jid) == ChatUnread(t)(jid)
  {
    CountOfFilter(InChat(jid), AnyUnseen(), UnseenIn(jid), t);
  }

  lemma UnseenSum(t: Table)
    ensures Count(AnyUnseen(), t) == Sum(WeightOf(One()), Filter(AnyUnseen(), t))
  {
    SumOfOnes(WeightOf(One()), Filter(AnyUnseen(), t));
    FilterLength(AnyUnseen(), t);
  }

  // The unread messages of all chats, counted directly or chat by chat.
  lemma GlobalUnreadIsTheSumOverChats(t: Table)
    ensures Count(AnyUnseen(), t) == Sum(ChatUnread(t), Chats(t))
  {
    var unseen, chats := Filter(AnyUnseen(), t), Chats(t);
    UnseenSum(t);
    FilterMembers(AnyUnseen(), t);
    forall r | r in unseen ensures r.jid in chats {
      assert r in t;
    }
    SumByChat(unseen, One(), chats);
    forall i | 0 <= i < |chats| ensures Weighted(unseen, One())(chats[i]) == ChatUnread(t)(chats[i]) {
      UnseenByChat(t, chats[i]);
    }
    SumPointwise(Weighted(unseen, One()), ChatUnread(t), chats);
  }

  lemma {:induction false} SumOfChatList(t: Table, rows: Table, chats: seq<Chat>)
    requires |chats| == |rows|
    requires forall i :: 0 <= i < |chats| ==> chats[i].unread == AsInt32(UnreadCount(t, rows[i].jid))
    requires forall jid :: UnreadCount(t, jid) < 0x8000_0000
    ensures Sum(UnreadOf(), chats) == Sum(WeightOf(ChatUnread(t)), rows)
  {
    if rows != [] {
      assert UnreadCount(t, rows[0].jid) < 0x8000_0000;
      SumOfChatList(t, rows[1..], chats[1..]);
    }
  }

  // What the tray shows: every chat counts once per row tied at its newest timestamp.
  lemma TrayTotalCountsTies(t: Table, answers: nat -> Answer, chats: seq<Chat>)
    requires IsChatList(t, answers, chats)
    requires forall jid :: UnreadCount(t, jid) < 0x8000_0000
    ensures Sum(UnreadOf(), chats) == Sum(TiedUnread(t), Chats(t))
  {
    var recent := RecentChats(t);
    SumOfChatList(t, recent, chats);
    forall r | r in recent ensures r.jid in Chats(t) {
      RecentChatsAreTheNewestRows(t, r);
    }
    SumByChat(recent, ChatUnread(t), Chats(t));
    forall i | 0 <= i < |Chats(t)| ensures Weighted(recent, ChatUnread(t))(Chats(t)[i]) == TiedUnread(t)(Chats(t)[i]) {
      TiesOfRecentChats(t, Chats(t)[i]);
    }
    SumPointwise(Weighted(recent, ChatUnread(t)), TiedUnread(t), Chats(t));
  }

  lemma {:induction false} SumDominates<T>(f: T -> int, g: T -> int, s: seq<T>)
    requires forall i :: 0 <= i < |s| ==> f(s[i]) <= g(s[i])
    ensures Sum(f, s) <= Sum(g, s)
    ensures Sum(f, s) == Sum(g, s) <==> forall i :: 0 <= i < |s| ==> f(s[i]) == g(s[i])
  {
    if s != [] {
      SumDominates(f, g, s[1..]);
      assert forall i :: 0 <= i < |s| - 1 ==> s[1..][i] == s[i + 1];
      if forall i :: 0 <= i < |s| - 1 ==> f(s[1..][i]) == g(s[1..][i]) {
        assert forall i :: 1 <= i < |s| ==> s[i] == s[1..][i - 1];
      }
    }
  }

  // The tray never shows less than the unread messages there are, and shows exactly as
  // many if and only if every chat with unread messages has a unique newest row.
  lemma TrayTotalAgainstGlobalUnread(t: Table, answers: nat -> Answer, chats: seq<Chat>)
    requires IsChatList(t, answers, chats)
    requires forall jid :: UnreadCount(t, jid) < 0x8000_0000
    ensures Sum(UnreadOf(), chats) >= Count(AnyUnseen(), t)
    ensures Sum(UnreadOf(), chats) == Count(AnyUnseen(), t) <==>
      forall r :: r in t && UnreadCount(t, r.jid) > 0 ==> HasOneNewestRow(t, r.jid)
  {
    TrayTotalCountsTies(t, answers, chats);
    GlobalUnreadIsTheSumOverChats(t);
    var cs := Chats(t);
    forall i | 0 <= i < |cs|
      ensures ChatUnread(t)(cs[i]) <= TiedUnread(t)(cs[i])
      ensures ChatUnread(t)(cs[i]) == TiedUnread(t)(cs[i]) <==> UnreadCount(t, cs[i]) == 0 || HasOneNewestRow(t, cs[i])
    {
      RecentChatsListsEveryTie(t, cs[i]);
      TimesAtLeastOne(Ties(t, cs[i]), UnreadCount(t, cs[i]));
    }
    SumDominates(ChatUnread(t), TiedUnread(t), cs);
    if Sum(UnreadOf(), chats) == Count(AnyUnseen(), t) {
      forall r | r in t && UnreadCount(t, r.jid) > 0 ensures HasOneNewestRow(t, r.jid) {
        assert r.jid in cs;
      }
    }
  }

  lemma TimesAtLeastOne(n: nat, u: nat)
    requires n >= 1
    ensures u <= n * u
    ensures u == n * u <==> u == 0 || n == 1
  {
  }

  // ---- A chat with two newest rows ----

  lemma CountsOfTwo(a: StoredMessage, b: StoredMessage)
    requires a.jid == b.jid && a.timestamp == b.timestamp && Unseen(a) && Unseen(b)
    ensures Count(AnyUnseen(), [a, b]) == 2
    ensures forall jid :: UnreadCount([a, b], jid) == if jid == a.jid then 2 else 0
    ensures Ties([a, b], a.jid) == 2
  {
    assert JoinsLatest([a, b])(a) && JoinsLatest([a, b])(b);
    CountOfTwo(AnyUnseen(), a, b);
    CountOfTwo(TiedInChat([a, b], a.jid), a, b);
    forall jid ensures UnreadCount([a, b], jid) == if jid == a.jid then 2 else 0 {
      CountOfTwo(UnseenIn(jid), a, b);
    }
  }

  lemma ChatsOfTwo(a: StoredMessage, b: StoredMessage)
    requires a.jid == b.jid
    ensures Chats([a, b]) == [a.jid]
  {
    assert [a, b][1..] == [b] && [b][1..] == [];
    assert Chats([b]) == [b.jid];
  }

  lemma TwoSavesTwoRows(a: StoredMessage, b: StoredMessage)
    requires a.id != b.id && FillPreview(a) == a && FillPreview(b) == b
    ensures Run([Save(a), Save(b)]) == [a, b]
  {
    assert [Save(a), Save(b)][..1] == [Save(a)] && [Save(a)][..0] == [];
    assert Run([Save(a)]) == [a];
  }

  lemma TotalOfTwo(a: StoredMessage, b: StoredMessage, answers: nat -> Answer, chats: seq<Chat>)
    requires a.jid == b.jid && a.timestamp == b.timestamp && Unseen(a) && Unseen(b)
    requires IsChatList([a, b], answers, chats)
    ensures Count(InChat(a.jid), RecentChats([a, b])) == 2 && Sum(UnreadOf(), chats) == 4
  {
    CountsOfTwo(a, b);
    ChatsOfTwo(a, b);
    TrayTotalCountsTies([a, b], answers, chats);
    TiesOfRecentChats([a, b], a.jid);
    assert Sum(TiedUnread([a, b]), [a.jid]) == TiedUnread([a, b])(a.jid) + Sum(TiedUnread([a, b]), []);
  }

  // Two unread messages reach a chat in the same second: the chat is listed twice, and the
  // tray shows four where two are unread.
  lemma TrayShowsFourForTwo(answers: nat -> Answer) returns (log: seq<Op>, chats: seq<Chat>)
    ensures log == [Save(EmptyMessage("a", "chat", 1)), Save(EmptyMessage("b", "chat", 1))]
    ensures IsChatList(Run(log), answers, chats)
    ensures Count(InChat("chat"), RecentChats(Run(log))) == 2 && Count(AnyUnseen(), Run(log)) == 2
    ensures Sum(UnreadOf(), chats) == 4
  {
    var a, b := EmptyMessage("a", "chat", 1), EmptyMessage("b", "chat", 1);
    log := [Save(a), Save(b)];
    TwoSavesTwoRows(a, b);
    CountsOfTwo(a, b);
    var recent := RecentChats([a, b]);
    chats := seq(|recent|, i requires 0 <= i < |recent| => Entry([a, b], recent[i], answers(i)));
    TotalOfTwo(a, b, answers, chats);
  }
}
